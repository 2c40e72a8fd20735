/** String helpers with the meaning of Go's `strings.HasPrefix`,
    `strings.TrimSuffix` and `strings.Join`, plus the `Split` that undoes
    a `Join` on a one-character separator. */
module Strings {

  predicate HasPrefix(s: string, p: string) {
    |p| <= |s| && s[..|p|] == p
  }

  predicate HasSuffix(s: string, suf: string) {
    |suf| <= |s| && s[|s| - |suf|..] == suf
  }

  lemma PrefixOfConcat(a: string, b: string)
    ensures HasPrefix(a + b, a)
  {
    assert (a + b)[..|a|] == a;
  }

  lemma SuffixOfConcat(a: string, b: string)
    ensures HasSuffix(a + b, b)
  {
    assert (a + b)[|a + b| - |b|..] == b;
  }

  lemma PrefixExtends(x: string, a: string, y: string)
    requires HasPrefix(x, a)
    ensures HasPrefix(x + y, a)
  {
    assert (x + y)[..|a|] == x[..|a|];
  }

  lemma PrefixShortens(s: string, a: string, b: string)
    requires HasPrefix(s, a + b)
    ensures HasPrefix(s, a)
  {
    assert s[..|a|] == s[..|a + b|][..|a|];
    assert (a + b)[..|a|] == a;
  }

  lemma Assoc(a: string, b: string, c: string)
    ensures (a + b) + c == a + (b + c)
  {
  }

  lemma SuffixExtends(x: string, b: string, y: string)
    requires HasSuffix(y, b)
    ensures HasSuffix(x + y, b)
  {
    assert (x + y)[|x + y| - |b|..] == y[|y| - |b|..];
  }

  /** Removes one copy of `suf` from the end of `s` when `s` ends with it. */
  function TrimSuffix(s: string, suf: string): (r: string)
    ensures HasSuffix(s, suf) ==> r + suf == s
    ensures !HasSuffix(s, suf) ==> r == s
  {
    if HasSuffix(s, suf) then s[..|s| - |suf|] else s
  }

  lemma TrimAppended(s: string, suf: string)
    ensures TrimSuffix(s + suf, suf) == s
  {
    assert (s + suf)[|s + suf| - |suf|..] == suf;
    assert (s + suf)[..|s|] == s;
  }

  /** The parts, in order, with `sep` between each two neighbours. */
  function Join(parts: seq<string>, sep: string): string
    decreases |parts|
  {
    if |parts| == 0 then ""
    else if |parts| == 1 then parts[0]
    else parts[0] + sep + Join(parts[1..], sep)
  }

  /** Index of the first `c` in `s`, or `|s|` when there is none. */
  function IndexOf(s: string, c: char): (i: nat)
    ensures i <= |s|
    ensures i < |s| ==> s[i] == c
    ensures forall k :: 0 <= k < i ==> s[k] != c
  {
    if |s| == 0 then 0
    else if s[0] == c then 0
    else 1 + IndexOf(s[1..], c)
  }

  /** Cuts `s` at every `c`; the inverse of `Join` with separator `[c]`. */
  function Split(s: string, c: char): (parts: seq<string>)
    ensures |parts| > 0
    decreases |s|
  {
    var i := IndexOf(s, c);
    if i == |s| then [s] else [s[..i]] + Split(s[i + 1..], c)
  }

  lemma SplitCons(p: string, c: char, rest: string)
    requires c !in p
    ensures Split(p + [c] + rest, c) == [p] + Split(rest, c)
  {
    var s := p + [c] + rest;
    IndexOfPrefixFree(p, c, rest);
    assert s[..|p|] == p;
    assert s[|p| + 1..] == rest;
  }

  lemma {:induction false} IndexOfPrefixFree(p: string, c: char, rest: string)
    requires c !in p
    ensures IndexOf(p + [c] + rest, c) == |p|
  {
    var s := p + [c] + rest;
    if |p| > 0 {
      assert s[1..] == p[1..] + [c] + rest;
      IndexOfPrefixFree(p[1..], c, rest);
    }
  }

  /** Joining on a separator that occurs in no part can be undone by `Split`. */
  lemma {:induction false} SplitJoin(parts: seq<string>, c: char)
    requires |parts| > 0
    requires forall k :: 0 <= k < |parts| ==> c !in parts[k]
    ensures Split(Join(parts, [c]), c) == parts
  {
    if |parts| == 1 {
      assert IndexOf(parts[0], c) == |parts[0]|;
    } else {
      SplitJoin(parts[1..], c);
      SplitCons(parts[0], c, Join(parts[1..], [c]));
      assert [parts[0]] + parts[1..] == parts;
    }
  }

  /** Hence such joins are injective on non-empty lists of parts. */
  lemma JoinInjective(a: seq<string>, b: seq<string>, c: char)
    requires |a| > 0 && |b| > 0
    requires forall k :: 0 <= k < |a| ==> c !in a[k]
    requires forall k :: 0 <= k < |b| ==> c !in b[k]
    requires Join(a, [c]) == Join(b, [c])
    ensures a == b
  {
    SplitJoin(a, c);
    SplitJoin(b, c);
  }
}
