/** When the ports of a record label are unambiguous. An anchor is the
    entry's path joined with `_`, so two different fields can share one
    (see `LabelExamples.AnchorsCanCollide`). When no drawn field name
    contains `_` and the drawn names of each struct are pairwise different,
    every entry of a label, at every nesting level, has its own anchor. */
module Anchors {
  import opened Strings
  import opened GoTypes
  import opened Label

  /** The names of `vs`, in order. */
  function Names(vs: seq<Field>): (ns: seq<string>)
    ensures |ns| == |vs|
    ensures forall k :: 0 <= k < |vs| ==> ns[k] == vs[k].name
  {
    seq(|vs|, k requires 0 <= k < |vs| => vs[k].name)
  }

  /** Drawn field names of one struct: pairwise different, none containing
      the anchor separator. */
  predicate NamesOk(vs: seq<Field>) {
    && (forall k :: 0 <= k < |vs| ==> '_' !in vs[k].name)
    && (forall i, j :: 0 <= i < j < |vs| ==> vs[i].name != vs[j].name)
  }

  /** Every struct of the environment has unambiguous drawn field names. */
  ghost predicate WellNamed(env: Env) {
    forall t :: IsStruct(env, t) ==> NamesOk(Visible(env[t].fields))
  }

  /** An entry drawn below `depth`: its path extends `depth`, and no name
      it adds contains the separator. */
  ghost predicate Below(n: Entry, depth: seq<string>) {
    && |depth| < |n.path|
    && n.path[..|depth|] == depth
    && forall k :: |depth| <= k < |n.path| ==> '_' !in n.path[k]
  }

  ghost predicate DistinctPaths(ns: seq<Entry>) {
    forall i, j :: 0 <= i < j < |ns| ==> ns[i].path != ns[j].path
  }

  lemma DistinctAppend(a: seq<Entry>, b: seq<Entry>)
    requires DistinctPaths(a) && DistinctPaths(b)
    requires forall i, j :: 0 <= i < |a| && 0 <= j < |b| ==> a[i].path != b[j].path
    ensures DistinctPaths(a + b)
  {
    forall i, j | 0 <= i < j < |a + b|
      ensures (a + b)[i].path != (a + b)[j].path
    {
      if j < |a| {
        assert (a + b)[i] == a[i] && (a + b)[j] == a[j];
      } else if i < |a| {
        assert (a + b)[i] == a[i] && (a + b)[j] == b[j - |a|];
      } else {
        assert (a + b)[i] == b[i - |a|] && (a + b)[j] == b[j - |a|];
      }
    }
  }

  /** Names stay unambiguous without their first field, which is not
      among the rest. */
  lemma NamesOkCons(f: Field, rest: seq<Field>)
    requires NamesOk([f] + rest)
    ensures NamesOk(rest) && '_' !in f.name && f.name !in Names(rest)
  {
    var vs := [f] + rest;
    assert vs[0] == f;
    forall k | 0 <= k < |rest|
      ensures rest[k].name != f.name && '_' !in rest[k].name
    {
      assert rest[k] == vs[k + 1];
    }
    forall i, j | 0 <= i < j < |rest|
      ensures rest[i].name != rest[j].name
    {
      assert rest[i] == vs[i + 1] && rest[j] == vs[j + 1];
    }
  }

  /** Dropping the first declared field keeps the drawn names unambiguous. */
  lemma NamesOkTail(fs: seq<Field>)
    requires |fs| > 0 && NamesOk(Visible(fs))
    ensures NamesOk(Visible(fs[1..]))
    ensures !Hidden(fs[0].name) ==> '_' !in fs[0].name && fs[0].name !in Names(Visible(fs[1..]))
  {
    if !Hidden(fs[0].name) {
      assert Visible(fs) == [fs[0]] + Visible(fs[1..]);
      NamesOkCons(fs[0], Visible(fs[1..]));
    } else {
      assert Visible(fs) == Visible(fs[1..]);
    }
  }

  /** An entry below a deeper path is below the shallower one too, when the
      extra name has no separator. */
  lemma BelowShallower(n: Entry, depth: seq<string>, name: string)
    requires '_' !in name
    requires Below(n, depth + [name])
    ensures Below(n, depth) && n.path[|depth|] == name
  {
    var path := depth + [name];
    assert n.path[..|path|] == path;
    assert n.path[..|depth|] == path[..|depth|];
    assert n.path[|depth|] == path[|depth|];
  }

  lemma {:induction false} EntriesDistinct(env: Env, t: string, depth: seq<string>, flatten: seq<string>)
    requires WellNamed(env) && IsStruct(env, t)
    ensures var ns := Nodes(Entries(env, t, depth, flatten));
      DistinctPaths(ns) && forall i :: 0 <= i < |ns| ==> Below(ns[i], depth)
    decreases Budget(depth), 2
  {
    if |depth| <= MaxDepth {
      FieldEntriesDistinct(env, env[t].fields, depth, flatten);
    }
  }

  lemma NamesCons(f: Field, vs: seq<Field>)
    ensures Names([f] + vs) == [f.name] + Names(vs)
  {
    var l, r := Names([f] + vs), [f.name] + Names(vs);
    forall k | 0 <= k < |l|
      ensures l[k] == r[k]
    {
      if k > 0 {
        assert ([f] + vs)[k] == vs[k - 1];
      }
    }
  }

  /** The entries of one field followed by those of the later fields, all
      under one depth and told apart by the name right after it. */
  lemma Combine(na: seq<Entry>, nb: seq<Entry>, depth: seq<string>, name: string, rest: seq<string>)
    requires DistinctPaths(na) && DistinctPaths(nb) && name !in rest
    requires forall i :: 0 <= i < |na| ==> Below(na[i], depth) && na[i].path[|depth|] == name
    requires forall i :: 0 <= i < |nb| ==> Below(nb[i], depth) && nb[i].path[|depth|] in rest
    ensures var ns := na + nb;
      && DistinctPaths(ns)
      && forall i :: 0 <= i < |ns| ==> Below(ns[i], depth) && ns[i].path[|depth|] in [name] + rest
  {
    DistinctAppend(na, nb);
    var ns := na + nb;
    forall i | 0 <= i < |ns|
      ensures Below(ns[i], depth) && ns[i].path[|depth|] in [name] + rest
    {
      if i < |na| {
        assert ns[i] == na[i];
      } else {
        assert ns[i] == nb[i - |na|];
      }
    }
  }

  lemma {:induction false} FieldEntriesDistinct(env: Env, fs: seq<Field>, depth: seq<string>, flatten: seq<string>)
    requires WellNamed(env) && |depth| <= MaxDepth
    requires NamesOk(Visible(fs))
    ensures var ns := Nodes(FieldEntries(env, fs, depth, flatten));
      && DistinctPaths(ns)
      && forall i :: 0 <= i < |ns| ==> Below(ns[i], depth) && ns[i].path[|depth|] in Names(Visible(fs))
    decreases Budget(depth), 1, |fs|
  {
    if |fs| > 0 {
      var a := FieldEntry(env, fs[0], depth, flatten);
      var b := FieldEntries(env, fs[1..], depth, flatten);
      assert FieldEntries(env, fs, depth, flatten) == a + b;
      NodesAppend(a, b);
      NamesOkTail(fs);
      FieldEntriesDistinct(env, fs[1..], depth, flatten);
      if Hidden(fs[0].name) {
        assert a == [];
        assert Nodes(a + b) == Nodes(b);
        assert Visible(fs) == Visible(fs[1..]);
      } else {
        FieldEntryDistinct(env, fs[0], depth, flatten);
        assert Visible(fs) == [fs[0]] + Visible(fs[1..]);
        NamesCons(fs[0], Visible(fs[1..]));
        Combine(Nodes(a), Nodes(b), depth, fs[0].name, Names(Visible(fs[1..])));
      }
    }
  }

  lemma {:induction false} FieldEntryDistinct(env: Env, f: Field, depth: seq<string>, flatten: seq<string>)
    requires WellNamed(env) && |depth| <= MaxDepth
    requires !Hidden(f.name) && '_' !in f.name
    ensures var ns := Nodes(FieldEntry(env, f, depth, flatten));
      && DistinctPaths(ns)
      && forall i :: 0 <= i < |ns| ==> Below(ns[i], depth) && ns[i].path[|depth|] == f.name
    decreases Budget(depth), 0
  {
    var path := depth + [f.name];
    var es := FieldEntry(env, f, depth, flatten);
    var e := es[0];
    assert e.path == path;
    assert Below(e, depth) && e.path[|depth|] == f.name by {
      assert path[..|depth|] == depth;
    }
    if Flattens(env, f, flatten) {
      var u := Unwrap(env, f.typ);
      var sub := Nodes(Entries(env, u, path, flatten));
      EntriesDistinct(env, u, path, flatten);
      assert Nodes(es) == [e] + sub + Nodes([]);
      assert Nodes(es) == [e] + sub;
      forall j | 0 <= j < |sub|
        ensures Below(sub[j], depth) && sub[j].path[|depth|] == f.name && sub[j].path != e.path
      {
        BelowShallower(sub[j], depth, f.name);
      }
      DistinctAppend([e], sub);
    } else {
      assert Nodes(es) == [e] + Nodes([]);
      assert Nodes(es) == [e];
    }
  }

  /** With unambiguous names, the entries of a label, at every nesting
      level, have pairwise different anchors, so each `<anchor>` port of
      the record names exactly one field. */
  lemma AnchorsDistinct(env: Env, t: string, flatten: seq<string>)
    requires WellNamed(env) && IsStruct(env, t)
    ensures var ns := Nodes(Entries(env, t, [], flatten));
      forall i, j :: 0 <= i < j < |ns| ==> Anchor(ns[i].path) != Anchor(ns[j].path)
  {
    var ns := Nodes(Entries(env, t, [], flatten));
    EntriesDistinct(env, t, [], flatten);
    forall i, j | 0 <= i < j < |ns|
      ensures Anchor(ns[i].path) != Anchor(ns[j].path)
    {
      var p, q := ns[i].path, ns[j].path;
      assert Below(ns[i], []) && Below(ns[j], []);
      if Join(p, "_") == Join(q, "_") {
        assert "_" == ['_'];
        JoinInjective(p, q, '_');
      }
    }
  }
}
