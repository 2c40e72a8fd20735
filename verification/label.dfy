/** The record-label builder: `labelStruct` turns a struct type into the
    `|`-separated record label of the graph language, inlining the struct
    fields named in the flatten list up to a fixed depth.

    `LabelStruct`, `FieldsText` and `FieldPiece` follow the source's loop
    step by step. `Entries` builds the same label as a tree of entries and
    `Render` prints such a tree; `LabelIsRender` proves the two agree, and
    the remaining lemmas state the label's properties on the tree. */
module Label {
  import opened Strings
  import opened GoTypes

  /** Deepest path (in field names) that is still expanded. */
  const MaxDepth: nat := 5

  /** How many more levels may be expanded below `depth`. */
  function Budget(depth: seq<string>): nat {
    if |depth| <= MaxDepth then MaxDepth + 1 - |depth| else 0
  }

  /** A field is inlined when its type, unwrapped once, is a struct and its
      name is in the flatten list. The same list applies at every depth. */
  predicate Flattens(env: Env, f: Field, flatten: seq<string>) {
    IsStruct(env, Unwrap(env, f.typ)) && f.name in flatten
  }

  /** The anchor (record port) of a path: its names joined by `_`. */
  function Anchor(path: seq<string>): string {
    Join(path, "_")
  }

  // ---------------------------------------------------------------------
  // The label text, as the source's loop builds it

  /** The record label of struct `t` whose fields sit under path `depth`. */
  function LabelStruct(env: Env, t: string, depth: seq<string>, flatten: seq<string>): string
    requires IsStruct(env, t)
    decreases Budget(depth), 2
  {
    if |depth| > MaxDepth then ""
    else TrimSuffix(FieldsText(env, env[t].fields, depth, flatten), "|")
  }

  /** The loop's accumulator after visiting `fs`: every piece ends in `|`. */
  function FieldsText(env: Env, fs: seq<Field>, depth: seq<string>, flatten: seq<string>): string
    requires |depth| <= MaxDepth
    decreases Budget(depth), 1, |fs|
  {
    if |fs| == 0 then ""
    else FieldPiece(env, fs[0], depth, flatten) + FieldsText(env, fs[1..], depth, flatten)
  }

  /** What one loop iteration appends for field `f`. */
  function FieldPiece(env: Env, f: Field, depth: seq<string>, flatten: seq<string>): string
    requires |depth| <= MaxDepth
    decreases Budget(depth), 0
  {
    if Hidden(f.name) then ""
    else
      var path := depth + [f.name];
      if Flattens(env, f, flatten) then
        var flat := LabelStruct(env, Unwrap(env, f.typ), path, flatten);
        var sub := if flat != "" then "|" + flat else "";
        "{<" + Anchor(path) + "> " + f.name + " " + sub + " }|"
      else
        "<" + Anchor(path) + "> " + f.name + "|"
  }

  /** One step of the field filter. */
  lemma VisibleStep(fs: seq<Field>)
    requires |fs| > 0
    ensures Hidden(fs[0].name) ==> Visible(fs) == Visible(fs[1..])
    ensures !Hidden(fs[0].name) ==> Visible(fs) == [fs[0]] + Visible(fs[1..])
  {
  }

  /** Texts that are empty or end in `|` stay so when concatenated. */
  lemma BarsConcat(a: string, b: string)
    requires a != "" ==> |a| >= 2 && a[|a| - 1] == '|'
    requires b != "" ==> |b| >= 2 && b[|b| - 1] == '|'
    ensures a + b == "" <==> a == "" && b == ""
    ensures a + b != "" ==> |a + b| >= 2 && (a + b)[|a + b| - 1] == '|'
  {
    if b != "" {
      assert (a + b)[|a + b| - 1] == b[|b| - 1];
    } else {
      assert a + b == a;
    }
  }

  /** An iteration appends nothing exactly for a hidden field, and
      otherwise a text of at least two characters ending in `|`. */
  lemma PieceEmptyIff(env: Env, f: Field, depth: seq<string>, flatten: seq<string>)
    requires |depth| <= MaxDepth
    ensures var p := FieldPiece(env, f, depth, flatten);
      && (p == "" <==> Hidden(f.name))
      && (p != "" ==> |p| >= 2 && p[|p| - 1] == '|')
  {
  }

  /** The accumulated text is empty exactly when no field is drawn, and
      otherwise ends in `|`. */
  lemma {:induction false} FieldsTextEmptyIff(env: Env, fs: seq<Field>, depth: seq<string>, flatten: seq<string>)
    requires |depth| <= MaxDepth
    ensures var s := FieldsText(env, fs, depth, flatten);
      && (s == "" <==> Visible(fs) == [])
      && (s != "" ==> |s| >= 2 && s[|s| - 1] == '|')
    decreases |fs|
  {
    if |fs| > 0 {
      var piece := FieldPiece(env, fs[0], depth, flatten);
      var rest := FieldsText(env, fs[1..], depth, flatten);
      var text := FieldsText(env, fs, depth, flatten);
      assert text == piece + rest;
      PieceEmptyIff(env, fs[0], depth, flatten);
      FieldsTextEmptyIff(env, fs[1..], depth, flatten);
      VisibleStep(fs);
      var vs, vrest, hidden := Visible(fs), Visible(fs[1..]), Hidden(fs[0].name);
      assert (piece == "" <==> hidden);
      assert (piece != "" ==> |piece| >= 2 && piece[|piece| - 1] == '|');
      assert (rest == "" <==> vrest == []);
      assert (rest != "" ==> |rest| >= 2 && rest[|rest| - 1] == '|');
      assert hidden ==> vs == vrest;
      assert !hidden ==> |vs| > 0;
      EmptyIffStep(text, piece, rest, vs, vrest, hidden);
    }
  }

  /** The step of `FieldsTextEmptyIff`, on plain texts and field lists. */
  lemma EmptyIffStep(text: string, piece: string, rest: string, vs: seq<Field>, vrest: seq<Field>, hidden: bool)
    requires text == piece + rest
    requires (piece == "" <==> hidden) && (piece != "" ==> |piece| >= 2 && piece[|piece| - 1] == '|')
    requires (rest == "" <==> vrest == []) && (rest != "" ==> |rest| >= 2 && rest[|rest| - 1] == '|')
    requires hidden ==> vs == vrest
    requires !hidden ==> |vs| > 0
    ensures text == "" <==> vs == []
    ensures text != "" ==> |text| >= 2 && text[|text| - 1] == '|'
  {
    BarsConcat(piece, rest);
  }

  /** A label is empty exactly beyond the depth bound or when its struct has
      no drawn field. This is what the enclosing level's `flat != ""` test
      decides. */
  lemma LabelEmptyIff(env: Env, t: string, depth: seq<string>, flatten: seq<string>)
    requires IsStruct(env, t)
    ensures LabelStruct(env, t, depth, flatten) == ""
        <==> |depth| > MaxDepth || Visible(env[t].fields) == []
  {
    if |depth| <= MaxDepth {
      var s := FieldsText(env, env[t].fields, depth, flatten);
      FieldsTextEmptyIff(env, env[t].fields, depth, flatten);
      if s != "" {
        assert HasSuffix(s, "|") by {
          assert s[|s| - 1..] == [s[|s| - 1]];
        }
        assert TrimSuffix(s, "|") == s[..|s| - 1];
      }
    }
  }

  // ---------------------------------------------------------------------
  // The label as a tree

  /** One label entry: a plain anchor, or an anchor followed by the
      inlined sub-record of a flattened field. */
  datatype Entry =
    | Leaf(path: seq<string>, name: string)
    | Group(path: seq<string>, name: string, sub: seq<Entry>)

  function Entries(env: Env, t: string, depth: seq<string>, flatten: seq<string>): seq<Entry>
    requires IsStruct(env, t)
    decreases Budget(depth), 2
  {
    if |depth| > MaxDepth then []
    else FieldEntries(env, env[t].fields, depth, flatten)
  }

  function FieldEntries(env: Env, fs: seq<Field>, depth: seq<string>, flatten: seq<string>): seq<Entry>
    requires |depth| <= MaxDepth
    decreases Budget(depth), 1, |fs|
  {
    if |fs| == 0 then []
    else FieldEntry(env, fs[0], depth, flatten) + FieldEntries(env, fs[1..], depth, flatten)
  }

  /** No entry for a hidden field, otherwise exactly one. */
  function FieldEntry(env: Env, f: Field, depth: seq<string>, flatten: seq<string>): seq<Entry>
    requires |depth| <= MaxDepth
    decreases Budget(depth), 0
  {
    if Hidden(f.name) then []
    else
      var path := depth + [f.name];
      if Flattens(env, f, flatten) then
        [Group(path, f.name, Entries(env, Unwrap(env, f.typ), path, flatten))]
      else
        [Leaf(path, f.name)]
  }

  /** The text of one entry in the record-label language. */
  function RenderEntry(e: Entry): string
    decreases e, 1
  {
    match e
    case Leaf(p, n) => "<" + Anchor(p) + "> " + n
    case Group(p, n, sub) =>
      "{<" + Anchor(p) + "> " + n + " " + (if sub == [] then "" else "|" + Render(sub)) + " }"
  }

  /** Entries separated by `|`. */
  function Render(es: seq<Entry>): string
    decreases es, 0
  {
    if |es| == 0 then ""
    else if |es| == 1 then RenderEntry(es[0])
    else RenderEntry(es[0]) + "|" + Render(es[1..])
  }

  // ---------------------------------------------------------------------
  // The loop's text is the rendered tree

  lemma RenderEmptyIff(es: seq<Entry>)
    ensures Render(es) == "" <==> es == []
  {
    if |es| > 0 {
      match es[0]
      case Leaf(_, _) =>
      case Group(_, _, _) =>
    }
  }

  lemma RenderCons(e: Entry, rest: seq<Entry>)
    ensures Render([e] + rest) == RenderEntry(e) + (if rest == [] then "" else "|" + Render(rest))
  {
    assert ([e] + rest)[1..] == rest;
  }

  /** The label the loop builds is the rendering of the entry tree. */
  lemma {:induction false} LabelIsRender(env: Env, t: string, depth: seq<string>, flatten: seq<string>)
    requires IsStruct(env, t)
    ensures LabelStruct(env, t, depth, flatten) == Render(Entries(env, t, depth, flatten))
    decreases Budget(depth), 2
  {
    if |depth| <= MaxDepth {
      var es := FieldEntries(env, env[t].fields, depth, flatten);
      FieldsTextIsRender(env, env[t].fields, depth, flatten);
      if es != [] {
        TrimAppended(Render(es), "|");
      }
    }
  }

  lemma {:induction false} FieldsTextIsRender(env: Env, fs: seq<Field>, depth: seq<string>, flatten: seq<string>)
    requires |depth| <= MaxDepth
    ensures var es := FieldEntries(env, fs, depth, flatten);
      FieldsText(env, fs, depth, flatten) == (if es == [] then "" else Render(es) + "|")
    decreases Budget(depth), 1, |fs|
  {
    if |fs| > 0 {
      var e := FieldEntry(env, fs[0], depth, flatten);
      var rest := FieldEntries(env, fs[1..], depth, flatten);
      var es := FieldEntries(env, fs, depth, flatten);
      var text := FieldsText(env, fs, depth, flatten);
      assert es == e + rest;
      assert text == FieldPiece(env, fs[0], depth, flatten) + FieldsText(env, fs[1..], depth, flatten);
      FieldPieceIsRender(env, fs[0], depth, flatten);
      FieldsTextIsRender(env, fs[1..], depth, flatten);
      if e == [] {
        assert es == rest;
      } else {
        var p := RenderEntry(e[0]);
        assert es == [e[0]] + rest;
        RenderCons(e[0], rest);
        if rest != [] {
          PipeAppend(p, Render(rest));
        } else {
          assert text == p + "|";
        }
      }
    }
  }

  lemma PipeAppend(p: string, r: string)
    ensures (p + "|") + (r + "|") == (p + "|" + r) + "|"
  {
  }

  lemma {:induction false} FieldPieceIsRender(env: Env, f: Field, depth: seq<string>, flatten: seq<string>)
    requires |depth| <= MaxDepth
    ensures var e := FieldEntry(env, f, depth, flatten);
      |e| <= 1 &&
      FieldPiece(env, f, depth, flatten) == (if e == [] then "" else RenderEntry(e[0]) + "|")
    decreases Budget(depth), 0
  {
    if !Hidden(f.name) && Flattens(env, f, flatten) {
      var path := depth + [f.name];
      var u := Unwrap(env, f.typ);
      LabelIsRender(env, u, path, flatten);
      RenderEmptyIff(Entries(env, u, path, flatten));
    }
  }

  // ---------------------------------------------------------------------
  // One entry per drawn field

  /** `e` is the entry the builder makes for field `f` under `depth`. */
  ghost predicate EntryFor(env: Env, f: Field, depth: seq<string>, flatten: seq<string>, e: Entry) {
    && e.name == f.name
    && e.path == depth + [f.name]
    && (e.Group? <==> Flattens(env, f, flatten))
    && (e.Group? ==> e.sub == Entries(env, Unwrap(env, f.typ), e.path, flatten))
  }

  /** Below the depth bound, the label has exactly one entry per field not
      hidden, in declaration order; it is a group exactly when the field is
      flattened, and a group holds the label of the unwrapped field type one
      level deeper, built with the same flatten list. */
  lemma EntriesShape(env: Env, t: string, depth: seq<string>, flatten: seq<string>)
    requires IsStruct(env, t)
    requires |depth| <= MaxDepth
    ensures var es := Entries(env, t, depth, flatten);
      var vs := Visible(env[t].fields);
      |es| == |vs| && forall i :: 0 <= i < |es| ==> EntryFor(env, vs[i], depth, flatten, es[i])
  {
    FieldEntriesShape(env, env[t].fields, depth, flatten);
  }

  lemma {:induction false} FieldEntriesShape(env: Env, fs: seq<Field>, depth: seq<string>, flatten: seq<string>)
    requires |depth| <= MaxDepth
    ensures var es := FieldEntries(env, fs, depth, flatten);
      var vs := Visible(fs);
      |es| == |vs| && forall i :: 0 <= i < |es| ==> EntryFor(env, vs[i], depth, flatten, es[i])
    decreases |fs|
  {
    if |fs| > 0 {
      FieldEntriesShape(env, fs[1..], depth, flatten);
      var rest := FieldEntries(env, fs[1..], depth, flatten);
      var e := FieldEntry(env, fs[0], depth, flatten);
      assert FieldEntries(env, fs, depth, flatten) == e + rest;
      if Hidden(fs[0].name) {
        assert e + rest == rest;
        assert Visible(fs) == Visible(fs[1..]);
      } else {
        FieldEntryShape(env, fs[0], depth, flatten);
        assert Visible(fs) == [fs[0]] + Visible(fs[1..]);
        ShapeCons(env, fs[0], Visible(fs[1..]), e[0], rest, depth, flatten);
        assert e == [e[0]];
      }
    }
  }

  lemma FieldEntryShape(env: Env, f: Field, depth: seq<string>, flatten: seq<string>)
    requires |depth| <= MaxDepth
    requires !Hidden(f.name)
    ensures var e := FieldEntry(env, f, depth, flatten);
      |e| == 1 && EntryFor(env, f, depth, flatten, e[0])
  {
  }

  lemma ShapeCons(env: Env, f: Field, vs: seq<Field>, e: Entry, es: seq<Entry>, depth: seq<string>, flatten: seq<string>)
    requires |es| == |vs|
    requires forall i :: 0 <= i < |es| ==> EntryFor(env, vs[i], depth, flatten, es[i])
    requires EntryFor(env, f, depth, flatten, e)
    ensures forall i :: 0 <= i < |es| + 1 ==> EntryFor(env, ([f] + vs)[i], depth, flatten, ([e] + es)[i])
  {
    forall i | 0 <= i < |es| + 1
      ensures EntryFor(env, ([f] + vs)[i], depth, flatten, ([e] + es)[i])
    {
      if i > 0 {
        assert ([f] + vs)[i] == vs[i - 1] && ([e] + es)[i] == es[i - 1];
      }
    }
  }

  /** Beyond the depth bound (`|depth| > MaxDepth`) the label is empty,
      whatever the type. */
  lemma DepthCutoff(env: Env, t: string, depth: seq<string>, flatten: seq<string>)
    requires IsStruct(env, t)
    requires |depth| > MaxDepth
    ensures LabelStruct(env, t, depth, flatten) == ""
    ensures Entries(env, t, depth, flatten) == []
  {
  }

  // ---------------------------------------------------------------------
  // Every entry, at every nesting level

  /** All entries of a tree, parents before their sub-entries. */
  function Nodes(es: seq<Entry>): (ns: seq<Entry>)
    ensures |ns| >= |es|
    decreases es
  {
    if |es| == 0 then []
    else [es[0]] + (if es[0].Group? then Nodes(es[0].sub) else []) + Nodes(es[1..])
  }

  lemma {:induction false} NodesAppend(a: seq<Entry>, b: seq<Entry>)
    ensures Nodes(a + b) == Nodes(a) + Nodes(b)
    decreases |a|
  {
    if |a| > 0 {
      assert (a + b)[0] == a[0];
      assert (a + b)[1..] == a[1..] + b;
      NodesAppend(a[1..], b);
      var x := [a[0]] + (if a[0].Group? then Nodes(a[0].sub) else []);
      assert Nodes(a + b) == x + Nodes(a[1..] + b);
      assert Nodes(a) == x + Nodes(a[1..]);
    } else {
      assert a + b == b;
    }
  }

  /** Where an entry drawn below `depth` may sit: its path extends `depth`
      by at least one and at most up to `MaxDepth + 1` names, ends in the
      entry's own name, and has no hidden name below `depth`. */
  ghost predicate Placed(e: Entry, depth: seq<string>) {
    && |depth| < |e.path| <= MaxDepth + 1
    && e.path[..|depth|] == depth
    && e.path[|e.path| - 1] == e.name
    && forall k :: |depth| <= k < |e.path| ==> !Hidden(e.path[k])
  }

  lemma PlacedDeeper(e: Entry, depth: seq<string>, name: string)
    requires !Hidden(name)
    requires Placed(e, depth + [name])
    ensures Placed(e, depth)
  {
    var path := depth + [name];
    assert e.path[..|path|] == path;
    assert e.path[..|depth|] == path[..|depth|];
    assert path[|depth|] == name;
    assert e.path[|depth|] == path[|depth|];
  }

  /** Depth bound and hidden fields, at every nesting level: every anchor
      path has at most `MaxDepth + 1` names, and no entry and no path
      component is a hidden field. Holds for cyclic types too. */
  lemma {:induction false} EntriesPlaced(env: Env, t: string, depth: seq<string>, flatten: seq<string>)
    requires IsStruct(env, t)
    ensures forall e :: e in Nodes(Entries(env, t, depth, flatten)) ==> Placed(e, depth)
    decreases Budget(depth), 2
  {
    if |depth| <= MaxDepth {
      FieldEntriesPlaced(env, env[t].fields, depth, flatten);
    }
  }

  lemma {:induction false} FieldEntriesPlaced(env: Env, fs: seq<Field>, depth: seq<string>, flatten: seq<string>)
    requires |depth| <= MaxDepth
    ensures forall e :: e in Nodes(FieldEntries(env, fs, depth, flatten)) ==> Placed(e, depth)
    decreases Budget(depth), 1, |fs|
  {
    if |fs| > 0 {
      FieldEntryPlaced(env, fs[0], depth, flatten);
      FieldEntriesPlaced(env, fs[1..], depth, flatten);
      NodesAppend(FieldEntry(env, fs[0], depth, flatten), FieldEntries(env, fs[1..], depth, flatten));
    }
  }

  lemma {:induction false} FieldEntryPlaced(env: Env, f: Field, depth: seq<string>, flatten: seq<string>)
    requires |depth| <= MaxDepth
    ensures forall e :: e in Nodes(FieldEntry(env, f, depth, flatten)) ==> Placed(e, depth)
    decreases Budget(depth), 0
  {
    if !Hidden(f.name) {
      var path := depth + [f.name];
      var es := FieldEntry(env, f, depth, flatten);
      var e := es[0];
      assert Placed(e, depth) by {
        assert e.path == path;
        assert path[..|depth|] == depth;
      }
      if Flattens(env, f, flatten) {
        var sub := Entries(env, Unwrap(env, f.typ), path, flatten);
        EntriesPlaced(env, Unwrap(env, f.typ), path, flatten);
        assert Nodes(es) == [e] + Nodes(sub) + Nodes([]);
        forall n | n in Nodes(sub)
          ensures Placed(n, depth)
        {
          PlacedDeeper(n, depth, f.name);
        }
      } else {
        assert Nodes(es) == [e] + Nodes([]);
      }
    }
  }

  // ---------------------------------------------------------------------
  // Hidden fields contribute nothing

  /** The environment with every hidden field deleted from every struct. */
  function StripHidden(env: Env): (env': Env)
    ensures env'.Keys == env.Keys
    ensures forall t :: t in env ==> (IsStruct(env', t) <==> IsStruct(env, t))
    ensures forall t :: IsStruct(env, t) ==> IsStruct(env', t) && env'[t].fields == Visible(env[t].fields)
    ensures forall t :: Unwrap(env', t) == Unwrap(env, t)
  {
    map t | t in env :: if env[t].Struct? then Struct(Visible(env[t].fields)) else env[t]
  }

  /** Deleting the hidden fields from every struct leaves every label as it was. */
  lemma HiddenFieldsIgnored(env: Env, t: string, depth: seq<string>, flatten: seq<string>)
    requires IsStruct(env, t)
    ensures IsStruct(StripHidden(env), t)
    ensures LabelStruct(StripHidden(env), t, depth, flatten) == LabelStruct(env, t, depth, flatten)
  {
    EntriesStripHidden(env, t, depth, flatten);
    LabelIsRender(env, t, depth, flatten);
    LabelIsRender(StripHidden(env), t, depth, flatten);
  }

  lemma {:induction false} EntriesStripHidden(env: Env, t: string, depth: seq<string>, flatten: seq<string>)
    requires IsStruct(env, t)
    ensures IsStruct(StripHidden(env), t)
    ensures Entries(StripHidden(env), t, depth, flatten) == Entries(env, t, depth, flatten)
    decreases Budget(depth), 2
  {
    if |depth| <= MaxDepth {
      FieldEntriesStripHidden(env, env[t].fields, depth, flatten);
    }
  }

  lemma {:induction false} FieldEntriesStripHidden(env: Env, fs: seq<Field>, depth: seq<string>, flatten: seq<string>)
    requires |depth| <= MaxDepth
    ensures FieldEntries(StripHidden(env), Visible(fs), depth, flatten) == FieldEntries(env, fs, depth, flatten)
    decreases Budget(depth), 1, |fs|
  {
    if |fs| > 0 {
      var env' := StripHidden(env);
      FieldEntriesStripHidden(env, fs[1..], depth, flatten);
      if !Hidden(fs[0].name) {
        var vs := Visible(fs);
        assert vs == [fs[0]] + Visible(fs[1..]);
        assert vs[0] == fs[0] && vs[1..] == Visible(fs[1..]);
        FieldEntryStripHidden(env, fs[0], depth, flatten);
      }
    }
  }

  lemma {:induction false} FieldEntryStripHidden(env: Env, f: Field, depth: seq<string>, flatten: seq<string>)
    requires |depth| <= MaxDepth
    ensures FieldEntry(StripHidden(env), f, depth, flatten) == FieldEntry(env, f, depth, flatten)
    decreases Budget(depth), 0
  {
    var env' := StripHidden(env);
    var u := Unwrap(env, f.typ);
    if !Hidden(f.name) && Flattens(env, f, flatten) {
      assert u in env;
      EntriesStripHidden(env, u, depth + [f.name], flatten);
    }
  }

  // ---------------------------------------------------------------------
  // An empty flatten list gives one plain anchor per field

  /** The entry text of each field in `vs`: `<P> Name`, where `P` is the
      anchor of the path `depth` extended by the field's name. */
  function LeafTexts(depth: seq<string>, vs: seq<Field>): seq<string> {
    seq(|vs|, i requires 0 <= i < |vs| => "<" + Anchor(depth + [vs[i].name]) + "> " + vs[i].name)
  }

  lemma {:induction false} RenderIsJoin(es: seq<Entry>)
    ensures Render(es) == Join(seq(|es|, i requires 0 <= i < |es| => RenderEntry(es[i])), "|")
    decreases |es|
  {
    var texts := seq(|es|, i requires 0 <= i < |es| => RenderEntry(es[i]));
    if |es| > 1 {
      RenderIsJoin(es[1..]);
      assert texts[1..] == seq(|es[1..]|, i requires 0 <= i < |es[1..]| => RenderEntry(es[1..][i]));
    }
  }

  /** With nothing to flatten, the label is `<P> Name` for each field not
      hidden, in declaration order, joined by `|`. */
  lemma EmptyFlattenLabel(env: Env, t: string, depth: seq<string>)
    requires IsStruct(env, t)
    requires |depth| <= MaxDepth
    ensures LabelStruct(env, t, depth, []) == Join(LeafTexts(depth, Visible(env[t].fields)), "|")
  {
    var es := Entries(env, t, depth, []);
    var vs := Visible(env[t].fields);
    LabelIsRender(env, t, depth, []);
    EntriesShape(env, t, depth, []);
    RenderIsJoin(es);
    assert seq(|es|, i requires 0 <= i < |es| => RenderEntry(es[i])) == LeafTexts(depth, vs);
  }
}
