/** Concrete labels: the person/address example, a cyclic type cut off by
    the depth bound, a hidden field, and two anchors that collide. */
module LabelExamples {
  import Strings
  import opened GoTypes
  import opened Label

  // ---------------------------------------------------------------------
  // Steps shared by the examples

  lemma NotX(name: string)
    requires |name| > 0 && name[0] != 'X'
    ensures !Hidden(name)
  {
    if |name| >= 4 {
      assert name[..4][0] != "XXX_"[0];
    }
  }

  lemma FieldsTextOne(env: Env, a: Field, depth: seq<string>, flatten: seq<string>)
    requires |depth| <= MaxDepth
    ensures FieldsText(env, [a], depth, flatten) == FieldPiece(env, a, depth, flatten)
  {
    assert FieldsText(env, [a][1..], depth, flatten) == "";
  }

  lemma FieldsTextTwo(env: Env, a: Field, b: Field, depth: seq<string>, flatten: seq<string>)
    requires |depth| <= MaxDepth
    ensures FieldsText(env, [a, b], depth, flatten)
         == FieldPiece(env, a, depth, flatten) + FieldPiece(env, b, depth, flatten)
  {
    assert [a, b][1..] == [b];
    FieldsTextOne(env, b, depth, flatten);
  }

  /** The label of a struct with one field whose piece is `a` then `|`. */
  lemma OneFieldLabel(env: Env, t: string, depth: seq<string>, flatten: seq<string>, f: Field, a: string)
    requires IsStruct(env, t) && |depth| <= MaxDepth && env[t].fields == [f]
    requires FieldPiece(env, f, depth, flatten) == a + "|"
    ensures LabelStruct(env, t, depth, flatten) == a
  {
    FieldsTextOne(env, f, depth, flatten);
    Strings.TrimAppended(a, "|");
  }

  /** The top-level label of a struct with two fields whose pieces are `a`
      and `b`, each followed by `|`. */
  lemma TwoFieldLabel(env: Env, t: string, flatten: seq<string>, f: Field, g: Field, a: string, b: string)
    requires IsStruct(env, t) && env[t].fields == [f, g]
    requires FieldPiece(env, f, [], flatten) == a + "|"
    requires FieldPiece(env, g, [], flatten) == b + "|"
    ensures LabelStruct(env, t, [], flatten) == a + "|" + b
  {
    FieldsTextTwo(env, f, g, [], flatten);
    assert (a + "|") + (b + "|") == (a + "|" + b) + "|";
    Strings.TrimAppended(a + "|" + b, "|");
  }

  lemma AnchorOne(name: string)
    ensures Anchor([] + [name]) == name
  {
    assert [] + [name] == [name];
  }

  lemma AnchorTwo(a: string, b: string)
    ensures Anchor([a] + [b]) == a + "_" + b
  {
    assert [a] + [b] == [a, b];
    assert [a, b][1..] == [b];
    assert Anchor([b]) == b;
  }

  /** The piece of a field drawn as a plain anchor. */
  lemma PlainPiece(env: Env, f: Field, depth: seq<string>, flatten: seq<string>)
    requires |depth| <= MaxDepth
    requires !Hidden(f.name) && !Flattens(env, f, flatten)
    ensures FieldPiece(env, f, depth, flatten) == "<" + Anchor(depth + [f.name]) + "> " + f.name + "|"
  {
  }

  /** The piece of a flattened field whose sub-label is `sub`. */
  lemma GroupPiece(env: Env, f: Field, depth: seq<string>, flatten: seq<string>, sub: string)
    requires |depth| <= MaxDepth
    requires !Hidden(f.name) && Flattens(env, f, flatten)
    requires LabelStruct(env, Unwrap(env, f.typ), depth + [f.name], flatten) == sub
    ensures FieldPiece(env, f, depth, flatten)
         == "{<" + Anchor(depth + [f.name]) + "> " + f.name + " " + (if sub != "" then "|" + sub else "") + " }|"
  {
  }

  // ---------------------------------------------------------------------
  // type Person struct { Name string; Address Address }
  // type Address struct { City string }

  function PersonEnv(): Env {
    map[
      "Person" := Struct([Field("Name", "string"), Field("Address", "Address")]),
      "Address" := Struct([Field("City", "string")]),
      "string" := Other
    ]
  }

  /** The literal texts of the person example. */
  lemma PersonTexts()
    ensures "<" + "Name" + "> " + "Name" == "<Name> Name"
    ensures "<" + "Address" + "> " + "Address" == "<Address> Address"
    ensures "<Name> Name" + "|" + "<Address> Address" == "<Name> Name|<Address> Address"
  {
  }

  /** With an empty flatten list every field is a plain anchor. */
  lemma PersonLabel()
    ensures LabelStruct(PersonEnv(), "Person", [], []) == "<Name> Name|<Address> Address"
  {
    var env := PersonEnv();
    var name := Field("Name", "string");
    var address := Field("Address", "Address");
    assert FieldPiece(env, name, [], []) == "<Name> Name" + "|" by {
      NotX("Name");
      PlainPiece(env, name, [], []);
      AnchorOne("Name");
      PersonTexts();
    }
    assert FieldPiece(env, address, [], []) == "<Address> Address" + "|" by {
      NotX("Address");
      PlainPiece(env, address, [], []);
      AnchorOne("Address");
      PersonTexts();
    }
    TwoFieldLabel(env, "Person", [], name, address, "<Name> Name", "<Address> Address");
    PersonTexts();
  }

  lemma AddressSubLabel()
    ensures LabelStruct(PersonEnv(), "Address", ["Address"], ["Address"]) == "<Address_City> City"
  {
    var env := PersonEnv();
    var city := Field("City", "string");
    assert FieldPiece(env, city, ["Address"], ["Address"]) == "<Address_City> City" + "|" by {
      NotX("City");
      PlainPiece(env, city, ["Address"], ["Address"]);
      AnchorTwo("Address", "City");
      assert "<" + ("Address" + "_" + "City") + "> " + "City" == "<Address_City> City";
    }
    OneFieldLabel(env, "Address", ["Address"], ["Address"], city, "<Address_City> City");
  }

  /** The literal texts of the flattened address record. */
  lemma AddressTexts()
    ensures "{<" + "Address" + "> " + "Address" + " " == "{<Address> Address "
    ensures "{<Address> Address " + ("|" + "<Address_City> City") + " }"
         == "{<Address> Address |<Address_City> City }"
  {
  }

  lemma AddressPiece()
    ensures FieldPiece(PersonEnv(), Field("Address", "Address"), [], ["Address"])
         == "{<Address> Address |<Address_City> City }" + "|"
  {
    var env := PersonEnv();
    var address := Field("Address", "Address");
    var sub := "<Address_City> City";
    var g := "{<" + Anchor([] + ["Address"]) + "> " + "Address" + " ";
    assert FieldPiece(env, address, [], ["Address"]) == g + ("|" + sub) + " }|" by {
      NotX("Address");
      AddressSubLabel();
      assert [] + ["Address"] == ["Address"];
      GroupPiece(env, address, [], ["Address"], sub);
    }
    assert g == "{<Address> Address " by {
      AnchorOne("Address");
      AddressTexts();
    }
    CloseBar(g + ("|" + sub));
    AddressTexts();
  }

  /** Flattening `Address` inlines its fields as a sub-record. */
  lemma PersonLabelFlattened()
    ensures LabelStruct(PersonEnv(), "Person", [], ["Address"])
         == "<Name> Name|" + "{<Address> Address |<Address_City> City }"
  {
    var env := PersonEnv();
    var fl := ["Address"];
    var name := Field("Name", "string");
    var address := Field("Address", "Address");
    var b := "{<Address> Address |<Address_City> City }";
    assert FieldPiece(env, name, [], fl) == "<Name> Name" + "|" by {
      NotX("Name");
      PlainPiece(env, name, [], fl);
      AnchorOne("Name");
      assert "<" + "Name" + "> " + "Name" == "<Name> Name";
    }
    assert FieldPiece(env, address, [], fl) == b + "|" by {
      AddressPiece();
    }
    TwoFieldLabel(env, "Person", fl, name, address, "<Name> Name", b);
    assert "<Name> Name" + "|" == "<Name> Name|";
  }

  // ---------------------------------------------------------------------
  // type N struct { Next *N }

  function ListEnv(): Env {
    map["N" := Struct([Field("Next", "*N")]), "*N" := Pointer("N")]
  }

  /** `k` copies of the field name `Next`: the path after `k` levels. */
  function Nexts(k: nat): (p: seq<string>)
    ensures |p| == k
  {
    if k == 0 then [] else Nexts(k - 1) + ["Next"]
  }

  /** The label of `N` at nesting level `k`, built from the inside out. */
  function NestedNext(k: nat): string
    requires k <= MaxDepth
    decreases MaxDepth - k
  {
    var sub := if k == MaxDepth then "" else "|" + NestedNext(k + 1);
    "{<" + Anchor(Nexts(k + 1)) + "> " + "Next" + " " + sub + " }"
  }

  lemma CloseBar(q: string)
    ensures q + " }|" == q + " }" + "|"
  {
  }

  /** The piece of `Next` at level `k`, given the label one level deeper. */
  lemma ListPiece(k: nat)
    requires k <= MaxDepth
    requires k < MaxDepth ==> LabelStruct(ListEnv(), "N", Nexts(k + 1), ["Next"]) == NestedNext(k + 1)
    ensures FieldPiece(ListEnv(), Field("Next", "*N"), Nexts(k), ["Next"]) == NestedNext(k) + "|"
  {
    var env := ListEnv();
    var next := Field("Next", "*N");
    var path := Nexts(k + 1);
    var flat := LabelStruct(env, "N", path, ["Next"]);
    var sub := if k == MaxDepth then "" else "|" + NestedNext(k + 1);
    var s := if flat != "" then "|" + flat else "";
    assert s == sub by {
      if k == MaxDepth {
        DepthCutoff(env, "N", path, ["Next"]);
      }
    }
    var q := "{<" + Anchor(path) + "> " + "Next" + " " + s;
    assert FieldPiece(env, next, Nexts(k), ["Next"]) == q + " }|" by {
      NotX("Next");
      assert Nexts(k) + ["Next"] == path;
      assert Flattens(env, next, ["Next"]);
      GroupPiece(env, next, Nexts(k), ["Next"], flat);
    }
    assert NestedNext(k) == q + " }";
    CloseBar(q);
  }

  lemma {:induction false} ListLabelAt(k: nat)
    requires k <= MaxDepth
    ensures LabelStruct(ListEnv(), "N", Nexts(k), ["Next"]) == NestedNext(k)
    decreases MaxDepth - k
  {
    if k < MaxDepth {
      ListLabelAt(k + 1);
    }
    ListPiece(k);
    OneFieldLabel(ListEnv(), "N", Nexts(k), ["Next"], Field("Next", "*N"), NestedNext(k));
  }

  lemma NextsSix()
    ensures Nexts(6) == ["Next", "Next", "Next", "Next", "Next", "Next"]
  {
    assert Nexts(1) == ["Next"];
    assert Nexts(2) == ["Next", "Next"];
    assert Nexts(3) == ["Next", "Next", "Next"];
    assert Nexts(4) == ["Next", "Next", "Next", "Next"];
    assert Nexts(5) == ["Next", "Next", "Next", "Next", "Next"];
  }

  lemma AnchorSix()
    ensures Anchor(["Next", "Next", "Next", "Next", "Next", "Next"]) == "Next_Next_Next_Next_Next_Next"
  {
    assert ["Next", "Next", "Next", "Next", "Next", "Next"][1..][1..][1..][1..][1..] == ["Next"];
  }

  lemma InnermostTail(p: string)
    ensures p + "> " + "Next" + " " + "" + " }" == p + "> Next  }"
  {
    assert "> " + "Next" + " " + "" + " }" == "> Next  }";
  }

  /** The innermost record: six `Next` names in its anchor, no sub-label. */
  lemma Level5()
    ensures NestedNext(5) == "{<" + "Next_Next_Next_Next_Next_Next" + "> Next  }"
  {
    NextsSix();
    AnchorSix();
    InnermostTail("{<" + "Next_Next_Next_Next_Next_Next");
  }

  /** Flattening the self-reference nests six records, one per level up
      to the depth bound; the innermost one has an empty sub-label. */
  lemma CyclicTypeStops()
    ensures LabelStruct(ListEnv(), "N", [], ["Next"]) == NestedNext(0)
    ensures NestedNext(MaxDepth) == "{<" + "Next_Next_Next_Next_Next_Next" + "> Next  }"
  {
    ListLabelAt(0);
    Level5();
  }

  // ---------------------------------------------------------------------
  // A generated message with bookkeeping fields

  function ProtoEnv(): Env {
    map[
      "M" := Struct([Field("XXX_unrecognized", "[]byte"), Field("Id", "int"), Field("XXX_sizecache", "M")]),
      "int" := Other
    ]
  }

  /** A generated `XXX_` field leaves no trace, even when it is listed for
      flattening. */
  lemma HiddenFieldDropped()
    ensures LabelStruct(ProtoEnv(), "M", [], ["XXX_sizecache"]) == "<Id> Id"
  {
    var env := ProtoEnv();
    var fl := ["XXX_sizecache"];
    var f0 := Field("XXX_unrecognized", "[]byte");
    var f1 := Field("Id", "int");
    var f2 := Field("XXX_sizecache", "M");
    assert FieldPiece(env, f0, [], fl) == "" by {
      assert f0.name[..4] == "XXX_";
    }
    assert FieldPiece(env, f2, [], fl) == "" by {
      assert f2.name[..4] == "XXX_";
    }
    assert FieldPiece(env, f1, [], fl) == "<Id> Id" + "|" by {
      NotX("Id");
      PlainPiece(env, f1, [], fl);
      AnchorOne("Id");
      assert "<" + "Id" + "> " + "Id" == "<Id> Id";
    }
    assert FieldsText(env, [f0, f1, f2], [], fl) == "<Id> Id" + "|" by {
      assert [f0, f1, f2][1..] == [f1, f2];
      FieldsTextTwo(env, f1, f2, [], fl);
    }
    assert env["M"].fields == [f0, f1, f2];
    Strings.TrimAppended("<Id> Id", "|");
  }

  // ---------------------------------------------------------------------
  // type T struct { A_B int; A U }
  // type U struct { B int }

  function CollideEnv(): Env {
    map[
      "T" := Struct([Field("A_B", "int"), Field("A", "U")]),
      "U" := Struct([Field("B", "int")]),
      "int" := Other
    ]
  }

  lemma CollideInner()
    ensures LabelStruct(CollideEnv(), "U", ["A"], ["A"]) == "<A_B> B"
  {
    var env := CollideEnv();
    var b := Field("B", "int");
    assert FieldPiece(env, b, ["A"], ["A"]) == "<A_B> B" + "|" by {
      NotX("B");
      PlainPiece(env, b, ["A"], ["A"]);
      AnchorTwo("A", "B");
      assert "<" + ("A" + "_" + "B") + "> " + "B" == "<A_B> B";
    }
    OneFieldLabel(env, "U", ["A"], ["A"], b, "<A_B> B");
  }

  /** The literal texts of the colliding labels. */
  lemma CollideTexts()
    ensures "<" + "A_B" + "> " + "A_B" == "<A_B> A_B"
    ensures "{<" + "A" + "> " + "A" + " " + ("|" + "<A_B> B") + " }" == "{<A> A |<A_B> B }"
    ensures "<A_B> A_B" + "|" + "{<A> A |<A_B> B }" == "<A_B> A_B|{<A> A |<A_B> B }"
  {
  }

  /** A field named `A_B` and the field `B` of a flattened field `A` get the
      same anchor `A_B`: paths are not checked for collisions. */
  lemma AnchorsCanCollide()
    ensures LabelStruct(CollideEnv(), "T", [], ["A"]) == "<A_B> A_B|{<A> A |<A_B> B }"
  {
    var env := CollideEnv();
    var fl := ["A"];
    var ab := Field("A_B", "int");
    var a := Field("A", "U");
    assert FieldPiece(env, ab, [], fl) == "<A_B> A_B" + "|" by {
      NotX("A_B");
      PlainPiece(env, ab, [], fl);
      AnchorOne("A_B");
      CollideTexts();
    }
    assert FieldPiece(env, a, [], fl) == "{<A> A |<A_B> B }" + "|" by {
      NotX("A");
      CollideInner();
      assert [] + ["A"] == ["A"];
      GroupPiece(env, a, [], fl, "<A_B> B");
      AnchorOne("A");
      CollideTexts();
    }
    TwoFieldLabel(env, "T", fl, ab, a, "<A_B> A_B", "{<A> A |<A_B> B }");
    CollideTexts();
  }
}
