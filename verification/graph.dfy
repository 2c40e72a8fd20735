/** The graph assembler and emitter: a `Dot` holds the edge style fixed at
    construction and two append-only text buffers, `structs` for the
    cluster/record block of each registered struct and `conns` for the
    edge lines. `Output` wraps both in the document header and footer. */
module Graph {
  import opened Strings
  import opened Decimal
  import opened GoTypes
  import opened Label

  datatype Dot = Dot(directed: bool, structs: string, conns: string)

  /** Options for one struct: a layout rank, and whether to draw only a
      field count instead of the fields. */
  datatype Opts = Opts(rank: int, noFields: bool)

  /** The error a call returns: Go's `nil`, or `ErrNotStruct`. */
  datatype GoError = Nil | ErrNotStruct

  /** Options that set a rank and nothing else. */
  function Rank(r: int): (o: Opts)
    ensures o.rank == r && !o.noFields
  {
    Opts(r, false)
  }

  function NewDot(directed: bool): (d: Dot)
    ensures d.directed == directed
    ensures d.structs == "" && d.conns == ""
  {
    Dot(directed, "", "")
  }

  // ---------------------------------------------------------------------
  // Struct blocks

  /** The collapsed label: `<fields> N ...`, where `N` counts every declared
      field, hidden ones included; the count can be read back from the text. */
  function SummaryStruct(env: Env, t: string): (s: string)
    requires IsStruct(env, t)
    ensures HasPrefix(s, "<fields> ") && HasSuffix(s, " ...") && |s| > 13
    ensures Canonical(s[9..|s| - 4]) && ParseNat(s[9..|s| - 4]) == NumField(env, t)
  {
    var digits := NatToString(NumField(env, t));
    var s := "<fields> " + digits + " ...";
    assert s[9..|s| - 4] == digits;
    ParseNatToString(NumField(env, t));
    s
  }

  /** The label a registered struct gets: the summary exactly when one
      options value is given and it asks for no fields. */
  function BlockLabel(env: Env, t: string, flatten: seq<string>, opts: seq<Opts>): (l: string)
    requires IsStruct(env, t)
    ensures |opts| == 1 && opts[0].noFields ==> l == SummaryStruct(env, t)
    ensures !(|opts| == 1 && opts[0].noFields) ==> l == LabelStruct(env, t, [], flatten)
  {
    if |opts| == 1 && opts[0].noFields then SummaryStruct(env, t)
    else LabelStruct(env, t, [], flatten)
  }

  function ClusterOpen(t: string): string {
    "subgraph \"cluster_" + t + "\" {\n"
  }

  function ClusterTitle(t: string): string {
    "  label = < <B>" + t + "</B> >\n" + "  color = transparent\n"
  }

  function RankLine(opts: seq<Opts>): string {
    if |opts| == 1 then "  rank = " + IntToString(opts[0].rank) + "\n" else ""
  }

  /** The record node, named after the type, and the cluster's closing brace. */
  function NodeDecl(t: string, text: string): string {
    "\"" + t + "\" [\n"
    + "  label = \"" + text + "\" \n"
    + "  shape = \"record\"\n"
    + "]\n}\n"
  }

  /** The block text of a cluster for type `t` whose record has label `text`. */
  function Block(t: string, opts: seq<Opts>, text: string): (b: string)
    ensures HasPrefix(b, ClusterOpen(t))
    ensures HasPrefix(b, ClusterOpen(t) + ClusterTitle(t))
    ensures HasSuffix(b, NodeDecl(t, text))
  {
    var head := ClusterOpen(t) + ClusterTitle(t);
    var tail := "\n" + NodeDecl(t, text);
    PrefixOfConcat(ClusterOpen(t), ClusterTitle(t));
    PrefixExtends(head, ClusterOpen(t), RankLine(opts) + tail);
    PrefixOfConcat(head, RankLine(opts) + tail);
    SuffixOfConcat("\n", NodeDecl(t, text));
    SuffixExtends(RankLine(opts), NodeDecl(t, text), tail);
    SuffixExtends(head, NodeDecl(t, text), RankLine(opts) + tail);
    head + (RankLine(opts) + tail)
  }

  /** The cluster block of one struct: a cluster named after the type,
      holding one record node whose label is `BlockLabel`. */
  function StructBlock(env: Env, t: string, flatten: seq<string>, opts: seq<Opts>): (b: string)
    requires IsStruct(env, t)
    ensures HasPrefix(b, ClusterOpen(t))
    ensures HasSuffix(b, NodeDecl(t, BlockLabel(env, t, flatten, opts)))
  {
    Block(t, opts, BlockLabel(env, t, flatten, opts))
  }

  lemma RankLineStart(opts: seq<Opts>, tail: string)
    requires |tail| > 0 && tail[0] == '\n'
    ensures HasPrefix(RankLine(opts) + tail, "  rank = ") <==> |opts| == 1
    ensures |opts| == 1 ==> HasPrefix(RankLine(opts) + tail, "  rank = " + IntToString(opts[0].rank) + "\n")
  {
    if |opts| == 1 {
      var digits := IntToString(opts[0].rank);
      var line := "  rank = " + digits + "\n";
      PrefixOfConcat(line, tail);
      PrefixOfConcat("  rank = ", digits + "\n" + tail);
      assert line + tail == "  rank = " + (digits + "\n" + tail);
    } else {
      assert (RankLine(opts) + tail)[0] == '\n';
    }
  }

  /** A rank line follows the cluster head exactly when one options value
      is given, whether or not it also asks for no fields; it carries that
      value's rank. */
  lemma RankLineIff(t: string, opts: seq<Opts>, text: string)
    ensures var rest := Block(t, opts, text)[|ClusterOpen(t) + ClusterTitle(t)|..];
      && (HasPrefix(rest, "  rank = ") <==> |opts| == 1)
      && (|opts| == 1 ==> HasPrefix(rest, "  rank = " + IntToString(opts[0].rank) + "\n"))
  {
    var head := ClusterOpen(t) + ClusterTitle(t);
    var tail := "\n" + NodeDecl(t, text);
    assert Block(t, opts, text)[|head|..] == RankLine(opts) + tail;
    RankLineStart(opts, tail);
  }

  /** `AddStruct` as the source writes it: the block is appended for a
      struct type, nothing for any other kind, and `ErrNotStruct` is
      returned either way. */
  function AddStruct(d: Dot, env: Env, t: string, flatten: seq<string>, opts: seq<Opts>): (r: (Dot, GoError))
    ensures r.0.directed == d.directed && r.0.conns == d.conns
    ensures IsStruct(env, t) ==> r.0.structs == d.structs + StructBlock(env, t, flatten, opts)
    ensures !IsStruct(env, t) ==> r.0 == d
    ensures r.1 == ErrNotStruct
  {
    if IsStruct(env, t) then
      (d.(structs := d.structs + StructBlock(env, t, flatten, opts)), ErrNotStruct)
    else
      (d, ErrNotStruct)
  }

  /** The error result cannot tell success from failure: registering a
      struct appends its block and still reports `ErrNotStruct`. */
  lemma AddStructErrsOnSuccess()
    ensures var env := map["T" := Struct([])];
      var r := AddStruct(NewDot(true), env, "T", [], []);
      r.0.structs != "" && r.1 == ErrNotStruct
  {
  }

  /** `AddStruct` with the evidently intended result: the same buffers,
      and `nil` exactly when the type is a struct. */
  function AddStructChecked(d: Dot, env: Env, t: string, flatten: seq<string>, opts: seq<Opts>): (r: (Dot, GoError))
    ensures r.0 == AddStruct(d, env, t, flatten, opts).0
    ensures r.1 == Nil <==> IsStruct(env, t)
    ensures r.1 != Nil ==> r.1 == ErrNotStruct
  {
    (AddStruct(d, env, t, flatten, opts).0, if IsStruct(env, t) then Nil else ErrNotStruct)
  }

  // ---------------------------------------------------------------------
  // Edges

  /** An edge end: the quoted type name, with `:anchor` only for a struct
      type and a non-empty anchor. */
  function Endpoint(env: Env, t: string, anchor: string): (c: string)
    ensures HasPrefix(c, "\"" + t + "\"")
    ensures |c| > |t| + 2 <==> IsStruct(env, t) && anchor != ""
    ensures |c| > |t| + 2 ==> c[|t| + 2..] == ":" + anchor
  {
    var q := "\"" + t + "\"";
    var c := if IsStruct(env, t) && anchor != "" then q + ":" + anchor else q;
    assert c[..|q|] == q;
    c
  }

  function Connector(directed: bool): string {
    if directed then "->" else "--"
  }

  /** The optional edge label, present only for exactly one label argument. */
  function LabelAttr(labels: seq<string>): string {
    if |labels| == 1 then " [ label = \"" + labels[0] + "\" ]" else ""
  }

  /** One edge statement between two ends, with the optional label. */
  function Edge(c1: string, directed: bool, c2: string, labels: seq<string>): string {
    c1 + (" " + (Connector(directed) + (" " + (c2 + (LabelAttr(labels) + ";\n")))))
  }

  function EdgeLine(env: Env, directed: bool, t1: string, n1: string, t2: string, n2: string,
                    labels: seq<string>): string
  {
    Edge(Endpoint(env, t1, n1), directed, Endpoint(env, t2, n2), labels)
  }

  /** An edge line starts at its first end and then uses `->` exactly when
      the graph is directed, `--` exactly when it is not. */
  lemma EdgeStart(c1: string, directed: bool, c2: string, labels: seq<string>)
    ensures var line := Edge(c1, directed, c2, labels);
      && HasPrefix(line, c1 + " ")
      && HasPrefix(line, c1 + " " + Connector(directed) + " ")
      && (HasPrefix(line[|c1| + 1..], "->") <==> directed)
      && (HasPrefix(line[|c1| + 1..], "--") <==> !directed)
  {
    var line := Edge(c1, directed, c2, labels);
    var rest := Connector(directed) + (" " + (c2 + (LabelAttr(labels) + ";\n")));
    assert line == c1 + (" " + rest);
    assert line[..|c1| + 1] == c1 + " ";
    assert line[..|c1| + 4] == c1 + " " + Connector(directed) + " ";
    assert line[|c1| + 1..] == rest;
    assert rest[..2] == Connector(directed);
  }

  /** An edge line ends with its second end, then the label attribute when
      exactly one label is given, then `;` and a newline. With the start
      and the length this fixes the whole line. */
  lemma EdgeEnd(c1: string, directed: bool, c2: string, labels: seq<string>)
    ensures var line := Edge(c1, directed, c2, labels);
      && (|labels| == 1 ==> HasSuffix(line, " [ label = \"" + labels[0] + "\" ];\n"))
      && (|labels| == 1 ==> HasSuffix(line, c2 + (" [ label = \"" + labels[0] + "\" ];\n")))
      && (|labels| != 1 ==> HasSuffix(line, c2 + ";\n"))
      && |line| == |c1| + |c2| + |LabelAttr(labels)| + 6
  {
    EdgeTail(c1, directed, c2, labels);
    if |labels| == 1 {
      LabelAttrEnd(labels);
    } else {
      assert LabelAttr(labels) + ";\n" == ";\n";
    }
  }

  lemma EdgeTail(c1: string, directed: bool, c2: string, labels: seq<string>)
    ensures HasSuffix(Edge(c1, directed, c2, labels), LabelAttr(labels) + ";\n")
    ensures HasSuffix(Edge(c1, directed, c2, labels), c2 + (LabelAttr(labels) + ";\n"))
  {
    var end := LabelAttr(labels) + ";\n";
    var x := c1 + (" " + (Connector(directed) + " "));
    assert Edge(c1, directed, c2, labels) == x + (c2 + end) by {
      var c := Connector(directed);
      var z := c2 + end;
      Assoc(c, " ", z);
      Assoc(" ", c + " ", z);
      Assoc(c1, " " + (c + " "), z);
    }
    SuffixOfConcat(c2, end);
    SuffixExtends(x, c2 + end, c2 + end);
    SuffixExtends(x, end, c2 + end);
  }

  lemma LabelAttrEnd(labels: seq<string>)
    requires |labels| == 1
    ensures LabelAttr(labels) + ";\n" == " [ label = \"" + labels[0] + "\" ];\n"
  {
    var q := " [ label = \"" + labels[0];
    assert LabelAttr(labels) == q + "\" ]";
    assert "\" ]" + ";\n" == "\" ];\n";
  }

  /** `Connect` appends exactly one edge line, touches nothing else and
      always returns `nil`. */
  function Connect(d: Dot, env: Env, t1: string, n1: string, t2: string, n2: string,
                   labels: seq<string>): (r: (Dot, GoError))
    ensures r.0.directed == d.directed && r.0.structs == d.structs
    ensures r.0.conns == d.conns + EdgeLine(env, d.directed, t1, n1, t2, n2, labels)
    ensures r.1 == Nil
  {
    (d.(conns := d.conns + EdgeLine(env, d.directed, t1, n1, t2, n2, labels)), Nil)
  }

  // ---------------------------------------------------------------------
  // The document

  const Header: string :=
    " recordmapping {\n"
    + "\trankdir = \"LR\";\n"
    + "\tnodesep=0.9;\n"
    + "\t//compound=true;\n"
    + "\tnewrank=true;\n"
    + "\tranksep=0.9;\n"
    + "\n"
    + "\tfontname=\"Open Sans\"\n"
    + "\tnode [fontname=\"Open Sans\"]\n"
    + "\tedge [fontname=\"Open Sans\"]\t\t\n"
    + "\tnode [fontsize = \"16\"];\n"
    + "\tedge [fontsize = \"12\"];\n"
    + "\n"

  function Keyword(directed: bool): string {
    if directed then "digraph " else "graph "
  }

  /** Everything after the opening `pre`: the struct blocks verbatim, a
      newline, the edge lines verbatim, and the closing brace. */
  function Document(pre: string, structs: string, conns: string): (out: string)
    ensures HasPrefix(out, pre)
    ensures HasSuffix(out, "\n}\n")
    ensures |out| == |pre| + |structs| + 1 + |conns| + 3
    ensures out[|pre|..|pre| + |structs|] == structs
    ensures out[|pre| + |structs|] == '\n'
    ensures out[|pre| + |structs| + 1..|out| - 3] == conns
  {
    var out := pre + structs + "\n" + conns + "\n}\n";
    assert out[..|pre|] == pre;
    assert out[|pre|..|pre| + |structs|] == structs;
    assert out[|pre| + |structs| + 1..|out| - 3] == conns;
    out
  }

  /** The whole document: keyword, header, the struct blocks verbatim, a
      newline, the edge lines verbatim, and the closing brace. */
  function Output(d: Dot): (out: string)
    ensures HasPrefix(out, Keyword(d.directed) + Header)
    ensures HasSuffix(out, "\n}\n")
    ensures var k := |Keyword(d.directed) + Header|;
      && |out| == k + |d.structs| + 1 + |d.conns| + 3
      && out[k..k + |d.structs|] == d.structs
      && out[k + |d.structs|] == '\n'
      && out[k + |d.structs| + 1..|out| - 3] == d.conns
  {
    Document(Keyword(d.directed) + Header, d.structs, d.conns)
  }

  /** The document opens with `digraph` exactly for a directed graph and
      with `graph` exactly for an undirected one. */
  lemma OutputKeyword(d: Dot)
    ensures HasPrefix(Output(d), "digraph ") <==> d.directed
    ensures HasPrefix(Output(d), "graph ") <==> !d.directed
  {
    var out := Output(d);
    var kw := Keyword(d.directed);
    PrefixShortens(out, kw, Header);
    assert out[0] == kw[0];
    if d.directed {
      assert "graph "[0] != out[0];
    } else {
      assert "digraph "[0] != out[0];
    }
  }

  /** Nothing is lost: the document and the length of the struct region
      determine the whole generator state. */
  lemma OutputDeterminesDot(d1: Dot, d2: Dot)
    requires Output(d1) == Output(d2)
    requires |d1.structs| == |d2.structs|
    ensures d1 == d2
  {
    OutputKeyword(d1);
    OutputKeyword(d2);
  }

  /** The file names `OutputPng` uses: one `.png` suffix is dropped, then
      `.dot` and `.png` are added. */
  function OutputFiles(fn: string): (names: (string, string))
    ensures !HasSuffix(fn, ".png") ==> names == (fn + ".dot", fn + ".png")
    ensures HasSuffix(fn, ".png") ==> names.0 == fn[..|fn| - 4] + ".dot"
    ensures HasSuffix(fn, ".png") ==> names.1 == fn[..|fn| - 4] + ".png"
  {
    var stem := TrimSuffix(fn, ".png");
    (stem + ".dot", stem + ".png")
  }

  /** Naming the image with or without `.png` gives the same files. */
  lemma OutputFilesIgnorePngSuffix(stem: string)
    ensures !HasSuffix(stem, ".png") ==> OutputFiles(stem + ".png") == OutputFiles(stem)
    ensures !HasSuffix(stem, ".png") ==> OutputFiles(stem + ".png") == (stem + ".dot", stem + ".png")
  {
    TrimAppended(stem, ".png");
  }

  // ---------------------------------------------------------------------
  // A whole session of calls

  /** A registration or connection call, with types already resolved. */
  datatype Call =
    | AddStructCall(t: string, flatten: seq<string>, opts: seq<Opts>)
    | ConnectCall(from: string, fromAnchor: string, to: string, toAnchor: string, labels: seq<string>)

  function Apply(d: Dot, env: Env, c: Call): Dot {
    match c
    case AddStructCall(t, flatten, opts) => AddStructChecked(d, env, t, flatten, opts).0
    case ConnectCall(t1, n1, t2, n2, labels) => Connect(d, env, t1, n1, t2, n2, labels).0
  }

  /** The calls applied one after another. */
  function Run(d: Dot, env: Env, calls: seq<Call>): Dot
    decreases |calls|
  {
    if |calls| == 0 then d else Run(Apply(d, env, calls[0]), env, calls[1..])
  }

  /** The text a call adds to the struct region. */
  function StructsText(env: Env, c: Call): string {
    if c.AddStructCall? && IsStruct(env, c.t) then StructBlock(env, c.t, c.flatten, c.opts) else ""
  }

  /** The text a call adds to the edge region. */
  function ConnsText(env: Env, directed: bool, c: Call): string {
    if c.ConnectCall? then EdgeLine(env, directed, c.from, c.fromAnchor, c.to, c.toAnchor, c.labels) else ""
  }

  function Concat(ss: seq<string>): string
    decreases |ss|
  {
    if |ss| == 0 then "" else ss[0] + Concat(ss[1..])
  }

  /** The struct-region texts of the calls, one per call, in order. */
  function StructsTexts(env: Env, calls: seq<Call>): seq<string>
    decreases |calls|
  {
    if |calls| == 0 then [] else [StructsText(env, calls[0])] + StructsTexts(env, calls[1..])
  }

  /** The edge-region texts of the calls, one per call, in order. */
  function ConnsTexts(env: Env, directed: bool, calls: seq<Call>): seq<string>
    decreases |calls|
  {
    if |calls| == 0 then [] else [ConnsText(env, directed, calls[0])] + ConnsTexts(env, directed, calls[1..])
  }

  /** Each call appends its own text to each region and changes nothing else. */
  lemma ApplyAppends(d: Dot, env: Env, c: Call)
    ensures Apply(d, env, c) == Dot(d.directed, d.structs + StructsText(env, c),
                                    d.conns + ConnsText(env, d.directed, c))
  {
    match c
    case AddStructCall(t, flatten, opts) =>
      assert d.conns + "" == d.conns;
      if !IsStruct(env, t) {
        assert d.structs + "" == d.structs;
      }
    case ConnectCall(t1, n1, t2, n2, labels) =>
      assert d.structs + "" == d.structs;
  }

  lemma {:induction false} RunKeepsStyle(d: Dot, env: Env, calls: seq<Call>)
    ensures Run(d, env, calls).directed == d.directed
    decreases |calls|
  {
    if |calls| > 0 {
      ApplyAppends(d, env, calls[0]);
      RunKeepsStyle(Apply(d, env, calls[0]), env, calls[1..]);
    }
  }

  lemma RunStep(d: Dot, env: Env, calls: seq<Call>)
    requires |calls| > 0
    ensures Run(d, env, calls) == Run(Apply(d, env, calls[0]), env, calls[1..])
  {
  }

  lemma TextsTail(env: Env, directed: bool, calls: seq<Call>)
    requires |calls| > 0
    ensures StructsTexts(env, calls)[0] == StructsText(env, calls[0])
    ensures StructsTexts(env, calls)[1..] == StructsTexts(env, calls[1..])
    ensures ConnsTexts(env, directed, calls)[0] == ConnsText(env, directed, calls[0])
    ensures ConnsTexts(env, directed, calls)[1..] == ConnsTexts(env, directed, calls[1..])
  {
    var s, c := StructsText(env, calls[0]), ConnsText(env, directed, calls[0]);
    assert ([s] + StructsTexts(env, calls[1..]))[1..] == StructsTexts(env, calls[1..]);
    assert ([c] + ConnsTexts(env, directed, calls[1..]))[1..] == ConnsTexts(env, directed, calls[1..]);
  }

  lemma {:induction false} RunStructs(d: Dot, env: Env, calls: seq<Call>)
    ensures Run(d, env, calls).structs == d.structs + Concat(StructsTexts(env, calls))
    decreases |calls|
  {
    var ss := StructsTexts(env, calls);
    if |calls| > 0 {
      var d' := Apply(d, env, calls[0]);
      RunStep(d, env, calls);
      ApplyAppends(d, env, calls[0]);
      TextsTail(env, d.directed, calls);
      RunStructs(d', env, calls[1..]);
      ConcatAfter(d.structs, ss);
    } else {
      assert d.structs + Concat(ss) == d.structs;
    }
  }

  lemma {:induction false} RunConns(d: Dot, env: Env, calls: seq<Call>)
    ensures Run(d, env, calls).conns == d.conns + Concat(ConnsTexts(env, d.directed, calls))
    decreases |calls|
  {
    var cs := ConnsTexts(env, d.directed, calls);
    if |calls| > 0 {
      var d' := Apply(d, env, calls[0]);
      RunStep(d, env, calls);
      ApplyAppends(d, env, calls[0]);
      TextsTail(env, d.directed, calls);
      RunConns(d', env, calls[1..]);
      ConcatAfter(d.conns, cs);
    } else {
      assert d.conns + Concat(cs) == d.conns;
    }
  }

  lemma ConcatAfter(a: string, ss: seq<string>)
    requires |ss| > 0
    ensures (a + ss[0]) + Concat(ss[1..]) == a + Concat(ss)
  {
    ConcatCons(ss);
    Assoc(a, ss[0], Concat(ss[1..]));
  }

  lemma ConcatCons(ss: seq<string>)
    requires |ss| > 0
    ensures Concat(ss) == ss[0] + Concat(ss[1..])
  {
  }

  /** Only appends, in call order: after any sequence of calls, the struct
      region is the old one followed by each call's block, the edge region
      the old one followed by each call's edge line, and the edge style is
      unchanged. */
  lemma RunAppendsInOrder(d: Dot, env: Env, calls: seq<Call>)
    ensures Run(d, env, calls) == Dot(d.directed,
                                      d.structs + Concat(StructsTexts(env, calls)),
                                      d.conns + Concat(ConnsTexts(env, d.directed, calls)))
  {
    RunKeepsStyle(d, env, calls);
    RunStructs(d, env, calls);
    RunConns(d, env, calls);
  }

  /** The document of a session started with `NewDot`. */
  lemma SessionOutput(directed: bool, env: Env, calls: seq<Call>)
    ensures Output(Run(NewDot(directed), env, calls))
         == Keyword(directed) + Header + Concat(StructsTexts(env, calls)) + "\n"
            + Concat(ConnsTexts(env, directed, calls)) + "\n}\n"
  {
    var d := Dot(directed, Concat(StructsTexts(env, calls)), Concat(ConnsTexts(env, directed, calls)));
    assert Run(NewDot(directed), env, calls) == d by {
      RunAppendsInOrder(NewDot(directed), env, calls);
      assert "" + Concat(StructsTexts(env, calls)) == d.structs;
      assert "" + Concat(ConnsTexts(env, directed, calls)) == d.conns;
    }
  }
}
