# structtograph in Dafny

structtograph draws Go struct types as a Graphviz document. Each registered
struct becomes a cluster that holds one record node. The node's label has
one port per field. A struct-typed field named in a "flatten" list is
inlined as a nested record, down to a fixed depth. Edges join two types and
can be attached to field ports. At the end, the assembled text is wrapped
in a `digraph`/`graph` header and footer.

This project models the generator in `generate.go` as pure functions and
proves what the text it produces looks like:

- `strings.dfy` (module `Strings`): prefix and suffix predicates,
  `TrimSuffix`, and `strings.Join`. The lemmas show that `Split` undoes a
  join when no part contains the separator.
- `decimal.dfy` (module `Decimal`): how `%d` writes an `int`, with a parser
  and round-trip lemmas.
- `gotypes.dfy` (module `GoTypes`): a stand-in for Go reflection. A type
  environment maps type names to descriptors (`Struct`, `Pointer`, `Slice`,
  `Array`, `Other`). Because descriptors name other types, cyclic types such
  as `type N struct{ Next *N }` can be written down.
- `label.dfy` (module `Label`): the record-label builder `labelStruct`.
  - It is written three ways: as the loop, as an entry tree with its
    rendering, and as `strings.Join` of the leaves when nothing is
    flattened. Lemmas connect the three.
  - Other lemmas state the depth bound, hidden fields, and where every
    entry sits.
- `graph.dfy` (module `Graph`): the `dot` state with its two append-only
  buffers.
  - It covers `NewDot`, `AddStruct` with `summaryStruct`, `Connect`,
    `Output`, and the file names `OutputPng` derives.
  - It also models a session: a sequence of calls applied in order.
- `anchors.dfy` (module `Anchors`): when the `<anchor>` ports of a label
  are unambiguous. This holds when no drawn field name contains `_` and
  each struct's drawn names are pairwise different.
- `examples.dfy` (module `LabelExamples`): labels computed for concrete
  types. They cover a person and address pair, the cyclic list type cut off
  at the depth bound, a message with `XXX_` fields, and two fields whose
  anchors collide.

Type names are opaque strings, standing for what `%s`/`%v` print for a
`reflect.Type`. A type name missing from the environment counts as a
non-struct kind. The environment and the already-resolved type names are
inputs in place of reflection.

## Model

| member | source | states |
|---|---|---|
| Label.LabelStruct | generate.go:131-165 | No contract of its own. It is the loop as written, characterised by `Label.LabelIsRender`, `Label.EntriesShape`, `Label.EmptyFlattenLabel`, `Label.DepthCutoff`, `Label.LabelEmptyIff` and `Label.HiddenFieldsIgnored`. |
| Label.FieldsText | generate.go:141-162 | No contract of its own. It is the loop's accumulator, characterised by `Label.FieldsTextIsRender` and `Label.FieldsTextEmptyIff`. |
| Label.FieldPiece | generate.go:142-161 | No contract of its own. It is one loop iteration, characterised by `Label.FieldPieceIsRender` and `Label.PieceEmptyIff`. |
| Label.FieldsTextIsRender | generate.go:141-162 | The loop's accumulated text is the rendering of the field entries followed by one `\|`, or empty when there are no entries. |
| Label.FieldPieceIsRender | generate.go:143-161 | A field has at most one entry. One iteration appends that entry's rendering followed by `\|`, or nothing when there is no entry. |
| Label.PieceEmptyIff | generate.go:143-161 | An iteration appends nothing exactly for an `XXX_` field. Otherwise it appends a text of at least two characters ending in `\|`. |
| Label.FieldsTextEmptyIff | generate.go:141-162 | The accumulated text is empty exactly when no field is drawn. Otherwise it ends in `\|`. |
| Label.LabelEmptyIff | generate.go:131-165 | A label is empty exactly beyond `maxdepth` or when the struct has no field without `XXX_`. This is what the enclosing level's `flat != ""` test decides. |
| Label.LabelIsRender | generate.go:131-165 | The label the field loop builds is the rendering of an entry tree. Entries are joined by `\|`, with no trailing `\|`. A leaf is `<P> Name`. A group is `{<P> Name \|sub }`, or `{<P> Name  }` when its sub-label is empty. |
| Label.EntriesShape | generate.go:141-160 | Below the depth bound the tree has exactly one entry per field whose name lacks `XXX_`, in declaration order. Each entry's path is the depth plus the field name. An entry is a group exactly when the field type, unwrapped once, is a struct and its name is in the flatten list. A group holds that type's label one level deeper, with the same flatten list. |
| Label.DepthCutoff | generate.go:32-32 | Past `maxdepth` (5) the label is empty and has no entries. |
| Label.EntriesPlaced | generate.go:131-134 | Every entry at every nesting level has a path that extends the starting depth by at least one name. The path has at most `maxdepth + 1` names, ends in the entry's own name, and adds no hidden name after the starting depth. |
| Label.HiddenFieldsIgnored | generate.go:144-146 | Deleting every `XXX_` field from every struct leaves every label unchanged, at every depth and for every flatten list. |
| Label.EmptyFlattenLabel | generate.go:161-164 | With an empty flatten list the label is `strings.Join` with `\|` of `<P> Name`, one per non-hidden field in order, where `P` is the depth plus the name joined with `_`. |
| Label.RenderEmptyIff | generate.go:154-156 | A rendering is empty exactly when there are no entries. This is what decides between the `{<P> Name \|sub }` and `{<P> Name  }` forms. |
| GoTypes.Unwrap | generate.go:147-150 | A pointer, slice or array type is unwrapped by exactly one level. Any other type is left as it is. |
| GoTypes.Visible | generate.go:144-146 | The fields kept are exactly the declared fields whose names lack `XXX_`. |
| GoTypes.VisibleOne | generate.go:144-146 | One field is kept exactly when its name lacks `XXX_`. |
| GoTypes.VisibleConcat | generate.go:142-146 | Filtering a concatenation filters each part and concatenates the results. With `VisibleOne` this fixes the kept fields' declaration order and multiplicity. |
| Graph.Rank | generate.go:26-28 | `Rank(r)` sets the rank to `r` and leaves `NoFields` off. |
| Graph.NewDot | generate.go:40-42 | A new graph has the requested edge style and two empty buffers. |
| Graph.SummaryStruct | generate.go:127-129 | The collapsed label is `<fields> N ...`. Reading `N` back gives the number of declared fields, hidden ones included. |
| Graph.BlockLabel | generate.go:115-119 | The record gets the summary exactly when one options value is given and it sets `NoFields`. Otherwise it gets `labelStruct(T, [], flatten)`. |
| Graph.StructBlock | generate.go:107-121 | A struct's block opens the cluster `subgraph "cluster_T" {` and ends with the record node named after the type, carrying the chosen label, then `]` and `}`. |
| Graph.RankLineIff | generate.go:110-113 | Right after the cluster title a `rank = r` line appears exactly when one options value is given, even when it sets only `NoFields`. The line carries that value's rank. |
| Graph.AddStruct | generate.go:96-125 | For a struct type, exactly the struct's block is appended to `structs`. For any other kind nothing changes. `conns` and the edge style never change. The result is `ErrNotStruct` in every case. |
| Graph.AddStructErrsOnSuccess | generate.go:124-124 | Registering a struct appends a block and still reports `ErrNotStruct`. |
| Graph.AddStructChecked | generate.go:106-124 | This version has the same buffers as `AddStruct`, and its error is `nil` exactly when the type is a struct. |
| Graph.Block | generate.go:107-121 | The block starts with the cluster opening followed by the title lines `  label = < <B>T</B> >` and `  color = transparent`. It ends with the node declaration that carries the given label. |
| Graph.Edge | generate.go:186-194 | No contract of its own. It is the `%s %s %s;\n` edge statement, characterised by `Graph.EdgeStart` and `Graph.EdgeEnd`, which together fix the whole line. |
| Graph.EdgeLine | generate.go:176-194 | No contract of its own. It is the edge between the two `Graph.Endpoint` texts, characterised by `Graph.Endpoint`, `Graph.EdgeStart` and `Graph.EdgeEnd`. |
| Graph.Endpoint | generate.go:177-184 | An edge end starts with the quoted type name. A `:anchor` suffix is added exactly when the type is a struct and the anchor is non-empty. |
| Graph.EdgeStart | generate.go:186-194 | An edge line starts with its first end, a space, the connector and a space. The connector is `->` exactly when the graph is directed, and `--` exactly when it is not. |
| Graph.EdgeEnd | generate.go:191-194 | An edge line ends with the second end. When exactly one label is given, ` [ label = "L" ]` follows it. Then come `;` and a newline. Its length is the two ends, the label attribute and six characters, so with `Graph.EdgeStart` the line is fixed. |
| Graph.Connect | generate.go:167-196 | Exactly one edge line is appended to `conns`. `structs` and the edge style are unchanged, and the result is `nil`. |
| Graph.Output | generate.go:44-72 | The document is the keyword, the fixed header, `structs` verbatim, a newline, `conns` verbatim, then `\n}\n`. |
| Graph.OutputKeyword | generate.go:45-49 | The document starts with `digraph ` exactly for a directed graph, and with `graph ` exactly for an undirected one. |
| Graph.OutputDeterminesDot | generate.go:44-72 | Two states with the same document and the same `structs` length are equal. The emitter loses nothing. |
| Graph.OutputFiles | generate.go:75-87 | The `.dot` and `.png` names come from the given name with one `.png` suffix removed. |
| Graph.OutputFilesIgnorePngSuffix | generate.go:75-75 | For a name that does not already end in `.png`, naming the image with or without `.png` gives the same two files. |
| Graph.ApplyAppends | generate.go:107-121 | One call appends its own text to each buffer and changes nothing else. |
| Graph.RunAppendsInOrder | generate.go:34-38 | After any sequence of calls, each buffer is its old text followed by every call's text, in call order. The edge style never changes. |
| Graph.SessionOutput | generate.go:40-72 | A session started with `NewDot` produces the header, every struct block in call order, a newline, every edge line in call order, and the footer. |
| Decimal.IntToString | generate.go:111-111 | The `%d` text is non-empty and starts with `-` exactly for a negative number. Its digits are canonical, with no leading zeros. `Decimal.ParseIntToString` shows it reads back as the number. |
| Decimal.ParseIntToString | generate.go:111-111 | The `rank = %d` text reads back as the rank, negative ranks included. |
| Decimal.ParseNatToString | generate.go:128-128 | The field count printed by `%d` reads back as the count. |
| Decimal.NatToStringParse | generate.go:128-128 | Canonical digit text is exactly what printing its value produces. |
| Strings.TrimAppended | generate.go:164-164 | Removing a suffix that was just appended gives back the original text. This is how the trailing `\|` disappears. |
| Strings.SplitJoin | generate.go:157-157 | Joining with `_` can be undone by splitting on `_` when no part contains `_`. |
| Strings.JoinInjective | generate.go:161-161 | On such parts, equal anchors mean equal paths. |
| Anchors.EntriesDistinct | generate.go:131-161 | When every struct's drawn field names are pairwise different and free of `_`, the entries at every nesting level have pairwise different paths. Each path extends the starting depth, and none of the names it adds contains `_`. |
| Anchors.FieldEntriesDistinct | generate.go:142-161 | The entries built from a field list are told apart by the drawn field name right after the depth, which names one of the list's drawn fields. |
| Anchors.AnchorsDistinct | generate.go:157-161 | Under the same naming condition, no two entries of a label share an anchor, so each port names exactly one field. `LabelExamples.AnchorsCanCollide` shows the condition is needed. |
| LabelExamples.PersonLabel | generate.go:141-164 | `Person{Name; Address}` with nothing flattened gives `<Name> Name\|<Address> Address`. |
| LabelExamples.PersonLabelFlattened | generate.go:151-158 | Flattening `Address` gives `<Name> Name\|{<Address> Address \|<Address_City> City }`. |
| LabelExamples.ListLabelAt | generate.go:131-158 | The self-referencing `N{Next *N}` with `Next` flattened gives one nested record per level. |
| LabelExamples.CyclicTypeStops | generate.go:32-32 | The nesting stops after six records, and the innermost has an empty sub-label. |
| LabelExamples.HiddenFieldDropped | generate.go:144-146 | A message with two `XXX_` fields, one of them listed for flattening, gives `<Id> Id`. |
| LabelExamples.AnchorsCanCollide | generate.go:157-161 | A field `A_B` and the field `B` of a flattened `A` both get the anchor `A_B`. |

## Left out

- `OutputPng` creates the `.dot` file, closes it, and runs the external
  `dot` program. These are file and process I/O and are not modelled.
  Only the `.png` suffix trim and the two derived names are kept
  (`Graph.OutputFiles`).
- The argument handling at the top of `AddStruct` and `Connect` is not
  modelled. Both depend on Go reflection internals, and the model takes the
  type name as input.
  - `AddStruct` replaces a pointer argument by its `reflect.Value`
    (generate.go:97-99). A `reflect.Value` prints as
    `<reflect.Value Value>`, so the `reflect.` test at generate.go:102-104
    does not fire for it. The source then describes the struct type
    `reflect.Value` itself: it draws a cluster for that type and returns
    `ErrNotStruct`. The model does not follow this path. It draws the type
    it is given.
  - A slice or array argument makes `reflect.Value.Elem` panic, in
    `AddStruct` at generate.go:98 and in `Connect` at generate.go:169 and
    generate.go:172. Nothing is appended. The model has no panics and does
    not cover these arguments.
  - The early `nil` return at generate.go:102-104 fires only for a string
    argument whose text starts with `reflect.`. It is not modelled.
  - The type-level unwrap inside `labelStruct` is modelled
    (`GoTypes.Unwrap`).
- Write errors from the `io.Writer` in `Output`, and which of them is
  returned, are I/O behaviour. The document is a pure function of the state.
- Go slice aliasing of `append(depth, name)` is not modelled: paths are
  immutable sequences.
- How `%s`/`%v` print a `reflect.Type` is not modelled. Type names are
  opaque strings, used verbatim in the cluster name, the title, the node
  name and the edge ends.
- `GoTypes.Env` keys types by their printed name. Go can have two distinct
  types that print the same, such as equally named packages under different
  import paths, or function-local types. `labelStruct` walks such types
  separately, but one environment entry cannot describe both.
- Type names absent from the environment count as non-struct kinds. Go has
  no such names, so this only makes lookups total.
- The rank in `Opts` is an unbounded integer. Go's `int` width plays no
  role because it is only printed with `%d`.

## Findings

| source | as written | input that shows it | evidently intended | confidence | as-written member | corrected member |
|---|---|---|---|---|---|---|
| generate.go:124 | `AddStruct` returns `ErrNotStruct` after it has appended a struct's block, so callers cannot tell success from failure | environment `{"T": Struct([])}`, `AddStruct(NewDot(true), env, "T", [], [])` appends a block and returns `ErrNotStruct` | return `nil` for a struct type and `ErrNotStruct` only for other kinds | high, not executed | Graph.AddStructErrsOnSuccess | Graph.AddStructChecked |

The session model (`Graph.Apply`, `Graph.Run`) uses `Graph.AddStructChecked`.
Its buffers are identical to those of `Graph.AddStruct`, so every buffer
property holds for both.
