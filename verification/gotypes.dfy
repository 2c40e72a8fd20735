/** An abstract stand-in for the Go reflection the generator walks.
    A type environment maps each type's printed name (what `%s` shows for
    a `reflect.Type`) to a descriptor. Descriptors refer to other types by
    name, so recursive types such as `type N struct{ Next *N }` are
    expressible: `"N" -> Struct([Field("Next", "*N")])`,
    `"*N" -> Pointer("N")`. */
module GoTypes {
  import opened Strings

  /** A struct field: its name and the name of its declared type. */
  datatype Field = Field(name: string, typ: string)

  /** The kinds the generator distinguishes; every other kind is `Other`. */
  datatype TypeDesc =
    | Struct(fields: seq<Field>)
    | Pointer(elem: string)
    | Slice(elem: string)
    | Array(elem: string)
    | Other

  type Env = map<string, TypeDesc>

  /** Names missing from the environment are taken to be of a non-struct kind. */
  predicate IsStruct(env: Env, t: string) {
    t in env && env[t].Struct?
  }

  predicate IsWrapper(env: Env, t: string) {
    t in env && (env[t].Pointer? || env[t].Slice? || env[t].Array?)
  }

  /** One level of pointer, slice or array unwrapping (`Type.Elem`), and no more. */
  function Unwrap(env: Env, t: string): (u: string)
    ensures IsWrapper(env, t) ==> u == env[t].elem
    ensures !IsWrapper(env, t) ==> u == t
  {
    if IsWrapper(env, t) then env[t].elem else t
  }

  /** `NumField`: the number of declared fields, hidden ones included. */
  function NumField(env: Env, t: string): nat
    requires IsStruct(env, t)
  {
    |env[t].fields|
  }

  /** Generated fields carry the reserved `XXX_` prefix and are never drawn. */
  predicate Hidden(name: string) {
    HasPrefix(name, "XXX_")
  }

  /** The fields that are drawn, in declaration order. */
  function Visible(fs: seq<Field>): (vs: seq<Field>)
    ensures |vs| <= |fs|
    ensures forall k :: 0 <= k < |vs| ==> !Hidden(vs[k].name) && vs[k] in fs
    ensures forall f :: f in fs && !Hidden(f.name) ==> f in vs
  {
    if |fs| == 0 then []
    else if Hidden(fs[0].name) then Visible(fs[1..])
    else [fs[0]] + Visible(fs[1..])
  }

  /** A single field is kept exactly when its name is not hidden. */
  lemma VisibleOne(f: Field)
    ensures Visible([f]) == if Hidden(f.name) then [] else [f]
  {
    assert [f][1..] == [];
  }

  /** Filtering distributes over concatenation, so the kept fields keep
      their declaration order and multiplicity. */
  lemma {:induction false} VisibleConcat(a: seq<Field>, b: seq<Field>)
    ensures Visible(a + b) == Visible(a) + Visible(b)
    decreases |a|
  {
    if |a| == 0 {
      assert a + b == b;
    } else {
      assert (a + b)[0] == a[0];
      assert (a + b)[1..] == a[1..] + b;
      VisibleConcat(a[1..], b);
    }
  }
}
