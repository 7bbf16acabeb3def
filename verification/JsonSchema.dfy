/** JSON values and the part of JSON Schema Validation draft-07 that generated schemas use:
    sections 6.1.1 (type), 6.1.2 (enum), 6.4.1 (items), 6.5.3 (required), 6.5.4 (properties),
    6.5.6 (additionalProperties), 6.7.2 (anyOf) and 6.7.3 (oneOf). Absent keywords do not
    constrain; `title` and `description` never do. */
module JsonSchema {
  import opened Options
  import opened RustTypes

  datatype Json =
    | JNull
    | JBool(b: bool)
    | JNum(r: real)
    | JStr(s: string)
    | JArr(elems: seq<Json>)
    | JObj(members: map<string, Json>)

  datatype Property = Property(name: string, schema: Schema)

  datatype Schema = Schema(
    kind: Option<JType>,
    enums: Option<seq<string>>,
    anyOf: Branches,
    oneOf: Branches,
    items: Option<Schema>,
    properties: seq<Property>,
    required: seq<string>,
    additional: Option<Schema>)

  datatype Branches = Unrestricted | Among(list: seq<Schema>)

  const ANY := Schema(None, None, Unrestricted, Unrestricted, None, [], [], None)

  predicate HasType(v: Json, t: JType) {
    match t
    case TString => v.JStr?
    case TBoolean => v.JBool?
    case TInteger => v.JNum? && v.r == v.r.Floor as real
    case TNumber => v.JNum?
    case TNull => v.JNull?
    case TArray => v.JArr?
    case TObject => v.JObj?
  }

  /** Branch `i` accepts `v` and no other does. */
  ghost predicate OnlyBranch(b: Branches, i: nat, v: Json)
    requires b.Among? && i < |b.list|
    decreases b
  {
    Valid(b.list[i], v) && forall j :: 0 <= j < |b.list| && j != i ==> !Valid(b.list[j], v)
  }

  ghost predicate Valid(s: Schema, v: Json)
    decreases s
  {
    && (s.kind.Some? ==> HasType(v, s.kind.value))
    && (s.enums.Some? ==> v.JStr? && v.s in s.enums.value)
    && (s.anyOf.Among? ==> exists i :: 0 <= i < |s.anyOf.list| && Valid(s.anyOf.list[i], v))
    && (s.oneOf.Among? ==> exists i :: 0 <= i < |s.oneOf.list| && OnlyBranch(s.oneOf, i, v))
    && (s.items.Some? && v.JArr? ==> forall i :: 0 <= i < |v.elems| ==> Valid(s.items.value, v.elems[i]))
    && (v.JObj? ==>
          && (forall i :: 0 <= i < |s.required| ==> s.required[i] in v.members)
          && (forall i :: 0 <= i < |s.properties| && s.properties[i].name in v.members ==>
                Valid(s.properties[i].schema, v.members[s.properties[i].name]))
          && (s.additional.Some? ==> forall n ::
                n in v.members && (forall i :: 0 <= i < |s.properties| ==> s.properties[i].name != n) ==>
                  Valid(s.additional.value, v.members[n])))
  }

  // The schema shapes the macro emits.

  function OfType(t: JType): Schema { ANY.(kind := Some(t)) }
  function Nullable(s: Schema): Schema { ANY.(anyOf := Among([s, OfType(TNull)])) }
  function ArrayOf(s: Schema): Schema { ANY.(kind := Some(TArray), items := Some(s)) }
  function DictOf(s: Schema): Schema { ANY.(kind := Some(TObject), additional := Some(s)) }
  function OneOrMany(s: Schema): Schema { ANY.(oneOf := Among([s, ArrayOf(s)])) }
  function AnyOf(ss: seq<Schema>): Schema { ANY.(anyOf := Among(ss)) }
  function EnumOf(names: seq<string>): Schema { ANY.(kind := Some(TString), enums := Some(names)) }
  function ObjectOf(props: seq<Property>, required: seq<string>): Schema {
    ANY.(kind := Some(TObject), properties := props, required := required)
  }

  // What each shape accepts.

  lemma NullableValid(s: Schema, v: Json)
    ensures Valid(Nullable(s), v) <==> Valid(s, v) || v == JNull
  {
    var list := [s, OfType(TNull)];
    assert list[0] == s && list[1] == OfType(TNull);
    assert Valid(OfType(TNull), v) <==> v == JNull;
    assert Valid(Nullable(s), v) <==> exists i :: 0 <= i < |list| && Valid(list[i], v);
  }

  lemma ArrayValid(s: Schema, v: Json)
    ensures Valid(ArrayOf(s), v) <==> v.JArr? && forall i :: 0 <= i < |v.elems| ==> Valid(s, v.elems[i])
  {
  }

  lemma DictValid(s: Schema, v: Json)
    ensures Valid(DictOf(s), v) <==> v.JObj? && forall n :: n in v.members ==> Valid(s, v.members[n])
  {
  }

  lemma AnyOfValid(ss: seq<Schema>, v: Json)
    ensures Valid(AnyOf(ss), v) <==> exists i :: 0 <= i < |ss| && Valid(ss[i], v)
  {
  }

  /** Exactly one of the two forms. */
  lemma OneOrManyValid(s: Schema, v: Json)
    ensures Valid(OneOrMany(s), v) <==> Valid(s, v) != Valid(ArrayOf(s), v)
  {
    OneOfTwoValid(s, ArrayOf(s), v);
  }

  lemma OneOfTwoValid(a: Schema, b: Schema, v: Json)
    ensures Valid(ANY.(oneOf := Among([a, b])), v) <==> Valid(a, v) != Valid(b, v)
  {
    var two := Among([a, b]);
    assert two.list[0] == a && two.list[1] == b;
    assert OnlyBranch(two, 0, v) <==> Valid(a, v) && !Valid(b, v);
    assert OnlyBranch(two, 1, v) <==> Valid(b, v) && !Valid(a, v);
  }
}
