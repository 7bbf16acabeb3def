/** `#[derive(BamlType)]`: definitions, their expansion, and the JSON Schema an expanded definition
    evaluates to (crates/baml-derive/src/expand.rs). */
module Derive {
  import opened Options
  import opened RustTypes
  import opened JsonSchema
  import opened SerdeValues

  /** A named field: its Rust identifier and type, its `#[baml(...)]` attributes, and what serde
      makes of it: the key it writes and when it leaves the field out. */
  datatype FieldDef = FieldDef(
    name: string,
    ty: Ty,
    skip: bool,
    typeOverride: Option<string>,
    tsType: Option<string>,
    vecOrOne: bool,
    alias: Option<string>,
    serdeName: string,
    omit: Omit)

  /** A variant: its Rust name, the string serde writes, an explicit `#[baml(alias)]`. */
  datatype VariantDef = VariantDef(name: string, serdeWire: string, alias: Option<string>, skip: bool)

  datatype Def = Struct(fields: seq<FieldDef>) | Enum(variants: seq<VariantDef>) | Union(names: seq<string>)

  type Defs = map<string, Def>

  /** One entry of `properties`: name, schema expression, and whether it is required. */
  datatype SchemaField = SchemaField(name: string, expr: Expr, required: bool)

  predicate IsOptionType(ty: Ty) {
    ty.Path? && ty.id == OptionId
  }

  /** The attribute combinations and types `expand_struct` refuses. */
  predicate FieldAccepted(f: FieldDef) {
    && (f.vecOrOne ==> !f.skip && f.typeOverride == None && f.tsType == None && VecOrOneElement(f.ty).Some?)
    && (f.typeOverride == None && !f.skip ==>
          if f.vecOrOne then ResolveBamlVecOrOne(f.ty).Some? else ResolveBaml(f.ty).Some?)
  }

  /** The predicate of `skip_serializing_if` has to fit the field's type. */
  predicate OmitFits(f: FieldDef) {
    match f.omit
    case Never => true
    case WhenEmpty => Opaque(f) || (f.ty.Path? && (f.ty.id == VecId || f.ty.id == MapId || f.ty.id == StringId))
    case _ => Opaque(f) || IsOptionType(f.ty)
  }

  /** The macro does not look into the field's type. */
  predicate Opaque(f: FieldDef) {
    f.skip || f.typeOverride.Some?
  }

  /** What rustc and serde demand of a struct: identifiers and keys are distinct. */
  ghost predicate FieldsFit(fs: seq<FieldDef>) {
    && (forall i :: 0 <= i < |fs| ==> OmitFits(fs[i]))
    && (forall i, j :: 0 <= i < j < |fs| ==> fs[i].name != fs[j].name)
    && (forall i, j :: 0 <= i < j < |fs| ==> fs[i].serdeName != fs[j].serdeName)
  }

  function OrAny(e: Option<Expr>): Expr {
    if e.Some? then e.value else EAny
  }

  function FieldExpr(f: FieldDef): Expr {
    if f.typeOverride.Some? then EAny
    else if f.vecOrOne then OrAny(ResolveVecOrOne(f.ty))
    else OrAny(ResolveSchema(f.ty))
  }

  function SchemaFields(fs: seq<FieldDef>): seq<SchemaField> {
    if fs == [] then []
    else
      var f := fs[|fs| - 1];
      SchemaFields(fs[..|fs| - 1]) + if f.skip then [] else [SchemaField(f.name, FieldExpr(f), !IsOptionType(f.ty))]
  }

  function FieldDeps(fs: seq<FieldDef>): seq<string> {
    if fs == [] then []
    else
      var f := fs[|fs| - 1];
      FieldDeps(fs[..|fs| - 1])
      + if !f.skip && f.typeOverride == None && UserTypeDep(f.ty).Some? then [UserTypeDep(f.ty).value] else []
  }

  /** A field has a dependency unless it is skipped or overridden. */
  predicate DependsOn(f: FieldDef, n: string) {
    !f.skip && f.typeOverride == None && UserTypeDep(f.ty) == Some(n)
  }

  lemma {:induction false} FieldDepsAre(fs: seq<FieldDef>, n: string)
    ensures n in FieldDeps(fs) <==> exists i :: 0 <= i < |fs| && DependsOn(fs[i], n)
  {
    if fs != [] {
      FieldDepsAre(fs[..|fs| - 1], n);
      assert fs == fs[..|fs| - 1] + [fs[|fs| - 1]];
    }
  }

  /** `expand_struct`: the loop over the fields. */
  method ExpandStruct(fields: seq<FieldDef>) returns (r: Option<(seq<SchemaField>, seq<string>)>)
    ensures r.Some? <==> forall i :: 0 <= i < |fields| ==> FieldAccepted(fields[i])
    ensures r.Some? ==> r.value == (SchemaFields(fields), FieldDeps(fields))
  {
    var schema: seq<SchemaField>, deps: seq<string> := [], [];
    for i := 0 to |fields|
      invariant forall k :: 0 <= k < i ==> FieldAccepted(fields[k])
      invariant schema == SchemaFields(fields[..i]) && deps == FieldDeps(fields[..i])
    {
      var f := fields[i];
      assert fields[..i + 1][..i] == fields[..i];
      if f.vecOrOne {
        if f.skip || f.typeOverride.Some? || f.tsType.Some? { return None; }
        if VecOrOneElement(f.ty) == None { return None; }
      }
      if f.typeOverride == None && !f.skip {
        var baml := if f.vecOrOne then ResolveBamlVecOrOne(f.ty) else ResolveBaml(f.ty);
        if baml == None { return None; }
      }
      if !f.skip && f.typeOverride == None && UserTypeDep(f.ty).Some? {
        deps := deps + [UserTypeDep(f.ty).value];
      }
      if !f.skip {
        schema := schema + [SchemaField(f.name, FieldExpr(f), !IsOptionType(f.ty))];
      }
    }
    assert fields[..|fields|] == fields;
    r := Some((schema, deps));
  }

  /** The one wire string of a variant: an alias wins over what serde writes. */
  function Wire(v: VariantDef): string {
    match v.alias case Some(a) => a case None => v.serdeWire
  }

  function Wires(vs: seq<VariantDef>): (ws: seq<string>)
    ensures forall w :: w in ws <==> exists i :: 0 <= i < |vs| && !vs[i].skip && Wire(vs[i]) == w
    ensures forall i :: 0 <= i < |vs| && !vs[i].skip && vs[i].alias.Some? ==> vs[i].alias.value in ws
    ensures forall i :: 0 <= i < |vs| && !vs[i].skip && vs[i].alias.None? ==> vs[i].serdeWire in ws
  {
    if vs == [] then []
    else
      var v := vs[|vs| - 1];
      Wires(vs[..|vs| - 1]) + if v.skip then [] else [Wire(v)]
  }

  /** `expand_enum`: the loop over the variants. */
  method ExpandEnum(variants: seq<VariantDef>) returns (wires: seq<string>)
    ensures wires == Wires(variants)
  {
    wires := [];
    for i := 0 to |variants|
      invariant wires == Wires(variants[..i])
    {
      assert variants[..i + 1][..i] == variants[..i];
      if !variants[i].skip { wires := wires + [Wire(variants[i])]; }
    }
    assert variants[..|variants|] == variants;
  }

  predicate DefAccepted(d: Def) {
    d.Struct? ==> forall i :: 0 <= i < |d.fields| ==> FieldAccepted(d.fields[i])
  }

  /** `baml_dependencies`. */
  function Deps(d: Def): seq<string> {
    match d
    case Struct(fields) => FieldDeps(fields)
    case Enum(_) => []
    case Union(names) => names
  }

  /** The user types the definition's schema calls upon. */
  ghost predicate Calls(d: Def, n: string) {
    match d
    case Struct(fields) => exists i :: 0 <= i < |SchemaFields(fields)| && n in Inlined(SchemaFields(fields)[i].expr)
    case Enum(_) => false
    case Union(names) => n in names
  }

  lemma {:induction false} FieldCallsAreListed(fs: seq<FieldDef>, i: nat, n: string)
    requires i < |SchemaFields(fs)| && n in Inlined(SchemaFields(fs)[i].expr)
    ensures n in FieldDeps(fs)
  {
    var front, f := fs[..|fs| - 1], fs[|fs| - 1];
    if i < |SchemaFields(front)| {
      FieldCallsAreListed(front, i, n);
    } else {
      InlinedIsListed(f.ty);
      InlinedIsListedVecOrOne(f.ty);
    }
  }

  /** Every user type a schema calls upon is among the listed dependencies. */
  lemma CallsAreListed(d: Def, n: string)
    requires Calls(d, n)
    ensures n in Deps(d)
  {
    if d.Struct? {
      var i :| 0 <= i < |SchemaFields(d.fields)| && n in Inlined(SchemaFields(d.fields)[i].expr);
      FieldCallsAreListed(d.fields, i, n);
    }
  }

  /** Accepted definitions, with an impl for every type called upon and no cycle among the listed
      dependencies. */
  ghost predicate World(defs: Defs, rank: map<string, nat>) {
    && defs.Keys <= rank.Keys
    && (forall n :: n in defs ==> DefAccepted(defs[n]))
    && (forall n :: n in defs && defs[n].Struct? ==> FieldsFit(defs[n].fields))
    && (forall n, c :: n in defs && Calls(defs[n], c) ==> c in defs)
    && (forall n, d :: n in defs && d in Deps(defs[n]) && d in defs ==> rank[d] < rank[n])
  }

  ghost predicate Below(defs: Defs, rank: map<string, nat>, k: nat, e: Expr) {
    forall n :: n in Inlined(e) ==> n in defs && n in rank && rank[n] < k
  }

  lemma FieldsBelow(defs: Defs, rank: map<string, nat>, n: string)
    requires World(defs, rank) && n in defs && defs[n].Struct?
    ensures forall i :: 0 <= i < |SchemaFields(defs[n].fields)| ==>
              Below(defs, rank, rank[n], SchemaFields(defs[n].fields)[i].expr)
  {
    var fs := SchemaFields(defs[n].fields);
    forall i, c | 0 <= i < |fs| && c in Inlined(fs[i].expr) ensures c in defs && rank[c] < rank[n] {
      assert Calls(defs[n], c);
      CallsAreListed(defs[n], c);
    }
  }

  function RequiredNames(fs: seq<SchemaField>): (r: seq<string>)
    ensures forall x :: x in r <==> exists i :: 0 <= i < |fs| && fs[i].required && fs[i].name == x
  {
    if fs == [] then []
    else
      var f := fs[|fs| - 1];
      RequiredNames(fs[..|fs| - 1]) + if f.required then [f.name] else []
  }

  /** Evaluating an emitted expression; it terminates because every type it calls upon ranks below
      the definition it stands in. */
  ghost function Eval(defs: Defs, rank: map<string, nat>, k: nat, e: Expr): Schema
    requires World(defs, rank) && Below(defs, rank, k, e)
    decreases k, 0, e
  {
    match e
    case EType(t) => OfType(t)
    case EAny => ANY
    case ENullable(i) => Nullable(Eval(defs, rank, k, i))
    case EArray(i) => ArrayOf(Eval(defs, rank, k, i))
    case EDict(i) => DictOf(Eval(defs, rank, k, i))
    case EInline(n) => Inline(defs, rank, n)
    case EOneOrMany(i) => OneOrMany(Eval(defs, rank, k, i))
  }

  /** `json_schema_inline` of a definition. */
  ghost function Inline(defs: Defs, rank: map<string, nat>, n: string): Schema
    requires World(defs, rank) && n in defs
    decreases rank[n], 1
  {
    match defs[n]
    case Struct(fields) =>
      FieldsBelow(defs, rank, n);
      var fs := SchemaFields(fields);
      ObjectOf(seq(|fs|, i requires 0 <= i < |fs| => Property(fs[i].name, Eval(defs, rank, rank[n], fs[i].expr))),
               RequiredNames(fs))
    case Enum(vs) => EnumOf(Wires(vs))
    case Union(names) =>
      assert forall i :: 0 <= i < |names| ==> Calls(defs[n], names[i]);
      AnyOf(seq(|names|, i requires 0 <= i < |names| => Inline(defs, rank, names[i])))
  }
}
