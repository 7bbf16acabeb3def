/** The BAML definitions the derive macro generates beside the schemas, and the JSON they stand for
    (crates/baml-derive/src/expand.rs, crates/baml-derive-core/src/types.rs). */
module BamlMeaning {
  import opened Options
  import opened RustTypes
  import opened JsonSchema
  import opened SerdeValues
  import opened Derive
  import opened Encoding
  import opened SchemaSoundness
  import opened SchemaFaults
  import opened BamlText

  /** The type of a class field: resolved, or the text of an override. */
  datatype BamlType = Resolved(b: Baml) | Verbatim(text: string)

  datatype BamlField = BamlField(name: string, ty: BamlType, alias: Option<string>, skip: bool)
  datatype BamlValue = BamlValue(name: string, alias: Option<string>, skip: bool)
  datatype BamlDef = BamlClass(fields: seq<BamlField>) | BamlEnum(values: seq<BamlValue>) | BamlUnion(names: seq<string>)

  function FieldType(f: FieldDef): BamlType
    requires FieldAccepted(f)
  {
    if f.typeOverride.Some? then Verbatim(f.typeOverride.value)
    else if f.skip then Verbatim("")
    else if f.vecOrOne then Resolved(ResolveBamlVecOrOne(f.ty).value)
    else Resolved(ResolveBaml(f.ty).value)
  }

  /** `baml_definition`; an enum value carries its wire string as alias where that differs from its
      name. */
  function Definition(d: Def): BamlDef
    requires DefAccepted(d)
  {
    match d
    case Struct(fields) =>
      BamlClass(seq(|fields|, i requires 0 <= i < |fields| => BamlField(fields[i].name, FieldType(fields[i]), fields[i].alias, fields[i].skip)))
    case Enum(vs) =>
      BamlEnum(seq(|vs|, i requires 0 <= i < |vs| =>
        BamlValue(vs[i].name, if Wire(vs[i]) != vs[i].name then Some(Wire(vs[i])) else None, vs[i].skip)))
    case Union(names) => BamlUnion(names)
  }

  // What a definition stands for in JSON.

  /** The name a field or value goes by. */
  function Label(name: string, alias: Option<string>): string {
    match alias case Some(a) => a case None => name
  }

  predicate IsOptional(t: BamlType) {
    match t
    case Resolved(b) => b.BOptional?
    case Verbatim(text) => text != "" && text[|text| - 1] == '?'
  }

  /** The text of the type in the generated definition. */
  function TypeText(t: BamlType): string {
    match t case Resolved(b) => Print(b) case Verbatim(text) => text
  }

  lemma LastOfPrint(b: Baml)
    requires NamesOk(b)
    ensures Print(b) != "" && (Print(b)[|Print(b)| - 1] == '?' <==> b.BOptional?)
  {
    if b.BUser? { assert !IsPunct(b.name[|b.name| - 1]); }
  }

  /** A field is optional exactly when the text of its type ends with a question mark. */
  lemma OptionalIsText(t: BamlType)
    requires t.Resolved? ==> NamesOk(t.b)
    ensures IsOptional(t) <==> exists base :: TypeText(t) == base + "?"
  {
    var text := TypeText(t);
    if t.Resolved? { LastOfPrint(t.b); }
    if text != "" && text[|text| - 1] == '?' { assert text == text[..|text| - 1] + "?"; }
  }

  /** The user types a BAML type stands on; JSON keys are strings whatever the key type. */
  function Named(b: Baml): set<string> {
    match b
    case BPrim(_) => {}
    case BUser(n) => {n}
    case BOptional(i) => Named(i)
    case BList(i) => Named(i)
    case BMap(_, v) => Named(v)
    case BOneOrMany(i) => Named(i)
  }

  ghost predicate NamedBelow(defs: Defs, rank: map<string, nat>, k: nat, b: Baml) {
    forall n :: n in Named(b) ==> n in defs && n in rank && rank[n] < k
  }

  predicate MeansPrim(p: Prim, j: Json) {
    match p
    case PString => j.JStr?
    case PBool => j.JBool?
    case PInt => j.JNum? && j.r == j.r.Floor as real
    case PFloat => j.JNum?
  }

  ghost predicate Means(defs: Defs, rank: map<string, nat>, k: nat, b: Baml, j: Json)
    requires World(defs, rank) && NamedBelow(defs, rank, k, b)
    decreases k, 0, b
  {
    match b
    case BPrim(p) => MeansPrim(p, j)
    case BUser(n) => MeansUser(defs, rank, n, j)
    case BOptional(i) => j == JNull || Means(defs, rank, k, i, j)
    case BList(i) => j.JArr? && forall m :: 0 <= m < |j.elems| ==> Means(defs, rank, k, i, j.elems[m])
    case BMap(_, v) => j.JObj? && forall n :: n in j.members ==> Means(defs, rank, k, v, j.members[n])
    case BOneOrMany(i) =>
      || Means(defs, rank, k, i, j)
      || (j.JArr? && forall m :: 0 <= m < |j.elems| ==> Means(defs, rank, k, i, j.elems[m]))
  }

  lemma {:induction false} NamedAreInlined(ty: Ty)
    requires ResolveBaml(ty).Some? && ResolveSchema(ty).Some?
    ensures Named(ResolveBaml(ty).value) == Inlined(ResolveSchema(ty).value)
  {
    match ty
    case Ref(e) => NamedAreInlined(e);
    case Path(id, args) =>
      if id == MapId { NamedAreInlined(TwoArgs(args).value.1); }
      else if id == OptionId || id == VecId || id == BoxId { NamedAreInlined(SingleArg(args).value); }
  }

  lemma FieldNamedBelow(defs: Defs, rank: map<string, nat>, n: string, i: nat)
    requires World(defs, rank) && n in defs && defs[n].Struct? && i < |defs[n].fields|
    ensures FieldAccepted(defs[n].fields[i])
    ensures FieldType(defs[n].fields[i]).Resolved? ==> NamedBelow(defs, rank, rank[n], FieldType(defs[n].fields[i]).b)
  {
    var f := defs[n].fields[i];
    SlotBelow(defs, rank, n, i);
    if !Opaque(f) {
      PlainFieldUsable(defs, rank, rank[n], f);
      if f.vecOrOne {
        NamedAreInlined(VecOrOneElement(f.ty).value);
        var b := ResolveBaml(VecOrOneElement(f.ty).value).value;
        assert Named(BOneOrMany(b)) == Named(b) == Named(BOptional(BOneOrMany(b)));
      } else {
        NamedAreInlined(f.ty);
      }
    }
  }

  /** Field `i` of class `n` in an object: of its type, or absent if that is optional. The text of an
      override is not interpreted. */
  ghost predicate MeansField(defs: Defs, rank: map<string, nat>, n: string, i: nat, members: map<string, Json>)
    requires World(defs, rank) && n in defs && defs[n].Struct? && i < |defs[n].fields|
    decreases rank[n], 1
  {
    var f := Definition(defs[n]).fields[i];
    FieldNamedBelow(defs, rank, n, i);
    if f.skip then true
    else if Label(f.name, f.alias) in members then
      f.ty.Resolved? ==> Means(defs, rank, rank[n], f.ty.b, members[Label(f.name, f.alias)])
    else IsOptional(f.ty)
  }

  ghost predicate MeansUser(defs: Defs, rank: map<string, nat>, n: string, j: Json)
    requires World(defs, rank) && n in defs
    decreases rank[n], 2
  {
    match Definition(defs[n])
    case BamlClass(fields) => j.JObj? && forall i :: 0 <= i < |fields| ==> MeansField(defs, rank, n, i, j.members)
    case BamlEnum(values) => j.JStr? && exists i :: 0 <= i < |values| && !values[i].skip && Label(values[i].name, values[i].alias) == j.s
    case BamlUnion(names) =>
      assert forall i :: 0 <= i < |names| ==> Calls(defs[n], names[i]);
      exists i :: 0 <= i < |names| && MeansUser(defs, rank, names[i], j)
  }

  // Agreement with the schemas.

  /** The generated BAML definition and the generated schema of `n` accept the same JSON. */
  ghost predicate ClassAgrees(defs: Defs, rank: map<string, nat>, n: string)
    requires World(defs, rank) && n in defs
  {
    forall j :: MeansUser(defs, rank, n, j) <==> Valid(Inline(defs, rank, n), j)
  }

  ghost predicate AgreesBelow(defs: Defs, rank: map<string, nat>, k: nat)
    requires World(defs, rank)
  {
    forall n :: n in defs && rank[n] < k ==> ClassAgrees(defs, rank, n)
  }

  lemma AgreeOn(defs: Defs, rank: map<string, nat>, k: nat, n: string, j: Json)
    requires World(defs, rank) && AgreesBelow(defs, rank, k) && n in defs && rank[n] < k
    ensures MeansUser(defs, rank, n, j) <==> Valid(Inline(defs, rank, n), j)
  {
    assert ClassAgrees(defs, rank, n);
  }

  /** Of every type BAML can express, over definitions that agree, the generated BAML type and the
      generated schema accept the same JSON. */
  lemma {:induction false} BamlMeansSchema(defs: Defs, rank: map<string, nat>, k: nat, ty: Ty, j: Json)
    requires World(defs, rank) && AgreesBelow(defs, rank, k) && Usable(defs, rank, k, ty) && ResolveBaml(ty).Some?
    ensures NamedBelow(defs, rank, k, ResolveBaml(ty).value)
    ensures Means(defs, rank, k, ResolveBaml(ty).value, j) <==> Valid(Eval(defs, rank, k, ResolveSchema(ty).value), j)
    decreases ty, 0
  {
    NamedAreInlined(ty);
    match ty
    case Ref(e) => BamlMeansSchema(defs, rank, k, e, j);
    case Path(id, args) =>
      if id == OptionId || id == VecId || id == MapId || id == BoxId { WrapperMeansSchema(defs, rank, k, id, args, j); }
      else if id.UserId? { AgreeOn(defs, rank, k, id.name, j); }
      else { PrimitiveMeansSchema(defs, rank, k, id, args, j); }
  }

  lemma {:induction false} WrapperMeansSchema(defs: Defs, rank: map<string, nat>, k: nat, id: Ident, args: Args, j: Json)
    requires id == OptionId || id == VecId || id == MapId || id == BoxId
    requires World(defs, rank) && AgreesBelow(defs, rank, k) && Usable(defs, rank, k, Path(id, args)) && ResolveBaml(Path(id, args)).Some?
    ensures NamedBelow(defs, rank, k, ResolveBaml(Path(id, args)).value)
    ensures Means(defs, rank, k, ResolveBaml(Path(id, args)).value, j) <==> Valid(Eval(defs, rank, k, ResolveSchema(Path(id, args)).value), j)
    decreases args, 2
  {
    match id
    case OptionId => OptionMeansSchema(defs, rank, k, SingleArg(args).value, j);
    case VecId => ListMeansSchema(defs, rank, k, SingleArg(args).value, j);
    case MapId => DictMeansSchema(defs, rank, k, ResolveBaml(TwoArgs(args).value.0).value, TwoArgs(args).value.1, j);
    case BoxId => BamlMeansSchema(defs, rank, k, SingleArg(args).value, j);
  }

  lemma PrimitiveMeansSchema(defs: Defs, rank: map<string, nat>, k: nat, id: Ident, args: Args, j: Json)
    requires PrimitiveBaml(id).Some? && World(defs, rank)
    ensures Usable(defs, rank, k, Path(id, args)) && NamedBelow(defs, rank, k, ResolveBaml(Path(id, args)).value)
    ensures Means(defs, rank, k, ResolveBaml(Path(id, args)).value, j)
       <==> Valid(Eval(defs, rank, k, ResolveSchema(Path(id, args)).value), j)
  {
    PrimMeansType(id, j);
  }

  lemma PrimMeansType(id: Ident, j: Json)
    requires PrimitiveBaml(id).Some?
    ensures PrimitiveSchema(id).Some? && (MeansPrim(PrimitiveBaml(id).value, j) <==> Valid(OfType(PrimitiveSchema(id).value), j))
  {
  }

  lemma {:induction false} OptionMeansSchema(defs: Defs, rank: map<string, nat>, k: nat, t: Ty, j: Json)
    requires World(defs, rank) && AgreesBelow(defs, rank, k) && Usable(defs, rank, k, t) && ResolveBaml(t).Some?
    ensures NamedBelow(defs, rank, k, BOptional(ResolveBaml(t).value))
    ensures Means(defs, rank, k, BOptional(ResolveBaml(t).value), j) <==> Valid(Nullable(Eval(defs, rank, k, ResolveSchema(t).value)), j)
    decreases t, 1
  {
    BamlMeansSchema(defs, rank, k, t, j);
    NullableValid(Eval(defs, rank, k, ResolveSchema(t).value), j);
  }

  lemma {:induction false} ListMeansSchema(defs: Defs, rank: map<string, nat>, k: nat, t: Ty, j: Json)
    requires World(defs, rank) && AgreesBelow(defs, rank, k) && Usable(defs, rank, k, t) && ResolveBaml(t).Some?
    ensures NamedBelow(defs, rank, k, BList(ResolveBaml(t).value))
    ensures Means(defs, rank, k, BList(ResolveBaml(t).value), j) <==> Valid(ArrayOf(Eval(defs, rank, k, ResolveSchema(t).value)), j)
    decreases t, 1
  {
    NamedAreInlined(t);
    ArrayValid(Eval(defs, rank, k, ResolveSchema(t).value), j);
    if j.JArr? {
      forall i | 0 <= i < |j.elems|
        ensures Means(defs, rank, k, ResolveBaml(t).value, j.elems[i]) <==> Valid(Eval(defs, rank, k, ResolveSchema(t).value), j.elems[i])
      {
        BamlMeansSchema(defs, rank, k, t, j.elems[i]);
      }
    }
  }

  ghost predicate EntriesMean(defs: Defs, rank: map<string, nat>, k: nat, b: Baml, members: map<string, Json>)
    requires World(defs, rank) && NamedBelow(defs, rank, k, b)
  {
    forall n :: n in members ==> Means(defs, rank, k, b, members[n])
  }

  ghost predicate EntriesValid(s: Schema, members: map<string, Json>) {
    forall n :: n in members ==> Valid(s, members[n])
  }

  lemma MapMeans(defs: Defs, rank: map<string, nat>, k: nat, key: Baml, b: Baml, j: Json)
    requires World(defs, rank) && NamedBelow(defs, rank, k, b)
    ensures NamedBelow(defs, rank, k, BMap(key, b))
    ensures Means(defs, rank, k, BMap(key, b), j) <==> j.JObj? && EntriesMean(defs, rank, k, b, j.members)
  {
  }

  lemma DictAccepts(s: Schema, j: Json)
    ensures Valid(DictOf(s), j) <==> j.JObj? && EntriesValid(s, j.members)
  {
    DictValid(s, j);
  }

  lemma {:induction false} EntriesMeanSchema(defs: Defs, rank: map<string, nat>, k: nat, t: Ty, members: map<string, Json>)
    requires World(defs, rank) && AgreesBelow(defs, rank, k) && Usable(defs, rank, k, t) && ResolveBaml(t).Some?
    ensures NamedBelow(defs, rank, k, ResolveBaml(t).value)
    ensures EntriesMean(defs, rank, k, ResolveBaml(t).value, members) <==> EntriesValid(Eval(defs, rank, k, ResolveSchema(t).value), members)
    decreases t, 1, 0
  {
    NamedAreInlined(t);
    forall n | n in members
      ensures Means(defs, rank, k, ResolveBaml(t).value, members[n]) <==> Valid(Eval(defs, rank, k, ResolveSchema(t).value), members[n])
    {
      BamlMeansSchema(defs, rank, k, t, members[n]);
    }
  }

  lemma {:induction false} DictMeansSchema(defs: Defs, rank: map<string, nat>, k: nat, key: Baml, t: Ty, j: Json)
    requires World(defs, rank) && AgreesBelow(defs, rank, k) && Usable(defs, rank, k, t) && ResolveBaml(t).Some?
    ensures NamedBelow(defs, rank, k, BMap(key, ResolveBaml(t).value))
    ensures Means(defs, rank, k, BMap(key, ResolveBaml(t).value), j) <==> Valid(DictOf(Eval(defs, rank, k, ResolveSchema(t).value)), j)
    decreases t, 1, 1
  {
    NamedAreInlined(t);
    MapMeans(defs, rank, k, key, ResolveBaml(t).value, j);
    DictAccepts(Eval(defs, rank, k, ResolveSchema(t).value), j);
    if j.JObj? { EntriesMeanSchema(defs, rank, k, t, j.members); }
  }

  lemma UnionFormMeans(defs: Defs, rank: map<string, nat>, k: nat, elem: Ty, j: Json)
    requires World(defs, rank) && AgreesBelow(defs, rank, k) && Usable(defs, rank, k, elem) && ResolveBaml(elem).Some?
    ensures NamedBelow(defs, rank, k, BOneOrMany(ResolveBaml(elem).value))
    ensures var s := Eval(defs, rank, k, ResolveSchema(elem).value);
            Means(defs, rank, k, BOneOrMany(ResolveBaml(elem).value), j) <==> Valid(s, j) || Valid(ArrayOf(s), j)
  {
    BamlMeansSchema(defs, rank, k, elem, j);
    ListMeansSchema(defs, rank, k, elem, j);
  }

  /** For a one-or-many field the BAML union takes either form and the schema exactly one. */
  lemma ManyMeansSchema(defs: Defs, rank: map<string, nat>, k: nat, f: FieldDef, j: Json)
    requires World(defs, rank) && AgreesBelow(defs, rank, k) && FieldAccepted(f) && f.vecOrOne && Below(defs, rank, k, FieldExpr(f))
    requires NamedBelow(defs, rank, k, ResolveBamlVecOrOne(f.ty).value)
    ensures !VecInside(VecOrOneElement(f.ty).value) ==>
              (Means(defs, rank, k, ResolveBamlVecOrOne(f.ty).value, j) <==> Valid(Eval(defs, rank, k, FieldExpr(f)), j))
    ensures VecInside(VecOrOneElement(f.ty).value) && j == JArr([]) ==>
              Means(defs, rank, k, ResolveBamlVecOrOne(f.ty).value, j) && !Valid(Eval(defs, rank, k, FieldExpr(f)), j)
  {
    var elem := VecOrOneElement(f.ty).value;
    VecOrOneEval(defs, rank, k, f);
    var s := Eval(defs, rank, k, ResolveSchema(elem).value);
    UnionFormMeans(defs, rank, k, elem, j);
    NullableValid(OneOrMany(s), j);
    if !VecInside(elem) {
      OneOrManyOfNoVec(defs, rank, k, elem, j);
    } else if j == JArr([]) {
      EmptyVecValid(defs, rank, k, elem);
      ArrayValid(s, j);
      OneOrManyValid(s, j);
    }
  }

  /** What makes class and schema say the same of a field: it has no alias that renames it, BAML and
      the schema both take it for optional or both do not, and if it is one-or-many it does not hold
      vectors. */
  ghost predicate FieldAgrees(f: FieldDef)
    requires FieldAccepted(f)
  {
    && Label(f.name, f.alias) == f.name
    && (IsOptional(FieldType(f)) <==> IsOptionType(f.ty))
    && (f.vecOrOne ==> !VecInside(VecOrOneElement(f.ty).value))
  }

  /** Or neither says anything: the field is skipped, or it has an override and both take it for
      optional. */
  ghost predicate FieldOk(f: FieldDef)
    requires FieldAccepted(f)
  {
    f.skip || FieldAgrees(f) || (f.typeOverride.Some? && IsOptional(FieldType(f)) && IsOptionType(f.ty))
  }

  ghost predicate FieldsOk(defs: Defs, rank: map<string, nat>, n: string)
    requires World(defs, rank) && n in defs && defs[n].Struct?
  {
    forall i :: 0 <= i < |defs[n].fields| ==> FieldOk(defs[n].fields[i])
  }

  lemma FieldMeansSchema(defs: Defs, rank: map<string, nat>, n: string, i: nat, members: map<string, Json>)
    requires World(defs, rank) && n in defs && defs[n].Struct? && i < |defs[n].fields|
    requires AgreesBelow(defs, rank, rank[n]) && FieldOk(defs[n].fields[i])
    ensures MeansField(defs, rank, n, i, members) <==> FieldFits(defs, rank, n, i, members)
  {
    var f := defs[n].fields[i];
    SlotBelow(defs, rank, n, i);
    FieldNamedBelow(defs, rank, n, i);
    if !f.skip && f.name in members && f.typeOverride == None {
      PlainFieldUsable(defs, rank, rank[n], f);
      if f.vecOrOne { ManyMeansSchema(defs, rank, rank[n], f, members[f.name]); }
      else { BamlMeansSchema(defs, rank, rank[n], f.ty, members[f.name]); }
    }
  }

  lemma ClassMeansFits(defs: Defs, rank: map<string, nat>, n: string, members: map<string, Json>)
    requires World(defs, rank) && n in defs && defs[n].Struct? && AgreesBelow(defs, rank, rank[n]) && FieldsOk(defs, rank, n)
    ensures MeansUser(defs, rank, n, JObj(members)) <==>
              forall i :: 0 <= i < |defs[n].fields| ==> FieldFits(defs, rank, n, i, members)
  {
    forall i | 0 <= i < |defs[n].fields|
      ensures MeansField(defs, rank, n, i, members) <==> FieldFits(defs, rank, n, i, members)
    {
      FieldMeansSchema(defs, rank, n, i, members);
    }
    assert |Definition(defs[n]).fields| == |defs[n].fields|;
  }

  lemma ClassMeansSchema(defs: Defs, rank: map<string, nat>, n: string)
    requires World(defs, rank) && n in defs && defs[n].Struct? && AgreesBelow(defs, rank, rank[n]) && FieldsOk(defs, rank, n)
    ensures ClassAgrees(defs, rank, n)
  {
    forall j ensures MeansUser(defs, rank, n, j) <==> Valid(Inline(defs, rank, n), j) {
      if j.JObj? {
        StructValid(defs, rank, n, j.members);
        ClassMeansFits(defs, rank, n, j.members);
      } else {
        InlineKind(defs, rank, n);
      }
    }
  }

  lemma EnumMeansSchema(defs: Defs, rank: map<string, nat>, n: string, j: Json)
    requires World(defs, rank) && n in defs && defs[n].Enum?
    ensures MeansUser(defs, rank, n, j) <==> Valid(Inline(defs, rank, n), j)
  {
    EnumValid(defs, rank, n, j);
    var vs, values := defs[n].variants, Definition(defs[n]).values;
    assert forall i :: 0 <= i < |vs| ==> values[i].skip == vs[i].skip && Label(values[i].name, values[i].alias) == Wire(vs[i]);
  }

  lemma ChoiceMeansSchema(defs: Defs, rank: map<string, nat>, n: string)
    requires World(defs, rank) && n in defs && !defs[n].Struct? && AgreesBelow(defs, rank, rank[n])
    ensures ClassAgrees(defs, rank, n)
  {
    forall j ensures MeansUser(defs, rank, n, j) <==> Valid(Inline(defs, rank, n), j) {
      if defs[n].Enum? {
        EnumMeansSchema(defs, rank, n, j);
      } else {
        UnionValid(defs, rank, n, j);
        forall i | 0 <= i < |defs[n].names|
          ensures MeansUser(defs, rank, defs[n].names[i], j) <==> Valid(Inline(defs, rank, defs[n].names[i]), j)
        {
          assert Calls(defs[n], defs[n].names[i]);
          AgreeOn(defs, rank, rank[n], defs[n].names[i], j);
        }
      }
    }
  }

  // Exactly when a class and its schema agree: member by member.

  function At(members: map<string, Json>, key: string): Option<Json> {
    if key in members then Some(members[key]) else None
  }

  function With(members: map<string, Json>, key: string, m: Option<Json>): map<string, Json> {
    match m case Some(j) => members[key := j] case None => members - {key}
  }

  /** What the class says of member `key` being `m`, or absent. */
  ghost predicate ClassAllows(defs: Defs, rank: map<string, nat>, n: string, key: string, m: Option<Json>)
    requires World(defs, rank) && n in defs && defs[n].Struct?
  {
    forall i :: 0 <= i < |defs[n].fields| && Label(defs[n].fields[i].name, defs[n].fields[i].alias) == key ==>
      MeansField(defs, rank, n, i, With(map[], key, m))
  }

  /** What the schema says of it. */
  ghost predicate SchemaAllows(defs: Defs, rank: map<string, nat>, n: string, key: string, m: Option<Json>)
    requires World(defs, rank) && n in defs && defs[n].Struct?
  {
    forall i :: 0 <= i < |defs[n].fields| && defs[n].fields[i].name == key ==> FieldFits(defs, rank, n, i, With(map[], key, m))
  }

  lemma ClassByMembers(defs: Defs, rank: map<string, nat>, n: string, members: map<string, Json>)
    requires World(defs, rank) && n in defs && defs[n].Struct?
    ensures MeansUser(defs, rank, n, JObj(members)) <==> forall key :: ClassAllows(defs, rank, n, key, At(members, key))
  {
    var fields := defs[n].fields;
    assert |Definition(defs[n]).fields| == |fields|;
    forall i | 0 <= i < |fields|
      ensures var key := Label(fields[i].name, fields[i].alias);
              MeansField(defs, rank, n, i, members) <==> MeansField(defs, rank, n, i, With(map[], key, At(members, key)))
    {
      FieldNamedBelow(defs, rank, n, i);
    }
    if forall key :: ClassAllows(defs, rank, n, key, At(members, key)) {
      forall i | 0 <= i < |fields| ensures MeansField(defs, rank, n, i, members) {
        var key := Label(fields[i].name, fields[i].alias);
        assert ClassAllows(defs, rank, n, key, At(members, key));
      }
    }
  }

  lemma SchemaByMembers(defs: Defs, rank: map<string, nat>, n: string, members: map<string, Json>)
    requires World(defs, rank) && n in defs && defs[n].Struct?
    ensures Valid(Inline(defs, rank, n), JObj(members)) <==> forall key :: SchemaAllows(defs, rank, n, key, At(members, key))
  {
    var fields := defs[n].fields;
    StructValid(defs, rank, n, members);
    forall i | 0 <= i < |fields|
      ensures var key := fields[i].name;
              FieldFits(defs, rank, n, i, members) <==> FieldFits(defs, rank, n, i, With(map[], key, At(members, key)))
    {
      SlotBelow(defs, rank, n, i);
    }
    if forall key :: SchemaAllows(defs, rank, n, key, At(members, key)) {
      forall i | 0 <= i < |fields| ensures FieldFits(defs, rank, n, i, members) {
        assert SchemaAllows(defs, rank, n, fields[i].name, At(members, fields[i].name));
      }
    }
  }

  ghost predicate MembersAgree(defs: Defs, rank: map<string, nat>, n: string)
    requires World(defs, rank) && n in defs && defs[n].Struct?
  {
    forall key, m :: ClassAllows(defs, rank, n, key, m) <==> SchemaAllows(defs, rank, n, key, m)
  }

  /** Changing one member of an accepted object, the rest stays accepted. */
  lemma ClassAfterChange(defs: Defs, rank: map<string, nat>, n: string, members: map<string, Json>, key: string, m: Option<Json>)
    requires World(defs, rank) && n in defs && defs[n].Struct? && MeansUser(defs, rank, n, JObj(members))
    ensures MeansUser(defs, rank, n, JObj(With(members, key, m))) <==> ClassAllows(defs, rank, n, key, m)
  {
    var changed := With(members, key, m);
    ClassByMembers(defs, rank, n, members);
    ClassByMembers(defs, rank, n, changed);
    forall x | x != key ensures ClassAllows(defs, rank, n, x, At(changed, x)) {
      assert At(changed, x) == At(members, x);
    }
    assert At(changed, key) == m;
  }

  lemma SchemaAfterChange(defs: Defs, rank: map<string, nat>, n: string, members: map<string, Json>, key: string, m: Option<Json>)
    requires World(defs, rank) && n in defs && defs[n].Struct? && Valid(Inline(defs, rank, n), JObj(members))
    ensures Valid(Inline(defs, rank, n), JObj(With(members, key, m))) <==> SchemaAllows(defs, rank, n, key, m)
  {
    var changed := With(members, key, m);
    SchemaByMembers(defs, rank, n, members);
    SchemaByMembers(defs, rank, n, changed);
    forall x | x != key ensures SchemaAllows(defs, rank, n, x, At(changed, x)) {
      assert At(changed, x) == At(members, x);
    }
    assert At(changed, key) == m;
  }

  lemma AgreeOnMember(defs: Defs, rank: map<string, nat>, n: string, members: map<string, Json>, key: string, m: Option<Json>)
    requires World(defs, rank) && n in defs && defs[n].Struct? && ClassAgrees(defs, rank, n)
    requires MeansUser(defs, rank, n, JObj(members))
    ensures ClassAllows(defs, rank, n, key, m) <==> SchemaAllows(defs, rank, n, key, m)
  {
    var changed := With(members, key, m);
    assert Valid(Inline(defs, rank, n), JObj(members));
    ClassAfterChange(defs, rank, n, members, key, m);
    SchemaAfterChange(defs, rank, n, members, key, m);
    assert MeansUser(defs, rank, n, JObj(changed)) <==> Valid(Inline(defs, rank, n), JObj(changed));
  }

  /** Field by field, for any attributes: a class some JSON belongs to agrees with its schema exactly
      when the two agree on every single member, present with any value or absent. */
  lemma ClassAgreesByMembers(defs: Defs, rank: map<string, nat>, n: string, j: Json)
    requires World(defs, rank) && n in defs && defs[n].Struct? && MeansUser(defs, rank, n, j)
    ensures ClassAgrees(defs, rank, n) <==> MembersAgree(defs, rank, n)
  {
    if ClassAgrees(defs, rank, n) {
      forall key, m ensures ClassAllows(defs, rank, n, key, m) <==> SchemaAllows(defs, rank, n, key, m) {
        AgreeOnMember(defs, rank, n, j.members, key, m);
      }
    }
    if MembersAgree(defs, rank, n) {
      forall j' ensures MeansUser(defs, rank, n, j') <==> Valid(Inline(defs, rank, n), j') {
        if j'.JObj? {
          ClassByMembers(defs, rank, n, j'.members);
          SchemaByMembers(defs, rank, n, j'.members);
        } else {
          InlineKind(defs, rank, n);
        }
      }
    }
  }

  // Exactly when a class and its schema agree: on the attributes.

  /** No field is labelled with the Rust name of another. */
  ghost predicate FieldsApart(defs: Defs, n: string)
    requires n in defs && defs[n].Struct?
  {
    var fs := defs[n].fields;
    forall i, m :: 0 <= i < |fs| && 0 <= m < |fs| && i != m && !fs[i].skip && !fs[m].skip ==>
      Label(fs[i].name, fs[i].alias) != fs[m].name
  }

  lemma {:induction false} ScalarIsNoUser(defs: Defs, rank: map<string, nat>, n: string, j: Json)
    requires World(defs, rank) && n in defs && (j.JBool? || j.JNum?)
    ensures !MeansUser(defs, rank, n, j)
    decreases rank[n]
  {
    if defs[n].Union? {
      forall i | 0 <= i < |defs[n].names| ensures !MeansUser(defs, rank, defs[n].names[i], j) {
        assert Calls(defs[n], defs[n].names[i]);
        ScalarIsNoUser(defs, rank, defs[n].names[i], j);
      }
    }
  }

  /** Every BAML type refuses `true` or 0.5. */
  lemma {:induction false} Refuses(defs: Defs, rank: map<string, nat>, k: nat, b: Baml) returns (j: Json)
    requires World(defs, rank) && NamedBelow(defs, rank, k, b)
    ensures !Means(defs, rank, k, b, j) && (j == JBool(true) || j == JNum(0.5))
  {
    match b
    case BPrim(p) => j := if p == PBool then JNum(0.5) else JBool(true);
    case BUser(n) => j := JBool(true); ScalarIsNoUser(defs, rank, n, j);
    case BOptional(i) => j := Refuses(defs, rank, k, i);
    case BList(_) => j := JBool(true);
    case BMap(_, _) => j := JBool(true);
    case BOneOrMany(i) => j := Refuses(defs, rank, k, i);
  }

  lemma FieldRefuses(defs: Defs, rank: map<string, nat>, n: string, i: nat) returns (j: Json)
    requires World(defs, rank) && n in defs && defs[n].Struct? && i < |defs[n].fields|
    requires !defs[n].fields[i].skip && defs[n].fields[i].typeOverride == None
    ensures var key := Label(defs[n].fields[i].name, defs[n].fields[i].alias);
            !MeansField(defs, rank, n, i, With(map[], key, Some(j)))
  {
    FieldNamedBelow(defs, rank, n, i);
    j := Refuses(defs, rank, rank[n], FieldType(defs[n].fields[i]).b);
  }

  /** A field that BAML knows by another name has to be free of any constraint on both sides. */
  lemma RenamedFieldIsFree(defs: Defs, rank: map<string, nat>, n: string, i: nat)
    requires World(defs, rank) && n in defs && defs[n].Struct? && i < |defs[n].fields| && !defs[n].fields[i].skip
    requires FieldsApart(defs, n) && MembersAgree(defs, rank, n)
    requires Label(defs[n].fields[i].name, defs[n].fields[i].alias) != defs[n].fields[i].name
    ensures FieldOk(defs[n].fields[i])
  {
    var f := defs[n].fields[i];
    var key := Label(f.name, f.alias);
    assert SchemaAllows(defs, rank, n, key, None) && ClassAllows(defs, rank, n, key, None);
    assert MeansField(defs, rank, n, i, With(map[], key, None));
    assert ClassAllows(defs, rank, n, f.name, None) && SchemaAllows(defs, rank, n, f.name, None);
    assert FieldFits(defs, rank, n, i, With(map[], f.name, None));
    forall j ensures MeansField(defs, rank, n, i, With(map[], key, Some(j))) {
      assert SchemaAllows(defs, rank, n, key, Some(j)) && ClassAllows(defs, rank, n, key, Some(j));
    }
    if f.typeOverride == None {
      var j := FieldRefuses(defs, rank, n, i);
    }
  }

  /** A field with one name on both sides has to be said the same of. */
  lemma NamedFieldAgrees(defs: Defs, rank: map<string, nat>, n: string, i: nat)
    requires World(defs, rank) && n in defs && defs[n].Struct? && i < |defs[n].fields| && !defs[n].fields[i].skip
    requires AgreesBelow(defs, rank, rank[n]) && FieldsApart(defs, n) && MembersAgree(defs, rank, n)
    requires Label(defs[n].fields[i].name, defs[n].fields[i].alias) == defs[n].fields[i].name
    ensures FieldAgrees(defs[n].fields[i])
  {
    var f := defs[n].fields[i];
    OwnMember(defs, rank, n, i, None);
    if f.vecOrOne && VecInside(VecOrOneElement(f.ty).value) {
      SlotBelow(defs, rank, n, i);
      FieldNamedBelow(defs, rank, n, i);
      ManyMeansSchema(defs, rank, rank[n], f, JArr([]));
      OwnMember(defs, rank, n, i, Some(JArr([])));
      assert false;
    }
  }

  /** Of the member with that name, only the field itself says anything. */
  lemma OwnMember(defs: Defs, rank: map<string, nat>, n: string, i: nat, m: Option<Json>)
    requires World(defs, rank) && n in defs && defs[n].Struct? && i < |defs[n].fields| && !defs[n].fields[i].skip
    requires FieldsApart(defs, n) && MembersAgree(defs, rank, n)
    requires Label(defs[n].fields[i].name, defs[n].fields[i].alias) == defs[n].fields[i].name
    ensures MeansField(defs, rank, n, i, With(map[], defs[n].fields[i].name, m))
       <==> FieldFits(defs, rank, n, i, With(map[], defs[n].fields[i].name, m))
  {
    var name := defs[n].fields[i].name;
    assert ClassAllows(defs, rank, n, name, m) <==> MeansField(defs, rank, n, i, With(map[], name, m));
    assert SchemaAllows(defs, rank, n, name, m) <==> FieldFits(defs, rank, n, i, With(map[], name, m));
    assert ClassAllows(defs, rank, n, name, m) <==> SchemaAllows(defs, rank, n, name, m);
  }

  /** A class some JSON belongs to, whose fields are apart and whose dependencies agree with their
      schemas, agrees with its own exactly when each of its fields is all right. */
  lemma ClassAgreesIff(defs: Defs, rank: map<string, nat>, n: string, j: Json)
    requires World(defs, rank) && n in defs && defs[n].Struct? && FieldsApart(defs, n) && AgreesBelow(defs, rank, rank[n])
    requires MeansUser(defs, rank, n, j)
    ensures ClassAgrees(defs, rank, n) <==> FieldsOk(defs, rank, n)
  {
    if ClassAgrees(defs, rank, n) {
      ClassAgreesByMembers(defs, rank, n, j);
      forall i | 0 <= i < |defs[n].fields| ensures FieldOk(defs[n].fields[i]) {
        var f := defs[n].fields[i];
        if !f.skip {
          if Label(f.name, f.alias) == f.name { NamedFieldAgrees(defs, rank, n, i); } else { RenamedFieldIsFree(defs, rank, n, i); }
        }
      }
    }
    if FieldsOk(defs, rank, n) { ClassMeansSchema(defs, rank, n); }
  }

  /** Some JSON belongs to the class or satisfies the schema. */
  ghost predicate Inhabited(defs: Defs, rank: map<string, nat>, n: string)
    requires World(defs, rank) && n in defs
  {
    exists j :: MeansUser(defs, rank, n, j) || Valid(Inline(defs, rank, n), j)
  }

  ghost predicate StructOk(defs: Defs, rank: map<string, nat>, n: string)
    requires World(defs, rank) && n in defs && defs[n].Struct?
  {
    Inhabited(defs, rank, n) ==> FieldsOk(defs, rank, n)
  }

  lemma {:induction false} AllAgreeBelow(defs: Defs, rank: map<string, nat>, k: nat)
    requires World(defs, rank) && forall n :: n in defs && defs[n].Struct? ==> StructOk(defs, rank, n)
    ensures AgreesBelow(defs, rank, k)
  {
    if k > 0 {
      AllAgreeBelow(defs, rank, k - 1);
      forall n | n in defs && rank[n] < k ensures ClassAgrees(defs, rank, n) {
        if rank[n] == k - 1 {
          if !defs[n].Struct? { ChoiceMeansSchema(defs, rank, n); }
          else if Inhabited(defs, rank, n) { ClassMeansSchema(defs, rank, n); }
        }
      }
    }
  }

  lemma StructIsOk(defs: Defs, rank: map<string, nat>, n: string)
    requires World(defs, rank) && n in defs && defs[n].Struct? && FieldsApart(defs, n)
    requires AgreesBelow(defs, rank, rank[n]) && ClassAgrees(defs, rank, n)
    ensures StructOk(defs, rank, n)
  {
    if j :| MeansUser(defs, rank, n, j) || Valid(Inline(defs, rank, n), j) {
      ClassAgreesIff(defs, rank, n, j);
    }
  }

  /** For every acyclic set of derived types whose fields are apart: all generated BAML definitions
      and schemas accept the same JSON if and only if each field of each struct that can occur is
      skipped, or agrees, or has an override and is optional on both sides. */
  lemma WorldAgreesIff(defs: Defs, rank: map<string, nat>)
    requires World(defs, rank) && forall n :: n in defs && defs[n].Struct? ==> FieldsApart(defs, n)
    ensures (forall n :: n in defs ==> ClassAgrees(defs, rank, n))
       <==> (forall n :: n in defs && defs[n].Struct? ==> StructOk(defs, rank, n))
  {
    if forall n :: n in defs ==> ClassAgrees(defs, rank, n) {
      forall n | n in defs && defs[n].Struct? ensures StructOk(defs, rank, n) {
        StructIsOk(defs, rank, n);
      }
    }
    if forall n :: n in defs && defs[n].Struct? ==> StructOk(defs, rank, n) {
      forall n | n in defs ensures ClassAgrees(defs, rank, n) {
        AllAgreeBelow(defs, rank, rank[n] + 1);
      }
    }
  }

  /** With all fields right, apart or not, they accept the same JSON. */
  lemma UserMeansSchema(defs: Defs, rank: map<string, nat>, n: string, j: Json)
    requires World(defs, rank) && n in defs && forall m :: m in defs && defs[m].Struct? ==> FieldsOk(defs, rank, m)
    ensures MeansUser(defs, rank, n, j) <==> Valid(Inline(defs, rank, n), j)
  {
    AllAgreeBelow(defs, rank, rank[n] + 1);
    AgreeOn(defs, rank, rank[n] + 1, n, j);
  }

  /** For a one-or-many field the BAML union takes either form and the schema exactly one, so the
      two agree on all JSON exactly when the element type is not itself a vector. */
  lemma OneOrManyMeansSchemaIff(defs: Defs, rank: map<string, nat>, k: nat, elem: Ty)
    requires World(defs, rank) && AgreesBelow(defs, rank, k) && Usable(defs, rank, k, elem) && ResolveBaml(elem).Some?
    ensures NamedBelow(defs, rank, k, BOneOrMany(ResolveBaml(elem).value))
    ensures (forall j :: Means(defs, rank, k, BOneOrMany(ResolveBaml(elem).value), j) <==>
                         Valid(OneOrMany(Eval(defs, rank, k, ResolveSchema(elem).value)), j))
       <==> !VecInside(elem)
  {
    var b, s := ResolveBaml(elem).value, Eval(defs, rank, k, ResolveSchema(elem).value);
    UnionFormMeans(defs, rank, k, elem, JArr([]));
    forall j ensures !VecInside(elem) ==> (Means(defs, rank, k, BOneOrMany(b), j) <==> Valid(OneOrMany(s), j)) {
      UnionFormMeans(defs, rank, k, elem, j);
      if !VecInside(elem) { OneOrManyOfNoVec(defs, rank, k, elem, j); }
    }
    if VecInside(elem) {
      EmptyVecValid(defs, rank, k, elem);
      ArrayValid(s, JArr([]));
      OneOrManyValid(s, JArr([]));
      assert Means(defs, rank, k, BOneOrMany(b), JArr([])) && !Valid(OneOrMany(s), JArr([]));
    }
  }

  /** A field with an alias: BAML reads it under the alias, the schema demands the Rust name. */
  lemma AliasedFieldDisagrees()
    ensures var defs := OneField(FieldDef("task_id", STRING, false, None, None, false, Some("id"), "task_id", Never));
            var j := JObj(map["id" := JStr("x")]);
            World(defs, RANK) && MeansUser(defs, RANK, "T", j) && !Valid(Inline(defs, RANK, "T"), j)
  {
    var f := FieldDef("task_id", STRING, false, None, None, false, Some("id"), "task_id", Never);
    var defs, members := OneField(f), map["id" := JStr("x")];
    OneFieldWorld(f);
    assert MeansField(defs, RANK, "T", 0, members);
    StructValid(defs, RANK, "T", members);
    assert !FieldFits(defs, RANK, "T", 0, members);
  }

  /** A boxed option: optional in BAML, required by the schema. */
  lemma BoxedOptionDisagrees()
    ensures var ty := Generic(BoxId, Generic(OptionId, STRING));
            var defs := OneField(Plain("a", ty, "a", Never));
            World(defs, RANK) && MeansUser(defs, RANK, "T", JObj(map[])) && !Valid(Inline(defs, RANK, "T"), JObj(map[]))
  {
    var ty := Generic(BoxId, Generic(OptionId, STRING));
    var f := Plain("a", ty, "a", Never);
    var defs := OneField(f);
    OneFieldWorld(f);
    assert MeansField(defs, RANK, "T", 0, map[]);
    StructValid(defs, RANK, "T", map[]);
    assert !FieldFits(defs, RANK, "T", 0, map[]);
  }

  // The text alone determines the schema.

  function ExprOf(b: Baml): Expr {
    match b
    case BPrim(PString) => EType(TString)
    case BPrim(PBool) => EType(TBoolean)
    case BPrim(PInt) => EType(TInteger)
    case BPrim(PFloat) => EType(TNumber)
    case BUser(n) => EInline(n)
    case BOptional(i) => ENullable(ExprOf(i))
    case BList(i) => EArray(ExprOf(i))
    case BMap(_, v) => EDict(ExprOf(v))
    case BOneOrMany(i) => EOneOrMany(ExprOf(i))
  }

  lemma {:induction false} SchemaFromBaml(ty: Ty)
    requires ResolveBaml(ty).Some?
    ensures ResolveSchema(ty) == Some(ExprOf(ResolveBaml(ty).value))
  {
    match ty
    case Ref(e) => SchemaFromBaml(e);
    case Path(id, args) =>
      if id == MapId { SchemaFromBaml(TwoArgs(args).value.1); }
      else if id == OptionId || id == VecId || id == BoxId { SchemaFromBaml(SingleArg(args).value); }
  }

  /** Two Rust types, plain or one-or-many, printed as the same BAML text get the same schema. */
  lemma SameTextSameSchema(ty: Ty, many: bool, ty': Ty, many': bool)
    requires var r, r' := FieldBaml(ty, many), FieldBaml(ty', many');
             r.Some? && r'.Some? && NamesOk(r.value) && NamesOk(r'.value) && Print(r.value) == Print(r'.value)
    ensures (if many then ResolveVecOrOne(ty) else ResolveSchema(ty)) == (if many' then ResolveVecOrOne(ty') else ResolveSchema(ty'))
  {
    FieldTextIsUnambiguous(ty, many, ty', many');
    if many { SchemaFromBaml(VecOrOneElement(ty).value); } else { SchemaFromBaml(ty); }
    if many' { SchemaFromBaml(VecOrOneElement(ty').value); } else { SchemaFromBaml(ty'); }
  }
}
