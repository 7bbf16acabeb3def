/** Exactly what the generated schema accepts. A schema knows neither integer widths nor key types, so
    it accepts what shows a value of the type with both erased. */
module SchemaErasure {
  import opened Options
  import opened RustTypes
  import opened JsonSchema
  import opened SerdeValues
  import opened Derive
  import opened Encoding
  import opened SchemaSoundness
  import opened SchemaExactness
  import opened SchemaFaults
  import opened MapKeys

  /** The type with integers of any size and map keys of any text. */
  function Erase(ty: Ty): Ty {
    match ty
    case Ref(e) => Ref(Erase(e))
    case OtherTy => OtherTy
    case Path(id, args) =>
      match id
      case IntId(_) => Path(IntId(Unbounded), args)
      case OptionId => Path(id, EraseFirst(args))
      case VecId => Path(id, EraseFirst(args))
      case BoxId => Path(id, EraseFirst(args))
      case MapId => Path(id, EraseKeyed(args))
      case _ => ty
  }

  function EraseFirst(args: Args): Args {
    match args
    case Angle(Cons(TyArg(t), rest)) => Angle(Cons(TyArg(Erase(t)), rest))
    case _ => args
  }

  function EraseKeyed(args: Args): Args {
    match args
    case Angle(Cons(TyArg(_), Cons(TyArg(t), rest))) => Angle(Cons(TyArg(STRING), Cons(TyArg(Erase(t)), rest)))
    case _ => args
  }

  function EraseField(f: FieldDef): FieldDef {
    f.(ty := Erase(f.ty))
  }

  function EraseFields(fs: seq<FieldDef>): (r: seq<FieldDef>)
    ensures |r| == |fs| && forall i :: 0 <= i < |fs| ==> r[i] == EraseField(fs[i])
  {
    seq(|fs|, i requires 0 <= i < |fs| => EraseField(fs[i]))
  }

  function EraseDef(d: Def): Def {
    match d case Struct(fields) => Struct(EraseFields(fields)) case _ => d
  }

  function EraseDefs(defs: Defs): Defs {
    map n | n in defs :: EraseDef(defs[n])
  }

  // Erasure is invisible to the macro.

  lemma {:induction false} EraseInvisible(ty: Ty)
    ensures ResolveSchema(Erase(ty)) == ResolveSchema(ty)
    ensures UserTypeDep(Erase(ty)) == UserTypeDep(ty)
    ensures ResolveBaml(ty).Some? ==> ResolveBaml(Erase(ty)).Some?
    ensures VecInside(Erase(ty)) == VecInside(ty) && IsOptionType(Erase(ty)) == IsOptionType(ty)
  {
    match ty
    case Ref(e) => EraseInvisible(e);
    case OtherTy =>
    case Path(id, args) =>
      if id == MapId { if TwoArgs(args).Some? { EraseInvisible(TwoArgs(args).value.1); } }
      else if SingleArg(args).Some? && (id == OptionId || id == VecId || id == BoxId) { EraseInvisible(SingleArg(args).value); }
  }

  lemma {:induction false} ErasePeels(ty: Ty)
    ensures PeelRefs(Erase(ty)) == Erase(PeelRefs(ty))
  {
    if ty.Ref? { ErasePeels(ty.elem); }
  }

  function EraseElement(e: Option<Ty>): Option<Ty> {
    match e case Some(t) => Some(Erase(t)) case None => None
  }

  lemma EraseElements(ty: Ty)
    ensures VecOrOneElement(Erase(ty)) == EraseElement(VecOrOneElement(ty)) && VecOrOneOptional(Erase(ty)) == VecOrOneOptional(ty)
  {
    ErasePeels(ty);
    var t := PeelRefs(ty);
    if t.Path? && t.id == OptionId && SingleArg(t.args).Some? { ErasePeels(SingleArg(t.args).value); }
  }

  lemma EraseFieldInvisible(f: FieldDef)
    ensures FieldExpr(EraseField(f)) == FieldExpr(f) && IsOptionType(EraseField(f).ty) == IsOptionType(f.ty)
    ensures UserTypeDep(EraseField(f).ty) == UserTypeDep(f.ty)
    ensures FieldAccepted(f) ==> FieldAccepted(EraseField(f))
    ensures OmitFits(f) ==> OmitFits(EraseField(f))
    ensures FieldClean(f) ==> FieldClean(EraseField(f))
  {
    EraseInvisible(f.ty);
    EraseElements(f.ty);
    if VecOrOneElement(f.ty).Some? { EraseInvisible(VecOrOneElement(f.ty).value); }
  }

  lemma {:induction false} EraseFieldsInvisible(fs: seq<FieldDef>)
    ensures SchemaFields(EraseFields(fs)) == SchemaFields(fs) && FieldDeps(EraseFields(fs)) == FieldDeps(fs)
  {
    if fs != [] {
      var front, last := fs[..|fs| - 1], fs[|fs| - 1];
      EraseFieldsInvisible(front);
      assert EraseFields(fs)[..|fs| - 1] == EraseFields(front);
      EraseFieldInvisible(last);
    }
  }

  lemma EraseDefInvisible(d: Def)
    ensures DefAccepted(d) ==> DefAccepted(EraseDef(d))
    ensures Deps(EraseDef(d)) == Deps(d)
    ensures forall n :: Calls(EraseDef(d), n) <==> Calls(d, n)
    ensures d.Struct? && FieldsFit(d.fields) ==> FieldsFit(EraseDef(d).fields)
  {
    if d.Struct? {
      EraseFieldsInvisible(d.fields);
      forall i | 0 <= i < |d.fields|
        ensures FieldAccepted(d.fields[i]) ==> FieldAccepted(EraseFields(d.fields)[i])
        ensures OmitFits(d.fields[i]) ==> OmitFits(EraseFields(d.fields)[i])
      {
        EraseFieldInvisible(d.fields[i]);
      }
    }
  }

  lemma EraseWorld(defs: Defs, rank: map<string, nat>)
    requires World(defs, rank)
    ensures World(EraseDefs(defs), rank)
  {
    forall n | n in defs ensures DefAccepted(EraseDefs(defs)[n]) && Deps(EraseDefs(defs)[n]) == Deps(defs[n]) {
      EraseDefInvisible(defs[n]);
    }
    forall n | n in defs && defs[n].Struct? ensures FieldsFit(EraseDefs(defs)[n].fields) {
      EraseDefInvisible(defs[n]);
    }
    forall n, c | n in defs && Calls(EraseDefs(defs)[n], c) ensures c in defs {
      EraseDefInvisible(defs[n]);
    }
  }

  lemma EraseClean(defs: Defs)
    requires Clean(defs)
    ensures Clean(EraseDefs(defs))
  {
    forall n, i | n in defs && defs[n].Struct? && 0 <= i < |defs[n].fields| ensures FieldClean(EraseDefs(defs)[n].fields[i]) {
      EraseFieldInvisible(defs[n].fields[i]);
    }
  }

  lemma {:induction false} EraseEval(defs: Defs, rank: map<string, nat>, k: nat, e: Expr)
    requires World(defs, rank) && World(EraseDefs(defs), rank) && Below(defs, rank, k, e)
    ensures Below(EraseDefs(defs), rank, k, e) && Eval(EraseDefs(defs), rank, k, e) == Eval(defs, rank, k, e)
    decreases k, 0, e
  {
    match e
    case EType(_) =>
    case EAny =>
    case ENullable(i) => EraseEval(defs, rank, k, i);
    case EArray(i) => EraseEval(defs, rank, k, i);
    case EDict(i) => EraseEval(defs, rank, k, i);
    case EInline(n) => EraseInline(defs, rank, n);
    case EOneOrMany(i) => EraseEval(defs, rank, k, i);
  }

  lemma {:induction false} EraseInline(defs: Defs, rank: map<string, nat>, n: string)
    requires World(defs, rank) && World(EraseDefs(defs), rank) && n in defs
    ensures Inline(EraseDefs(defs), rank, n) == Inline(defs, rank, n)
    decreases rank[n], 2
  {
    if defs[n].Struct? { EraseStruct(defs, rank, n); }
    else if defs[n].Union? { EraseUnion(defs, rank, n); }
  }

  ghost predicate PropertiesAre(defs: Defs, rank: map<string, nat>, n: string, fs: seq<SchemaField>, props: seq<Property>)
    requires World(defs, rank) && n in rank && forall i :: 0 <= i < |fs| ==> Below(defs, rank, rank[n], fs[i].expr)
  {
    |props| == |fs| && forall i :: 0 <= i < |fs| ==> props[i] == Property(fs[i].name, Eval(defs, rank, rank[n], fs[i].expr))
  }

  lemma StructInlined(defs: Defs, rank: map<string, nat>, n: string, fs: seq<SchemaField>, props: seq<Property>)
    requires World(defs, rank) && n in defs && defs[n].Struct? && fs == SchemaFields(defs[n].fields)
    requires forall i :: 0 <= i < |fs| ==> Below(defs, rank, rank[n], fs[i].expr)
    requires PropertiesAre(defs, rank, n, fs, props)
    ensures Inline(defs, rank, n) == ObjectOf(props, RequiredNames(fs))
  {
    FieldsBelow(defs, rank, n);
    assert Inline(defs, rank, n).properties == props;
  }

  lemma {:induction false} EraseStruct(defs: Defs, rank: map<string, nat>, n: string)
    requires World(defs, rank) && World(EraseDefs(defs), rank) && n in defs && defs[n].Struct?
    ensures Inline(EraseDefs(defs), rank, n) == Inline(defs, rank, n)
    decreases rank[n], 1
  {
    var fs, erased := SchemaFields(defs[n].fields), EraseDefs(defs);
    FieldsBelow(defs, rank, n);
    var props := seq(|fs|, i requires 0 <= i < |fs| => Property(fs[i].name, Eval(defs, rank, rank[n], fs[i].expr)));
    forall i | 0 <= i < |fs|
      ensures Below(erased, rank, rank[n], fs[i].expr) && Eval(erased, rank, rank[n], fs[i].expr) == Eval(defs, rank, rank[n], fs[i].expr)
    {
      EraseEval(defs, rank, rank[n], fs[i].expr);
    }
    EraseFieldsInvisible(defs[n].fields);
    StructInlined(defs, rank, n, fs, props);
    StructInlined(erased, rank, n, fs, props);
  }

  lemma {:induction false} EraseUnion(defs: Defs, rank: map<string, nat>, n: string)
    requires World(defs, rank) && World(EraseDefs(defs), rank) && n in defs && defs[n].Union?
    ensures Inline(EraseDefs(defs), rank, n) == Inline(defs, rank, n)
    decreases rank[n], 1
  {
    var names := defs[n].names;
    forall i | 0 <= i < |names| ensures names[i] in defs && Inline(EraseDefs(defs), rank, names[i]) == Inline(defs, rank, names[i]) {
      assert Calls(defs[n], names[i]);
      EraseInline(defs, rank, names[i]);
    }
    assert Inline(EraseDefs(defs), rank, n).anyOf.list == Inline(defs, rank, n).anyOf.list;
  }

  // With both erased, nothing has a width.

  lemma {:induction false} ErasedHasNoWidths(defs: Defs, rank: map<string, nat>, k: nat, ty: Ty)
    requires World(defs, rank) && Usable(defs, rank, k, ty)
    ensures Usable(defs, rank, k, Erase(ty)) && NoWidths(defs, rank, k, Erase(ty))
  {
    EraseInvisible(ty);
    match ty
    case Ref(e) => ErasedHasNoWidths(defs, rank, k, e);
    case Path(id, args) =>
      if id == MapId { ErasedHasNoWidths(defs, rank, k, TwoArgs(args).value.1); }
      else if id == OptionId || id == VecId || id == BoxId { ErasedHasNoWidths(defs, rank, k, SingleArg(args).value); }
  }

  lemma ErasedStructHasNoWidths(defs: Defs, rank: map<string, nat>, n: string)
    requires World(EraseDefs(defs), rank) && n in defs && defs[n].Struct?
    ensures StructNoWidths(EraseDefs(defs), rank, n)
  {
    var erased := EraseDefs(defs);
    forall i | 0 <= i < |erased[n].fields| ensures SlotNoWidths(erased, rank, n, i) {
      var f, g := erased[n].fields[i], defs[n].fields[i];
      SlotBelow(erased, rank, n, i);
      EraseElements(g.ty);
      if !Opaque(f) {
        PlainFieldUsable(erased, rank, rank[n], f);
        assert Inspected(f) == Erase(Inspected(g));
        EraseInvisible(Inspected(g));
        ErasedHasNoWidths(erased, rank, rank[n], Inspected(g));
      }
    }
  }

  /** For every acyclic, clean set of derived types: the generated schema of a type accepts exactly the
      JSON that shows a value of the type, with integers of any size and map keys of any text. */
  lemma AcceptedIffShown(defs: Defs, rank: map<string, nat>, n: string, j: Json)
    requires World(defs, rank) && Clean(defs) && n in defs
    ensures World(EraseDefs(defs), rank)
    ensures Valid(Inline(defs, rank, n), j) <==> UserShown(EraseDefs(defs), rank, n, j)
  {
    var erased := EraseDefs(defs);
    EraseWorld(defs, rank);
    EraseClean(defs);
    EraseInline(defs, rank, n);
    forall m | m in erased && erased[m].Struct? ensures StructNoWidths(erased, rank, m) {
      ErasedStructHasNoWidths(defs, rank, m);
    }
    WorldExactIff(erased, rank);
    assert UserExact(erased, rank, n);
    if UserShown(erased, rank, n, j) {
      var v :| TypedUser(erased, rank, n, v) && ShowsUser(erased, rank, n, v, j);
      UserShownIsValid(erased, rank, n, v, j);
    }
  }

  // What that lets through.

  ghost predicate Simple(f: FieldDef) {
    FieldAccepted(f) && OmitFits(f) && FieldClean(f) && !f.vecOrOne && !Opaque(f) && Inlined(FieldExpr(f)) == {} && FieldDeps([f]) == []
  }

  /** With one plain field, all depends on the field's member. */
  lemma OneMember(f: FieldDef, j: Json)
    requires Simple(f)
    ensures var defs := OneField(f);
            && World(defs, RANK) && Clean(defs) && Usable(defs, RANK, 0, f.ty)
            && (Valid(Eval(defs, RANK, 0, ResolveSchema(f.ty).value), j) ==> Valid(Inline(defs, RANK, "T"), JObj(map[f.name := j])))
            && (UserShown(defs, RANK, "T", JObj(map[f.name := j])) ==> Shown(defs, RANK, 0, f.ty, j))
  {
    var defs, members := OneField(f), map[f.name := j];
    OneFieldWorld(f);
    SlotBelow(defs, RANK, "T", 0);
    PlainFieldUsable(defs, RANK, 0, f);
    StructValid(defs, RANK, "T", members);
    if v :| TypedUser(defs, RANK, "T", v) && ShowsUser(defs, RANK, "T", v, JObj(members)) {
      assert SlotTyped(defs, RANK, "T", 0, v.slots[0]) && ShowsSlot(defs, RANK, "T", 0, v.slots[0], members);
      assert Typed(defs, RANK, 0, f.ty, v.slots[0]) && Shows(defs, RANK, 0, f.ty, v.slots[0], j);
    }
  }

  const U32_TYPE := Path(IntId(U32), NoArgs)
  const PAGE_SIZE := Plain("page_size", Generic(OptionId, U32_TYPE), "page_size", Never)

  lemma PageSizeIsSimple()
    ensures Simple(PAGE_SIZE) && ResolveSchema(PAGE_SIZE.ty) == Some(ENullable(EType(TInteger)))
  {
    assert ResolveSchema(U32_TYPE) == Some(EType(TInteger));
    assert [PAGE_SIZE][..0] == [];
  }

  lemma NegativeIsNotShown(defs: Defs)
    requires World(defs, RANK) && Usable(defs, RANK, 0, PAGE_SIZE.ty)
    ensures !Shown(defs, RANK, 0, PAGE_SIZE.ty, JNum(-1.0))
  {
    assert SingleArg(PAGE_SIZE.ty.args).value == U32_TYPE;
    forall v | Typed(defs, RANK, 0, PAGE_SIZE.ty, v) ensures !Shows(defs, RANK, 0, PAGE_SIZE.ty, v, JNum(-1.0)) {
      assert v.VSome? ==> Typed(defs, RANK, 0, U32_TYPE, v.inner);
    }
  }

  lemma NegativeIsValid(defs: Defs)
    requires World(defs, RANK)
    ensures Valid(Eval(defs, RANK, 0, ENullable(EType(TInteger))), JNum(-1.0))
  {
    NullableValid(OfType(TInteger), JNum(-1.0));
  }

  /** A negative number for an optional `u32`, as for a Notion page size. */
  lemma OutOfRangeIsAccepted()
    ensures var defs, j := OneField(PAGE_SIZE), JObj(map["page_size" := JNum(-1.0)]);
            World(defs, RANK) && Clean(defs) && Valid(Inline(defs, RANK, "T"), j) && !UserShown(defs, RANK, "T", j)
  {
    PageSizeIsSimple();
    OneMember(PAGE_SIZE, JNum(-1.0));
    NegativeIsValid(OneField(PAGE_SIZE));
    NegativeIsNotShown(OneField(PAGE_SIZE));
  }

  const U8_TYPE := Path(IntId(U8), NoArgs)
  const COUNTS := Plain("counts", MapOf(U8_TYPE, STRING), "counts", Never)

  lemma CountsIsSimple()
    ensures Simple(COUNTS) && ResolveSchema(COUNTS.ty) == Some(EDict(EType(TString)))
  {
    assert ResolveSchema(STRING) == Some(EType(TString));
    assert [COUNTS][..0] == [];
  }

  lemma LetterIsNotShown(defs: Defs)
    requires World(defs, RANK) && Usable(defs, RANK, 0, COUNTS.ty)
    ensures !Shown(defs, RANK, 0, COUNTS.ty, JObj(map["x" := JStr("")]))
  {
    forall v | Typed(defs, RANK, 0, COUNTS.ty, v) ensures !Shows(defs, RANK, 0, COUNTS.ty, v, JObj(map["x" := JStr("")])) {
      if "x" in v.entries {
        assert KeyText(defs, RANK, U8_TYPE, "x");
        NotANumber();
        assert false;
      }
    }
  }

  lemma LetterIsValid(defs: Defs)
    requires World(defs, RANK)
    ensures Valid(Eval(defs, RANK, 0, EDict(EType(TString))), JObj(map["x" := JStr("")]))
  {
    DictValid(OfType(TString), JObj(map["x" := JStr("")]));
  }

  /** A key that is no number in a map keyed by `u8`. */
  lemma ForeignKeyIsAccepted()
    ensures var defs, j := OneField(COUNTS), JObj(map["counts" := JObj(map["x" := JStr("")])]);
            World(defs, RANK) && Clean(defs) && Valid(Inline(defs, RANK, "T"), j) && !UserShown(defs, RANK, "T", j)
  {
    CountsIsSimple();
    OneMember(COUNTS, JObj(map["x" := JStr("")]));
    LetterIsValid(OneField(COUNTS));
    LetterIsNotShown(OneField(COUNTS));
  }
}
