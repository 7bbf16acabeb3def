/** When the generated schema accepts only JSON that shows a value of the type. */
module SchemaExactness {
  import opened Options
  import opened RustTypes
  import opened JsonSchema
  import opened SerdeValues
  import opened Derive
  import opened Encoding
  import opened SchemaSoundness

  // JSON that shows a value: its encoding, except that a struct's object may have further members,
  // an option that is none may be absent or null, one that serde leaves out absent, and a one-or-many
  // field may give its only element bare.

  ghost predicate Shows(defs: Defs, rank: map<string, nat>, k: nat, ty: Ty, v: Val, j: Json)
    requires World(defs, rank) && Usable(defs, rank, k, ty) && Typed(defs, rank, k, ty, v)
    decreases k, 0, ty, 0
  {
    match ty
    case Ref(e) => Shows(defs, rank, k, e, v, j)
    case Path(id, args) =>
      match id
      case OptionId => if v.VNone? then j == JNull else Shows(defs, rank, k, SingleArg(args).value, v.inner, j)
      case VecId => ShowsList(defs, rank, k, SingleArg(args).value, v.vs, j)
      case MapId => ShowsDict(defs, rank, k, TwoArgs(args).value.1, v.entries, j)
      case BoxId => Shows(defs, rank, k, SingleArg(args).value, v, j)
      case UserId(n) => if args == NoArgs then ShowsUser(defs, rank, n, v, j) else j == v.json
      case _ => j == Encode(defs, rank, k, ty, v)
  }

  ghost predicate ShowsList(defs: Defs, rank: map<string, nat>, k: nat, t: Ty, vs: seq<Val>, j: Json)
    requires World(defs, rank) && Usable(defs, rank, k, t)
    requires forall i :: 0 <= i < |vs| ==> Typed(defs, rank, k, t, vs[i])
    decreases k, 0, t, 1
  {
    j.JArr? && |j.elems| == |vs| && forall i :: 0 <= i < |vs| ==> Shows(defs, rank, k, t, vs[i], j.elems[i])
  }

  ghost predicate ShowsDict(defs: Defs, rank: map<string, nat>, k: nat, t: Ty, entries: map<string, Val>, j: Json)
    requires World(defs, rank) && Usable(defs, rank, k, t)
    requires forall n :: n in entries ==> Typed(defs, rank, k, t, entries[n])
    decreases k, 0, t, 1
  {
    j.JObj? && j.members.Keys == entries.Keys && forall n :: n in entries ==> Shows(defs, rank, k, t, entries[n], j.members[n])
  }

  ghost predicate ShowsMany(defs: Defs, rank: map<string, nat>, k: nat, f: FieldDef, v: Val, j: Json)
    requires World(defs, rank) && FieldAccepted(f) && f.vecOrOne && Below(defs, rank, k, FieldExpr(f))
    requires FieldTyped(defs, rank, k, f, v)
    decreases k, 1
  {
    VecOrOneEval(defs, rank, k, f);
    ManyValues(defs, rank, k, f.ty, v);
    match ManyOf(v)
    case None => j == JNull
    case Some(vs) =>
      || ShowsList(defs, rank, k, VecOrOneElement(f.ty).value, vs, j)
      || (|vs| == 1 && Shows(defs, rank, k, VecOrOneElement(f.ty).value, vs[0], j))
  }

  ghost predicate ShowsField(defs: Defs, rank: map<string, nat>, k: nat, f: FieldDef, v: Val, j: Json)
    requires World(defs, rank) && FieldAccepted(f) && (!f.skip ==> Below(defs, rank, k, FieldExpr(f)))
    requires FieldTyped(defs, rank, k, f, v)
    decreases k, 2
  {
    if Opaque(f) then j == v.json
    else
      PlainFieldUsable(defs, rank, k, f);
      if f.vecOrOne then ShowsMany(defs, rank, k, f, v, j) else Shows(defs, rank, k, f.ty, v, j)
  }

  ghost predicate ShowsSlot(defs: Defs, rank: map<string, nat>, n: string, i: nat, v: Val, members: map<string, Json>)
    requires World(defs, rank) && n in defs && defs[n].Struct? && i < |defs[n].fields| && SlotTyped(defs, rank, n, i, v)
    decreases rank[n], 3, 0
  {
    var f := defs[n].fields[i];
    SlotBelow(defs, rank, n, i);
    if f.serdeName in members then ShowsField(defs, rank, rank[n], f, v, members[f.serdeName])
    else f.skip || (IsOptionType(f.ty) && (v == VNone || v == VJson(JNull) || Omits(f.omit, v)))
  }

  ghost predicate ShowsRecord(defs: Defs, rank: map<string, nat>, n: string, slots: seq<Val>, j: Json)
    requires World(defs, rank) && n in defs && defs[n].Struct? && SlotsTyped(defs, rank, n, slots)
    decreases rank[n], 3, 1
  {
    j.JObj? && forall i :: 0 <= i < |slots| ==> ShowsSlot(defs, rank, n, i, slots[i], j.members)
  }

  ghost predicate ShowsUser(defs: Defs, rank: map<string, nat>, n: string, v: Val, j: Json)
    requires World(defs, rank) && n in defs && TypedUser(defs, rank, n, v)
    decreases rank[n], 4
  {
    match defs[n]
    case Struct(fields) => ShowsRecord(defs, rank, n, v.slots, j)
    case Enum(vs) => j == JStr(vs[v.index].serdeWire)
    case Union(names) =>
      assert Calls(defs[n], names[v.choice]);
      ShowsUser(defs, rank, names[v.choice], v.chosen, j)
  }

  // The definitions the exact statement is about.

  /** Every listed wire string is one that serde writes. */
  ghost predicate WiresWritten(vs: seq<VariantDef>) {
    forall w :: w in Wires(vs) ==> exists i :: 0 <= i < |vs| && vs[i].serdeWire == w
  }

  /** Declared fields keep their names and are left out only when they are options. */
  ghost predicate FieldClean(f: FieldDef) {
    f.skip || (
      && f.serdeName == f.name
      && (f.omit == Never || IsOptionType(f.ty))
      && (f.vecOrOne ==> VecOrOneElement(f.ty).Some? && !VecInside(VecOrOneElement(f.ty).value)))
  }

  ghost predicate Clean(defs: Defs) {
    forall n :: n in defs ==>
      match defs[n]
      case Struct(fields) => forall i :: 0 <= i < |fields| ==> FieldClean(fields[i])
      case Enum(vs) => WiresComplete(vs) && WiresWritten(vs)
      case Union(_) => true
  }

  lemma CleanField(defs: Defs, rank: map<string, nat>, n: string, i: nat)
    requires World(defs, rank) && Clean(defs) && n in defs && defs[n].Struct? && i < |defs[n].fields|
    ensures FieldClean(defs[n].fields[i]) && FieldAccepted(defs[n].fields[i])
    ensures !defs[n].fields[i].skip ==> Below(defs, rank, rank[n], FieldExpr(defs[n].fields[i]))
  {
    SlotBelow(defs, rank, n, i);
  }

  // What shows a value is accepted.

  lemma {:induction false} ShownIsValid(defs: Defs, rank: map<string, nat>, k: nat, ty: Ty, v: Val, j: Json)
    requires World(defs, rank) && Clean(defs) && Usable(defs, rank, k, ty) && Typed(defs, rank, k, ty, v)
    requires Shows(defs, rank, k, ty, v, j)
    ensures Valid(Eval(defs, rank, k, ResolveSchema(ty).value), j)
    decreases k, 0, ty, 0
  {
    match ty
    case Ref(e) => ShownIsValid(defs, rank, k, e, v, j);
    case Path(id, args) =>
      if id == OptionId || id == VecId || id == MapId || id == BoxId {
        WrapperShownIsValid(defs, rank, k, id, args, v, j);
      } else if id.UserId? && args == NoArgs {
        UserShownIsValid(defs, rank, id.name, v, j);
      }
  }

  lemma {:induction false} WrapperShownIsValid(defs: Defs, rank: map<string, nat>, k: nat, id: Ident, args: Args, v: Val, j: Json)
    requires id == OptionId || id == VecId || id == MapId || id == BoxId
    requires World(defs, rank) && Clean(defs) && Usable(defs, rank, k, Path(id, args))
    requires Typed(defs, rank, k, Path(id, args), v) && Shows(defs, rank, k, Path(id, args), v, j)
    ensures Valid(Eval(defs, rank, k, ResolveSchema(Path(id, args)).value), j)
    decreases k, 0, args, 2
  {
    match id
    case OptionId =>
      var t := SingleArg(args).value;
      NullableValid(Eval(defs, rank, k, ResolveSchema(t).value), j);
      if v != VNone { ShownIsValid(defs, rank, k, t, v.inner, j); }
    case VecId => ListShownIsValid(defs, rank, k, SingleArg(args).value, v.vs, j);
    case MapId => DictShownIsValid(defs, rank, k, TwoArgs(args).value.1, v.entries, j);
    case BoxId => ShownIsValid(defs, rank, k, SingleArg(args).value, v, j);
  }

  lemma {:induction false} ListShownIsValid(defs: Defs, rank: map<string, nat>, k: nat, t: Ty, vs: seq<Val>, j: Json)
    requires World(defs, rank) && Clean(defs) && Usable(defs, rank, k, t)
    requires (forall i :: 0 <= i < |vs| ==> Typed(defs, rank, k, t, vs[i])) && ShowsList(defs, rank, k, t, vs, j)
    ensures Valid(ArrayOf(Eval(defs, rank, k, ResolveSchema(t).value)), j)
    decreases k, 0, t, 1
  {
    var s := Eval(defs, rank, k, ResolveSchema(t).value);
    ArrayValid(s, j);
    forall i | 0 <= i < |vs| ensures Valid(s, j.elems[i]) {
      ShownIsValid(defs, rank, k, t, vs[i], j.elems[i]);
    }
  }

  lemma {:induction false} DictShownIsValid(defs: Defs, rank: map<string, nat>, k: nat, t: Ty, entries: map<string, Val>, j: Json)
    requires World(defs, rank) && Clean(defs) && Usable(defs, rank, k, t)
    requires (forall n :: n in entries ==> Typed(defs, rank, k, t, entries[n])) && ShowsDict(defs, rank, k, t, entries, j)
    ensures Valid(DictOf(Eval(defs, rank, k, ResolveSchema(t).value)), j)
    decreases k, 0, t, 1
  {
    var s := Eval(defs, rank, k, ResolveSchema(t).value);
    DictValid(s, j);
    forall n | n in j.members ensures Valid(s, j.members[n]) {
      assert n in entries;
      ShownIsValid(defs, rank, k, t, entries[n], j.members[n]);
    }
  }

  lemma {:induction false} ManyShownIsValid(defs: Defs, rank: map<string, nat>, k: nat, f: FieldDef, v: Val, j: Json)
    requires World(defs, rank) && Clean(defs) && FieldAccepted(f) && f.vecOrOne && Below(defs, rank, k, FieldExpr(f))
    requires !VecInside(VecOrOneElement(f.ty).value) && FieldTyped(defs, rank, k, f, v) && ShowsMany(defs, rank, k, f, v, j)
    ensures Valid(Eval(defs, rank, k, FieldExpr(f)), j)
    decreases k, 1
  {
    var elem := VecOrOneElement(f.ty).value;
    VecOrOneEval(defs, rank, k, f);
    ManyValues(defs, rank, k, f.ty, v);
    NullableValid(OneOrMany(Eval(defs, rank, k, ResolveSchema(elem).value)), j);
    if ManyOf(v).Some? {
      var vs := ManyOf(v).value;
      if ShowsList(defs, rank, k, elem, vs, j) { ListShownIsValid(defs, rank, k, elem, vs, j); }
      else { ShownIsValid(defs, rank, k, elem, vs[0], j); }
      OneOrManyOfNoVec(defs, rank, k, elem, j);
    }
  }

  lemma {:induction false} FieldShownIsValid(defs: Defs, rank: map<string, nat>, k: nat, f: FieldDef, v: Val, j: Json)
    requires World(defs, rank) && Clean(defs) && FieldAccepted(f) && !f.skip && Below(defs, rank, k, FieldExpr(f)) && FieldClean(f)
    requires FieldTyped(defs, rank, k, f, v) && ShowsField(defs, rank, k, f, v, j)
    ensures Valid(Eval(defs, rank, k, FieldExpr(f)), j)
    decreases k, 2
  {
    if f.typeOverride == None {
      PlainFieldUsable(defs, rank, k, f);
      if f.vecOrOne { ManyShownIsValid(defs, rank, k, f, v, j); } else { ShownIsValid(defs, rank, k, f.ty, v, j); }
    }
  }

  lemma {:induction false} SlotShownFits(defs: Defs, rank: map<string, nat>, n: string, i: nat, v: Val, members: map<string, Json>)
    requires World(defs, rank) && Clean(defs) && n in defs && defs[n].Struct? && i < |defs[n].fields|
    requires SlotTyped(defs, rank, n, i, v) && ShowsSlot(defs, rank, n, i, v, members)
    ensures FieldFits(defs, rank, n, i, members)
    decreases rank[n], 3
  {
    var f := defs[n].fields[i];
    CleanField(defs, rank, n, i);
    if !f.skip && f.name in members { FieldShownIsValid(defs, rank, rank[n], f, v, members[f.name]); }
  }

  lemma {:induction false} UserShownIsValid(defs: Defs, rank: map<string, nat>, n: string, v: Val, j: Json)
    requires World(defs, rank) && Clean(defs) && n in defs && TypedUser(defs, rank, n, v) && ShowsUser(defs, rank, n, v, j)
    ensures Valid(Inline(defs, rank, n), j)
    decreases rank[n], 4
  {
    if defs[n].Struct? {
      forall i | 0 <= i < |defs[n].fields| ensures FieldFits(defs, rank, n, i, j.members) {
        SlotShownFits(defs, rank, n, i, v.slots[i], j.members);
      }
      StructValid(defs, rank, n, j.members);
    } else if defs[n].Enum? {
      EnumValid(defs, rank, n, j);
    } else {
      UnionValid(defs, rank, n, j);
      UserShownIsValid(defs, rank, defs[n].names[v.choice], v.chosen, j);
    }
  }

  // What is accepted shows a value, where no integer has a width and no map restricts its keys.

  ghost predicate Shown(defs: Defs, rank: map<string, nat>, k: nat, ty: Ty, j: Json)
    requires World(defs, rank) && Usable(defs, rank, k, ty)
  {
    exists v :: Typed(defs, rank, k, ty, v) && Shows(defs, rank, k, ty, v, j)
  }

  ghost function Pick(defs: Defs, rank: map<string, nat>, k: nat, ty: Ty, j: Json): (v: Val)
    requires World(defs, rank) && Usable(defs, rank, k, ty) && Shown(defs, rank, k, ty, j)
    ensures Typed(defs, rank, k, ty, v) && Shows(defs, rank, k, ty, v, j)
  {
    var v :| Typed(defs, rank, k, ty, v) && Shows(defs, rank, k, ty, v, j);
    v
  }

  ghost predicate UserShown(defs: Defs, rank: map<string, nat>, n: string, j: Json)
    requires World(defs, rank) && n in defs
  {
    exists v :: TypedUser(defs, rank, n, v) && ShowsUser(defs, rank, n, v, j)
  }

  /** The schema of `n` accepts nothing but what shows a value. */
  ghost predicate UserExact(defs: Defs, rank: map<string, nat>, n: string)
    requires World(defs, rank) && n in defs
  {
    forall j :: Valid(Inline(defs, rank, n), j) ==> UserShown(defs, rank, n, j)
  }

  ghost predicate ExactBelow(defs: Defs, rank: map<string, nat>, k: nat)
    requires World(defs, rank)
  {
    forall n :: n in defs && rank[n] < k ==> UserExact(defs, rank, n)
  }

  ghost predicate TypeExact(defs: Defs, rank: map<string, nat>, k: nat, ty: Ty)
    requires World(defs, rank) && Usable(defs, rank, k, ty)
  {
    forall j :: Valid(Eval(defs, rank, k, ResolveSchema(ty).value), j) ==> Shown(defs, rank, k, ty, j)
  }

  ghost predicate Satisfiable(defs: Defs, rank: map<string, nat>, k: nat, ty: Ty)
    requires World(defs, rank) && Usable(defs, rank, k, ty)
  {
    exists j :: Valid(Eval(defs, rank, k, ResolveSchema(ty).value), j)
  }

  ghost predicate AnyKey(defs: Defs, rank: map<string, nat>, ty: Ty)
    requires World(defs, rank)
  {
    forall s :: KeyText(defs, rank, ty, s)
  }

  /** Outside derived types, no integer of the type has a width, and every map that can have an entry
      takes any key. */
  ghost predicate NoWidths(defs: Defs, rank: map<string, nat>, k: nat, ty: Ty)
    requires World(defs, rank) && Usable(defs, rank, k, ty)
    decreases ty
  {
    match ty
    case Ref(e) => NoWidths(defs, rank, k, e)
    case Path(id, args) =>
      match id
      case IntId(kind) => kind == Unbounded
      case OptionId => NoWidths(defs, rank, k, SingleArg(args).value)
      case VecId => NoWidths(defs, rank, k, SingleArg(args).value)
      case BoxId => NoWidths(defs, rank, k, SingleArg(args).value)
      case MapId =>
        && NoWidths(defs, rank, k, TwoArgs(args).value.1)
        && (Satisfiable(defs, rank, k, TwoArgs(args).value.1) ==> AnyKey(defs, rank, TwoArgs(args).value.0))
      case _ => true
  }

  lemma {:induction false} ValidIsShown(defs: Defs, rank: map<string, nat>, k: nat, ty: Ty, j: Json)
    requires World(defs, rank) && ExactBelow(defs, rank, k) && Usable(defs, rank, k, ty) && NoWidths(defs, rank, k, ty)
    requires Valid(Eval(defs, rank, k, ResolveSchema(ty).value), j)
    ensures Shown(defs, rank, k, ty, j)
    decreases ty, 0
  {
    match ty
    case Ref(e) =>
      ValidIsShown(defs, rank, k, e, j);
      assert Typed(defs, rank, k, ty, Pick(defs, rank, k, e, j));
    case Path(id, args) =>
      if PrimitiveSchema(id).Some? { PrimitiveIsShown(defs, rank, k, id, args, j); }
      else if id.UserId? && args == NoArgs { UserIsShown(defs, rank, k, id.name, j); }
      else if id == ValueId || id.UserId? { assert Shows(defs, rank, k, ty, VJson(j), j); }
      else { WrapperIsShown(defs, rank, k, id, args, j); }
  }

  lemma PrimitiveIsShown(defs: Defs, rank: map<string, nat>, k: nat, id: Ident, args: Args, j: Json)
    requires World(defs, rank) && PrimitiveSchema(id).Some? && Valid(OfType(PrimitiveSchema(id).value), j)
    requires id.IntId? ==> id.kind == Unbounded
    ensures Usable(defs, rank, k, Path(id, args)) && Shown(defs, rank, k, Path(id, args), j)
  {
    var v := if id == StringId then VStr(j.s) else if id == BoolId then VBool(j.b) else VNum(j.r);
    assert Shows(defs, rank, k, Path(id, args), v, j);
  }

  lemma UserIsShown(defs: Defs, rank: map<string, nat>, k: nat, n: string, j: Json)
    requires World(defs, rank) && n in defs && rank[n] < k
    ensures Usable(defs, rank, k, Path(UserId(n), NoArgs))
    ensures Shown(defs, rank, k, Path(UserId(n), NoArgs), j) <==> UserShown(defs, rank, n, j)
  {
    if UserShown(defs, rank, n, j) {
      var v :| TypedUser(defs, rank, n, v) && ShowsUser(defs, rank, n, v, j);
      assert Shows(defs, rank, k, Path(UserId(n), NoArgs), v, j);
    }
    if Shown(defs, rank, k, Path(UserId(n), NoArgs), j) {
      var v := Pick(defs, rank, k, Path(UserId(n), NoArgs), j);
      assert TypedUser(defs, rank, n, v) && ShowsUser(defs, rank, n, v, j);
    }
  }

  lemma {:induction false} WrapperIsShown(defs: Defs, rank: map<string, nat>, k: nat, id: Ident, args: Args, j: Json)
    requires id == OptionId || id == VecId || id == MapId || id == BoxId
    requires World(defs, rank) && ExactBelow(defs, rank, k) && Usable(defs, rank, k, Path(id, args)) && NoWidths(defs, rank, k, Path(id, args))
    requires Valid(Eval(defs, rank, k, ResolveSchema(Path(id, args)).value), j)
    ensures Shown(defs, rank, k, Path(id, args), j)
    decreases args, 2
  {
    match id
    case OptionId =>
      var t := SingleArg(args).value;
      NullableValid(Eval(defs, rank, k, ResolveSchema(t).value), j);
      if j != JNull { ValidIsShown(defs, rank, k, t, j); }
      OptionIsShown(defs, rank, k, args, j);
    case VecId =>
      var vs := ListIsShown(defs, rank, k, SingleArg(args).value, j);
      ListWraps(defs, rank, k, args, vs, j);
    case MapId =>
      var entries := DictIsShown(defs, rank, k, TwoArgs(args).value.0, TwoArgs(args).value.1, j);
      assert Shows(defs, rank, k, Path(id, args), VDict(entries), j);
    case BoxId =>
      ValidIsShown(defs, rank, k, SingleArg(args).value, j);
      BoxWraps(defs, rank, k, args, j);
  }

  lemma ListWraps(defs: Defs, rank: map<string, nat>, k: nat, args: Args, vs: seq<Val>, j: Json)
    requires World(defs, rank) && Usable(defs, rank, k, Path(VecId, args)) && Usable(defs, rank, k, SingleArg(args).value)
    requires AllTyped(defs, rank, k, SingleArg(args).value, vs) && ShowsList(defs, rank, k, SingleArg(args).value, vs, j)
    ensures Shown(defs, rank, k, Path(VecId, args), j)
  {
    assert Shows(defs, rank, k, Path(VecId, args), VList(vs), j);
  }

  lemma BoxWraps(defs: Defs, rank: map<string, nat>, k: nat, args: Args, j: Json)
    requires World(defs, rank) && Usable(defs, rank, k, Path(BoxId, args)) && Usable(defs, rank, k, SingleArg(args).value)
    requires Shown(defs, rank, k, SingleArg(args).value, j)
    ensures Shown(defs, rank, k, Path(BoxId, args), j)
  {
    assert Shows(defs, rank, k, Path(BoxId, args), Pick(defs, rank, k, SingleArg(args).value, j), j);
  }

  lemma OptionIsShown(defs: Defs, rank: map<string, nat>, k: nat, args: Args, j: Json)
    requires World(defs, rank) && Usable(defs, rank, k, Path(OptionId, args)) && SingleArg(args).Some?
    requires Usable(defs, rank, k, SingleArg(args).value) && (j == JNull || Shown(defs, rank, k, SingleArg(args).value, j))
    ensures Shown(defs, rank, k, Path(OptionId, args), j)
  {
    var v := if j == JNull then VNone else VSome(Pick(defs, rank, k, SingleArg(args).value, j));
    assert Shows(defs, rank, k, Path(OptionId, args), v, j);
  }

  lemma {:induction false} ListIsShown(defs: Defs, rank: map<string, nat>, k: nat, t: Ty, j: Json) returns (vs: seq<Val>)
    requires World(defs, rank) && ExactBelow(defs, rank, k) && Usable(defs, rank, k, t) && NoWidths(defs, rank, k, t)
    requires Valid(ArrayOf(Eval(defs, rank, k, ResolveSchema(t).value)), j)
    ensures AllTyped(defs, rank, k, t, vs) && ShowsList(defs, rank, k, t, vs, j)
    decreases t, 1
  {
    ArrayValid(Eval(defs, rank, k, ResolveSchema(t).value), j);
    forall i | 0 <= i < |j.elems| ensures Shown(defs, rank, k, t, j.elems[i]) {
      ValidIsShown(defs, rank, k, t, j.elems[i]);
    }
    vs := seq(|j.elems|, i requires 0 <= i < |j.elems| => Pick(defs, rank, k, t, j.elems[i]));
  }

  lemma {:induction false} DictIsShown(defs: Defs, rank: map<string, nat>, k: nat, key: Ty, t: Ty, j: Json) returns (entries: map<string, Val>)
    requires World(defs, rank) && ExactBelow(defs, rank, k) && Usable(defs, rank, k, t) && NoWidths(defs, rank, k, t)
    requires Satisfiable(defs, rank, k, t) ==> AnyKey(defs, rank, key)
    requires Valid(DictOf(Eval(defs, rank, k, ResolveSchema(t).value)), j)
    ensures forall n :: n in entries ==> KeyText(defs, rank, key, n) && Typed(defs, rank, k, t, entries[n])
    ensures ShowsDict(defs, rank, k, t, entries, j)
    decreases t, 1
  {
    DictValid(Eval(defs, rank, k, ResolveSchema(t).value), j);
    forall n | n in j.members ensures Shown(defs, rank, k, t, j.members[n]) && KeyText(defs, rank, key, n) {
      ValidIsShown(defs, rank, k, t, j.members[n]);
      assert Satisfiable(defs, rank, k, t);
    }
    entries := map n | n in j.members :: Pick(defs, rank, k, t, j.members[n]);
  }

  /** The value of a one-or-many field that holds `vs`. */
  lemma ManyHolds(defs: Defs, rank: map<string, nat>, k: nat, f: FieldDef, vs: seq<Val>, j: Json) returns (v: Val)
    requires World(defs, rank) && FieldAccepted(f) && f.vecOrOne && Below(defs, rank, k, FieldExpr(f))
    requires Usable(defs, rank, k, VecOrOneElement(f.ty).value) && AllTyped(defs, rank, k, VecOrOneElement(f.ty).value, vs)
    requires ShowsList(defs, rank, k, VecOrOneElement(f.ty).value, vs, j)
          || (|vs| == 1 && Shows(defs, rank, k, VecOrOneElement(f.ty).value, vs[0], j))
    ensures FieldTyped(defs, rank, k, f, v) && ShowsMany(defs, rank, k, f, v, j)
  {
    VecOrOneEval(defs, rank, k, f);
    v := if VecOrOneOptional(f.ty) then VSome(VList(vs)) else VList(vs);
    ManyValues(defs, rank, k, f.ty, v);
  }

  lemma OneHolds(defs: Defs, rank: map<string, nat>, k: nat, f: FieldDef, j: Json) returns (v: Val)
    requires World(defs, rank) && FieldAccepted(f) && f.vecOrOne && Below(defs, rank, k, FieldExpr(f))
    requires Usable(defs, rank, k, VecOrOneElement(f.ty).value) && Shown(defs, rank, k, VecOrOneElement(f.ty).value, j)
    ensures FieldTyped(defs, rank, k, f, v) && ShowsMany(defs, rank, k, f, v, j)
  {
    v := ManyHolds(defs, rank, k, f, [Pick(defs, rank, k, VecOrOneElement(f.ty).value, j)], j);
  }

  lemma NoneIsShown(defs: Defs, rank: map<string, nat>, k: nat, f: FieldDef)
    requires World(defs, rank) && FieldAccepted(f) && f.vecOrOne && Below(defs, rank, k, FieldExpr(f)) && VecOrOneOptional(f.ty)
    ensures FieldTyped(defs, rank, k, f, VNone) && ShowsMany(defs, rank, k, f, VNone, JNull)
  {
    VecOrOneEval(defs, rank, k, f);
    ManyValues(defs, rank, k, f.ty, VNone);
  }

  /** The three ways to satisfy the schema of a one-or-many field. */
  lemma ManyForms(defs: Defs, rank: map<string, nat>, k: nat, f: FieldDef, j: Json)
    requires World(defs, rank) && FieldAccepted(f) && f.vecOrOne && Below(defs, rank, k, FieldExpr(f))
    requires Valid(Eval(defs, rank, k, FieldExpr(f)), j)
    ensures Usable(defs, rank, k, VecOrOneElement(f.ty).value)
    ensures var s := Eval(defs, rank, k, ResolveSchema(VecOrOneElement(f.ty).value).value);
            Valid(s, j) || Valid(ArrayOf(s), j) || (VecOrOneOptional(f.ty) && j == JNull)
  {
    VecOrOneEval(defs, rank, k, f);
    var s := Eval(defs, rank, k, ResolveSchema(VecOrOneElement(f.ty).value).value);
    NullableValid(OneOrMany(s), j);
    OneOrManyValid(s, j);
  }

  /** The type whose widths matter for a declared field: the element of a one-or-many field. */
  function Inspected(f: FieldDef): Ty {
    if f.vecOrOne && VecOrOneElement(f.ty).Some? then VecOrOneElement(f.ty).value else f.ty
  }

  ghost predicate FieldNoWidths(defs: Defs, rank: map<string, nat>, k: nat, f: FieldDef)
    requires World(defs, rank) && FieldAccepted(f) && (!f.skip ==> Below(defs, rank, k, FieldExpr(f)))
  {
    if Opaque(f) then true
    else
      PlainFieldUsable(defs, rank, k, f);
      NoWidths(defs, rank, k, Inspected(f))
  }

  lemma ManyIsShown(defs: Defs, rank: map<string, nat>, k: nat, f: FieldDef, j: Json) returns (v: Val)
    requires World(defs, rank) && ExactBelow(defs, rank, k) && FieldAccepted(f) && f.vecOrOne && Below(defs, rank, k, FieldExpr(f))
    requires FieldNoWidths(defs, rank, k, f) && Valid(Eval(defs, rank, k, FieldExpr(f)), j)
    ensures FieldTyped(defs, rank, k, f, v) && ShowsMany(defs, rank, k, f, v, j)
  {
    ManyForms(defs, rank, k, f, j);
    var elem := VecOrOneElement(f.ty).value;
    var s := Eval(defs, rank, k, ResolveSchema(elem).value);
    if Valid(s, j) {
      ValidIsShown(defs, rank, k, elem, j);
      v := OneHolds(defs, rank, k, f, j);
    } else if Valid(ArrayOf(s), j) {
      var vs := ListIsShown(defs, rank, k, elem, j);
      v := ManyHolds(defs, rank, k, f, vs, j);
    } else {
      NoneIsShown(defs, rank, k, f);
      v := VNone;
    }
  }

  lemma FieldIsShown(defs: Defs, rank: map<string, nat>, k: nat, f: FieldDef, j: Json) returns (v: Val)
    requires World(defs, rank) && ExactBelow(defs, rank, k) && FieldAccepted(f) && !f.skip && Below(defs, rank, k, FieldExpr(f))
    requires FieldNoWidths(defs, rank, k, f) && Valid(Eval(defs, rank, k, FieldExpr(f)), j)
    ensures FieldTyped(defs, rank, k, f, v) && ShowsField(defs, rank, k, f, v, j)
  {
    if f.typeOverride.Some? {
      v := VJson(j);
    } else {
      PlainFieldUsable(defs, rank, k, f);
      if f.vecOrOne {
        v := ManyIsShown(defs, rank, k, f, j);
      } else {
        ValidIsShown(defs, rank, k, f.ty, j);
        v := Pick(defs, rank, k, f.ty, j);
      }
    }
  }

  ghost predicate SlotShown(defs: Defs, rank: map<string, nat>, n: string, i: nat, members: map<string, Json>)
    requires World(defs, rank) && n in defs && defs[n].Struct? && i < |defs[n].fields|
  {
    exists v :: SlotTyped(defs, rank, n, i, v) && ShowsSlot(defs, rank, n, i, v, members)
  }

  ghost function PickSlot(defs: Defs, rank: map<string, nat>, n: string, i: nat, members: map<string, Json>): (v: Val)
    requires World(defs, rank) && n in defs && defs[n].Struct? && i < |defs[n].fields| && SlotShown(defs, rank, n, i, members)
    ensures SlotTyped(defs, rank, n, i, v) && ShowsSlot(defs, rank, n, i, v, members)
  {
    var v :| SlotTyped(defs, rank, n, i, v) && ShowsSlot(defs, rank, n, i, v, members);
    v
  }

  ghost predicate SlotNoWidths(defs: Defs, rank: map<string, nat>, n: string, i: nat)
    requires World(defs, rank) && n in defs && defs[n].Struct? && i < |defs[n].fields|
  {
    SlotBelow(defs, rank, n, i);
    FieldNoWidths(defs, rank, rank[n], defs[n].fields[i])
  }

  lemma SlotIsShown(defs: Defs, rank: map<string, nat>, n: string, i: nat, members: map<string, Json>)
    requires World(defs, rank) && Clean(defs) && n in defs && defs[n].Struct? && i < |defs[n].fields|
    requires ExactBelow(defs, rank, rank[n]) && SlotNoWidths(defs, rank, n, i) && FieldFits(defs, rank, n, i, members)
    ensures SlotShown(defs, rank, n, i, members)
  {
    var f := defs[n].fields[i];
    CleanField(defs, rank, n, i);
    if f.serdeName in members {
      var v := VJson(members[f.serdeName]);
      if !f.skip { v := FieldIsShown(defs, rank, rank[n], f, members[f.serdeName]); }
      assert SlotTyped(defs, rank, n, i, v) && ShowsSlot(defs, rank, n, i, v, members);
    } else if Opaque(f) {
      assert SlotTyped(defs, rank, n, i, VJson(JNull)) && ShowsSlot(defs, rank, n, i, VJson(JNull), members);
    } else {
      PlainFieldUsable(defs, rank, rank[n], f);
      assert SlotTyped(defs, rank, n, i, VNone) && ShowsSlot(defs, rank, n, i, VNone, members);
    }
  }

  lemma StructIsShown(defs: Defs, rank: map<string, nat>, n: string, j: Json)
    requires World(defs, rank) && Clean(defs) && n in defs && defs[n].Struct? && Valid(Inline(defs, rank, n), j)
    requires ExactBelow(defs, rank, rank[n]) && forall i :: 0 <= i < |defs[n].fields| ==> SlotNoWidths(defs, rank, n, i)
    ensures UserShown(defs, rank, n, j)
  {
    InlineKind(defs, rank, n);
    StructValid(defs, rank, n, j.members);
    forall i | 0 <= i < |defs[n].fields| ensures SlotShown(defs, rank, n, i, j.members) {
      SlotIsShown(defs, rank, n, i, j.members);
    }
    var slots := seq(|defs[n].fields|, i requires 0 <= i < |defs[n].fields| => PickSlot(defs, rank, n, i, j.members));
    assert SlotsTyped(defs, rank, n, slots);
    assert ShowsRecord(defs, rank, n, slots, j);
    assert ShowsUser(defs, rank, n, VRecord(slots), j);
  }

  lemma EnumIsShown(defs: Defs, rank: map<string, nat>, n: string, j: Json)
    requires World(defs, rank) && n in defs && defs[n].Enum? && WiresWritten(defs[n].variants) && Valid(Inline(defs, rank, n), j)
    ensures UserShown(defs, rank, n, j)
  {
    EnumValid(defs, rank, n, j);
    var i :| 0 <= i < |defs[n].variants| && defs[n].variants[i].serdeWire == j.s;
    assert ShowsUser(defs, rank, n, VVariant(i), j);
  }

  lemma ChoiceIsShown(defs: Defs, rank: map<string, nat>, n: string, i: nat, j: Json)
    requires World(defs, rank) && n in defs && defs[n].Union? && i < |defs[n].names| && defs[n].names[i] in defs
    requires UserShown(defs, rank, defs[n].names[i], j)
    ensures UserShown(defs, rank, n, j)
  {
    var v :| TypedUser(defs, rank, defs[n].names[i], v) && ShowsUser(defs, rank, defs[n].names[i], v, j);
    assert ShowsUser(defs, rank, n, VAlt(i, v), j);
  }

  // Conversely, where a schema accepts only what shows a value, nothing has a width.

  lemma {:induction false} DerivedRejectsNull(defs: Defs, rank: map<string, nat>, n: string)
    requires World(defs, rank) && n in defs
    ensures !Valid(Inline(defs, rank, n), JNull)
    decreases rank[n]
  {
    if defs[n].Union? {
      UnionValid(defs, rank, n, JNull);
      forall i | 0 <= i < |defs[n].names| ensures !Valid(Inline(defs, rank, defs[n].names[i]), JNull) {
        DerivedRejectsNull(defs, rank, defs[n].names[i]);
      }
    } else {
      InlineKind(defs, rank, n);
    }
  }

  lemma {:induction false} NullIsShown(defs: Defs, rank: map<string, nat>, k: nat, ty: Ty)
    requires World(defs, rank) && Usable(defs, rank, k, ty) && Valid(Eval(defs, rank, k, ResolveSchema(ty).value), JNull)
    ensures Shown(defs, rank, k, ty, JNull)
  {
    match ty
    case Ref(e) =>
      NullIsShown(defs, rank, k, e);
      assert Typed(defs, rank, k, ty, Pick(defs, rank, k, e, JNull));
    case Path(id, args) =>
      if id == OptionId { OptionIsShown(defs, rank, k, args, JNull); }
      else if id == BoxId {
        NullIsShown(defs, rank, k, SingleArg(args).value);
        assert Shows(defs, rank, k, ty, Pick(defs, rank, k, SingleArg(args).value, JNull), JNull);
      } else if id.UserId? && args == NoArgs { DerivedRejectsNull(defs, rank, id.name); }
      else if id == ValueId || id.UserId? { assert Shows(defs, rank, k, ty, VJson(JNull), JNull); }
  }

  const HUGE: real := 10000000000000000000000000000000000000000.0

  /** No Rust integer is as large as 10^40. */
  lemma WidthRefusesHuge(defs: Defs, rank: map<string, nat>, k: nat, kind: IntKind, args: Args)
    requires World(defs, rank) && kind != Unbounded
    ensures Usable(defs, rank, k, Path(IntId(kind), args)) && !TypeExact(defs, rank, k, Path(IntId(kind), args))
  {
    var j, ty := JNum(HUGE), Path(IntId(kind), args);
    assert Valid(OfType(TInteger), j);
    assert Eval(defs, rank, k, ResolveSchema(ty).value) == OfType(TInteger);
    assert !IntFits(kind, HUGE.Floor);
    assert !Shown(defs, rank, k, ty, j);
  }

  lemma {:induction false} ExactHasNoWidths(defs: Defs, rank: map<string, nat>, k: nat, ty: Ty)
    requires World(defs, rank) && Usable(defs, rank, k, ty) && TypeExact(defs, rank, k, ty)
    ensures NoWidths(defs, rank, k, ty)
    decreases ty
  {
    match ty
    case Ref(e) =>
      forall j | Valid(Eval(defs, rank, k, ResolveSchema(e).value), j) ensures Shown(defs, rank, k, e, j) {
        var v := Pick(defs, rank, k, ty, j);
        assert Typed(defs, rank, k, e, v) && Shows(defs, rank, k, e, v, j);
      }
      ExactHasNoWidths(defs, rank, k, e);
    case Path(id, args) =>
      if id.IntId? { if id.kind != Unbounded { WidthRefusesHuge(defs, rank, k, id.kind, args); } }
      else if id == OptionId { OptionExact(defs, rank, k, args); ExactHasNoWidths(defs, rank, k, SingleArg(args).value); }
      else if id == VecId { ListExact(defs, rank, k, args); ExactHasNoWidths(defs, rank, k, SingleArg(args).value); }
      else if id == BoxId { BoxExact(defs, rank, k, args); ExactHasNoWidths(defs, rank, k, SingleArg(args).value); }
      else if id == MapId { DictExact(defs, rank, k, args); ExactHasNoWidths(defs, rank, k, TwoArgs(args).value.1); }
  }

  lemma BoxExact(defs: Defs, rank: map<string, nat>, k: nat, args: Args)
    requires World(defs, rank) && Usable(defs, rank, k, Path(BoxId, args)) && TypeExact(defs, rank, k, Path(BoxId, args))
    ensures SingleArg(args).Some? && Usable(defs, rank, k, SingleArg(args).value) && TypeExact(defs, rank, k, SingleArg(args).value)
  {
    var t := SingleArg(args).value;
    forall j | Valid(Eval(defs, rank, k, ResolveSchema(t).value), j) ensures Shown(defs, rank, k, t, j) {
      var v := Pick(defs, rank, k, Path(BoxId, args), j);
      assert Typed(defs, rank, k, t, v) && Shows(defs, rank, k, t, v, j);
    }
  }

  lemma OptionExact(defs: Defs, rank: map<string, nat>, k: nat, args: Args)
    requires World(defs, rank) && Usable(defs, rank, k, Path(OptionId, args)) && TypeExact(defs, rank, k, Path(OptionId, args))
    ensures SingleArg(args).Some? && Usable(defs, rank, k, SingleArg(args).value) && TypeExact(defs, rank, k, SingleArg(args).value)
  {
    var t := SingleArg(args).value;
    forall j | Valid(Eval(defs, rank, k, ResolveSchema(t).value), j) ensures Shown(defs, rank, k, t, j) {
      NullableValid(Eval(defs, rank, k, ResolveSchema(t).value), j);
      if j == JNull {
        NullIsShown(defs, rank, k, t);
      } else {
        var v := Pick(defs, rank, k, Path(OptionId, args), j);
        assert Typed(defs, rank, k, t, v.inner) && Shows(defs, rank, k, t, v.inner, j);
      }
    }
  }

  lemma ListExact(defs: Defs, rank: map<string, nat>, k: nat, args: Args)
    requires World(defs, rank) && Usable(defs, rank, k, Path(VecId, args)) && TypeExact(defs, rank, k, Path(VecId, args))
    ensures SingleArg(args).Some? && Usable(defs, rank, k, SingleArg(args).value) && TypeExact(defs, rank, k, SingleArg(args).value)
  {
    var t := SingleArg(args).value;
    forall j | Valid(Eval(defs, rank, k, ResolveSchema(t).value), j) ensures Shown(defs, rank, k, t, j) {
      var one := JArr([j]);
      ArrayValid(Eval(defs, rank, k, ResolveSchema(t).value), one);
      assert Shown(defs, rank, k, Path(VecId, args), one);
      var v := Pick(defs, rank, k, Path(VecId, args), one);
      assert ShowsList(defs, rank, k, t, v.vs, one);
      assert Typed(defs, rank, k, t, v.vs[0]) && Shows(defs, rank, k, t, v.vs[0], one.elems[0]);
    }
  }

  /** An object with one entry shows a map only if the entry does and its key is one of the map's. */
  lemma EntryShown(defs: Defs, rank: map<string, nat>, k: nat, args: Args, s: string, j: Json)
    requires World(defs, rank) && Usable(defs, rank, k, Path(MapId, args)) && TypeExact(defs, rank, k, Path(MapId, args))
    requires Usable(defs, rank, k, TwoArgs(args).value.1)
    requires Valid(Eval(defs, rank, k, ResolveSchema(TwoArgs(args).value.1).value), j)
    ensures KeyText(defs, rank, TwoArgs(args).value.0, s) && Shown(defs, rank, k, TwoArgs(args).value.1, j)
  {
    var t, o := TwoArgs(args).value.1, JObj(map[s := j]);
    DictValid(Eval(defs, rank, k, ResolveSchema(t).value), o);
    assert Shown(defs, rank, k, Path(MapId, args), o);
    var v := Pick(defs, rank, k, Path(MapId, args), o);
    assert ShowsDict(defs, rank, k, t, v.entries, o);
    assert s in v.entries && Typed(defs, rank, k, t, v.entries[s]) && Shows(defs, rank, k, t, v.entries[s], o.members[s]);
  }

  lemma DictExact(defs: Defs, rank: map<string, nat>, k: nat, args: Args)
    requires World(defs, rank) && Usable(defs, rank, k, Path(MapId, args)) && TypeExact(defs, rank, k, Path(MapId, args))
    ensures TwoArgs(args).Some? && Usable(defs, rank, k, TwoArgs(args).value.1) && TypeExact(defs, rank, k, TwoArgs(args).value.1)
    ensures Satisfiable(defs, rank, k, TwoArgs(args).value.1) ==> AnyKey(defs, rank, TwoArgs(args).value.0)
  {
    var t := TwoArgs(args).value.1;
    forall j | Valid(Eval(defs, rank, k, ResolveSchema(t).value), j) ensures Shown(defs, rank, k, t, j) {
      EntryShown(defs, rank, k, args, "", j);
    }
    if j :| Valid(Eval(defs, rank, k, ResolveSchema(t).value), j) {
      forall s ensures KeyText(defs, rank, TwoArgs(args).value.0, s) {
        EntryShown(defs, rank, k, args, s, j);
      }
    }
  }

  lemma FitsAfterExchange(defs: Defs, rank: map<string, nat>, n: string, i: nat, m: nat, members: map<string, Json>, j: Json)
    requires World(defs, rank) && n in defs && defs[n].Struct? && i < |defs[n].fields| && m < |defs[n].fields| && !defs[n].fields[i].skip
    requires Below(defs, rank, rank[n], FieldExpr(defs[n].fields[i])) && FieldFits(defs, rank, n, m, members)
    requires Valid(Eval(defs, rank, rank[n], FieldExpr(defs[n].fields[i])), j)
    ensures FieldFits(defs, rank, n, m, members[defs[n].fields[i].name := j])
  {
    SlotBelow(defs, rank, n, m);
    assert FieldsFit(defs[n].fields);
  }

  /** In an accepted object one member may be exchanged for another that fits. */
  lemma ExchangeMember(defs: Defs, rank: map<string, nat>, n: string, i: nat, members: map<string, Json>, j: Json)
    requires World(defs, rank) && n in defs && defs[n].Struct? && i < |defs[n].fields| && !defs[n].fields[i].skip
    requires Below(defs, rank, rank[n], FieldExpr(defs[n].fields[i])) && Valid(Inline(defs, rank, n), JObj(members))
    requires Valid(Eval(defs, rank, rank[n], FieldExpr(defs[n].fields[i])), j)
    ensures Valid(Inline(defs, rank, n), JObj(members[defs[n].fields[i].name := j]))
  {
    var changed := members[defs[n].fields[i].name := j];
    StructValid(defs, rank, n, members);
    forall m | 0 <= m < |defs[n].fields| ensures FieldFits(defs, rank, n, m, changed) {
      FitsAfterExchange(defs, rank, n, i, m, members, j);
    }
    StructValid(defs, rank, n, changed);
  }

  /** Whatever fits a field of an exact struct shows a value of the field. */
  lemma FieldOfExact(defs: Defs, rank: map<string, nat>, n: string, i: nat, members: map<string, Json>, j: Json) returns (v: Val)
    requires World(defs, rank) && Clean(defs) && n in defs && defs[n].Struct? && i < |defs[n].fields| && !defs[n].fields[i].skip
    requires UserExact(defs, rank, n) && Valid(Inline(defs, rank, n), JObj(members))
    requires Below(defs, rank, rank[n], FieldExpr(defs[n].fields[i])) && FieldAccepted(defs[n].fields[i])
    requires Valid(Eval(defs, rank, rank[n], FieldExpr(defs[n].fields[i])), j)
    ensures FieldTyped(defs, rank, rank[n], defs[n].fields[i], v) && ShowsField(defs, rank, rank[n], defs[n].fields[i], v, j)
  {
    var f := defs[n].fields[i];
    var changed := members[f.name := j];
    CleanField(defs, rank, n, i);
    ExchangeMember(defs, rank, n, i, members, j);
    var r :| TypedUser(defs, rank, n, r) && ShowsUser(defs, rank, n, r, JObj(changed));
    assert SlotsTyped(defs, rank, n, r.slots) && ShowsRecord(defs, rank, n, r.slots, JObj(changed));
    assert SlotTyped(defs, rank, n, i, r.slots[i]) && ShowsSlot(defs, rank, n, i, r.slots[i], changed);
    v := r.slots[i];
  }

  lemma FieldExactHasNoWidths(defs: Defs, rank: map<string, nat>, n: string, i: nat, members: map<string, Json>)
    requires World(defs, rank) && Clean(defs) && n in defs && defs[n].Struct? && i < |defs[n].fields|
    requires UserExact(defs, rank, n) && Valid(Inline(defs, rank, n), JObj(members))
    ensures SlotNoWidths(defs, rank, n, i)
  {
    var f := defs[n].fields[i];
    CleanField(defs, rank, n, i);
    if !Opaque(f) {
      PlainFieldUsable(defs, rank, rank[n], f);
      var t := Inspected(f);
      forall j | Valid(Eval(defs, rank, rank[n], ResolveSchema(t).value), j) ensures Shown(defs, rank, rank[n], t, j) {
        InspectedIsShown(defs, rank, n, i, members, j);
      }
      ExactHasNoWidths(defs, rank, rank[n], t);
    }
  }

  lemma InspectedIsShown(defs: Defs, rank: map<string, nat>, n: string, i: nat, members: map<string, Json>, j: Json)
    requires World(defs, rank) && Clean(defs) && n in defs && defs[n].Struct? && i < |defs[n].fields| && !Opaque(defs[n].fields[i])
    requires UserExact(defs, rank, n) && Valid(Inline(defs, rank, n), JObj(members))
    requires FieldAccepted(defs[n].fields[i]) && Below(defs, rank, rank[n], FieldExpr(defs[n].fields[i]))
    requires Usable(defs, rank, rank[n], Inspected(defs[n].fields[i]))
    requires Valid(Eval(defs, rank, rank[n], ResolveSchema(Inspected(defs[n].fields[i])).value), j)
    ensures Shown(defs, rank, rank[n], Inspected(defs[n].fields[i]), j)
  {
    var f := defs[n].fields[i];
    CleanField(defs, rank, n, i);
    PlainFieldUsable(defs, rank, rank[n], f);
    if f.vecOrOne { BareIsValid(defs, rank, rank[n], f, j); }
    var v := FieldOfExact(defs, rank, n, i, members, j);
    if f.vecOrOne { BareIsShown(defs, rank, rank[n], f, v, j); }
  }

  /** A single element satisfies the schema of a one-or-many field. */
  lemma BareIsValid(defs: Defs, rank: map<string, nat>, k: nat, f: FieldDef, j: Json)
    requires World(defs, rank) && FieldAccepted(f) && f.vecOrOne && Below(defs, rank, k, FieldExpr(f))
    requires Usable(defs, rank, k, VecOrOneElement(f.ty).value) && !VecInside(VecOrOneElement(f.ty).value)
    requires Valid(Eval(defs, rank, k, ResolveSchema(VecOrOneElement(f.ty).value).value), j)
    ensures Valid(Eval(defs, rank, k, FieldExpr(f)), j) && !j.JArr?
  {
    VecOrOneEval(defs, rank, k, f);
    OneOrManyOfNoVec(defs, rank, k, VecOrOneElement(f.ty).value, j);
    NullableValid(OneOrMany(Eval(defs, rank, k, ResolveSchema(VecOrOneElement(f.ty).value).value)), j);
  }

  lemma BareIsShown(defs: Defs, rank: map<string, nat>, k: nat, f: FieldDef, v: Val, j: Json)
    requires World(defs, rank) && FieldAccepted(f) && f.vecOrOne && Below(defs, rank, k, FieldExpr(f)) && !j.JArr?
    requires Usable(defs, rank, k, VecOrOneElement(f.ty).value)
    requires Valid(Eval(defs, rank, k, ResolveSchema(VecOrOneElement(f.ty).value).value), j)
    requires FieldTyped(defs, rank, k, f, v) && ShowsMany(defs, rank, k, f, v, j)
    ensures Shown(defs, rank, k, VecOrOneElement(f.ty).value, j)
  {
    VecOrOneEval(defs, rank, k, f);
    ManyValues(defs, rank, k, f.ty, v);
    match ManyOf(v)
    case None => NullIsShown(defs, rank, k, VecOrOneElement(f.ty).value);
    case Some(vs) => assert Typed(defs, rank, k, VecOrOneElement(f.ty).value, vs[0]);
  }

  /** No declared field of the struct has a width in it, if its schema accepts anything. */
  ghost predicate StructNoWidths(defs: Defs, rank: map<string, nat>, n: string)
    requires World(defs, rank) && n in defs && defs[n].Struct?
  {
    (exists j :: Valid(Inline(defs, rank, n), j)) ==> forall i :: 0 <= i < |defs[n].fields| ==> SlotNoWidths(defs, rank, n, i)
  }

  lemma ExactStructHasNoWidths(defs: Defs, rank: map<string, nat>, n: string)
    requires World(defs, rank) && Clean(defs) && n in defs && defs[n].Struct? && UserExact(defs, rank, n)
    ensures StructNoWidths(defs, rank, n)
  {
    if j :| Valid(Inline(defs, rank, n), j) {
      InlineKind(defs, rank, n);
      forall i | 0 <= i < |defs[n].fields| ensures SlotNoWidths(defs, rank, n, i) {
        FieldExactHasNoWidths(defs, rank, n, i, j.members);
      }
    }
  }

  lemma UnionIsShown(defs: Defs, rank: map<string, nat>, n: string, j: Json)
    requires World(defs, rank) && n in defs && defs[n].Union? && ExactBelow(defs, rank, rank[n]) && Valid(Inline(defs, rank, n), j)
    ensures UserShown(defs, rank, n, j)
  {
    UnionValid(defs, rank, n, j);
    var i :| 0 <= i < |defs[n].names| && Valid(Inline(defs, rank, defs[n].names[i]), j);
    ChoiceIsShown(defs, rank, n, i, j);
  }

  lemma ExactFromBelow(defs: Defs, rank: map<string, nat>, n: string)
    requires World(defs, rank) && Clean(defs) && n in defs && ExactBelow(defs, rank, rank[n])
    requires defs[n].Struct? ==> StructNoWidths(defs, rank, n)
    ensures UserExact(defs, rank, n)
  {
    forall j | Valid(Inline(defs, rank, n), j) ensures UserShown(defs, rank, n, j) {
      if defs[n].Struct? { StructIsShown(defs, rank, n, j); }
      else if defs[n].Enum? { EnumIsShown(defs, rank, n, j); }
      else { UnionIsShown(defs, rank, n, j); }
    }
  }

  lemma {:induction false} AllExactBelow(defs: Defs, rank: map<string, nat>, k: nat)
    requires World(defs, rank) && Clean(defs)
    requires forall n :: n in defs && defs[n].Struct? ==> StructNoWidths(defs, rank, n)
    ensures ExactBelow(defs, rank, k)
  {
    forall n | n in defs && rank[n] < k ensures UserExact(defs, rank, n) {
      AllExactBelow(defs, rank, rank[n]);
      ExactFromBelow(defs, rank, n);
    }
  }

  /** For every acyclic, clean set of derived types: all generated schemas accept only JSON that shows
      a value exactly when no field of a struct that can be met has an integer with a width or a map
      that restricts its keys. */
  lemma WorldExactIff(defs: Defs, rank: map<string, nat>)
    requires World(defs, rank) && Clean(defs)
    ensures (forall n :: n in defs ==> UserExact(defs, rank, n))
       <==> (forall n :: n in defs && defs[n].Struct? ==> StructNoWidths(defs, rank, n))
  {
    if forall n :: n in defs ==> UserExact(defs, rank, n) {
      forall n | n in defs && defs[n].Struct? ensures StructNoWidths(defs, rank, n) {
        ExactStructHasNoWidths(defs, rank, n);
      }
    }
    if forall n :: n in defs && defs[n].Struct? ==> StructNoWidths(defs, rank, n) {
      forall n | n in defs ensures UserExact(defs, rank, n) {
        AllExactBelow(defs, rank, rank[n] + 1);
      }
    }
  }

  // Encodings show their values.

  lemma {:induction false} EncodingShows(defs: Defs, rank: map<string, nat>, k: nat, ty: Ty, v: Val)
    requires World(defs, rank) && Clean(defs) && Usable(defs, rank, k, ty) && Typed(defs, rank, k, ty, v)
    ensures Shows(defs, rank, k, ty, v, Encode(defs, rank, k, ty, v))
    decreases k, 0, ty, 0
  {
    match ty
    case Ref(e) => EncodingShows(defs, rank, k, e, v);
    case Path(id, args) =>
      if id == OptionId || id == VecId || id == MapId || id == BoxId { WrapperEncodingShows(defs, rank, k, id, args, v); }
      else if id.UserId? && args == NoArgs { UserEncodingShows(defs, rank, id.name, v); }
  }

  lemma {:induction false} WrapperEncodingShows(defs: Defs, rank: map<string, nat>, k: nat, id: Ident, args: Args, v: Val)
    requires id == OptionId || id == VecId || id == MapId || id == BoxId
    requires World(defs, rank) && Clean(defs) && Usable(defs, rank, k, Path(id, args)) && Typed(defs, rank, k, Path(id, args), v)
    ensures Shows(defs, rank, k, Path(id, args), v, Encode(defs, rank, k, Path(id, args), v))
    decreases k, 0, args, 2
  {
    match id
    case OptionId => if v != VNone { EncodingShows(defs, rank, k, SingleArg(args).value, v.inner); }
    case VecId => ListEncodingShows(defs, rank, k, SingleArg(args).value, v.vs);
    case MapId => DictEncodingShows(defs, rank, k, TwoArgs(args).value.1, v.entries);
    case BoxId => EncodingShows(defs, rank, k, SingleArg(args).value, v);
  }

  lemma {:induction false} ListEncodingShows(defs: Defs, rank: map<string, nat>, k: nat, t: Ty, vs: seq<Val>)
    requires World(defs, rank) && Clean(defs) && Usable(defs, rank, k, t)
    requires forall i :: 0 <= i < |vs| ==> Typed(defs, rank, k, t, vs[i])
    ensures ShowsList(defs, rank, k, t, vs, EncodeList(defs, rank, k, t, vs))
    decreases k, 0, t, 1
  {
    forall i | 0 <= i < |vs| ensures Shows(defs, rank, k, t, vs[i], EncodeList(defs, rank, k, t, vs).elems[i]) {
      EncodingShows(defs, rank, k, t, vs[i]);
    }
  }

  lemma {:induction false} DictEncodingShows(defs: Defs, rank: map<string, nat>, k: nat, t: Ty, entries: map<string, Val>)
    requires World(defs, rank) && Clean(defs) && Usable(defs, rank, k, t)
    requires forall n :: n in entries ==> Typed(defs, rank, k, t, entries[n])
    ensures ShowsDict(defs, rank, k, t, entries, EncodeDict(defs, rank, k, t, entries))
    decreases k, 0, t, 1
  {
    forall n | n in entries ensures Shows(defs, rank, k, t, entries[n], EncodeDict(defs, rank, k, t, entries).members[n]) {
      EncodingShows(defs, rank, k, t, entries[n]);
    }
  }

  lemma {:induction false} FieldEncodingShows(defs: Defs, rank: map<string, nat>, k: nat, f: FieldDef, v: Val)
    requires World(defs, rank) && Clean(defs) && FieldAccepted(f) && (!f.skip ==> Below(defs, rank, k, FieldExpr(f)))
    requires FieldTyped(defs, rank, k, f, v)
    ensures ShowsField(defs, rank, k, f, v, FieldEncode(defs, rank, k, f, v))
    decreases k, 1
  {
    if !Opaque(f) {
      PlainFieldUsable(defs, rank, k, f);
      if f.vecOrOne {
        VecOrOneEval(defs, rank, k, f);
        ManyValues(defs, rank, k, f.ty, v);
        if ManyOf(v).Some? { ListEncodingShows(defs, rank, k, VecOrOneElement(f.ty).value, ManyOf(v).value); }
      } else {
        EncodingShows(defs, rank, k, f.ty, v);
      }
    }
  }

  lemma {:induction false} RecordEncodingShows(defs: Defs, rank: map<string, nat>, n: string, slots: seq<Val>, i: nat)
    requires World(defs, rank) && Clean(defs) && n in defs && defs[n].Struct? && SlotsTyped(defs, rank, n, slots) && i < |slots|
    ensures ShowsSlot(defs, rank, n, i, slots[i], Members(defs, rank, n, slots, |slots|))
    decreases rank[n], 2
  {
    CleanField(defs, rank, n, i);
    MembersAre(defs, rank, n, slots, |slots|);
    assert SlotTyped(defs, rank, n, i, slots[i]);
    if Written(defs[n].fields, slots, i) {
      FieldEncodingShows(defs, rank, rank[n], defs[n].fields[i], slots[i]);
    }
  }

  /** What serde writes for a value shows that value. */
  lemma {:induction false} UserEncodingShows(defs: Defs, rank: map<string, nat>, n: string, v: Val)
    requires World(defs, rank) && Clean(defs) && n in defs && TypedUser(defs, rank, n, v)
    ensures ShowsUser(defs, rank, n, v, EncodeUser(defs, rank, n, v))
    decreases rank[n], 4
  {
    if defs[n].Struct? {
      forall i | 0 <= i < |v.slots|
        ensures ShowsSlot(defs, rank, n, i, v.slots[i], Members(defs, rank, n, v.slots, |v.slots|))
      {
        RecordEncodingShows(defs, rank, n, v.slots, i);
      }
    } else if defs[n].Union? {
      assert Calls(defs[n], defs[n].names[v.choice]);
      UserEncodingShows(defs, rank, defs[n].names[v.choice], v.chosen);
    }
  }
}
