/** When the generated schema accepts what serde writes. */
module SchemaSoundness {
  import opened Options
  import opened RustTypes
  import opened JsonSchema
  import opened SerdeValues
  import opened Derive
  import opened Encoding

  // Shapes.

  /** What a struct's schema says of an object: fields that are not options have to be there under
      their Rust names, and every declared field that is there has to fit. */
  lemma StructValid(defs: Defs, rank: map<string, nat>, n: string, members: map<string, Json>)
    requires World(defs, rank) && n in defs && defs[n].Struct?
    ensures Valid(Inline(defs, rank, n), JObj(members)) <==>
              forall i :: 0 <= i < |defs[n].fields| ==> FieldFits(defs, rank, n, i, members)
  {
    var fields, fs, s := defs[n].fields, SchemaFields(defs[n].fields), Inline(defs, rank, n);
    FieldsBelow(defs, rank, n);
    if Valid(s, JObj(members)) {
      forall i | 0 <= i < |fields| ensures FieldFits(defs, rank, n, i, members) {
        if !fields[i].skip { ValidFits(defs, rank, n, i, members); }
      }
    }
    if forall i :: 0 <= i < |fields| ==> FieldFits(defs, rank, n, i, members) {
      FitsValid(defs, rank, n, members);
    }
  }

  ghost predicate FieldFits(defs: Defs, rank: map<string, nat>, n: string, i: nat, members: map<string, Json>)
    requires World(defs, rank) && n in defs && defs[n].Struct? && i < |defs[n].fields|
  {
    var f := defs[n].fields[i];
    SlotBelow(defs, rank, n, i);
    if f.skip then true
    else if f.name in members then Valid(Eval(defs, rank, rank[n], FieldExpr(f)), members[f.name])
    else IsOptionType(f.ty)
  }

  lemma ValidFits(defs: Defs, rank: map<string, nat>, n: string, i: nat, members: map<string, Json>)
    requires World(defs, rank) && n in defs && defs[n].Struct? && i < |defs[n].fields| && !defs[n].fields[i].skip
    requires Valid(Inline(defs, rank, n), JObj(members))
    ensures FieldFits(defs, rank, n, i, members)
  {
    var f, fs, s := defs[n].fields[i], SchemaFields(defs[n].fields), Inline(defs, rank, n);
    FieldsBelow(defs, rank, n);
    FieldBelow(defs, rank, rank[n], defs[n].fields, i);
    var m :| 0 <= m < |fs| && fs[m] == SchemaField(f.name, FieldExpr(f), !IsOptionType(f.ty));
    assert s.properties[m] == Property(f.name, Eval(defs, rank, rank[n], FieldExpr(f)));
    if !IsOptionType(f.ty) {
      assert fs[m].required;
      assert f.name in s.required;
    }
  }

  lemma FitsValid(defs: Defs, rank: map<string, nat>, n: string, members: map<string, Json>)
    requires World(defs, rank) && n in defs && defs[n].Struct?
    requires forall i :: 0 <= i < |defs[n].fields| ==> FieldFits(defs, rank, n, i, members)
    ensures Valid(Inline(defs, rank, n), JObj(members))
  {
    var fields := defs[n].fields;
    var fs, s := SchemaFields(fields), Inline(defs, rank, n);
    FieldsBelow(defs, rank, n);
    forall m | 0 <= m < |fs| && fs[m].name in members
      ensures Valid(Eval(defs, rank, rank[n], fs[m].expr), members[fs[m].name])
    {
      var i := SchemaFieldOrigin(fields, m);
      assert FieldFits(defs, rank, n, i, members);
    }
    forall r | 0 <= r < |s.required| ensures s.required[r] in members {
      assert s.required[r] in RequiredNames(fs);
      var m :| 0 <= m < |fs| && fs[m].required && fs[m].name == s.required[r];
      var i := SchemaFieldOrigin(fields, m);
      assert FieldFits(defs, rank, n, i, members);
    }
  }

  lemma InlineKind(defs: Defs, rank: map<string, nat>, n: string)
    requires World(defs, rank) && n in defs && !defs[n].Union?
    ensures Inline(defs, rank, n).kind == Some(if defs[n].Struct? then TObject else TString)
  {
  }

  lemma EnumValid(defs: Defs, rank: map<string, nat>, n: string, j: Json)
    requires World(defs, rank) && n in defs && defs[n].Enum?
    ensures Valid(Inline(defs, rank, n), j) <==> j.JStr? && j.s in Wires(defs[n].variants)
  {
  }

  /** A union accepts what one of its members accepts. */
  lemma UnionValid(defs: Defs, rank: map<string, nat>, n: string, j: Json)
    requires World(defs, rank) && n in defs && defs[n].Union?
    ensures forall i :: 0 <= i < |defs[n].names| ==> defs[n].names[i] in defs && rank[defs[n].names[i]] < rank[n]
    ensures Valid(Inline(defs, rank, n), j) <==>
              exists i :: 0 <= i < |defs[n].names| && Valid(Inline(defs, rank, defs[n].names[i]), j)
  {
    var names, branches := defs[n].names, Inline(defs, rank, n).anyOf.list;
    assert forall i :: 0 <= i < |names| ==> Calls(defs[n], names[i]);
    assert forall i :: 0 <= i < |names| ==> branches[i] == Inline(defs, rank, names[i]);
    AnyOfValid(branches, j);
  }

  // Arrays, which decide whether a one-or-many field is ambiguous.

  /** After options, boxes and references are stripped, a vector is left. */
  predicate VecInside(ty: Ty) {
    match ty
    case Ref(e) => VecInside(e)
    case OtherTy => false
    case Path(id, args) =>
      match id
      case OptionId => SingleArg(args).Some? && VecInside(SingleArg(args).value)
      case BoxId => SingleArg(args).Some? && VecInside(SingleArg(args).value)
      case VecId => true
      case _ => false
  }

  /** Expressions whose schema no array satisfies. */
  predicate NotArray(e: Expr) {
    match e
    case EType(t) => t != TArray
    case EAny => false
    case ENullable(i) => NotArray(i)
    case EArray(_) => false
    case EDict(_) => true
    case EInline(_) => true
    case EOneOrMany(_) => false
  }

  lemma {:induction false} NotVecNotArray(ty: Ty)
    requires ResolveBaml(ty).Some?
    ensures ResolveSchema(ty).Some? && (NotArray(ResolveSchema(ty).value) <==> !VecInside(ty))
  {
    ResolversAgree(ty);
    match ty
    case Ref(e) => NotVecNotArray(e);
    case Path(id, args) =>
      if (id == OptionId || id == BoxId) && SingleArg(args).Some? { NotVecNotArray(SingleArg(args).value); }
  }

  lemma {:induction false} NotArrayRejects(defs: Defs, rank: map<string, nat>, k: nat, e: Expr, j: Json)
    requires World(defs, rank) && Below(defs, rank, k, e) && NotArray(e) && j.JArr?
    ensures !Valid(Eval(defs, rank, k, e), j)
    decreases k, 0, e
  {
    match e
    case EType(t) =>
    case ENullable(i) =>
      NotArrayRejects(defs, rank, k, i, j);
      NullableValid(Eval(defs, rank, k, i), j);
    case EDict(i) => DictValid(Eval(defs, rank, k, i), j);
    case EInline(n) => DerivedRejectsArrays(defs, rank, n, j);
  }

  lemma KindRejectsArrays(s: Schema, j: Json)
    requires s.kind.Some? && s.kind.value != TArray && j.JArr?
    ensures !Valid(s, j)
  {
  }

  /** No derived type is written as an array. */
  lemma {:induction false} DerivedRejectsArrays(defs: Defs, rank: map<string, nat>, n: string, j: Json)
    requires World(defs, rank) && n in defs && j.JArr?
    ensures !Valid(Inline(defs, rank, n), j)
    decreases rank[n], 1
  {
    if defs[n].Union? {
      UnionValid(defs, rank, n, j);
      forall i | 0 <= i < |defs[n].names| ensures !Valid(Inline(defs, rank, defs[n].names[i]), j) {
        DerivedRejectsArrays(defs, rank, defs[n].names[i], j);
      }
    } else {
      InlineKind(defs, rank, n);
      KindRejectsArrays(Inline(defs, rank, n), j);
    }
  }

  lemma {:induction false} EmptyVecValid(defs: Defs, rank: map<string, nat>, k: nat, ty: Ty)
    requires World(defs, rank) && Usable(defs, rank, k, ty) && VecInside(ty)
    ensures Valid(Eval(defs, rank, k, ResolveSchema(ty).value), JArr([]))
  {
    match ty
    case Ref(e) => EmptyVecValid(defs, rank, k, e);
    case Path(id, args) =>
      if id == VecId {
        ArrayValid(Eval(defs, rank, k, ResolveSchema(SingleArg(args).value).value), JArr([]));
      } else {
        EmptyVecValid(defs, rank, k, SingleArg(args).value);
        if id == OptionId { NullableValid(Eval(defs, rank, k, ResolveSchema(SingleArg(args).value).value), JArr([])); }
      }
  }

  lemma OneOrManyOfNoVec(defs: Defs, rank: map<string, nat>, k: nat, elem: Ty, j: Json)
    requires World(defs, rank) && Usable(defs, rank, k, elem) && ResolveBaml(elem).Some? && !VecInside(elem)
    ensures var s := Eval(defs, rank, k, ResolveSchema(elem).value);
            && (j.JArr? ==> !Valid(s, j))
            && (Valid(OneOrMany(s), j) <==> Valid(s, j) || Valid(ArrayOf(s), j))
  {
    var s := Eval(defs, rank, k, ResolveSchema(elem).value);
    OneOrManyValid(s, j);
    ArrayValid(s, j);
    NotVecNotArray(elem);
    if j.JArr? { NotArrayRejects(defs, rank, k, ResolveSchema(elem).value, j); }
  }

  /** The schema of a one-or-many field. */
  lemma VecOrOneEval(defs: Defs, rank: map<string, nat>, k: nat, f: FieldDef)
    requires World(defs, rank) && FieldAccepted(f) && f.vecOrOne && Below(defs, rank, k, FieldExpr(f))
    ensures Usable(defs, rank, k, f.ty) && Usable(defs, rank, k, VecOrOneElement(f.ty).value)
    ensures ResolveBaml(VecOrOneElement(f.ty).value).Some?
    ensures var one := OneOrMany(Eval(defs, rank, k, ResolveSchema(VecOrOneElement(f.ty).value).value));
            Eval(defs, rank, k, FieldExpr(f)) == (if VecOrOneOptional(f.ty) then Nullable(one) else one)
  {
    PlainFieldUsable(defs, rank, k, f);
  }

  // The condition.

  /** Everything serde can write for the enum is a listed wire string. */
  ghost predicate WiresComplete(vs: seq<VariantDef>) {
    forall i :: 0 <= i < |vs| ==> vs[i].serdeWire in Wires(vs)
  }

  /** Whatever serde writes for field `g` fits the schema of field `i`. */
  ghost predicate Covers(defs: Defs, rank: map<string, nat>, n: string, i: nat, g: nat)
    requires World(defs, rank) && n in defs && defs[n].Struct? && i < |defs[n].fields| && g < |defs[n].fields|
    requires !defs[n].fields[i].skip
  {
    SlotBelow(defs, rank, n, i);
    forall w :: SlotTyped(defs, rank, n, g, w) && !Omits(defs[n].fields[g].omit, w) ==>
      Valid(Eval(defs, rank, rank[n], FieldExpr(defs[n].fields[i])), SlotEncode(defs, rank, n, g, w))
  }

  /** Some field is always written under the Rust name of field `i`. */
  ghost predicate AlwaysWritten(fields: seq<FieldDef>, i: nat)
    requires i < |fields|
  {
    exists g :: 0 <= g < |fields| && fields[g].serdeName == fields[i].name && fields[g].omit == Never
  }

  /** What the attributes of declared field `i` have to satisfy: if it is required, its Rust name is
      always written; if another field is written under its name, that one fits; and if it is
      one-or-many under its own name, its elements are not vectors. */
  ghost predicate FieldFaithful(defs: Defs, rank: map<string, nat>, n: string, i: nat)
    requires World(defs, rank) && n in defs && defs[n].Struct? && i < |defs[n].fields| && !defs[n].fields[i].skip
  {
    var fields := defs[n].fields;
    && (!IsOptionType(fields[i].ty) ==> AlwaysWritten(fields, i))
    && (forall g :: 0 <= g < |fields| && g != i && fields[g].serdeName == fields[i].name ==> Covers(defs, rank, n, i, g))
    && (fields[i].serdeName == fields[i].name && fields[i].vecOrOne ==>
          VecOrOneElement(fields[i].ty).Some? && !VecInside(VecOrOneElement(fields[i].ty).value))
  }

  ghost predicate StructFaithful(defs: Defs, rank: map<string, nat>, n: string)
    requires World(defs, rank) && n in defs && defs[n].Struct?
  {
    forall i :: 0 <= i < |defs[n].fields| && !defs[n].fields[i].skip ==> FieldFaithful(defs, rank, n, i)
  }

  ghost predicate DefFaithful(defs: Defs, rank: map<string, nat>, n: string)
    requires World(defs, rank) && n in defs
  {
    match defs[n]
    case Struct(_) => HasValue(defs, rank, n) ==> StructFaithful(defs, rank, n)
    case Enum(vs) => WiresComplete(vs)
    case Union(_) => true
  }

  ghost predicate FaithfulBelow(defs: Defs, rank: map<string, nat>, k: nat)
    requires World(defs, rank)
  {
    forall n :: n in defs && rank[n] < k ==> DefFaithful(defs, rank, n)
  }

  /** The schema of `n` accepts every encoding of its values. */
  ghost predicate SchemaSound(defs: Defs, rank: map<string, nat>, n: string)
    requires World(defs, rank) && n in defs
  {
    forall v :: TypedUser(defs, rank, n, v) ==> Valid(Inline(defs, rank, n), EncodeUser(defs, rank, n, v))
  }

  // Soundness from the condition.

  lemma {:induction false} TypeSchemaSound(defs: Defs, rank: map<string, nat>, k: nat, ty: Ty, v: Val)
    requires World(defs, rank) && FaithfulBelow(defs, rank, k) && Usable(defs, rank, k, ty) && Typed(defs, rank, k, ty, v)
    ensures Valid(Eval(defs, rank, k, ResolveSchema(ty).value), Encode(defs, rank, k, ty, v))
    decreases k, 0, ty, 0
  {
    match ty
    case Ref(e) => TypeSchemaSound(defs, rank, k, e, v);
    case Path(id, args) =>
      if id == OptionId || id == VecId || id == MapId || id == BoxId {
        WrapperSchemaSound(defs, rank, k, id, args, v);
      } else if id.UserId? && args == NoArgs {
        DerivedSchemaSound(defs, rank, id.name, v);
      }
  }

  lemma {:induction false} WrapperSchemaSound(defs: Defs, rank: map<string, nat>, k: nat, id: Ident, args: Args, v: Val)
    requires id == OptionId || id == VecId || id == MapId || id == BoxId
    requires World(defs, rank) && FaithfulBelow(defs, rank, k) && Usable(defs, rank, k, Path(id, args))
    requires Typed(defs, rank, k, Path(id, args), v)
    ensures Valid(Eval(defs, rank, k, ResolveSchema(Path(id, args)).value), Encode(defs, rank, k, Path(id, args), v))
    decreases k, 0, args, 2
  {
    match id
    case OptionId =>
      var t := SingleArg(args).value;
      NullableValid(Eval(defs, rank, k, ResolveSchema(t).value), Encode(defs, rank, k, Path(id, args), v));
      if v != VNone { TypeSchemaSound(defs, rank, k, t, v.inner); }
    case VecId => ListSchemaSound(defs, rank, k, SingleArg(args).value, v.vs);
    case MapId => DictSchemaSound(defs, rank, k, TwoArgs(args).value.1, v.entries);
    case BoxId => TypeSchemaSound(defs, rank, k, SingleArg(args).value, v);
  }

  lemma {:induction false} ListSchemaSound(defs: Defs, rank: map<string, nat>, k: nat, t: Ty, vs: seq<Val>)
    requires World(defs, rank) && FaithfulBelow(defs, rank, k) && Usable(defs, rank, k, t)
    requires forall i :: 0 <= i < |vs| ==> Typed(defs, rank, k, t, vs[i])
    ensures Valid(ArrayOf(Eval(defs, rank, k, ResolveSchema(t).value)), EncodeList(defs, rank, k, t, vs))
    decreases k, 0, t, 1
  {
    var s, j := Eval(defs, rank, k, ResolveSchema(t).value), EncodeList(defs, rank, k, t, vs);
    ArrayValid(s, j);
    forall i | 0 <= i < |vs| ensures Valid(s, j.elems[i]) {
      TypeSchemaSound(defs, rank, k, t, vs[i]);
    }
  }

  lemma {:induction false} DictSchemaSound(defs: Defs, rank: map<string, nat>, k: nat, t: Ty, entries: map<string, Val>)
    requires World(defs, rank) && FaithfulBelow(defs, rank, k) && Usable(defs, rank, k, t)
    requires forall n :: n in entries ==> Typed(defs, rank, k, t, entries[n])
    ensures Valid(DictOf(Eval(defs, rank, k, ResolveSchema(t).value)), EncodeDict(defs, rank, k, t, entries))
    decreases k, 0, t, 1
  {
    var s, j := Eval(defs, rank, k, ResolveSchema(t).value), EncodeDict(defs, rank, k, t, entries);
    DictValid(s, j);
    forall n | n in entries ensures Valid(s, j.members[n]) {
      TypeSchemaSound(defs, rank, k, t, entries[n]);
    }
  }

  /** A declared field written under its own name fits its schema. */
  lemma {:induction false} FieldSchemaSound(defs: Defs, rank: map<string, nat>, k: nat, f: FieldDef, v: Val)
    requires World(defs, rank) && FaithfulBelow(defs, rank, k) && FieldAccepted(f) && !f.skip && Below(defs, rank, k, FieldExpr(f))
    requires f.vecOrOne ==> !VecInside(VecOrOneElement(f.ty).value)
    requires FieldTyped(defs, rank, k, f, v)
    ensures Valid(Eval(defs, rank, k, FieldExpr(f)), FieldEncode(defs, rank, k, f, v))
    decreases k, 2
  {
    if f.typeOverride == None {
      PlainFieldUsable(defs, rank, k, f);
      if f.vecOrOne { ManySchemaSound(defs, rank, k, f, v); } else { TypeSchemaSound(defs, rank, k, f.ty, v); }
    }
  }

  lemma {:induction false} ManySchemaSound(defs: Defs, rank: map<string, nat>, k: nat, f: FieldDef, v: Val)
    requires World(defs, rank) && FaithfulBelow(defs, rank, k) && FieldAccepted(f) && !f.skip && Below(defs, rank, k, FieldExpr(f))
    requires f.vecOrOne && !VecInside(VecOrOneElement(f.ty).value) && FieldTyped(defs, rank, k, f, v)
    ensures Valid(Eval(defs, rank, k, FieldExpr(f)), FieldEncode(defs, rank, k, f, v))
    decreases k, 1
  {
    var elem, j := VecOrOneElement(f.ty).value, FieldEncode(defs, rank, k, f, v);
    VecOrOneEval(defs, rank, k, f);
    ManyValues(defs, rank, k, f.ty, v);
    var one := OneOrMany(Eval(defs, rank, k, ResolveSchema(elem).value));
    NullableValid(one, j);
    if ManyOf(v).Some? {
      ListSchemaSound(defs, rank, k, elem, ManyOf(v).value);
      OneOrManyOfNoVec(defs, rank, k, elem, j);
    }
  }

  lemma {:induction false} StructSchemaSound(defs: Defs, rank: map<string, nat>, n: string, slots: seq<Val>)
    requires World(defs, rank) && n in defs && defs[n].Struct? && FaithfulBelow(defs, rank, rank[n])
    requires StructFaithful(defs, rank, n) && SlotsTyped(defs, rank, n, slots)
    ensures Valid(Inline(defs, rank, n), JObj(Members(defs, rank, n, slots, |slots|)))
    decreases rank[n], 3, 1
  {
    var members := Members(defs, rank, n, slots, |slots|);
    forall i | 0 <= i < |slots| ensures FieldFits(defs, rank, n, i, members) {
      if !defs[n].fields[i].skip { SlotFits(defs, rank, n, slots, i); }
    }
    StructValid(defs, rank, n, members);
  }

  lemma {:induction false} SlotFits(defs: Defs, rank: map<string, nat>, n: string, slots: seq<Val>, i: nat)
    requires World(defs, rank) && n in defs && defs[n].Struct? && FaithfulBelow(defs, rank, rank[n])
    requires SlotsTyped(defs, rank, n, slots) && i < |slots| && !defs[n].fields[i].skip && FieldFaithful(defs, rank, n, i)
    ensures FieldFits(defs, rank, n, i, Members(defs, rank, n, slots, |slots|))
    decreases rank[n], 3, 0
  {
    var fields, members := defs[n].fields, Members(defs, rank, n, slots, |slots|);
    MembersAre(defs, rank, n, slots, |slots|);
    SlotBelow(defs, rank, n, i);
    if fields[i].name in members {
      var g :| 0 <= g < |slots| && Written(fields, slots, g) && fields[g].serdeName == fields[i].name;
      assert SlotTyped(defs, rank, n, g, slots[g]);
      if g == i { FieldSchemaSound(defs, rank, rank[n], fields[i], slots[i]); }
    } else if !IsOptionType(fields[i].ty) {
      assert AlwaysWritten(fields, i);
      var g :| 0 <= g < |fields| && fields[g].serdeName == fields[i].name && fields[g].omit == Never;
      assert Written(fields, slots, g);
      assert false;
    }
  }

  /** For every acyclic set of derived structs, enums and unions that is faithful up to `n`, whatever
      serde writes for a value of `n` is accepted by the generated schema. */
  lemma {:induction false} DerivedSchemaSound(defs: Defs, rank: map<string, nat>, n: string, v: Val)
    requires World(defs, rank) && n in defs && FaithfulBelow(defs, rank, rank[n] + 1) && TypedUser(defs, rank, n, v)
    ensures Valid(Inline(defs, rank, n), EncodeUser(defs, rank, n, v))
    decreases rank[n], 4
  {
    assert DefFaithful(defs, rank, n);
    if defs[n].Struct? {
      StructSchemaSound(defs, rank, n, v.slots);
    } else if defs[n].Enum? {
      EnumValid(defs, rank, n, EncodeUser(defs, rank, n, v));
    } else {
      var m := defs[n].names[v.choice];
      UnionValid(defs, rank, n, EncodeUser(defs, rank, n, v));
      DerivedSchemaSound(defs, rank, m, v.chosen);
    }
  }

  // The condition from soundness.

  lemma SoundEnumIsComplete(defs: Defs, rank: map<string, nat>, n: string)
    requires World(defs, rank) && n in defs && defs[n].Enum? && SchemaSound(defs, rank, n)
    ensures WiresComplete(defs[n].variants)
  {
    forall i | 0 <= i < |defs[n].variants| ensures defs[n].variants[i].serdeWire in Wires(defs[n].variants) {
      assert TypedUser(defs, rank, n, VVariant(i));
      EnumValid(defs, rank, n, EncodeUser(defs, rank, n, VVariant(i)));
    }
  }

  /** With one slot of a value replaced, a sound schema still accepts. */
  lemma SoundAfterReplace(defs: Defs, rank: map<string, nat>, n: string, slots: seq<Val>, g: nat, w: Val, i: nat)
    requires World(defs, rank) && n in defs && defs[n].Struct? && SchemaSound(defs, rank, n) && SlotsTyped(defs, rank, n, slots)
    requires g < |slots| && SlotTyped(defs, rank, n, g, w) && i < |slots|
    ensures SlotsTyped(defs, rank, n, slots[g := w])
    ensures FieldFits(defs, rank, n, i, Members(defs, rank, n, slots[g := w], |slots|))
  {
    ReplaceSlot(defs, rank, n, slots, g, w);
    StructValid(defs, rank, n, Members(defs, rank, n, slots[g := w], |slots|));
    assert EncodeUser(defs, rank, n, VRecord(slots[g := w])) == JObj(Members(defs, rank, n, slots[g := w], |slots|));
  }

  lemma RequiredIsWritten(defs: Defs, rank: map<string, nat>, n: string, slots: seq<Val>, i: nat)
    requires World(defs, rank) && n in defs && defs[n].Struct? && SchemaSound(defs, rank, n) && SlotsTyped(defs, rank, n, slots)
    requires i < |slots| && !defs[n].fields[i].skip && !IsOptionType(defs[n].fields[i].ty)
    ensures AlwaysWritten(defs[n].fields, i)
  {
    var fields := defs[n].fields;
    SoundAfterReplace(defs, rank, n, slots, i, slots[i], i);
    assert slots[i := slots[i]] == slots;
    MembersAre(defs, rank, n, slots, |slots|);
    var g :| 0 <= g < |slots| && Written(fields, slots, g) && fields[g].serdeName == fields[i].name;
    if fields[g].omit != Never {
      var w := OmittedSlot(defs, rank, n, g);
      SoundAfterReplace(defs, rank, n, slots, g, w, i);
      MembersAre(defs, rank, n, slots[g := w], |slots|);
      assert false;
    }
  }

  lemma ClashIsCovered(defs: Defs, rank: map<string, nat>, n: string, slots: seq<Val>, i: nat, g: nat)
    requires World(defs, rank) && n in defs && defs[n].Struct? && SchemaSound(defs, rank, n) && SlotsTyped(defs, rank, n, slots)
    requires i < |slots| && !defs[n].fields[i].skip && g < |slots| && defs[n].fields[g].serdeName == defs[n].fields[i].name
    ensures Covers(defs, rank, n, i, g)
  {
    SlotBelow(defs, rank, n, i);
    forall w | SlotTyped(defs, rank, n, g, w) && !Omits(defs[n].fields[g].omit, w)
      ensures Valid(Eval(defs, rank, rank[n], FieldExpr(defs[n].fields[i])), SlotEncode(defs, rank, n, g, w))
    {
      SoundAfterReplace(defs, rank, n, slots, g, w, i);
      MembersAre(defs, rank, n, slots[g := w], |slots|);
      assert Written(defs[n].fields, slots[g := w], g);
    }
  }

  /** The empty vector is a value of a one-or-many field. */
  lemma EmptyMany(defs: Defs, rank: map<string, nat>, n: string, i: nat) returns (w: Val)
    requires World(defs, rank) && n in defs && defs[n].Struct? && i < |defs[n].fields|
    requires defs[n].fields[i].vecOrOne
    ensures SlotTyped(defs, rank, n, i, w) && SlotEncode(defs, rank, n, i, w) == JArr([])
    ensures defs[n].fields[i].omit == Never || IsOptionType(defs[n].fields[i].ty) ==> !Omits(defs[n].fields[i].omit, w)
  {
    var f := defs[n].fields[i];
    SlotBelow(defs, rank, n, i);
    VecOrOneEval(defs, rank, rank[n], f);
    w := if VecOrOneOptional(f.ty) then VSome(VList([])) else VList([]);
    ManyValues(defs, rank, rank[n], f.ty, w);
    assert OmitFits(f);
  }

  lemma OneOrManyRefusesEmpty(defs: Defs, rank: map<string, nat>, k: nat, f: FieldDef)
    requires World(defs, rank) && FieldAccepted(f) && f.vecOrOne && Below(defs, rank, k, FieldExpr(f))
    requires VecInside(VecOrOneElement(f.ty).value)
    ensures !Valid(Eval(defs, rank, k, FieldExpr(f)), JArr([]))
  {
    VecOrOneEval(defs, rank, k, f);
    var elem := VecOrOneElement(f.ty).value;
    var s := Eval(defs, rank, k, ResolveSchema(elem).value);
    EmptyVecValid(defs, rank, k, elem);
    ArrayValid(s, JArr([]));
    OneOrManyValid(s, JArr([]));
    NullableValid(OneOrMany(s), JArr([]));
  }

  lemma OneOrManyHasNoVec(defs: Defs, rank: map<string, nat>, n: string, slots: seq<Val>, i: nat)
    requires World(defs, rank) && n in defs && defs[n].Struct? && SchemaSound(defs, rank, n) && SlotsTyped(defs, rank, n, slots)
    requires i < |slots| && defs[n].fields[i].vecOrOne && !defs[n].fields[i].skip && defs[n].fields[i].serdeName == defs[n].fields[i].name
    ensures VecOrOneElement(defs[n].fields[i].ty).Some? && !VecInside(VecOrOneElement(defs[n].fields[i].ty).value)
  {
    var fields := defs[n].fields;
    SlotBelow(defs, rank, n, i);
    var w := EmptyMany(defs, rank, n, i);
    if !IsOptionType(fields[i].ty) {
      RequiredIsWritten(defs, rank, n, slots, i);
      assert fields[i].omit == Never;
    }
    ClashIsCovered(defs, rank, n, slots, i, i);
    if VecInside(VecOrOneElement(fields[i].ty).value) { OneOrManyRefusesEmpty(defs, rank, rank[n], fields[i]); }
  }

  lemma SoundStructIsFaithful(defs: Defs, rank: map<string, nat>, n: string, slots: seq<Val>)
    requires World(defs, rank) && n in defs && defs[n].Struct? && SchemaSound(defs, rank, n) && SlotsTyped(defs, rank, n, slots)
    ensures StructFaithful(defs, rank, n)
  {
    var fields := defs[n].fields;
    forall i | 0 <= i < |fields| && !fields[i].skip ensures FieldFaithful(defs, rank, n, i) {
      if !IsOptionType(fields[i].ty) { RequiredIsWritten(defs, rank, n, slots, i); }
      forall g | 0 <= g < |fields| && g != i && fields[g].serdeName == fields[i].name ensures Covers(defs, rank, n, i, g) {
        ClashIsCovered(defs, rank, n, slots, i, g);
      }
      if fields[i].serdeName == fields[i].name && fields[i].vecOrOne { OneOrManyHasNoVec(defs, rank, n, slots, i); }
    }
  }

  /** A struct that has a value, over faithful definitions, is sound exactly when its fields are
      faithful: every required field is always written under its Rust name, what else is written
      under a declared name fits, and one-or-many fields do not hold vectors of vectors. */
  lemma StructSoundIff(defs: Defs, rank: map<string, nat>, n: string)
    requires World(defs, rank) && n in defs && defs[n].Struct? && HasValue(defs, rank, n) && FaithfulBelow(defs, rank, rank[n])
    ensures SchemaSound(defs, rank, n) <==> StructFaithful(defs, rank, n)
  {
    var v :| TypedUser(defs, rank, n, v);
    if SchemaSound(defs, rank, n) { SoundStructIsFaithful(defs, rank, n, v.slots); }
    if StructFaithful(defs, rank, n) {
      forall v | TypedUser(defs, rank, n, v) ensures Valid(Inline(defs, rank, n), EncodeUser(defs, rank, n, v)) {
        StructSchemaSound(defs, rank, n, v.slots);
      }
    }
  }

  /** An enum's schema accepts all its encodings exactly when every serde name is the wire string
      of some variant that is not skipped. */
  lemma EnumSoundIff(defs: Defs, rank: map<string, nat>, n: string)
    requires World(defs, rank) && n in defs && defs[n].Enum?
    ensures SchemaSound(defs, rank, n) <==> WiresComplete(defs[n].variants)
  {
    if SchemaSound(defs, rank, n) { SoundEnumIsComplete(defs, rank, n); }
    if WiresComplete(defs[n].variants) {
      forall v | TypedUser(defs, rank, n, v) ensures Valid(Inline(defs, rank, n), EncodeUser(defs, rank, n, v)) {
        EnumValid(defs, rank, n, EncodeUser(defs, rank, n, v));
      }
    }
  }

  lemma SoundIsFaithful(defs: Defs, rank: map<string, nat>, n: string)
    requires World(defs, rank) && n in defs && SchemaSound(defs, rank, n)
    ensures DefFaithful(defs, rank, n)
  {
    if defs[n].Enum? {
      SoundEnumIsComplete(defs, rank, n);
    } else if defs[n].Struct? && HasValue(defs, rank, n) {
      var v :| TypedUser(defs, rank, n, v);
      SoundStructIsFaithful(defs, rank, n, v.slots);
    }
  }

  /** For every acyclic set of derived types: all generated schemas accept all that serde writes
      exactly when every definition is faithful. */
  lemma WorldSoundIff(defs: Defs, rank: map<string, nat>)
    requires World(defs, rank)
    ensures (forall n :: n in defs ==> SchemaSound(defs, rank, n)) <==> (forall n :: n in defs ==> DefFaithful(defs, rank, n))
  {
    if forall n :: n in defs ==> SchemaSound(defs, rank, n) {
      forall n | n in defs ensures DefFaithful(defs, rank, n) {
        SoundIsFaithful(defs, rank, n);
      }
    }
    if forall n :: n in defs ==> DefFaithful(defs, rank, n) {
      forall n | n in defs ensures SchemaSound(defs, rank, n) {
        forall v | TypedUser(defs, rank, n, v) ensures Valid(Inline(defs, rank, n), EncodeUser(defs, rank, n, v)) {
          DerivedSchemaSound(defs, rank, n, v);
        }
      }
    }
  }
}
