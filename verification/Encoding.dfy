/** The values of a type, and the JSON serde writes for each. Unions are untagged. */
module Encoding {
  import opened Options
  import opened RustTypes
  import opened JsonSchema
  import opened SerdeValues
  import opened Derive

  /** The type's own schema expression can be evaluated below rank `k`. */
  ghost predicate Usable(defs: Defs, rank: map<string, nat>, k: nat, ty: Ty) {
    ResolveSchema(ty).Some? && Below(defs, rank, k, ResolveSchema(ty).value)
  }

  lemma VecOrOneResolves(ty: Ty)
    requires VecOrOneElement(ty).Some? && ResolveSchema(VecOrOneElement(ty).value).Some?
    ensures var e := ResolveSchema(VecOrOneElement(ty).value).value;
            ResolveSchema(ty) == Some(if VecOrOneOptional(ty) then ENullable(EArray(e)) else EArray(e))
  {
    PeelRefsInvisible(ty);
    var t := PeelRefs(ty);
    if t.id == OptionId { PeelRefsInvisible(SingleArg(t.args).value); }
  }

  lemma PlainFieldUsable(defs: Defs, rank: map<string, nat>, k: nat, f: FieldDef)
    requires FieldAccepted(f) && !Opaque(f) && Below(defs, rank, k, FieldExpr(f))
    ensures Usable(defs, rank, k, f.ty)
    ensures f.vecOrOne ==> Usable(defs, rank, k, VecOrOneElement(f.ty).value)
  {
    if f.vecOrOne {
      var elem := VecOrOneElement(f.ty).value;
      ResolversAgree(elem);
      VecOrOneResolves(f.ty);
      var e := ResolveSchema(elem).value;
      assert Inlined(EOneOrMany(e)) == Inlined(e) == Inlined(ENullable(EOneOrMany(e)));
      assert Inlined(EArray(e)) == Inlined(e) == Inlined(ENullable(EArray(e)));
    } else {
      ResolversAgree(f.ty);
    }
  }

  lemma {:induction false} FieldBelow(defs: Defs, rank: map<string, nat>, k: nat, fs: seq<FieldDef>, i: nat)
    requires i < |fs| && !fs[i].skip
    requires forall m :: 0 <= m < |SchemaFields(fs)| ==> Below(defs, rank, k, SchemaFields(fs)[m].expr)
    ensures Below(defs, rank, k, FieldExpr(fs[i]))
    ensures SchemaField(fs[i].name, FieldExpr(fs[i]), !IsOptionType(fs[i].ty)) in SchemaFields(fs)
  {
    var front, last := fs[..|fs| - 1], SchemaFields(fs)[|SchemaFields(fs[..|fs| - 1])|..];
    assert SchemaFields(fs) == SchemaFields(front) + last;
    if i < |fs| - 1 {
      forall m | 0 <= m < |SchemaFields(front)| ensures Below(defs, rank, k, SchemaFields(front)[m].expr) {
        assert SchemaFields(front)[m] == SchemaFields(fs)[m];
      }
      FieldBelow(defs, rank, k, front, i);
    } else {
      assert SchemaFields(fs)[|SchemaFields(front)|].expr == FieldExpr(fs[i]);
    }
  }

  lemma {:induction false} SchemaFieldOrigin(fs: seq<FieldDef>, m: nat) returns (i: nat)
    requires m < |SchemaFields(fs)|
    ensures i < |fs| && !fs[i].skip
    ensures SchemaFields(fs)[m] == SchemaField(fs[i].name, FieldExpr(fs[i]), !IsOptionType(fs[i].ty))
  {
    var front := fs[..|fs| - 1];
    if m < |SchemaFields(front)| {
      i := SchemaFieldOrigin(front, m);
    } else {
      i := |fs| - 1;
    }
  }

  lemma SlotBelow(defs: Defs, rank: map<string, nat>, n: string, i: nat)
    requires World(defs, rank) && n in defs && defs[n].Struct? && i < |defs[n].fields|
    ensures FieldAccepted(defs[n].fields[i])
    ensures !defs[n].fields[i].skip ==> Below(defs, rank, rank[n], FieldExpr(defs[n].fields[i]))
  {
    FieldsBelow(defs, rank, n);
    if !defs[n].fields[i].skip { FieldBelow(defs, rank, rank[n], defs[n].fields, i); }
  }

  // Values.

  function NatText(n: nat): string {
    if n < 10 then [('0' as int + n) as char] else NatText(n / 10) + [('0' as int + n % 10) as char]
  }

  function IntText(n: int): string {
    if n < 0 then "-" + NatText(-n) else NatText(n)
  }

  /** `s` is what serde writes for some key of type `ty`: integers and booleans in decimal and by name,
      enum variants by their serde names; vectors, maps and structs cannot be keys. Types the macro
      does not know may be written in any way. */
  ghost predicate KeyText(defs: Defs, rank: map<string, nat>, ty: Ty, s: string)
    requires World(defs, rank)
  {
    match ty
    case Ref(e) => KeyText(defs, rank, e, s)
    case OtherTy => true
    case Path(id, args) =>
      match id
      case BoolId => s == "true" || s == "false"
      case IntId(kind) => exists n :: IntFits(kind, n) && IntText(n) == s
      case OptionId => SingleArg(args).Some? ==> KeyText(defs, rank, SingleArg(args).value, s)
      case BoxId => SingleArg(args).Some? ==> KeyText(defs, rank, SingleArg(args).value, s)
      case UserId(n) => args == NoArgs && n in defs ==> KeyTextUser(defs, rank, n, s)
      case _ => id == StringId || id == ValueId
  }

  ghost predicate KeyTextUser(defs: Defs, rank: map<string, nat>, n: string, s: string)
    requires World(defs, rank) && n in defs
    decreases rank[n]
  {
    match defs[n]
    case Struct(_) => false
    case Enum(vs) => exists i :: 0 <= i < |vs| && vs[i].serdeWire == s
    case Union(names) =>
      assert forall i :: 0 <= i < |names| ==> Calls(defs[n], names[i]);
      exists i :: 0 <= i < |names| && KeyTextUser(defs, rank, names[i], s)
  }

  /** Floats are finite; `Value` and types the macro does not know may be anything. */
  ghost predicate Typed(defs: Defs, rank: map<string, nat>, k: nat, ty: Ty, v: Val)
    requires World(defs, rank) && Usable(defs, rank, k, ty)
    decreases k, 0, ty
  {
    match ty
    case Ref(e) => Typed(defs, rank, k, e, v)
    case Path(id, args) =>
      match id
      case StringId => v.VStr?
      case BoolId => v.VBool?
      case IntId(kind) => v.VNum? && v.r == v.r.Floor as real && IntFits(kind, v.r.Floor)
      case FloatId => v.VNum?
      case ValueId => v.VJson?
      case OptionId => v.VNone? || (v.VSome? && Typed(defs, rank, k, SingleArg(args).value, v.inner))
      case VecId => v.VList? && forall i :: 0 <= i < |v.vs| ==> Typed(defs, rank, k, SingleArg(args).value, v.vs[i])
      case MapId =>
        v.VDict? && forall n :: n in v.entries ==>
          KeyText(defs, rank, TwoArgs(args).value.0, n) && Typed(defs, rank, k, TwoArgs(args).value.1, v.entries[n])
      case BoxId => Typed(defs, rank, k, SingleArg(args).value, v)
      case UserId(n) => if args == NoArgs then TypedUser(defs, rank, n, v) else v.VJson?
  }

  ghost predicate FieldTyped(defs: Defs, rank: map<string, nat>, k: nat, f: FieldDef, v: Val)
    requires World(defs, rank) && FieldAccepted(f) && (!f.skip ==> Below(defs, rank, k, FieldExpr(f)))
    decreases k, 1
  {
    if Opaque(f) then v.VJson?
    else
      PlainFieldUsable(defs, rank, k, f);
      Typed(defs, rank, k, f.ty, v)
  }

  /** `v` is a value for field `i` of struct `n`. */
  ghost predicate SlotTyped(defs: Defs, rank: map<string, nat>, n: string, i: nat, v: Val)
    requires World(defs, rank) && n in defs && defs[n].Struct? && i < |defs[n].fields|
    decreases rank[n], 2
  {
    SlotBelow(defs, rank, n, i);
    FieldTyped(defs, rank, rank[n], defs[n].fields[i], v)
  }

  ghost predicate SlotsTyped(defs: Defs, rank: map<string, nat>, n: string, slots: seq<Val>)
    requires World(defs, rank) && n in defs && defs[n].Struct?
    decreases rank[n], 3
  {
    |slots| == |defs[n].fields| && forall i :: 0 <= i < |slots| ==> SlotTyped(defs, rank, n, i, slots[i])
  }

  /** `v` is a value of the derived type `n`. */
  ghost predicate TypedUser(defs: Defs, rank: map<string, nat>, n: string, v: Val)
    requires World(defs, rank) && n in defs
    decreases rank[n], 4
  {
    match defs[n]
    case Struct(fields) => v.VRecord? && SlotsTyped(defs, rank, n, v.slots)
    case Enum(vs) => v.VVariant? && v.index < |vs|
    case Union(names) =>
      assert forall i :: 0 <= i < |names| ==> Calls(defs[n], names[i]);
      v.VAlt? && v.choice < |names| && TypedUser(defs, rank, names[v.choice], v.chosen)
  }

  ghost predicate HasValue(defs: Defs, rank: map<string, nat>, n: string)
    requires World(defs, rank) && n in defs
  {
    exists v :: TypedUser(defs, rank, n, v)
  }

  // What serde writes.

  ghost function Encode(defs: Defs, rank: map<string, nat>, k: nat, ty: Ty, v: Val): Json
    requires World(defs, rank) && Usable(defs, rank, k, ty) && Typed(defs, rank, k, ty, v)
    decreases k, 0, ty, 0
  {
    match ty
    case Ref(e) => Encode(defs, rank, k, e, v)
    case Path(id, args) =>
      match id
      case StringId => JStr(v.s)
      case BoolId => JBool(v.b)
      case IntId(_) => JNum(v.r)
      case FloatId => JNum(v.r)
      case ValueId => v.json
      case OptionId => if v.VNone? then JNull else Encode(defs, rank, k, SingleArg(args).value, v.inner)
      case VecId => EncodeList(defs, rank, k, SingleArg(args).value, v.vs)
      case MapId => EncodeDict(defs, rank, k, TwoArgs(args).value.1, v.entries)
      case BoxId => Encode(defs, rank, k, SingleArg(args).value, v)
      case UserId(n) => if args == NoArgs then EncodeUser(defs, rank, n, v) else v.json
  }

  ghost function EncodeList(defs: Defs, rank: map<string, nat>, k: nat, t: Ty, vs: seq<Val>): Json
    requires World(defs, rank) && Usable(defs, rank, k, t)
    requires forall i :: 0 <= i < |vs| ==> Typed(defs, rank, k, t, vs[i])
    decreases k, 0, t, 1
  {
    JArr(seq(|vs|, i requires 0 <= i < |vs| => Encode(defs, rank, k, t, vs[i])))
  }

  ghost function EncodeDict(defs: Defs, rank: map<string, nat>, k: nat, t: Ty, entries: map<string, Val>): Json
    requires World(defs, rank) && Usable(defs, rank, k, t)
    requires forall n :: n in entries ==> Typed(defs, rank, k, t, entries[n])
    decreases k, 0, t, 1
  {
    JObj(map n | n in entries :: Encode(defs, rank, k, t, entries[n]))
  }

  ghost function FieldEncode(defs: Defs, rank: map<string, nat>, k: nat, f: FieldDef, v: Val): Json
    requires World(defs, rank) && FieldAccepted(f) && (!f.skip ==> Below(defs, rank, k, FieldExpr(f)))
    requires FieldTyped(defs, rank, k, f, v)
    decreases k, 1
  {
    if Opaque(f) then v.json
    else
      PlainFieldUsable(defs, rank, k, f);
      Encode(defs, rank, k, f.ty, v)
  }

  ghost function SlotEncode(defs: Defs, rank: map<string, nat>, n: string, i: nat, v: Val): Json
    requires World(defs, rank) && n in defs && defs[n].Struct? && i < |defs[n].fields| && SlotTyped(defs, rank, n, i, v)
    decreases rank[n], 2
  {
    SlotBelow(defs, rank, n, i);
    FieldEncode(defs, rank, rank[n], defs[n].fields[i], v)
  }

  /** The members written for the first `i` fields. */
  ghost function Members(defs: Defs, rank: map<string, nat>, n: string, slots: seq<Val>, i: nat): map<string, Json>
    requires World(defs, rank) && n in defs && defs[n].Struct? && SlotsTyped(defs, rank, n, slots) && i <= |slots|
    decreases rank[n], 3, i
  {
    if i == 0 then map[]
    else
      var f, before := defs[n].fields[i - 1], Members(defs, rank, n, slots, i - 1);
      if Omits(f.omit, slots[i - 1]) then before
      else before[f.serdeName := SlotEncode(defs, rank, n, i - 1, slots[i - 1])]
  }

  ghost function EncodeUser(defs: Defs, rank: map<string, nat>, n: string, v: Val): Json
    requires World(defs, rank) && n in defs && TypedUser(defs, rank, n, v)
    decreases rank[n], 4
  {
    match defs[n]
    case Struct(fields) => JObj(Members(defs, rank, n, v.slots, |fields|))
    case Enum(vs) => JStr(vs[v.index].serdeWire)
    case Union(names) =>
      assert Calls(defs[n], names[v.choice]);
      EncodeUser(defs, rank, names[v.choice], v.chosen)
  }

  ghost predicate IsEncoding(defs: Defs, rank: map<string, nat>, n: string, j: Json)
    requires World(defs, rank) && n in defs
  {
    exists v :: TypedUser(defs, rank, n, v) && EncodeUser(defs, rank, n, v) == j
  }

  /** Slot `m` of the record is written. */
  ghost predicate Written(fields: seq<FieldDef>, slots: seq<Val>, m: int) {
    0 <= m < |fields| && m < |slots| && !Omits(fields[m].omit, slots[m])
  }

  ghost predicate WrittenUnder(fields: seq<FieldDef>, slots: seq<Val>, i: int, key: string) {
    exists m :: 0 <= m < i && Written(fields, slots, m) && fields[m].serdeName == key
  }

  lemma {:induction false} MemberKey(defs: Defs, rank: map<string, nat>, n: string, slots: seq<Val>, i: nat, key: string)
    requires World(defs, rank) && n in defs && defs[n].Struct? && SlotsTyped(defs, rank, n, slots) && i <= |slots|
    ensures key in Members(defs, rank, n, slots, i) <==> WrittenUnder(defs[n].fields, slots, i, key)
  {
    if i > 0 { MemberKey(defs, rank, n, slots, i - 1, key); }
  }

  lemma {:induction false} MemberValue(defs: Defs, rank: map<string, nat>, n: string, slots: seq<Val>, i: nat, m: nat)
    requires World(defs, rank) && n in defs && defs[n].Struct? && SlotsTyped(defs, rank, n, slots) && m < i <= |slots|
    requires Written(defs[n].fields, slots, m)
    ensures defs[n].fields[m].serdeName in Members(defs, rank, n, slots, i)
    ensures Members(defs, rank, n, slots, i)[defs[n].fields[m].serdeName] == SlotEncode(defs, rank, n, m, slots[m])
  {
    if m < i - 1 {
      MemberValue(defs, rank, n, slots, i - 1, m);
      assert defs[n].fields[m].serdeName != defs[n].fields[i - 1].serdeName;
    }
  }

  /** A struct's object is closed: its keys are those of the fields written, each with the
      encoding of its slot. */
  lemma MembersAre(defs: Defs, rank: map<string, nat>, n: string, slots: seq<Val>, i: nat)
    requires World(defs, rank) && n in defs && defs[n].Struct? && SlotsTyped(defs, rank, n, slots) && i <= |slots|
    ensures forall key :: key in Members(defs, rank, n, slots, i) <==> WrittenUnder(defs[n].fields, slots, i, key)
    ensures forall m :: 0 <= m < i && Written(defs[n].fields, slots, m) ==>
              && defs[n].fields[m].serdeName in Members(defs, rank, n, slots, i)
              && Members(defs, rank, n, slots, i)[defs[n].fields[m].serdeName] == SlotEncode(defs, rank, n, m, slots[m])
  {
    forall key { MemberKey(defs, rank, n, slots, i, key); }
    forall m | 0 <= m < i && Written(defs[n].fields, slots, m)
      ensures defs[n].fields[m].serdeName in Members(defs, rank, n, slots, i)
      ensures Members(defs, rank, n, slots, i)[defs[n].fields[m].serdeName] == SlotEncode(defs, rank, n, m, slots[m])
    {
      MemberValue(defs, rank, n, slots, i, m);
    }
  }

  /** Any slot of a value may be replaced by another value of its field. */
  lemma ReplaceSlot(defs: Defs, rank: map<string, nat>, n: string, slots: seq<Val>, g: nat, w: Val)
    requires World(defs, rank) && n in defs && defs[n].Struct? && SlotsTyped(defs, rank, n, slots)
    requires g < |slots| && SlotTyped(defs, rank, n, g, w)
    ensures SlotsTyped(defs, rank, n, slots[g := w]) && TypedUser(defs, rank, n, VRecord(slots[g := w]))
  {
  }

  /** A field with an omission attribute has a value that is left out. */
  lemma OmittedSlot(defs: Defs, rank: map<string, nat>, n: string, g: nat) returns (w: Val)
    requires World(defs, rank) && n in defs && defs[n].Struct? && g < |defs[n].fields| && defs[n].fields[g].omit != Never
    ensures SlotTyped(defs, rank, n, g, w) && Omits(defs[n].fields[g].omit, w)
  {
    var f := defs[n].fields[g];
    SlotBelow(defs, rank, n, g);
    assert OmitFits(f);
    if Opaque(f) {
      w := VJson(if f.omit == WhenEmpty then JArr([]) else JNull);
    } else {
      PlainFieldUsable(defs, rank, rank[n], f);
      w := if f.omit != WhenEmpty then VNone
           else if f.ty.id == VecId then VList([])
           else if f.ty.id == MapId then VDict(map[])
           else VStr("");
    }
  }

  // One-or-many fields hold a vector or an optional vector.

  function ManyOf(v: Val): Option<seq<Val>> {
    match v
    case VList(vs) => Some(vs)
    case VSome(VList(vs)) => Some(vs)
    case _ => None
  }

  lemma {:induction false} PeelTyped(defs: Defs, rank: map<string, nat>, k: nat, ty: Ty, v: Val)
    requires World(defs, rank) && Usable(defs, rank, k, ty)
    ensures Usable(defs, rank, k, PeelRefs(ty))
    ensures Typed(defs, rank, k, ty, v) <==> Typed(defs, rank, k, PeelRefs(ty), v)
    ensures Typed(defs, rank, k, ty, v) ==> Encode(defs, rank, k, ty, v) == Encode(defs, rank, k, PeelRefs(ty), v)
  {
    PeelRefsInvisible(ty);
    if ty.Ref? { PeelTyped(defs, rank, k, ty.elem, v); }
  }

  ghost predicate AllTyped(defs: Defs, rank: map<string, nat>, k: nat, t: Ty, vs: seq<Val>)
    requires World(defs, rank) && Usable(defs, rank, k, t)
  {
    forall i :: 0 <= i < |vs| ==> Typed(defs, rank, k, t, vs[i])
  }

  lemma VecValues(defs: Defs, rank: map<string, nat>, k: nat, ty: Ty, elem: Ty, v: Val)
    requires World(defs, rank) && Usable(defs, rank, k, ty) && Usable(defs, rank, k, elem)
    requires PeelRefs(ty).Path? && PeelRefs(ty).id == VecId && SingleArg(PeelRefs(ty).args) == Some(elem)
    ensures Typed(defs, rank, k, ty, v) <==> v.VList? && AllTyped(defs, rank, k, elem, v.vs)
    ensures Typed(defs, rank, k, ty, v) ==> Encode(defs, rank, k, ty, v) == EncodeList(defs, rank, k, elem, v.vs)
  {
    PeelTyped(defs, rank, k, ty, v);
  }

  /** The values of a one-or-many field and what serde writes for them. */
  lemma ManyValues(defs: Defs, rank: map<string, nat>, k: nat, ty: Ty, v: Val)
    requires World(defs, rank) && VecOrOneElement(ty).Some? && Usable(defs, rank, k, ty)
    requires Usable(defs, rank, k, VecOrOneElement(ty).value)
    ensures var elem := VecOrOneElement(ty).value;
            Typed(defs, rank, k, ty, v) <==>
              if VecOrOneOptional(ty) then v == VNone || (v.VSome? && v.inner.VList? && AllTyped(defs, rank, k, elem, v.inner.vs))
              else v.VList? && AllTyped(defs, rank, k, elem, v.vs)
    ensures Typed(defs, rank, k, ty, v) && ManyOf(v) == None ==> Encode(defs, rank, k, ty, v) == JNull
    ensures Typed(defs, rank, k, ty, v) && ManyOf(v).Some? ==>
              Encode(defs, rank, k, ty, v) == EncodeList(defs, rank, k, VecOrOneElement(ty).value, ManyOf(v).value)
  {
    if VecOrOneOptional(ty) {
      OptionalManyValues(defs, rank, k, ty, v);
    } else {
      VecValues(defs, rank, k, ty, VecOrOneElement(ty).value, v);
    }
  }

  lemma OptionalManyValues(defs: Defs, rank: map<string, nat>, k: nat, ty: Ty, v: Val)
    requires World(defs, rank) && VecOrOneElement(ty).Some? && VecOrOneOptional(ty) && Usable(defs, rank, k, ty)
    requires Usable(defs, rank, k, VecOrOneElement(ty).value)
    ensures Typed(defs, rank, k, ty, v) <==>
              v == VNone || (v.VSome? && v.inner.VList? && AllTyped(defs, rank, k, VecOrOneElement(ty).value, v.inner.vs))
    ensures v == VNone ==> Encode(defs, rank, k, ty, v) == JNull
    ensures Typed(defs, rank, k, ty, v) && v != VNone ==>
              Encode(defs, rank, k, ty, v) == EncodeList(defs, rank, k, VecOrOneElement(ty).value, v.inner.vs)
  {
    PeelTyped(defs, rank, k, ty, v);
    if v.VSome? { VecValues(defs, rank, k, SingleArg(PeelRefs(ty).args).value, VecOrOneElement(ty).value, v.inner); }
  }
}
