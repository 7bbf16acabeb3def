/** When the generated schema accepts nothing but what serde writes. */
module SchemaTightness {
  import opened Options
  import opened Orders
  import opened RustTypes
  import opened JsonSchema
  import opened SerdeValues
  import opened Derive
  import opened Encoding
  import opened SchemaSoundness
  import opened SchemaExactness
  import opened SchemaFaults

  ghost predicate Tight(defs: Defs, rank: map<string, nat>, n: string)
    requires World(defs, rank) && n in defs
  {
    forall j :: Valid(Inline(defs, rank, n), j) ==> IsEncoding(defs, rank, n, j)
  }

  lemma MembersBelow(defs: Defs, rank: map<string, nat>, n: string)
    requires World(defs, rank) && n in defs && defs[n].Union?
    ensures forall i :: 0 <= i < |defs[n].names| ==> defs[n].names[i] in defs && rank[defs[n].names[i]] < rank[n]
  {
    forall i | 0 <= i < |defs[n].names| ensures defs[n].names[i] in defs && rank[defs[n].names[i]] < rank[n] {
      assert Calls(defs[n], defs[n].names[i]);
    }
  }

  /** The structs and enums a union stands for. */
  ghost function Leaves(defs: Defs, rank: map<string, nat>, n: string): (ls: set<string>)
    requires World(defs, rank) && n in defs
    ensures forall m :: m in ls ==> m in defs && !defs[m].Union?
    decreases rank[n]
  {
    if !defs[n].Union? then {n}
    else
      MembersBelow(defs, rank, n);
      set i, m | 0 <= i < |defs[n].names| && m in Leaves(defs, rank, defs[n].names[i]) :: m
  }

  ghost predicate SomeValid(defs: Defs, rank: map<string, nat>, ls: set<string>, j: Json)
    requires World(defs, rank) && ls <= defs.Keys
  {
    exists m :: m in ls && Valid(Inline(defs, rank, m), j)
  }

  ghost predicate SomeEncoding(defs: Defs, rank: map<string, nat>, ls: set<string>, j: Json)
    requires World(defs, rank) && ls <= defs.Keys
  {
    exists m :: m in ls && IsEncoding(defs, rank, m, j)
  }

  lemma LeavesOfUnion(defs: Defs, rank: map<string, nat>, n: string)
    requires World(defs, rank) && n in defs && defs[n].Union?
    ensures forall i :: 0 <= i < |defs[n].names| ==> defs[n].names[i] in defs && Leaves(defs, rank, defs[n].names[i]) <= Leaves(defs, rank, n)
    ensures forall m :: m in Leaves(defs, rank, n) ==>
              exists i :: 0 <= i < |defs[n].names| && defs[n].names[i] in defs && m in Leaves(defs, rank, defs[n].names[i])
  {
    MembersBelow(defs, rank, n);
  }

  lemma SomeValidOfUnion(defs: Defs, rank: map<string, nat>, n: string, j: Json)
    requires World(defs, rank) && n in defs && defs[n].Union?
    ensures forall i :: 0 <= i < |defs[n].names| ==> defs[n].names[i] in defs
    ensures SomeValid(defs, rank, Leaves(defs, rank, n), j) <==>
              exists i :: 0 <= i < |defs[n].names| && SomeValid(defs, rank, Leaves(defs, rank, defs[n].names[i]), j)
  {
    LeavesOfUnion(defs, rank, n);
  }

  lemma SomeEncodingOfUnion(defs: Defs, rank: map<string, nat>, n: string, j: Json)
    requires World(defs, rank) && n in defs && defs[n].Union?
    ensures forall i :: 0 <= i < |defs[n].names| ==> defs[n].names[i] in defs
    ensures SomeEncoding(defs, rank, Leaves(defs, rank, n), j) <==>
              exists i :: 0 <= i < |defs[n].names| && SomeEncoding(defs, rank, Leaves(defs, rank, defs[n].names[i]), j)
  {
    LeavesOfUnion(defs, rank, n);
  }

  lemma {:induction false} LeafValid(defs: Defs, rank: map<string, nat>, n: string, j: Json)
    requires World(defs, rank) && n in defs
    ensures Valid(Inline(defs, rank, n), j) <==> SomeValid(defs, rank, Leaves(defs, rank, n), j)
    decreases rank[n]
  {
    if defs[n].Union? {
      UnionValid(defs, rank, n, j);
      SomeValidOfUnion(defs, rank, n, j);
      forall i | 0 <= i < |defs[n].names|
        ensures Valid(Inline(defs, rank, defs[n].names[i]), j) <==> SomeValid(defs, rank, Leaves(defs, rank, defs[n].names[i]), j)
      {
        LeafValid(defs, rank, defs[n].names[i], j);
      }
    }
  }

  lemma UnionEncoding(defs: Defs, rank: map<string, nat>, n: string, j: Json)
    requires World(defs, rank) && n in defs && defs[n].Union?
    ensures forall i :: 0 <= i < |defs[n].names| ==> defs[n].names[i] in defs && rank[defs[n].names[i]] < rank[n]
    ensures IsEncoding(defs, rank, n, j) <==>
              exists i :: 0 <= i < |defs[n].names| && IsEncoding(defs, rank, defs[n].names[i], j)
  {
    MembersBelow(defs, rank, n);
    if i :| 0 <= i < |defs[n].names| && IsEncoding(defs, rank, defs[n].names[i], j) {
      var v :| TypedUser(defs, rank, defs[n].names[i], v) && EncodeUser(defs, rank, defs[n].names[i], v) == j;
      assert EncodeUser(defs, rank, n, VAlt(i, v)) == j;
    }
    if IsEncoding(defs, rank, n, j) {
      var v :| TypedUser(defs, rank, n, v) && EncodeUser(defs, rank, n, v) == j;
      var m := defs[n].names[v.choice];
      assert TypedUser(defs, rank, m, v.chosen) && EncodeUser(defs, rank, m, v.chosen) == j;
      assert IsEncoding(defs, rank, m, j);
    }
  }

  lemma {:induction false} LeafEncoding(defs: Defs, rank: map<string, nat>, n: string, j: Json)
    requires World(defs, rank) && n in defs
    ensures IsEncoding(defs, rank, n, j) <==> SomeEncoding(defs, rank, Leaves(defs, rank, n), j)
    decreases rank[n]
  {
    if defs[n].Union? {
      UnionEncoding(defs, rank, n, j);
      SomeEncodingOfUnion(defs, rank, n, j);
      forall i | 0 <= i < |defs[n].names|
        ensures IsEncoding(defs, rank, defs[n].names[i], j) <==> SomeEncoding(defs, rank, Leaves(defs, rank, defs[n].names[i]), j)
      {
        LeafEncoding(defs, rank, defs[n].names[i], j);
      }
    }
  }

  /** Every name that a struct among `ls` declares or that serde writes for it. */
  ghost function Known(defs: Defs, ls: set<string>): set<string> {
    (set m, i | m in ls && m in defs && defs[m].Struct? && 0 <= i < |defs[m].fields| :: defs[m].fields[i].name)
    + (set m, i | m in ls && m in defs && defs[m].Struct? && 0 <= i < |defs[m].fields| :: defs[m].fields[i].serdeName)
  }

  /** An undeclared member does not matter to a struct's schema. */
  lemma ExtraMemberIsValid(defs: Defs, rank: map<string, nat>, n: string, members: map<string, Json>, extra: string)
    requires World(defs, rank) && n in defs && defs[n].Struct? && Valid(Inline(defs, rank, n), JObj(members))
    requires forall i :: 0 <= i < |defs[n].fields| ==> defs[n].fields[i].name != extra
    ensures Valid(Inline(defs, rank, n), JObj(members[extra := JNull]))
  {
    var wider := members[extra := JNull];
    StructValid(defs, rank, n, members);
    StructValid(defs, rank, n, wider);
    forall i | 0 <= i < |defs[n].fields| ensures FieldFits(defs, rank, n, i, wider) {
      assert FieldFits(defs, rank, n, i, members);
    }
  }

  /** ... but serde never writes it. */
  lemma ExtraMemberIsNoEncoding(defs: Defs, rank: map<string, nat>, n: string, members: map<string, Json>, extra: string)
    requires World(defs, rank) && n in defs && !defs[n].Union? && extra in members
    requires defs[n].Struct? ==> forall i :: 0 <= i < |defs[n].fields| ==> defs[n].fields[i].serdeName != extra
    ensures !IsEncoding(defs, rank, n, JObj(members))
  {
    if IsEncoding(defs, rank, n, JObj(members)) {
      var v :| TypedUser(defs, rank, n, v) && EncodeUser(defs, rank, n, v) == JObj(members);
      if defs[n].Struct? {
        assert SlotsTyped(defs, rank, n, v.slots);
        MembersAre(defs, rank, n, v.slots, |v.slots|);
        assert extra in Members(defs, rank, n, v.slots, |v.slots|);
      }
      assert false;
    }
  }

  lemma NoLeafWrites(defs: Defs, rank: map<string, nat>, ls: set<string>, members: map<string, Json>, extra: string)
    requires World(defs, rank) && (forall l :: l in ls ==> l in defs && !defs[l].Union?)
    requires extra in members && extra !in Known(defs, ls)
    ensures !SomeEncoding(defs, rank, ls, JObj(members))
  {
    forall l | l in ls ensures !IsEncoding(defs, rank, l, JObj(members)) {
      if defs[l].Struct? {
        forall i | 0 <= i < |defs[l].fields| ensures defs[l].fields[i].serdeName != extra {
          assert defs[l].fields[i].serdeName in Known(defs, ls);
        }
      }
      ExtraMemberIsNoEncoding(defs, rank, l, members, extra);
    }
  }

  /** So a union with a struct whose schema accepts anything at all is not tight. */
  lemma StructLeafIsLoose(defs: Defs, rank: map<string, nat>, n: string, m: string, j: Json)
    requires World(defs, rank) && n in defs && m in Leaves(defs, rank, n) && defs[m].Struct? && Valid(Inline(defs, rank, m), j)
    ensures !Tight(defs, rank, n)
  {
    var ls := Leaves(defs, rank, n);
    var extra := FreshName(Known(defs, ls));
    InlineKind(defs, rank, m);
    var wider := j.members[extra := JNull];
    forall i | 0 <= i < |defs[m].fields| ensures defs[m].fields[i].name != extra {
      assert defs[m].fields[i].name in Known(defs, ls);
    }
    ExtraMemberIsValid(defs, rank, m, j.members, extra);
    LeafValid(defs, rank, n, JObj(wider));
    NoLeafWrites(defs, rank, ls, wider, extra);
    LeafEncoding(defs, rank, n, JObj(wider));
  }

  ghost predicate WrittenBySome(defs: Defs, ls: set<string>, w: string) {
    exists m, i :: m in ls && m in defs && defs[m].Enum? && 0 <= i < |defs[m].variants| && defs[m].variants[i].serdeWire == w
  }

  /** No struct among the leaves whose schema accepts anything, and every wire string listed by a
      leaf is written by serde for some leaf. */
  ghost predicate OnlyEnums(defs: Defs, rank: map<string, nat>, n: string)
    requires World(defs, rank) && n in defs
  {
    forall m :: m in Leaves(defs, rank, n) ==>
      if defs[m].Struct? then forall j :: !Valid(Inline(defs, rank, m), j)
      else forall w :: w in Wires(defs[m].variants) ==> WrittenBySome(defs, Leaves(defs, rank, n), w)
  }

  lemma EnumEncoding(defs: Defs, rank: map<string, nat>, n: string, w: string)
    requires World(defs, rank) && n in defs && !defs[n].Union?
    ensures IsEncoding(defs, rank, n, JStr(w)) <==>
              defs[n].Enum? && exists i :: 0 <= i < |defs[n].variants| && defs[n].variants[i].serdeWire == w
  {
    if defs[n].Enum? {
      if i :| 0 <= i < |defs[n].variants| && defs[n].variants[i].serdeWire == w {
        assert EncodeUser(defs, rank, n, VVariant(i)) == JStr(w);
      }
    }
  }

  lemma TightIsOnlyEnums(defs: Defs, rank: map<string, nat>, n: string)
    requires World(defs, rank) && n in defs && Tight(defs, rank, n)
    ensures OnlyEnums(defs, rank, n)
  {
    var ls := Leaves(defs, rank, n);
    forall m | m in ls && defs[m].Struct? ensures forall j :: !Valid(Inline(defs, rank, m), j) {
      if j :| Valid(Inline(defs, rank, m), j) { StructLeafIsLoose(defs, rank, n, m, j); }
    }
    forall m, w | m in ls && !defs[m].Struct? && w in Wires(defs[m].variants) ensures WrittenBySome(defs, ls, w) {
      EnumValid(defs, rank, m, JStr(w));
      LeafValid(defs, rank, n, JStr(w));
      LeafEncoding(defs, rank, n, JStr(w));
      var l :| l in ls && IsEncoding(defs, rank, l, JStr(w));
      EnumEncoding(defs, rank, l, w);
    }
  }

  lemma OnlyEnumsIsTight(defs: Defs, rank: map<string, nat>, n: string)
    requires World(defs, rank) && n in defs && OnlyEnums(defs, rank, n)
    ensures Tight(defs, rank, n)
  {
    var ls := Leaves(defs, rank, n);
    forall j | Valid(Inline(defs, rank, n), j) ensures IsEncoding(defs, rank, n, j) {
      LeafValid(defs, rank, n, j);
      var m :| m in ls && Valid(Inline(defs, rank, m), j);
      EnumValid(defs, rank, m, j);
      assert WrittenBySome(defs, ls, j.s);
      var l, i :| l in ls && l in defs && defs[l].Enum? && 0 <= i < |defs[l].variants| && defs[l].variants[i].serdeWire == j.s;
      EnumEncoding(defs, rank, l, j.s);
      LeafEncoding(defs, rank, n, j);
    }
  }

  /** A derived type's schema accepts only what serde writes for it exactly when the type stands for
      enums alone, and among them serde writes every listed wire string. */
  lemma TightIff(defs: Defs, rank: map<string, nat>, n: string)
    requires World(defs, rank) && n in defs
    ensures Tight(defs, rank, n) <==> OnlyEnums(defs, rank, n)
  {
    if Tight(defs, rank, n) { TightIsOnlyEnums(defs, rank, n); }
    if OnlyEnums(defs, rank, n) { OnlyEnumsIsTight(defs, rank, n); }
  }

  /** For clean definitions that leaves: no struct with a value. */
  lemma CleanTightIff(defs: Defs, rank: map<string, nat>, n: string)
    requires World(defs, rank) && Clean(defs) && n in defs
    ensures Tight(defs, rank, n) <==> forall m :: m in Leaves(defs, rank, n) && defs[m].Struct? ==> !HasValue(defs, rank, m)
  {
    var ls := Leaves(defs, rank, n);
    TightIff(defs, rank, n);
    forall m, v | m in ls && defs[m].Struct? && TypedUser(defs, rank, m, v)
      ensures Valid(Inline(defs, rank, m), EncodeUser(defs, rank, m, v))
    {
      EncodingIsValid(defs, rank, m, v);
    }
    forall m, j | m in ls && defs[m].Struct? && Valid(Inline(defs, rank, m), j) ensures HasValue(defs, rank, m) {
      var v := UserHasValue(defs, rank, m, j);
    }
    forall m, w | m in ls && defs[m].Enum? && w in Wires(defs[m].variants) ensures WrittenBySome(defs, ls, w) {
      assert WiresWritten(defs[m].variants);
    }
  }

  lemma EncodingIsValid(defs: Defs, rank: map<string, nat>, n: string, v: Val)
    requires World(defs, rank) && Clean(defs) && n in defs && TypedUser(defs, rank, n, v)
    ensures Valid(Inline(defs, rank, n), EncodeUser(defs, rank, n, v))
  {
    UserEncodingShows(defs, rank, n, v);
    UserShownIsValid(defs, rank, n, v, EncodeUser(defs, rank, n, v));
  }

  // A schema that accepts anything is that of a type with a value.

  lemma {:induction false} TypeHasValue(defs: Defs, rank: map<string, nat>, k: nat, ty: Ty, j: Json) returns (v: Val)
    requires World(defs, rank) && Usable(defs, rank, k, ty) && Valid(Eval(defs, rank, k, ResolveSchema(ty).value), j)
    ensures Typed(defs, rank, k, ty, v)
    decreases k, 0, ty
  {
    match ty
    case Ref(e) => v := TypeHasValue(defs, rank, k, e, j);
    case Path(id, args) =>
      if id == BoxId { v := TypeHasValue(defs, rank, k, SingleArg(args).value, j); }
      else if id.UserId? && args == NoArgs { v := UserHasValue(defs, rank, id.name, j); }
      else {
        v := if id == StringId then VStr("") else if id == BoolId then VBool(true)
             else if id.IntId? || id == FloatId then VNum(0.0)
             else if id == OptionId then VNone else if id == VecId then VList([])
             else if id == MapId then VDict(map[]) else VJson(j);
      }
  }

  lemma {:induction false} SlotHasValue(defs: Defs, rank: map<string, nat>, n: string, i: nat, members: map<string, Json>) returns (v: Val)
    requires World(defs, rank) && n in defs && defs[n].Struct? && i < |defs[n].fields| && FieldFits(defs, rank, n, i, members)
    ensures SlotTyped(defs, rank, n, i, v)
    decreases rank[n], 1
  {
    var f := defs[n].fields[i];
    SlotBelow(defs, rank, n, i);
    if Opaque(f) {
      v := VJson(JNull);
    } else if f.vecOrOne {
      v := EmptyMany(defs, rank, n, i);
    } else {
      PlainFieldUsable(defs, rank, rank[n], f);
      v := VNone;
      if f.name in members { v := TypeHasValue(defs, rank, rank[n], f.ty, members[f.name]); }
    }
  }

  lemma {:induction false} SlotsHaveValues(defs: Defs, rank: map<string, nat>, n: string, i: nat, members: map<string, Json>) returns (slots: seq<Val>)
    requires World(defs, rank) && n in defs && defs[n].Struct? && i <= |defs[n].fields|
    requires forall m :: 0 <= m < |defs[n].fields| ==> FieldFits(defs, rank, n, m, members)
    ensures |slots| == i && forall m :: 0 <= m < i ==> SlotTyped(defs, rank, n, m, slots[m])
    decreases rank[n], 2, i
  {
    slots := [];
    if i > 0 {
      slots := SlotsHaveValues(defs, rank, n, i - 1, members);
      var v := SlotHasValue(defs, rank, n, i - 1, members);
      slots := slots + [v];
    }
  }

  lemma {:induction false} UserHasValue(defs: Defs, rank: map<string, nat>, n: string, j: Json) returns (v: Val)
    requires World(defs, rank) && n in defs && Valid(Inline(defs, rank, n), j)
    ensures TypedUser(defs, rank, n, v)
    decreases rank[n], 3
  {
    if defs[n].Struct? {
      InlineKind(defs, rank, n);
      StructValid(defs, rank, n, j.members);
      var slots := SlotsHaveValues(defs, rank, n, |defs[n].fields|, j.members);
      v := VRecord(slots);
    } else if defs[n].Enum? {
      EnumValid(defs, rank, n, j);
      v := VVariant(0);
    } else {
      UnionValid(defs, rank, n, j);
      var i :| 0 <= i < |defs[n].names| && Valid(Inline(defs, rank, defs[n].names[i]), j);
      var w := UserHasValue(defs, rank, defs[n].names[i], j);
      v := VAlt(i, w);
    }
  }

  /** For instance an object with a member the struct does not declare. */
  lemma UndeclaredMemberIsAccepted()
    ensures var defs := OneField(Plain("a", STRING, "a", Never));
            var j := JObj(map["a" := JStr("x"), "b" := JNull]);
            World(defs, RANK) && Valid(Inline(defs, RANK, "T"), j) && !IsEncoding(defs, RANK, "T", j)
  {
    var f := Plain("a", STRING, "a", Never);
    var defs, members := OneField(f), map["a" := JStr("x"), "b" := JNull];
    OneFieldWorld(f);
    StructValid(defs, RANK, "T", members);
    assert FieldFits(defs, RANK, "T", 0, members);
    ExtraMemberIsNoEncoding(defs, RANK, "T", members, "b");
  }
}
