/** Definitions whose generated schema refuses what serde writes for them. */
module SchemaFaults {
  import opened Options
  import opened RustTypes
  import opened JsonSchema
  import opened SerdeValues
  import opened Derive
  import opened Encoding
  import opened SchemaSoundness

  function Plain(name: string, ty: Ty, serdeName: string, omit: Omit): FieldDef {
    FieldDef(name, ty, false, None, None, false, None, serdeName, omit)
  }

  /** A type with one field, as the only definition. */
  function OneField(f: FieldDef): Defs {
    map["T" := Struct([f])]
  }

  const RANK: map<string, nat> := map["T" := 0]

  lemma OneFieldWorld(f: FieldDef)
    requires FieldAccepted(f) && OmitFits(f) && !f.skip && Inlined(FieldExpr(f)) == {} && FieldDeps([f]) == []
    ensures World(OneField(f), RANK) && SchemaFields([f]) == [SchemaField(f.name, FieldExpr(f), !IsOptionType(f.ty))]
  {
    var fs := [f];
    assert fs[..0] == [] && SchemaFields([]) == [];
    assert SchemaFields(fs) == [SchemaField(f.name, FieldExpr(f), !IsOptionType(f.ty))];
  }

  /** `SessionReadEnvelope`: serde writes "refId", the schema demands "ref_id", so every value is
      refused. */
  lemma RenamedFieldIsRefused(v: Val)
    ensures var defs := OneField(Plain("ref_id", STRING, "refId", Never));
            && World(defs, RANK)
            && (TypedUser(defs, RANK, "T", v) ==> !Valid(Inline(defs, RANK, "T"), EncodeUser(defs, RANK, "T", v)))
            && TypedUser(defs, RANK, "T", VRecord([VStr("r")]))
  {
    var f := Plain("ref_id", STRING, "refId", Never);
    var defs := OneField(f);
    OneFieldWorld(f);
    assert TypedUser(defs, RANK, "T", VRecord([VStr("r")]));
    if TypedUser(defs, RANK, "T", v) {
      MembersAre(defs, RANK, "T", v.slots, 1);
      StructValid(defs, RANK, "T", Members(defs, RANK, "T", v.slots, 1));
      assert !FieldFits(defs, RANK, "T", 0, Members(defs, RANK, "T", v.slots, 1));
    }
  }

  /** `NotionOutput`: an empty list is left out although the schema demands it. */
  lemma OmittedFieldIsRefused()
    ensures var defs := OneField(Plain("pages", Generic(VecId, STRING), "pages", WhenEmpty));
            && World(defs, RANK) && TypedUser(defs, RANK, "T", VRecord([VList([])]))
            && EncodeUser(defs, RANK, "T", VRecord([VList([])])) == JObj(map[])
            && !Valid(Inline(defs, RANK, "T"), JObj(map[]))
  {
    var f := Plain("pages", Generic(VecId, STRING), "pages", WhenEmpty);
    var defs, v := OneField(f), VRecord([VList([])]);
    OneFieldWorld(f);
    assert SlotTyped(defs, RANK, "T", 0, VList([]));
    assert TypedUser(defs, RANK, "T", v);
    assert Members(defs, RANK, "T", v.slots, 1) == Members(defs, RANK, "T", v.slots, 0) == map[];
    StructValid(defs, RANK, "T", map[]);
    assert !FieldFits(defs, RANK, "T", 0, map[]);
  }

  /** A one-or-many field of vectors: the empty list is accepted by both forms and so refused. */
  lemma NestedManyIsRefused()
    ensures var f := FieldDef("rows", Generic(VecId, Generic(VecId, STRING)), false, None, None, true, None, "rows", Never);
            var defs := OneField(f);
            && World(defs, RANK) && TypedUser(defs, RANK, "T", VRecord([VList([])]))
            && EncodeUser(defs, RANK, "T", VRecord([VList([])])) == JObj(map["rows" := JArr([])])
            && !Valid(Inline(defs, RANK, "T"), JObj(map["rows" := JArr([])]))
  {
    var f := FieldDef("rows", Generic(VecId, Generic(VecId, STRING)), false, None, None, true, None, "rows", Never);
    var defs, v := OneField(f), VRecord([VList([])]);
    OneFieldWorld(f);
    SlotBelow(defs, RANK, "T", 0);
    assert SlotTyped(defs, RANK, "T", 0, VList([]));
    assert TypedUser(defs, RANK, "T", v);
    assert SlotEncode(defs, RANK, "T", 0, VList([])) == JArr([]);
    assert Members(defs, RANK, "T", v.slots, 1) == Members(defs, RANK, "T", v.slots, 0)["rows" := JArr([])];
    OneOrManyRefusesEmpty(defs, RANK, 0, f);
    StructValid(defs, RANK, "T", map["rows" := JArr([])]);
    assert !FieldFits(defs, RANK, "T", 0, map["rows" := JArr([])]);
  }

  /** An enum variant whose alias is not what serde writes. */
  lemma AliasedVariantIsRefused()
    ensures var defs: Defs := map["T" := Enum([VariantDef("A", "A", Some("a"), false)])];
            && World(defs, RANK) && TypedUser(defs, RANK, "T", VVariant(0))
            && EncodeUser(defs, RANK, "T", VVariant(0)) == JStr("A") && !Valid(Inline(defs, RANK, "T"), JStr("A"))
  {
    var vs := [VariantDef("A", "A", Some("a"), false)];
    var defs: Defs := map["T" := Enum(vs)];
    assert World(defs, RANK);
    assert "A" !in Wires(vs) by { assert Wire(vs[0]) == "a"; }
    EnumValid(defs, RANK, "T", JStr("A"));
  }
}
