/** The texts serde writes for map keys, and which key types restrict them. */
module MapKeys {
  import opened Options
  import opened Orders
  import opened Decimal
  import opened RustTypes
  import opened JsonSchema
  import opened SerdeValues
  import opened Derive
  import opened Encoding
  import opened SchemaExactness

  /** A natural number is written in decimal without leading zeros. */
  lemma {:induction false} NatTextReads(n: nat)
    ensures NatText(n) != "" && IsDigits(NatText(n)) && Value(NatText(n)) == n
    ensures n > 0 ==> NatText(n)[0] != '0'
  {
    var digit := ('0' as int + n % 10) as char;
    if n < 10 {
      ValueSnoc("", digit);
      assert "" + [digit] == NatText(n);
    } else {
      NatTextReads(n / 10);
      ValueSnoc(NatText(n / 10), digit);
    }
  }

  /** An integer by its sign and its digits. */
  lemma IntTextReads(n: int)
    ensures if n < 0 then IntText(n) != "" && IntText(n)[0] == '-' && IsDigits(IntText(n)[1..]) && Value(IntText(n)[1..]) == -n
            else IntText(n) != "" && IsDigits(IntText(n)) && Value(IntText(n)) == n
  {
    NatTextReads(if n < 0 then -n else n);
    if n < 0 { assert IntText(n)[1..] == NatText(-n); }
  }

  lemma NotANumber()
    ensures forall n :: IntText(n) != "x"
  {
    forall n ensures IntText(n) != "x" { IntTextReads(n); }
  }

  /** Serde writes the string `s` for some value of the type. */
  ghost predicate WrittenAs(defs: Defs, rank: map<string, nat>, n: string, s: string)
    requires World(defs, rank) && n in defs
  {
    exists v :: TypedUser(defs, rank, n, v) && EncodeUser(defs, rank, n, v) == JStr(s)
  }

  /** A derived type is written as a key exactly as it is written as a string; what is not written as a
      string is no key. */
  lemma {:induction false} UserKeyIsEncoding(defs: Defs, rank: map<string, nat>, n: string, s: string)
    requires World(defs, rank) && n in defs
    ensures KeyTextUser(defs, rank, n, s) <==> WrittenAs(defs, rank, n, s)
    decreases rank[n]
  {
    match defs[n]
    case Struct(_) =>
    case Enum(vs) =>
      if i :| 0 <= i < |vs| && vs[i].serdeWire == s {
        assert TypedUser(defs, rank, n, VVariant(i)) && EncodeUser(defs, rank, n, VVariant(i)) == JStr(s);
      }
    case Union(names) =>
      forall i | 0 <= i < |names|
        ensures names[i] in defs && (KeyTextUser(defs, rank, names[i], s) <==> WrittenAs(defs, rank, names[i], s))
      {
        assert Calls(defs[n], names[i]);
        UserKeyIsEncoding(defs, rank, names[i], s);
      }
      ChoiceWrittenAs(defs, rank, n, s);
  }

  lemma ChoiceWrittenAs(defs: Defs, rank: map<string, nat>, n: string, s: string)
    requires World(defs, rank) && n in defs && defs[n].Union?
    ensures forall i :: 0 <= i < |defs[n].names| ==> defs[n].names[i] in defs
    ensures WrittenAs(defs, rank, n, s) <==> exists i :: 0 <= i < |defs[n].names| && WrittenAs(defs, rank, defs[n].names[i], s)
  {
    var names := defs[n].names;
    forall i | 0 <= i < |names| ensures names[i] in defs { assert Calls(defs[n], names[i]); }
    if i :| 0 <= i < |names| && WrittenAs(defs, rank, names[i], s) {
      var w :| TypedUser(defs, rank, names[i], w) && EncodeUser(defs, rank, names[i], w) == JStr(s);
      assert TypedUser(defs, rank, n, VAlt(i, w)) && EncodeUser(defs, rank, n, VAlt(i, w)) == JStr(s);
    }
    if v :| TypedUser(defs, rank, n, v) && EncodeUser(defs, rank, n, v) == JStr(s) {
      assert TypedUser(defs, rank, names[v.choice], v.chosen) && EncodeUser(defs, rank, names[v.choice], v.chosen) == JStr(s);
      assert WrittenAs(defs, rank, names[v.choice], s);
    }
  }

  /** A derived type has finitely many keys. */
  lemma {:induction false} UserKeysBounded(defs: Defs, rank: map<string, nat>, n: string) returns (keys: set<string>)
    requires World(defs, rank) && n in defs
    ensures forall s :: KeyTextUser(defs, rank, n, s) ==> s in keys
    decreases rank[n], 1
  {
    match defs[n]
    case Struct(_) => keys := {};
    case Enum(vs) => keys := set i | 0 <= i < |vs| :: vs[i].serdeWire;
    case Union(names) =>
      keys := ChoiceKeysBounded(defs, rank, n, |names|);
  }

  lemma {:induction false} ChoiceKeysBounded(defs: Defs, rank: map<string, nat>, n: string, k: nat) returns (keys: set<string>)
    requires World(defs, rank) && n in defs && defs[n].Union? && k <= |defs[n].names|
    ensures forall i, s :: 0 <= i < k && defs[n].names[i] in defs && KeyTextUser(defs, rank, defs[n].names[i], s) ==> s in keys
    decreases rank[n], 0, k
  {
    keys := {};
    if k > 0 {
      assert Calls(defs[n], defs[n].names[k - 1]);
      var front := ChoiceKeysBounded(defs, rank, n, k - 1);
      var last := UserKeysBounded(defs, rank, defs[n].names[k - 1]);
      keys := front + last;
    }
  }

  /** The key type is a string, up to references, boxes and options, or one the macro does not know. */
  predicate FreeKey(defs: Defs, ty: Ty) {
    match ty
    case Ref(e) => FreeKey(defs, e)
    case OtherTy => true
    case Path(id, args) =>
      match id
      case StringId => true
      case ValueId => true
      case OptionId => SingleArg(args).Some? ==> FreeKey(defs, SingleArg(args).value)
      case BoxId => SingleArg(args).Some? ==> FreeKey(defs, SingleArg(args).value)
      case UserId(n) => args != NoArgs || n !in defs
      case _ => false
  }

  /** Exactly those key types take any text. */
  lemma {:induction false} AnyKeyIff(defs: Defs, rank: map<string, nat>, ty: Ty)
    requires World(defs, rank)
    ensures AnyKey(defs, rank, ty) <==> FreeKey(defs, ty)
  {
    match ty
    case Ref(e) =>
      AnyKeyIff(defs, rank, e);
      assert forall s :: KeyText(defs, rank, ty, s) <==> KeyText(defs, rank, e, s);
    case OtherTy =>
    case Path(id, args) =>
      if (id == OptionId || id == BoxId) && SingleArg(args).Some? {
        var t := SingleArg(args).value;
        AnyKeyIff(defs, rank, t);
        assert forall s :: KeyText(defs, rank, ty, s) <==> KeyText(defs, rank, t, s);
      } else if id.UserId? && args == NoArgs && id.name in defs {
        var keys := UserKeysBounded(defs, rank, id.name);
        var s := FreshName(keys);
        assert !KeyText(defs, rank, ty, s);
      } else if id.IntId? {
        NotANumber();
        assert !KeyText(defs, rank, ty, "x");
      } else if !FreeKey(defs, ty) {
        assert !KeyText(defs, rank, ty, "x");
      }
  }
}
