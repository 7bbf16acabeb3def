/** Rust values as serde sees them when it writes JSON. */
module SerdeValues {
  import opened JsonSchema

  /** A record has one slot per declared field; `VJson` stands for a value of a type the derive
      macro does not look into, given by what serde writes for it. */
  datatype Val =
    | VStr(s: string)
    | VBool(b: bool)
    | VNum(r: real)
    | VNone
    | VSome(inner: Val)
    | VList(vs: seq<Val>)
    | VDict(entries: map<string, Val>)
    | VRecord(slots: seq<Val>)
    | VVariant(index: nat)
    | VAlt(choice: nat, chosen: Val)
    | VJson(json: Json)

  /** `#[serde(skip_serializing_if = ...)]`: `Option::is_none`, `is_empty`, or both together. */
  datatype Omit = Never | WhenNone | WhenEmpty | WhenNoneOrEmpty

  predicate Omits(o: Omit, v: Val) {
    match o
    case Never => false
    case WhenNone => v == VNone || v == VJson(JNull)
    case WhenEmpty => v == VList([]) || v == VDict(map[]) || v == VStr("") || v == VJson(JArr([]))
    case WhenNoneOrEmpty => v == VNone || v == VSome(VStr("")) || v == VJson(JNull) || v == VJson(JStr(""))
  }
}
