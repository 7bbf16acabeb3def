/** Finding a JSON object in model output (scripts/ci/parse-doc-sync-response.py). */
module ObjectScanner {
  import opened Options

  // The scanner.

  /** The loop's variables. */
  datatype Mode = Mode(depth: int, inString: bool, escape: bool)

  predicate Closes(m: Mode, c: char) {
    !m.inString && c == '}' && m.depth == 1
  }

  function Step(m: Mode, c: char): Mode {
    if m.inString then
      if m.escape then m.(escape := false)
      else if c == '\\' then m.(escape := true)
      else if c == '"' then m.(inString := false)
      else m
    else if c == '"' then m.(inString := true)
    else if c == '{' then m.(depth := m.depth + 1)
    else if c == '}' then m.(depth := m.depth - 1)
    else m
  }

  datatype Outcome = Stopped(length: nat) | Running(mode: Mode)

  /** Read `s` in mode `m` until the outermost brace closes. */
  function Run(m: Mode, s: string): Outcome
    decreases |s|
  {
    if s == [] then Running(m)
    else if Closes(m, s[0]) then Stopped(1)
    else match Run(Step(m, s[0]), s[1..])
      case Stopped(n) => Stopped(n + 1)
      case Running(m') => Running(m')
  }

  lemma {:induction false} RunAppend(m: Mode, a: string, b: string)
    ensures Run(m, a + b) == match Run(m, a)
                             case Stopped(n) => Stopped(n)
                             case Running(m') => (match Run(m', b) case Stopped(n) => Stopped(|a| + n) case Running(m'') => Running(m''))
    decreases |a|
  {
    if a == [] {
      assert a + b == b;
    } else {
      assert (a + b)[0] == a[0] && (a + b)[1..] == a[1..] + b;
      RunAppend(Step(m, a[0]), a[1..], b);
    }
  }

  lemma RunChar(m: Mode, c: char)
    ensures Run(m, [c]) == if Closes(m, c) then Stopped(1) else Running(Step(m, c))
  {
    assert [c][1..] == [];
  }

  lemma {:induction false} StoppedInside(m: Mode, s: string)
    ensures Run(m, s).Stopped? ==> 1 <= Run(m, s).length <= |s| && s[Run(m, s).length - 1] == '}'
    decreases |s|
  {
    if s != [] && !Closes(m, s[0]) { StoppedInside(Step(m, s[0]), s[1..]); }
  }

  function Find(text: string, c: char): (i: nat)
    ensures i <= |text| && (i < |text| ==> text[i] == c) && forall k :: 0 <= k < i ==> text[k] != c
  {
    if text == [] || text[0] == c then 0 else 1 + Find(text[1..], c)
  }

  const START := Mode(0, false, false)

  /** `_extract_outer_object`. */
  function OuterObject(text: string): Option<string> {
    var start := Find(text, '{');
    StoppedInside(START, text[start..]);
    match Run(START, text[start..])
    case Stopped(n) => Some(text[start..start + n])
    case Running(_) => None
  }

  method ExtractOuterObject(text: string) returns (r: Option<string>)
    ensures r == OuterObject(text)
  {
    var start := Find(text, '{');
    if start == |text| { return None; }
    var slice := text[start..];
    var m := START;
    for index := 0 to |slice|
      invariant Run(START, slice[..index]) == Running(m)
    {
      assert slice[..index + 1] == slice[..index] + [slice[index]];
      assert slice == slice[..index + 1] + slice[index + 1..];
      RunAppend(START, slice[..index], [slice[index]]);
      RunChar(m, slice[index]);
      RunAppend(START, slice[..index + 1], slice[index + 1..]);
      if Closes(m, slice[index]) {
        assert text[start..start + (index + 1)] == slice[..index + 1];
        return Some(slice[..index + 1]);
      }
      m := Step(m, slice[index]);
    }
    assert slice[..|slice|] == slice;
    r := None;
  }

  // JSON text, with every freedom the grammar leaves.

  /** A character of a string literal (section 7 of RFC 8259). */
  datatype Item = Plain(c: char) | Escaped(c: char) | Unicode(hex: string)

  predicate IsHex(c: char) {
    '0' <= c <= '9' || 'a' <= c <= 'f' || 'A' <= c <= 'F'
  }

  predicate ItemOk(it: Item) {
    match it
    case Plain(c) => c != '"' && c != '\\' && c >= ' '
    case Escaped(c) => c in "\"\\/bfnrt"
    case Unicode(hex) => |hex| == 4 && forall i :: 0 <= i < 4 ==> IsHex(hex[i])
  }

  function ItemText(it: Item): string {
    match it
    case Plain(c) => [c]
    case Escaped(c) => ['\\', c]
    case Unicode(hex) => "\\u" + hex
  }

  function ItemsText(items: seq<Item>): string {
    if items == [] then "" else ItemText(items[0]) + ItemsText(items[1..])
  }

  predicate ItemsOk(items: seq<Item>) {
    forall i :: 0 <= i < |items| ==> ItemOk(items[i])
  }

  function StringText(items: seq<Item>): string {
    "\"" + ItemsText(items) + "\""
  }

  /** Whitespace between tokens (section 2 of RFC 8259). */
  predicate IsBlank(ws: string) {
    forall i :: 0 <= i < |ws| ==> ws[i] in " \t\n\r"
  }

  /** A literal name or a number; all that is used of the number grammar is its alphabet. */
  predicate IsScalar(w: string) {
    w == "null" || w == "true" || w == "false" || (w != "" && forall i :: 0 <= i < |w| ==> w[i] in "0123456789+-.eE")
  }

  /** A JSON text with its whitespace: `blank` follows an opening bracket. */
  datatype Value =
    | Scalar(word: string)
    | Str(items: seq<Item>)
    | Arr(blank: string, elems: Elems)
    | Obj(blank: string, members: Members)
  datatype Elems = ENil | ECons(before: string, value: Value, after: string, rest: Elems)
  datatype Members = MNil | MCons(before: string, key: seq<Item>, colonL: string, colonR: string, value: Value, after: string, rest: Members)

  predicate ValueOk(v: Value) {
    match v
    case Scalar(w) => IsScalar(w)
    case Str(items) => ItemsOk(items)
    case Arr(blank, es) => IsBlank(blank) && ElemsOk(es)
    case Obj(blank, ms) => IsBlank(blank) && MembersOk(ms)
  }

  predicate ElemsOk(es: Elems) {
    match es
    case ENil => true
    case ECons(b, v, a, rest) => IsBlank(b) && ValueOk(v) && IsBlank(a) && ElemsOk(rest)
  }

  predicate MembersOk(ms: Members) {
    match ms
    case MNil => true
    case MCons(b, k, l, r, v, a, rest) =>
      IsBlank(b) && ItemsOk(k) && IsBlank(l) && IsBlank(r) && ValueOk(v) && IsBlank(a) && MembersOk(rest)
  }

  function ValueText(v: Value): string {
    match v
    case Scalar(w) => w
    case Str(items) => StringText(items)
    case Arr(blank, es) => "[" + blank + ElemsText(es) + "]"
    case Obj(blank, ms) => "{" + blank + MembersText(ms) + "}"
  }

  function ElemsText(es: Elems): string {
    match es
    case ENil => ""
    case ECons(b, v, a, rest) => b + ValueText(v) + a + (if rest == ENil then "" else "," + ElemsText(rest))
  }

  function MembersText(ms: Members): string {
    match ms
    case MNil => ""
    case MCons(b, k, l, r, v, a, rest) =>
      b + StringText(k) + l + ":" + r + ValueText(v) + a + (if rest == MNil then "" else "," + MembersText(rest))
  }

  // The round trip.

  /** Reading `s` outside strings at a positive depth leaves the mode as it was. */
  ghost predicate Neutral(s: string) {
    forall d :: d >= 1 ==> Run(Mode(d, false, false), s) == Running(Mode(d, false, false))
  }

  lemma NeutralAppend(a: string, b: string)
    requires Neutral(a) && Neutral(b)
    ensures Neutral(a + b)
  {
    forall d | d >= 1 ensures Run(Mode(d, false, false), a + b) == Running(Mode(d, false, false)) {
      RunAppend(Mode(d, false, false), a, b);
    }
  }

  lemma {:induction false} PlainIsNeutral(s: string)
    requires forall i :: 0 <= i < |s| ==> s[i] != '"' && s[i] != '{' && s[i] != '}'
    ensures Neutral(s)
  {
    if s != [] {
      PlainIsNeutral(s[1..]);
      forall d | d >= 1 ensures Run(Mode(d, false, false), s) == Running(Mode(d, false, false)) {
        assert Run(Mode(d, false, false), s[1..]) == Running(Mode(d, false, false));
      }
    }
  }

  lemma InsideAppend(d: int, a: string, b: string)
    requires Run(Mode(d, true, false), a) == Running(Mode(d, true, false))
    requires Run(Mode(d, true, false), b) == Running(Mode(d, true, false))
    ensures Run(Mode(d, true, false), a + b) == Running(Mode(d, true, false))
  {
    RunAppend(Mode(d, true, false), a, b);
  }

  lemma EscapeKeepsString(d: int, c: char)
    ensures Run(Mode(d, true, false), ['\\', c]) == Running(Mode(d, true, false))
  {
    assert ['\\', c][1..] == [c];
    RunChar(Mode(d, true, true), c);
  }

  lemma ItemKeepsString(d: int, it: Item)
    requires ItemOk(it)
    ensures Run(Mode(d, true, false), ItemText(it)) == Running(Mode(d, true, false))
  {
    var s, m := ItemText(it), Mode(d, true, false);
    match it
    case Plain(c) => RunChar(m, c);
    case Escaped(c) => EscapeKeepsString(d, c);
    case Unicode(hex) =>
      EscapeKeepsString(d, 'u');
      HexKeepsString(d, hex);
      InsideAppend(d, "\\u", hex);
  }

  lemma {:induction false} HexKeepsString(d: int, hex: string)
    requires forall i :: 0 <= i < |hex| ==> IsHex(hex[i])
    ensures Run(Mode(d, true, false), hex) == Running(Mode(d, true, false))
  {
    if hex != [] { HexKeepsString(d, hex[1..]); }
  }

  lemma {:induction false} ItemsKeepString(d: int, items: seq<Item>)
    requires ItemsOk(items)
    ensures Run(Mode(d, true, false), ItemsText(items)) == Running(Mode(d, true, false))
  {
    if items != [] {
      ItemKeepsString(d, items[0]);
      ItemsKeepString(d, items[1..]);
      InsideAppend(d, ItemText(items[0]), ItemsText(items[1..]));
    }
  }

  /** Whatever a string literal holds, braces, quotes and backslashes included, the scanner comes
      out of it where it went in. */
  lemma StringIsNeutral(items: seq<Item>)
    requires ItemsOk(items)
    ensures Neutral(StringText(items))
  {
    var body := ItemsText(items);
    forall d | d >= 1 ensures Run(Mode(d, false, false), StringText(items)) == Running(Mode(d, false, false)) {
      ItemsKeepString(d, items);
      RunAppend(Mode(d, true, false), body, "\"");
      RunChar(Mode(d, true, false), '"');
      assert StringText(items)[1..] == body + "\"";
    }
  }

  lemma BlankIsNeutral(ws: string)
    requires IsBlank(ws)
    ensures Neutral(ws)
  {
    PlainIsNeutral(ws);
  }

  lemma BracketsAreNeutral(blank: string, body: string)
    requires Neutral(blank) && Neutral(body)
    ensures Neutral("[" + blank + body + "]")
  {
    PlainIsNeutral("[");
    PlainIsNeutral("]");
    NeutralAppend("[", blank);
    NeutralAppend("[" + blank, body);
    NeutralAppend("[" + blank + body, "]");
  }

  lemma BracesAreNeutral(blank: string, body: string)
    requires Neutral(blank) && Neutral(body)
    ensures Neutral("{" + blank + body + "}")
  {
    NeutralAppend(blank, body);
    assert "{" + blank + body + "}" == "{" + ((blank + body) + "}");
    forall d | d >= 1 ensures Run(Mode(d, false, false), "{" + ((blank + body) + "}")) == Running(Mode(d, false, false)) {
      NestedBraces(d, blank + body);
    }
  }

  lemma {:induction false} ValueIsNeutral(v: Value)
    requires ValueOk(v)
    ensures Neutral(ValueText(v))
  {
    match v
    case Scalar(w) => PlainIsNeutral(w);
    case Str(items) => StringIsNeutral(items);
    case Arr(blank, es) =>
      BlankIsNeutral(blank);
      ElemsAreNeutral(es);
      BracketsAreNeutral(blank, ElemsText(es));
    case Obj(blank, ms) =>
      BlankIsNeutral(blank);
      MembersAreNeutral(ms);
      BracesAreNeutral(blank, MembersText(ms));
  }

  lemma RunOpening(d: int, rest: string)
    ensures Run(Mode(d, false, false), "{" + rest)
         == match Run(Mode(d + 1, false, false), rest) case Stopped(n) => Stopped(n + 1) case Running(m) => Running(m)
  {
    RunChar(Mode(d, false, false), '{');
    RunAppend(Mode(d, false, false), "{", rest);
  }

  lemma RunClosing(d: int, body: string)
    requires Run(Mode(d, false, false), body) == Running(Mode(d, false, false))
    ensures Run(Mode(d, false, false), body + "}")
         == (if d == 1 then Stopped(|body| + 1) else Running(Mode(d - 1, false, false)))
  {
    RunChar(Mode(d, false, false), '}');
    RunAppend(Mode(d, false, false), body, "}");
  }

  /** Braces around neutral text: inside an object they cancel out. */
  lemma NestedBraces(d: int, body: string)
    requires Neutral(body) && d >= 1
    ensures Run(Mode(d, false, false), "{" + (body + "}")) == Running(Mode(d, false, false))
  {
    RunOpening(d, body + "}");
    RunClosing(d + 1, body);
  }

  /** ... and outermost they stop the scan exactly at the closing one. */
  lemma OutermostBraces(body: string)
    requires Neutral(body)
    ensures Run(START, "{" + (body + "}")) == Stopped(|body| + 2)
  {
    RunOpening(0, body + "}");
    RunClosing(1, body);
  }

  lemma {:induction false} ElemsAreNeutral(es: Elems)
    requires ElemsOk(es)
    ensures Neutral(ElemsText(es))
  {
    match es
    case ENil =>
    case ECons(b, v, a, rest) =>
      BlankIsNeutral(b);
      ValueIsNeutral(v);
      BlankIsNeutral(a);
      NeutralAppend(b, ValueText(v));
      NeutralAppend(b + ValueText(v), a);
      var tail := if rest == ENil then "" else "," + ElemsText(rest);
      ElemsAreNeutral(rest);
      TailIsNeutral(rest == ENil, ElemsText(rest));
      NeutralAppend(b + ValueText(v) + a, tail);
  }

  lemma TailIsNeutral(last: bool, rest: string)
    requires Neutral(rest)
    ensures Neutral(if last then "" else "," + rest)
  {
    PlainIsNeutral(",");
    NeutralAppend(",", rest);
  }

  lemma {:induction false} MembersAreNeutral(ms: Members)
    requires MembersOk(ms)
    ensures Neutral(MembersText(ms))
  {
    match ms
    case MNil =>
    case MCons(b, k, l, r, v, a, rest) =>
      BlankIsNeutral(b);
      StringIsNeutral(k);
      BlankIsNeutral(l);
      PlainIsNeutral(":");
      BlankIsNeutral(r);
      ValueIsNeutral(v);
      BlankIsNeutral(a);
      NeutralAppend(b, StringText(k));
      NeutralAppend(b + StringText(k), l);
      NeutralAppend(b + StringText(k) + l, ":");
      NeutralAppend(b + StringText(k) + l + ":", r);
      NeutralAppend(b + StringText(k) + l + ":" + r, ValueText(v));
      NeutralAppend(b + StringText(k) + l + ":" + r + ValueText(v), a);
      MembersAreNeutral(rest);
      TailIsNeutral(rest == MNil, MembersText(rest));
      NeutralAppend(b + StringText(k) + l + ":" + r + ValueText(v) + a, if rest == MNil then "" else "," + MembersText(rest));
  }

  lemma BracedStops(blank: string, body: string)
    requires Neutral(blank) && Neutral(body)
    ensures Run(START, "{" + blank + body + "}") == Stopped(|"{" + blank + body + "}"|)
  {
    NeutralAppend(blank, body);
    OutermostBraces(blank + body);
    assert "{" + blank + body + "}" == "{" + ((blank + body) + "}");
  }

  lemma ObjectStopsAtItsEnd(doc: Value)
    requires doc.Obj? && ValueOk(doc)
    ensures Run(START, ValueText(doc)) == Stopped(|ValueText(doc)|)
  {
    BlankIsNeutral(doc.blank);
    MembersAreNeutral(doc.members);
    BracedStops(doc.blank, MembersText(doc.members));
  }

  lemma FindSkips(before: string, rest: string)
    requires '{' !in before && rest != [] && rest[0] == '{'
    ensures Find(before + rest, '{') == |before|
  {
    var text := before + rest;
    assert text[|before|] == '{';
    assert forall k :: 0 <= k < |before| ==> text[k] == before[k] && before[k] in before;
  }

  /** For every JSON object written in any legal way, after any text without an opening brace and
      before any text at all, the scanner returns exactly the object. */
  lemma ScannerReturnsTheObject(before: string, doc: Value, after: string)
    requires doc.Obj? && ValueOk(doc) && '{' !in before
    ensures OuterObject(before + ValueText(doc) + after) == Some(ValueText(doc))
  {
    var written := ValueText(doc);
    var text := before + written + after;
    assert text == before + (written + after);
    FindSkips(before, written + after);
    assert text[|before|..] == written + after;
    ObjectStopsAtItsEnd(doc);
    RunAppend(START, written, after);
    assert text[|before|..|before| + |written|] == written;
  }
}
