/** Choosing what to parse in a documentation-sync response
    (scripts/ci/parse-doc-sync-response.py:17-88). */
module DocSync {
  import opened Options
  import opened ObjectScanner

  /** What `json.loads` makes of a candidate: it fails; it gives something other than an object; an
      object with a value that is not a string; or the file map. */
  datatype Loaded = Fails | NotObject | NotStrings | FileMap(files: map<string, string>)

  /** The Python library as the script meets it. */
  datatype Python = Python(isSpace: char -> bool, upper: string -> string, loads: string -> Loaded)

  datatype Response = NoChanges | Update(files: map<string, string>) | Rejected

  function StripLeft(py: Python, s: string): string {
    if s != [] && py.isSpace(s[0]) then StripLeft(py, s[1..]) else s
  }

  function StripRight(py: Python, s: string): string {
    if s != [] && py.isSpace(s[|s| - 1]) then StripRight(py, s[..|s| - 1]) else s
  }

  function Strip(py: Python, s: string): string {
    StripRight(py, StripLeft(py, s))
  }

  /** `re.sub` of all white space. */
  function Squeeze(py: Python, s: string): string {
    if s == [] then [] else (if py.isSpace(s[0]) then [] else [s[0]]) + Squeeze(py, s[1..])
  }

  /** `_is_no_changes`. */
  predicate IsNoChanges(py: Python, text: string) {
    py.upper(Squeeze(py, Strip(py, text))) == "NO_CHANGES_NEEDED"
  }

  lemma {:induction false} SqueezeAppend(py: Python, a: string, b: string)
    ensures Squeeze(py, a + b) == Squeeze(py, a) + Squeeze(py, b)
  {
    if a == [] {
      assert a + b == b;
    } else {
      assert (a + b)[1..] == a[1..] + b;
      SqueezeAppend(py, a[1..], b);
    }
  }

  lemma {:induction false} StripLeftSqueezed(py: Python, s: string)
    ensures Squeeze(py, StripLeft(py, s)) == Squeeze(py, s)
  {
    if s != [] && py.isSpace(s[0]) { StripLeftSqueezed(py, s[1..]); }
  }

  lemma {:induction false} StripRightSqueezed(py: Python, s: string)
    ensures Squeeze(py, StripRight(py, s)) == Squeeze(py, s)
  {
    if s != [] && py.isSpace(s[|s| - 1]) {
      var front := s[..|s| - 1];
      StripRightSqueezed(py, front);
      SqueezeAppend(py, front, [s[|s| - 1]]);
      assert s == front + [s[|s| - 1]];
    }
  }

  /** White space around the text does not matter to what is left without any. */
  lemma StripSqueezed(py: Python, s: string)
    ensures Squeeze(py, Strip(py, s)) == Squeeze(py, s)
  {
    StripLeftSqueezed(py, s);
    StripRightSqueezed(py, StripLeft(py, s));
  }

  predicate AllSpace(py: Python, s: string) {
    forall i :: 0 <= i < |s| ==> py.isSpace(s[i])
  }

  lemma {:induction false} StripLeftSplits(py: Python, s: string) returns (a: string)
    ensures s == a + StripLeft(py, s) && AllSpace(py, a)
    ensures StripLeft(py, s) != [] ==> !py.isSpace(StripLeft(py, s)[0])
  {
    a := [];
    if s != [] && py.isSpace(s[0]) {
      a := StripLeftSplits(py, s[1..]);
      a := [s[0]] + a;
      assert s == [s[0]] + s[1..];
    }
  }

  lemma {:induction false} StripRightSplits(py: Python, s: string) returns (b: string)
    ensures s == StripRight(py, s) + b && AllSpace(py, b)
    ensures StripRight(py, s) != [] ==> !py.isSpace(StripRight(py, s)[|StripRight(py, s)| - 1])
  {
    b := [];
    if s != [] && py.isSpace(s[|s| - 1]) {
      b := StripRightSplits(py, s[..|s| - 1]);
      b := b + [s[|s| - 1]];
      assert s == s[..|s| - 1] + [s[|s| - 1]];
    }
  }

  /** `str.strip`: only white space goes, from both ends, and all of it. */
  lemma StripSplits(py: Python, s: string) returns (a: string, b: string)
    ensures s == a + Strip(py, s) + b && AllSpace(py, a) && AllSpace(py, b)
    ensures var t := Strip(py, s); t != [] ==> !py.isSpace(t[0]) && !py.isSpace(t[|t| - 1])
  {
    a := StripLeftSplits(py, s);
    b := StripRightSplits(py, StripLeft(py, s));
  }

  predicate FenceAt(text: string, i: nat) {
    i + 3 <= |text| && text[i..i + 3] == "```"
  }

  /** `json` under IGNORECASE, which also folds the long s. */
  predicate IsJsonWord(w: string) {
    |w| == 4 && w[0] in "jJ" && w[1] in "sS\U{017F}" && w[2] in "oO" && w[3] in "nN"
  }

  /** Case folding, as far as it reaches these letters. */
  function Fold(c: char): char {
    if 'A' <= c <= 'Z' then (c as int + 32) as char else if c == '\U{017F}' then 's' else c
  }

  lemma JsonWordIff(w: string)
    ensures IsJsonWord(w) <==> |w| == 4 && Fold(w[0]) == 'j' && Fold(w[1]) == 's' && Fold(w[2]) == 'o' && Fold(w[3]) == 'n'
  {
    if |w| == 4 {
      FoldIs(w[0], 'j', 'J');
      FoldIs(w[1], 's', 'S');
      FoldIs(w[2], 'o', 'O');
      FoldIs(w[3], 'n', 'N');
    }
  }

  lemma FoldIs(c: char, small: char, capital: char)
    requires 'a' <= small <= 'z' && capital as int + 32 == small as int
    ensures Fold(c) == small <==> c == small || c == capital || (c == '\U{017F}' && small == 's')
  {
    if 'A' <= c <= 'Z' { assert (c as int + 32) as char as int == c as int + 32; }
  }

  function SkipSpace(py: Python, text: string, i: nat): (j: nat)
    requires i <= |text|
    ensures i <= j <= |text|
    decreases |text| - i
  {
    if i < |text| && py.isSpace(text[i]) then SkipSpace(py, text, i + 1) else i
  }

  /** Where the captured group starts for an opening fence at `i`. */
  function GroupStart(py: Python, text: string, i: nat): (b: Option<nat>)
    requires FenceAt(text, i)
    ensures b.Some? ==> i + 3 <= b.value < |text| && text[b.value] == '{'
  {
    var j := if i + 7 <= |text| && IsJsonWord(text[i + 3..i + 7]) then i + 7 else i + 3;
    var b := SkipSpace(py, text, j);
    if b < |text| && text[b] == '{' then Some(b) else None
  }

  /** The last fence at or after `from`. */
  function LastFence(text: string, from: nat): (e: Option<nat>)
    requires from <= |text|
    ensures e.Some? ==> from <= e.value && FenceAt(text, e.value)
    decreases |text| - from
  {
    if from == |text| then None
    else
      var later := LastFence(text, from + 1);
      if later.Some? then later else if FenceAt(text, from) then Some(from) else None
  }

  /** The match of the fence pattern that begins at `i`, if any: the greedy group runs to the last
      fence of the text. */
  function MatchAt(py: Python, text: string, i: nat): Option<string> {
    if !FenceAt(text, i) then None
    else match GroupStart(py, text, i)
      case None => None
      case Some(b) =>
        match LastFence(text, b + 1)
        case None => None
        case Some(e) => Some(Strip(py, text[b..e]))
  }

  function FencedFrom(py: Python, text: string, i: nat): Option<string>
    decreases |text| - i
  {
    if i >= |text| then None
    else if MatchAt(py, text, i).Some? then MatchAt(py, text, i)
    else FencedFrom(py, text, i + 1)
  }

  /** `_extract_fenced_json`. */
  function Fenced(py: Python, text: string): Option<string> {
    FencedFrom(py, text, 0)
  }

  /** The candidate list after both insertions. */
  function Candidates(py: Python, text: string): (cs: seq<string>)
    ensures cs != []
  {
    var fenced := Fenced(py, text);
    var c1 := if fenced.Some? && fenced.value != "" then [fenced.value, text] else [text];
    var outer := OuterObject(text);
    if outer.Some? && outer.value != "" && outer.value !in c1 then [outer.value] + c1 else c1
  }

  /** The verdict of the first candidate that parses. */
  function FirstVerdict(py: Python, cs: seq<string>): Response {
    if cs == [] then Rejected
    else match py.loads(cs[0])
      case Fails => FirstVerdict(py, cs[1..])
      case FileMap(files) => Update(files)
      case _ => Rejected
  }

  /** What the script makes of a response. */
  function Reading(py: Python, raw: string): Response {
    var text := Strip(py, raw);
    if text == "" then Rejected
    else if IsNoChanges(py, text) then NoChanges
    else FirstVerdict(py, Candidates(py, text))
  }

  method ParseDocSyncResponse(py: Python, raw: string) returns (r: Response)
    ensures r == Reading(py, raw)
  {
    var text := Strip(py, raw);
    if text == "" { return Rejected; }
    if IsNoChanges(py, text) { return NoChanges; }
    var candidates := [text];
    var fenced := Fenced(py, text);
    if fenced.Some? && fenced.value != "" { candidates := [fenced.value] + candidates; }
    var outer := ExtractOuterObject(text);
    if outer.Some? && outer.value != "" && outer.value !in candidates { candidates := [outer.value] + candidates; }
    assert candidates == Candidates(py, text);
    var k := 0;
    while k < |candidates|
      invariant k <= |candidates|
      invariant FirstVerdict(py, candidates) == FirstVerdict(py, candidates[k..])
    {
      var value := py.loads(candidates[k]);
      if value.FileMap? { return Update(value.files); }
      if !value.Fails? { return Rejected; }
      assert candidates[k..][1..] == candidates[k + 1..];
      k := k + 1;
    }
    r := Rejected;
  }

  /** A response says that nothing is needed exactly when, without any white space and in capitals, it
      is that one phrase. */
  lemma NoChangesIff(py: Python, raw: string)
    requires py.upper("") == ""
    ensures Reading(py, raw) == NoChanges <==> py.upper(Squeeze(py, raw)) == "NO_CHANGES_NEEDED"
  {
    StripSqueezed(py, raw);
    StripSqueezed(py, Strip(py, raw));
    VerdictIsUpdateOrRejected(py, Candidates(py, Strip(py, raw)));
  }

  lemma {:induction false} VerdictIsUpdateOrRejected(py: Python, cs: seq<string>)
    ensures FirstVerdict(py, cs) != NoChanges
  {
    if cs != [] { VerdictIsUpdateOrRejected(py, cs[1..]); }
  }

  /** The first candidate that parses decides: a map of files is taken, anything else refused; with none
      the response is refused. */
  lemma {:induction false} FirstVerdictIs(py: Python, cs: seq<string>, k: nat)
    requires k <= |cs| && forall i :: 0 <= i < k ==> py.loads(cs[i]) == Fails
    ensures k == |cs| ==> FirstVerdict(py, cs) == Rejected
    ensures k < |cs| && py.loads(cs[k]).FileMap? ==> FirstVerdict(py, cs) == Update(py.loads(cs[k]).files)
    ensures k < |cs| && (py.loads(cs[k]).NotObject? || py.loads(cs[k]).NotStrings?) ==> FirstVerdict(py, cs) == Rejected
  {
    if k > 0 { FirstVerdictIs(py, cs[1..], k - 1); }
  }

  /** When the scanned object is none or does not parse, what is fenced decides, if anything is and it
      parses; and when that does not either, the whole text decides. */
  lemma FallsThrough(py: Python, text: string)
    requires OuterObject(text).Some? ==> OuterObject(text).value == "" || py.loads(OuterObject(text).value) == Fails
    ensures var fenced := Fenced(py, text);
            if fenced.Some? && fenced.value != "" && py.loads(fenced.value) != Fails
            then FirstVerdict(py, Candidates(py, text)) == FirstVerdict(py, [fenced.value])
            else FirstVerdict(py, Candidates(py, text)) == FirstVerdict(py, [text])
  {
    var cs := Candidates(py, text);
    var fenced := Fenced(py, text);
    var rest := if fenced.Some? && fenced.value != "" then [fenced.value, text] else [text];
    assert cs == rest || cs[1..] == rest;
    if |rest| == 2 { assert rest[1..] == [text]; }
  }

  lemma ScannedObjectIsFirstIff(py: Python, text: string)
    requires OuterObject(text).Some? && OuterObject(text).value != ""
    ensures Candidates(py, text)[0] == OuterObject(text).value
       <==> !(OuterObject(text).value == text && Fenced(py, text).Some? && Fenced(py, text).value != ""
              && Fenced(py, text).value != text)
  {
  }

  /** Nothing in `text` is fenced, or what is fenced does not parse, or it says the same. */
  predicate FenceHarmless(py: Python, text: string, files: map<string, string>) {
    var fenced := Fenced(py, text);
    fenced.None? || fenced.value == "" || py.loads(fenced.value) == Fails || py.loads(fenced.value) == FileMap(files)
  }

  /** A response that is one JSON object, with or without brace-free text before it and any text after
      it, is read as that object if and only if there is such text or what is fenced inside the object
      does not matter. */
  lemma ObjectIsReadIff(py: Python, raw: string, before: string, doc: Value, after: string, files: map<string, string>)
    requires doc.Obj? && ValueOk(doc) && '{' !in before
    requires Strip(py, raw) == before + ValueText(doc) + after
    requires !IsNoChanges(py, Strip(py, raw)) && py.loads(ValueText(doc)) == FileMap(files)
    ensures Reading(py, raw) == Update(files) <==> before != "" || after != "" || FenceHarmless(py, ValueText(doc), files)
  {
    var text := Strip(py, raw);
    ScannerReturnsTheObject(before, doc, after);
    assert ValueText(doc)[0] == '{';
    if before == "" && after == "" {
      assert text == ValueText(doc);
      var fenced := Fenced(py, text);
      if fenced.Some? && fenced.value != "" {
        assert Candidates(py, text) == [fenced.value, text];
        assert [fenced.value, text][1..] == [text] && FirstVerdict(py, [text]) == Update(files);
      }
    } else {
      assert |text| > |ValueText(doc)|;
      ScannedObjectIsFirstIff(py, text);
    }
  }

  // What is fenced, read off the text.

  /** A fence at `i`, then perhaps the word json, then spaces up to a brace at `b`. */
  predicate Opens(py: Python, text: string, i: nat, b: nat) {
    && FenceAt(text, i) && i + 3 <= b < |text| && text[b] == '{'
    && (|| Spaces(py, text, i + 3, b)
        || (i + 7 <= b && IsJsonWord(text[i + 3..i + 7]) && Spaces(py, text, i + 7, b)))
  }

  predicate Spaces(py: Python, text: string, i: nat, b: nat)
    requires b <= |text|
  {
    forall k :: i <= k < b ==> py.isSpace(text[k])
  }

  /** Braces, backticks and letters are no white space. */
  predicate Sane(py: Python) {
    !py.isSpace('{') && !py.isSpace('`') && !py.isSpace('j') && !py.isSpace('J')
  }

  lemma {:induction false} SkipSpaceIs(py: Python, text: string, i: nat, b: nat)
    requires i <= b < |text| && Spaces(py, text, i, b) && !py.isSpace(text[b])
    ensures SkipSpace(py, text, i) == b
    decreases b - i
  {
    if i < b { SkipSpaceIs(py, text, i + 1, b); }
  }

  lemma {:induction false} SkipSpaceSkips(py: Python, text: string, i: nat)
    requires i <= |text|
    ensures Spaces(py, text, i, SkipSpace(py, text, i))
    decreases |text| - i
  {
    if i < |text| && py.isSpace(text[i]) { SkipSpaceSkips(py, text, i + 1); }
  }

  lemma OpensIff(py: Python, text: string, i: nat, b: nat)
    requires Sane(py)
    ensures Opens(py, text, i, b) <==> FenceAt(text, i) && GroupStart(py, text, i) == Some(b)
  {
    if FenceAt(text, i) {
      var word := i + 7 <= |text| && IsJsonWord(text[i + 3..i + 7]);
      var j := if word then i + 7 else i + 3;
      SkipSpaceSkips(py, text, j);
      if Opens(py, text, i, b) {
        if word { assert text[i + 3] == text[i + 3..i + 7][0] && !py.isSpace(text[i + 3]) && text[i + 3] != '{'; }
        SkipSpaceIs(py, text, j, b);
      }
    }
  }

  lemma {:induction false} LastFenceExists(text: string, from: nat, e: nat)
    requires from <= e && FenceAt(text, e)
    ensures from <= |text| && LastFence(text, from).Some?
    decreases e - from
  {
    if from < e { LastFenceExists(text, from + 1, e); }
  }

  /** An opening fence at `i` is followed by another fence. */
  ghost predicate Fences(py: Python, text: string, i: nat) {
    exists b: nat, e: nat :: Opens(py, text, i, b) && b < e && FenceAt(text, e)
  }

  lemma MatchAtIff(py: Python, text: string, i: nat)
    requires Sane(py)
    ensures MatchAt(py, text, i).Some? <==> Fences(py, text, i)
  {
    if MatchAt(py, text, i).Some? {
      var b := GroupStart(py, text, i).value;
      var e := LastFence(text, b + 1).value;
      OpensIff(py, text, i, b);
      assert Opens(py, text, i, b) && b < e && FenceAt(text, e);
    }
    if Fences(py, text, i) {
      var b: nat, e: nat :| Opens(py, text, i, b) && b < e && FenceAt(text, e);
      OpensIff(py, text, i, b);
      LastFenceExists(text, b + 1, e);
    }
  }

  lemma {:induction false} FencedFromIff(py: Python, text: string, i: nat)
    ensures FencedFrom(py, text, i).Some? <==> exists k: nat :: i <= k < |text| && MatchAt(py, text, k).Some?
    decreases |text| - i
  {
    if i < |text| && MatchAt(py, text, i).None? { FencedFromIff(py, text, i + 1); }
  }

  /** Something is fenced exactly when an opening fence before a brace is followed by another fence. */
  lemma FencedIff(py: Python, text: string)
    requires Sane(py)
    ensures Fenced(py, text).Some? <==> exists i: nat :: Fences(py, text, i)
  {
    FencedFromIff(py, text, 0);
    if Fenced(py, text).Some? {
      var i: nat :| i < |text| && MatchAt(py, text, i).Some?;
      MatchAtIff(py, text, i);
    }
    if i: nat :| Fences(py, text, i) {
      MatchAtIff(py, text, i);
      assert i < |text|;
    }
  }

  /** What is fenced runs from the brace after the first such opening fence to the last fence. */
  lemma FencedIs(py: Python, text: string, i: nat, b: nat, e: nat)
    requires Sane(py) && Opens(py, text, i, b) && b < e && FenceAt(text, e)
    requires forall k :: e < k ==> !FenceAt(text, k)
    requires forall k: nat :: k < i ==> !Fences(py, text, k)
    ensures Fenced(py, text) == Some(Strip(py, text[b..e]))
  {
    OpensIff(py, text, i, b);
    LastFenceIs(text, b + 1, e);
    forall k | 0 <= k < i ensures MatchAt(py, text, k).None? {
      MatchAtIff(py, text, k);
    }
    FencedIsFirstMatch(py, text, 0, i);
  }

  lemma {:induction false} LastFenceIs(text: string, from: nat, e: nat)
    requires from <= e && FenceAt(text, e) && forall k :: e < k ==> !FenceAt(text, k)
    ensures LastFence(text, from) == Some(e)
    decreases e - from
  {
    if from < e { LastFenceIs(text, from + 1, e); } else { NoLaterFence(text, e + 1); }
  }

  lemma {:induction false} NoLaterFence(text: string, from: nat)
    requires from <= |text| && forall k :: from <= k ==> !FenceAt(text, k)
    ensures LastFence(text, from) == None
    decreases |text| - from
  {
    if from < |text| { NoLaterFence(text, from + 1); }
  }

  lemma {:induction false} FencedIsFirstMatch(py: Python, text: string, i: nat, at: nat)
    requires i <= at < |text| && MatchAt(py, text, at).Some?
    requires forall k :: i <= k < at ==> MatchAt(py, text, k).None?
    ensures FencedFrom(py, text, i) == MatchAt(py, text, at)
    decreases at - i
  {
    if i < at { FencedIsFirstMatch(py, text, i + 1, at); }
  }

  /** Any text of the shape a```body```c, with `body` starting with a brace and no other backticks,
      has `body` as its fenced part, wherever the fences stand. */
  lemma FencedBody(py: Python, a: string, body: string, c: string)
    requires '`' !in a && '`' !in body && '`' !in c && body != "" && body[0] == '{' && !py.isSpace('{')
    ensures Fenced(py, a + "```" + body + "```" + c) == Some(Strip(py, body))
  {
    var text := a + "```" + body + "```" + c;
    var at, b, e := |a|, |a| + 3, |a| + 3 + |body|;
    forall k | 0 <= k < at ensures !FenceAt(text, k) {
      assert text[k] == a[k] && a[k] in a;
    }
    assert text[at..at + 3] == "```" && text[b] == '{' && text[e..e + 3] == "```";
    assert text[e..] == "```" + c;
    forall k | e < k ensures !FenceAt(text, k) {
      if k + 3 <= |text| {
        assert text[k..k + 3][2] == text[k + 2] == c[k + 2 - (e + 3)] && c[k + 2 - (e + 3)] in c;
      }
    }
    assert GroupStart(py, text, at) == Some(b) by {
      if b + 4 <= |text| { assert text[b..b + 4][0] == '{'; }
    }
    LastFenceIs(text, b + 1, e);
    assert text[b..e] == body;
    FencedIsFirstMatch(py, text, 0, at);
  }

  /** So for a response that is one JSON object and has that shape, the part between the fences is
      tried first; when it parses, its verdict replaces the object's. */
  lemma FenceInsideObjectWins(py: Python, doc: Value, a: string, body: string, c: string)
    requires doc.Obj? && ValueOk(doc) && ValueText(doc) == a + "```" + body + "```" + c
    requires '`' !in a && '`' !in body && '`' !in c && body != "" && body[0] == '{' && !py.isSpace('{')
    requires Strip(py, body) == body && py.loads(body) != Fails
    ensures FirstVerdict(py, Candidates(py, ValueText(doc))) == FirstVerdict(py, [body])
  {
    FencedBody(py, a, body, c);
    ScannerReturnsTheObject("", doc, "");
    assert "" + ValueText(doc) + "" == ValueText(doc);
    assert |body| < |ValueText(doc)|;
  }

  lemma {:induction false} PlainItems(cs: string, items: seq<Item>)
    requires |cs| == |items| && forall i :: 0 <= i < |cs| ==> items[i] == Plain(cs[i])
    ensures ItemsText(items) == cs
  {
    if cs != [] {
      PlainItems(cs[1..], items[1..]);
    }
  }

  /** A file map whose one file holds a fenced pair of braces. */
  function FencedDoc(): Value {
    Obj("", MCons("", [Plain('a')], "", "", Str(FencedItems()), "", MNil))
  }

  function FencedItems(): seq<Item> {
    [Plain('`'), Plain('`'), Plain('`'), Plain('{'), Plain('}'), Plain('`'), Plain('`'), Plain('`')]
  }

  lemma FencedItemsText()
    ensures ItemsOk(FencedItems()) && ItemsText(FencedItems()) == "```" + "{}" + "```"
  {
    PlainItems("```{}```", FencedItems());
  }

  lemma FencedDocText()
    ensures ValueOk(FencedDoc()) && ValueText(FencedDoc()) == "{\"a\":\"" + "```" + "{}" + "```" + "\"}"
  {
    FencedItemsText();
    PlainItems("a", [Plain('a')]);
    var value := StringText(FencedItems());
    assert value == "\"" + ("```" + "{}" + "```") + "\"";
    assert MembersText(FencedDoc().members) == "\"a\"" + ":" + value;
  }

  /** So with any `json.loads` that reads the document and the braces inside it, the response that is
      this document is taken for an empty file map instead of the one it says. */
  lemma FencedDocIsMisread(py: Python)
    requires !py.isSpace('{') && !py.isSpace('}')
    requires py.loads(ValueText(FencedDoc())) == FileMap(map["a" := "```{}```"]) && py.loads("{}") == FileMap(map[])
    ensures Strip(py, ValueText(FencedDoc())) == ValueText(FencedDoc())
    ensures FirstVerdict(py, Candidates(py, ValueText(FencedDoc()))) == Update(map[])
    ensures FirstVerdict(py, [ValueText(FencedDoc())]) == Update(map["a" := "```{}```"])
  {
    var text := ValueText(FencedDoc());
    FencedDocText();
    assert text[0] == '{' && text[|text| - 1] == '}';
    assert Strip(py, "{}") == "{}";
    FenceInsideObjectWins(py, FencedDoc(), "{\"a\":\"", "{}", "\"}");
  }
}
