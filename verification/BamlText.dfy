/** BAML type text: what the resolvers print, and a parser that reads it back
    (crates/baml-derive/src/resolve.rs:43-125, 186-207). */
module BamlText {
  import opened Options
  import opened RustTypes

  function PrimText(p: Prim): string {
    match p case PString => "string" case PBool => "bool" case PInt => "int" case PFloat => "float"
  }

  function Print(b: Baml): string {
    match b
    case BPrim(p) => PrimText(p)
    case BUser(name) => name
    case BOptional(i) => Print(i) + "?"
    case BList(i) => Print(i) + "[]"
    case BMap(k, v) => "map<" + Print(k) + ", " + Print(v) + ">"
    case BOneOrMany(i) => "(" + Print(i) + " | " + Print(i) + "[])"
  }

  /** Characters that end a name. */
  predicate IsPunct(c: char) {
    c in "?[]<>(), |"
  }

  /** A user type name: not a primitive's, and free of punctuation. */
  predicate NameOk(name: string) {
    && name != "" && (forall i :: 0 <= i < |name| ==> !IsPunct(name[i]))
    && name != "string" && name != "bool" && name != "int" && name != "float"
  }

  predicate NamesOk(b: Baml) {
    match b
    case BPrim(_) => true
    case BUser(name) => NameOk(name)
    case BOptional(i) => NamesOk(i)
    case BList(i) => NamesOk(i)
    case BMap(k, v) => NamesOk(k) && NamesOk(v)
    case BOneOrMany(i) => NamesOk(i)
  }

  // The parser.

  function NameLength(s: string): (n: nat)
    ensures n <= |s| && (forall i :: 0 <= i < n ==> !IsPunct(s[i])) && (n < |s| ==> IsPunct(s[n]))
  {
    if s == [] || IsPunct(s[0]) then 0 else 1 + NameLength(s[1..])
  }

  function NameType(name: string): Baml {
    if name == "string" then BPrim(PString)
    else if name == "bool" then BPrim(PBool)
    else if name == "int" then BPrim(PInt)
    else if name == "float" then BPrim(PFloat)
    else BUser(name)
  }

  /** Read the `?` and `[]` that follow a type. */
  function Suffixes(b: Baml, s: string): (r: (Baml, string))
    ensures |r.1| <= |s|
    decreases |s|
  {
    if s != [] && s[0] == '?' then Suffixes(BOptional(b), s[1..])
    else if |s| >= 2 && s[0] == '[' && s[1] == ']' then Suffixes(BList(b), s[2..])
    else (b, s)
  }

  function Expect(token: string, s: string): (r: Option<string>)
    ensures r.Some? ==> s == token + r.value
  {
    if token <= s then Some(s[|token|..]) else None
  }

  /** Read one type from the front of `s`. */
  function Parse(s: string): (r: Option<(Baml, string)>)
    ensures r.Some? ==> |r.value.1| < |s|
    decreases |s|, 1
  {
    match ParseBase(s)
    case None => None
    case Some((b, rest)) => Some(Suffixes(b, rest))
  }

  function ParseBase(s: string): (r: Option<(Baml, string)>)
    ensures r.Some? ==> |r.value.1| < |s|
    decreases |s|, 0
  {
    if s == [] then None
    else if s[0] == '(' then
      match Parse(s[1..])
      case None => None
      case Some((one, rest)) =>
        match Expect(" | ", rest)
        case None => None
        case Some(rest2) =>
          match Parse(rest2)
          case None => None
          case Some((many, rest3)) =>
            if many == BList(one) && Expect(")", rest3).Some? then Some((BOneOrMany(one), Expect(")", rest3).value)) else None
    else
      var n := NameLength(s);
      if n == 0 then None
      else if s[..n] == "map" && n < |s| && s[n] == '<' then ParseMap(s[n + 1..])
      else Some((NameType(s[..n]), s[n..]))
  }

  function ParseMap(s: string): (r: Option<(Baml, string)>)
    ensures r.Some? ==> |r.value.1| < |s|
    decreases |s|, 2
  {
    match Parse(s)
    case None => None
    case Some((k, rest)) =>
      match Expect(", ", rest)
      case None => None
      case Some(rest2) =>
        match Parse(rest2)
        case None => None
        case Some((v, rest3)) =>
          if Expect(">", rest3).Some? then Some((BMap(k, v), Expect(">", rest3).value)) else None
  }

  // The round trip.

  /** Text that can follow a type: it starts with punctuation other than `<`. */
  predicate Follows(rest: string) {
    rest == [] || (IsPunct(rest[0]) && rest[0] != '<')
  }

  /** ... and after which no suffix is read. */
  predicate Ends(rest: string) {
    rest == [] || rest[0] in " ,>)"
  }

  lemma EndsReadsNothing(b: Baml, rest: string)
    requires Ends(rest)
    ensures Suffixes(b, rest) == (b, rest) && Follows(rest)
  {
  }

  lemma {:induction false} NameLengthIs(name: string, rest: string)
    requires (forall i :: 0 <= i < |name| ==> !IsPunct(name[i])) && (rest == [] || IsPunct(rest[0]))
    ensures NameLength(name + rest) == |name|
  {
    if name == [] {
      assert name + rest == rest;
    } else {
      assert (name + rest)[1..] == name[1..] + rest;
      NameLengthIs(name[1..], rest);
    }
  }

  lemma NameParses(name: string, rest: string)
    requires name != "" && (forall i :: 0 <= i < |name| ==> !IsPunct(name[i])) && Follows(rest)
    ensures Parse(name + rest) == Some(Suffixes(NameType(name), rest))
  {
    var s := name + rest;
    NameLengthIs(name, rest);
    assert s[0] == name[0] && !IsPunct(name[0]);
    assert s[..|name|] == name && s[|name|..] == rest;
    assert |name| < |s| ==> s[|name|] == rest[0];
  }

  lemma PrimNameParses(p: Prim)
    ensures NameType(PrimText(p)) == BPrim(p) && PrimText(p) != ""
    ensures forall i :: 0 <= i < |PrimText(p)| ==> !IsPunct(PrimText(p)[i])
  {
  }

  lemma ExpectFinds(token: string, rest: string)
    ensures Expect(token, token + rest) == Some(rest)
  {
    assert (token + rest)[|token|..] == rest;
    assert token <= token + rest;
  }

  /** A type is read back from its text, whatever punctuation follows; suffixes that follow are
      read on top of it. */
  lemma {:induction false} PrintParses(b: Baml, rest: string)
    requires NamesOk(b) && Follows(rest)
    ensures Parse(Print(b) + rest) == Some(Suffixes(b, rest))
    decreases b, 1
  {
    match b
    case BPrim(p) =>
      PrimNameParses(p);
      NameParses(PrimText(p), rest);
    case BUser(name) => NameParses(name, rest);
    case BOptional(i) =>
      PrintParses(i, "?" + rest);
      assert Print(b) + rest == Print(i) + ("?" + rest);
      assert ("?" + rest)[1..] == rest;
    case BList(i) =>
      PrintParses(i, "[]" + rest);
      assert Print(b) + rest == Print(i) + ("[]" + rest);
      assert ("[]" + rest)[2..] == rest;
    case BMap(k, v) => MapParses(k, v, rest);
    case BOneOrMany(i) => OneOrManyParses(i, rest);
  }

  /** Reading a type that is followed by text without suffixes. */
  lemma {:induction false} PrintParsesExactly(b: Baml, rest: string)
    requires NamesOk(b) && Ends(rest)
    ensures Parse(Print(b) + rest) == Some((b, rest))
    decreases b, 2
  {
    EndsReadsNothing(b, rest);
    PrintParses(b, rest);
  }

  lemma ParseMapComposes(kt: string, k: Baml, vt: string, v: Baml, rest: string)
    requires Parse(vt + (">" + rest)) == Some((v, ">" + rest))
    requires Parse(kt + (", " + (vt + (">" + rest)))) == Some((k, ", " + (vt + (">" + rest))))
    ensures ParseMap(kt + (", " + (vt + (">" + rest)))) == Some((BMap(k, v), rest))
  {
    ExpectFinds(">", rest);
    ExpectFinds(", ", vt + (">" + rest));
  }

  lemma MapHead(inner: string)
    ensures ParseBase("map" + ("<" + inner)) == ParseMap(inner)
  {
    var s := "map" + ("<" + inner);
    NameLengthIs("map", "<" + inner);
    assert s[0] == 'm' && s[..3] == "map" && s[3] == '<' && s[4..] == inner;
  }

  lemma MapTextShape(kt: string, vt: string, rest: string)
    ensures ("map<" + kt + ", " + vt + ">") + rest == "map" + ("<" + (kt + (", " + (vt + (">" + rest)))))
  {
  }

  lemma {:induction false} MapParses(k: Baml, v: Baml, rest: string)
    requires NamesOk(k) && NamesOk(v) && Follows(rest)
    ensures Parse(Print(BMap(k, v)) + rest) == Some(Suffixes(BMap(k, v), rest))
    decreases BMap(k, v), 0
  {
    PrintParsesExactly(v, ">" + rest);
    PrintParsesExactly(k, ", " + (Print(v) + (">" + rest)));
    ParseMapComposes(Print(k), k, Print(v), v, rest);
    MapHead(Print(k) + (", " + (Print(v) + (">" + rest))));
    MapTextShape(Print(k), Print(v), rest);
  }

  lemma OneOrManyComposes(t: string, b: Baml, rest: string)
    requires Parse(t + ("[]" + (")" + rest))) == Some((BList(b), ")" + rest))
    requires Parse(t + (" | " + (t + ("[]" + (")" + rest))))) == Some((b, " | " + (t + ("[]" + (")" + rest)))))
    ensures ParseBase("(" + (t + (" | " + (t + ("[]" + (")" + rest)))))) == Some((BOneOrMany(b), rest))
  {
    var second := t + ("[]" + (")" + rest));
    var s := "(" + (t + (" | " + second));
    assert s[0] == '(' && s[1..] == t + (" | " + second);
    ExpectFinds(")", rest);
    ExpectFinds(" | ", second);
  }

  lemma OneOrManyTextShape(t: string, rest: string)
    ensures ("(" + t + " | " + t + "[])") + rest == "(" + (t + (" | " + (t + ("[]" + (")" + rest)))))
  {
  }

  lemma {:induction false} OneOrManyParses(i: Baml, rest: string)
    requires NamesOk(i) && Follows(rest)
    ensures Parse(Print(BOneOrMany(i)) + rest) == Some(Suffixes(BOneOrMany(i), rest))
    decreases BOneOrMany(i), 0
  {
    PrintParses(i, "[]" + (")" + rest));
    assert ("[]" + (")" + rest))[2..] == ")" + rest;
    EndsReadsNothing(BList(i), ")" + rest);
    PrintParsesExactly(i, " | " + (Print(i) + ("[]" + (")" + rest))));
    OneOrManyComposes(Print(i), i, rest);
    OneOrManyTextShape(Print(i), rest);
  }

  /** The text of a field type determines the type up to references, boxes and the collapsing of
      primitives and map types. */
  lemma TextIsUnambiguous(b: Baml, b': Baml)
    requires NamesOk(b) && NamesOk(b') && Print(b) == Print(b')
    ensures Parse(Print(b)) == Some((b, "")) && b == b'
  {
    PrintParses(b, "");
    PrintParses(b', "");
    assert Print(b) + "" == Print(b) && Print(b') + "" == Print(b');
  }

  // Back to Rust types.

  /** A Rust type up to what BAML does not tell apart: references and boxes are dropped, the integer
      types are one, and generic arguments beyond those in use do not count. */
  function Core(ty: Ty): Ty {
    match ty
    case Ref(e) => Core(e)
    case OtherTy => OtherTy
    case Path(id, args) =>
      match id
      case IntId(_) => Path(IntId(Unbounded), NoArgs)
      case OptionId => if SingleArg(args).None? then OtherTy else Generic(OptionId, Core(SingleArg(args).value))
      case VecId => if SingleArg(args).None? then OtherTy else Generic(VecId, Core(SingleArg(args).value))
      case BoxId => if SingleArg(args).None? then OtherTy else Core(SingleArg(args).value)
      case MapId => if TwoArgs(args).None? then OtherTy else MapOf(Core(TwoArgs(args).value.0), Core(TwoArgs(args).value.1))
      case UserId(_) => ty
      case _ => Path(id, NoArgs)
  }

  /** The Rust type a BAML type stands for; the union of one and many is a vector. */
  function TypeOf(b: Baml): Ty {
    match b
    case BPrim(PString) => Path(StringId, NoArgs)
    case BPrim(PBool) => Path(BoolId, NoArgs)
    case BPrim(PInt) => Path(IntId(Unbounded), NoArgs)
    case BPrim(PFloat) => Path(FloatId, NoArgs)
    case BUser(name) => Path(UserId(name), NoArgs)
    case BOptional(i) => Generic(OptionId, TypeOf(i))
    case BList(i) => Generic(VecId, TypeOf(i))
    case BMap(k, v) => MapOf(TypeOf(k), TypeOf(v))
    case BOneOrMany(i) => Generic(VecId, TypeOf(i))
  }

  predicate IsMany(b: Baml) {
    b.BOneOrMany? || (b.BOptional? && b.inner.BOneOrMany?)
  }

  /** What BAML can express: known types and user types without generics, in options, vectors, boxes,
      references and maps. */
  predicate Expressible(ty: Ty) {
    match ty
    case Ref(e) => Expressible(e)
    case OtherTy => false
    case Path(id, args) =>
      match id
      case ValueId => false
      case UserId(_) => args == NoArgs
      case OptionId => SingleArg(args).Some? && Expressible(SingleArg(args).value)
      case VecId => SingleArg(args).Some? && Expressible(SingleArg(args).value)
      case BoxId => SingleArg(args).Some? && Expressible(SingleArg(args).value)
      case MapId => TwoArgs(args).Some? && Expressible(TwoArgs(args).value.0) && Expressible(TwoArgs(args).value.1)
      case _ => true
  }

  lemma {:induction false} ResolvesIff(ty: Ty)
    ensures ResolveBaml(ty).Some? <==> Expressible(ty)
  {
    match ty
    case Ref(e) => ResolvesIff(e);
    case OtherTy =>
    case Path(id, args) =>
      if id == MapId && TwoArgs(args).Some? { ResolvesIff(TwoArgs(args).value.0); ResolvesIff(TwoArgs(args).value.1); }
      else if SingleArg(args).Some? { ResolvesIff(SingleArg(args).value); }
  }

  lemma {:induction false} ResolvedIsCore(ty: Ty)
    requires ResolveBaml(ty).Some?
    ensures TypeOf(ResolveBaml(ty).value) == Core(ty) && NoMany(ResolveBaml(ty).value)
  {
    match ty
    case Ref(e) => ResolvedIsCore(e);
    case Path(id, args) =>
      if id == MapId { ResolvedIsCore(TwoArgs(args).value.0); ResolvedIsCore(TwoArgs(args).value.1); }
      else if id == OptionId || id == VecId || id == BoxId { ResolvedIsCore(SingleArg(args).value); }
  }

  predicate NoMany(b: Baml) {
    match b
    case BOneOrMany(_) => false
    case BOptional(i) => NoMany(i)
    case BList(i) => NoMany(i)
    case BMap(k, v) => NoMany(k) && NoMany(v)
    case _ => true
  }

  lemma {:induction false} PeeledCore(ty: Ty)
    ensures Core(PeelRefs(ty)) == Core(ty)
  {
    if ty.Ref? { PeeledCore(ty.elem); }
  }

  lemma ResolvedManyIsCore(ty: Ty)
    requires ResolveBamlVecOrOne(ty).Some?
    ensures TypeOf(ResolveBamlVecOrOne(ty).value) == Core(ty) && IsMany(ResolveBamlVecOrOne(ty).value)
  {
    var t := PeelRefs(ty);
    PeeledCore(ty);
    if t.id == OptionId { PeeledCore(SingleArg(t.args).value); }
    ResolvedIsCore(VecOrOneElement(ty).value);
  }

  function FieldBaml(ty: Ty, many: bool): Option<Baml> {
    if many then ResolveBamlVecOrOne(ty) else ResolveBaml(ty)
  }

  /** The printed text of a field, plain or one-or-many, read back as a Rust type is the field's type up
      to what BAML does not tell apart, map keys included. */
  lemma FieldTextReadsBack(ty: Ty, many: bool)
    requires FieldBaml(ty, many).Some? && NamesOk(FieldBaml(ty, many).value)
    ensures var read := Parse(Print(FieldBaml(ty, many).value));
            read.Some? && read.value.1 == "" && TypeOf(read.value.0) == Core(ty) && IsMany(read.value.0) == many
  {
    var b := FieldBaml(ty, many).value;
    PrintParses(b, "");
    assert Print(b) + "" == Print(b);
    if many { ResolvedManyIsCore(ty); } else { ResolvedIsCore(ty); }
  }

  /** Two Rust field types that print the same BAML text are the same in that sense, and both plain or
      both one-or-many; they resolve to the same BAML type. */
  lemma FieldTextIsUnambiguous(ty: Ty, many: bool, ty': Ty, many': bool)
    requires var r, r' := FieldBaml(ty, many), FieldBaml(ty', many');
             r.Some? && r'.Some? && NamesOk(r.value) && NamesOk(r'.value) && Print(r.value) == Print(r'.value)
    ensures Core(ty) == Core(ty') && many == many' && FieldBaml(ty, many) == FieldBaml(ty', many')
  {
    FieldTextReadsBack(ty, many);
    FieldTextReadsBack(ty', many');
    TextIsUnambiguous(FieldBaml(ty, many).value, FieldBaml(ty', many').value);
  }

  const PAYLOAD := Generic(OptionId, MapOf(STRING, Path(UserId("OpaqueJson"), NoArgs)))

  lemma PayloadResolves()
    ensures ResolveBaml(PAYLOAD) == Some(BOptional(BMap(BPrim(PString), BUser("OpaqueJson"))))
  {
    assert ResolveBaml(STRING) == Some(BPrim(PString));
    assert ResolveBaml(Path(UserId("OpaqueJson"), NoArgs)) == Some(BUser("OpaqueJson"));
    assert ResolveBaml(PAYLOAD.args.list.arg.ty) == Some(BMap(BPrim(PString), BUser("OpaqueJson")));
  }

  /** The text of a field of the repository, `payload` of the history envelope. */
  lemma PayloadText()
    ensures FieldBaml(PAYLOAD, false).Some? && Print(FieldBaml(PAYLOAD, false).value) == "map<string, OpaqueJson>?"
  {
    PayloadResolves();
    var m := BMap(BPrim(PString), BUser("OpaqueJson"));
    assert Print(m) == "map<" + "string" + ", " + "OpaqueJson" + ">" == "map<string, OpaqueJson>";
  }

  lemma ItemsResolves()
    ensures ResolveBamlVecOrOne(Generic(OptionId, Generic(VecId, STRING))) == Some(BOptional(BOneOrMany(BPrim(PString))))
  {
    var items := Generic(OptionId, Generic(VecId, STRING));
    assert PeelRefs(items) == items && PeelRefs(Generic(VecId, STRING)) == Generic(VecId, STRING);
    assert ResolveBaml(STRING) == Some(BPrim(PString));
  }

  /** And of a one-or-many field, optional strings. */
  lemma ItemsText()
    ensures var items := Generic(OptionId, Generic(VecId, STRING));
            FieldBaml(items, true).Some? && Print(FieldBaml(items, true).value) == "(string | string[])?"
  {
    ItemsResolves();
    assert Print(BOneOrMany(BPrim(PString))) == "(" + "string" + " | " + "string" + "[])" == "(string | string[])";
  }
}
