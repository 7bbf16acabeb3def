/** Rust field types as the derive macro sees them, and the resolvers that turn them into JSON
    Schema expressions, BAML types and dependency names
    (crates/baml-derive/src/schema_resolve.rs, crates/baml-derive/src/resolve.rs,
    crates/baml-derive/src/expand.rs:523-616). */
module RustTypes {
  import opened Options

  /** The integer types; `Unbounded` is none of Rust's and stands for an integer of any size. */
  datatype IntKind = I8 | I16 | I32 | I64 | I128 | Isize | U8 | U16 | U32 | U64 | U128 | Usize | Unbounded

  /** Pointer-sized integers have 64 bits. */
  predicate IntFits(kind: IntKind, n: int) {
    match kind
    case I8 => -0x80 <= n < 0x80
    case I16 => -0x8000 <= n < 0x8000
    case I32 => -0x8000_0000 <= n < 0x8000_0000
    case I64 => -0x8000_0000_0000_0000 <= n < 0x8000_0000_0000_0000
    case Isize => -0x8000_0000_0000_0000 <= n < 0x8000_0000_0000_0000
    case I128 => -0x8000_0000_0000_0000_0000_0000_0000_0000 <= n < 0x8000_0000_0000_0000_0000_0000_0000_0000
    case U8 => 0 <= n < 0x100
    case U16 => 0 <= n < 0x1_0000
    case U32 => 0 <= n < 0x1_0000_0000
    case U64 => 0 <= n < 0x1_0000_0000_0000_0000
    case Usize => 0 <= n < 0x1_0000_0000_0000_0000
    case U128 => 0 <= n < 0x1_0000_0000_0000_0000_0000_0000_0000_0000
    case Unbounded => true
  }

  /** The last identifier of a path; the resolvers know these names, all others are user types. */
  datatype Ident =
    | StringId | BoolId | IntId(kind: IntKind) | FloatId
    | ValueId | OptionId | VecId | MapId | BoxId
    | UserId(name: string)

  /** A type as syntax: a path with generic arguments, a reference, or anything else. */
  datatype Ty = Path(id: Ident, args: Args) | Ref(elem: Ty) | OtherTy
  datatype Args = NoArgs | Angle(list: ArgList) | Parenthesized
  datatype ArgList = Nil | Cons(arg: Arg, rest: ArgList)
  datatype Arg = TyArg(ty: Ty) | NonTy

  const STRING := Path(StringId, NoArgs)

  function Generic(id: Ident, t: Ty): Ty {
    Path(id, Angle(Cons(TyArg(t), Nil)))
  }

  function MapOf(k: Ty, v: Ty): Ty {
    Path(MapId, Angle(Cons(TyArg(k), Cons(TyArg(v), Nil))))
  }

  /** `extract_single_generic_arg`: the first generic argument, if it is a type. */
  function SingleArg(args: Args): (r: Option<Ty>)
    ensures r.Some? ==> r.value < args
  {
    match args
    case Angle(Cons(TyArg(t), _)) => Some(t)
    case _ => None
  }

  /** `extract_two_generic_args`. */
  function TwoArgs(args: Args): (r: Option<(Ty, Ty)>)
    ensures r.Some? ==> r.value.0 < args && r.value.1 < args
  {
    match args
    case Angle(Cons(TyArg(a), Cons(TyArg(b), _))) => Some((a, b))
    case _ => None
  }

  datatype JType = TString | TBoolean | TInteger | TNumber | TNull | TArray | TObject

  /** The expression the schema resolver emits; user types are filled in when it is evaluated. */
  datatype Expr =
    | EType(t: JType)
    | EAny
    | ENullable(inner: Expr)
    | EArray(items: Expr)
    | EDict(values: Expr)
    | EInline(name: string)
    | EOneOrMany(item: Expr)

  function PrimitiveSchema(id: Ident): Option<JType> {
    match id
    case StringId => Some(TString)
    case BoolId => Some(TBoolean)
    case IntId(_) => Some(TInteger)
    case FloatId => Some(TNumber)
    case _ => None
  }

  function Wrap(inner: Option<Expr>, f: Expr -> Expr): Option<Expr> {
    match inner case Some(e) => Some(f(e)) case None => None
  }

  /** `resolve_schema_tokens`; None is a compile-time error. */
  function ResolveSchema(ty: Ty): Option<Expr> {
    match ty
    case Ref(e) => ResolveSchema(e)
    case OtherTy => None
    case Path(id, args) =>
      if PrimitiveSchema(id).Some? then Some(EType(PrimitiveSchema(id).value))
      else match id
        case ValueId => Some(EAny)
        case OptionId => if SingleArg(args).None? then None else Wrap(ResolveSchema(SingleArg(args).value), e => ENullable(e))
        case VecId => if SingleArg(args).None? then None else Wrap(ResolveSchema(SingleArg(args).value), e => EArray(e))
        case MapId => if TwoArgs(args).None? then None else Wrap(ResolveSchema(TwoArgs(args).value.1), e => EDict(e))
        case BoxId => if SingleArg(args).None? then None else ResolveSchema(SingleArg(args).value)
        case UserId(name) => if args != NoArgs then Some(EAny) else Some(EInline(name))
        case _ => None
  }

  /** A BAML type. */
  datatype Baml =
    | BPrim(p: Prim)
    | BUser(name: string)
    | BOptional(inner: Baml)
    | BList(inner: Baml)
    | BMap(key: Baml, value: Baml)
    | BOneOrMany(inner: Baml)
  datatype Prim = PString | PBool | PInt | PFloat

  function PrimitiveBaml(id: Ident): Option<Prim> {
    match id
    case StringId => Some(PString)
    case BoolId => Some(PBool)
    case IntId(_) => Some(PInt)
    case FloatId => Some(PFloat)
    case _ => None
  }

  /** `resolve_type_tokens`: stricter, it refuses `Value` and unknown generics and also resolves map
      keys. */
  function ResolveBaml(ty: Ty): Option<Baml> {
    match ty
    case Ref(e) => ResolveBaml(e)
    case OtherTy => None
    case Path(id, args) =>
      if PrimitiveBaml(id).Some? then Some(BPrim(PrimitiveBaml(id).value))
      else match id
        case OptionId =>
          if SingleArg(args).None? then None
          else (match ResolveBaml(SingleArg(args).value) case Some(b) => Some(BOptional(b)) case None => None)
        case VecId =>
          if SingleArg(args).None? then None
          else (match ResolveBaml(SingleArg(args).value) case Some(b) => Some(BList(b)) case None => None)
        case MapId =>
          if TwoArgs(args).None? then None
          else (match (ResolveBaml(TwoArgs(args).value.0), ResolveBaml(TwoArgs(args).value.1))
                case (Some(k), Some(v)) => Some(BMap(k, v))
                case _ => None)
        case BoxId => if SingleArg(args).None? then None else ResolveBaml(SingleArg(args).value)
        case UserId(name) => if args != NoArgs then None else Some(BUser(name))
        case _ => None
  }

  function PeelRefs(ty: Ty): (r: Ty)
    ensures !r.Ref?
  {
    match ty case Ref(e) => PeelRefs(e) case _ => ty
  }

  /** `vec_or_one_is_optional`. */
  predicate VecOrOneOptional(ty: Ty) {
    var t := PeelRefs(ty);
    t.Path? && t.id == OptionId
  }

  /** `vec_or_one_element_type`: T of `Vec<T>` or `Option<Vec<T>>`. */
  function VecOrOneElement(ty: Ty): Option<Ty> {
    match PeelRefs(ty)
    case Path(OptionId, args) =>
      if SingleArg(args).None? then None
      else (match PeelRefs(SingleArg(args).value)
            case Path(VecId, inner) => SingleArg(inner)
            case _ => None)
    case Path(VecId, args) => SingleArg(args)
    case _ => None
  }

  /** `resolve_schema_tokens_for_vec_or_one_field`. */
  function ResolveVecOrOne(ty: Ty): Option<Expr> {
    match VecOrOneElement(ty)
    case None => None
    case Some(elem) =>
      match ResolveSchema(elem)
      case None => None
      case Some(e) => Some(if VecOrOneOptional(ty) then ENullable(EOneOrMany(e)) else EOneOrMany(e))
  }

  /** `resolve_type_tokens_for_vec_or_one_field`. */
  function ResolveBamlVecOrOne(ty: Ty): Option<Baml> {
    match VecOrOneElement(ty)
    case None => None
    case Some(elem) =>
      match ResolveBaml(elem)
      case None => None
      case Some(b) => Some(if VecOrOneOptional(ty) then BOptional(BOneOrMany(b)) else BOneOrMany(b))
  }

  /** `extract_user_type_dep`. */
  function UserTypeDep(ty: Ty): Option<string> {
    match ty
    case Ref(e) => UserTypeDep(e)
    case OtherTy => None
    case Path(id, args) =>
      match id
      case OptionId => if SingleArg(args).None? then None else UserTypeDep(SingleArg(args).value)
      case VecId => if SingleArg(args).None? then None else UserTypeDep(SingleArg(args).value)
      case BoxId => if SingleArg(args).None? then None else UserTypeDep(SingleArg(args).value)
      case MapId => if TwoArgs(args).None? then None else UserTypeDep(TwoArgs(args).value.1)
      case ValueId => if args == NoArgs then Some("Value") else None
      case UserId(name) => if args == NoArgs then Some(name) else None
      case _ => None
  }

  /** The user types an expression delegates to. */
  function Inlined(e: Expr): set<string> {
    match e
    case EType(_) => {}
    case EAny => {}
    case ENullable(i) => Inlined(i)
    case EArray(i) => Inlined(i)
    case EDict(i) => Inlined(i)
    case EInline(n) => {n}
    case EOneOrMany(i) => Inlined(i)
  }

  predicate AnyFree(e: Expr) {
    match e
    case EType(_) => true
    case EAny => false
    case ENullable(i) => AnyFree(i)
    case EArray(i) => AnyFree(i)
    case EDict(i) => AnyFree(i)
    case EInline(_) => true
    case EOneOrMany(i) => AnyFree(i)
  }

  /** Every user type that a field's schema inlines is the dependency listed for the field, so
      following inlined types never leaves the listed dependencies. */
  lemma {:induction false} InlinedIsListed(ty: Ty)
    ensures ResolveSchema(ty).Some? ==> forall n :: n in Inlined(ResolveSchema(ty).value) ==> UserTypeDep(ty) == Some(n)
  {
    match ty
    case Ref(e) => InlinedIsListed(e);
    case OtherTy =>
    case Path(id, args) =>
      if SingleArg(args).Some? { InlinedIsListed(SingleArg(args).value); }
      if TwoArgs(args).Some? { InlinedIsListed(TwoArgs(args).value.1); }
  }

  /** Without the any-schema there is no other dependency. */
  lemma {:induction false} ListedIffInlined(ty: Ty, n: string)
    requires ResolveSchema(ty).Some? && AnyFree(ResolveSchema(ty).value)
    ensures UserTypeDep(ty) == Some(n) <==> n in Inlined(ResolveSchema(ty).value)
  {
    match ty
    case Ref(e) => ListedIffInlined(e, n);
    case Path(id, args) =>
      if id == MapId { ListedIffInlined(TwoArgs(args).value.1, n); }
      else if id == OptionId || id == VecId || id == BoxId { ListedIffInlined(SingleArg(args).value, n); }
  }

  lemma {:induction false} PeelRefsInvisible(ty: Ty)
    ensures ResolveSchema(PeelRefs(ty)) == ResolveSchema(ty) && UserTypeDep(PeelRefs(ty)) == UserTypeDep(ty)
    ensures ResolveBaml(PeelRefs(ty)) == ResolveBaml(ty)
  {
    if ty.Ref? { PeelRefsInvisible(ty.elem); }
  }

  /** The same for one-or-many fields. */
  lemma InlinedIsListedVecOrOne(ty: Ty)
    ensures ResolveVecOrOne(ty).Some? ==> forall n :: n in Inlined(ResolveVecOrOne(ty).value) ==> UserTypeDep(ty) == Some(n)
  {
    if VecOrOneElement(ty).Some? {
      var elem := VecOrOneElement(ty).value;
      InlinedIsListed(elem);
      assert UserTypeDep(elem) == UserTypeDep(ty) by {
        PeelRefsInvisible(ty);
        var t := PeelRefs(ty);
        if t.id == OptionId { PeelRefsInvisible(SingleArg(t.args).value); }
      }
    }
  }

  /** Map keys on the way are types BAML can express. */
  predicate KeysResolve(ty: Ty)
  {
    match ty
    case Ref(e) => KeysResolve(e)
    case OtherTy => true
    case Path(id, args) =>
      match id
      case OptionId => SingleArg(args).Some? ==> KeysResolve(SingleArg(args).value)
      case VecId => SingleArg(args).Some? ==> KeysResolve(SingleArg(args).value)
      case BoxId => SingleArg(args).Some? ==> KeysResolve(SingleArg(args).value)
      case MapId => TwoArgs(args).Some? ==> ResolveBaml(TwoArgs(args).value.0).Some? && KeysResolve(TwoArgs(args).value.1)
      case _ => true
  }

  /** The resolvers agree: BAML accepts a type exactly when the schema resolver accepts it without
      falling back to the any-schema and the map keys are expressible. */
  lemma {:induction false} ResolversAgree(ty: Ty)
    ensures ResolveBaml(ty).Some? <==>
              ResolveSchema(ty).Some? && AnyFree(ResolveSchema(ty).value) && KeysResolve(ty)
  {
    match ty
    case Ref(e) => ResolversAgree(e);
    case OtherTy =>
    case Path(id, args) =>
      if SingleArg(args).Some? { ResolversAgree(SingleArg(args).value); }
      if TwoArgs(args).Some? { ResolversAgree(TwoArgs(args).value.1); }
  }
}
