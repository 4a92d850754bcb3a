/** Type terms, their printed form, and the heuristics that ask about a single term. */
module Types {
  import opened Options

  type Usize = n: nat | n < 0x1_0000_0000_0000_0000

  datatype PrimitiveType =
    | I8 | I16 | I32 | I64 | I128 | ISize
    | U8 | U16 | U32 | U64 | U128 | USize
    | F32 | F64 | Bool | Char | Str | Unit
  {
    function AsStr(): string {
      match this
      case I8 => "i8"
      case I16 => "i16"
      case I32 => "i32"
      case I64 => "i64"
      case I128 => "i128"
      case ISize => "isize"
      case U8 => "u8"
      case U16 => "u16"
      case U32 => "u32"
      case U64 => "u64"
      case U128 => "u128"
      case USize => "usize"
      case F32 => "f32"
      case F64 => "f64"
      case Bool => "bool"
      case Char => "char"
      case Str => "str"
      case Unit => "()"
    }
  }

  datatype TypeInfo =
    | Primitive(primitive: PrimitiveType)
    | Generic(base: string, args: seq<TypeInfo>)
    | Function(params: seq<TypeInfo>, ret: TypeInfo)
    | TraitBound(name: string, bounds: seq<TypeInfo>)
    | Lifetime(tag: string)
    | Reference(inner: TypeInfo, mutable: bool, lifetime: Option<string>)
    | Tuple(items: seq<TypeInfo>)
    | Array(element: TypeInfo, size: Option<Usize>)
    | Slice(element: TypeInfo)
    | AssociatedType(traitName: string, typeName: string)
    | TraitObject(traitName: string, lifetime: Option<string>)
    | TypeParam(name: string, bounds: seq<TypeInfo>)
    | Unknown
  {
    function BaseName(): string {
      match this
      case Primitive(p) => p.AsStr()
      case Generic(base, _) => base
      case Function(_, _) => "fn"
      case TraitBound(name, _) => name
      case Lifetime(_) => "lifetime"
      case Reference(_, _, _) => "ref"
      case Tuple(_) => "tuple"
      case Array(_, _) => "array"
      case Slice(_) => "slice"
      case AssociatedType(traitName, _) => traitName
      case TraitObject(traitName, _) => traitName
      case TypeParam(name, _) => name
      case Unknown => "_"
    }
  }

  /** A classification of all characters that is the usual one on ASCII. */
  type UppercaseTest = upper: char -> bool | forall c :: c < '\U{0080}' ==> (upper(c) <==> 'A' <= c <= 'Z')
    witness c => 'A' <= c <= 'Z'

  /** The library's upper-case test. Nothing is known of it beyond ASCII, so what is proved holds for any. */
  const IS_UPPERCASE: UppercaseTest

  /** The shape a bare name must have to be taken for a type parameter. */
  predicate LooksLikeParam(name: string) {
    0 < |name| <= 2 && IS_UPPERCASE(name[0])
  }

  predicate IsTypeParam(t: TypeInfo) {
    match t
    case TypeParam(_, _) => true
    case Generic(base, args) => args == [] && LooksLikeParam(base)
    case _ => false
  }

  // ---------- Printing ----------

  function Digits(n: nat): string {
    if n < 10 then [('0' as int + n) as char]
    else Digits(n / 10) + [('0' as int + n % 10) as char]
  }

  function Join(parts: seq<string>, separator: string): string {
    if parts == [] then ""
    else if |parts| == 1 then parts[0]
    else parts[0] + separator + Join(parts[1..], separator)
  }

  function Display(t: TypeInfo): string
    decreases t, 1
  {
    match t
    case Primitive(p) => p.AsStr()
    case Generic(base, args) =>
      if args == [] then base else base + "<" + Join(DisplayAll(args), ", ") + ">"
    case Function(params, ret) => "fn(" + Join(DisplayAll(params), ", ") + ") -> " + Display(ret)
    case TraitBound(name, bounds) =>
      if bounds == [] then name else name + ": " + Join(DisplayAll(bounds), " + ")
    case Lifetime(tag) => "'" + tag
    case Reference(inner, mutable, lifetime) =>
      var lt := if lifetime.Some? then "'" + lifetime.value + " " else "";
      if mutable then "&" + lt + "mut " + Display(inner) else "&" + lt + Display(inner)
    case Tuple(items) => "(" + Join(DisplayAll(items), ", ") + ")"
    case Array(element, size) =>
      if size.Some? then "[" + Display(element) + "; " + Digits(size.value) + "]" else "[" + Display(element) + "]"
    case Slice(element) => "[" + Display(element) + "]"
    case AssociatedType(traitName, typeName) => "<" + traitName + ">::" + typeName
    case TraitObject(traitName, lifetime) =>
      "dyn " + traitName + if lifetime.Some? then " + '" + lifetime.value else ""
    case TypeParam(name, bounds) =>
      if bounds == [] then name else name + ": " + Join(DisplayAll(bounds), " + ")
    case Unknown => "_"
  }

  function DisplayAll(ts: seq<TypeInfo>): (r: seq<string>)
    ensures |r| == |ts|
    decreases ts, 0
  {
    seq(|ts|, i requires 0 <= i < |ts| => Display(ts[i]))
  }
}
