/** `parse_rust_type`: the heuristic parser that should undo the printer. */
module TypeParser {
  import opened Options
  import opened Types
  import opened Text

  // ---------- Splitting generic arguments ----------

  /** The pieces of `s` at commas outside angle brackets, when `depth` brackets are already open and
      `current` is already collected. A blank last piece is dropped. */
  function SplitFrom(s: string, depth: int, current: string): seq<string>
    decreases |s|
  {
    if s == "" then (if Trim(current) == "" then [] else [Trim(current)])
    else
      var c, rest := s[0], s[1..];
      if c == '<' then SplitFrom(rest, depth + 1, current + [c])
      else if c == '>' then SplitFrom(rest, depth - 1, current + [c])
      else if c == ',' && depth == 0 then [Trim(current)] + SplitFrom(rest, depth, "")
      else SplitFrom(rest, depth, current + [c])
  }

  function SplitArgs(s: string): seq<string> {
    SplitFrom(s, 0, "")
  }

  lemma {:induction false} SplitFromShort(s: string, depth: int, current: string)
    ensures forall p :: p in SplitFrom(s, depth, current) ==> |p| <= |s| + |current|
    decreases |s|
  {
    if s != "" {
      var c, rest := s[0], s[1..];
      if c == '<' {
        SplitFromShort(rest, depth + 1, current + [c]);
      } else if c == '>' {
        SplitFromShort(rest, depth - 1, current + [c]);
      } else if c == ',' && depth == 0 {
        SplitFromShort(rest, depth, "");
      } else {
        SplitFromShort(rest, depth, current + [c]);
      }
    }
  }

  /** The splitter as the parser runs it. */
  method SplitGenericArgs(s: string) returns (result: seq<string>)
    ensures result == SplitArgs(s)
  {
    result := [];
    var depth := 0;
    var current := "";
    for i := 0 to |s|
      invariant result + SplitFrom(s[i..], depth, current) == SplitArgs(s)
    {
      var c := s[i];
      assert s[i..][0] == c && s[i..][1..] == s[i + 1..];
      if c == '<' {
        depth := depth + 1;
        current := current + [c];
      } else if c == '>' {
        depth := depth - 1;
        current := current + [c];
      } else if c == ',' && depth == 0 {
        result := result + [Trim(current)];
        current := "";
      } else {
        current := current + [c];
      }
    }
    assert s[|s|..] == "";
    if Trim(current) != "" {
      result := result + [Trim(current)];
    }
  }

  lemma {:induction false} SplitFromKeepsOut(s: string, depth: int, current: string, x: char)
    requires x !in s && x !in current
    ensures forall p :: p in SplitFrom(s, depth, current) ==> x !in p
    decreases |s|
  {
    TrimKeepsOut(current, x);
    if s != "" {
      var c, rest := s[0], s[1..];
      if c == '<' {
        SplitFromKeepsOut(rest, depth + 1, current + [c], x);
      } else if c == '>' {
        SplitFromKeepsOut(rest, depth - 1, current + [c], x);
      } else if c == ',' && depth == 0 {
        SplitFromKeepsOut(rest, depth, "", x);
      } else {
        SplitFromKeepsOut(rest, depth, current + [c], x);
      }
    }
  }

  // ---------- Names ----------

  /** The keywords; the unit type is recognised earlier, by its brackets. */
  const KEYWORDS: seq<PrimitiveType> :=
    [I8, I16, I32, I64, I128, ISize, U8, U16, U32, U64, U128, USize, F32, F64, Bool, Char, Str]

  function Named(s: string, among: seq<PrimitiveType>): Option<PrimitiveType> {
    if among == [] then None
    else if s == among[0].AsStr() then Some(among[0])
    else Named(s, among[1..])
  }

  lemma {:induction false} NamedFindsKeyword(s: string, among: seq<PrimitiveType>)
    ensures Named(s, among).Some? ==> Named(s, among).value in among && Named(s, among).value.AsStr() == s
    ensures Named(s, among).None? ==> forall p :: p in among ==> p.AsStr() != s
    decreases |among|
  {
    if among != [] && s != among[0].AsStr() {
      NamedFindsKeyword(s, among[1..]);
      assert among == [among[0]] + among[1..];
    }
  }

  function PrimitiveNamed(s: string): Option<PrimitiveType> {
    Named(s, KEYWORDS)
  }

  function ParseName(s: string): TypeInfo {
    match PrimitiveNamed(s)
    case Some(p) => Primitive(p)
    case None => if LooksLikeParam(s) then TypeParam(s, []) else Generic(s, [])
  }

  // ---------- The parser ----------

  /** The syntactic form the parser takes a trimmed text for, with the texts it will parse next. */
  datatype Form =
    | Placeholder
    | UnitForm
    | MutRef(rest: string)
    | SharedRef(rest: string)
    | Sized(element: string, length: string)
    | Unsized(element: string)
    | Parenthesised(pieces: seq<string>)
    | Applied(base: string, pieces: seq<string>)
    | Name
  {
    /** Every text still to be parsed is shorter than `bound`. */
    ghost predicate ShorterThan(bound: nat) {
      match this
      case MutRef(rest) => |rest| < bound
      case SharedRef(rest) => |rest| < bound
      case Sized(element, _) => |element| < bound
      case Unsized(element) => |element| < bound
      case Parenthesised(pieces) => forall p :: p in pieces ==> |p| < bound
      case Applied(_, pieces) => forall p :: p in pieces ==> |p| < bound
      case _ => true
    }
  }

  /** The text begins with `mut` and a space. */
  predicate StartsWithMut(s: string) {
    |s| > 3 && s[0] == 'm' && s[1] == 'u' && s[2] == 't' && s[3] == ' '
  }

  /** The parser's tests, in its order. */
  function Classify(s: string): (f: Form)
    ensures f.ShorterThan(|s|)
  {
    if s == "" || (|s| == 1 && s[0] == '_') then Placeholder
    else if |s| == 2 && s[0] == '(' && s[1] == ')' then UnitForm
    else if s[0] == '&' && StartsWithMut(s[1..]) then MutRef(s[5..])
    else if s[0] == '&' then SharedRef(SkipLifetime(s[1..]))
    else if s[0] == '[' && s[|s| - 1] == ']' then ClassifyBracketed(s[1..|s| - 1])
    else if s[0] == '(' && s[|s| - 1] == ')' then
      var inner := s[1..|s| - 1];
      SplitOnShort(inner, ',');
      Parenthesised(SplitOn(inner, ','))
    else ClassifyNamed(s)
  }

  /** A name, or a name applied to arguments. */
  function ClassifyNamed(s: string): (f: Form)
    requires s != ""
    ensures f.ShorterThan(|s|)
  {
    if Find(s, '<').Some? && s[|s| - 1] == '>' then
      var open := Find(s, '<').value;
      var inner := s[open + 1..|s| - 1];
      SplitFromShort(inner, 0, "");
      Applied(Trim(s[..open]), SplitArgs(inner))
    else Name
  }

  /** Between square brackets: an array if there is a semicolon, a slice otherwise. */
  function ClassifyBracketed(inner: string): (f: Form)
    ensures f.ShorterThan(|inner| + 1)
  {
    match Find(inner, ';')
    case Some(semi) => Sized(Trim(inner[..semi]), Trim(inner[semi + 1..]))
    case None => Unsized(inner)
  }

  /** What follows the ampersand: a leading lifetime is dropped up to the first space. */
  function SkipLifetime(rest: string): (r: string)
    ensures |r| <= |rest|
  {
    if rest != "" && rest[0] == '\'' && Find(rest[1..], ' ').Some?
    then rest[1..][Find(rest[1..], ' ').value + 1..]
    else rest
  }

  function Prepared(input: string): (s: string)
    ensures |s| <= |input|
  {
    TrimTrailing(Trim(input))
  }

  function ParseRustType(input: string): TypeInfo
    decreases |input|, 1
  {
    var s := Prepared(input);
    match Classify(s)
    case Placeholder => Unknown
    case UnitForm => Primitive(Unit)
    case MutRef(rest) => Reference(ParseRustType(rest), true, None)
    case SharedRef(rest) => Reference(ParseRustType(rest), false, None)
    case Sized(element, length) => Array(ParseRustType(element), ParseUsize(length))
    case Unsized(element) => Slice(ParseRustType(element))
    case Parenthesised(pieces) => Tuple(ParseAll(pieces, |input|))
    case Applied(base, pieces) => Generic(base, ParseAll(pieces, |input|))
    case Name => ParseName(s)
  }

  function ParseAll(pieces: seq<string>, bound: nat): (r: seq<TypeInfo>)
    requires forall p :: p in pieces ==> |p| < bound
    ensures |r| == |pieces|
    decreases bound, 0
  {
    seq(|pieces|, i requires 0 <= i < |pieces| => assert pieces[i] in pieces; ParseRustType(Trim(pieces[i])))
  }
}
