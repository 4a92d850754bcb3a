/** Exactly which types survive being printed and parsed back. */
module RoundTrip {
  import opened Options
  import opened Types
  import opened Text
  import opened TypeParser

  // ---------- What the parser can produce ----------

  /** Only the term formers the parser ever builds; references may still carry a lifetime. */
  ghost predicate Shaped(t: TypeInfo) {
    match t
    case Primitive(_) => true
    case Unknown => true
    case TypeParam(_, bounds) => bounds == []
    case Generic(_, args) => forall i :: 0 <= i < |args| ==> Shaped(args[i])
    case Tuple(items) => forall i :: 0 <= i < |items| ==> Shaped(items[i])
    case Reference(inner, _, _) => Shaped(inner)
    case Array(element, _) => Shaped(element)
    case Slice(element) => Shaped(element)
    case _ => false
  }

  function EraseLifetimes(t: TypeInfo): TypeInfo
    decreases t, 1
  {
    match t
    case Generic(base, args) => Generic(base, EraseAll(args))
    case Tuple(items) => Tuple(EraseAll(items))
    case Reference(inner, mutable, _) => Reference(EraseLifetimes(inner), mutable, None)
    case Array(element, size) => Array(EraseLifetimes(element), size)
    case Slice(element) => Slice(EraseLifetimes(element))
    case _ => t
  }

  function EraseAll(ts: seq<TypeInfo>): (r: seq<TypeInfo>)
    ensures |r| == |ts|
    decreases ts, 0
  {
    seq(|ts|, i requires 0 <= i < |ts| => EraseLifetimes(ts[i]))
  }

  // ---------- The fragment ----------

  /** A character of an identifier or path: nothing the parser gives a meaning to. */
  predicate PlainChar(c: char) {
    && !IsWhitespace(c) && !IsTrailing(c)
    && c != '<' && c != '>' && c != '(' && c != ')' && c != '[' && c != ']' && c != '&' && c != '\''
  }

  predicate Plain(name: string) {
    name != "" && forall c :: c in name ==> PlainChar(c)
  }

  /** Every base, parameter and lifetime is an identifier. */
  ghost predicate WellNamed(t: TypeInfo) {
    match t
    case TypeParam(name, _) => Plain(name)
    case Generic(base, args) => Plain(base) && forall i :: 0 <= i < |args| ==> WellNamed(args[i])
    case Tuple(items) => forall i :: 0 <= i < |items| ==> WellNamed(items[i])
    case Reference(inner, _, lifetime) => (lifetime.Some? ==> Plain(lifetime.value)) && WellNamed(inner)
    case Array(element, _) => WellNamed(element)
    case Slice(element) => WellNamed(element)
    case _ => true
  }

  /** The printed form contains a comma. */
  ghost predicate HasComma(t: TypeInfo) {
    match t
    case Generic(_, args) => |args| > 1 || exists i :: 0 <= i < |args| && HasComma(args[i])
    case Tuple(items) => |items| > 1 || exists i :: 0 <= i < |items| && HasComma(items[i])
    case Reference(inner, _, _) => HasComma(inner)
    case Array(element, _) => HasComma(element)
    case Slice(element) => HasComma(element)
    case _ => false
  }

  /** The printed form contains a comma outside all angle brackets. */
  ghost predicate HasOuterComma(t: TypeInfo) {
    match t
    case Tuple(items) => |items| > 1 || exists i :: 0 <= i < |items| && HasOuterComma(items[i])
    case Reference(inner, _, _) => HasOuterComma(inner)
    case Array(element, _) => HasOuterComma(element)
    case Slice(element) => HasOuterComma(element)
    case _ => false
  }

  /** The term holds an array with a length, so its printed form contains a semicolon. */
  ghost predicate HasSizedArray(t: TypeInfo) {
    match t
    case Generic(_, args) => exists i :: 0 <= i < |args| && HasSizedArray(args[i])
    case Tuple(items) => exists i :: 0 <= i < |items| && HasSizedArray(items[i])
    case Reference(inner, _, _) => HasSizedArray(inner)
    case Array(element, size) => size.Some? || HasSizedArray(element)
    case Slice(element) => HasSizedArray(element)
    case _ => false
  }

  /** The fragment the parser inverts, up to lifetimes of shared references. */
  ghost predicate Readable(t: TypeInfo) {
    match t
    case Primitive(_) => true
    case Unknown => true
    case TypeParam(name, bounds) => bounds == [] && LooksLikeParam(name)
    case Generic(base, args) =>
      if args == [] then base != "_" && PrimitiveNamed(base).None? && !LooksLikeParam(base)
      else forall i :: 0 <= i < |args| ==> Readable(args[i]) && !HasOuterComma(args[i])
    case Tuple(items) => items != [] && forall i :: 0 <= i < |items| ==> Readable(items[i]) && !HasComma(items[i])
    case Reference(inner, mutable, lifetime) => Readable(inner) && (mutable ==> lifetime.None?)
    case Array(element, size) => size.Some? && Readable(element) && !HasSizedArray(element)
    case Slice(element) => Readable(element) && !HasSizedArray(element)
    case _ => false
  }

  // ---------- Facts about everything the parser returns ----------

  ghost predicate Erased(t: TypeInfo) {
    Shaped(t) && EraseLifetimes(t) == t
  }

  lemma {:induction false} ParsedIsErased(input: string)
    ensures Erased(ParseRustType(input))
    decreases |input|, 1
  {
    hide Prepared, Classify, Erased, ParseName;
    match Classify(Prepared(input)) {
      case Placeholder => LeafIsErased(Unknown);
      case UnitForm => LeafIsErased(Primitive(Unit));
      case MutRef(rest) =>
        ParsedIsErased(rest);
        WrappedIsErased(ParseRustType(rest), true, None);
      case SharedRef(rest) =>
        ParsedIsErased(rest);
        WrappedIsErased(ParseRustType(rest), false, None);
      case Sized(element, length) =>
        ParsedIsErased(element);
        WrappedIsErased(ParseRustType(element), false, ParseUsize(length));
      case Unsized(element) =>
        ParsedIsErased(element);
        WrappedIsErased(ParseRustType(element), false, None);
      case Parenthesised(pieces) =>
        AllParsedAreErased(pieces, |input|);
        ListIsErased("", ParseAll(pieces, |input|));
      case Applied(base, pieces) =>
        AllParsedAreErased(pieces, |input|);
        ListIsErased(base, ParseAll(pieces, |input|));
      case Name => NameIsErased(Prepared(input));
    }
  }

  lemma LeafIsErased(t: TypeInfo)
    requires t.Primitive? || t.Unknown?
    ensures Erased(t)
  {
  }

  lemma NameIsErased(s: string)
    ensures Erased(ParseName(s))
  {
  }

  lemma WrappedIsErased(t: TypeInfo, mutable: bool, size: Option<Usize>)
    requires Erased(t)
    ensures Erased(Reference(t, mutable, None)) && Erased(Array(t, size)) && Erased(Slice(t))
  {
  }

  lemma ListIsErased(base: string, ts: seq<TypeInfo>)
    requires EraseAll(ts) == ts && forall i :: 0 <= i < |ts| ==> Shaped(ts[i])
    ensures Erased(Tuple(ts)) && Erased(Generic(base, ts))
  {
  }

  lemma {:induction false} AllParsedAreErased(pieces: seq<string>, bound: nat)
    requires forall p :: p in pieces ==> |p| < bound
    ensures var ts := ParseAll(pieces, bound);
            EraseAll(ts) == ts && forall i :: 0 <= i < |ts| ==> Shaped(ts[i])
    decreases bound, 0
  {
    forall i | 0 <= i < |pieces|
      ensures Erased(ParseRustType(Trim(pieces[i])))
    {
      assert pieces[i] in pieces;
      ParsedIsErased(Trim(pieces[i]));
    }
  }

  /** None of the texts still to be parsed holds a semicolon. */
  ghost predicate FreeOfSemicolons(f: Form) {
    match f
    case MutRef(rest) => ';' !in rest
    case SharedRef(rest) => ';' !in rest
    case Sized(_, _) => false
    case Unsized(element) => ';' !in element
    case Parenthesised(pieces) => forall p :: p in pieces ==> ';' !in p
    case Applied(_, pieces) => forall p :: p in pieces ==> ';' !in p
    case _ => true
  }

  lemma NamedNoSemicolon(s: string)
    requires s != "" && ';' !in s
    ensures FreeOfSemicolons(ClassifyNamed(s))
  {
    if ClassifyNamed(s).Applied? {
      SplitFromKeepsOut(s[Find(s, '<').value + 1..|s| - 1], 0, "", ';');
    }
  }

  lemma BracketedNoSemicolon(inner: string)
    requires ';' !in inner
    ensures FreeOfSemicolons(ClassifyBracketed(inner))
  {
    FindIsFirst(inner, ';');
  }

  lemma ParenthesisedNoSemicolon(inner: string)
    requires ';' !in inner
    ensures FreeOfSemicolons(Parenthesised(SplitOn(inner, ',')))
  {
    SplitOnKeepsOut(inner, ',', ';');
  }

  /** No semicolon in the text means none in the texts parsed next. */
  lemma ClassifyNoSemicolon(s: string)
    requires ';' !in s
    ensures FreeOfSemicolons(Classify(s))
  {
    hide ClassifyNamed, ClassifyBracketed, SplitOn, SkipLifetime;
    if s != "" {
      NamedNoSemicolon(s);
      SkipsKeepOut(s[1..], ';');
      if |s| > 1 {
        BracketedNoSemicolon(s[1..|s| - 1]);
        ParenthesisedNoSemicolon(s[1..|s| - 1]);
      }
    }
  }

  lemma SkipsKeepOut(rest: string, c: char)
    requires c !in rest
    ensures c !in SkipLifetime(rest)
  {
  }

  lemma PreparedKeepsOut(input: string, c: char)
    requires c !in input
    ensures c !in Prepared(input)
  {
    TrimKeepsOut(input, c);
    TrimKeepsOut(Trim(input), c);
  }

  /** Without a semicolon in the text the result holds no sized array. */
  lemma {:induction false} NoSemicolonNoArray(input: string)
    requires ';' !in input
    ensures !HasSizedArray(ParseRustType(input))
    decreases |input|, 1
  {
    hide Prepared, Classify;
    PreparedKeepsOut(input, ';');
    ClassifyNoSemicolon(Prepared(input));
    match Classify(Prepared(input)) {
      case MutRef(rest) => NoSemicolonNoArray(rest);
      case SharedRef(rest) => NoSemicolonNoArray(rest);
      case Unsized(element) => NoSemicolonNoArray(element);
      case Parenthesised(pieces) => NoSemicolonNoArrays(pieces, |input|);
      case Applied(_, pieces) => NoSemicolonNoArrays(pieces, |input|);
      case _ =>
    }
  }

  lemma {:induction false} NoSemicolonNoArrays(pieces: seq<string>, bound: nat)
    requires forall p :: p in pieces ==> |p| < bound && ';' !in p
    ensures forall i :: 0 <= i < |pieces| ==> !HasSizedArray(ParseRustType(Trim(pieces[i])))
    decreases bound, 0
  {
    forall i | 0 <= i < |pieces|
      ensures !HasSizedArray(ParseRustType(Trim(pieces[i])))
    {
      assert pieces[i] in pieces;
      TrimKeepsOut(pieces[i], ';');
      NoSemicolonNoArray(Trim(pieces[i]));
    }
  }

  // ---------- Angle brackets and the argument splitter ----------

  function Depth(s: string): int {
    if s == "" then 0
    else (if s[0] == '<' then 1 else if s[0] == '>' then -1 else 0) + Depth(s[1..])
  }

  /** Commas met at depth zero when scanning `s` from depth `d`. */
  function OuterCommas(s: string, d: int): nat {
    if s == "" then 0
    else if s[0] == '<' then OuterCommas(s[1..], d + 1)
    else if s[0] == '>' then OuterCommas(s[1..], d - 1)
    else (if s[0] == ',' && d == 0 then 1 else 0) + OuterCommas(s[1..], d)
  }

  lemma {:induction false} ScanConcat(a: string, b: string, d: int)
    ensures Depth(a + b) == Depth(a) + Depth(b)
    ensures OuterCommas(a + b, d) == OuterCommas(a, d) + OuterCommas(b, d + Depth(a))
    decreases |a|
  {
    if a == "" {
      assert a + b == b;
    } else {
      assert (a + b)[1..] == a[1..] + b;
      ScanConcat(a[1..], b, if a[0] == '<' then d + 1 else if a[0] == '>' then d - 1 else d);
    }
  }

  /** Text without angle brackets and commas is invisible to the scan. */
  lemma {:induction false} ScanQuiet(s: string, d: int)
    requires '<' !in s && '>' !in s && ',' !in s
    ensures Depth(s) == 0 && OuterCommas(s, d) == 0
    decreases |s|
  {
    if s != "" {
      ScanQuiet(s[1..], d);
    }
  }

  /** Scanning a list joined with ", ". */
  lemma {:induction false} ScanJoin(parts: seq<string>, d: int)
    requires forall i :: 0 <= i < |parts| ==> Depth(parts[i]) == 0
    requires d > 0 ==> forall i :: 0 <= i < |parts| ==> OuterCommas(parts[i], d) == 0
    ensures Depth(Join(parts, ", ")) == 0
    ensures d > 0 ==> OuterCommas(Join(parts, ", "), d) == 0
    ensures d == 0 && parts != [] ==> OuterCommas(Join(parts, ", "), 0) >= |parts| - 1
    ensures d == 0 && (exists i :: 0 <= i < |parts| && OuterCommas(parts[i], 0) > 0)
            ==> OuterCommas(Join(parts, ", "), 0) > |parts| - 1
    ensures d == 0 && |parts| <= 1 && (forall i :: 0 <= i < |parts| ==> OuterCommas(parts[i], 0) == 0)
            ==> OuterCommas(Join(parts, ", "), 0) == 0
    decreases |parts|
  {
    if |parts| > 1 {
      var tail := parts[1..];
      ScanJoin(tail, d);
      ScanConcat(parts[0] + ", ", Join(tail, ", "), d);
      ScanConcat(parts[0], ", ", d);
      assert ", "[1..] == " " && " "[1..] == "";
      assert Depth(" ") == 0 && OuterCommas(" ", d) == 0;
      assert Depth(", ") == 0 && OuterCommas(", ", d) == if d == 0 then 1 else 0;
      if d == 0 && exists i :: 0 <= i < |parts| && OuterCommas(parts[i], 0) > 0 {
        var i :| 0 <= i < |parts| && OuterCommas(parts[i], 0) > 0;
        if i > 0 {
          assert tail[i - 1] == parts[i];
        }
      }
    }
  }

  /** A stretch without outer commas goes into the current piece whole. */
  lemma {:induction false} SplitCollects(a: string, b: string, d: int, current: string)
    requires OuterCommas(a, d) == 0
    ensures SplitFrom(a + b, d, current) == SplitFrom(b, d + Depth(a), current + a)
    decreases |a|
  {
    if a == "" {
      assert a + b == b && current + a == current;
    } else {
      assert (a + b)[1..] == a[1..] + b;
      assert current + [a[0]] + a[1..] == current + a;
      SplitCollects(a[1..], b, if a[0] == '<' then d + 1 else if a[0] == '>' then d - 1 else d, current + [a[0]]);
    }
  }

  lemma SplitLastPiece(a: string, pad: string)
    requires Blank(pad) && Clean(a) && Depth(a) == 0 && OuterCommas(a, 0) == 0
    ensures SplitFrom(a, 0, pad) == [a]
  {
    hide Depth, OuterCommas;
    TrimPadded(pad, a);
    assert a + "" == a;
    SplitCollects(a, "", 0, pad);
    EndOfText(pad + a);
  }

  lemma EndOfText(current: string)
    ensures SplitFrom("", 0, current) == if Trim(current) == "" then [] else [Trim(current)]
  {
  }

  lemma SplitAtComma(rest: string, current: string)
    ensures SplitFrom([','] + rest, 0, current) == [Trim(current)] + SplitFrom(rest, 0, "")
  {
    assert ([','] + rest)[1..] == rest;
  }

  lemma SplitAtSpace(rest: string)
    ensures SplitFrom([' '] + rest, 0, "") == SplitFrom(rest, 0, " ")
  {
    assert ([' '] + rest)[1..] == rest;
    assert "" + [' '] == " ";
  }

  lemma SplitFirstPiece(a: string, pad: string, tail: string)
    requires Blank(pad) && Clean(a) && Depth(a) == 0 && OuterCommas(a, 0) == 0
    ensures SplitFrom(a + ", " + tail, 0, pad) == [a] + SplitFrom(tail, 0, " ")
  {
    var body := [' '] + tail;
    calc {
      SplitFrom(a + ", " + tail, 0, pad);
      { assert a + ", " + tail == a + ([','] + body); }
      SplitFrom(a + ([','] + body), 0, pad);
      { SplitCollects(a, [','] + body, 0, pad); }
      SplitFrom([','] + body, 0, pad + a);
      { SplitAtComma(body, pad + a); TrimPadded(pad, a); }
      [a] + SplitFrom(body, 0, "");
      { SplitAtSpace(tail); }
      [a] + SplitFrom(tail, 0, " ");
    }
  }

  /** The key inversion: splitting undoes joining on bracket-balanced arguments. */
  lemma {:induction false} SplitInvertsJoin(parts: seq<string>, pad: string)
    requires parts != [] && Blank(pad)
    requires forall a :: a in parts ==> Clean(a) && Depth(a) == 0 && OuterCommas(a, 0) == 0
    ensures SplitFrom(Join(parts, ", "), 0, pad) == parts
    decreases |parts|
  {
    assert parts[0] in parts;
    if |parts| == 1 {
      SplitLastPiece(parts[0], pad);
    } else {
      SplitFirstPiece(parts[0], pad, Join(parts[1..], ", "));
      SplitInvertsJoin(parts[1..], " ");
    }
  }

  /** Otherwise the number of pieces gives the failure away. */
  lemma {:induction false} SplitLength(s: string, d: int, current: string)
    requires s != "" && !IsWhitespace(s[|s| - 1]) && s[|s| - 1] != ','
    ensures |SplitFrom(s, d, current)| == OuterCommas(s, d) + 1
    decreases |s|
  {
    var c, rest := s[0], s[1..];
    var next := current + [c];
    if rest == "" {
      assert c in next;
      TrimKeeps(next, c);
    } else {
      assert rest[|rest| - 1] == s[|s| - 1];
      if c == '<' {
        SplitLength(rest, d + 1, next);
      } else if c == '>' {
        SplitLength(rest, d - 1, next);
      } else if c == ',' && d == 0 {
        SplitLength(rest, d, "");
      } else {
        SplitLength(rest, d, next);
      }
    }
  }

  /** Splitting a tuple body on every comma and trimming the pieces. */
  lemma {:induction false} TupleSplitInvertsJoin(parts: seq<string>, pad: string)
    requires parts != [] && Blank(pad) && ',' !in pad
    requires forall a :: a in parts ==> Clean(a) && ',' !in a
    ensures TrimsTo(SplitOn(pad + Join(parts, ", "), ','), parts)
    decreases |parts|
  {
    assert parts[0] in parts;
    TrimPadded(pad, parts[0]);
    if |parts| == 1 {
      SplitOnNone(pad + parts[0], ',');
    } else {
      var tail := Join(parts[1..], ", ");
      assert pad + Join(parts, ", ") == (pad + parts[0]) + [','] + (" " + tail);
      SplitOnFirst(pad + parts[0], ',', " " + tail);
      TupleSplitInvertsJoin(parts[1..], " ");
    }
  }

  ghost predicate TrimsTo(pieces: seq<string>, parts: seq<string>) {
    |pieces| == |parts| && forall i :: 0 <= i < |parts| ==> Trim(pieces[i]) == parts[i]
  }

  // ---------- What printed forms look like ----------

  /** Text that carries none of the characters the parser splits on. */
  ghost predicate Quiet(s: string) {
    forall c :: c in s ==> c != '<' && c != '>' && c != ',' && c != ';'
  }

  predicate Alphanumeric(s: string) {
    s != "" && forall c :: c in s ==> 'a' <= c <= 'z' || '0' <= c <= '9'
  }

  lemma KeywordsAlphanumeric(p: PrimitiveType)
    requires p != Unit
    ensures Alphanumeric(p.AsStr())
  {
  }

  lemma PlainText(name: string)
    requires Plain(name)
    ensures Clean(name) && Quiet(name)
    ensures forall i :: 0 <= i < |name| ==> PlainChar(name[i])
    ensures forall i :: 0 <= i < |name| ==> name[i] != ' '
  {
    assert name[0] in name && name[|name| - 1] in name;
    forall i | 0 <= i < |name|
      ensures PlainChar(name[i]) && name[i] != ' '
    {
      assert name[i] in name;
    }
  }

  lemma NotMutSpace(base: string, rest: string)
    requires Plain(base)
    ensures !StartsWithMut(base) && !StartsWithMut(base + "<" + rest)
  {
    PlainText(base);
    var s := base + "<" + rest;
    if |base| > 3 {
      assert s[3] == base[3];
    } else {
      assert s[|base|] == '<';
    }
  }

  /** How a printed type may begin and end: no trimming removes anything, and it cannot be mistaken for
      a lifetime or for the rest of a mutable reference. */
  ghost predicate Opening(s: string) {
    Clean(s) && s[0] != '\'' && !StartsWithMut(s)
  }

  lemma PlainOpens(name: string)
    requires Plain(name)
    ensures Opening(name) && Quiet(name)
  {
    PlainText(name);
    NotMutSpace(name, "");
  }

  lemma AlphanumericIsPlain(s: string)
    requires Alphanumeric(s)
    ensures Plain(s)
  {
    forall c | c in s
      ensures PlainChar(c)
    {
    }
  }

  lemma UnitText()
    ensures Opening("()") && Quiet("()")
  {
  }

  lemma PrimitiveText(p: PrimitiveType)
    ensures Opening(p.AsStr()) && Quiet(p.AsStr())
    ensures p != Unit ==> Plain(p.AsStr())
  {
    if p == Unit {
      UnitText();
    } else {
      KeywordsAlphanumeric(p);
      AlphanumericIsPlain(p.AsStr());
      PlainOpens(p.AsStr());
    }
  }

  /** What stands in front of the referent. */
  function ReferencePrefix(mutable: bool, lifetime: Option<string>): string {
    "&" + (if lifetime.Some? then "'" + lifetime.value + " " else "") + if mutable then "mut " else ""
  }

  lemma ReferenceText(t: TypeInfo)
    requires t.Reference?
    ensures Display(t) == ReferencePrefix(t.mutable, t.lifetime) + Display(t.inner)
  {
  }

  lemma PrefixQuiet(mutable: bool, lifetime: Option<string>)
    requires lifetime.Some? ==> Plain(lifetime.value)
    ensures Quiet(ReferencePrefix(mutable, lifetime))
  {
    if lifetime.Some? {
      PlainText(lifetime.value);
    }
  }

  function LengthSuffix(size: Option<Usize>): string {
    if size.Some? then "; " + Digits(size.value) + "]" else "]"
  }

  lemma LengthSuffixChars(size: Option<Usize>, c: char)
    requires c == '<' || c == '>' || c == ',' || c == ';'
    ensures c in LengthSuffix(size) <==> size.Some? && c == ';'
  {
    if size.Some? {
      DigitsRoundTrip(size.value);
      assert LengthSuffix(size)[0] == ';';
    }
  }

  lemma ArrayText(t: TypeInfo)
    requires t.Array?
    ensures Display(t) == "[" + Display(t.element) + LengthSuffix(t.size)
  {
    if t.size.Some? {
      assert Display(t) == "[" + Display(t.element) + "; " + Digits(t.size.value) + "]";
    }
  }

  lemma BracketOpens(s: string)
    requires |s| > 1 && (s[0] == '(' || s[0] == '[' || s[0] == '&')
    requires !IsWhitespace(s[|s| - 1]) && !IsTrailing(s[|s| - 1])
    ensures Opening(s)
  {
  }

  lemma AppliedOpens(base: string, body: string)
    requires Plain(base)
    ensures Opening(base + "<" + body + ">")
  {
    PlainOpens(base);
    NotMutSpace(base, body + ">");
    var s := base + "<" + body + ">";
    assert s == base + "<" + (body + ">");
    assert s[0] == base[0] && s[|s| - 1] == '>';
  }

  lemma {:induction false} DisplayedOpens(t: TypeInfo)
    requires Shaped(t) && WellNamed(t)
    ensures Opening(Display(t))
    decreases t
  {
    var s := Display(t);
    match t {
      case Primitive(p) => PrimitiveText(p);
      case Unknown =>
      case TypeParam(name, _) => PlainOpens(name);
      case Generic(base, args) =>
        if args == [] {
          PlainOpens(base);
        } else {
          AppliedOpens(base, Join(DisplayAll(args), ", "));
        }
      case Tuple(items) => BracketOpens(s);
      case Reference(inner, mutable, lifetime) =>
        DisplayedOpens(inner);
        ReferenceText(t);
        assert s[|s| - 1] == Display(inner)[|Display(inner)| - 1];
        BracketOpens(s);
      case Array(element, size) =>
        ArrayText(t);
        BracketOpens(s);
      case Slice(element) => BracketOpens(s);
    }
  }

  lemma {:induction false} JoinChars(parts: seq<string>, c: char)
    requires c != ' '
    ensures c in Join(parts, ", ")
            <==> (c == ',' && |parts| > 1) || exists i :: 0 <= i < |parts| && c in parts[i]
  {
    if parts != [] {
      JoinCount(parts, c);
      if |parts| > 1 {
        assert Join(parts, ", ") == parts[0] + ", " + Join(parts[1..], ", ");
        assert ',' in ", ";
      }
    }
  }

  lemma WrappedChars(before: string, body: string, after: string)
    requires forall c :: c in before || c in after ==> c != ',' && c != ';'
    ensures ',' in before + body + after <==> ',' in body
    ensures ';' in before + body + after <==> ';' in body
  {
  }

  /** Commas and semicolons appear in the text exactly when the term says so. */
  lemma {:induction false} DisplayedChars(t: TypeInfo)
    requires Shaped(t) && WellNamed(t)
    ensures ',' in Display(t) <==> HasComma(t)
    ensures ';' in Display(t) <==> HasSizedArray(t)
    decreases t
  {
    hide Join;
    match t {
      case Primitive(p) => PrimitiveText(p);
      case Unknown =>
      case TypeParam(name, _) => PlainText(name);
      case Generic(base, args) =>
        PlainText(base);
        if args != [] {
          AllDisplayedChars(args);
          JoinChars(DisplayAll(args), ',');
          JoinChars(DisplayAll(args), ';');
          WrappedChars(base + "<", Join(DisplayAll(args), ", "), ">");
        }
      case Tuple(items) =>
        AllDisplayedChars(items);
        JoinChars(DisplayAll(items), ',');
        JoinChars(DisplayAll(items), ';');
        WrappedChars("(", Join(DisplayAll(items), ", "), ")");
      case Reference(inner, mutable, lifetime) =>
        DisplayedChars(inner);
        ReferenceText(t);
        PrefixQuiet(mutable, lifetime);
      case Array(element, size) =>
        DisplayedChars(element);
        ArrayText(t);
        LengthSuffixChars(size, ',');
        LengthSuffixChars(size, ';');
      case Slice(element) =>
        DisplayedChars(element);
        WrappedChars("[", Display(element), "]");
    }
  }

  lemma {:induction false} AllDisplayedChars(ts: seq<TypeInfo>)
    requires forall i :: 0 <= i < |ts| ==> Shaped(ts[i]) && WellNamed(ts[i])
    ensures forall i :: 0 <= i < |ts| ==> (',' in DisplayAll(ts)[i] <==> HasComma(ts[i]))
    ensures forall i :: 0 <= i < |ts| ==> (';' in DisplayAll(ts)[i] <==> HasSizedArray(ts[i]))
    decreases ts
  {
    hide Display, HasComma, HasSizedArray, Shaped, WellNamed;
    forall i | 0 <= i < |ts|
      ensures ',' in DisplayAll(ts)[i] <==> HasComma(ts[i])
      ensures ';' in DisplayAll(ts)[i] <==> HasSizedArray(ts[i])
    {
      DisplayedChars(ts[i]);
    }
  }

  lemma ScanWrapped(before: string, body: string, after: string, d: int)
    requires forall c :: c in before || c in after ==> c != '<' && c != '>' && c != ','
    ensures Depth(before + body + after) == Depth(body)
    ensures OuterCommas(before + body + after, d) == OuterCommas(body, d)
  {
    ScanQuiet(before, d);
    ScanQuiet(after, d + Depth(body));
    ScanConcat(before, body, d);
    ScanConcat(before + body, after, d);
  }

  /** Printed forms are balanced, and their outer commas are the ones the term predicts. */
  lemma {:induction false} DisplayedScan(t: TypeInfo, d: nat)
    requires Shaped(t) && WellNamed(t)
    ensures Depth(Display(t)) == 0
    ensures OuterCommas(Display(t), d) > 0 <==> d == 0 && HasOuterComma(t)
    decreases t
  {
    match t {
      case Primitive(p) =>
        PrimitiveText(p);
        ScanQuiet(Display(t), d);
      case Unknown => ScanQuiet("_", d);
      case TypeParam(name, _) =>
        PlainText(name);
        ScanQuiet(name, d);
      case Generic(base, args) =>
        PlainText(base);
        ScanQuiet(base, d);
        if args != [] {
          AllDisplayedScan(args, d + 1);
          var body := Join(DisplayAll(args), ", ");
          ScanJoin(DisplayAll(args), d + 1);
          ScanAngles(base, body, d);
        }
      case Tuple(items) =>
        AllDisplayedScan(items, d);
        ScanJoin(DisplayAll(items), d);
        ScanWrapped("(", Join(DisplayAll(items), ", "), ")", d);
      case Reference(inner, mutable, lifetime) =>
        DisplayedScan(inner, d);
        ReferenceText(t);
        PrefixQuiet(mutable, lifetime);
        ScanWrapped(ReferencePrefix(mutable, lifetime), Display(inner), "", d);
        assert Display(t) == ReferencePrefix(mutable, lifetime) + Display(inner) + "";
      case Array(element, size) =>
        DisplayedScan(element, d);
        ArrayText(t);
        LengthSuffixChars(size, '<');
        LengthSuffixChars(size, '>');
        LengthSuffixChars(size, ',');
        ScanWrapped("[", Display(element), LengthSuffix(size), d);
      case Slice(element) =>
        DisplayedScan(element, d);
        ScanWrapped("[", Display(element), "]", d);
    }
  }

  lemma ScanAngles(base: string, body: string, d: nat)
    requires Depth(base) == 0 && OuterCommas(base, d) == 0
    requires Depth(body) == 0 && OuterCommas(body, d + 1) == 0
    ensures Depth(base + "<" + body + ">") == 0
    ensures OuterCommas(base + "<" + body + ">", d) == 0
  {
    assert "<"[1..] == "" && ">"[1..] == "";
    ScanConcat(base, "<", d);
    ScanConcat(base + "<", body, d);
    ScanConcat(base + "<" + body, ">", d);
  }

  lemma {:induction false} AllDisplayedScan(ts: seq<TypeInfo>, d: nat)
    requires forall i :: 0 <= i < |ts| ==> Shaped(ts[i]) && WellNamed(ts[i])
    ensures forall i :: 0 <= i < |ts| ==> Depth(DisplayAll(ts)[i]) == 0
    ensures forall i :: 0 <= i < |ts|
                        ==> (OuterCommas(DisplayAll(ts)[i], d) > 0 <==> d == 0 && HasOuterComma(ts[i]))
    decreases ts
  {
    forall i | 0 <= i < |ts|
      ensures Depth(DisplayAll(ts)[i]) == 0
      ensures OuterCommas(DisplayAll(ts)[i], d) > 0 <==> d == 0 && HasOuterComma(ts[i])
    {
      DisplayedScan(ts[i], d);
    }
  }

  // ---------- How the parser classifies printed forms ----------

  lemma OpeningPrepared(s: string)
    requires Opening(s)
    ensures Prepared(s) == s
  {
    TrimClean(s);
  }

  lemma ClassifyPlain(s: string)
    requires Plain(s)
    ensures Prepared(s) == s && Classify(s) == if s == "_" then Placeholder else Name
  {
    FindIsFirst(s, '<');
    PlainOpens(s);
    PlainText(s);
    OpeningPrepared(s);
  }

  lemma {:induction false} FindFirst(base: string, c: char, rest: string)
    requires c !in base
    ensures Find(base + [c] + rest, c) == Some(|base|)
    decreases |base|
  {
    if base == "" {
      assert base + [c] + rest == [c] + rest;
    } else {
      assert (base + [c] + rest)[1..] == base[1..] + [c] + rest;
      assert (base + [c] + rest)[0] in base;
      FindFirst(base[1..], c, rest);
    }
  }

  /** Text that begins like a name is none of the bracketed forms. */
  lemma ClassifyNamelike(s: string)
    requires |s| > 1 && s[0] != '&' && s[0] != '[' && s[0] != '('
    ensures Classify(s) == ClassifyNamed(s)
  {
  }

  lemma ClassifyApplied(base: string, body: string)
    requires Plain(base)
    ensures var s := base + "<" + body + ">";
            Prepared(s) == s && Classify(s) == Applied(base, SplitArgs(body))
  {
    var s := base + "<" + body + ">";
    AppliedOpens(base, body);
    OpeningPrepared(s);
    PlainText(base);
    TrimClean(base);
    FindFirst(base, '<', body + ">");
    assert s == base + ['<'] + (body + ">");
    assert s[0] == base[0] && s[|s| - 1] == '>';
    ClassifyNamelike(s);
    assert s[..|base|] == base && s[|base| + 1..|s| - 1] == body;
  }

  lemma ClassifyParens(body: string)
    ensures var s := "(" + body + ")";
            Prepared(s) == s && Classify(s) == if body == "" then UnitForm else Parenthesised(SplitOn(body, ','))
  {
    var s := "(" + body + ")";
    BracketOpens(s);
    OpeningPrepared(s);
    assert s[1..|s| - 1] == body;
  }

  lemma ClassifyBrackets(body: string)
    ensures var s := "[" + body + "]";
            Prepared(s) == s && Classify(s) == ClassifyBracketed(body)
  {
    var s := "[" + body + "]";
    BracketOpens(s);
    OpeningPrepared(s);
    assert s[1..|s| - 1] == body;
  }

  lemma ReferencePrepared(mutable: bool, lifetime: Option<string>, d: string)
    requires Opening(d)
    ensures Prepared(ReferencePrefix(mutable, lifetime) + d) == ReferencePrefix(mutable, lifetime) + d
  {
    var s := ReferencePrefix(mutable, lifetime) + d;
    assert s[0] == '&' && s[|s| - 1] == d[|d| - 1];
    BracketOpens(s);
    OpeningPrepared(s);
  }

  lemma ClassifyBareReference(mutable: bool, d: string)
    requires Opening(d)
    ensures Classify(ReferencePrefix(mutable, None) + d) == if mutable then MutRef(d) else SharedRef(d)
  {
    var s := ReferencePrefix(mutable, None) + d;
    if mutable {
      assert s == "&mut " + d;
      ClassifyMutRef(d);
    } else {
      assert s == "&" + d;
      ClassifySharedRef(d);
    }
  }

  lemma ClassifyLifetimeReference(mutable: bool, l: string, d: string)
    requires Plain(l)
    ensures Classify(ReferencePrefix(mutable, Some(l)) + d) == SharedRef((if mutable then "mut " else "") + d)
  {
    var rest := (if mutable then "mut " else "") + d;
    var tail := "'" + l + " " + rest;
    assert ReferencePrefix(mutable, Some(l)) + d == "&" + tail;
    assert tail[0] == '\'';
    SkipsLifetime(l, rest);
    ClassifySharedRef(tail);
  }

  lemma ClassifyMutRef(d: string)
    ensures Classify("&mut " + d) == MutRef(d)
  {
    var s := "&mut " + d;
    assert s[5..] == d;
    assert s[1..] == "mut " + d;
  }

  lemma ClassifySharedRef(rest: string)
    requires rest != "" && !StartsWithMut(rest)
    ensures Classify("&" + rest) == SharedRef(SkipLifetime(rest))
  {
    var s := "&" + rest;
    assert s[1..] == rest;
  }

  lemma SkipsLifetime(l: string, rest: string)
    requires Plain(l)
    ensures SkipLifetime("'" + l + " " + rest) == rest
  {
    PlainText(l);
    assert ("'" + l + " " + rest)[1..] == l + [' '] + rest;
    FindFirst(l, ' ', rest);
  }

  // ---------- The exact fragment ----------

  lemma {:induction false} EraseKeepsShape(t: TypeInfo)
    ensures Shaped(EraseLifetimes(t)) <==> Shaped(t)
    ensures HasSizedArray(EraseLifetimes(t)) <==> HasSizedArray(t)
    decreases t
  {
    match t {
      case Generic(_, args) =>
        forall i | 0 <= i < |args|
          ensures Shaped(EraseAll(args)[i]) <==> Shaped(args[i])
          ensures HasSizedArray(EraseAll(args)[i]) <==> HasSizedArray(args[i])
        {
          EraseKeepsShape(args[i]);
        }
      case Tuple(items) =>
        forall i | 0 <= i < |items|
          ensures Shaped(EraseAll(items)[i]) <==> Shaped(items[i])
          ensures HasSizedArray(EraseAll(items)[i]) <==> HasSizedArray(items[i])
        {
          EraseKeepsShape(items[i]);
        }
      case Reference(inner, _, _) => EraseKeepsShape(inner);
      case Array(element, _) => EraseKeepsShape(element);
      case Slice(element) => EraseKeepsShape(element);
      case _ =>
    }
  }

  lemma {:induction false} ReadableIsShaped(t: TypeInfo)
    requires Readable(t)
    ensures Shaped(t)
    decreases t
  {
    match t {
      case Generic(_, args) =>
        forall i | 0 <= i < |args|
          ensures Shaped(args[i])
        {
          ReadableIsShaped(args[i]);
        }
      case Tuple(items) =>
        forall i | 0 <= i < |items|
          ensures Shaped(items[i])
        {
          ReadableIsShaped(items[i]);
        }
      case Reference(inner, _, _) => ReadableIsShaped(inner);
      case Array(element, _) => ReadableIsShaped(element);
      case Slice(element) => ReadableIsShaped(element);
      case _ =>
    }
  }

  /** Printing and parsing back gives the type itself, up to lifetimes. */
  ghost predicate ReadsBack(t: TypeInfo) {
    ParseRustType(Display(t)) == EraseLifetimes(t)
  }

  lemma KeywordNamed(p: PrimitiveType)
    requires p != Unit
    ensures PrimitiveNamed(p.AsStr()) == Some(p)
  {
    assert p in KEYWORDS;
    NamedFindsKeyword(p.AsStr(), KEYWORDS);
    var q := PrimitiveNamed(p.AsStr()).value;
    KeywordsDistinct(p, q);
  }

  lemma KeywordsDistinct(p: PrimitiveType, q: PrimitiveType)
    requires p.AsStr() == q.AsStr()
    ensures p == q
  {
  }

  /** What the round trip may assume of the parts of a term. */
  ghost predicate Settled(t: TypeInfo) {
    Shaped(t) && WellNamed(t) && (ReadsBack(t) <==> Readable(t))
  }

  ghost predicate AllSettled(ts: seq<TypeInfo>) {
    forall i {:trigger Settled(ts[i])} :: 0 <= i < |ts| ==> Settled(ts[i])
  }

  ghost predicate AllNamed(ts: seq<TypeInfo>) {
    forall i :: 0 <= i < |ts| ==> Shaped(ts[i]) && WellNamed(ts[i])
  }

  lemma SettledAreNamed(ts: seq<TypeInfo>)
    requires AllSettled(ts)
    ensures AllNamed(ts)
  {
    forall i | 0 <= i < |ts|
      ensures Shaped(ts[i]) && WellNamed(ts[i])
    {
      assert Settled(ts[i]);
    }
  }

  lemma ParamIsNoKeyword(s: string)
    requires LooksLikeParam(s)
    ensures PrimitiveNamed(s).None?
  {
    forall p | p != Unit
      ensures p.AsStr() != s
    {
      KeywordsAlphanumeric(p);
      assert s[0] in s;
    }
    NamedFindsKeyword(s, KEYWORDS);
    assert Unit !in KEYWORDS;
  }

  lemma PlainParses(s: string)
    requires Plain(s)
    ensures ParseRustType(s) == if s == "_" then Unknown else ParseName(s)
  {
    ClassifyPlain(s);
  }

  lemma NamedParses(s: string, p: PrimitiveType)
    requires Plain(s) && s != "_" && PrimitiveNamed(s) == Some(p)
    ensures ParseRustType(s) == Primitive(p)
  {
    PlainParses(s);
  }

  lemma UnitParses()
    ensures ParseRustType("()") == Primitive(Unit)
  {
    ClassifyParens("");
    assert "()" == "(" + "" + ")";
  }

  lemma KeywordIsNotBlank(s: string)
    requires Alphanumeric(s)
    ensures s != "_"
  {
    assert s[0] in s;
  }

  lemma KeywordParses(p: PrimitiveType)
    requires p != Unit
    ensures ParseRustType(p.AsStr()) == Primitive(p)
  {
    PrimitiveText(p);
    KeywordsAlphanumeric(p);
    KeywordIsNotBlank(p.AsStr());
    KeywordNamed(p);
    NamedParses(p.AsStr(), p);
  }

  lemma KeywordReadsBack(p: PrimitiveType)
    ensures ParseRustType(p.AsStr()) == Primitive(p)
  {
    if p == Unit {
      UnitParses();
    } else {
      KeywordParses(p);
    }
  }

  lemma ParamReadsBack(name: string)
    requires Plain(name)
    ensures ParseRustType(name) == TypeParam(name, []) <==> LooksLikeParam(name)
  {
    PlainParses(name);
    if LooksLikeParam(name) {
      ParamIsNoKeyword(name);
    }
  }

  lemma NameReadsBack(t: TypeInfo)
    requires t.TypeParam? || (t.Generic? && t.args == [])
    requires Shaped(t) && WellNamed(t)
    ensures ReadsBack(t) <==> Readable(t)
  {
    hide ParseRustType;
    if t.TypeParam? {
      ParamReadsBack(t.name);
    } else {
      PlainParses(t.base);
      assert EraseLifetimes(t) == t && Display(t) == t.base;
    }
  }

  lemma {:induction false} JoinLast(parts: seq<string>)
    requires parts != [] && parts[|parts| - 1] != ""
    ensures var j, last := Join(parts, ", "), parts[|parts| - 1];
            j != "" && j[|j| - 1] == last[|last| - 1]
    decreases |parts|
  {
    if |parts| > 1 {
      JoinLast(parts[1..]);
    }
  }

  ghost predicate ParsedFrom(parsed: seq<TypeInfo>, pieces: seq<string>) {
    |parsed| == |pieces| && forall i :: 0 <= i < |pieces| ==> parsed[i] == ParseRustType(Trim(pieces[i]))
  }

  ghost predicate AllReadable(ts: seq<TypeInfo>) {
    forall i {:trigger Readable(ts[i])} :: 0 <= i < |ts| ==> Readable(ts[i])
  }

  lemma PartReadsBack(ts: seq<TypeInfo>, pieces: seq<string>, parsed: seq<TypeInfo>, i: nat)
    requires ParsedFrom(parsed, pieces) && TrimsTo(pieces, DisplayAll(ts)) && AllSettled(ts) && i < |ts|
    ensures parsed[i] == EraseLifetimes(ts[i]) <==> Readable(ts[i])
  {
    hide ParseRustType;
    assert Trim(pieces[i]) == DisplayAll(ts)[i];
    assert Settled(ts[i]);
    FirstReadsBack(ts[i], parsed[i]);
  }

  /** Parsing pieces that trim to the printed parts gives the parts back exactly when all are readable. */
  lemma PartsReadBack(ts: seq<TypeInfo>, pieces: seq<string>, parsed: seq<TypeInfo>)
    requires ParsedFrom(parsed, pieces) && TrimsTo(pieces, DisplayAll(ts)) && AllSettled(ts)
    ensures parsed == EraseAll(ts) <==> AllReadable(ts)
  {
    hide ParseRustType;
    var erased := EraseAll(ts);
    assert |parsed| == |erased|;
    if parsed == erased {
      forall i | 0 <= i < |ts|
        ensures Readable(ts[i])
      {
        PartReadsBack(ts, pieces, parsed, i);
      }
    }
    if AllReadable(ts) {
      forall i | 0 <= i < |ts|
        ensures parsed[i] == erased[i]
      {
        assert Readable(ts[i]);
        PartReadsBack(ts, pieces, parsed, i);
      }
    }
  }

  lemma FirstReadsBack(t: TypeInfo, parsed: TypeInfo)
    requires Settled(t) && parsed == ParseRustType(Display(t))
    ensures parsed == EraseLifetimes(t) <==> Readable(t)
  {
    hide ParseRustType;
  }

  /** The printed parts, joined, are cut up again exactly when no part shows an outer comma. */
  lemma ArgumentsSplit(args: seq<TypeInfo>)
    requires args != [] && AllNamed(args)
    ensures var pieces := SplitArgs(Join(DisplayAll(args), ", "));
            if exists i :: 0 <= i < |args| && HasOuterComma(args[i])
            then |pieces| > |args| else TrimsTo(pieces, DisplayAll(args))
  {
    var parts := DisplayAll(args);
    var body := Join(parts, ", ");
    forall i | 0 <= i < |args|
      ensures Clean(parts[i]) && Depth(parts[i]) == 0 && (OuterCommas(parts[i], 0) > 0 <==> HasOuterComma(args[i]))
    {
      DisplayedOpens(args[i]);
      DisplayedScan(args[i], 0);
    }
    if i :| 0 <= i < |args| && HasOuterComma(args[i]) {
      assert OuterCommas(parts[i], 0) > 0;
      ScanJoin(parts, 0);
      JoinLast(parts);
      SplitLength(body, 0, "");
    } else {
      SplitInvertsJoin(parts, "");
      forall i | 0 <= i < |parts|
        ensures Trim(parts[i]) == parts[i]
      {
        TrimClean(parts[i]);
      }
    }
  }

  /** The same for a tuple body, which is cut at every comma. */
  lemma ItemsSplit(items: seq<TypeInfo>)
    requires items != [] && AllNamed(items)
    ensures var body := Join(DisplayAll(items), ", ");
            var pieces := SplitOn(body, ',');
            && body != ""
            && if exists i :: 0 <= i < |items| && HasComma(items[i])
               then |pieces| > |items| else TrimsTo(pieces, DisplayAll(items))
  {
    var parts := DisplayAll(items);
    var body := Join(parts, ", ");
    forall i | 0 <= i < |items|
      ensures Clean(parts[i]) && (',' in parts[i] <==> HasComma(items[i]))
    {
      DisplayedOpens(items[i]);
      DisplayedChars(items[i]);
    }
    JoinLast(parts);
    if i :| 0 <= i < |items| && HasComma(items[i]) {
      assert ',' in parts[i];
      JoinCount(parts, ',');
      SplitOnCount(body, ',');
    } else {
      TupleSplitInvertsJoin(parts, "");
      assert "" + body == body;
    }
  }

  lemma GenericParses(base: string, args: seq<TypeInfo>) returns (parsed: seq<TypeInfo>)
    requires args != [] && Plain(base)
    ensures ParseRustType(Display(Generic(base, args))) == Generic(base, parsed)
    ensures ParsedFrom(parsed, SplitArgs(Join(DisplayAll(args), ", ")))
  {
    var body := Join(DisplayAll(args), ", ");
    var s := base + "<" + body + ">";
    ClassifyApplied(base, body);
    parsed := ParseAll(SplitArgs(body), |s|);
  }

  lemma ReadableGeneric(base: string, args: seq<TypeInfo>)
    requires args != []
    ensures Readable(Generic(base, args))
            <==> AllReadable(args) && !(exists i :: 0 <= i < |args| && HasOuterComma(args[i]))
  {
  }

  lemma ReadableTuple(items: seq<TypeInfo>)
    requires items != []
    ensures Readable(Tuple(items))
            <==> AllReadable(items) && !(exists i :: 0 <= i < |items| && HasComma(items[i]))
  {
  }

  lemma GenericReadsBack(base: string, args: seq<TypeInfo>)
    requires args != [] && Plain(base)
    requires AllSettled(args)
    ensures ReadsBack(Generic(base, args)) <==> Readable(Generic(base, args))
  {
    hide ParseRustType;
    var parsed := GenericParses(base, args);
    var pieces := SplitArgs(Join(DisplayAll(args), ", "));
    SettledAreNamed(args);
    ReadableGeneric(base, args);
    ArgumentsSplit(args);
    assert EraseLifetimes(Generic(base, args)) == Generic(base, EraseAll(args));
    if i :| 0 <= i < |args| && HasOuterComma(args[i]) {
      assert |parsed| > |args|;
    } else {
      PartsReadBack(args, pieces, parsed);
    }
  }

  lemma TupleParses(items: seq<TypeInfo>) returns (parsed: seq<TypeInfo>)
    requires Join(DisplayAll(items), ", ") != ""
    ensures ParseRustType(Display(Tuple(items))) == Tuple(parsed)
    ensures ParsedFrom(parsed, SplitOn(Join(DisplayAll(items), ", "), ','))
  {
    var body := Join(DisplayAll(items), ", ");
    var s := "(" + body + ")";
    ClassifyParens(body);
    assert Display(Tuple(items)) == s;
    assert Classify(Prepared(s)) == Parenthesised(SplitOn(body, ','));
    parsed := ParseAll(SplitOn(body, ','), |s|);
  }

  lemma EmptyTupleReadsBack()
    ensures !ReadsBack(Tuple([])) && !Readable(Tuple([]))
  {
    ClassifyParens("");
    assert Display(Tuple([])) == "(" + "" + ")";
  }

  lemma TupleReadsBack(items: seq<TypeInfo>)
    requires AllSettled(items)
    ensures ReadsBack(Tuple(items)) <==> Readable(Tuple(items))
  {
    hide ParseRustType;
    if items == [] {
      EmptyTupleReadsBack();
    } else {
      SettledAreNamed(items);
      ReadableTuple(items);
      ItemsSplit(items);
      var parsed := TupleParses(items);
      assert EraseLifetimes(Tuple(items)) == Tuple(EraseAll(items));
      assert ReadsBack(Tuple(items)) <==> parsed == EraseAll(items);
      var pieces := SplitOn(Join(DisplayAll(items), ", "), ',');
      if TrimsTo(pieces, DisplayAll(items)) {
        PartsReadBack(items, pieces, parsed);
      }
    }
  }

  lemma ReferenceParses(s: string, mutable: bool, rest: string)
    requires Prepared(s) == s && Classify(s) == if mutable then MutRef(rest) else SharedRef(rest)
    ensures ParseRustType(s) == Reference(ParseRustType(rest), mutable, None)
  {
  }

  lemma ReferenceReadsBack(t: TypeInfo)
    requires t.Reference? && WellNamed(t) && Settled(t.inner)
    ensures ReadsBack(t) <==> Readable(t)
  {
    hide ParseRustType;
    var d := Display(t.inner);
    var s := ReferencePrefix(t.mutable, t.lifetime) + d;
    ReferenceText(t);
    DisplayedOpens(t.inner);
    ReferencePrepared(t.mutable, t.lifetime, d);
    assert EraseLifetimes(t) == Reference(EraseLifetimes(t.inner), t.mutable, None);
    match t.lifetime {
      case None =>
        ClassifyBareReference(t.mutable, d);
        ReferenceParses(s, t.mutable, d);
        FirstReadsBack(t.inner, ParseRustType(d));
      case Some(l) =>
        ClassifyLifetimeReference(t.mutable, l, d);
        var rest := (if t.mutable then "mut " else "") + d;
        ReferenceParses(s, false, rest);
        if !t.mutable {
          assert rest == d;
          FirstReadsBack(t.inner, ParseRustType(d));
        }
    }
  }

  /** A bracketed text is cut at the first semicolon, which is the printed length's own unless the
      element prints one. */
  lemma CutAtLength(element: TypeInfo, n: Usize)
    requires Shaped(element) && WellNamed(element)
    ensures var f := ClassifyBracketed(Display(element) + [';'] + (" " + Digits(n)));
            && f.Sized?
            && if HasSizedArray(element) then ParseUsize(f.length).None?
               else f.element == Display(element) && ParseUsize(f.length) == Some(n)
  {
    DisplayedChars(element);
    if HasSizedArray(element) {
      CutEarly(Display(element), " " + Digits(n));
    } else {
      DisplayedOpens(element);
      CutAtEnd(Display(element), " " + Digits(n));
      PrintedSizeTrims(n);
    }
  }

  lemma CutEarly(d: string, late: string)
    requires ';' in d
    ensures var f := ClassifyBracketed(d + [';'] + late); f.Sized? && ParseUsize(f.length).None?
  {
    var body := d + [';'] + late;
    FindIsFirst(d, ';');
    var semi := Find(d, ';').value;
    var rest := d[semi + 1..] + [';'] + late;
    assert body == d[..semi] + [';'] + rest;
    FindFirst(d[..semi], ';', rest);
    assert body[semi + 1..] == rest;
    LateSemicolon(d[semi + 1..], late);
  }

  lemma CutAtEnd(d: string, late: string)
    requires ';' !in d && Clean(d)
    ensures ClassifyBracketed(d + [';'] + late) == Sized(d, Trim(late))
  {
    var body := d + [';'] + late;
    TrimClean(d);
    FindFirst(d, ';', late);
    assert body[..|d|] == d && body[|d| + 1..] == late;
  }

  lemma DigitsClean(s: string)
    requires s != "" && forall c :: c in s ==> IsDigit(c)
    ensures Clean(s)
  {
    assert s[0] in s && s[|s| - 1] in s;
  }

  lemma PrintedSizeTrims(n: Usize)
    ensures ParseUsize(Trim(" " + Digits(n))) == Some(n)
  {
    DigitsRoundTrip(n);
    DigitsClean(Digits(n));
    TrimPadded(" ", Digits(n));
    ParsePrintedSize(n);
  }

  lemma LateSemicolon(a: string, b: string)
    ensures ParseUsize(Trim(a + [';'] + b)).None?
  {
    var s := a + [';'] + b;
    assert s[|a|] == ';';
    TrimKeeps(s, ';');
    var r := Trim(s);
    assert r == [r[0]] + r[1..];
    var digits := if r[0] == '+' then r[1..] else r;
    assert ';' in digits && !IsDigit(';');
  }

  lemma SizedParses(body: string, f: Form)
    requires f == ClassifyBracketed(body) && f.Sized?
    ensures ParseRustType("[" + body + "]") == Array(ParseRustType(f.element), ParseUsize(f.length))
  {
    ClassifyBrackets(body);
  }

  lemma SizedText(element: TypeInfo, n: Usize)
    ensures Display(Array(element, Some(n))) == "[" + (Display(element) + [';'] + (" " + Digits(n))) + "]"
  {
    ArrayText(Array(element, Some(n)));
  }

  lemma ArrayReadsBack(element: TypeInfo, n: Usize)
    requires Settled(element)
    ensures ReadsBack(Array(element, Some(n))) <==> Readable(element) && !HasSizedArray(element)
  {
    hide ParseRustType, Display, HasSizedArray, Readable, Shaped, WellNamed, ClassifyBracketed, ParseUsize, Digits;
    var d := Display(element);
    var body := d + [';'] + (" " + Digits(n));
    SizedText(element, n);
    CutAtLength(element, n);
    var f := ClassifyBracketed(body);
    SizedParses(body, f);
    if !HasSizedArray(element) {
      FirstReadsBack(element, ParseRustType(d));
    }
  }

  lemma UnsizedParses(d: string)
    ensures var parsed := ParseRustType("[" + d + "]");
            if ';' in d then parsed.Array? && !HasSizedArray(parsed.element)
            else parsed == Slice(ParseRustType(d))
  {
    ClassifyBrackets(d);
    FindIsFirst(d, ';');
    if ';' in d {
      TrimKeepsOut(d[..Find(d, ';').value], ';');
      NoSemicolonNoArray(Trim(d[..Find(d, ';').value]));
    }
  }

  lemma SliceReadsBack(element: TypeInfo)
    requires Settled(element)
    ensures ReadsBack(Slice(element)) <==> Readable(element) && !HasSizedArray(element)
  {
    hide ParseRustType, Display, HasSizedArray, Readable, Shaped, WellNamed;
    SliceText(element);
    UnsizedParses(Display(element));
    DisplayedChars(element);
    if !HasSizedArray(element) {
      FirstReadsBack(element, ParseRustType(Display(element)));
    }
  }

  lemma SliceText(element: TypeInfo)
    ensures Display(Slice(element)) == "[" + Display(element) + "]"
  {
  }

  lemma UnsizedArrayReadsBack(element: TypeInfo)
    requires Settled(element)
    ensures !ReadsBack(Array(element, None))
  {
    hide ParseRustType;
    ArrayText(Array(element, None));
    UnsizedParses(Display(element));
    DisplayedChars(element);
    EraseKeepsShape(element);
  }

  /** The main result. For every type whose names are identifiers, printing and parsing back returns
      the type, lifetimes aside, exactly when the type lies in the fragment. */
  lemma {:induction false} RoundTripExactly(t: TypeInfo)
    requires WellNamed(t)
    ensures ParseRustType(Display(t)) == EraseLifetimes(t) <==> Readable(t)
    decreases t
  {
    hide ParseRustType;
    if !Shaped(t) {
      ParsedIsErased(Display(t));
      EraseKeepsShape(t);
      if Readable(t) {
        ReadableIsShaped(t);
      }
    } else {
      match t {
        case Primitive(p) => KeywordReadsBack(p);
        case Unknown => PlainParses("_");
        case TypeParam(_, _) => NameReadsBack(t);
        case Generic(base, args) =>
          if args == [] {
            NameReadsBack(t);
          } else {
            forall i | 0 <= i < |args|
              ensures Settled(args[i])
            {
              RoundTripExactly(args[i]);
            }
            GenericReadsBack(base, args);
          }
        case Tuple(items) =>
          forall i | 0 <= i < |items|
            ensures Settled(items[i])
          {
            RoundTripExactly(items[i]);
          }
          TupleReadsBack(items);
        case Reference(inner, _, _) =>
          RoundTripExactly(inner);
          ReferenceReadsBack(t);
        case Array(element, size) =>
          RoundTripExactly(element);
          if size.Some? {
            ArrayReadsBack(element, size.value);
          } else {
            UnsizedArrayReadsBack(element);
          }
        case Slice(element) =>
          RoundTripExactly(element);
          SliceReadsBack(element);
      }
    }
  }

  /** The strict form: the very same type comes back exactly when it lies in the fragment and carries
      no lifetime. */
  lemma RoundTripIdentity(t: TypeInfo)
    requires WellNamed(t)
    ensures ParseRustType(Display(t)) == t <==> Readable(t) && EraseLifetimes(t) == t
  {
    hide ParseRustType;
    RoundTripExactly(t);
    ParsedIsErased(Display(t));
  }

  /** What the parser returned is returned again from its printed form exactly when it lies in the
      fragment. */
  lemma ParsedReadsBackIff(input: string)
    requires WellNamed(ParseRustType(input))
    ensures ParseRustType(Display(ParseRustType(input))) == ParseRustType(input) <==> Readable(ParseRustType(input))
  {
    hide ParseRustType, Display, Readable, WellNamed;
    RoundTripIdentity(ParseRustType(input));
    ParsedIsErased(input);
  }

  /** Two readable types without lifetimes never print alike. */
  lemma DisplayInjective(t: TypeInfo, u: TypeInfo)
    requires WellNamed(t) && WellNamed(u)
    requires Readable(t) && Readable(u) && EraseLifetimes(t) == t && EraseLifetimes(u) == u
    requires Display(t) == Display(u)
    ensures t == u
  {
    hide ParseRustType;
    RoundTripIdentity(t);
    RoundTripIdentity(u);
  }

  // ---------- What the parser makes of a text ----------

  /** The words that name a primitive type, and the types they name. */
  ghost function WordsAndTypes(): seq<(string, PrimitiveType)> {
    [("i8", I8), ("i16", I16), ("i32", I32), ("i64", I64), ("i128", I128), ("isize", ISize),
     ("u8", U8), ("u16", U16), ("u32", U32), ("u64", U64), ("u128", U128), ("usize", USize),
     ("f32", F32), ("f64", F64), ("bool", Bool), ("char", Char), ("str", Str)]
  }

  lemma WordsAreKeywords()
    ensures |WordsAndTypes()| == |KEYWORDS|
    ensures forall i :: 0 <= i < |KEYWORDS| ==> WordsAndTypes()[i] == (KEYWORDS[i].AsStr(), KEYWORDS[i])
  {
  }

  lemma NothingParses()
    ensures ParseRustType("") == Unknown
  {
    assert Trim("") == "" && TrimTrailing("") == "";
  }

  /** Each of the words is read as its type, the unit brackets as the unit type, the underscore and nothing as
      unknown. */
  lemma WordsParse(i: nat)
    requires i < |WordsAndTypes()|
    ensures ParseRustType(WordsAndTypes()[i].0) == Primitive(WordsAndTypes()[i].1)
    ensures ParseRustType("()") == Primitive(Unit) && ParseRustType("_") == ParseRustType("") == Unknown
  {
    NothingParses();
    hide ParseRustType, WordsAndTypes;
    WordsAreKeywords();
    KeywordParses(KEYWORDS[i]);
    UnitParses();
    assert Plain("_");
    PlainParses("_");
  }

  /** Any other identifier is a parameter if it has at most two characters and begins in upper case, and a
      named type otherwise. */
  lemma BareNameParses(s: string)
    requires Plain(s) && s != "_" && forall w :: w in WordsAndTypes() ==> w.0 != s
    ensures ParseRustType(s) == if |s| <= 2 && IS_UPPERCASE(s[0]) then TypeParam(s, []) else Generic(s, [])
  {
    hide ParseRustType, WordsAndTypes;
    WordsAreKeywords();
    NamedFindsKeyword(s, KEYWORDS);
    forall i | 0 <= i < |KEYWORDS| ensures KEYWORDS[i].AsStr() != s {
      assert WordsAndTypes()[i] in WordsAndTypes();
    }
    PlainParses(s);
  }

  /** Whitespace around a type and punctuation behind it make no difference. */
  lemma SurroundingsIgnored(pad: string, s: string, tail: string, end: string)
    requires Blank(pad) && Clean(s) && Blank(end)
    requires forall c :: c in tail ==> c == ',' || c == ';' || c == '{' || c == '}'
    ensures ParseRustType(pad + s + tail + end) == ParseRustType(s)
  {
    hide Classify, ParseRustType, Trim, TrimTrailing;
    if tail != "" {
      assert tail[|tail| - 1] in tail;
    }
    assert pad + s + tail + end == pad + (s + tail) + end;
    TrimAround(pad, s + tail, end);
    DropTail(s, tail);
    TrimClean(s);
    PreparedDecides(pad + s + tail + end, s);
  }

  lemma TrimAround(pad: string, s: string, end: string)
    requires Blank(pad) && Blank(end) && s != "" && !IsWhitespace(s[0]) && !IsWhitespace(s[|s| - 1])
    ensures Trim(pad + s + end) == s
  {
    TrimStartDrops(pad, s + end);
    TrimEndDrops(s, end);
    assert pad + s + end == pad + (s + end);
  }

  lemma {:induction false} TrimStartDrops(pad: string, s: string)
    requires Blank(pad) && s != "" && !IsWhitespace(s[0])
    ensures TrimStart(pad + s) == s
    decreases |pad|
  {
    if pad == "" {
      assert pad + s == s;
    } else {
      assert pad[0] in pad && (pad + s)[1..] == pad[1..] + s;
      TrimStartDrops(pad[1..], s);
    }
  }

  lemma {:induction false} TrimEndDrops(s: string, end: string)
    requires Blank(end) && s != "" && !IsWhitespace(s[|s| - 1])
    ensures TrimEnd(s + end) == s
    decreases |end|
  {
    if end == "" {
      assert s + end == s;
    } else {
      var n := |end| - 1;
      assert end[n] in end && (s + end)[..|s + end| - 1] == s + end[..n];
      TrimEndDrops(s, end[..n]);
    }
  }

  lemma {:induction false} DropTail(s: string, tail: string)
    requires Clean(s) && forall c :: c in tail ==> IsTrailing(c)
    ensures TrimTrailing(s + tail) == s
    decreases |tail|
  {
    if tail == "" {
      assert s + tail == s;
      TrimClean(s);
    } else {
      var n := |tail| - 1;
      assert tail[n] in tail && (s + tail)[..|s + tail| - 1] == s + tail[..n];
      DropTail(s, tail[..n]);
    }
  }

  /** The result depends on the prepared text alone. */
  lemma PreparedDecides(a: string, b: string)
    requires Prepared(a) == Prepared(b)
    ensures ParseRustType(a) == ParseRustType(b)
  {
  }

  /** Between square brackets the text is cut at the first semicolon; what follows it is the length. */
  lemma BracketsParse(element: string, length: string)
    requires ';' !in element
    ensures ParseRustType("[" + (element + [';'] + length) + "]")
            == Array(ParseRustType(Trim(element)), ParseUsize(Trim(length)))
    ensures ParseRustType("[" + element + "]") == Slice(ParseRustType(element))
  {
    var body := element + [';'] + length;
    FindFirst(element, ';', length);
    FindIsFirst(element, ';');
    assert body[..|element|] == element && body[|element| + 1..] == length;
    SizedParses(body, ClassifyBracketed(body));
    UnsizedParses(element);
  }

  /** The last comma of an argument list may be followed by nothing. */
  lemma LastCommaDropped(a: string)
    requires Clean(a) && Depth(a) == 0 && OuterCommas(a, 0) == 0
    ensures SplitArgs(a + ",") == [a]
  {
    assert a + "," == a + ([','] + "");
    SplitCollects(a, [','] + "", 0, "");
    assert "" + a == a;
    SplitAtComma("", a);
    TrimClean(a);
    EndOfText("");
  }

  /** The printed forms the parser does not read: function types, bounds, traits, items, lifetimes. */
  lemma PrintedFunction()
    ensures Display(Function([Primitive(I32), Primitive(Bool)], Primitive(Str))) == "fn(i32, bool) -> str"
  {
    PairDisplays(Primitive(I32), Primitive(Bool));
    PairJoins("i32", "bool", ", ");
    hide DisplayAll, Join;
  }

  lemma PrintedBounds()
    ensures Display(TypeParam("T", [TraitBound("A", []), TraitBound("B", [])])) == "T: A + B"
    ensures Display(TraitBound("C", [TraitBound("A", []), TraitBound("B", [])])) == "C: A + B"
  {
    var a, b := TraitBound("A", []), TraitBound("B", []);
    PairDisplays(a, b);
    PairJoins("A", "B", " + ");
    assert Display(a) == "A" && Display(b) == "B";
    hide DisplayAll, Join;
  }

  lemma PrintedTraits(a: string, b: string)
    ensures Display(TraitObject(a, Some(b))) == "dyn " + a + " + '" + b && Display(TraitObject(a, None)) == "dyn " + a
    ensures Display(AssociatedType(a, b)) == "<" + a + ">::" + b && Display(Lifetime(a)) == "'" + a
  {
  }

  lemma PairDisplays(a: TypeInfo, b: TypeInfo)
    ensures DisplayAll([a, b]) == [Display(a), Display(b)]
  {
  }

  lemma PairJoins(a: string, b: string, separator: string)
    ensures Join([a, b], separator) == a + separator + b
  {
    assert [a, b][1..] == [b];
  }
}
