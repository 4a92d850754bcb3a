/** The string operations of the standard library that the type parser relies on. */
module Text {
  import opened Options
  import opened Types

  /** The Unicode White_Space property. */
  predicate IsWhitespace(c: char) {
    || '\U{0009}' <= c <= '\U{000D}' || c == ' ' || c == '\U{0085}' || c == '\U{00A0}' || c == '\U{1680}'
    || '\U{2000}' <= c <= '\U{200A}' || c == '\U{2028}' || c == '\U{2029}' || c == '\U{202F}'
    || c == '\U{205F}' || c == '\U{3000}'
  }

  /** The twenty-five characters of the property, by code point. */
  lemma WhitespaceTable(c: char)
    ensures IsWhitespace(c)
            <==> c as int in [9, 10, 11, 12, 13, 32, 133, 160, 5760, 8192, 8193, 8194, 8195, 8196, 8197, 8198, 8199,
                              8200, 8201, 8202, 8232, 8233, 8239, 8287, 12288]
  {
  }

  function TrimStart(s: string): (r: string)
    ensures |r| <= |s|
  {
    if s != "" && IsWhitespace(s[0]) then TrimStart(s[1..]) else s
  }

  function TrimEnd(s: string): (r: string)
    ensures |r| <= |s|
  {
    if s != "" && IsWhitespace(s[|s| - 1]) then TrimEnd(s[..|s| - 1]) else s
  }

  function Trim(s: string): (r: string)
    ensures |r| <= |s|
  {
    TrimEnd(TrimStart(s))
  }

  /** Punctuation the parser drops from the end of a type. */
  predicate IsTrailing(c: char) {
    c == ',' || c == ';' || c == '{' || c == '}'
  }

  function TrimTrailing(s: string): (r: string)
    ensures |r| <= |s|
  {
    if s != "" && IsTrailing(s[|s| - 1]) then TrimTrailing(s[..|s| - 1]) else s
  }

  /** The position of the first `c`. */
  function Find(s: string, c: char): (r: Option<nat>)
    ensures r.Some? ==> r.value < |s| && s[r.value] == c
  {
    if s == "" then None
    else if s[0] == c then Some(0)
    else
      match Find(s[1..], c)
      case None => None
      case Some(i) => Some(i + 1)
  }

  lemma {:induction false} FindIsFirst(s: string, c: char)
    ensures Find(s, c).None? <==> c !in s
    ensures Find(s, c).Some? ==> c !in s[..Find(s, c).value]
    decreases |s|
  {
    if s != "" {
      assert s == [s[0]] + s[1..];
      FindIsFirst(s[1..], c);
      if s[0] != c && Find(s, c).Some? {
        var i := Find(s[1..], c).value;
        assert s[..i + 1] == [s[0]] + s[1..][..i];
      }
    }
  }

  /** `split` on one character: one piece more than there are separators. */
  function SplitOn(s: string, c: char): (r: seq<string>)
    ensures r != []
  {
    if s == "" then [""]
    else
      var rest := SplitOn(s[1..], c);
      if s[0] == c then [""] + rest else [[s[0]] + rest[0]] + rest[1..]
  }

  lemma {:induction false} SplitOnShort(s: string, c: char)
    ensures forall p :: p in SplitOn(s, c) ==> |p| <= |s|
    decreases |s|
  {
    if s != "" {
      SplitOnShort(s[1..], c);
      assert SplitOn(s[1..], c)[0] in SplitOn(s[1..], c);
    }
  }

  lemma {:induction false} SplitOnCount(s: string, c: char)
    ensures |SplitOn(s, c)| == multiset(s)[c] + 1
    decreases |s|
  {
    if s != "" {
      assert s == [s[0]] + s[1..];
      SplitOnCount(s[1..], c);
    }
  }

  lemma {:induction false} SplitOnKeepsOut(s: string, c: char, x: char)
    requires x !in s
    ensures forall p :: p in SplitOn(s, c) ==> x !in p
    decreases |s|
  {
    if s != "" {
      SplitOnKeepsOut(s[1..], c, x);
      var rest := SplitOn(s[1..], c);
      assert rest[0] in rest;
      assert forall p :: p in rest[1..] ==> p in rest;
    }
  }

  /** Trimming leaves nothing exactly of a text that is whitespace throughout. */
  lemma TrimsToNothing(s: string)
    ensures Trim(s) == "" <==> forall c :: c in s ==> IsWhitespace(c)
  {
    if forall c :: c in s ==> IsWhitespace(c) {
      AllTrimmed(s);
    } else {
      var c :| c in s && !IsWhitespace(c);
      TrimKeeps(s, c);
    }
  }

  lemma {:induction false} AllTrimmed(s: string)
    requires forall c :: c in s ==> IsWhitespace(c)
    ensures TrimStart(s) == ""
    decreases |s|
  {
    if s != "" {
      assert s[0] in s;
      AllTrimmed(s[1..]);
    }
  }

  // ---------- Numbers ----------

  predicate IsDigit(c: char) {
    '0' <= c <= '9'
  }

  function DigitsValue(s: string): nat
    requires forall c :: c in s ==> IsDigit(c)
  {
    if s == "" then 0
    else
      assert IsDigit(s[|s| - 1]);
      DigitsValue(s[..|s| - 1]) * 10 + (s[|s| - 1] as int - '0' as int)
  }

  /** `parse::<usize>`: an optional plus sign, then decimal digits that fit 64 bits. */
  function ParseUsize(s: string): Option<Usize> {
    var digits := if s != "" && s[0] == '+' then s[1..] else s;
    if digits == "" || exists c :: c in digits && !IsDigit(c) then None
    else
      var n := DigitsValue(digits);
      if n < 0x1_0000_0000_0000_0000 then Some(n) else None
  }

  lemma {:induction false} DigitsRoundTrip(n: nat)
    ensures Digits(n) != "" && forall c :: c in Digits(n) ==> IsDigit(c)
    ensures DigitsValue(Digits(n)) == n
    decreases n
  {
    if n >= 10 {
      DigitsRoundTrip(n / 10);
      var s := Digits(n);
      assert s[..|s| - 1] == Digits(n / 10);
    } else {
      assert Digits(n)[..0] == "";
    }
  }

  lemma ParsePrintedSize(n: Usize)
    ensures ParseUsize(Digits(n)) == Some(n)
  {
    DigitsRoundTrip(n);
    assert Digits(n)[0] in Digits(n);
  }

  /** Array lengths: a plus sign may stand in front, leading zeros do not matter, and the number must fit
      64 bits. */
  lemma SizeTexts(n: nat)
    ensures ParseUsize(Digits(n)) == if n < 18446744073709551616 then Some(n) else None
    ensures ParseUsize("+" + Digits(n)) == ParseUsize(Digits(n))
    ensures ParseUsize("0" + Digits(n)) == ParseUsize(Digits(n))
    ensures ParseUsize("") == None && ParseUsize("+") == None
  {
    DigitsRoundTrip(n);
    var d := Digits(n);
    hide Digits, DigitsValue;
    assert d[0] in d && d[0] != '+';
    assert ("+" + d)[1..] == d;
    LeadingZero(d);
    assert ("0" + d)[0] == '0';
    assert "+"[1..] == "";
  }

  /** Anything but digits behind an optional plus sign is no array length. */
  lemma NoSizeText(s: string, i: nat)
    requires i < |s| && !('0' <= s[i] <= '9') && (i == 0 ==> s[i] != '+')
    ensures ParseUsize(s) == None
  {
    var digits := if s[0] == '+' then s[1..] else s;
    var at := if s[0] == '+' then i - 1 else i;
    assert digits[at] == s[i] && digits[at] in digits && !IsDigit(digits[at]);
  }

  lemma {:induction false} LeadingZero(d: string)
    requires forall c :: c in d ==> IsDigit(c)
    ensures (forall c :: c in "0" + d ==> IsDigit(c)) && DigitsValue("0" + d) == DigitsValue(d)
    decreases |d|
  {
    if d != "" {
      LeadingZero(d[..|d| - 1]);
      assert ("0" + d)[..|d|] == "0" + d[..|d| - 1];
    } else {
      assert "0" + d == "0" && "0"[..0] == "";
    }
  }

  // ---------- Text that trimming leaves alone ----------

  /** Nonempty, and neither end is whitespace or trailing punctuation. */
  predicate Clean(s: string) {
    && s != ""
    && !IsWhitespace(s[0])
    && !IsWhitespace(s[|s| - 1])
    && !IsTrailing(s[|s| - 1])
  }

  predicate Blank(s: string) {
    forall c :: c in s ==> IsWhitespace(c)
  }

  lemma {:induction false} TrimPadded(pad: string, s: string)
    requires Blank(pad) && Clean(s)
    ensures Trim(pad + s) == s
    decreases |pad|
  {
    if pad == "" {
      assert pad + s == s;
    } else {
      assert pad[0] in pad && (pad + s)[1..] == pad[1..] + s;
      TrimPadded(pad[1..], s);
    }
  }

  lemma TrimClean(s: string)
    requires Clean(s)
    ensures Trim(s) == s && TrimTrailing(s) == s
  {
  }

  lemma {:induction false} TrimKeeps(s: string, c: char)
    requires c in s && !IsWhitespace(c)
    ensures c in Trim(s)
  {
    TrimStartKeeps(s, c);
    TrimEndKeeps(TrimStart(s), c);
  }

  lemma {:induction false} TrimStartKeeps(s: string, c: char)
    requires c in s && !IsWhitespace(c)
    ensures c in TrimStart(s)
    decreases |s|
  {
    if IsWhitespace(s[0]) {
      assert s == [s[0]] + s[1..];
      TrimStartKeeps(s[1..], c);
    }
  }

  lemma {:induction false} TrimEndKeeps(s: string, c: char)
    requires c in s && !IsWhitespace(c)
    ensures c in TrimEnd(s)
    decreases |s|
  {
    if IsWhitespace(s[|s| - 1]) {
      assert s == s[..|s| - 1] + [s[|s| - 1]];
      TrimEndKeeps(s[..|s| - 1], c);
    }
  }

  lemma {:induction false} TrimKeepsOut(s: string, c: char)
    requires c !in s
    ensures c !in Trim(s) && c !in TrimTrailing(s)
  {
    TrimStartKeepsOut(s, c);
    TrimEndKeepsOut(TrimStart(s), c);
    TrimTrailingKeepsOut(s, c);
  }

  lemma {:induction false} TrimStartKeepsOut(s: string, c: char)
    requires c !in s
    ensures c !in TrimStart(s)
    decreases |s|
  {
    if s != "" && IsWhitespace(s[0]) {
      TrimStartKeepsOut(s[1..], c);
    }
  }

  lemma {:induction false} TrimEndKeepsOut(s: string, c: char)
    requires c !in s
    ensures c !in TrimEnd(s)
    decreases |s|
  {
    if s != "" && IsWhitespace(s[|s| - 1]) {
      TrimEndKeepsOut(s[..|s| - 1], c);
    }
  }

  lemma {:induction false} TrimTrailingKeepsOut(s: string, c: char)
    requires c !in s
    ensures c !in TrimTrailing(s)
    decreases |s|
  {
    if s != "" && IsTrailing(s[|s| - 1]) {
      TrimTrailingKeepsOut(s[..|s| - 1], c);
    }
  }

  // ---------- Splitting what was joined ----------

  lemma {:induction false} SplitOnFirst(a: string, c: char, rest: string)
    requires c !in a
    ensures SplitOn(a + [c] + rest, c) == [a] + SplitOn(rest, c)
    decreases |a|
  {
    if a == "" {
      assert a + [c] + rest == [c] + rest;
      assert ([c] + rest)[1..] == rest;
    } else {
      assert (a + [c] + rest)[1..] == a[1..] + [c] + rest;
      assert c !in a[1..];
      SplitOnFirst(a[1..], c, rest);
      assert [a[0]] + a[1..] == a;
    }
  }

  lemma {:induction false} SplitOnNone(a: string, c: char)
    requires c !in a
    ensures SplitOn(a, c) == [a]
    decreases |a|
  {
    if a != "" {
      SplitOnNone(a[1..], c);
      assert [a[0]] + a[1..] == a;
    }
  }

  lemma JoinOne(parts: seq<string>)
    requires |parts| == 1
    ensures Join(parts, ", ") == parts[0]
  {
  }

  lemma JoinMore(parts: seq<string>)
    requires |parts| > 1
    ensures Join(parts, ", ") == parts[0] + ", " + Join(parts[1..], ", ")
  {
  }

  lemma {:induction false} JoinCount(parts: seq<string>, c: char)
    requires parts != [] && c != ' '
    ensures c == ',' ==> multiset(Join(parts, ", "))[c] >= |parts| - 1
    ensures (exists i :: 0 <= i < |parts| && c in parts[i])
            ==> multiset(Join(parts, ", "))[c] > if c == ',' then |parts| - 1 else 0
    ensures c in Join(parts, ", ") ==> (c == ',' && |parts| > 1) || exists i :: 0 <= i < |parts| && c in parts[i]
    decreases |parts|
  {
    hide Join;
    if |parts| == 1 {
      JoinOne(parts);
    } else {
      JoinCount(parts[1..], c);
      var tail := Join(parts[1..], ", ");
      JoinMore(parts);
      assert multiset(", ") == multiset{',', ' '};
      assert multiset(Join(parts, ", ")) == multiset(parts[0]) + multiset(", ") + multiset(tail);
      assert parts[0] in parts;
      if i :| 0 <= i < |parts| && c in parts[i] {
        if i > 0 {
          assert parts[1..][i - 1] == parts[i];
        }
      }
      if c in tail && !(exists i :: 0 <= i < |parts[1..]| && c in parts[1..][i]) {
        assert c == ',';
      } else if c in tail {
        var i :| 0 <= i < |parts[1..]| && c in parts[1..][i];
        assert parts[i + 1] == parts[1..][i];
      }
    }
  }
}
