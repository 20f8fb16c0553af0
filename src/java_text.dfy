/** The handful of java.lang.String / Character / Integer operations the
    application relies on, written out with Java's own semantics. */
module JavaText {
  import opened Wrappers

  /** Character.isWhitespace: the space separators except the no-break ones,
      and the ASCII control separators. */
  predicate IsWhitespace(c: char) {
    ('\t' <= c <= '\r') || ('\U{1C}' <= c <= ' ')
    || c == '\U{1680}' || ('\U{2000}' <= c <= '\U{2006}') || ('\U{2008}' <= c <= '\U{200A}')
    || c == '\U{2028}' || c == '\U{2029}' || c == '\U{205F}' || c == '\U{3000}'
  }

  /** String.isBlank: empty or whitespace only. */
  predicate IsBlank(s: string) {
    forall i :: 0 <= i < |s| ==> IsWhitespace(s[i])
  }

  /** The characters String.trim removes: code points up to U+0020. */
  predicate IsTrimmable(c: char) {
    c <= ' '
  }

  /** The text after the leading trimmable characters. */
  function TrimStart(s: string): (r: string)
    ensures |r| <= |s|
  {
    if s == [] || !IsTrimmable(s[0]) then s
    else TrimStart(s[1..])
  }

  /** TrimStart keeps a suffix that starts with a kept character, and drops
      only trimmable ones. */
  lemma {:induction false} TrimStartSpec(s: string)
    ensures var r := TrimStart(s);
      && r == s[|s| - |r|..]
      && (r == [] || !IsTrimmable(r[0]))
      && (forall i :: 0 <= i < |s| - |r| ==> IsTrimmable(s[i]))
  {
    if s != [] && IsTrimmable(s[0]) {
      TrimStartSpec(s[1..]);
    }
  }

  /** The text before the trailing trimmable characters. */
  function TrimEnd(s: string): (r: string)
    ensures |r| <= |s|
  {
    if s == [] || !IsTrimmable(s[|s| - 1]) then s
    else TrimEnd(s[..|s| - 1])
  }

  /** TrimEnd keeps a prefix that ends with a kept character, and drops only
      trimmable ones. */
  lemma {:induction false} TrimEndSpec(s: string)
    ensures var r := TrimEnd(s);
      && r == s[..|r|]
      && (r == [] || !IsTrimmable(r[|r| - 1]))
      && (forall i :: |r| <= i < |s| ==> IsTrimmable(s[i]))
  {
    if s != [] && IsTrimmable(s[|s| - 1]) {
      TrimEndSpec(s[..|s| - 1]);
    }
  }

  /** Number of leading characters String.trim drops. */
  function TrimOffset(s: string): nat
  {
    |s| - |TrimStart(s)|
  }

  /** String.trim: drops leading and trailing characters up to U+0020. */
  function Trim(s: string): (r: string)
    ensures |r| <= |s|
  {
    TrimEnd(TrimStart(s))
  }

  /** What String.trim keeps is a slice of its input that neither starts nor
      ends with a trimmable character, and what it drops on either side is
      trimmable. */
  lemma TrimSpec(s: string)
    ensures var r := Trim(s);
      && TrimOffset(s) + |r| <= |s|
      && r == s[TrimOffset(s)..TrimOffset(s) + |r|]
      && (r == [] || (!IsTrimmable(r[0]) && !IsTrimmable(r[|r| - 1])))
      && (forall i :: 0 <= i < TrimOffset(s) ==> IsTrimmable(s[i]))
      && (forall i :: TrimOffset(s) + |r| <= i < |s| ==> IsTrimmable(s[i]))
  {
    var t := TrimStart(s);
    TrimStartSpec(s);
    TrimEndSpec(t);
  }

  /** Trimming twice is trimming once. */
  lemma TrimIdempotent(s: string)
    ensures Trim(Trim(s)) == Trim(s)
  {
    TrimSpec(s);
    var r := Trim(s);
    assert TrimStart(r) == r;
    assert TrimEnd(r) == r;
  }

  /** A trimmed string is empty exactly when every character was trimmable. */
  lemma {:induction false} TrimEmpty(s: string)
    ensures Trim(s) == [] <==> forall i :: 0 <= i < |s| ==> IsTrimmable(s[i])
  {
    var t := TrimStart(s);
    TrimStartSpec(s);
    TrimEndSpec(t);
    if t != [] {
      assert !IsTrimmable(s[|s| - |t|]);
    }
  }

  /** Character.toLowerCase on ASCII and the basic Cyrillic alphabet. */
  function ToLowerChar(c: char): (r: char)
    ensures 'A' <= c <= 'Z' ==> r as int == c as int + 32
    ensures !('A' <= c <= 'Z') && !('Ѐ' <= c <= 'Я') ==> r == c
  {
    if 'A' <= c <= 'Z' then (c as int + 32) as char
    else if 'А' <= c <= 'Я' then (c as int + 0x20) as char
    else if 'Ѐ' <= c <= 'Џ' then (c as int + 0x50) as char
    else c
  }

  /** Character.toUpperCase on ASCII and the basic Cyrillic alphabet. */
  function ToUpperChar(c: char): (r: char)
    ensures 'a' <= c <= 'z' ==> r as int == c as int - 32
    ensures !('a' <= c <= 'z') && !('а' <= c <= 'џ') ==> r == c
  {
    if 'a' <= c <= 'z' then (c as int - 32) as char
    else if 'а' <= c <= 'я' then (c as int - 0x20) as char
    else if 'ѐ' <= c <= 'џ' then (c as int - 0x50) as char
    else c
  }

  /** Upper-casing undoes lower-casing of an upper-case letter, and the reverse. */
  lemma CaseRoundTrip(c: char)
    ensures ('A' <= c <= 'Z' || 'Ѐ' <= c <= 'Я') ==> ToUpperChar(ToLowerChar(c)) == c
    ensures ('a' <= c <= 'z' || 'а' <= c <= 'џ') ==> ToLowerChar(ToUpperChar(c)) == c
  {
  }

  /** String.toLowerCase, character by character. */
  function ToLower(s: string): (r: string)
    ensures |r| == |s|
    ensures forall i :: 0 <= i < |s| ==> r[i] == ToLowerChar(s[i])
  {
    seq(|s|, i requires 0 <= i < |s| => ToLowerChar(s[i]))
  }

  /** The per-character test of String.equalsIgnoreCase (regionMatches). */
  predicate CharEqualsIgnoreCase(a: char, b: char) {
    a == b
    || ToUpperChar(a) == ToUpperChar(b)
    || ToLowerChar(ToUpperChar(a)) == ToLowerChar(ToUpperChar(b))
  }

  /** String.equalsIgnoreCase: same length and pairwise equal ignoring case. */
  predicate EqualsIgnoreCase(a: string, b: string) {
    |a| == |b| && forall i :: 0 <= i < |a| ==> CharEqualsIgnoreCase(a[i], b[i])
  }

  lemma EqualsIgnoreCaseReflexiveSymmetric(a: string, b: string)
    ensures EqualsIgnoreCase(a, a)
    ensures EqualsIgnoreCase(a, b) ==> EqualsIgnoreCase(b, a)
  {
  }

  /** Against a word of lower-case ASCII letters, equalsIgnoreCase accepts
      exactly the strings that spell it with each letter in either case. */
  lemma EqualsIgnoreCaseAscii(a: string, b: string)
    requires forall i :: 0 <= i < |a| ==> 'a' <= a[i] <= 'z'
    ensures EqualsIgnoreCase(a, b) <==>
      |a| == |b| && forall i :: 0 <= i < |a| ==> b[i] == a[i] || b[i] == ToUpperChar(a[i])
  {
  }

  /** String.contains: `sub` occurs at some position of `s`. */
  predicate Contains(s: string, sub: string) {
    exists i | 0 <= i <= |s| :: OccursAt(s, sub, i)
  }

  predicate OccursAt(s: string, sub: string, i: int) {
    0 <= i <= |s| - |sub| && s[i..i + |sub|] == sub
  }

  /** Lower-casing both sides keeps an occurrence. */
  lemma ContainsLower(s: string, t: string)
    requires Contains(s, t)
    ensures Contains(ToLower(s), ToLower(t))
  {
    var i :| 0 <= i <= |s| && OccursAt(s, t, i);
    assert ToLower(s)[i..i + |t|] == ToLower(t);
    assert OccursAt(ToLower(s), ToLower(t), i);
  }

  /** Every string contains the empty string and itself. */
  lemma ContainsTrivial(s: string)
    ensures Contains(s, "")
    ensures Contains(s, s)
  {
    assert OccursAt(s, "", 0);
    assert OccursAt(s, s, 0);
  }

  // ---------------------------------------------------------------------
  // Integer.parseInt and Integer.toString

  /** Java's % on int: truncating division, so the remainder takes the sign
      of the dividend (Dafny's % never goes negative). */
  function JavaRem(a: int, b: int): (r: int)
    requires b > 0
    ensures a >= 0 ==> 0 <= r < b
    ensures a < 0 ==> -b < r <= 0
  {
    if a >= 0 then a % b else -((-a) % b)
  }

  const INT_MIN: int := -0x8000_0000
  const INT_MAX: int := 0x7FFF_FFFF

  /** The regular-expression class [0-9]. */
  predicate IsDigit(c: char) {
    '0' <= c <= '9'
  }

  /** The first code point of each block of ten Unicode decimal digits
      (general category Nd) in the Basic Multilingual Plane, ascending;
      Unicode 15 has 37 such blocks. A digit outside this plane is two
      UTF-16 surrogates to Java, neither of which is a digit. */
  const DIGIT_ZEROS: seq<int> := [
    0x0030, 0x0660, 0x06F0, 0x07C0, 0x0966, 0x09E6, 0x0A66, 0x0AE6, 0x0B66, 0x0BE6,
    0x0C66, 0x0CE6, 0x0D66, 0x0DE6, 0x0E50, 0x0ED0, 0x0F20, 0x1040, 0x1090, 0x17E0,
    0x1810, 0x1946, 0x19D0, 0x1A80, 0x1A90, 0x1B50, 0x1BB0, 0x1C40, 0x1C50, 0xA620,
    0xA8D0, 0xA900, 0xA9D0, 0xA9F0, 0xAA50, 0xABF0, 0xFF10]

  /** The value of `c` as a digit of one of the ascending blocks `zeros`. */
  function DigitIn(c: char, zeros: seq<int>): (d: Option<nat>)
    ensures d.Some? ==> d.value <= 9
  {
    if zeros == [] || (c as int) < zeros[0] then None
    else if (c as int) < zeros[0] + 10 then Some(c as int - zeros[0])
    else DigitIn(c, zeros[1..])
  }

  /** Character.digit(c, 10): the decimal value of a Unicode decimal digit,
      None where Java returns -1. */
  function CharacterDigit(c: char): Option<nat> {
    DigitIn(c, DIGIT_ZEROS)
  }

  /** Below U+0660 only the ASCII digits are decimal digits. */
  lemma AsciiDigit(c: char)
    requires (c as int) < 0x0660
    ensures CharacterDigit(c) == if IsDigit(c) then Some(c as int - '0' as int) else None
  {
    var rest := DIGIT_ZEROS[1..];
    assert DIGIT_ZEROS[0] == 0x0030 && rest != [] && rest[0] == 0x0660;
    if !IsDigit(c) && (c as int) >= 0x0030 {
      assert DigitIn(c, DIGIT_ZEROS) == DigitIn(c, rest);
    }
  }

  /** A decimal digit is never a character that trim removes. */
  lemma DigitNotTrimmable(c: char)
    requires CharacterDigit(c).Some?
    ensures c as int >= 0x0030
  {
  }

  /** Integer.parseInt reads Arabic-Indic digits as it reads ASCII ones:
      "\u0662\u0660" is 20. */
  lemma ArabicIndicDigits()
    ensures ParseInt("\U{0662}\U{0660}") == Some(20)
  {
    var rest := DIGIT_ZEROS[1..];
    assert DIGIT_ZEROS[0] == 0x0030 && rest != [] && rest[0] == 0x0660;
    var s := "\U{0662}\U{0660}";
    assert DigitIn(s[0], DIGIT_ZEROS) == DigitIn(s[0], rest) == Some(2);
    assert DigitIn(s[1], DIGIT_ZEROS) == DigitIn(s[1], rest) == Some(0);
    assert AllDigits(s);
    assert s[..1][..0] == [] && s[..1][0] == s[0];
    assert DigitsValue(s[..1]) == 2;
    assert DigitsValue(s) == 20;
  }

  predicate AllDigits(s: string) {
    forall i :: 0 <= i < |s| ==> CharacterDigit(s[i]).Some?
  }

  /** The value of a run of decimal digits, most significant first. */
  function DigitsValue(s: string): (v: nat)
    requires AllDigits(s)
  {
    if s == [] then 0
    else DigitsValue(s[..|s| - 1]) * 10 + CharacterDigit(s[|s| - 1]).value
  }

  /** Integer.parseInt(s, 10): an optional sign, then at least one digit, and a
      value in the int range; anything else throws NumberFormatException (None). */
  function ParseInt(s: string): (r: Option<int>)
    ensures r.Some? ==> INT_MIN <= r.value <= INT_MAX
    ensures s == [] ==> r == None
    ensures r.Some? ==> exists i :: 0 <= i < |s| && CharacterDigit(s[i]).Some?
  {
    if s == [] then None
    else
      var negative := s[0] == '-';
      var digits := if s[0] == '-' || s[0] == '+' then s[1..] else s;
      if digits == [] || !AllDigits(digits) then None
      else
        var magnitude: int := DigitsValue(digits);
        var v := if negative then -magnitude else magnitude;
        if INT_MIN <= v <= INT_MAX then
          assert CharacterDigit(s[|s| - |digits|]).Some?;
          Some(v)
        else None
  }

  /** Decimal digits of a natural number, no leading zeros (one "0" for zero). */
  function NatToDigits(n: nat): (s: string)
    ensures |s| > 0 && AllDigits(s)
    ensures forall i :: 0 <= i < |s| ==> IsDigit(s[i])
    ensures DigitsValue(s) == n
    decreases n
  {
    var c := '0' + (n % 10) as char;
    AsciiDigit(c);
    var d := [c];
    if n < 10 then
      assert DigitsValue(d) == DigitsValue([]) * 10 + n;
      d
    else
      var p := NatToDigits(n / 10);
      var s := p + d;
      assert s[..|s| - 1] == p;
      s
  }

  /** Integer.toString: a leading '-' for negatives, then the digits. */
  function IntToString(n: int): (s: string)
    ensures |s| > 0
  {
    if n < 0 then "-" + NatToDigits(-n) else NatToDigits(n)
  }

  /** Parsing what Integer.toString printed gives the number back. */
  lemma ParseIntToString(n: int)
    requires INT_MIN <= n <= INT_MAX
    ensures ParseInt(IntToString(n)) == Some(n)
  {
    var digits := NatToDigits(if n < 0 then -n else n);
    if n < 0 {
      assert IntToString(n)[1..] == digits;
    } else {
      assert IntToString(n)[0] != '-' && IntToString(n)[0] != '+';
    }
  }
}
