/** PasswordUtil: salted password hashing. SHA-256 over the UTF-8 bytes is the
    parameter `digest`, and the bytes SecureRandom produces are the parameter
    `rng`; neither is modelled further. */
module PasswordUtil {
  import opened Wrappers
  import opened JavaText

  /** A Java byte. */
  newtype Byte = b: int | -128 <= b < 128

  const HEX_DIGITS: string := "0123456789abcdef"

  predicate IsLowerHexDigit(c: char) {
    ('0' <= c <= '9') || ('a' <= c <= 'f')
  }

  /** The byte read as unsigned, as %x formats a negative Byte (adding 2^8). */
  function Unsigned(b: Byte): (u: nat)
    ensures u < 256 && (u - b as int) % 256 == 0
  {
    if b < 0 then b as int + 256 else b as int
  }

  /** String.format("%02x", b): two lowercase hex digits, high nibble first. */
  function ByteHex(b: Byte): string {
    var u := Unsigned(b);
    [HEX_DIGITS[u / 16], HEX_DIGITS[u % 16]]
  }

  /** What toHex builds: the bytes' two-digit renderings, in order. */
  function HexOf(bytes: seq<Byte>): (r: string)
    ensures |r| == 2 * |bytes|
  {
    if bytes == [] then [] else HexOf(bytes[..|bytes| - 1]) + ByteHex(bytes[|bytes| - 1])
  }

  /** Both characters of a byte's rendering are lowercase hex digits. */
  lemma ByteHexDigits(b: Byte)
    ensures |ByteHex(b)| == 2 && IsLowerHexDigit(ByteHex(b)[0]) && IsLowerHexDigit(ByteHex(b)[1])
  {
    var u := Unsigned(b);
    assert forall k :: 0 <= k < |HEX_DIGITS| ==> IsLowerHexDigit(HEX_DIGITS[k]);
  }

  /** Each byte i owns characters 2i and 2i+1 of the text. */
  lemma {:induction false} HexOfPairs(bytes: seq<Byte>)
    ensures var r := HexOf(bytes);
      forall i :: 0 <= i < |bytes| ==> r[2 * i..2 * i + 2] == ByteHex(bytes[i])
  {
    if bytes != [] {
      var init := bytes[..|bytes| - 1];
      HexOfPairs(init);
      var r, front := HexOf(bytes), HexOf(init);
      assert r == front + ByteHex(bytes[|bytes| - 1]);
      forall i | 0 <= i < |bytes| ensures r[2 * i..2 * i + 2] == ByteHex(bytes[i]) {
        if i < |init| {
          assert r[2 * i..2 * i + 2] == front[2 * i..2 * i + 2];
        }
      }
    }
  }

  /** Every character of the text is a lowercase hex digit. */
  lemma {:induction false} HexOfDigits(bytes: seq<Byte>)
    ensures forall k :: 0 <= k < |HexOf(bytes)| ==> IsLowerHexDigit(HexOf(bytes)[k])
  {
    if bytes != [] {
      var init := bytes[..|bytes| - 1];
      HexOfDigits(init);
      ByteHexDigits(bytes[|bytes| - 1]);
      var r, front, back := HexOf(bytes), HexOf(init), ByteHex(bytes[|bytes| - 1]);
      assert r == front + back;
      forall k | 0 <= k < |r| ensures IsLowerHexDigit(r[k]) {
        if k < |front| {
          assert r[k] == front[k];
        } else if k == |front| {
          assert r[k] == back[0];
        } else {
          assert r[k] == back[1];
        }
      }
    }
  }

  /** Each byte i owns characters 2i and 2i+1 of the text, and every character
      is a lowercase hex digit. */
  lemma HexOfSpec(bytes: seq<Byte>)
    ensures var r := HexOf(bytes);
      && (forall i :: 0 <= i < |bytes| ==> r[2 * i..2 * i + 2] == ByteHex(bytes[i]))
      && (forall k :: 0 <= k < |r| ==> IsLowerHexDigit(r[k]))
  {
    HexOfPairs(bytes);
    HexOfDigits(bytes);
  }

  /** The value of one lowercase hex digit. */
  function HexValue(c: char): Option<nat> {
    if '0' <= c <= '9' then Some(c as int - '0' as int)
    else if 'a' <= c <= 'f' then Some(c as int - 'a' as int + 10)
    else None
  }

  /** Two lowercase hex digits back to the signed byte they render. */
  function DecodePair(hi: char, lo: char): Option<Byte> {
    match (HexValue(hi), HexValue(lo))
    case (Some(h), Some(l)) =>
      var u: int := h * 16 + l;
      if u < 256 then Some((if u >= 128 then u - 256 else u) as Byte) else None
    case _ => None
  }

  /** The inverse of toHex: pairs of lowercase hex digits back to signed bytes;
      None on odd length or a character that is not a lowercase hex digit. */
  function FromHex(s: string): Option<seq<Byte>> {
    if s == [] then Some([])
    else if |s| < 2 then None
    else
      match (FromHex(s[..|s| - 2]), DecodePair(s[|s| - 2], s[|s| - 1]))
      case (Some(init), Some(b)) => Some(init + [b])
      case _ => None
  }

  lemma DecodePairByteHex(b: Byte)
    ensures DecodePair(ByteHex(b)[0], ByteHex(b)[1]) == Some(b)
  {
    var u := Unsigned(b);
    assert HexValue(HEX_DIGITS[u / 16]) == Some(u / 16);
    assert HexValue(HEX_DIGITS[u % 16]) == Some(u % 16);
  }

  /** Decoding what toHex wrote gives the bytes back. */
  lemma {:induction false} FromHexHexOf(bytes: seq<Byte>)
    ensures FromHex(HexOf(bytes)) == Some(bytes)
  {
    if bytes != [] {
      var init, b := bytes[..|bytes| - 1], bytes[|bytes| - 1];
      var s := HexOf(bytes);
      assert s == HexOf(init) + ByteHex(b);
      assert s[..|s| - 2] == HexOf(init);
      assert s[|s| - 2] == ByteHex(b)[0] && s[|s| - 1] == ByteHex(b)[1];
      FromHexHexOf(init);
      DecodePairByteHex(b);
      assert bytes == init + [b];
    }
  }

  /** toHex: one two-digit rendering per byte, appended in order. */
  method ToHex(bytes: array<Byte>) returns (s: string)
    ensures s == HexOf(bytes[..])
  {
    s := [];
    var i := 0;
    while i < bytes.Length
      invariant 0 <= i <= bytes.Length
      invariant s == HexOf(bytes[..i])
    {
      assert bytes[..i + 1][..i] == bytes[..i];
      s := s + ByteHex(bytes[i]);
      i := i + 1;
    }
    assert bytes[..] == bytes[..bytes.Length];
  }

  /** generateSaltHex: `bytes` random bytes in hex; a negative size is the
      NegativeArraySizeException of `new byte[bytes]`, here None. */
  method GenerateSaltHex(bytes: int, rng: int -> Byte) returns (r: Option<string>)
    ensures r.Some? <==> bytes >= 0
    ensures r.Some? ==> && |r.value| == 2 * bytes
                        && (forall k :: 0 <= k < |r.value| ==> IsLowerHexDigit(r.value[k]))
                        && FromHex(r.value) == Some(seq(bytes, i => rng(i)))
  {
    if bytes < 0 {
      return None;
    }
    var salt := new Byte[bytes](i => rng(i));
    var hex := ToHex(salt);
    assert salt[..] == seq(bytes, i => rng(i));
    HexOfSpec(salt[..]);
    FromHexHexOf(salt[..]);
    r := Some(hex);
  }

  /** sha256Hex: the digest of the text, in hex. */
  method Sha256Hex(data: string, digest: string -> seq<Byte>) returns (h: string)
    ensures h == HexOf(digest(data))
  {
    var out := digest(data);
    var a := new Byte[|out|](i requires 0 <= i < |out| => out[i]);
    assert a[..] == out;
    h := ToHex(a);
  }

  /** What hashPassword computes: a missing password or salt counts as "", and
      the salt is appended to the password before hashing. */
  function PasswordHash(password: Option<string>, saltHex: Option<string>,
                        digest: string -> seq<Byte>): string
  {
    HexOf(digest(password.GetOr("") + saltHex.GetOr("")))
  }

  method HashPassword(password: Option<string>, saltHex: Option<string>,
                      digest: string -> seq<Byte>) returns (h: string)
    ensures h == PasswordHash(password, saltHex, digest)
  {
    var p := if password.None? then "" else password.value;
    var s := if saltHex.None? then "" else saltHex.value;
    h := Sha256Hex(p + s, digest);
  }

  /** What verifyPassword answers: a present, non-blank expected hash equal to
      the recomputed one up to case. */
  predicate PasswordMatches(rawPassword: Option<string>, saltHex: Option<string>,
                            expectedHashHex: Option<string>, digest: string -> seq<Byte>)
  {
    && expectedHashHex.Some?
    && !IsBlank(expectedHashHex.value)
    && EqualsIgnoreCase(expectedHashHex.value, PasswordHash(rawPassword, saltHex, digest))
  }

  method VerifyPassword(rawPassword: Option<string>, saltHex: Option<string>,
                        expectedHashHex: Option<string>, digest: string -> seq<Byte>)
    returns (ok: bool)
    ensures ok == PasswordMatches(rawPassword, saltHex, expectedHashHex, digest)
  {
    if expectedHashHex.None? || IsBlank(expectedHashHex.value) {
      return false;
    }
    var hash := HashPassword(rawPassword, saltHex, digest);
    ok := EqualsIgnoreCase(expectedHashHex.value, hash);
  }

  /** A stored hash verifies the password it was made from, provided the
      digest is not empty (SHA-256 always yields 32 bytes); a missing or blank
      stored hash verifies nothing; a null password or salt behaves as "". */
  lemma PasswordMatchesSpec(p: Option<string>, s: Option<string>, h: string,
                            digest: string -> seq<Byte>)
    ensures |digest(p.GetOr("") + s.GetOr(""))| > 0 ==>
      PasswordMatches(p, s, Some(PasswordHash(p, s, digest)), digest)
    ensures !PasswordMatches(p, s, None, digest)
    ensures IsBlank(h) ==> !PasswordMatches(p, s, Some(h), digest)
    ensures PasswordMatches(p, s, Some(h), digest) ==> |h| == 2 * |digest(p.GetOr("") + s.GetOr(""))|
    ensures PasswordHash(None, s, digest) == PasswordHash(Some(""), s, digest)
    ensures PasswordHash(p, None, digest) == PasswordHash(p, Some(""), digest)
  {
    var hash := PasswordHash(p, s, digest);
    if |digest(p.GetOr("") + s.GetOr(""))| > 0 {
      HexOfSpec(digest(p.GetOr("") + s.GetOr("")));
      assert IsLowerHexDigit(hash[0]);
      EqualsIgnoreCaseReflexiveSymmetric(hash, hash);
    }
  }
}
