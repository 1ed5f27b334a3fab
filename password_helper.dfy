/** Password hashing: the SHA-256 digest of the password's UTF-8 bytes, written as lower-case
    hexadecimal, and a case-insensitive comparison against a stored hash. SHA-256 and UTF-8
    encoding together are the parameter `digest`, an arbitrary function to 32 bytes. */
module PasswordHelper {
  import opened Common
  import opened Text

  newtype byte = x: int | 0 <= x < 256

  /** A SHA-256 digest: 32 bytes. */
  type Digest = d: seq<byte> | |d| == 32 witness seq(32, _ => 0 as byte)

  /** A lower-case hexadecimal digit, as `ToString("x2")` writes it. */
  predicate IsHexDigit(c: char) {
    ('0' <= c <= '9') || ('a' <= c <= 'f')
  }

  function HexDigit(n: int): (c: char)
    requires 0 <= n < 16
    ensures IsHexDigit(c)
  {
    if n < 10 then ('0' as int + n) as char else ('a' as int + n - 10) as char
  }

  /** The value of a lower-case hexadecimal digit. */
  function HexValue(c: char): (n: int)
    requires IsHexDigit(c)
    ensures 0 <= n < 16 && HexDigit(n) == c
  {
    if c <= '9' then c as int - '0' as int else c as int - 'a' as int + 10
  }

  /** `b.ToString("x2")`: the high then the low nibble. */
  function ByteHex(b: byte): (s: string)
    ensures |s| == 2 && IsHexDigit(s[0]) && IsHexDigit(s[1])
  {
    [HexDigit(b as int / 16), HexDigit(b as int % 16)]
  }

  /** Every character is a lower-case hex digit. */
  predicate AllHex(s: string) {
    forall i :: 0 <= i < |s| ==> IsHexDigit(s[i])
  }

  /** The bytes appended one after the other as two hex digits each. */
  function Hex(bytes: seq<byte>): (s: string)
    ensures |s| == 2 * |bytes|
    ensures AllHex(s)
  {
    if bytes == [] then [] else Hex(bytes[..|bytes| - 1]) + ByteHex(bytes[|bytes| - 1])
  }

  /** Reads pairs of hex digits back into bytes, from the end (a leading odd digit is dropped). */
  function Unhex(s: string): (bytes: seq<byte>)
    requires AllHex(s)
  {
    if |s| < 2 then []
    else
      var n := |s|;
      Unhex(s[..n - 2]) + [(HexValue(s[n - 2]) * 16 + HexValue(s[n - 1])) as byte]
  }

  /** Reading a digit back gives its value. */
  lemma HexValueOfDigit(n: int)
    requires 0 <= n < 16
    ensures HexValue(HexDigit(n)) == n
  {
  }

  /** Reading the two digits of a byte back gives the byte. */
  lemma ByteHexValue(b: byte)
    ensures var s := ByteHex(b); (HexValue(s[0]) * 16 + HexValue(s[1])) as byte == b
  {
    HexValueOfDigit(b as int / 16);
    HexValueOfDigit(b as int % 16);
  }

  lemma AllHexConcat(s: string, d: string)
    requires AllHex(s) && AllHex(d)
    ensures AllHex(s + d)
  {
    var t := s + d;
    forall i | 0 <= i < |t| ensures IsHexDigit(t[i]) {
      if i < |s| { assert t[i] == s[i]; } else { assert t[i] == d[i - |s|]; }
    }
  }

  /** Decoding one more pair of digits appends the byte they spell. */
  lemma UnhexSnocPair(s: string, d: string)
    requires AllHex(s) && |d| == 2 && AllHex(d) && AllHex(s + d)
    ensures Unhex(s + d) == Unhex(s) + [(HexValue(d[0]) * 16 + HexValue(d[1])) as byte]
  {
    var t := s + d;
    assert t[..|t| - 2] == s;
  }

  /** Decoding the digits of one more byte appends that byte. */
  lemma UnhexSnoc(s: string, b: byte)
    requires AllHex(s)
    ensures AllHex(s + ByteHex(b)) && Unhex(s + ByteHex(b)) == Unhex(s) + [b]
  {
    AllHexConcat(s, ByteHex(b));
    UnhexSnocPair(s, ByteHex(b));
    ByteHexValue(b);
  }

  /** Decoding the encoding gives the bytes back. */
  lemma {:induction false} UnhexHex(bytes: seq<byte>)
    ensures Unhex(Hex(bytes)) == bytes
  {
    if bytes != [] {
      var n := |bytes|;
      var init := bytes[..n - 1];
      assert Hex(bytes) == Hex(init) + ByteHex(bytes[n - 1]);
      UnhexSnoc(Hex(init), bytes[n - 1]);
      UnhexHex(init);
      assert bytes == init + [bytes[n - 1]];
    }
  }

  /** The encoding is injective: distinct digests are written differently. */
  lemma HexInjective(a: seq<byte>, b: seq<byte>)
    requires Hex(a) == Hex(b)
    ensures a == b
  {
    UnhexHex(a);
    UnhexHex(b);
  }

  /** What `HashPassword` returns: "" for a null or blank password, otherwise the hex digest,
      64 lower-case hex digits. */
  function PasswordHash(password: Option<string>, digest: string -> Digest): (r: string)
    ensures IsNullOrWhiteSpace(password) ==> r == ""
    ensures !IsNullOrWhiteSpace(password) ==> |r| == 64 && forall i :: 0 <= i < 64 ==> IsHexDigit(r[i])
  {
    if IsNullOrWhiteSpace(password) then "" else Hex(digest(password.value))
  }

  /** `HashPassword`: appends `b.ToString("x2")` for every byte of the digest. */
  method HashPassword(password: Option<string>, digest: string -> Digest) returns (hash: string)
    ensures hash == PasswordHash(password, digest)
  {
    if IsNullOrWhiteSpace(password) {
      return "";
    }
    var bytes := digest(password.value);
    var builder := "";
    for i := 0 to |bytes|
      invariant builder == Hex(bytes[..i])
    {
      assert bytes[..i + 1][..i] == bytes[..i];
      builder := builder + ByteHex(bytes[i]);
    }
    assert bytes[..|bytes|] == bytes;
    hash := builder;
  }

  /** Passwords with different digests have different hashes. */
  lemma HashDistinguishesDigests(p: string, q: string, digest: string -> Digest)
    requires !IsNullOrWhiteSpace(Some(p)) && !IsNullOrWhiteSpace(Some(q))
    requires digest(p) != digest(q)
    ensures PasswordHash(Some(p), digest) != PasswordHash(Some(q), digest)
  {
    if PasswordHash(Some(p), digest) == PasswordHash(Some(q), digest) {
      HexInjective(digest(p), digest(q));
    }
  }

  /** `VerifyPassword`: the password's hash equals the stored one, ignoring case; a null stored
      hash never matches. */
  predicate Verifies(password: Option<string>, hash: Option<string>, digest: string -> Digest) {
    hash.Some? && EqualsIgnoreCase(PasswordHash(password, digest), hash.value)
  }

  method VerifyPassword(password: Option<string>, hash: Option<string>, digest: string -> Digest)
    returns (ok: bool)
    ensures ok == Verifies(password, hash, digest)
  {
    var passwordHash := HashPassword(password, digest);
    ok := hash.Some? && EqualsIgnoreCase(passwordHash, hash.value);
  }

  /** A password verifies against its own hash. */
  lemma VerifyOwnHash(password: Option<string>, digest: string -> Digest)
    ensures Verifies(password, Some(PasswordHash(password, digest)), digest)
  {
  }

  /** An upper-cased stored hash still verifies. */
  lemma VerifyUpperCased(password: Option<string>, digest: string -> Digest)
    ensures Verifies(password, Some(ToUpper(PasswordHash(password, digest))), digest)
  {
    EqualsIgnoreCaseOfUpper(PasswordHash(password, digest));
  }

  /** A blank password verifies against an empty stored hash, and against nothing else. */
  lemma BlankVerifiesEmpty(password: Option<string>, hash: string, digest: string -> Digest)
    requires IsNullOrWhiteSpace(password)
    ensures Verifies(password, Some(hash), digest) <==> hash == ""
  {
  }

  /** Ignoring case against a lower-case hex digit means being that digit in either case. */
  lemma HexCharIgnoringCase(d: char, c: char)
    requires IsHexDigit(d)
    ensures ToUpperChar(d) == ToUpperChar(c) <==> ToLowerChar(c) == d
  {
  }

  /** A stored hash verifies exactly when lower-casing it gives the password's hash. */
  lemma VerifiesIffLowered(password: Option<string>, hash: string, digest: string -> Digest)
    ensures Verifies(password, Some(hash), digest) <==> ToLower(hash) == PasswordHash(password, digest)
  {
    var h := PasswordHash(password, digest);
    if Verifies(password, Some(hash), digest) {
      forall i | 0 <= i < |h| ensures ToLower(hash)[i] == h[i] {
        HexCharIgnoringCase(h[i], hash[i]);
      }
    }
    if ToLower(hash) == h {
      forall i | 0 <= i < |h| ensures ToUpperChar(h[i]) == ToUpperChar(hash[i]) {
        assert ToLowerChar(hash[i]) == h[i];
        HexCharIgnoringCase(h[i], hash[i]);
      }
    }
  }
}
