/** The password digest that `encrypt` stores: SHA-256 (FIPS 180-4) of the
    salted password, written as 64 lower-case base-16 digits, two per digest
    byte (the base-16 alphabet of section 8 of RFC 4648, in lower case).
    SHA-256 itself and the platform charset are not modelled: they are the
    two functions of a `Crypto` value. */
module Digests {
  import opened Wrappers
  import opened JavaLang

  const DigestLength := 32

  /** The 32 bytes MessageDigest returns for SHA-256. */
  type Digest = d: seq<int8> | |d| == 32 witness seq(32, _ => 0 as int8)

  /** The platform: String.getBytes() with the default charset, and SHA-256. */
  datatype Crypto = Crypto(getBytes: string -> seq<int8>, sha256: seq<int8> -> Digest)

  /** `b & 0xff`: the byte read as an unsigned value, the same low eight bits. */
  function Unsigned(b: int8): (u: nat)
    ensures u < 0x100
    ensures (u - b as int) % 0x100 == 0
  {
    if b < 0 then b as int + 0x100 else b as int
  }

  /** The byte whose low eight bits are `u` (a cast to `byte`). */
  function Signed(u: nat): (b: int8)
    requires u < 0x100
    ensures Unsigned(b) == u
  {
    if u < 0x80 then u as int8 else (u - 0x100) as int8
  }

  predicate IsHexDigit(c: char)
  {
    '0' <= c <= '9' || 'a' <= c <= 'f'
  }

  /** Integer.toString(n, 16) of a three-digit number is its three digits. */
  lemma ThreeHexDigits(n: nat)
    requires 0x100 <= n < 0x1000
    ensures NatText(n, 16) == [DigitChar(n / 0x100), DigitChar(n / 16 % 16), DigitChar(n % 16)]
  {
    assert n / 16 / 16 == n / 0x100;
    assert NatText(n / 16, 16) == NatText(n / 0x100, 16) + [DigitChar(n / 16 % 16)];
  }

  /** `Integer.toString((b & 0xff) + 0x100, 16).substring(1)`: adding 0x100
      forces a third digit, so dropping the first one leaves exactly two,
      the leading zero of a byte below 16 included. */
  function HexPair(b: int8): (r: string)
    ensures r == [DigitChar(Unsigned(b) / 16), DigitChar(Unsigned(b) % 16)]
    ensures IsHexDigit(r[0]) && IsHexDigit(r[1])
  {
    ThreeHexDigits(Unsigned(b) + 0x100);
    NatText(Unsigned(b) + 0x100, 16)[1..]
  }

  /** The base-16 text of a byte sequence, two digits per byte. */
  function HexText(d: seq<int8>): (r: string)
    ensures |r| == 2 * |d|
    ensures forall i :: 0 <= i < |r| ==> IsHexDigit(r[i])
  {
    if |d| == 0 then "" else HexPair(d[0]) + HexText(d[1..])
  }

  /** Reads base-16 text back into bytes; None for text that no byte
      sequence encodes to (odd length, or a character outside [0-9a-f]). */
  function HexDecode(t: string): Option<seq<int8>>
  {
    if |t| == 0 then Some([])
    else if |t| < 2 || !IsHexDigit(t[0]) || !IsHexDigit(t[1]) then None
    else match HexDecode(t[2..])
      case None => None
      case Some(rest) => Some([Signed(DigitValue(t[0]) * 16 + DigitValue(t[1]))] + rest)
  }

  lemma HexPairDecodes(b: int8)
    ensures DigitValue(HexPair(b)[0]) * 16 + DigitValue(HexPair(b)[1]) == Unsigned(b)
    ensures Signed(Unsigned(b)) == b
  {
    var u := Unsigned(b);
    DigitValueOfDigitChar(u / 16);
    DigitValueOfDigitChar(u % 16);
  }

  /** Decoding undoes the fixed-width encoding. */
  lemma {:induction false} HexRoundTrip(d: seq<int8>)
    ensures HexDecode(HexText(d)) == Some(d)
  {
    if |d| > 0 {
      var t := HexText(d);
      HexPairDecodes(d[0]);
      HexRoundTrip(d[1..]);
      assert t[2..] == HexText(d[1..]);
      assert [d[0]] + d[1..] == d;
    }
  }

  /** Equal texts come from equal bytes: two digests that differ in any
      byte are never rendered as the same hash text. */
  lemma HexTextInjective(d1: seq<int8>, d2: seq<int8>)
    requires HexText(d1) == HexText(d2)
    ensures d1 == d2
  {
    HexRoundTrip(d1);
    HexRoundTrip(d2);
  }

  /** Appending a byte appends its two digits: the step of the
      StringBuilder loop in `encrypt`. */
  lemma {:induction false} HexTextSnoc(d: seq<int8>, b: int8)
    ensures HexText(d + [b]) == HexText(d) + HexPair(b)
  {
    if |d| > 0 {
      assert (d + [b])[1..] == d[1..] + [b];
      HexTextSnoc(d[1..], b);
    } else {
      assert d + [b] == [b];
    }
  }

  /** What `encrypt(password, salt)` returns: the SHA-256 digest of the bytes
      of `password + salt`, 64 characters of [0-9a-f], from which the digest
      can be read back. */
  function Encrypted(c: Crypto, password: string, salt: string): (r: string)
    ensures |r| == 2 * DigestLength
    ensures forall i :: 0 <= i < |r| ==> IsHexDigit(r[i])
    ensures HexDecode(r) == Some(c.sha256(c.getBytes(password + salt)))
  {
    HexRoundTrip(c.sha256(c.getBytes(password + salt)));
    HexText(c.sha256(c.getBytes(password + salt)))
  }

  /** Comparing hash texts compares digests: two salted passwords give the
      same text exactly when their SHA-256 digests are equal (so equal
      inputs always match). */
  lemma EncryptedMatch(c: Crypto, password1: string, salt1: string, password2: string, salt2: string)
    ensures Encrypted(c, password1, salt1) == Encrypted(c, password2, salt2)
      <==> c.sha256(c.getBytes(password1 + salt1)) == c.sha256(c.getBytes(password2 + salt2))
  {
    if Encrypted(c, password1, salt1) == Encrypted(c, password2, salt2) {
      HexTextInjective(c.sha256(c.getBytes(password1 + salt1)), c.sha256(c.getBytes(password2 + salt2)));
    }
  }
}
