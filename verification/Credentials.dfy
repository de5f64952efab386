/** Hexadecimal text (Base 16, section 8 of RFC 4648, in lower case) and salted password hashes. */
module Credentials {
  import opened Basics

  const SALT_BYTES := 16
  const SALT_HEX_LEN := 32
  const PASSWORD_HASH_BYTES := 32
  const PASSWORD_HASH_HEX_LEN := 64

  type Salt = b: Bytes | |b| == SALT_BYTES witness seq(SALT_BYTES, _ => NUL)
  type Digest = b: Bytes | |b| == PASSWORD_HASH_BYTES witness seq(PASSWORD_HASH_BYTES, _ => NUL)

  /** The digest of salt bytes and password; SHA-256 itself is not modelled. */
  type Hasher = (Bytes, Bytes) -> Digest

  function HexDigit(n: nat): byte
    requires n < 16
  {
    if n < 10 then (48 + n) as byte else (87 + n) as byte
  }

  /** `hex_value`; `None` is -1. */
  function HexValue(c: byte): Option<nat> {
    if 48 <= c <= 57 then Some(c as int - 48)
    else if 97 <= c <= 102 then Some(c as int - 97 + 10)
    else if 65 <= c <= 70 then Some(c as int - 65 + 10)
    else None
  }

  function ToHex(b: Bytes): (h: Bytes)
    ensures |h| == 2 * |b|
  {
    if b == [] then [] else [HexDigit(b[0] as int / 16), HexDigit(b[0] as int % 16)] + ToHex(b[1..])
  }

  predicate IsHex(h: Bytes) {
    forall i :: 0 <= i < |h| ==> HexValue(h[i]).Some?
  }

  function PairValue(hi: byte, lo: byte): byte
    requires HexValue(hi).Some? && HexValue(lo).Some?
  {
    (16 * HexValue(hi).value + HexValue(lo).value) as byte
  }

  /** The bytes that pairs of hex digits stand for. */
  function FromHex(h: Bytes): (b: Bytes)
    requires |h| % 2 == 0 && IsHex(h)
    ensures |b| == |h| / 2
  {
    if h == [] then [] else [PairValue(h[0], h[1])] + FromHex(h[2..])
  }

  lemma {:induction false} HexRoundTrip(b: Bytes)
    ensures IsHex(ToHex(b)) && FromHex(ToHex(b)) == b
  {
    if b != [] {
      HexRoundTrip(b[1..]);
      assert ToHex(b)[2..] == ToHex(b[1..]);
      forall i | 0 <= i < |ToHex(b)| ensures HexValue(ToHex(b)[i]).Some? {
        if i >= 2 { assert ToHex(b)[i] == ToHex(b[1..])[i - 2]; }
      }
    }
  }

  /** The digits of each byte, the high half first, as they stand in "0123456789abcdef". */
  lemma {:induction false} ToHexDigits(b: Bytes, i: nat)
    requires i < |b|
    ensures var digits: Bytes := [48, 49, 50, 51, 52, 53, 54, 55, 56, 57, 97, 98, 99, 100, 101, 102];
            ToHex(b)[2 * i] == digits[b[i] as int / 16] && ToHex(b)[2 * i + 1] == digits[b[i] as int % 16]
  {
    if i > 0 {
      ToHexDigits(b[1..], i - 1);
      assert ToHex(b)[2..] == ToHex(b[1..]);
    }
  }

  lemma {:induction false} ToHexPrintable(b: Bytes)
    ensures NUL !in ToHex(b) && COLON !in ToHex(b) && NEWLINE !in ToHex(b)
  {
    if b != [] { ToHexPrintable(b[1..]); }
  }

  lemma {:induction false} ToHexAppend(a: Bytes, b: Bytes)
    ensures ToHex(a + b) == ToHex(a) + ToHex(b)
  {
    if a == [] {
      assert a + b == b;
    } else {
      ToHexAppend(a[1..], b);
      assert (a + b)[1..] == a[1..] + b;
    }
  }

  lemma {:induction false} FromHexAt(h: Bytes, i: nat)
    requires |h| % 2 == 0 && IsHex(h) && 2 * i < |h|
    ensures FromHex(h)[i] == PairValue(h[2 * i], h[2 * i + 1])
  {
    if i > 0 {
      FromHexAt(h[2..], i - 1);
    }
  }

  /** `bytes_to_hex`: two digits for each byte and a NUL. */
  method BytesToHex(bytes: Bytes, out: array<byte>)
    requires out.Length == 2 * |bytes| + 1
    modifies out
    ensures out[..2 * |bytes|] == ToHex(bytes) && out[2 * |bytes|] == NUL
  {
    var i := 0;
    while i < |bytes|
      invariant i <= |bytes| && out[..2 * i] == ToHex(bytes[..i])
    {
      ghost var before := out[..2 * i];
      out[i * 2] := HexDigit(bytes[i] as int / 16);
      out[i * 2 + 1] := HexDigit(bytes[i] as int % 16);
      ToHexAppend(bytes[..i], [bytes[i]]);
      assert bytes[..i + 1] == bytes[..i] + [bytes[i]];
      assert out[..2 * (i + 1)] == before + [out[2 * i], out[2 * i + 1]];
      assert [bytes[i]][1..] == [];
      i := i + 1;
    }
    assert bytes[..i] == bytes;
    ghost var digits := out[..2 * i];
    out[i * 2] := NUL;
    assert out[..2 * i] == digits;
  }

  /** `hex_to_bytes`: fails on a wrong length or a character that is not a hex digit. */
  method HexToBytes(hex: Bytes, out: array<byte>) returns (ok: bool)
    modifies out
    ensures ok <==> |hex| == 2 * out.Length && IsHex(hex)
    ensures ok ==> out[..] == FromHex(hex)
  {
    if |hex| != out.Length * 2 {
      return false;
    }
    var i := 0;
    while i < out.Length
      invariant i <= out.Length
      invariant forall k :: 0 <= k < 2 * i ==> HexValue(hex[k]).Some?
      invariant forall k :: 0 <= k < i ==> out[k] == PairValue(hex[2 * k], hex[2 * k + 1])
    {
      var hi := HexValue(hex[i * 2]);
      var lo := HexValue(hex[i * 2 + 1]);
      if hi.None? || lo.None? {
        return false;
      }
      out[i] := (16 * hi.value + lo.value) as byte;
      i := i + 1;
    }
    forall k | 0 <= k < out.Length ensures out[k] == FromHex(hex)[k] {
      FromHexAt(hex, k);
    }
    return true;
  }

  /** `hash_password`: the salt must be 32 hex digits; the result is 64 of them. */
  function HashPassword(digest: Hasher, password: Bytes, saltHex: Bytes): (r: Option<Bytes>)
    ensures r.Some? ==> |r.value| == PASSWORD_HASH_HEX_LEN
  {
    if |saltHex| == SALT_HEX_LEN && IsHex(saltHex) then Some(ToHex(digest(FromHex(saltHex), password))) else None
  }

  /** `verify_password` */
  predicate VerifyPassword(digest: Hasher, password: Bytes, saltHex: Bytes, expected: Bytes) {
    |expected| == PASSWORD_HASH_HEX_LEN && HashPassword(digest, password, saltHex) == Some(expected)
  }

  /** A hash made with a fresh salt verifies exactly the passwords with the same salted digest. */
  lemma FreshHashVerifies(digest: Hasher, salt: Salt, password: Bytes, attempt: Bytes)
    ensures HashPassword(digest, password, ToHex(salt)).Some?
    ensures VerifyPassword(digest, attempt, ToHex(salt), HashPassword(digest, password, ToHex(salt)).value)
            <==> digest(salt, attempt) == digest(salt, password)
  {
    HexRoundTrip(salt);
    HexRoundTrip(digest(salt, attempt));
    HexRoundTrip(digest(salt, password));
  }
}
