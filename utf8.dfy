/** Bytes, UTF-8 encoding (`str.encode("utf-8")`), ASCII decoding and the
    byte-slice truncation used before bcrypt. */
module Utf8 {

  type byte = x: int | 0 <= x < 256

  /** The bytes bcrypt produces: its output alphabet is 7-bit ASCII. */
  type AsciiByte = x: int | 0 <= x < 128

  /** The UTF-8 encoding of one Unicode scalar value (1 to 4 bytes). */
  function EncodeChar(c: char): (r: seq<byte>)
    ensures 1 <= |r| <= 4
    ensures (c as int < 128) == (|r| == 1)
  {
    var n := c as int;
    if n < 0x80 then [n]
    else if n < 0x800 then [0xC0 + n / 64, 0x80 + n % 64]
    else if n < 0x1_0000 then [0xE0 + n / 4096, 0x80 + (n / 64) % 64, 0x80 + n % 64]
    else [0xF0 + n / 0x4_0000, 0x80 + (n / 4096) % 64, 0x80 + (n / 64) % 64, 0x80 + n % 64]
  }

  /** `s.encode("utf-8")`: never shorter than the string. */
  function Encode(s: string): (r: seq<byte>)
    ensures |r| >= |s|
  {
    if s == [] then [] else EncodeChar(s[0]) + Encode(s[1..])
  }

  /** Encoding distributes over concatenation. */
  lemma {:induction false} EncodeAppend(a: string, b: string)
    ensures Encode(a + b) == Encode(a) + Encode(b)
    decreases |a|
  {
    if a != [] {
      assert (a + b)[1..] == a[1..] + b;
      EncodeAppend(a[1..], b);
    } else {
      assert a + b == b;
    }
  }

  /** The encoding of the first `k` characters is a prefix of the encoding
      of the whole string, at least `k` bytes long. */
  lemma EncodePrefix(s: string, k: nat)
    requires k <= |s|
    ensures |Encode(s[..k])| >= k
    ensures Encode(s[..k]) <= Encode(s)
  {
    assert s == s[..k] + s[k..];
    EncodeAppend(s[..k], s[k..]);
  }

  /** `b[:n]`: the first `n` bytes, or all of them when there are fewer. */
  function Truncate(b: seq<byte>, n: nat): (r: seq<byte>)
    ensures |r| <= n && r <= b
    ensures |b| <= n ==> r == b
  {
    if |b| <= n then b else b[..n]
  }

  /** Two strings that agree on their first `n` characters agree on the
      first `n` bytes of their encodings. */
  lemma SameLeadingCharsSameLeadingBytes(a: string, b: string, n: nat)
    requires n <= |a| && n <= |b| && a[..n] == b[..n]
    ensures Truncate(Encode(a), n) == Truncate(Encode(b), n)
  {
    EncodePrefix(a, n);
    EncodePrefix(b, n);
    var e := Encode(a[..n]);
    assert Encode(a)[..n] == e[..n];
    assert Encode(b)[..n] == e[..n];
  }

  /** `b.decode("utf-8")` for ASCII bytes: one character per byte. */
  function DecodeAscii(b: seq<AsciiByte>): (s: string)
    ensures |s| == |b|
  {
    if b == [] then [] else [b[0] as char] + DecodeAscii(b[1..])
  }

  /** Encoding the decoding of ASCII bytes gives the bytes back. */
  lemma {:induction false} EncodeDecodeAscii(b: seq<AsciiByte>)
    ensures Encode(DecodeAscii(b)) == b
    decreases |b|
  {
    if b != [] {
      var s := DecodeAscii(b);
      assert s[1..] == DecodeAscii(b[1..]);
      EncodeDecodeAscii(b[1..]);
    }
  }
}
