/**
 MoQT variable-length integers (section 8.1 of draft-ietf-moq-transport-22): the leading ones of the
 first byte give the length, and the value follows the first zero bit in network byte order.
 */
module Varint {
  import opened Uint64

  /** A read from a stream: a value and the bytes after it, a clean end, or a break in a value. */
  datatype Read<+T> = Ok(value: T, rest: seq<byte>) | Eof | Truncated | Invalid

  function Pow256(k: nat): (p: nat)
    ensures p > 0
  {
    if k == 0 then 1 else 256 * Pow256(k - 1)
  }

  lemma {:induction false} Pow256Values()
    ensures Pow256(0) == 1 && Pow256(1) == 0x100 && Pow256(2) == 0x1_0000 && Pow256(3) == 0x100_0000
    ensures Pow256(4) == 0x1_0000_0000 && Pow256(5) == 0x100_0000_0000 && Pow256(6) == 0x1_0000_0000_0000
    ensures Pow256(7) == 0x100_0000_0000_0000 && Pow256(8) == 0x1_0000_0000_0000_0000
  {
    assert Pow256(2) == 256 * Pow256(1);
    assert Pow256(4) == 256 * Pow256(3);
    assert Pow256(6) == 256 * Pow256(5);
    assert Pow256(8) == 256 * Pow256(7);
  }

  /** x in k bytes, the most significant first. */
  function BigEndian(x: nat, k: nat): (b: seq<byte>)
    ensures |b| == k
  {
    if k == 0 then [] else BigEndian(x / 256, k - 1) + [x % 256]
  }

  /** The value of b after acc, shifting in one byte at a time. */
  function ShiftIn(acc: nat, b: seq<byte>): nat {
    if b == [] then acc else 256 * ShiftIn(acc, b[..|b| - 1]) + b[|b| - 1]
  }

  lemma {:induction false} ShiftInBigEndian(acc: nat, x: nat, k: nat)
    requires x < Pow256(k)
    ensures ShiftIn(acc, BigEndian(x, k)) == acc * Pow256(k) + x
  {
    if k > 0 {
      var b := BigEndian(x, k);
      assert b[..k - 1] == BigEndian(x / 256, k - 1);
      ShiftInBigEndian(acc, x / 256, k - 1);
      assert acc * Pow256(k) == 256 * (acc * Pow256(k - 1));
    }
  }

  lemma {:induction false} ShiftInBound(acc: nat, b: seq<byte>)
    ensures ShiftIn(acc, b) < (acc + 1) * Pow256(|b|)
  {
    if b != [] {
      var k := |b| - 1;
      ShiftInBound(acc, b[..k]);
      assert (acc + 1) * Pow256(|b|) == 256 * ((acc + 1) * Pow256(k));
    }
  }

  function VarintLen(v: u64): (n: nat)
    ensures 1 <= n <= 9
  {
    if v < 0x80 then 1
    else if v < 0x4000 then 2
    else if v < 0x20_0000 then 3
    else if v < 0x1000_0000 then 4
    else if v < 0x8_0000_0000 then 5
    else if v < 0x400_0000_0000 then 6
    else if v < 0x2_0000_0000_0000 then 7
    else if v < 0x100_0000_0000_0000 then 8
    else 9
  }

  /** The leading ones of an n-byte encoding, n at most 8: n - 1 of them, then a zero. */
  function Prefix(n: nat): byte
    requires 1 <= n <= 8
  {
    256 - 2 * ValueBits(n)
  }

  /** How many values the rest of that first byte can hold. */
  function ValueBits(n: nat): (m: nat)
    requires 1 <= n <= 8
    ensures 1 <= m <= 128
  {
    if n == 1 then 128 else if n == 2 then 64 else if n == 3 then 32 else if n == 4 then 16
    else if n == 5 then 8 else if n == 6 then 4 else if n == 7 then 2 else 1
  }

  function LenFromFirst(first: byte): (n: nat)
    ensures 1 <= n <= 9
  {
    if first < 128 then 1 else if first < 192 then 2 else if first < 224 then 3 else if first < 240 then 4
    else if first < 248 then 5 else if first < 252 then 6 else if first < 254 then 7
    else if first < 255 then 8 else 9
  }

  lemma {:induction false} HighBits(v: u64, n: nat)
    requires n == VarintLen(v) <= 8
    ensures v / Pow256(n - 1) < ValueBits(n)
    ensures v % Pow256(n - 1) < Pow256(n - 1)
  {
    Pow256Values();
  }

  function AppendVarint(v: u64): (b: seq<byte>)
    ensures |b| == VarintLen(v)
  {
    var n := VarintLen(v);
    if n == 9 then [0xFF] + BigEndian(v, 8)
    else
      HighBits(v, n);
      [Prefix(n) + v / Pow256(n - 1)] + BigEndian(v % Pow256(n - 1), n - 1)
  }

  function ReadVarint(b: seq<byte>): (r: Read<u64>)
    ensures r.Eof? <==> b == []
    ensures !r.Invalid?
    ensures r.Ok? ==> |r.rest| < |b|
  {
    if b == [] then Eof
    else
      var n := LenFromFirst(b[0]);
      if |b| < n then Truncated
      else if n == 9 then
        ShiftInBound(0, b[1..9]);
        Pow256Values();
        Ok(ShiftIn(0, b[1..9]), b[9..])
      else
        ShiftInBound(b[0] % ValueBits(n), b[1..n]);
        Pow256Values();
        Ok(ShiftIn(b[0] % ValueBits(n), b[1..n]), b[n..])
  }

  /** The first byte tells the length and holds the high bits. */
  lemma {:induction false} FirstByte(n: nat, hi: nat)
    requires 1 <= n <= 8 && hi < ValueBits(n)
    ensures Prefix(n) + hi < 255
    ensures LenFromFirst(Prefix(n) + hi) == n
    ensures (Prefix(n) + hi) % ValueBits(n) == hi
  {
  }

  lemma {:induction false} ShortRoundTrip(v: u64, rest: seq<byte>, n: nat)
    requires n == VarintLen(v) <= 8
    ensures ReadVarint(AppendVarint(v) + rest) == Ok(v, rest)
  {
    hide VarintLen, ValueBits, Prefix, LenFromFirst, Pow256, BigEndian, ShiftIn;
    var b := AppendVarint(v) + rest;
    HighBits(v, n);
    var hi, lo := v / Pow256(n - 1), v % Pow256(n - 1);
    FirstByte(n, hi);
    assert b[0] == Prefix(n) + hi;
    assert b[1..n] == BigEndian(lo, n - 1);
    assert b[n..] == rest;
    ShiftInBigEndian(hi, lo, n - 1);
    assert v == hi * Pow256(n - 1) + lo;
  }

  lemma {:induction false} LongRoundTrip(v: u64, rest: seq<byte>)
    requires VarintLen(v) == 9
    ensures ReadVarint(AppendVarint(v) + rest) == Ok(v, rest)
  {
    hide VarintLen, BigEndian, ShiftIn;
    var b := AppendVarint(v) + rest;
    assert b[0] == 255;
    assert b[1..9] == BigEndian(v, 8);
    assert b[9..] == rest;
    Pow256Values();
    ShiftInBigEndian(0, v, 8);
  }

  /** Reading what was appended gives it back, whatever follows. */
  lemma {:induction false} VarintRoundTrip(v: u64, rest: seq<byte>)
    ensures ReadVarint(AppendVarint(v) + rest) == Ok(v, rest)
  {
    if VarintLen(v) == 9 {
      LongRoundTrip(v, rest);
    } else {
      ShortRoundTrip(v, rest, VarintLen(v));
    }
  }

  // ---------------------------------------------------------------------------
  // Single bytes and length-prefixed fields
  // ---------------------------------------------------------------------------

  /** The most bytes a length-prefixed field read from a stream may claim. */
  const MAX_FIELD: nat := 0x100_0000

  function ReadByte(b: seq<byte>): (r: Read<byte>)
    ensures r.Eof? <==> b == []
  {
    if b == [] then Eof else Ok(b[0], b[1..])
  }

  function AppendBytes(p: seq<byte>): seq<byte>
    requires |p| <= MAX_U64
  {
    AppendVarint(|p|) + p
  }

  function ReadBytes(b: seq<byte>): (r: Read<seq<byte>>)
    ensures r.Ok? ==> |r.rest| < |b|
  {
    match ReadVarint(b)
    case Ok(n, rest) =>
      if n > MAX_FIELD then Invalid
      else if |rest| < n then (if rest == [] then Eof else Truncated)
      else Ok(rest[..n], rest[n..])
    case Eof => Eof
    case Truncated => Truncated
  }

  lemma {:induction false} BytesRoundTrip(p: seq<byte>, rest: seq<byte>)
    requires |p| <= MAX_FIELD
    ensures ReadBytes(AppendBytes(p) + rest) == Ok(p, rest)
  {
    hide AppendVarint, ReadVarint;
    assert AppendBytes(p) + rest == AppendVarint(|p|) + (p + rest);
    VarintRoundTrip(|p|, p + rest);
    assert (p + rest)[..|p|] == p && (p + rest)[|p|..] == rest;
  }
}
