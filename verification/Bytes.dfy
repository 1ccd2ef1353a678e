/** Bytes in memory order: the fixed-width integers that libvoyeur sends with their in-memory representation.

  Both ends of a connection run on one host, so one byte order is enough; the model uses the little-endian one,
  with the LP64 sizes (4 bytes for int, pid_t and the enums, 8 bytes for size_t). */
module Bytes {

  type byte = x: int | 0 <= x < 0x100
  type bytes = seq<byte>
  type int32 = x: int | -0x8000_0000 <= x < 0x8000_0000
  type uint32 = x: int | 0 <= x < 0x1_0000_0000
  type size64 = x: int | 0 <= x < 0x1_0000_0000_0000_0000

  /** A C string: bytes without the terminating NUL. */
  type cstr = s: bytes | 0 !in s witness []

  /** A NULL-terminated array of C strings whose length fits the `int` counter of the source. */
  type cstrs = l: seq<cstr> | |l| < 0x8000_0000 witness []

  function Pow256(width: nat): (p: nat)
    ensures p >= 1
  {
    if width == 0 then 1 else 256 * Pow256(width - 1)
  }

  /** The low `width` bytes of `n`, least significant first. */
  function ToBytes(n: nat, width: nat): (b: bytes)
    ensures |b| == width
  {
    if width == 0 then [] else [n % 256] + ToBytes(n / 256, width - 1)
  }

  function FromBytes(b: bytes): (n: nat)
    ensures n < Pow256(|b|)
  {
    if b == [] then 0 else b[0] + 256 * FromBytes(b[1..])
  }

  lemma {:induction false} FromToBytes(n: nat, width: nat)
    requires n < Pow256(width)
    ensures FromBytes(ToBytes(n, width)) == n
  {
    if width > 0 {
      FromToBytes(n / 256, width - 1);
      assert ToBytes(n, width)[1..] == ToBytes(n / 256, width - 1);
    }
  }

  lemma LowByte(low: byte, high: nat)
    ensures (low + 256 * high) % 256 == low && (low + 256 * high) / 256 == high
  {
  }

  lemma {:induction false} ToFromBytes(b: bytes)
    ensures ToBytes(FromBytes(b), |b|) == b
  {
    if b != [] {
      var low, high := b[0], FromBytes(b[1..]);
      LowByte(low, high);
      ToFromBytes(b[1..]);
      calc {
        ToBytes(FromBytes(b), |b|);
        [low] + ToBytes(high, |b| - 1);
        [low] + b[1..];
        b;
      }
    }
  }

  lemma Widths()
    ensures Pow256(4) == 0x1_0000_0000 && Pow256(8) == 0x1_0000_0000_0000_0000
  {
    assert Pow256(1) == 256 && Pow256(2) == 0x1_0000;
    assert Pow256(3) == 0x100_0000 && Pow256(4) == 0x1_0000_0000;
    assert Pow256(5) == 0x100_0000_0000 && Pow256(6) == 0x1_0000_0000_0000;
    assert Pow256(7) == 0x100_0000_0000_0000;
  }

  /** Two's complement reading of an unsigned 32-bit pattern: C's `(int) x`. */
  function ToSigned(u: uint32): (v: int32)
    ensures ToUnsigned(v) == u
  {
    if u < 0x8000_0000 then u else u - 0x1_0000_0000
  }

  /** C's `(unsigned) v`. */
  function ToUnsigned(v: int32): uint32 {
    if v < 0 then v + 0x1_0000_0000 else v
  }

  function IntBytes(v: int32): (b: bytes)
    ensures |b| == 4
  {
    ToBytes(ToUnsigned(v), 4)
  }

  function BytesInt(b: bytes): int32
    requires |b| == 4
  {
    Widths();
    ToSigned(FromBytes(b))
  }

  function SizeBytes(n: size64): (b: bytes)
    ensures |b| == 8
  {
    ToBytes(n, 8)
  }

  function BytesSize(b: bytes): size64
    requires |b| == 8
  {
    Widths();
    FromBytes(b)
  }

  /** Two's complement, four bytes, the least significant one first. */
  lemma IntLayout(v: int32)
    ensures var u := v % 0x1_0000_0000;
            IntBytes(v) == [u % 256, u / 256 % 256, u / 256 / 256 % 256, u / 256 / 256 / 256 % 256]
  {
    var u := v % 0x1_0000_0000;
    assert u == ToUnsigned(v);
    calc {
      ToBytes(u, 4);
      [u % 256] + ToBytes(u / 256, 3);
      [u % 256] + ([u / 256 % 256] + ToBytes(u / 256 / 256, 2));
      [u % 256] + ([u / 256 % 256] + ([u / 256 / 256 % 256] + ToBytes(u / 256 / 256 / 256, 1)));
    }
  }

  /** Every 32-bit value, negative ones included, survives the trip through memory. */
  lemma IntRoundTrip(v: int32)
    ensures BytesInt(IntBytes(v)) == v
  {
    Widths();
    FromToBytes(ToUnsigned(v), 4);
  }

  lemma SizeRoundTrip(n: size64)
    ensures BytesSize(SizeBytes(n)) == n
  {
    Widths();
    FromToBytes(n, 8);
  }

  function Min(a: nat, b: nat): nat {
    if a < b then a else b
  }

  /** At most the first `limit` bytes of `s`. */
  function Clip<T>(s: seq<T>, limit: nat): (c: seq<T>)
    ensures c <= s
    ensures |c| <= limit
  {
    if |s| <= limit then s else s[..limit]
  }

  /** Clipping after every append is clipping once at the end. */
  lemma ClipAppend<T>(a: seq<T>, b: seq<T>, limit: nat)
    ensures Clip(Clip(a, limit) + b, limit) == Clip(a + b, limit)
  {
  }

  lemma ClipAppendTwo<T>(a: seq<T>, b: seq<T>, c: seq<T>, limit: nat)
    ensures Clip(Clip(Clip(a, limit) + b, limit) + c, limit) == Clip(a + (b + c), limit)
  {
    ClipAppend(a, b, limit);
    ClipAppend(a + b, c, limit);
    Assoc(a, b, c);
  }

  /** Re-association of concatenations, stated once so that the codec proofs need no sequence reasoning. */
  lemma Assoc<T>(a: seq<T>, b: seq<T>, c: seq<T>)
    ensures (a + b) + c == a + (b + c)
  {
  }
}
