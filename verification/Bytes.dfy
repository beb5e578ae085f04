/** Bytes, fixed-width integers and the integer encodings of Go's encoding/binary. */
module Bytes {

  newtype byte = x: int | 0 <= x < 256
  type u16 = x: nat | x < 0x1_0000
  type u32 = x: nat | x < 0x1_0000_0000
  type u64 = x: nat | x < 0x1_0000_0000_0000_0000
  type i64 = x: int | -0x8000_0000_0000_0000 <= x < 0x8000_0000_0000_0000

  const ZERO_32: seq<byte> := seq(32, _ => 0)

  type Bytes4 = s: seq<byte> | |s| == 4 witness [0, 0, 0, 0]
  type Bytes32 = s: seq<byte> | |s| == 32 witness ZERO_32

  datatype Option<+T> = None | Some(value: T)

  datatype Result<+T, +E> = Ok(value: T) | Err(error: E)

  function Min(a: nat, b: nat): nat {
    if a <= b then a else b
  }

  // Go's unsigned conversions keep the low bits, which leaves a value in range as it is.
  function ToU16(x: int): u16 {
    if 0 <= x < 0x1_0000 then x else x % 0x1_0000
  }

  function ToU32(x: int): u32 {
    if 0 <= x < 0x1_0000_0000 then x else x % 0x1_0000_0000
  }

  function ToU64(x: int): u64 {
    if 0 <= x < WORD_64 then x else x % WORD_64
  }

  const WORD_64: nat := 0x1_0000_0000_0000_0000

  // x++ on a uint64.
  function Increment64(x: u64): u64 {
    if x == WORD_64 - 1 then 0 else x + 1
  }

  // int64(x) for an unsigned x: two's complement.
  function ToI64(x: u64): i64 {
    if x < 0x8000_0000_0000_0000 then x else x - 0x1_0000_0000_0000_0000
  }

  function Pow256(n: nat): nat {
    if n == 0 then 1 else 256 * Pow256(n - 1)
  }

  function BigEndian(v: nat, width: nat): (r: seq<byte>)
    ensures |r| == width
  {
    if width == 0 then [] else BigEndian(v / 256, width - 1) + [(v % 256) as byte]
  }

  function FromBigEndian(s: seq<byte>): nat {
    if s == [] then 0 else FromBigEndian(s[..|s| - 1]) * 256 + s[|s| - 1] as nat
  }

  function LittleEndian(v: nat, width: nat): (r: seq<byte>)
    ensures |r| == width
  {
    if width == 0 then [] else [(v % 256) as byte] + LittleEndian(v / 256, width - 1)
  }

  /** Go's copy(buf[at:at+len(s)], s). */
  method Put(buf: array<byte>, at: nat, s: seq<byte>)
    requires at + |s| <= buf.Length
    modifies buf
    ensures buf[..at + |s|] == old(buf[..at]) + s
    ensures buf[at + |s|..] == old(buf[at + |s|..])
  {
    for i := 0 to |s|
      invariant forall j | 0 <= j < buf.Length :: buf[j] == if at <= j < at + i then s[j - at] else old(buf[j])
    {
      buf[at + i] := s[i];
    }
  }

  lemma {:induction false} BigEndianRoundTrip(v: nat, width: nat)
    requires v < Pow256(width)
    ensures FromBigEndian(BigEndian(v, width)) == v
  {
    if width > 0 {
      BigEndianRoundTrip(v / 256, width - 1);
      var s := BigEndian(v, width);
      assert s[..|s| - 1] == BigEndian(v / 256, width - 1);
    }
  }

  lemma {:induction false} FromBigEndianRoundTrip(s: seq<byte>)
    ensures FromBigEndian(s) < Pow256(|s|)
    ensures BigEndian(FromBigEndian(s), |s|) == s
  {
    if s != [] {
      var t, b := s[..|s| - 1], s[|s| - 1];
      FromBigEndianRoundTrip(t);
      var high, low := FromBigEndian(t), b as nat;
      SplitByte(high, low);
      assert BigEndian(high * 256 + low, |s|) == BigEndian(high, |t|) + [low as byte];
    }
  }

  lemma SplitByte(high: nat, low: nat)
    requires low < 256
    ensures (high * 256 + low) / 256 == high && (high * 256 + low) % 256 == low
  {
  }

  lemma Pow256Values()
    ensures Pow256(2) == 0x1_0000
    ensures Pow256(4) == 0x1_0000_0000
    ensures Pow256(8) == 0x1_0000_0000_0000_0000
  {
    assert Pow256(1) == 256;
    assert Pow256(3) == 0x100_0000;
    assert Pow256(5) == 0x100_0000_0000;
    assert Pow256(6) == 0x1_0000_0000_0000;
    assert Pow256(7) == 0x100_0000_0000_0000;
  }

  /** Two values below 256^width have the same little-endian bytes only if they are equal. */
  lemma {:induction false} LittleEndianInjective(v: nat, w: nat, width: nat)
    requires v < Pow256(width) && w < Pow256(width)
    requires LittleEndian(v, width) == LittleEndian(w, width)
    ensures v == w
  {
    if width > 0 {
      var a, b := LittleEndian(v, width), LittleEndian(w, width);
      assert a[0] == b[0] && a[1..] == b[1..];
      assert a[1..] == LittleEndian(v / 256, width - 1);
      assert b[1..] == LittleEndian(w / 256, width - 1);
      LittleEndianInjective(v / 256, w / 256, width - 1);
    }
  }

  /** The byte orders, written out: the high byte first, and the low byte first. */
  lemma BigEndianDigits(v: u32)
    ensures var s := BigEndian(v, 4);
            v == 0x100_0000 * s[0] as nat + 0x1_0000 * s[1] as nat + 0x100 * s[2] as nat + s[3] as nat
  {
    assert BigEndian(v, 4) == BigEndian(v / 256, 3) + [(v % 256) as byte];
    assert BigEndian(v / 256, 3) == BigEndian(v / 256 / 256, 2) + [(v / 256 % 256) as byte];
    assert BigEndian(v / 256 / 256, 2) == BigEndian(v / 256 / 256 / 256, 1) + [(v / 256 / 256 % 256) as byte];
    assert BigEndian(v / 256 / 256 / 256, 1) == [(v / 256 / 256 / 256 % 256) as byte];
  }

  lemma FromBigEndianDigits(s: seq<byte>)
    ensures |s| == 2 ==> FromBigEndian(s) == 0x100 * s[0] as nat + s[1] as nat
    ensures |s| == 8 ==>
              FromBigEndian(s) == 0x1_0000_0000 * FromBigEndian(s[..4]) + 0x100_0000 * s[4] as nat
                                  + 0x1_0000 * s[5] as nat + 0x100 * s[6] as nat + s[7] as nat
  {
    if |s| == 2 {
      assert FromBigEndian(s[..1]) == s[0] as nat by { assert s[..1][..0] == []; }
    }
    if |s| == 8 {
      assert s[..7][..6] == s[..6] && s[..6][..5] == s[..5] && s[..5][..4] == s[..4];
      assert FromBigEndian(s[..7]) == FromBigEndian(s[..6]) * 256 + s[6] as nat;
      assert FromBigEndian(s[..6]) == FromBigEndian(s[..5]) * 256 + s[5] as nat;
      assert FromBigEndian(s[..5]) == FromBigEndian(s[..4]) * 256 + s[4] as nat;
    }
  }

  function FromLittleEndian(s: seq<byte>): nat {
    if s == [] then 0 else s[0] as nat + 256 * FromLittleEndian(s[1..])
  }

  lemma {:induction false} LittleEndianRoundTrip(v: nat, width: nat)
    requires v < Pow256(width)
    ensures FromLittleEndian(LittleEndian(v, width)) == v
  {
    if width > 0 {
      LittleEndianRoundTrip(v / 256, width - 1);
      assert LittleEndian(v, width)[1..] == LittleEndian(v / 256, width - 1);
    }
  }

  lemma UnsignedRoundTrip(x: u64)
    ensures ToU64(ToI64(x)) == x
  {
  }

  /** Reinterpreting a signed value as unsigned and back loses nothing. */
  lemma SignedRoundTrip(x: i64)
    ensures ToI64(ToU64(x)) == x
  {
  }

  // ---------- Exclusive or ----------

  /** Bitwise exclusive or, one binary digit at a time. */
  function XorBits(a: nat, b: nat): nat
    decreases a + b
  {
    if a == 0 && b == 0 then 0
    else (if a % 2 != b % 2 then 1 else 0) + 2 * XorBits(a / 2, b / 2)
  }

  function Xor(a: byte, b: byte): byte {
    XorBound(a as nat, b as nat, 256);
    XorBits(a as nat, b as nat) as byte
  }

  lemma {:induction false} XorBound(a: nat, b: nat, bound: nat)
    requires a < bound && b < bound && bound in {1, 2, 4, 8, 16, 32, 64, 128, 256}
    ensures XorBits(a, b) < bound
    decreases bound
  {
    if bound > 1 {
      XorBound(a / 2, b / 2, bound / 2);
    }
  }

  lemma {:induction false} XorBitsUndo(a: nat, b: nat)
    ensures XorBits(XorBits(a, b), b) == a
    decreases a + b
  {
    if a != 0 || b != 0 {
      XorBitsUndo(a / 2, b / 2);
      var x := XorBits(a, b);
      assert x / 2 == XorBits(a / 2, b / 2) && (x % 2 == 1 <==> a % 2 != b % 2);
    }
  }

  lemma {:induction false} XorBitsCommute(a: nat, b: nat)
    ensures XorBits(a, b) == XorBits(b, a)
    decreases a + b
  {
    if a != 0 || b != 0 {
      XorBitsCommute(a / 2, b / 2);
    }
  }

  lemma {:induction false} XorBitsAssociate(a: nat, b: nat, c: nat)
    ensures XorBits(XorBits(a, b), c) == XorBits(a, XorBits(b, c))
    decreases a + b + c
  {
    if a != 0 || b != 0 || c != 0 {
      XorBitsAssociate(a / 2, b / 2, c / 2);
      var x, y := XorBits(a, b), XorBits(b, c);
      assert x / 2 == XorBits(a / 2, b / 2) && (x % 2 == 1 <==> a % 2 != b % 2);
      assert y / 2 == XorBits(b / 2, c / 2) && (y % 2 == 1 <==> b % 2 != c % 2);
    }
  }

  lemma XorAssociate(a: byte, b: byte, c: byte)
    ensures Xor(Xor(a, b), c) == Xor(a, Xor(b, c))
  {
    XorBitsAssociate(a as nat, b as nat, c as nat);
  }

  lemma XorCommute(a: byte, b: byte)
    ensures Xor(a, b) == Xor(b, a)
  {
    XorBitsCommute(a as nat, b as nat);
  }

  /** Masking with one key byte and unmasking with another gives the byte back exactly when the two
      key bytes are equal. */
  lemma XorUndoIff(a: byte, k: byte, l: byte)
    ensures Xor(Xor(a, k), l) == a <==> k == l
  {
    XorBitsUndo(a as nat, k as nat);
    XorBitsCommute(a as nat, k as nat);
    XorBitsCommute(a as nat, l as nat);
    if Xor(Xor(a, k), l) == a {
      XorBitsUndo(Xor(a, k) as nat, l as nat);
      assert Xor(a, l) == Xor(a, k);
      XorBitsUndo(k as nat, a as nat);
      XorBitsUndo(l as nat, a as nat);
    }
  }
}
