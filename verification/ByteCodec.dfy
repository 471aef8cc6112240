/** Bytes, little- and big-endian integers, and the exclusive-or of two bytes. */
module ByteCodec {

  type Byte = x: int | 0 <= x < 256
  type Bytes = seq<Byte>

  // --- Node's Buffer.readUIntXX ---------------------------------------------

  /** `buffer.readUInt16LE(i)`. */
  function U16LE(b: Bytes, i: nat): (v: nat)
    requires i + 2 <= |b|
    ensures v < 0x1_0000
  {
    var b0: int, b1: int := b[i], b[i + 1];
    b0 + 0x100 * b1
  }

  /** `buffer.readUInt32LE(i)`. */
  function U32LE(b: Bytes, i: nat): (v: nat)
    requires i + 4 <= |b|
    ensures v < 0x1_0000_0000
  {
    U16LE(b, i) + 0x1_0000 * U16LE(b, i + 2)
  }

  function LE16(v: nat): (b: Bytes)
    ensures |b| == 2
    ensures v < 0x1_0000 ==> U16LE(b, 0) == v
  {
    [v % 0x100, v / 0x100 % 0x100]
  }

  function LE32(v: nat): (b: Bytes)
    ensures |b| == 4
    ensures v < 0x1_0000_0000 ==> U32LE(b, 0) == v
  {
    LE16(v % 0x1_0000) + LE16(v / 0x1_0000 % 0x1_0000)
  }

  /** The big-endian value of a byte string. */
  function BigEndian(b: Bytes): (v: nat) {
    if b == [] then 0 else 0x100 * BigEndian(b[..|b| - 1]) + b[|b| - 1]
  }

  /** The `n` bytes of `v`, most significant first. */
  function ToBigEndian(v: nat, n: nat): (b: Bytes)
    ensures |b| == n
  {
    if n == 0 then [] else ToBigEndian(v / 0x100, n - 1) + [v % 0x100]
  }

  function Pow256(n: nat): (p: nat)
    ensures p > 0
  {
    if n == 0 then 1 else 0x100 * Pow256(n - 1)
  }

  lemma {:induction false} BigEndianRoundTrip(v: nat, n: nat)
    requires v < Pow256(n)
    ensures BigEndian(ToBigEndian(v, n)) == v
  {
    if n > 0 {
      BigEndianRoundTrip(v / 0x100, n - 1);
      assert ToBigEndian(v, n)[..n - 1] == ToBigEndian(v / 0x100, n - 1);
    }
  }

  // --- Node's Buffer.writeUIntXX --------------------------------------------

  method WriteUInt16LE(a: array<Byte>, v: nat, i: nat)
    requires v < 0x1_0000 && i + 2 <= a.Length
    modifies a
    ensures U16LE(a[..], i) == v
    ensures forall k :: 0 <= k < a.Length && !(i <= k < i + 2) ==> a[k] == old(a[k])
  {
    a[i] := v % 0x100;
    a[i + 1] := v / 0x100;
  }

  method WriteUInt32LE(a: array<Byte>, v: nat, i: nat)
    requires v < 0x1_0000_0000 && i + 4 <= a.Length
    modifies a
    ensures U32LE(a[..], i) == v
    ensures forall k :: 0 <= k < a.Length && !(i <= k < i + 4) ==> a[k] == old(a[k])
  {
    WriteUInt16LE(a, v % 0x1_0000, i);
    WriteUInt16LE(a, v / 0x1_0000, i + 2);
  }

  // --- words as bits, least significant first -------------------------------

  type Bits = seq<bool>

  function Pow2(n: nat): (p: nat)
    ensures p > 0
  {
    if n == 0 then 1 else 2 * Pow2(n - 1)
  }

  lemma {:induction false} Pow2Sum(m: nat, n: nat)
    ensures Pow2(m + n) == Pow2(m) * Pow2(n)
  {
    if m > 0 {
      Pow2Sum(m - 1, n);
    }
  }

  lemma WordWidths()
    ensures Pow2(8) == 0x100 && Pow2(32) == 0x1_0000_0000
  {
    assert Pow2(8) == 0x100;
    Pow2Sum(8, 8);
    Pow2Sum(16, 16);
  }

  /** The `n` low bits of `v`. */
  function ToBits(v: nat, n: nat): (w: Bits)
    ensures |w| == n
  {
    if n == 0 then [] else [v % 2 == 1] + ToBits(v / 2, n - 1)
  }

  function Value(w: Bits): (v: nat)
    ensures v < Pow2(|w|)
  {
    if w == [] then 0 else (if w[0] then 1 else 0) + 2 * Value(w[1..])
  }

  lemma {:induction false} ValueOfBits(v: nat, n: nat)
    requires v < Pow2(n)
    ensures Value(ToBits(v, n)) == v
  {
    if n > 0 {
      ValueOfBits(v / 2, n - 1);
      assert ToBits(v, n)[1..] == ToBits(v / 2, n - 1);
    }
  }

  lemma {:induction false} BitsOfValue(w: Bits)
    ensures ToBits(Value(w), |w|) == w
  {
    if w != [] {
      BitsOfValue(w[1..]);
      assert Value(w) % 2 == (if w[0] then 1 else 0) && Value(w) / 2 == Value(w[1..]);
      assert w == [w[0]] + w[1..];
    }
  }

  /** Bitwise exclusive or of two words of the same width. */
  function Xor(a: Bits, b: Bits): (c: Bits)
    requires |a| == |b|
    ensures |c| == |a|
    ensures forall i :: 0 <= i < |c| ==> c[i] == (a[i] != b[i])
  {
    seq(|a|, i requires 0 <= i < |a| => a[i] != b[i])
  }

  /** `a ^ b` on two bytes. */
  function XorByte(a: Byte, b: Byte): Byte {
    assert Pow2(8) == 256;
    Value(Xor(ToBits(a, 8), ToBits(b, 8)))
  }

  lemma XorByteInvolution(a: Byte, b: Byte)
    ensures XorByte(XorByte(a, b), b) == a
  {
    assert Pow2(8) == 256;
    var x, y := ToBits(a, 8), ToBits(b, 8);
    BitsOfValue(Xor(x, y));
    assert Xor(Xor(x, y), y) == x;
    ValueOfBits(a, 8);
  }
}
