/** CRC-32: the table-driven loop of the package writer computes the bit-at-a-time definition. */
module Crc32 {
  import opened ByteCodec

  /** A 32-bit register, least significant bit first. */
  type Word = w: Bits | |w| == 32 witness Zeros(32)

  function Zeros(n: nat): (w: Bits)
    ensures |w| == n && forall i :: 0 <= i < n ==> !w[i]
  {
    seq(n, _ => false)
  }

  /** `w >>> n`. */
  function ShiftRight(w: Word, n: nat): Word
    requires n <= 32
  {
    w[n..] + Zeros(n)
  }

  /** A byte in the low end of the register. */
  function Widen(b: Byte): Word {
    ToBits(b, 8) + Zeros(24)
  }

  const POLYNOMIAL: Word := ToBits(0xedb8_8320, 32)

  /** The register before the first byte, and what is folded in after the last: all ones. */
  function Ones(): Word {
    seq(32, _ => true)
  }

  /** One step of the reflected shift register. */
  function Shift(c: Word): Word {
    if c[0] then Xor(POLYNOMIAL, ShiftRight(c, 1)) else ShiftRight(c, 1)
  }

  function Shifts(c: Word, n: nat): Word {
    if n == 0 then c else Shift(Shifts(c, n - 1))
  }

  /** The definition: fold one byte into the register, then shift it bit by bit. */
  function Register(bytes: Bytes): Word {
    if bytes == [] then Ones()
    else Shifts(Xor(Register(bytes[..|bytes| - 1]), Widen(bytes[|bytes| - 1])), 8)
  }

  /** CRC-32 of a byte string, as the number stored in the archive. */
  function Checksum(bytes: Bytes): (crc: nat)
    ensures crc < 0x1_0000_0000
  {
    WordWidths();
    Value(Xor(Register(bytes), Ones()))
  }

  // --- the shift register is linear over exclusive or -----------------------

  lemma ShiftLinear(a: Word, b: Word)
    ensures Shift(Xor(a, b)) == Xor(Shift(a), Shift(b))
  {
    assert ShiftRight(Xor(a, b), 1) == Xor(ShiftRight(a, 1), ShiftRight(b, 1));
  }

  lemma {:induction false} ShiftsLinear(a: Word, b: Word, n: nat)
    ensures Shifts(Xor(a, b), n) == Xor(Shifts(a, n), Shifts(b, n))
  {
    if n > 0 {
      ShiftsLinear(a, b, n - 1);
      ShiftLinear(Shifts(a, n - 1), Shifts(b, n - 1));
    }
  }

  /** Zero bits at the low end fall off without touching the rest. */
  lemma {:induction false} ZeroBitsOnlyMove(c: Word, n: nat)
    requires n <= 32 && forall i :: 0 <= i < n ==> !c[i]
    ensures Shifts(c, n) == ShiftRight(c, n)
  {
    if n == 0 {
      assert c[0..] + Zeros(0) == c;
    } else {
      ZeroBitsOnlyMove(c, n - 1);
      assert ShiftRight(ShiftRight(c, n - 1), 1) == ShiftRight(c, n);
    }
  }

  /** The identity the table rests on: eight shifts are one lookup and one byte shift. */
  lemma LookupIsEightShifts(x: Word, index: Byte)
    requires index == Value(x[..8])
    ensures Shifts(x, 8) == Xor(Shifts(Widen(index), 8), ShiftRight(x, 8))
  {
    BitsOfValue(x[..8]);
    var high := Zeros(8) + x[8..];
    assert x == Xor(Widen(index), high);
    ShiftsLinear(Widen(index), high, 8);
    ZeroBitsOnlyMove(high, 8);
    assert ShiftRight(high, 8) == ShiftRight(x, 8);
  }

  /** One turn of the table-driven loop is one step of the definition. */
  lemma TableStep(buffer: Bytes, i: nat, index: Byte)
    requires i < |buffer|
    requires index == Value(Xor(Register(buffer[..i]), Widen(buffer[i]))[..8])
    ensures Register(buffer[..i + 1]) == Xor(Shifts(Widen(index), 8), ShiftRight(Register(buffer[..i]), 8))
  {
    var crc := Register(buffer[..i]);
    var x: Word := Xor(crc, Widen(buffer[i]));
    LookupIsEightShifts(x, index);
    assert ShiftRight(x, 8) == ShiftRight(crc, 8);
    assert buffer[..i + 1][..i] == buffer[..i];
  }

  // --- the loops of the package writer --------------------------------------

  method BuildTable() returns (table: array<Word>)
    ensures fresh(table) && table.Length == 256
    ensures forall i: Byte :: table[i] == Shifts(Widen(i), 8)
  {
    table := new Word[256](_ => Zeros(32));
    for i := 0 to 256
      invariant forall j: Byte :: j < i ==> table[j] == Shifts(Widen(j), 8)
    {
      var c: Word := Widen(i);
      for k := 0 to 8
        invariant c == Shifts(Widen(i), k)
      {
        c := if c[0] then Xor(POLYNOMIAL, ShiftRight(c, 1)) else ShiftRight(c, 1);
      }
      table[i] := c;
    }
  }

  method Crc32(buffer: Bytes) returns (sum: nat)
    ensures sum == Checksum(buffer)
  {
    var table := BuildTable();
    var crc: Word := Ones();
    for i := 0 to |buffer|
      invariant crc == Register(buffer[..i])
      invariant forall j: Byte :: table[j] == Shifts(Widen(j), 8)
    {
      WordWidths();
      var index: Byte := Value(Xor(crc, Widen(buffer[i]))[..8]);
      TableStep(buffer, i, index);
      crc := Xor(table[index], ShiftRight(crc, 8));
    }
    assert buffer[..|buffer|] == buffer;
    sum := Value(Xor(crc, Ones()));
  }
}
