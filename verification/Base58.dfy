/** Base58 as the mock daemon writes it and the end-to-end tests read it. */
module Base58 {
  import opened ByteCodec
  import opened Wrappers

  // --- positional notation -----------------------------------------------------------

  type Digits = seq<nat>

  predicate InBase(ds: Digits, base: nat) {
    forall i :: 0 <= i < |ds| ==> ds[i] < base
  }

  /** The number these digits write, most significant first. */
  function Number(ds: Digits, base: nat): nat {
    if ds == [] then 0 else Number(ds[..|ds| - 1], base) * base + ds[|ds| - 1]
  }

  /** The digits of a number without leading zeros; none for zero. */
  function Numeral(v: nat, base: nat): (ds: Digits)
    requires base >= 2
    ensures InBase(ds, base) && (ds != [] ==> ds[0] != 0) && (ds == [] <==> v == 0)
    decreases v
  {
    if v == 0 then []
    else
      Smaller(v, base);
      Numeral(v / base, base) + [v % base]
  }

  lemma Times(a: nat, b: nat, c: nat)
    requires a <= b
    ensures a * c <= b * c
  {
  }

  lemma Smaller(v: nat, base: nat)
    requires base >= 2 && v > 0
    ensures 0 <= v / base < v && v / base * base + v % base == v
  {
    Times(2, base, v / base);
  }

  lemma Quotient(q: nat, base: nat, r: nat)
    requires r < base
    ensures (q * base + r) / base == q && (q * base + r) % base == r
  {
    var v := q * base + r;
    assert v / base * base + v % base == v;
    if v / base < q {
      Times(v / base + 1, q, base);
    } else if v / base > q {
      Times(q + 1, v / base, base);
    }
  }

  lemma {:induction false} NumberOfNumeral(v: nat, base: nat)
    requires base >= 2
    ensures Number(Numeral(v, base), base) == v
    decreases v
  {
    if v > 0 {
      Smaller(v, base);
      NumberOfNumeral(v / base, base);
      var ds := Numeral(v, base);
      assert ds[..|ds| - 1] == Numeral(v / base, base);
    }
  }

  lemma {:induction false} NumeralOfNumber(ds: Digits, base: nat)
    requires base >= 2 && InBase(ds, base) && (ds != [] ==> ds[0] != 0)
    ensures Numeral(Number(ds, base), base) == ds
  {
    if ds != [] {
      var front, last := ds[..|ds| - 1], ds[|ds| - 1];
      NumeralOfNumber(front, base);
      Quotient(Number(front, base), base, last);
      if front == [] {
        assert Number(front, base) == 0;
      } else {
        assert Number(front, base) != 0;
        Positive(Number(front, base), base, last);
      }
      assert ds == front + [last];
    }
  }

  lemma Positive(q: nat, base: nat, r: nat)
    requires q > 0 && base > 0
    ensures q * base + r > 0
  {
  }

  function Zeros(n: nat): (ds: Digits)
    ensures |ds| == n && forall i :: 0 <= i < n ==> ds[i] == 0
  {
    seq(n, _ => 0)
  }

  function LeadingZeros(ds: Digits): (n: nat)
    ensures n <= |ds| && (forall i :: 0 <= i < n ==> ds[i] == 0) && (n < |ds| ==> ds[n] != 0)
  {
    if ds == [] || ds[0] != 0 then 0 else 1 + LeadingZeros(ds[1..])
  }

  lemma LeadingZerosUnique(ds: Digits, n: nat)
    requires n <= |ds| && (forall i :: 0 <= i < n ==> ds[i] == 0) && (n < |ds| ==> ds[n] != 0)
    ensures n == LeadingZeros(ds)
  {
    var m := LeadingZeros(ds);
    assert m < |ds| ==> ds[m] != 0;
  }

  lemma {:induction false} ZerosCountForNothing(n: nat, ds: Digits, base: nat)
    ensures Number(Zeros(n) + ds, base) == Number(ds, base)
    decreases n + |ds|
  {
    var all := Zeros(n) + ds;
    if ds != [] {
      ZerosCountForNothing(n, ds[..|ds| - 1], base);
      assert all[..|all| - 1] == Zeros(n) + ds[..|ds| - 1];
    } else if n > 0 {
      ZerosCountForNothing(n - 1, [], base);
      assert all[..|all| - 1] == Zeros(n - 1) + [];
    }
  }

  lemma ZerosThenRest(ds: Digits)
    ensures ds == Zeros(LeadingZeros(ds)) + ds[LeadingZeros(ds)..]
  {
  }

  /** Digits in one base, rewritten in another with as many zeros in front. */
  function Rebase(ds: Digits, from: nat, to: nat): Digits
    requires to >= 2
  {
    Zeros(LeadingZeros(ds)) + Numeral(Number(ds, from), to)
  }

  lemma RebaseFacts(ds: Digits, from: nat, to: nat)
    requires from >= 2 && to >= 2 && InBase(ds, from)
    ensures InBase(Rebase(ds, from, to), to)
    ensures LeadingZeros(Rebase(ds, from, to)) == LeadingZeros(ds)
    ensures Number(Rebase(ds, from, to), to) == Number(ds, from)
  {
    var z, rest := LeadingZeros(ds), Numeral(Number(ds, from), to);
    LeadingZerosUnique(Zeros(z) + rest, z);
    ZerosCountForNothing(z, rest, to);
    NumberOfNumeral(Number(ds, from), to);
  }

  /** There and back again. */
  lemma RebaseTwice(ds: Digits, from: nat, to: nat)
    requires from >= 2 && to >= 2 && InBase(ds, from)
    ensures Rebase(Rebase(ds, from, to), to, from) == ds
  {
    RebaseFacts(ds, from, to);
    ZerosThenRest(ds);
    var z := LeadingZeros(ds);
    var rest := ds[z..];
    ZerosCountForNothing(z, rest, from);
    NumeralOfNumber(rest, from);
  }

  // --- text ----------------------------------------------------------------------------

  /** The alphabet: digits without 0, then capitals without I and O, then small letters without l. */
  function Letter(d: nat): char
    requires d < 58
  {
    if d < 9 then '1' + d as char
    else if d < 17 then 'A' + (d - 9) as char
    else if d < 22 then 'J' + (d - 17) as char
    else if d < 33 then 'P' + (d - 22) as char
    else if d < 44 then 'a' + (d - 33) as char
    else 'm' + (d - 44) as char
  }

  /** No character stands for two digits. */
  lemma LettersDiffer(d: nat, e: nat)
    requires d < 58 && e < 58 && Letter(d) == Letter(e)
    ensures d == e
  {
  }

  /** Where a character is in the alphabet. */
  function IndexOf(c: char): (r: Option<nat>)
    ensures r.Some? ==> r.value < 58 && Letter(r.value) == c
    ensures r.None? ==> forall d: nat :: d < 58 ==> Letter(d) != c
  {
    IndexFrom(c, 0)
  }

  function IndexFrom(c: char, i: nat): (r: Option<nat>)
    requires i <= 58
    ensures r.Some? ==> r.value < 58 && Letter(r.value) == c
    ensures r.None? ==> forall d: nat :: i <= d < 58 ==> Letter(d) != c
    decreases 58 - i
  {
    if i == 58 then None else if Letter(i) == c then Some(i) else IndexFrom(c, i + 1)
  }

  function Text(ds: Digits): (s: string)
    requires InBase(ds, 58)
    ensures |s| == |ds| && forall i :: 0 <= i < |s| ==> s[i] == Letter(ds[i])
  {
    seq(|ds|, i requires 0 <= i < |ds| => Letter(ds[i]))
  }

  predicate Readable(s: string) {
    forall i :: 0 <= i < |s| ==> IndexOf(s[i]).Some?
  }

  function DigitsOf(s: string): (ds: Digits)
    requires Readable(s)
    ensures |ds| == |s| && InBase(ds, 58) && forall i :: 0 <= i < |s| ==> Letter(ds[i]) == s[i]
  {
    seq(|s|, i requires 0 <= i < |s| => IndexOf(s[i]).value)
  }

  lemma TextRoundTrips(ds: Digits)
    requires InBase(ds, 58)
    ensures Readable(Text(ds)) && DigitsOf(Text(ds)) == ds
  {
    forall i | 0 <= i < |ds|
      ensures IndexOf(Text(ds)[i]) == Some(ds[i])
    {
      LettersDiffer(IndexOf(Letter(ds[i])).value, ds[i]);
    }
  }

  lemma DigitsRoundTrip(s: string)
    requires Readable(s)
    ensures Text(DigitsOf(s)) == s
  {
  }

  function AsBytes(ds: Digits): (b: Bytes)
    requires InBase(ds, 256)
    ensures b == ds
  {
    ds
  }

  /** What the mock daemon's encoder computes. */
  function Encoded(b: Bytes): (s: string)
    ensures s != ""
  {
    RebaseInBase(b, 256, 58);
    if b == [] then "1" else Text(Rebase(b, 256, 58))
  }

  /** What the tests' decoder computes. */
  function Decoded(s: string): Option<Bytes> {
    if !Readable(s) then None
    else
      RebaseInBase(DigitsOf(s), 58, 256);
      Some(AsBytes(Rebase(DigitsOf(s), 58, 256)))
  }

  lemma RebaseInBase(ds: Digits, from: nat, to: nat)
    requires to >= 2
    ensures InBase(Rebase(ds, from, to), to)
    ensures ds != [] && from >= 2 ==> Rebase(ds, from, to) != []
  {
    if ds != [] && from >= 2 && LeadingZeros(ds) == 0 {
      NotZero(ds, from);
    }
  }

  lemma {:induction false} NotZero(ds: Digits, base: nat)
    requires ds != [] && ds[0] != 0 && base >= 2
    ensures Number(ds, base) > 0
  {
    var front := ds[..|ds| - 1];
    if front != [] {
      NotZero(front, base);
      Positive(Number(front, base), base, ds[|ds| - 1]);
    }
  }

  /** Every byte string but the empty one survives, leading zero bytes included. */
  lemma DecodesWhatItEncodes(b: Bytes)
    ensures Decoded(Encoded(b)) == Some(b) <==> b != []
  {
    if b == [] {
      EmptyBecomesZero();
    } else {
      RebaseInBase(b, 256, 58);
      TextRoundTrips(Rebase(b, 256, 58));
      RebaseTwice(b, 256, 58);
    }
  }

  lemma EmptyBecomesZero()
    ensures Encoded([]) == "1" && Decoded("1") == Some([0])
  {
    LettersDiffer(IndexOf('1').value, 0);
    assert DigitsOf("1") == [0];
    assert Number([0], 58) == 0;
    assert Rebase([0], 58, 256) == [0];
  }

  /** And every non-empty string of base58 digits is the encoding of what it decodes to. */
  lemma EncodesWhatItDecodes(s: string)
    requires Readable(s) && s != ""
    ensures Encoded(Decoded(s).value) == s
  {
    var ds := DigitsOf(s);
    RebaseInBase(ds, 58, 256);
    RebaseTwice(ds, 58, 256);
    DigitsRoundTrip(s);
  }

  // --- the loops ----------------------------------------------------------------------------

  lemma NumberOneMore(ds: Digits, i: nat, base: nat)
    requires i < |ds|
    ensures Number(ds[..i + 1], base) == Number(ds[..i], base) * base + ds[i]
  {
    assert ds[..i + 1][..i] == ds[..i];
  }

  /** Fold the digits of `digits` into one number. */
  method Accumulate(digits: Digits, base: nat) returns (value: nat)
    ensures value == Number(digits, base)
  {
    value := 0;
    for i := 0 to |digits|
      invariant value == Number(digits[..i], base)
    {
      NumberOneMore(digits, i, base);
      value := value * base + digits[i];
    }
    assert digits[..|digits|] == digits;
  }

  /** Peel digits off a number from the right. */
  method Spell(number: nat) returns (out: string)
    ensures out == Text(Numeral(number, 58))
  {
    hide Text;
    hide Numeral;
    hide Letter;
    var value := number;
    out := "";
    TextOfNothing();
    while value > 0
      invariant Text(Numeral(number, 58)) == Text(Numeral(value, 58)) + out
      decreases value
    {
      Smaller(value, 58);
      LastDigit(value, 58);
      TextAppend(Numeral(value / 58, 58), [value % 58]);
      out := [Letter(value % 58)] + out;
      value := value / 58;
    }
  }

  method Base58Encode(buffer: Bytes) returns (out: string)
    ensures out == Encoded(buffer)
  {
    hide *;
    var value := Accumulate(buffer, 256);
    var core := Spell(value);
    ghost var zeros;
    out, zeros := OnesBefore(buffer, core);
    EncodedParts(buffer, zeros);
    if out == "" {
      out := "1";
    }
  }

  /** A one in front for every leading zero byte. */
  method OnesBefore(buffer: Bytes, core: string) returns (out: string, ghost zeros: nat)
    ensures zeros <= |buffer| && (forall k :: 0 <= k < zeros ==> buffer[k] == 0)
            && (zeros < |buffer| ==> buffer[zeros] != 0)
    ensures InBase(Zeros(zeros), 58) && out == Text(Zeros(zeros)) + core
  {
    hide *;
    TextOfNothing();
    LetterZero();
    out := core;
    zeros := 0;
    for i := 0 to |buffer|
      invariant zeros == i && forall k :: 0 <= k < i ==> buffer[k] == 0
      invariant out == Text(Zeros(zeros)) + core
    {
      if buffer[i] != 0 {
        return;
      }
      assert Zeros(i + 1) == [0] + Zeros(i);
      TextAppend([0], Zeros(i));
      out := "1" + out;
      zeros := i + 1;
    }
  }

  lemma TextOfNothing()
    ensures Text([]) == "" && Zeros(0) == [] && InBase([], 58)
  {
  }

  lemma LetterZero()
    ensures Letter(0) == '1' && InBase([0], 58) && forall n: nat :: InBase(Zeros(n), 58)
  {
  }

  lemma TextAppend(a: Digits, b: Digits)
    requires InBase(a, 58) && InBase(b, 58)
    ensures InBase(a + b, 58) && Text(a + b) == Text(a) + Text(b)
    ensures |a| == 1 ==> Text(a) == [Letter(a[0])]
  {
  }

  /** The encoding in the two parts the loops build. */
  lemma EncodedParts(b: Bytes, zeros: nat)
    requires zeros <= |b| && (forall k :: 0 <= k < zeros ==> b[k] == 0) && (zeros < |b| ==> b[zeros] != 0)
    ensures var parts := Text(Zeros(zeros)) + Text(Numeral(Number(b, 256), 58));
            Encoded(b) == if parts == "" then "1" else parts
  {
    LeadingZerosUnique(b, zeros);
    RebaseInBase(b, 256, 58);
    TextAppend(Zeros(zeros), Numeral(Number(b, 256), 58));
  }

  lemma LastDigit(v: nat, base: nat)
    requires v > 0 && base >= 2
    ensures Numeral(v, base) == Numeral(v / base, base) + [v % base]
  {
    Smaller(v, base);
  }

  method Peel(number: nat) returns (out: Digits)
    ensures out == Numeral(number, 256)
  {
    hide Numeral;
    var value := number;
    out := [];
    while value > 0
      invariant Numeral(number, 256) == Numeral(value, 256) + out
      decreases value
    {
      Smaller(value, 256);
      LastDigit(value, 256);
      out := [value % 256] + out;
      value := value / 256;
    }
  }

  method Base58Decode(text: string) returns (bytes: Option<Bytes>)
    ensures bytes == Decoded(text)
  {
    var value: nat := 0;
    for i := 0 to |text|
      invariant Readable(text[..i]) && value == Number(DigitsOf(text[..i]), 58)
    {
      hide *;
      var digit := IndexOf(text[i]);
      if digit.None? {
        Unreadable(text, i);
        return None;
      }
      OneMoreDigit(text, i);
      value := value * 58 + digit.value;
    }
    assert text[..|text|] == text;
    hide *;
    var core := Peel(value);
    var out;
    ghost var ones;
    out, ones := ZerosBefore(text, core);
    DecodedParts(text, ones);
    bytes := Some(AsBytes(out));
  }

  /** A zero byte in front for every leading one. */
  method ZerosBefore(text: string, core: Digits) returns (out: Digits, ghost ones: nat)
    ensures ones <= |text| && (forall k :: 0 <= k < ones ==> text[k] == '1') && (ones < |text| ==> text[ones] != '1')
    ensures out == Zeros(ones) + core
  {
    hide *;
    TextOfNothing();
    out := core;
    ones := 0;
    for i := 0 to |text|
      invariant ones == i && forall k :: 0 <= k < i ==> text[k] == '1'
      invariant out == Zeros(ones) + core
    {
      if text[i] != '1' {
        return;
      }
      assert Zeros(i + 1) == [0] + Zeros(i);
      out := [0] + out;
      ones := i + 1;
    }
  }

  lemma Unreadable(text: string, i: nat)
    requires i < |text| && IndexOf(text[i]).None?
    ensures Decoded(text) == None
  {
  }

  /** The decoding in the two parts the loops build. */
  lemma DecodedParts(text: string, ones: nat)
    requires Readable(text) && ones <= |text|
    requires (forall k :: 0 <= k < ones ==> text[k] == '1') && (ones < |text| ==> text[ones] != '1')
    ensures Decoded(text) == Some(Zeros(ones) + Numeral(Number(DigitsOf(text), 58), 256))
    ensures InBase(Zeros(ones) + Numeral(Number(DigitsOf(text), 58), 256), 256)
  {
    OnesAreZeros(text, ones);
    LeadingZerosUnique(DigitsOf(text), ones);
    RebaseInBase(DigitsOf(text), 58, 256);
  }

  lemma OneMoreDigit(text: string, i: nat)
    requires i < |text| && Readable(text[..i]) && IndexOf(text[i]).Some?
    ensures Readable(text[..i + 1])
    ensures Number(DigitsOf(text[..i + 1]), 58) == Number(DigitsOf(text[..i]), 58) * 58 + IndexOf(text[i]).value
  {
    var ds := DigitsOf(text[..i + 1]);
    NumberOneMore(ds, i, 58);
    assert ds[..i] == DigitsOf(text[..i]) && ds[..i + 1] == ds;
  }

  lemma OnesAreZeros(text: string, i: nat)
    requires Readable(text) && i <= |text|
    ensures (forall k :: 0 <= k < i ==> text[k] == '1') <==> (forall k :: 0 <= k < i ==> DigitsOf(text)[k] == 0)
    ensures i < |text| ==> (text[i] == '1' <==> DigitsOf(text)[i] == 0)
  {
    forall k | 0 <= k < |text|
      ensures text[k] == '1' <==> DigitsOf(text)[k] == 0
    {
      if text[k] == '1' {
        LettersDiffer(DigitsOf(text)[k], 0);
      }
    }
  }
}
