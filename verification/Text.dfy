/** Strings as the three implementations order, encode and print them. */
module Text {
  import opened ByteCodec

  // --- order -----------------------------------------------------------------

  /** Lexicographic order by a rank of characters; a proper prefix comes first. */
  predicate Before(rank: char -> nat, a: string, b: string) {
    if b == "" then false
    else if a == "" then true
    else if rank(a[0]) == rank(b[0]) then Before(rank, a[1..], b[1..])
    else rank(a[0]) < rank(b[0])
  }

  /**
   * JavaScript compares UTF-16 code units: a character outside the basic plane
   * starts with a surrogate, so it falls between U+D7FF and U+E000.
   */
  function Utf16Rank(c: char): nat {
    if 0xE000 <= c as int < 0x1_0000 then c as int + 0x20_0000 else c as int
  }

  /** Rust compares UTF-8 bytes, which is code point order. */
  function Utf8Rank(c: char): nat {
    c as int
  }

  predicate JsBefore(a: string, b: string) {
    Before(Utf16Rank, a, b)
  }

  predicate RustBefore(a: string, b: string) {
    Before(Utf8Rank, a, b)
  }

  ghost predicate Injective(rank: char -> nat) {
    forall c, d :: rank(c) == rank(d) ==> c == d
  }

  lemma RanksInjective()
    ensures Injective(Utf16Rank) && Injective(Utf8Rank)
  {
  }

  lemma {:induction false} BeforeAsymmetric(rank: char -> nat, a: string, b: string)
    requires Before(rank, a, b)
    ensures !Before(rank, b, a) && a != b
  {
    if a != "" && rank(a[0]) == rank(b[0]) {
      BeforeAsymmetric(rank, a[1..], b[1..]);
    }
  }

  lemma {:induction false} BeforeTotal(rank: char -> nat, a: string, b: string)
    requires Injective(rank) && a != b
    ensures Before(rank, a, b) || Before(rank, b, a)
  {
    if a != "" && b != "" && rank(a[0]) == rank(b[0]) {
      assert a == [a[0]] + a[1..] && b == [b[0]] + b[1..];
      BeforeTotal(rank, a[1..], b[1..]);
    }
  }

  lemma {:induction false} BeforeSeparates(rank: char -> nat, a: string, b: string, c: string)
    requires Before(rank, a, c)
    ensures Before(rank, a, b) || Before(rank, b, c)
  {
    if a != "" && b != "" && rank(a[0]) == rank(b[0]) == rank(c[0]) {
      BeforeSeparates(rank, a[1..], b[1..], c[1..]);
    }
  }

  /** Every character is in the basic multilingual plane. */
  predicate BasicPlane(s: string) {
    forall i :: 0 <= i < |s| ==> s[i] as int < 0x1_0000
  }

  lemma {:induction false} OrdersAgree(a: string, b: string)
    requires BasicPlane(a) && BasicPlane(b)
    ensures JsBefore(a, b) == RustBefore(a, b)
  {
    if a != "" && b != "" {
      OrdersAgree(a[1..], b[1..]);
    }
  }

  /** Beyond it they do not: an emoji sorts before a full-width tilde in JavaScript and after it in Rust. */
  lemma OrdersDisagree()
    ensures JsBefore("\U{1F600}", "\U{FF5E}") && RustBefore("\U{FF5E}", "\U{1F600}")
  {
  }

  // --- decimal numerals --------------------------------------------------------

  function Digit(d: nat): char
    requires d < 10
  {
    "0123456789"[d]
  }

  function Decimal(n: nat): (s: string)
    ensures s != "" && forall c :: c in s ==> '0' <= c <= '9'
  {
    if n < 10 then [Digit(n)] else Decimal(n / 10) + [Digit(n % 10)]
  }

  lemma {:induction false} DecimalInjective(m: nat, n: nat)
    requires Decimal(m) == Decimal(n)
    ensures m == n
  {
    var s := Decimal(m);
    assert m % 10 == n % 10 by {
      assert s[|s| - 1] == Digit(m % 10) == Digit(n % 10);
    }
    if m >= 10 && n >= 10 {
      assert Decimal(m / 10) == s[..|s| - 1] == Decimal(n / 10);
      DecimalInjective(m / 10, n / 10);
    }
  }

  // --- UTF-8 -------------------------------------------------------------------

  /** The platform's UTF-8 codec. Decoding is total: malformed input is replaced, never refused. */
  datatype Utf8 = Utf8(encode: string -> Bytes, decode: Bytes -> string) {
    ghost predicate Lawful() {
      && (forall s :: decode(encode(s)) == s)
      && (forall s, t :: encode(s + t) == encode(s) + encode(t))
    }
  }
}
