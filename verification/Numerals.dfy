/** Decimal digit strings and big-endian byte strings, with their readers. */
module Numerals {

  function Pow10(n: nat): (r: nat)
    ensures r >= 1
  {
    if n == 0 then 1 else 10 * Pow10(n - 1)
  }

  predicate IsDigit(c: char) { '0' <= c <= '9' }

  predicate AllDigits(s: string) { forall i :: 0 <= i < |s| ==> IsDigit(s[i]) }

  function DigitVal(c: char): (d: nat)
    requires IsDigit(c)
    ensures d < 10
  {
    c as int - '0' as int
  }

  function DigitChar(d: nat): (c: char)
    requires d < 10
    ensures IsDigit(c) && DigitVal(c) == d
  {
    (d + '0' as int) as char
  }

  /** The number a digit string denotes. */
  function Val(s: string): nat
    requires AllDigits(s)
  {
    if s == "" then 0 else Val(s[..|s| - 1]) * 10 + DigitVal(s[|s| - 1])
  }

  /** Exactly `w` digits, zero-padded: `{:0w}` for a number that fits. */
  function Fixed(w: nat, n: nat): (s: string)
    ensures |s| == w && AllDigits(s)
  {
    if w == 0 then "" else Fixed(w - 1, n / 10) + [DigitChar(n % 10)]
  }

  /** At least two digits: `{:02}`. */
  function AtLeastTwo(n: nat): (s: string)
    ensures |s| >= 2 && AllDigits(s)
  {
    if n < 100 then TwoDigits(n) else AtLeastTwo(n / 10) + [DigitChar(n % 10)]
  }

  function TwoDigits(n: nat): (s: string)
    requires n < 100
    ensures |s| == 2 && AllDigits(s)
  {
    [DigitChar(n / 10), DigitChar(n % 10)]
  }

  lemma ValSnoc(s: string, c: char)
    requires AllDigits(s) && IsDigit(c)
    ensures Val(s + [c]) == Val(s) * 10 + DigitVal(c)
  {
    assert (s + [c])[..|s|] == s;
  }

  lemma {:induction false} ValBound(s: string)
    requires AllDigits(s)
    ensures Val(s) < Pow10(|s|)
  {
    if s == "" {
    } else {
      ValBound(s[..|s| - 1]);
    }
  }

  lemma {:induction false} ValAppend(a: string, b: string)
    requires AllDigits(a) && AllDigits(b)
    ensures AllDigits(a + b) && Val(a + b) == Val(a) * Pow10(|b|) + Val(b)
    decreases |b|
  {
    if b == "" {
      assert a + b == a;
    } else {
      var b', c := b[..|b| - 1], b[|b| - 1];
      assert a + b == (a + b') + [c] && b == b' + [c];
      ValAppend(a, b');
      ValSnoc(a + b', c);
      ValSnoc(b', c);
      ShiftOne(Val(a), Pow10(|b'|), Val(b'), DigitVal(c));
    }
  }

  lemma ShiftOne(x: nat, p: nat, y: nat, d: nat)
    ensures (x * p + y) * 10 + d == x * (10 * p) + (y * 10 + d)
  {
  }

  lemma {:induction false} ValFixed(w: nat, n: nat)
    requires n < Pow10(w)
    ensures Val(Fixed(w, n)) == n
    decreases w
  {
    if w > 0 {
      ValFixed(w - 1, n / 10);
      ValSnoc(Fixed(w - 1, n / 10), DigitChar(n % 10));
    }
  }

  lemma {:induction false} ValAtLeastTwo(n: nat)
    ensures Val(AtLeastTwo(n)) == n
  {
    if n < 100 {
      var a := [DigitChar(n / 10)];
      assert a[..0] == "" && Val(a) == n / 10;
      assert TwoDigits(n) == a + [DigitChar(n % 10)];
      ValSnoc(a, DigitChar(n % 10));
    } else {
      ValAtLeastTwo(n / 10);
      ValSnoc(AtLeastTwo(n / 10), DigitChar(n % 10));
    }
  }

  /** No digit string of two or more digits denotes `n` in fewer characters. */
  lemma {:induction false} AtLeastTwoIsShortest(n: nat, s: string)
    requires AllDigits(s) && |s| >= 2 && Val(s) == n
    ensures |AtLeastTwo(n)| <= |s|
  {
    if n >= 100 {
      var s' := s[..|s| - 1];
      assert n / 10 == Val(s');
      ValBound(s);
      assert Pow10(2) == 100 by { assert Pow10(1) == 10; }
      AtLeastTwoIsShortest(n / 10, s');
    }
  }

  lemma {:induction false} Pow10Add(a: nat, b: nat)
    ensures Pow10(a + b) == Pow10(a) * Pow10(b)
    decreases b
  {
    if b > 0 { Pow10Add(a, b - 1); }
  }

  /** Multiplying by the same number keeps the order. */
  lemma ProductsKeepOrder(x: nat, y: nat, q: nat)
    ensures x <= y ==> x * q <= y * q
    ensures x < y ==> x * q + q <= y * q
  {
    if x < y {
      Distribute(x, y - x, q);
      Distribute(1, y - x - 1, q);
    }
  }

  lemma Distribute(x: nat, d: nat, q: nat)
    ensures (x + d) * q == x * q + d * q && d * q >= 0
  {
  }

  lemma Pow10Values()
    ensures Pow10(1) == 10 && Pow10(2) == 100 && Pow10(3) == 1_000 && Pow10(6) == 1_000_000 && Pow10(9) == 1_000_000_000
  {
    assert Pow10(1) == 10 * Pow10(0);
    assert Pow10(2) == 100;
    assert Pow10(3) == 1000;
    Pow10Add(3, 3);
    Pow10Add(6, 3);
  }

  // ---------------------------------------------------------------- two's complement, big endian

  type Byte = b: int | 0 <= b < 256

  function Pow256(n: nat): (r: nat)
    ensures r >= 1
  {
    if n == 0 then 1 else 256 * Pow256(n - 1)
  }

  function Unsigned(w: nat, u: nat): (b: seq<Byte>)
    ensures |b| == w
  {
    if w == 0 then [] else Unsigned(w - 1, u / 256) + [u % 256]
  }

  function ReadUnsigned(b: seq<Byte>): nat {
    if b == [] then 0 else ReadUnsigned(b[..|b| - 1]) * 256 + b[|b| - 1]
  }

  /** `put_i16`, `put_i32`, `put_i64`: `w` bytes of two's complement. */
  function PutSigned(w: nat, x: int): (b: seq<Byte>)
    requires Fits(w, x)
    ensures |b| == w
  {
    Unsigned(w, if x < 0 then x + Pow256(w) else x)
  }

  /** How a client reads them. */
  function ReadSigned(b: seq<Byte>): int {
    var u := ReadUnsigned(b);
    if 2 * u >= Pow256(|b|) then u - Pow256(|b|) else u
  }

  predicate Fits(w: nat, x: int) { -2 * x <= Pow256(w) && 2 * x < Pow256(w) }

  lemma {:induction false} ReadBack(w: nat, u: nat)
    requires u < Pow256(w)
    ensures ReadUnsigned(Unsigned(w, u)) == u
    decreases w
  {
    if w > 0 {
      ReadBack(w - 1, u / 256);
      assert Unsigned(w, u)[..w - 1] == Unsigned(w - 1, u / 256);
    }
  }

  /** Every integer that fits `w` bytes survives the wire. */
  lemma SignedRoundTrip(w: nat, x: int)
    requires Fits(w, x)
    ensures ReadSigned(PutSigned(w, x)) == x
  {
    ReadBack(w, if x < 0 then x + Pow256(w) else x);
  }

  lemma Pow256Values()
    ensures Pow256(2) == 0x1_0000 && Pow256(4) == 0x1_0000_0000 && Pow256(8) == 0x1_0000_0000_0000_0000
  {
    assert Pow256(1) == 256;
    assert Pow256(2) == 0x1_0000;
    assert Pow256(3) == 0x100_0000;
    assert Pow256(4) == 0x1_0000_0000;
    assert Pow256(5) == 0x100_0000_0000;
    assert Pow256(6) == 0x1_0000_0000_0000;
    assert Pow256(7) == 0x100_0000_0000_0000;
  }
}
