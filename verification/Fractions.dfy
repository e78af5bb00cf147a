/** Fractional seconds: `truncate_fraction` on the way in, `format_fraction` on the way out. */
module Fractions {
  import opened Numerals
  import opened Texts

  function Min(a: nat, b: nat): nat { if a < b then a else b }

  // ---------------------------------------------------------------- truncate_fraction

  /** The end of the digit run that starts at `i`. */
  function DigitsEnd(s: string, i: nat): (k: nat)
    requires i <= |s|
    ensures i <= k <= |s| && (forall j :: i <= j < k ==> IsDigit(s[j])) && (k < |s| ==> !IsDigit(s[k]))
    decreases |s| - i
  {
    if i == |s| || !IsDigit(s[i]) then i else DigitsEnd(s, i + 1)
  }

  function Truncated(s: string): string {
    var dot := FirstOf(s, '.', 0);
    if dot == |s| then s
    else
      var end := DigitsEnd(s, dot + 1);
      if end - (dot + 1) <= 9 then s else s[..dot + 1 + 9] + s[end..]
  }

  /** The two searches of `truncate_fraction` as loops over the text. */
  method TruncateFraction(s: string) returns (t: string)
    ensures t == Truncated(s)
  {
    var dot := FindDot(s);
    t := s;
    if dot < |s| {
      var start := dot + 1;
      var n := CountDigits(s, start);
      if n > 9 {
        t := s[..start + 9];
        t := t + s[start + n..];
      }
    }
  }

  method FindDot(s: string) returns (dot: nat)
    ensures dot == FirstOf(s, '.', 0)
  {
    dot := 0;
    while dot < |s| && s[dot] != '.'
      invariant dot <= |s| && FirstOf(s, '.', 0) == FirstOf(s, '.', dot)
    {
      dot := dot + 1;
    }
  }

  method CountDigits(s: string, start: nat) returns (n: nat)
    requires start <= |s|
    ensures start + n == DigitsEnd(s, start)
  {
    n := 0;
    while start + n < |s| && IsDigit(s[start + n])
      invariant start + n <= |s| && DigitsEnd(s, start) == DigitsEnd(s, start + n)
    {
      n := n + 1;
    }
  }

  /** A text that does not continue a run of digits. */
  predicate NotDigitFirst(s: string) { s == "" || !IsDigit(s[0]) }

  predicate NoDot(s: string) { forall i :: 0 <= i < |s| ==> s[i] != '.' }

  lemma {:induction false} DigitsEndIs(s: string, i: nat, k: nat)
    requires i <= k <= |s| && (forall j :: i <= j < k ==> IsDigit(s[j])) && (k < |s| ==> !IsDigit(s[k]))
    ensures DigitsEnd(s, i) == k
    decreases k - i
  {
    if i < k { DigitsEndIs(s, i + 1, k); }
  }

  /**
    The text before the dot and the zone suffix are untouched; of the digits after the first dot
    the first nine remain, however many there were.
   */
  lemma TruncationKeepsAllButExcessDigits(pre: string, ds: string, suffix: string)
    requires NoDot(pre) && AllDigits(ds) && NotDigitFirst(suffix)
    ensures Truncated(pre + "." + ds + suffix) == pre + "." + ds[..Min(9, |ds|)] + suffix
  {
    var s := pre + "." + ds + suffix;
    var dot := |pre|;
    var end := dot + 1 + |ds|;
    assert s[dot] == '.' && s[..dot] == pre;
    assert forall j :: 0 <= j < dot ==> s[j] == pre[j];
    FirstOfIs(s, '.', 0, dot);
    assert forall j :: dot + 1 <= j < end ==> s[j] == ds[j - dot - 1];
    assert s[end..] == suffix;
    DigitsEndIs(s, dot + 1, end);
    if |ds| > 9 {
      assert s[..dot + 10] == pre + "." + ds[..9];
    } else {
      assert ds[..Min(9, |ds|)] == ds;
    }
  }

  /** Every text with a dot has this shape. */
  lemma EveryTextSplits(s: string) returns (pre: string, ds: string, suffix: string)
    requires !NoDot(s)
    ensures NoDot(pre) && AllDigits(ds) && NotDigitFirst(suffix)
    ensures s == pre + "." + ds + suffix
  {
    var dot := FirstOf(s, '.', 0);
    assert dot < |s|;
    var end := DigitsEnd(s, dot + 1);
    pre, ds, suffix := s[..dot], s[dot + 1..end], s[end..];
    assert s[dot..dot + 1] == ".";
  }

  /** A text without a dot is kept as it is. */
  lemma TextsWithoutDotAreKept(s: string)
    ensures NoDot(s) ==> Truncated(s) == s
  {
    if NoDot(s) { FirstOfIs(s, '.', 0, |s|); }
  }

  lemma TruncationIsIdempotent(s: string)
    ensures Truncated(Truncated(s)) == Truncated(s)
  {
    if !NoDot(s) {
      var pre, ds, suffix := EveryTextSplits(s);
      TruncationKeepsAllButExcessDigits(pre, ds, suffix);
      var short := ds[..Min(9, |ds|)];
      TruncationKeepsAllButExcessDigits(pre, short, suffix);
      assert short[..Min(9, |short|)] == short;
    } else {
      FirstOfIs(s, '.', 0, |s|);
    }
  }

  // ---------------------------------------------------------------- format_fraction

  /** Nanoseconds a fraction of at most nine digits denotes. */
  function Nanos(ds: string): nat
    requires AllDigits(ds) && |ds| <= 9
  {
    Val(ds) * Pow10(9 - |ds|)
  }

  function TrimZeros(s: string): (t: string)
    ensures |t| <= |s| && t == s[..|t|]
    ensures t == "" || t[|t| - 1] != '0'
    ensures forall i :: |t| <= i < |s| ==> s[i] == '0'
  {
    if s != "" && s[|s| - 1] == '0' then TrimZeros(s[..|s| - 1]) else s
  }

  /** `format_fraction`; the clamp concerns leap seconds only. */
  function FormatFraction(nanos: nat): string {
    var micros := Min(nanos / 1_000, 999_999);
    if micros == 0 then "" else "." + TrimZeros(Fixed(6, micros))
  }

  /** The fraction in millionths, rounded down, that a digit string after the dot denotes. */
  function FloorMicros(ds: string): nat
    requires AllDigits(ds)
  {
    Quotient(Val(ds) * 1_000_000, Pow10(|ds|))
  }

  function Quotient(n: nat, d: nat): nat
    requires d > 0
  {
    n / d
  }

  lemma {:induction false} TrimZerosKeepsValue(s: string)
    requires AllDigits(s)
    ensures AllDigits(TrimZeros(s))
    ensures Val(TrimZeros(s)) * Pow10(|s| - |TrimZeros(s)|) == Val(s)
  {
    if s != "" && s[|s| - 1] == '0' {
      var s' := s[..|s| - 1];
      TrimZerosKeepsValue(s');
      var t := TrimZeros(s);
      assert t == TrimZeros(s');
      var p := Pow10(|s'| - |t|);
      assert Pow10(|s| - |t|) == 10 * p;
      Reassociate(Val(t), 10, p);
    }
  }

  lemma QuotientIs(n: nat, d: nat, q: nat)
    requires d > 0 && q * d <= n < q * d + d
    ensures Quotient(n, d) == q
  {
    var r := n % d;
    assert n == (n / d) * d + r;
    ProductsKeepOrder(n / d, q, d);
    ProductsKeepOrder(q, n / d, d);
  }

  /** Cutting to nine digits and going through nanoseconds loses nothing of the microseconds. */
  lemma FloorThroughNanos(ds: string)
    requires AllDigits(ds)
    ensures Nanos(ds[..Min(9, |ds|)]) / 1_000 == FloorMicros(ds)
    ensures FloorMicros(ds) < 1_000_000
  {
    Pow10Values();
    if |ds| <= 9 {
      assert ds[..Min(9, |ds|)] == ds;
      var v, p, q := Val(ds), Pow10(|ds|), Pow10(9 - |ds|);
      Pow10Add(|ds|, 9 - |ds|);
      ValBound(ds);
      ShortFraction(v, p, q);
    } else {
      var a, b := ds[..9], ds[9..];
      assert ds == a + b;
      ValAppend(a, b);
      ValBound(a);
      ValBound(b);
      Pow10Add(9, |b|);
      assert Pow10(0) == 1;
      LongFraction(Val(a), Val(b), Pow10(|b|));
    }
  }

  lemma ShortFraction(v: nat, p: nat, q: nat)
    requires p * q == 1_000_000_000 && v < p
    ensures v * q / 1_000 == Quotient(v * 1_000_000, p) < 1_000_000
  {
    var m, r := v * q / 1_000, v * q % 1_000;
    assert v * q == 1_000 * m + r;
    NonZeroFactors(p, q);
    // v * 10^6 * q == m * p * q + r * 10^6, and 10^6 * r < p * q
    assert (v * 1_000_000) * q == m * (p * q) + r * 1_000_000 by { Regroup(v, q, m, r); }
    assert (m * p) * q == m * (p * q);
    assert m * p <= v * 1_000_000 by { CompareProducts(m * p, v * 1_000_000, q); }
    assert v * 1_000_000 < m * p + p by {
      assert (m * p + p) * q == m * (p * q) + p * q;
      CompareStrict(v * 1_000_000, m * p + p, q);
    }
    QuotientIs(v * 1_000_000, p, m);
    assert m < 1_000_000 by { assert v * q < p * q by { CompareStrictBack(v, p, q); } }
  }

  lemma NonZeroFactors(p: nat, q: nat)
    requires p * q > 0
    ensures p > 0 && q > 0
  {
  }

  lemma Regroup(v: nat, q: nat, m: nat, r: nat)
    requires v * q == 1_000 * m + r
    ensures (v * 1_000_000) * q == m * 1_000_000_000 + r * 1_000_000
  {
    assert (v * 1_000_000) * q == (v * q) * 1_000_000;
  }

  lemma CompareProducts(x: nat, y: nat, q: nat)
    requires q > 0 && x * q <= y * q
    ensures x <= y
  {
    ProductsKeepOrder(y, x, q);
  }

  lemma CompareStrict(x: nat, y: nat, q: nat)
    requires q > 0 && x * q < y * q
    ensures x < y
  {
    ProductsKeepOrder(y, x, q);
  }

  lemma CompareStrictBack(x: nat, y: nat, q: nat)
    requires q > 0 && x < y
    ensures x * q < y * q
  {
    ProductsKeepOrder(x, y, q);
  }

  lemma LongFraction(a: nat, b: nat, p: nat)
    requires a < 1_000_000_000 && b < p
    ensures a / 1_000 == Quotient((a * p + b) * 1_000_000, 1_000_000_000 * p) < 1_000_000
  {
    var q, r := a / 1_000, a % 1_000;
    var x, y := q * p, r * p;
    assert a * p == 1_000 * x + y by { DistributeThousands(q, r, p); }
    ProductsKeepOrder(r, 1_000, p);
    MoveFactor(q, p);
    QuotientIs((a * p + b) * 1_000_000, 1_000_000_000 * p, q);
  }

  lemma DistributeThousands(q: nat, r: nat, p: nat)
    ensures (1_000 * q + r) * p == 1_000 * (q * p) + r * p
  {
  }

  lemma MoveFactor(q: nat, p: nat)
    ensures q * (1_000_000_000 * p) == 1_000_000_000 * (q * p)
  {
  }

  /**
    For fraction digits of any length: truncating to nine, reading nanoseconds and printing gives
    the exact floor to microseconds, as nothing if that is zero, and otherwise as a dot and at
    most six digits the last of which is not zero.
   */
  lemma PrintedFractionIsExactFloor(ds: string)
    requires AllDigits(ds)
    ensures var out := FormatFraction(Nanos(ds[..Min(9, |ds|)]));
            && (FloorMicros(ds) == 0 <==> out == "")
            && (out != "" ==>
                  && 2 <= |out| <= 7 && out[0] == '.' && AllDigits(out[1..])
                  && out[|out| - 1] != '0'
                  && Val(out[1..]) * Pow10(6 - |out[1..]|) == FloorMicros(ds))
  {
    FloorThroughNanos(ds);
    PrintedMicros(FloorMicros(ds), Nanos(ds[..Min(9, |ds|)]));
  }

  lemma PrintedMicros(m: nat, nanos: nat)
    requires nanos / 1_000 == m < 1_000_000
    ensures var out := FormatFraction(nanos);
            && (m == 0 <==> out == "")
            && (out != "" ==>
                  && 2 <= |out| <= 7 && out[0] == '.' && AllDigits(out[1..])
                  && out[|out| - 1] != '0'
                  && Val(out[1..]) * Pow10(6 - |out[1..]|) == m)
  {
    if m > 0 {
      Pow10Values();
      var six := Fixed(6, m);
      ValFixed(6, m);
      TrimZerosKeepsValue(six);
      var t := TrimZeros(six);
      var out := FormatFraction(nanos);
      assert out == "." + t && out[1..] == t;
      NonZeroFactors(Val(t), Pow10(6 - |t|));
    }
  }

  /** A leap second, which chrono keeps as nanoseconds past the full second, prints as the last microsecond before it. */
  lemma LeapSecondsAreClamped(nanos: nat)
    requires nanos >= 1_000_000_000
    ensures FormatFraction(nanos) == ".999999"
  {
    assert FormatFraction(nanos) == FormatFraction(999_999_000);
    PrintedMicros(999_999, 999_999_000);
    var out := FormatFraction(999_999_000);
    SixNines(out[1..]);
  }

  lemma SixNines(t: string)
    requires AllDigits(t) && 1 <= |t| <= 6 && Val(t) * Pow10(6 - |t|) == 999_999
    ensures t == "999999"
  {
    Pow10Values();
    if |t| < 6 {
      assert Pow10(6 - |t|) == 10 * Pow10(6 - |t| - 1);
      TenDivides(Val(t), Pow10(6 - |t| - 1));
    } else {
      assert Pow10(0) == 1;
      NinesValue();
      EqualValuesEqualStrings(t, "999999");
    }
  }

  lemma NinesValue()
    ensures AllDigits("999999") && Val("999999") == 999_999
  {
    assert "999999" == Fixed(6, 999_999) by { FixedNines(); }
    Pow10Values();
    ValFixed(6, 999_999);
  }

  lemma FixedNines()
    ensures Fixed(6, 999_999) == "999999"
  {
    assert Fixed(1, 9) == "9";
    assert Fixed(2, 99) == "99";
    assert Fixed(3, 999) == "999";
    assert Fixed(4, 9_999) == "9999";
    assert Fixed(5, 99_999) == "99999";
  }

  /** The spelling is unique: digit strings without a trailing zero that denote the same fraction are equal. */
  lemma SpellingIsUnique(a: string, b: string)
    requires AllDigits(a) && AllDigits(b)
    requires a == "" || a[|a| - 1] != '0'
    requires b == "" || b[|b| - 1] != '0'
    requires Val(a) * Pow10(|b|) == Val(b) * Pow10(|a|)
    ensures a == b
  {
    if |a| >= |b| {
      LongerSpelling(a, b);
    } else {
      LongerSpelling(b, a);
    }
  }

  lemma LongerSpelling(a: string, b: string)
    requires AllDigits(a) && AllDigits(b) && |a| >= |b|
    requires a == "" || a[|a| - 1] != '0'
    requires Val(a) * Pow10(|b|) == Val(b) * Pow10(|a|)
    ensures a == b
  {
    var k := |a| - |b|;
    Pow10Add(|b|, k);
    CommonFactor(Val(a), Val(b), Pow10(|b|), Pow10(k));
    if k > 0 {
      TenDivides(Val(b), Pow10(k - 1));
      LastDigit(a);
    } else {
      EqualValuesEqualStrings(a, b);
    }
  }

  lemma CommonFactor(v: nat, w: nat, p: nat, r: nat)
    requires p > 0 && v * p == w * (p * r)
    ensures v == w * r
  {
    Reassociate(w, p, r);
    CancelFactor(v, w * r, p);
  }

  lemma TenDivides(w: nat, r: nat)
    ensures (w * (10 * r)) % 10 == 0
  {
    Reassociate(w, 10, r);
    TenDividesMultiple(w * r);
  }

  lemma TenDividesMultiple(m: nat)
    ensures (m * 10) % 10 == 0
  {
  }

  lemma Reassociate(x: nat, p: nat, q: nat)
    ensures x * (p * q) == (x * q) * p
  {
  }

  lemma LastDigit(a: string)
    requires AllDigits(a) && a != ""
    ensures Val(a) % 10 == DigitVal(a[|a| - 1])
    ensures Val(a) % 10 == 0 ==> a[|a| - 1] == '0'
  {
  }

  lemma CancelFactor(x: nat, y: nat, p: nat)
    requires p > 0 && x * p == y * p
    ensures x == y
  {
    ProductsKeepOrder(x, y, p);
    ProductsKeepOrder(y, x, p);
  }

  lemma SameQuotient(x: nat, y: nat, d: nat, e: nat)
    requires d < 10 && e < 10 && x * 10 + d == y * 10 + e
    ensures x == y && d == e
  {
  }

  lemma {:induction false} EqualValuesEqualStrings(a: string, b: string)
    requires AllDigits(a) && AllDigits(b) && |a| == |b| && Val(a) == Val(b)
    ensures a == b
  {
    if a == "" {
    } else {
      var a', b' := a[..|a| - 1], b[..|b| - 1];
      assert Val(a) == Val(a') * 10 + DigitVal(a[|a| - 1]);
      assert Val(b) == Val(b') * 10 + DigitVal(b[|b| - 1]);
      SameQuotient(Val(a'), Val(b'), DigitVal(a[|a| - 1]), DigitVal(b[|b| - 1]));
      EqualValuesEqualStrings(a', b');
      assert a == a' + [a[|a| - 1]] && b == b' + [b[|b| - 1]];
    }
  }
}
