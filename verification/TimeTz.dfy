/** PostgreSQL `timetz`: its text form, its 12-byte wire form, and readers for both. */
module TimeTz {
  import opened Options
  import opened Numerals
  import opened Fractions

  /** A time of day plus the UTC offset, in seconds east, it was written with. */
  datatype TimeTz = TimeTz(hour: nat, minute: nat, second: nat, nanos: nat, offsetEast: int) {
    /** Not a leap second; offsets lie strictly within a day. */
    predicate Valid() {
      hour < 24 && minute < 60 && second < 60 && nanos < 1_000_000_000 && -86_400 < offsetEast < 86_400
    }

    /** Microseconds since midnight. */
    function Micros(): nat {
      Seconds() * 1_000_000 + nanos / 1_000
    }

    function Seconds(): nat {
      (hour * 60 + minute) * 60 + second
    }
  }

  // ---------------------------------------------------------------- offsets

  /** The finer fields, written only when they carry something. */
  function FinerFields(minutes: nat, seconds: nat): string {
    if seconds != 0 then ":" + AtLeastTwo(minutes) + ":" + AtLeastTwo(seconds)
    else if minutes != 0 then ":" + AtLeastTwo(minutes)
    else ""
  }

  function OffsetText(sign: char, total: nat): string {
    [sign] + AtLeastTwo(total / 3600) + FinerFields((total % 3600) / 60, total % 60)
  }

  /** `format_utc_offset` */
  function FormatUtcOffset(secondsEast: int): string {
    if secondsEast < 0 then OffsetText('-', -secondsEast) else OffsetText('+', secondsEast)
  }

  /** Two digits at `i`. */
  predicate TwoAt(s: string, i: nat) {
    i + 2 <= |s| && IsDigit(s[i]) && IsDigit(s[i + 1])
  }

  function TwoVal(s: string, i: nat): nat
    requires TwoAt(s, i)
  {
    10 * DigitVal(s[i]) + DigitVal(s[i + 1])
  }

  /** A colon and two digits below 60 at `i`. */
  predicate FieldAt(s: string, i: nat) {
    i < |s| && s[i] == ':' && TwoAt(s, i + 1) && TwoVal(s, i + 1) < 60
  }

  /** What is left from `i` on is nothing, `:mm` or `:mm:ss`. */
  predicate FinerAt(s: string, i: nat) {
    || |s| == i
    || (|s| == i + 3 && FieldAt(s, i))
    || (|s| == i + 6 && FieldAt(s, i) && FieldAt(s, i + 3))
  }

  /** The finer fields in seconds. */
  function FinerVal(s: string, i: nat): nat
    requires FinerAt(s, i)
  {
    (if |s| > i then TwoVal(s, i + 1) * 60 else 0) + (if |s| > i + 3 then TwoVal(s, i + 4) else 0)
  }

  /** A sign, two or more hour digits and the finer fields from `i` to the end; in seconds east. */
  function ReadOffset(s: string, i: nat): Option<int> {
    if i >= |s| || (s[i] != '+' && s[i] != '-') then None
    else
      var k := DigitsEnd(s, i + 1);
      if k < i + 3 || !FinerAt(s, k) then None
      else Some(Signed(s[i], Val(s[i + 1..k]) * 3600 + FinerVal(s, k)))
  }

  function Signed(sign: char, n: nat): int { if sign == '-' then 0 - n else n }

  lemma FinerReadsBack(p: string, m: nat, x: nat)
    requires m < 60 && x < 60
    ensures var s := p + FinerFields(m, x); FinerAt(s, |p|) && FinerVal(s, |p|) == m * 60 + x
    ensures NotDigitFirst(FinerFields(m, x))
  {
    var f := FinerFields(m, x);
    var s := p + f;
    assert forall j :: 0 <= j < |f| ==> s[|p| + j] == f[j];
    if x != 0 {
      assert f == [':', DigitChar(m / 10), DigitChar(m % 10), ':', DigitChar(x / 10), DigitChar(x % 10)];
    } else if m != 0 {
      assert f == [':', DigitChar(m / 10), DigitChar(m % 10)];
    }
  }

  lemma FinerLength(m: nat, x: nat)
    requires m < 60 && x < 60
    ensures |FinerFields(m, x)| == if x != 0 then 6 else if m != 0 then 3 else 0
  {
  }

  lemma Regrouped(p: string, a: string, b: string, c: string)
    ensures p + (a + b + c) == (p + a) + b + c
  {
  }

  lemma DigitRunEnds(q: string, h: string, f: string)
    requires AllDigits(h) && NotDigitFirst(f)
    ensures var s := q + h + f;
            DigitsEnd(s, |q|) == |q| + |h| && s[|q|..|q| + |h|] == h
  {
    var s := q + h + f;
    assert forall j :: |q| <= j < |q| + |h| ==> s[j] == h[j - |q|];
    assert |q| + |h| < |s| ==> s[|q| + |h|] == f[0];
    DigitsEndIs(s, |q|, |q| + |h|);
  }

  lemma FieldsReadBack(s: string, p: string, sign: char, hh: string, f: string, finer: nat)
    requires (sign == '+' || sign == '-') && |hh| >= 2 && AllDigits(hh) && NotDigitFirst(f)
    requires s == p + [sign] + hh + f && FinerAt(s, |p| + 1 + |hh|) && FinerVal(s, |p| + 1 + |hh|) == finer
    ensures ReadOffset(s, |p|) == Some(Signed(sign, Val(hh) * 3600 + finer))
  {
    DigitRunEnds(p + [sign], hh, f);
    assert s[|p|] == sign;
    OffsetFromFields(s, |p|, hh, finer);
  }

  lemma OffsetFromFields(s: string, i: nat, hh: string, finer: nat)
    requires |hh| >= 2 && AllDigits(hh) && i + 1 + |hh| <= |s| && (s[i] == '+' || s[i] == '-')
    requires DigitsEnd(s, i + 1) == i + 1 + |hh| && s[i + 1..i + 1 + |hh|] == hh
    requires FinerAt(s, i + 1 + |hh|) && FinerVal(s, i + 1 + |hh|) == finer
    ensures ReadOffset(s, i) == Some(Signed(s[i], Val(hh) * 3600 + finer))
  {
  }

  lemma HoursReadBack(s: string, p: string, sign: char, h: nat, f: string, finer: nat)
    requires (sign == '+' || sign == '-') && NotDigitFirst(f)
    requires s == p + [sign] + AtLeastTwo(h) + f
    requires FinerAt(s, |p| + 1 + |AtLeastTwo(h)|) && FinerVal(s, |p| + 1 + |AtLeastTwo(h)|) == finer
    ensures ReadOffset(s, |p|) == Some(Signed(sign, h * 3600 + finer))
  {
    ValAtLeastTwo(h);
    FieldsReadBack(s, p, sign, AtLeastTwo(h), f, finer);
  }

  lemma WrittenFieldsReadBack(s: string, p: string, sign: char, h: nat, m: nat, x: nat)
    requires (sign == '+' || sign == '-') && m < 60 && x < 60
    requires s == p + [sign] + AtLeastTwo(h) + FinerFields(m, x)
    ensures ReadOffset(s, |p|) == Some(Signed(sign, h * 3600 + (m * 60 + x)))
  {
    var q, f := p + [sign] + AtLeastTwo(h), FinerFields(m, x);
    FinerReadsBack(q, m, x);
    assert |q| == |p| + 1 + |AtLeastTwo(h)|;
    HoursReadBack(s, p, sign, h, f, m * 60 + x);
  }

  lemma SplitTotal(total: nat)
    ensures total == total / 3600 * 3600 + ((total % 3600) / 60 * 60 + total % 60)
  {
    var h, r := total / 3600, total % 3600;
    assert total == 60 * (60 * h + r / 60) + r % 60;
    SixtyDivides(60 * h + r / 60, r % 60);
  }

  lemma SixtyDivides(k: nat, x: nat)
    requires x < 60
    ensures (60 * k + x) % 60 == x
  {
  }

  lemma OffsetTextReadsBack(p: string, sign: char, total: nat)
    requires sign == '+' || sign == '-'
    ensures ReadOffset(p + OffsetText(sign, total), |p|) == Some(Signed(sign, total))
  {
    var s := p + OffsetText(sign, total);
    var h, m, x := total / 3600, (total % 3600) / 60, total % 60;
    Regrouped(p, [sign], AtLeastTwo(h), FinerFields(m, x));
    SplitTotal(total);
    WrittenFieldsReadBack(s, p, sign, h, m, x);
  }

  /** Offsets of any size, all of i32 included, read back as written, wherever they stand. */
  lemma OffsetRoundTrip(p: string, v: int)
    ensures ReadOffset(p + FormatUtcOffset(v), |p|) == Some(v)
  {
    var sign, total := if v < 0 then '-' else '+', if v < 0 then -v else v;
    OffsetTextReadsBack(p, sign, total);
    assert FormatUtcOffset(v) == OffsetText(sign, total) && Signed(sign, total) == v;
  }

  lemma FinerIsShortest(s: string, i: nat)
    requires FinerAt(s, i)
    ensures FinerVal(s, i) < 3600
    ensures var x := FinerVal(s, i); |FinerFields(x / 60, x % 60)| <= |s| - i
  {
    var x := FinerVal(s, i);
    FinerLength(x / 60, x % 60);
  }

  /** No spelling of the same offset is shorter. */
  lemma OffsetIsShortest(v: int, s: string)
    requires ReadOffset(s, 0) == Some(v)
    ensures |FormatUtcOffset(v)| <= |s|
  {
    var k := DigitsEnd(s, 1);
    var h, x := Val(s[1..k]), FinerVal(s, k);
    FinerIsShortest(s, k);
    AtLeastTwoIsShortest(h, s[1..k]);
    var total := h * 3600 + x;
    SplitSeconds(h, x);
    OffsetLength(v, total);
  }

  lemma OffsetLength(v: int, total: nat)
    requires v == total || v == 0 - total
    ensures |FormatUtcOffset(v)| == 1 + |AtLeastTwo(total / 3600)| + |FinerFields((total % 3600) / 60, total % 60)|
  {
    var sign := if v < 0 then '-' else '+';
    assert FormatUtcOffset(v) == OffsetText(sign, total);
  }

  lemma SplitSeconds(h: nat, x: nat)
    requires x < 3600
    ensures var t := h * 3600 + x; t / 3600 == h && t % 3600 == x && t % 60 == x % 60
  {
  }

  // ---------------------------------------------------------------- text form

  /** `to_pg_text` */
  function ToPgText(t: TimeTz): string {
    ClockText(t) + FormatFraction(t.nanos) + FormatUtcOffset(t.offsetEast)
  }

  function ClockText(t: TimeTz): string {
    AtLeastTwo(t.hour) + ":" + AtLeastTwo(t.minute) + ":" + AtLeastTwo(t.second)
  }

  /** `hh:mm:ss` at the start, in seconds. */
  predicate ClockAt(s: string) {
    TwoAt(s, 0) && FieldAt(s, 2) && FieldAt(s, 5)
  }

  function ClockVal(s: string): nat
    requires ClockAt(s)
  {
    (TwoVal(s, 0) * 60 + TwoVal(s, 3)) * 60 + TwoVal(s, 6)
  }

  /** Where the fraction after the clock ends. */
  function FractionEnd(s: string): (e: nat)
    requires |s| >= 8
    ensures 8 <= e <= |s|
  {
    if |s| > 8 && s[8] == '.' then DigitsEnd(s, 9) else 8
  }

  /** The fraction after the clock, in microseconds. */
  function ReadFraction(s: string): Option<nat>
    requires |s| >= 8
  {
    var e := FractionEnd(s);
    if e <= 9 then Some(0) else if e > 15 then None else Some(Val(s[9..e]) * Pow10(15 - e))
  }

  /** Reads a timetz text back: microseconds since midnight and seconds east. */
  function ReadText(s: string): Option<(nat, int)> {
    if ClockAt(s) && ReadFraction(s).Some? && ReadOffset(s, FractionEnd(s)).Some? then
      Some((ClockVal(s) * 1_000_000 + ReadFraction(s).value, ReadOffset(s, FractionEnd(s)).value))
    else None
  }

  lemma ClockTextReadsBack(t: TimeTz, rest: string)
    requires t.Valid()
    ensures |ClockText(t)| == 8 && ClockAt(ClockText(t) + rest) && ClockVal(ClockText(t) + rest) == t.Seconds()
  {
    var c := ClockText(t);
    assert c == [DigitChar(t.hour / 10), DigitChar(t.hour % 10), ':', DigitChar(t.minute / 10), DigitChar(t.minute % 10), ':',
                 DigitChar(t.second / 10), DigitChar(t.second % 10)];
    assert forall j :: 0 <= j < 8 ==> (c + rest)[j] == c[j];
  }

  lemma OffsetStartsWithSign(v: int)
    ensures var o := FormatUtcOffset(v); |o| >= 3 && (o[0] == '+' || o[0] == '-')
  {
  }

  /** The fraction after an eight-character clock reads back as microseconds. */
  lemma FractionReadsBack(c: string, nanos: nat, o: string)
    requires |c| == 8 && nanos < 1_000_000_000 && o != "" && (o[0] == '+' || o[0] == '-')
    ensures var s := c + FormatFraction(nanos) + o;
            FractionEnd(s) == |c + FormatFraction(nanos)| && ReadFraction(s) == Some(nanos / 1_000)
  {
    var f := FormatFraction(nanos);
    var s := c + f + o;
    PrintedMicros(nanos / 1_000, nanos);
    assert s[8 + |f|] == o[0];
    if f == "" {
      assert FractionEnd(s) == 8;
    } else {
      assert s[8] == f[0];
      assert s[9..8 + |f|] == f[1..];
      assert forall j :: 9 <= j < 8 + |f| ==> s[j] == f[1..][j - 9];
      DigitsEndIs(s, 9, 8 + |f|);
    }
  }

  lemma ReadTextParts(c: string, f: string, o: string, seconds: nat, micros: nat, east: int)
    requires |c| == 8 && ClockAt(c + (f + o)) && ClockVal(c + (f + o)) == seconds
    requires FractionEnd(c + f + o) == |c + f| && ReadFraction(c + f + o) == Some(micros)
    requires ReadOffset((c + f) + o, |c + f|) == Some(east)
    ensures ReadText(c + f + o) == Some((seconds * 1_000_000 + micros, east))
  {
    assert c + f + o == c + (f + o);
  }

  /** Reading the text back gives the microseconds and the offset. */
  lemma TextReadsBack(t: TimeTz)
    requires t.Valid()
    ensures ReadText(ToPgText(t)) == Some((t.Micros(), t.offsetEast))
  {
    ClockTextReadsBack(t, FormatFraction(t.nanos) + FormatUtcOffset(t.offsetEast));
    var s, m := ToPgText(t), t.Micros();
    AfterClockReadsBack(ClockText(t), t.nanos, t.offsetEast, t.Seconds());
    assert m == t.Seconds() * 1_000_000 + t.nanos / 1_000;
    assert s == ClockText(t) + FormatFraction(t.nanos) + FormatUtcOffset(t.offsetEast);
    assert ReadText(s) == Some((m, t.offsetEast));
  }

  lemma AfterClockReadsBack(c: string, nanos: nat, east: int, seconds: nat)
    requires |c| == 8 && nanos < 1_000_000_000
    requires var s := c + (FormatFraction(nanos) + FormatUtcOffset(east)); ClockAt(s) && ClockVal(s) == seconds
    ensures ReadText(c + FormatFraction(nanos) + FormatUtcOffset(east)) == Some((seconds * 1_000_000 + nanos / 1_000, east))
  {
    var f, o := FormatFraction(nanos), FormatUtcOffset(east);
    OffsetStartsWithSign(east);
    FractionReadsBack(c, nanos, o);
    OffsetRoundTrip(c + f, east);
    ReadTextParts(c, f, o, seconds, nanos / 1_000, east);
  }

  // ---------------------------------------------------------------- wire form

  /** `timetz_send`: int64 microseconds, then int32 seconds *west* of UTC. */
  method ToSql(t: TimeTz) returns (out: seq<Byte>)
    requires t.Valid()
    ensures |out| == 12
    ensures ReadSigned(out[..8]) == t.Micros() && ReadSigned(out[8..]) == -t.offsetEast
  {
    Pow256Values();
    DayFits(t);
    out := [];
    var micros := t.Micros();
    out := out + PutSigned(8, micros);
    out := out + PutSigned(4, -t.offsetEast);
    SignedRoundTrip(8, micros);
    SignedRoundTrip(4, -t.offsetEast);
    assert out[..8] == PutSigned(8, micros) && out[8..] == PutSigned(4, -t.offsetEast);
  }

  lemma DayFits(t: TimeTz)
    requires t.Valid()
    ensures t.Micros() < 86_400_000_000
    ensures Fits(8, t.Micros()) && Fits(4, -t.offsetEast)
  {
    Pow256Values();
  }

  /** Both forms carry the same value: a client sees the same time and offset either way. */
  method EncodeBothWays(t: TimeTz) returns (text: string, wire: seq<Byte>)
    requires t.Valid()
    ensures |wire| == 12
    ensures ReadText(text) == Some((t.Micros(), t.offsetEast))
    ensures ReadSigned(wire[..8]) == t.Micros() && -ReadSigned(wire[8..]) == t.offsetEast
  {
    text := ToPgText(t);
    wire := ToSql(t);
    TextReadsBack(t);
  }
}
