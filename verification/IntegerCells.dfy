/** Integer columns: a JSON number as PostgreSQL text and as a big-endian binary integer. */
module IntegerCells {
  import opened Options
  import opened Numerals

  const TWO63 := 0x8000_0000_0000_0000
  const TWO64 := 0x1_0000_0000_0000_0000

  /** serde_json's number: an unsigned, a negative, or a finite double given by its exact value. */
  datatype Number = PosInt(u: nat) | NegInt(i: int) | Float(f: real) {
    predicate Valid() {
      (PosInt? ==> u < TWO64) && (NegInt? ==> -TWO63 <= i < 0)
    }

    /** The number the JSON text stands for (for doubles, after parsing). */
    function Value(): real {
      match this
      case PosInt(u) => u as real
      case NegInt(i) => i as real
      case Float(f) => f
    }

    function AsI64(): Option<int> {
      match this
      case PosInt(u) => if u < TWO63 then Some(u) else None
      case NegInt(i) => Some(i)
      case Float(_) => None
    }

    function AsU64(): Option<nat> {
      if PosInt? then Some(u) else None
    }

    /** Conversion to a double; integers from 2^63 up are spaced 2^11 apart and round to nearest, ties to even. */
    function AsF64(): real {
      match this
      case PosInt(u) => if u < TWO63 then u as real else RoundToDouble(u) as real
      case NegInt(i) => i as real
      case Float(f) => f
    }
  }

  function RoundToDouble(u: nat): nat {
    var q, r := u / 2048, u % 2048;
    if r < 1024 || (r == 1024 && q % 2 == 0) then 2048 * q else 2048 * (q + 1)
  }

  predicate Integral(x: real) { x.Floor as real == x }

  /** `f as i64` on a double within range: the fraction is cut off. */
  function Truncate(x: real): int {
    if x >= 0.0 then x.Floor else -((-x).Floor)
  }

  predicate InI64Range(x: real) { -TWO63 as real <= x < TWO63 as real }

  /** `f64_to_i64_exact` */
  function F64ToI64Exact(f: real): Option<int> {
    if Integral(f) && InI64Range(f) then Some(Truncate(f)) else None
  }

  /** `json_to_i64` on a number. */
  function JsonToI64(n: Number): Option<int> {
    if n.AsI64().Some? then n.AsI64()
    else if n.AsU64().Some? && n.AsU64().value < TWO63 then Some(n.AsU64().value)
    else F64ToI64Exact(n.AsF64())
  }

  datatype IntColumn = Int2 | Int4 | Int8

  function Width(c: IntColumn): nat {
    match c case Int2 => 2 case Int4 => 4 case Int8 => 8
  }

  /** The integer branches of `encode_binary_cell`; `None` is an error to the client. */
  function EncodeBinary(n: Number, c: IntColumn): Option<seq<Byte>> {
    match JsonToI64(n)
    case None => None
    case Some(i) => if Fits(Width(c), i) then Some(PutSigned(Width(c), i)) else None
  }

  /** Decimal text of an integer. */
  function PrintInt(i: int): string {
    if i < 0 then "-" + PrintNat(-i) else PrintNat(i)
  }

  function PrintNat(n: nat): (s: string)
    ensures s != "" && AllDigits(s)
  {
    if n < 10 then [DigitChar(n)] else PrintNat(n / 10) + [DigitChar(n % 10)]
  }

  /** How a client reads integer text. */
  function ReadInt(s: string): Option<int> {
    if s != "" && s[0] == '-' && AllDigits(s[1..]) then Some(0 - Val(s[1..]))
    else if AllDigits(s) then Some(Val(s))
    else None
  }

  /** Text sent for a number in an integer column: integer text, or the double's own text. */
  datatype NumberText = IntegerText(text: string) | FloatText(f: real)

  /** `encode_number` for tinyint, smallint, integer and bigint. */
  function EncodeText(n: Number): NumberText {
    if n.AsI64().Some? then IntegerText(PrintInt(n.AsI64().value))
    else if n.AsU64().Some? then IntegerText(PrintInt(n.AsU64().value))
    else if InI64Range(n.AsF64()) then IntegerText(PrintInt(Truncate(n.AsF64())))
    else FloatText(n.AsF64())
  }

  // ---------------------------------------------------------------- proofs

  lemma RoundingStaysAbove(u: nat)
    requires TWO63 <= u
    ensures TWO63 <= RoundToDouble(u)
  {
    assert TWO63 == 2048 * 0x10_0000_0000_0000;
    assert u / 2048 >= 0x10_0000_0000_0000;
  }

  lemma TruncateIntegral(x: real)
    requires Integral(x)
    ensures Truncate(x) as real == x
  {
    if x < 0.0 {
      var k := x.Floor;
      assert -x == (-k) as real;
      assert (-x).Floor == -k;
    }
  }

  lemma WholeWhenTruncated(x: real)
    ensures Truncate(x) as real == x ==> Integral(x)
  {
  }

  /** The conversion yields exactly the number, and yields it exactly when it is an i64. */
  lemma JsonToI64Exactly(n: Number)
    requires n.Valid()
    ensures JsonToI64(n).Some? <==> Integral(n.Value()) && InI64Range(n.Value())
    ensures JsonToI64(n).Some? ==> JsonToI64(n).value as real == n.Value()
  {
    match n
    case PosInt(u) =>
      if u >= TWO63 { RoundingStaysAbove(u); }
    case NegInt(i) =>
    case Float(f) =>
      if Integral(f) { TruncateIntegral(f); }
  }

  lemma {:induction false} ReadPrintNat(n: nat)
    ensures Val(PrintNat(n)) == n
  {
    if n < 10 {
      assert [DigitChar(n)][..0] == "";
    } else {
      ReadPrintNat(n / 10);
      ValSnoc(PrintNat(n / 10), DigitChar(n % 10));
    }
  }

  lemma ReadPrintInt(i: int)
    ensures ReadInt(PrintInt(i)) == Some(i)
  {
    if i < 0 {
      ReadPrintNat(-i);
      assert PrintInt(i)[1..] == PrintNat(-i);
    } else {
      ReadPrintNat(i);
      assert IsDigit(PrintInt(i)[0]);
    }
  }

  lemma FitsI64(w: nat, i: int)
    requires w == 2 || w == 4 || w == 8
    ensures Fits(w, i) ==> -TWO63 <= i < TWO63
    ensures Fits(8, i) <==> -TWO63 <= i < TWO63
  {
    Pow256Values();
  }

  /**
    Binary integers are exact: encoding succeeds exactly when the number is an integer that fits
    the column, and then the bytes read back as the number itself and as what the text path prints.
   */
  lemma BinaryIsExact(n: Number, c: IntColumn)
    requires n.Valid()
    ensures EncodeBinary(n, c).Some? <==> Integral(n.Value()) && Fits(Width(c), n.Value().Floor)
    ensures EncodeBinary(n, c).Some? ==>
              var b := EncodeBinary(n, c).value;
              && |b| == Width(c)
              && ReadSigned(b) as real == n.Value()
              && EncodeText(n).IntegerText?
              && ReadInt(EncodeText(n).text) == Some(ReadSigned(b))
  {
    JsonToI64Exactly(n);
    FitsI64(Width(c), n.Value().Floor);
    if JsonToI64(n).Some? {
      var i := JsonToI64(n).value;
      assert n.Value().Floor == i;
      TextPrints(n, i);
      if Fits(Width(c), i) { SignedRoundTrip(Width(c), i); }
    }
  }

  lemma TextPrints(n: Number, i: int)
    requires n.Valid() && n.Value() == i as real && -TWO63 <= i < TWO63
    ensures EncodeText(n).IntegerText? && ReadInt(EncodeText(n).text) == Some(i)
  {
    ReadPrintInt(i);
    if n.Float? {
      TruncateIntegral(n.f);
      assert Truncate(n.f) == i;
    }
  }

  /** The number that the text sent stands for. */
  function TextValue(t: NumberText): Option<real> {
    match t
    case FloatText(f) => Some(f)
    case IntegerText(s) => match ReadInt(s) case None => None case Some(i) => Some(i as real)
  }

  /**
    The text path never saturates, but it drops fractions: what it sends stands for the number
    exactly when the number is not a fractional double within the range of i64.
   */
  lemma TextIsExactExactly(n: Number)
    requires n.Valid()
    ensures TextValue(EncodeText(n)) == Some(n.Value()) <==> !(n.Float? && InI64Range(n.f) && !Integral(n.f))
  {
    match n
    case PosInt(u) => ReadPrintInt(u);
    case NegInt(i) => ReadPrintInt(i);
    case Float(f) =>
      if InI64Range(f) {
        ReadPrintInt(Truncate(f));
        WholeWhenTruncated(f);
        if Integral(f) { TruncateIntegral(f); }
      }
  }

  /** One half in an integer column: sent as the text `0`, refused in binary. */
  lemma HalfFails(c: IntColumn)
    ensures EncodeText(Float(0.5)) == IntegerText("0") && TextValue(EncodeText(Float(0.5))) != Some(0.5)
    ensures EncodeBinary(Float(0.5), c) == None
  {
    assert 0.5.Floor == 0 && PrintNat(0) == [DigitChar(0)] == "0";
    TextIsExactExactly(Float(0.5));
    BinaryIsExact(Float(0.5), c);
  }

  /** A fractional double within range is sent cut off toward zero: what is sent has its sign and is less than one away. */
  lemma TextCutsTowardZero(f: real)
    requires InI64Range(f)
    ensures var t := EncodeText(Float(f));
            && TextValue(t).Some?
            && var v := TextValue(t).value;
               Integral(v) && if f >= 0.0 then v <= f < v + 1.0 else v - 1.0 < f <= v
  {
    var i := Truncate(f);
    ReadPrintInt(i);
    assert EncodeText(Float(f)) == IntegerText(PrintInt(i));
    assert (i as real).Floor == i;
  }

  /** The conversion of a large integer to a double goes to a nearest multiple of 2^11, to the even one from the middle. */
  lemma RoundsToNearest(u: nat)
    ensures var d := RoundToDouble(u);
            && d % 2048 == 0 && -1024 <= d - u <= 1024
            && (d - u == 1024 || u - d == 1024 ==> (d / 2048) % 2 == 0)
  {
    var q, r := u / 2048, u % 2048;
    assert u == 2048 * q + r;
  }
}
