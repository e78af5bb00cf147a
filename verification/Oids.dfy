/** Synthetic OIDs: djb2 over the UTF-8 bytes of names, mapped into [base, 2^31 - 1). */
module Oids {
  import opened Numerals
  import opened Utf8

  const TWO32 := 0x1_0000_0000
  const I32_MAX := 0x7FFF_FFFF
  const BASE_TABLE_OID := 16384
  const PUBLIC_NAMESPACE_OID := 2200
  const BASE_NAMESPACE_OID := 20000

  /** `h.wrapping_mul(33).wrapping_add(b)` */
  function Mix(h: nat, b: Byte): nat { (h * 33 + b) % TWO32 }

  /** The bytes the loop sees: the parts in order, separated by 0xFF. */
  function Joined(parts: seq<string>): seq<Byte> {
    if parts == [] then []
    else if |parts| == 1 then Encode(parts[0])
    else Joined(parts[..|parts| - 1]) + [0xFF] + Encode(parts[|parts| - 1])
  }

  function Pow33(n: nat): nat { if n == 0 then 1 else 33 * Pow33(n - 1) }

  /** The closed form: a polynomial in 33 with the bytes as coefficients, without wrapping. */
  function Polynomial(bs: seq<Byte>): nat {
    5381 * Pow33(|bs|) + Coefficients(bs)
  }

  function Coefficients(bs: seq<Byte>): nat {
    if bs == [] then 0 else bs[0] * Pow33(|bs| - 1) + Coefficients(bs[1..])
  }

  function OidOf(bs: seq<Byte>, base: nat): nat
    requires base < I32_MAX
  {
    base + (Polynomial(bs) % TWO32) % (I32_MAX - base)
  }

  // ---------------------------------------------------------------- proofs

  lemma {:induction false} CoefficientsSnoc(bs: seq<Byte>, b: Byte)
    ensures Coefficients(bs + [b]) == 33 * Coefficients(bs) + b
  {
    if bs == [] {
      assert bs + [b] == [b];
      assert Coefficients([b]) == b * Pow33(0) + Coefficients([]);
    } else {
      assert (bs + [b])[1..] == bs[1..] + [b];
      CoefficientsSnoc(bs[1..], b);
      assert bs[0] * Pow33(|bs|) == 33 * (bs[0] * Pow33(|bs| - 1));
    }
  }

  lemma PolynomialSnoc(bs: seq<Byte>, b: Byte)
    ensures Polynomial(bs + [b]) == 33 * Polynomial(bs) + b
  {
    CoefficientsSnoc(bs, b);
  }

  lemma WrappingStep(h: nat, b: Byte)
    ensures Mix(h % TWO32, b) == (33 * h + b) % TWO32
  {
    var q, r := h / TWO32, h % TWO32;
    assert h == q * TWO32 + r;
    assert 33 * h + b == (33 * q) * TWO32 + (r * 33 + b);
    RemainderOf(33 * q, r * 33 + b);
  }

  lemma RemainderOf(k: nat, x: nat)
    ensures (k * TWO32 + x) % TWO32 == x % TWO32
  {
  }

  /** Mixing in a byte extends the polynomial, wrap-around and all. */
  lemma MixExtends(bs: seq<Byte>, b: Byte)
    ensures Mix(Polynomial(bs) % TWO32, b) == Polynomial(bs + [b]) % TWO32
  {
    PolynomialSnoc(bs, b);
    WrappingStep(Polynomial(bs), b);
  }

  /**
    `djb2_oid`: the nested wrapping loops compute the closed polynomial modulo 2^32, and the
    final sum stays below 2^31 - 1, so it does not overflow.
   */
  method Djb2Oid(parts: seq<string>, base: nat) returns (oid: nat)
    requires base < I32_MAX
    ensures oid == OidOf(Joined(parts), base)
    ensures base <= oid < I32_MAX
  {
    var h: nat := 5381;
    ghost var seen: seq<Byte> := [];
    assert Polynomial([]) == 5381 && 5381 % TWO32 == 5381;
    for i := 0 to |parts|
      invariant seen == Joined(parts[..i]) && h == Polynomial(seen) % TWO32
    {
      if i > 0 {
        h := Mix(h, 0xFF);
        MixExtends(seen, 0xFF);
        seen := seen + [0xFF];
      }
      h := MixAll(h, Encode(parts[i]), seen);
      seen := seen + Encode(parts[i]);
      JoinedStep(parts, i);
    }
    assert parts[..|parts|] == parts;
    oid := base + h % (I32_MAX - base);
  }

  method MixAll(start: nat, bytes: seq<Byte>, ghost seen: seq<Byte>) returns (h: nat)
    requires start == Polynomial(seen) % TWO32
    ensures h == Polynomial(seen + bytes) % TWO32
  {
    h := start;
    assert seen + bytes[..0] == seen;
    for j := 0 to |bytes|
      invariant h == Polynomial(seen + bytes[..j]) % TWO32
    {
      h := Mix(h, bytes[j]);
      MixExtends(seen + bytes[..j], bytes[j]);
      assert seen + bytes[..j] + [bytes[j]] == seen + bytes[..j + 1];
    }
    assert bytes[..|bytes|] == bytes;
  }

  lemma JoinedStep(parts: seq<string>, i: nat)
    requires i < |parts|
    ensures Joined(parts[..i + 1]) == Joined(parts[..i]) + (if i > 0 then [0xFF] else []) + Encode(parts[i])
  {
    var p := parts[..i + 1];
    assert p[..i] == parts[..i] && p[i] == parts[i];
    if i == 0 { assert Joined(parts[..0]) == []; }
  }

  lemma JoinedPair(a: string, b: string)
    ensures Joined([a, b]) == Encode(a) + [0xFF] + Encode(b)
  {
    assert [a, b][..1] == [a];
  }

  lemma FirstSeparator(x: seq<Byte>, y: seq<Byte>)
    requires forall i :: 0 <= i < |x| ==> x[i] != 0xFF
    ensures var e := x + [0xFF] + y;
            |x| < |e| && e[|x|] == 0xFF && forall i :: 0 <= i < |x| ==> e[i] != 0xFF
  {
  }

  lemma SplitAtSeparator(x: seq<Byte>, y: seq<Byte>, x': seq<Byte>, y': seq<Byte>)
    requires (forall i :: 0 <= i < |x| ==> x[i] != 0xFF) && (forall i :: 0 <= i < |x'| ==> x'[i] != 0xFF)
    requires x + [0xFF] + y == x' + [0xFF] + y'
    ensures x == x' && y == y'
  {
    var e := x + [0xFF] + y;
    FirstSeparator(x, y);
    FirstSeparator(x', y');
    assert x == e[..|x|] == x' && y == e[|x| + 1..] == y';
  }

  /** The separator cannot occur in UTF-8, so the hashed bytes determine schema and table. */
  lemma BytesDetermineNames(schema: string, table: string, schema': string, table': string)
    requires Joined([schema, table]) == Joined([schema', table'])
    ensures schema == schema' && table == table'
  {
    JoinedPair(schema, table);
    JoinedPair(schema', table');
    forall i | 0 <= i < |Encode(schema)| ensures Encode(schema)[i] != 0xFF { NoFF(schema, i); }
    forall i | 0 <= i < |Encode(schema')| ensures Encode(schema')[i] != 0xFF { NoFF(schema', i); }
    SplitAtSeparator(Encode(schema), Encode(table), Encode(schema'), Encode(table'));
    EncodeIsInjective(schema, schema');
    EncodeIsInjective(table, table');
  }

  /** `table_oid` */
  method TableOid(schema: string, table: string) returns (oid: nat)
    ensures oid == OidOf(Encode(schema) + [0xFF] + Encode(table), BASE_TABLE_OID)
    ensures BASE_TABLE_OID <= oid < I32_MAX
  {
    oid := Djb2Oid([schema, table], BASE_TABLE_OID);
    JoinedPair(schema, table);
  }

  /** `namespace_oid`: no hashed schema ever gets the OID reserved for "public". */
  method NamespaceOid(schema: string) returns (oid: nat)
    ensures oid == PUBLIC_NAMESPACE_OID <==> schema == "public"
    ensures schema != "public" ==> oid == OidOf(Encode(schema), BASE_NAMESPACE_OID) && BASE_NAMESPACE_OID <= oid < I32_MAX
  {
    if schema == "public" {
      return PUBLIC_NAMESPACE_OID;
    }
    oid := Djb2Oid([schema], BASE_NAMESPACE_OID);
  }

  lemma PolynomialOf(bs: seq<Byte>, b: Byte, n: nat)
    requires Polynomial(bs) == n
    ensures Polynomial(bs + [b]) == 33 * n + b
  {
    PolynomialSnoc(bs, b);
  }

  /** Worked out: table `b` of schema `a`, and schema `abcde`, whose hash wraps around. */
  lemma SampleOids()
    ensures OidOf([97, 0xFF, 98], BASE_TABLE_OID) == 193_507_527
    ensures OidOf([97, 98, 99, 100, 101], BASE_NAMESPACE_OID) == 252_839_604
  {
    assert Polynomial([]) == 5381 by { assert Coefficients([]) == 0 && Pow33(0) == 1; }
    PolynomialOf([], 97, 5381);
    assert [] + [97] == [97];
    PolynomialOf([97], 0xFF, 177670);
    assert [97] + [0xFF] == [97, 0xFF];
    PolynomialOf([97, 0xFF], 98, 5863365);
    assert [97, 0xFF] + [98] == [97, 0xFF, 98];
    PolynomialOf([97], 98, 177670);
    assert [97] + [98] == [97, 98];
    PolynomialOf([97, 98], 99, 5863208);
    assert [97, 98] + [99] == [97, 98, 99];
    PolynomialOf([97, 98, 99], 100, 193485963);
    assert [97, 98, 99] + [100] == [97, 98, 99, 100];
    PolynomialOf([97, 98, 99, 100], 101, 6385036879);
    assert [97, 98, 99, 100] + [101] == [97, 98, 99, 100, 101];
  }
}
