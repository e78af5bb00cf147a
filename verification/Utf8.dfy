/** UTF-8, section 3 of RFC 3629: encoding, and which byte positions are character boundaries. */
module Utf8 {
  import opened Numerals

  predicate IsContinuation(b: Byte) { 0x80 <= b < 0xC0 }

  /** A leading byte followed by continuation bytes; 0xFF never occurs. */
  function EncodeChar(c: char): (bs: seq<Byte>)
    ensures 1 <= |bs| <= 4
    ensures !IsContinuation(bs[0])
    ensures forall i :: 1 <= i < |bs| ==> IsContinuation(bs[i])
    ensures forall i :: 0 <= i < |bs| ==> bs[i] != 0xFF
  {
    var n := c as int;
    if n < 0x80 then [n]
    else if n < 0x800 then [0xC0 + n / 64, 0x80 + n % 64]
    else if n < 0x1_0000 then [0xE0 + n / 4096, 0x80 + n / 64 % 64, 0x80 + n % 64]
    else [0xF0 + n / 262144, 0x80 + n / 4096 % 64, 0x80 + n / 64 % 64, 0x80 + n % 64]
  }

  function Encode(s: string): (bs: seq<Byte>)
    ensures |bs| >= |s|
  {
    if s == "" then [] else Encode(s[..|s| - 1]) + EncodeChar(s[|s| - 1])
  }

  /** Where character `k` starts. */
  function Offset(s: string, k: nat): nat
    requires k <= |s|
  {
    |Encode(s[..k])|
  }

  /** `str::is_char_boundary` */
  predicate IsCharBoundary(bs: seq<Byte>, i: nat)
    requires i <= |bs|
  {
    i == 0 || i == |bs| || !IsContinuation(bs[i])
  }

  lemma OffsetStep(s: string, k: nat)
    requires k < |s|
    ensures Encode(s[..k + 1]) == Encode(s[..k]) + EncodeChar(s[k])
    ensures Offset(s, k) < Offset(s, k + 1) <= Offset(s, k) + 4
  {
    assert s[..k + 1][..k] == s[..k];
  }

  lemma {:induction false} EncodePrefix(s: string, k: nat)
    requires k <= |s|
    ensures Offset(s, k) <= |Encode(s)| && Encode(s)[..Offset(s, k)] == Encode(s[..k])
    decreases |s| - k
  {
    if k == |s| {
      assert s[..k] == s;
    } else {
      OffsetStep(s, k);
      EncodePrefix(s, k + 1);
      var e := Encode(s);
      assert e[..Offset(s, k)] == e[..Offset(s, k + 1)][..Offset(s, k)];
    }
  }

  /** The bytes of character `k` inside the encoding. */
  lemma CharBytes(s: string, k: nat, i: nat)
    requires k < |s| && Offset(s, k) <= i < Offset(s, k + 1)
    ensures i < |Encode(s)| && i - Offset(s, k) < |EncodeChar(s[k])| && Encode(s)[i] == EncodeChar(s[k])[i - Offset(s, k)]
  {
    EncodePrefix(s, k + 1);
    OffsetStep(s, k);
    var e := Encode(s);
    assert e[i] == e[..Offset(s, k + 1)][i];
  }

  /** The character that owns byte `i`. */
  lemma {:induction false} FindChar(s: string, n: nat, i: nat) returns (k: nat)
    requires 0 < n <= |s| && i < Offset(s, n)
    ensures k < n && Offset(s, k) <= i < Offset(s, k + 1)
    decreases n
  {
    assert s[..0] == "";
    OffsetStep(s, n - 1);
    if i >= Offset(s, n - 1) {
      k := n - 1;
    } else {
      k := FindChar(s, n - 1, i);
    }
  }

  /** Character starts are boundaries, and boundaries are character starts. */
  lemma StartsAreBoundaries(s: string, k: nat)
    requires k <= |s|
    ensures Offset(s, k) <= |Encode(s)| && IsCharBoundary(Encode(s), Offset(s, k))
  {
    EncodePrefix(s, k);
    if k < |s| {
      OffsetStep(s, k);
      CharBytes(s, k, Offset(s, k));
    } else {
      assert s[..k] == s;
    }
  }

  lemma BoundariesAreStarts(s: string, i: nat) returns (k: nat)
    requires i <= |Encode(s)| && IsCharBoundary(Encode(s), i)
    ensures k <= |s| && Offset(s, k) == i
  {
    assert s[..|s|] == s;
    if i == 0 {
      assert s[..0] == "";
      k := 0;
    } else if i == |Encode(s)| {
      k := |s|;
    } else {
      k := FindChar(s, |s|, i);
      CharBytes(s, k, i);
    }
  }

  lemma {:induction false} OffsetMonotone(s: string, a: nat, b: nat)
    requires a <= b <= |s|
    ensures Offset(s, a) <= Offset(s, b)
    decreases b - a
  {
    if a < b {
      OffsetStep(s, b - 1);
      OffsetMonotone(s, a, b - 1);
    }
  }

  lemma {:induction false} NoFF(s: string, i: nat)
    requires i < |Encode(s)|
    ensures Encode(s)[i] != 0xFF
  {
    assert s[..|s|] == s;
    var k := FindChar(s, |s|, i);
    CharBytes(s, k, i);
  }

  /** The code point a character's bytes stand for. */
  function DecodeChar(bs: seq<Byte>): int {
    if |bs| == 1 then bs[0]
    else if |bs| == 2 then (bs[0] as int - 0xC0) * 64 + (bs[1] as int - 0x80)
    else if |bs| == 3 then (bs[0] as int - 0xE0) * 4096 + (bs[1] as int - 0x80) * 64 + (bs[2] as int - 0x80)
    else if |bs| == 4 then (bs[0] as int - 0xF0) * 262144 + (bs[1] as int - 0x80) * 4096 + (bs[2] as int - 0x80) * 64 + (bs[3] as int - 0x80)
    else -1
  }

  lemma CharRoundTrip(c: char)
    ensures DecodeChar(EncodeChar(c)) == c as int
  {
    var n := c as int;
    assert n / 4096 == n / 64 / 64 && n / 262144 == n / 4096 / 64;
  }

  lemma SameBytesSameChar(c: char, d: char)
    requires EncodeChar(c) == EncodeChar(d)
    ensures c == d
  {
    CharRoundTrip(c);
    CharRoundTrip(d);
  }

  /** The encoding determines the text. */
  lemma {:induction false} EncodeIsInjective(a: string, b: string)
    requires Encode(a) == Encode(b)
    ensures a == b
    decreases |a|
  {
    if a != "" && b != "" {
      var e := Encode(a);
      var x, y := EncodeChar(a[|a| - 1]), EncodeChar(b[|b| - 1]);
      var p, q := Encode(a[..|a| - 1]), Encode(b[..|b| - 1]);
      assert e == p + x == q + y;
      LastCharLength(p, x, q, y);
      assert x == e[|p|..] == y && p == e[..|p|] == q;
      SameBytesSameChar(a[|a| - 1], b[|b| - 1]);
      EncodeIsInjective(a[..|a| - 1], b[..|b| - 1]);
      assert a == a[..|a| - 1] + [a[|a| - 1]] && b == b[..|b| - 1] + [b[|b| - 1]];
    }
  }

  lemma LastLead(p: seq<Byte>, x: seq<Byte>)
    requires x != [] && !IsContinuation(x[0]) && forall i :: 1 <= i < |x| ==> IsContinuation(x[i])
    ensures var e := p + x;
            |p| < |e| && !IsContinuation(e[|p|]) && forall i :: |p| < i < |e| ==> IsContinuation(e[i])
  {
  }

  lemma LastCharLength(p: seq<Byte>, x: seq<Byte>, q: seq<Byte>, y: seq<Byte>)
    requires p + x == q + y && x != [] && y != []
    requires !IsContinuation(x[0]) && (forall i :: 1 <= i < |x| ==> IsContinuation(x[i]))
    requires !IsContinuation(y[0]) && (forall i :: 1 <= i < |y| ==> IsContinuation(y[i]))
    ensures |p| == |q|
  {
    LastLead(p, x);
    LastLead(q, y);
  }
}
