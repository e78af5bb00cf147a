/** The string operations the gateway takes from Rust's `str`, on sequences of characters. */
module Texts {

  /** Unicode White_Space. */
  predicate IsSpace(c: char) {
    var n := c as int;
    9 <= n <= 13 || n == 0x20 || n == 0x85 || n == 0xA0 || n == 0x1680 || 0x2000 <= n <= 0x200A
    || n == 0x2028 || n == 0x2029 || n == 0x202F || n == 0x205F || n == 0x3000
  }

  /** ASCII lower-casing. */
  function LowerChar(c: char): char { if 'A' <= c <= 'Z' then c + 32 as char else c }

  function Lower(s: string): (r: string)
    ensures |r| == |s| && forall i :: 0 <= i < |s| ==> r[i] == LowerChar(s[i])
  {
    seq(|s|, i requires 0 <= i < |s| => LowerChar(s[i]))
  }

  function TrimStart(s: string): (r: string)
    ensures |r| <= |s| && r == s[|s| - |r|..]
    ensures r == "" || !IsSpace(r[0])
  {
    if s != "" && IsSpace(s[0]) then TrimStart(s[1..]) else s
  }

  function TrimEnd(s: string): (r: string)
    ensures |r| <= |s| && r == s[..|r|]
    ensures r == "" || !IsSpace(r[|r| - 1])
  {
    if s != "" && IsSpace(s[|s| - 1]) then TrimEnd(s[..|s| - 1]) else s
  }

  function Trim(s: string): (r: string)
    ensures |r| <= |s|
  {
    TrimEnd(TrimStart(s))
  }

  /** Nothing to trim at either end. */
  predicate Trimmed(s: string) { s == "" || (!IsSpace(s[0]) && !IsSpace(s[|s| - 1])) }

  lemma TrimTrimmed(s: string)
    requires Trimmed(s)
    ensures Trim(s) == s
  {
  }

  predicate StartsWith(s: string, p: string) { |p| <= |s| && s[..|p|] == p }

  predicate EndsWith(s: string, p: string) { |p| <= |s| && s[|s| - |p|..] == p }

  /** `p` occurs in `s` at position `i`. */
  predicate OccursAt(s: string, p: string, i: nat) {
    i + |p| <= |s| && forall d :: 0 <= d < |p| ==> s[i + d] == p[d]
  }

  /** `str::find` from position `i` on; the length of the text if there is none. */
  function FindFrom(s: string, p: string, i: nat): (k: nat)
    requires i <= |s|
    ensures i <= k <= |s|
    ensures k < |s| ==> OccursAt(s, p, k)
    ensures forall j :: i <= j < k ==> !OccursAt(s, p, j)
    decreases |s| - i
  {
    if i == |s| || OccursAt(s, p, i) then i else FindFrom(s, p, i + 1)
  }

  /** First position from `i` on with the character `c`; the length of the text if there is none. */
  function FirstOf(s: string, c: char, i: nat): (k: nat)
    requires i <= |s|
    ensures i <= k <= |s| && (k < |s| ==> s[k] == c) && forall j :: i <= j < k ==> s[j] != c
    decreases |s| - i
  {
    if i == |s| || s[i] == c then i else FirstOf(s, c, i + 1)
  }

  lemma {:induction false} FirstOfIs(s: string, c: char, i: nat, k: nat)
    requires i <= k <= |s| && (k < |s| ==> s[k] == c) && forall j :: i <= j < k ==> s[j] != c
    ensures FirstOf(s, c, i) == k
    decreases k - i
  {
    if i < k { FirstOfIs(s, c, i + 1, k); }
  }

  /** One past the last position below `i` with the character `c`; 0 if there is none. */
  function LastBefore(s: string, c: char, i: nat): (k: nat)
    requires i <= |s|
    ensures k <= i && (k > 0 ==> s[k - 1] == c) && forall j :: k <= j < i ==> s[j] != c
    decreases i
  {
    if i == 0 || s[i - 1] == c then i else LastBefore(s, c, i - 1)
  }

  lemma {:induction false} LastBeforeIs(s: string, c: char, i: nat, k: nat)
    requires k <= i <= |s| && (k > 0 ==> s[k - 1] == c) && forall j :: k <= j < i ==> s[j] != c
    ensures LastBefore(s, c, i) == k
    decreases i
  {
    if k < i { LastBeforeIs(s, c, i - 1, k); }
  }
}
