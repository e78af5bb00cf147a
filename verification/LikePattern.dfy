/**
  LIKE matching, and why `lower(x) LIKE lower(p)` stands for `x ILIKE p`.

  `lower` is any character-wise lower-casing that keeps the two wildcards to themselves.
 */
module LikePattern {
  import opened Options

  datatype Token = AnyString | AnyChar | Literally(c: char)

  /** Reads a pattern; `None` is the error for a pattern that ends in its escape character. */
  function Tokens(p: string, escape: Option<char>): Option<seq<Token>> {
    if p == "" then Some([])
    else if escape == Some(p[0]) then
      if |p| == 1 then None else Prepend(Literally(p[1]), Tokens(p[2..], escape))
    else
      Prepend(if p[0] == '%' then AnyString else if p[0] == '_' then AnyChar else Literally(p[0]),
              Tokens(p[1..], escape))
  }

  function Prepend(t: Token, ts: Option<seq<Token>>): Option<seq<Token>> {
    if ts.None? then None else Some([t] + ts.value)
  }

  /** Plain matching: literal characters compare equal. */
  predicate Matches(s: string, ts: seq<Token>)
    decreases |s| + |ts|
  {
    if ts == [] then s == ""
    else match ts[0]
      case AnyString => Matches(s, ts[1..]) || (s != "" && Matches(s[1..], ts))
      case AnyChar => s != "" && Matches(s[1..], ts[1..])
      case Literally(c) => s != "" && s[0] == c && Matches(s[1..], ts[1..])
  }

  /** Case-insensitive matching: literal characters compare equal after lower-casing. */
  predicate MatchesNoCase(lower: char -> char, s: string, ts: seq<Token>)
    decreases |s| + |ts|
  {
    if ts == [] then s == ""
    else match ts[0]
      case AnyString => MatchesNoCase(lower, s, ts[1..]) || (s != "" && MatchesNoCase(lower, s[1..], ts))
      case AnyChar => s != "" && MatchesNoCase(lower, s[1..], ts[1..])
      case Literally(c) => s != "" && lower(s[0]) == lower(c) && MatchesNoCase(lower, s[1..], ts[1..])
  }

  function LikeResult(s: string, p: string, escape: Option<char>): Option<bool> {
    match Tokens(p, escape)
    case None => None
    case Some(ts) => Some(Matches(s, ts))
  }

  function ILikeResult(lower: char -> char, s: string, p: string, escape: Option<char>): Option<bool> {
    match Tokens(p, escape)
    case None => None
    case Some(ts) => Some(MatchesNoCase(lower, s, ts))
  }

  /** The escape stands only in front of a wildcard or itself. */
  predicate StrictEscapes(p: string, escape: Option<char>) {
    if p == "" then true
    else if escape == Some(p[0]) then
      |p| > 1 && (p[1] == '%' || p[1] == '_' || escape == Some(p[1])) && StrictEscapes(p[2..], escape)
    else StrictEscapes(p[1..], escape)
  }

  /** LIKE as Trino reads it: any other use of the escape is an error. */
  function TrinoLikeResult(s: string, p: string, escape: Option<char>): Option<bool> {
    if StrictEscapes(p, escape) then LikeResult(s, p, escape) else None
  }

  function LowerString(lower: char -> char, s: string): (r: string)
    ensures |r| == |s|
  {
    if s == "" then "" else [lower(s[0])] + LowerString(lower, s[1..])
  }

  function LowerToken(lower: char -> char, t: Token): Token {
    if t.Literally? then Literally(lower(t.c)) else t
  }

  function LowerTokens(lower: char -> char, ts: seq<Token>): seq<Token> {
    if ts == [] then [] else [LowerToken(lower, ts[0])] + LowerTokens(lower, ts[1..])
  }

  ghost predicate KeepsWildcards(lower: char -> char) {
    forall c :: (lower(c) == '%' <==> c == '%') && (lower(c) == '_' <==> c == '_')
  }

  /** The escape character lower-cases to itself and nothing else lower-cases to it. */
  ghost predicate Caseless(lower: char -> char, escape: Option<char>) {
    escape.Some? ==> forall c :: lower(c) == escape.value <==> c == escape.value
  }

  lemma {:induction false} TokensOfLoweredPattern(lower: char -> char, p: string, escape: Option<char>)
    requires KeepsWildcards(lower) && Caseless(lower, escape)
    ensures Tokens(LowerString(lower, p), escape)
         == match Tokens(p, escape) case None => None case Some(ts) => Some(LowerTokens(lower, ts))
  {
    var lp := LowerString(lower, p);
    if p == "" {
    } else {
      assert lp[1..] == LowerString(lower, p[1..]);
      if escape == Some(p[0]) {
        if |p| > 1 {
          assert lp[2..] == LowerString(lower, p[1..])[1..] == LowerString(lower, p[2..]) by {
            assert p[1..][1..] == p[2..];
          }
          TokensOfLoweredPattern(lower, p[2..], escape);
        }
      } else {
        TokensOfLoweredPattern(lower, p[1..], escape);
      }
    }
  }

  lemma {:induction false} MatchingLoweredString(lower: char -> char, s: string, ts: seq<Token>)
    ensures Matches(LowerString(lower, s), LowerTokens(lower, ts)) == MatchesNoCase(lower, s, ts)
    decreases |s| + |ts|
  {
    var ls, lts := LowerString(lower, s), LowerTokens(lower, ts);
    if ts == [] {
    } else {
      assert lts[0] == LowerToken(lower, ts[0]) && lts[1..] == LowerTokens(lower, ts[1..]);
      MatchingLoweredString(lower, s, ts[1..]);
      if s != "" {
        assert ls[0] == lower(s[0]) && ls[1..] == LowerString(lower, s[1..]);
        MatchingLoweredString(lower, s[1..], ts);
        MatchingLoweredString(lower, s[1..], ts[1..]);
      }
    }
  }

  /** ILIKE is LIKE on lowered operands, for every string, pattern and caseless escape. */
  lemma ILikeIsLikeOnLowered(lower: char -> char, s: string, p: string, escape: Option<char>)
    requires KeepsWildcards(lower) && Caseless(lower, escape)
    ensures LikeResult(LowerString(lower, s), LowerString(lower, p), escape) == ILikeResult(lower, s, p, escape)
  {
    TokensOfLoweredPattern(lower, p, escape);
    match Tokens(p, escape)
    case None =>
    case Some(ts) => MatchingLoweredString(lower, s, ts);
  }

  lemma {:induction false} StrictPatternsRead(p: string, escape: Option<char>)
    requires StrictEscapes(p, escape)
    ensures Tokens(p, escape).Some?
  {
    if p == "" {
    } else if escape == Some(p[0]) {
      StrictPatternsRead(p[2..], escape);
    } else {
      StrictPatternsRead(p[1..], escape);
    }
  }

  lemma {:induction false} LoweringKeepsStrictness(lower: char -> char, p: string, escape: Option<char>)
    requires KeepsWildcards(lower) && Caseless(lower, escape)
    ensures StrictEscapes(LowerString(lower, p), escape) <==> StrictEscapes(p, escape)
  {
    var lp := LowerString(lower, p);
    if p == "" {
    } else {
      assert lp[0] == lower(p[0]) && lp[1..] == LowerString(lower, p[1..]);
      LoweringKeepsStrictness(lower, p[1..], escape);
      if |p| > 1 {
        assert p[1..][1..] == p[2..] && p[1..][0] == p[1];
        assert lp[1] == lower(p[1]) && lp[2..] == LowerString(lower, p[2..]) by {
          assert LowerString(lower, p[1..])[1..] == LowerString(lower, p[2..]);
        }
        LoweringKeepsStrictness(lower, p[2..], escape);
      }
    }
  }

  /** Trino reads a pattern as PostgreSQL does exactly when its escapes are strict, or it is invalid to both. */
  lemma TrinoReadsExactly(s: string, p: string, escape: Option<char>)
    ensures TrinoLikeResult(s, p, escape) == LikeResult(s, p, escape)
       <==> StrictEscapes(p, escape) || Tokens(p, escape).None?
  {
  }

  /** The rewritten ILIKE under a caseless escape: right exactly when the escapes are strict, or the pattern is invalid. */
  lemma ILikeRewriteExactlyWhenStrict(lower: char -> char, s: string, p: string, escape: Option<char>)
    requires KeepsWildcards(lower) && Caseless(lower, escape)
    ensures TrinoLikeResult(LowerString(lower, s), LowerString(lower, p), escape) == ILikeResult(lower, s, p, escape)
       <==> StrictEscapes(p, escape) || Tokens(p, escape).None?
  {
    ILikeIsLikeOnLowered(lower, s, p, escape);
    LoweringKeepsStrictness(lower, p, escape);
    TokensOfLoweredPattern(lower, p, escape);
  }

  /**
    The exact condition on the escape character: the rewrite is right on all strings and patterns
    with strict escapes if and only if it is caseless.
   */
  lemma ILikeRewriteExactlyWhenCaseless(lower: char -> char, escape: Option<char>)
    requires KeepsWildcards(lower)
    ensures Caseless(lower, escape) <==>
            forall s, p :: StrictEscapes(p, escape) ==>
              TrinoLikeResult(LowerString(lower, s), LowerString(lower, p), escape) == ILikeResult(lower, s, p, escape)
  {
    if Caseless(lower, escape) {
      forall s, p | StrictEscapes(p, escape)
        ensures TrinoLikeResult(LowerString(lower, s), LowerString(lower, p), escape) == ILikeResult(lower, s, p, escape)
      {
        ILikeRewriteExactlyWhenStrict(lower, s, p, escape);
      }
    } else {
      var s, p := ILikeRewriteFails(lower, escape.value);
    }
  }

  lemma LiteralTokens(c: char, escape: Option<char>)
    requires c != '%' && c != '_' && escape != Some(c)
    ensures Tokens([c], escape) == Some([Literally(c)])
    ensures Tokens([c, c], escape) == Some([Literally(c), Literally(c)])
  {
    assert [c, c][1..] == [c] && [c][1..] == "";
    assert [Literally(c)] + [] == [Literally(c)];
    assert Tokens([c], escape) == Some([Literally(c)]);
    assert [Literally(c)] + [Literally(c)] == [Literally(c), Literally(c)];
  }

  /** A string and a pattern on which an escape character that is not caseless goes wrong. */
  lemma ILikeRewriteFails(lower: char -> char, e: char) returns (s: string, p: string)
    requires KeepsWildcards(lower) && !Caseless(lower, Some(e))
    ensures StrictEscapes(p, Some(e))
    ensures TrinoLikeResult(LowerString(lower, s), LowerString(lower, p), Some(e)) != ILikeResult(lower, s, p, Some(e))
  {
    if lower(e) != e {
      s, p := [e], [e, e];
      assert p[2..] == "" && [Literally(e)] + [] == [Literally(e)];
      assert Tokens(p, Some(e)) == Some([Literally(e)]);
      assert MatchesNoCase(lower, s, [Literally(e)]) by { assert s[1..] == ""; }
      var l := lower(e);
      assert LowerString(lower, p) == [l, l] by { assert LowerString(lower, [e]) == [l]; }
      LiteralTokens(l, Some(e));
      assert LowerString(lower, s) == [l];
      assert [Literally(l), Literally(l)][1..] == [Literally(l)];
      assert !Matches([l], [Literally(l), Literally(l)]);
    } else {
      var d :| d != e && lower(d) == e;
      s, p := [d], [d];
      LiteralTokens(d, Some(e));
      assert LowerString(lower, p) == [e];
      assert Tokens([e], Some(e)) == None;
    }
  }

  /** An escape character that does not occur in the pattern may as well be absent. */
  lemma {:induction false} UnusedEscape(p: string, c: char)
    requires c !in p
    ensures Tokens(p, Some(c)) == Tokens(p, None)
  {
    if p == "" {
    } else {
      UnusedEscape(p[1..], c);
    }
  }

  // ---------------------------------------------------------------- two engines, two default escapes

  /** How often `c` occurs in a string, and how often it is demanded by a pattern. */
  function Occurrences(c: char, s: string): nat {
    if s == "" then 0 else (if s[0] == c then 1 else 0) + Occurrences(c, s[1..])
  }

  function Demanded(c: char, ts: seq<Token>): nat {
    if ts == [] then 0 else (if ts[0] == Literally(c) then 1 else 0) + Demanded(c, ts[1..])
  }

  /** The shortest string a pattern matches, with `filler` for every `_`. */
  function Shortest(ts: seq<Token>, filler: char): string {
    if ts == [] then ""
    else match ts[0]
      case AnyString => Shortest(ts[1..], filler)
      case AnyChar => [filler] + Shortest(ts[1..], filler)
      case Literally(c) => [c] + Shortest(ts[1..], filler)
  }

  lemma {:induction false} ShortestMatches(ts: seq<Token>, filler: char, c: char)
    requires filler != c
    ensures Matches(Shortest(ts, filler), ts)
    ensures Occurrences(c, Shortest(ts, filler)) == Demanded(c, ts)
  {
    if ts == [] {
    } else {
      ShortestMatches(ts[1..], filler, c);
      if !ts[0].AnyString? { assert Shortest(ts, filler)[1..] == Shortest(ts[1..], filler); }
    }
  }

  lemma {:induction false} MatchSuppliesDemand(s: string, ts: seq<Token>, c: char)
    requires Matches(s, ts)
    ensures Occurrences(c, s) >= Demanded(c, ts)
    decreases |s| + |ts|
  {
    if ts == [] {
    } else {
      match ts[0]
      case AnyString =>
        if Matches(s, ts[1..]) { MatchSuppliesDemand(s, ts[1..], c); } else { MatchSuppliesDemand(s[1..], ts, c); }
      case AnyChar => MatchSuppliesDemand(s[1..], ts[1..], c);
      case Literally(_) => MatchSuppliesDemand(s[1..], ts[1..], c);
    }
  }

  lemma {:induction false} DemandWithoutEscape(p: string, c: char)
    requires c != '%' && c != '_'
    ensures Tokens(p, None).Some? && Demanded(c, Tokens(p, None).value) == Occurrences(c, p)
  {
    if p == "" {
    } else {
      DemandWithoutEscape(p[1..], c);
      var ts := Tokens(p, None).value;
      assert ts[1..] == Tokens(p[1..], None).value;
    }
  }

  /** An escape character is demanded once for every two that are written, at most. */
  lemma {:induction false} DemandWithEscape(p: string, c: char)
    requires c != '%' && c != '_' && Tokens(p, Some(c)).Some?
    ensures 2 * Demanded(c, Tokens(p, Some(c)).value) <= Occurrences(c, p)
  {
    if p == "" {
    } else {
      var ts := Tokens(p, Some(c)).value;
      if p[0] == c {
        DemandWithEscape(p[2..], c);
        assert ts[1..] == Tokens(p[2..], Some(c)).value && p[1..][1..] == p[2..];
      } else {
        DemandWithEscape(p[1..], c);
        assert ts[1..] == Tokens(p[1..], Some(c)).value;
      }
    }
  }

  lemma {:induction false} OccurrencesPositive(c: char, s: string)
    requires c in s
    ensures Occurrences(c, s) > 0
  {
    if s[0] != c { OccurrencesPositive(c, s[1..]); }
  }

  /**
    Reading a pattern with an escape character and without one gives the same answer on every
    string exactly when the pattern does not contain that character.
   */
  lemma EscapeMattersExactlyWhenUsed(p: string, c: char)
    requires c != '%' && c != '_'
    ensures (forall s :: LikeResult(s, p, Some(c)) == LikeResult(s, p, None)) <==> c !in p
  {
    if c in p {
      var filler := if c == 'a' then 'b' else 'a';
      DemandWithoutEscape(p, c);
      OccurrencesPositive(c, p);
      var s := if Tokens(p, Some(c)).Some? then Shortest(Tokens(p, Some(c)).value, filler) else "";
      if Tokens(p, Some(c)).Some? {
        DemandWithEscape(p, c);
        ShortestMatches(Tokens(p, Some(c)).value, filler, c);
        TooFewToMatch(s, Tokens(p, None).value, c);
      }
      assert LikeResult(s, p, Some(c)) != LikeResult(s, p, None);
    } else {
      UnusedEscape(p, c);
    }
  }

  lemma TooFewToMatch(s: string, ts: seq<Token>, c: char)
    ensures Occurrences(c, s) < Demanded(c, ts) ==> !Matches(s, ts)
  {
    if Matches(s, ts) { MatchSuppliesDemand(s, ts, c); }
  }

  lemma {:induction false} MatchesWithoutCase(lower: char -> char, s: string, ts: seq<Token>)
    requires Matches(s, ts)
    ensures MatchesNoCase(lower, s, ts)
    decreases |s| + |ts|
  {
    if ts == [] {
    } else {
      match ts[0]
      case AnyString =>
        if Matches(s, ts[1..]) { MatchesWithoutCase(lower, s, ts[1..]); } else { MatchesWithoutCase(lower, s[1..], ts); }
      case AnyChar => MatchesWithoutCase(lower, s[1..], ts[1..]);
      case Literally(_) => MatchesWithoutCase(lower, s[1..], ts[1..]);
    }
  }

  lemma {:induction false} LoweringKeepsOccurrences(lower: char -> char, s: string, c: char)
    requires Caseless(lower, Some(c))
    ensures Occurrences(c, LowerString(lower, s)) == Occurrences(c, s)
  {
    if s == "" {
    } else {
      LoweringKeepsOccurrences(lower, s[1..], c);
      assert LowerString(lower, s)[1..] == LowerString(lower, s[1..]);
    }
  }

  /** A string on which a pattern that uses its escape goes wrong when lowered and read without one. */
  lemma UnescapedILikeFails(lower: char -> char, p: string, c: char) returns (s: string)
    requires KeepsWildcards(lower) && Caseless(lower, Some(c)) && c != '%' && c != '_' && c in p
    ensures LikeResult(LowerString(lower, s), LowerString(lower, p), None) != ILikeResult(lower, s, p, Some(c))
  {
    var filler := if c == 'a' then 'b' else 'a';
    var lp := LowerString(lower, p);
    DemandWithoutEscape(lp, c);
    LoweringKeepsOccurrences(lower, p, c);
    OccurrencesPositive(c, p);
    s := if Tokens(p, Some(c)).Some? then Shortest(Tokens(p, Some(c)).value, filler) else "";
    if Tokens(p, Some(c)).Some? {
      var ts := Tokens(p, Some(c)).value;
      DemandWithEscape(p, c);
      ShortestMatches(ts, filler, c);
      MatchesWithoutCase(lower, s, ts);
      LoweringKeepsOccurrences(lower, s, c);
      TooFewToMatch(LowerString(lower, s), Tokens(lp, None).value, c);
    }
  }

  /**
    The ILIKE rewrite between engines with different default escapes: `lower(x) LIKE lower(p)` read
    without an escape is `x ILIKE p` read with the escape `c`, on every string, exactly when the
    pattern does not contain `c`.
   */
  lemma UnescapedILikeExactly(lower: char -> char, p: string, c: char)
    requires KeepsWildcards(lower) && Caseless(lower, Some(c)) && c != '%' && c != '_'
    ensures (forall s :: LikeResult(LowerString(lower, s), LowerString(lower, p), None) == ILikeResult(lower, s, p, Some(c)))
       <==> c !in p
  {
    if c in p {
      var s := UnescapedILikeFails(lower, p, c);
    } else {
      UnusedEscape(p, c);
      forall s
        ensures LikeResult(LowerString(lower, s), LowerString(lower, p), None) == ILikeResult(lower, s, p, Some(c))
      {
        ILikeIsLikeOnLowered(lower, s, p, None);
      }
    }
  }
}
