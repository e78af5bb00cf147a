/** What of a Trino error message reaches the client: `sanitise_for_client` and its parts. */
module ErrorText {
  import opened Numerals
  import opened Texts
  import opened Utf8

  const MAX_CLIENT_ERROR_LEN := 512

  const HTTPS := "https://"
  const HTTP := "http://"
  const TAB_FRAME := "\n\tat "
  const SPACE_FRAME := "\n  at "
  const MASK := "<trino>"
  const ELLIPSIS := '\U{2026}'

  // ---------------------------------------------------------------- stack traces

  /** Everything before the first stack frame line; tab-indented frames are looked for first. */
  function CutTrace(s: string): string {
    var tab := FindFrom(s, TAB_FRAME, 0);
    var spaces := FindFrom(s, SPACE_FRAME, 0);
    if tab < |s| then s[..tab] else s[..spaces]
  }

  /**
    Where the message is cut: nowhere if no line of it looks like a stack frame, otherwise at the first
    tab-indented frame, or at the first space-indented one if there is no other.
   */
  lemma {:induction false} CutsAtFrameExactly(s: string)
    ensures CutTrace(s) == s[..|CutTrace(s)|]
    ensures NoFrames(s) <==> CutTrace(s) == s
    ensures (exists j: nat :: OccursAt(s, TAB_FRAME, j)) ==> FirstAt(s, TAB_FRAME, |CutTrace(s)|)
    ensures (forall j: nat :: !OccursAt(s, TAB_FRAME, j)) && (exists j: nat :: OccursAt(s, SPACE_FRAME, j)) ==>
              FirstAt(s, SPACE_FRAME, |CutTrace(s)|)
  {
    assert s[..|s|] == s;
    FoundExactly(s, TAB_FRAME);
    FoundExactly(s, SPACE_FRAME);
  }

  predicate FirstAt(s: string, p: string, n: nat) {
    OccursAt(s, p, n) && forall j :: 0 <= j < n ==> !OccursAt(s, p, j)
  }

  lemma {:induction false} FoundExactly(s: string, p: string)
    requires p != ""
    ensures FindFrom(s, p, 0) < |s| <==> exists j: nat :: OccursAt(s, p, j)
    ensures FindFrom(s, p, 0) < |s| ==> FirstAt(s, p, FindFrom(s, p, 0))
  {
  }

  /** No line of the text looks like a stack frame. */
  ghost predicate NoFrames(s: string) {
    forall j: nat :: !OccursAt(s, TAB_FRAME, j) && !OccursAt(s, SPACE_FRAME, j)
  }

  lemma FindInPrefix(s: string, n: nat, p: string)
    requires n <= |s| && p != ""
    ensures (forall j: nat :: !OccursAt(s[..n], p, j)) <==> FindFrom(s, p, 0) + |p| > n
  {
    var a, k := s[..n], FindFrom(s, p, 0);
    assert a <= s;
    forall j: nat | j + |p| <= n
      ensures OccursAt(s, p, j) <==> OccursAt(a, p, j)
    {
      PrefixOccurrence(a, s, p, j);
    }
    if k + |p| <= n { assert OccursAt(a, p, k); }
  }

  /**
    The cut leaves no stack frame exactly when no space-indented frame comes before the first
    tab-indented one, which alone decides where to cut.
   */
  lemma NoFramesLeftExactly(s: string)
    ensures CutTrace(s) <= s
    ensures NoFrames(CutTrace(s))
       <==> !(FindFrom(s, TAB_FRAME, 0) < |s| && FindFrom(s, SPACE_FRAME, 0) + |SPACE_FRAME| <= FindFrom(s, TAB_FRAME, 0))
  {
    var n := |CutTrace(s)|;
    assert CutTrace(s) == s[..n];
    FindInPrefix(s, n, TAB_FRAME);
    FindInPrefix(s, n, SPACE_FRAME);
  }

  /** A failing input: the space-indented frame stays. */
  lemma SpaceFrameFails()
    ensures CutTrace("x\n  at a\n\tat b") == "x\n  at a" && !NoFrames("x\n  at a")
  {
    var s := "x\n  at a\n\tat b";
    assert OccursAt(s, TAB_FRAME, 8);
    forall j | 0 <= j < 8
      ensures !OccursAt(s, TAB_FRAME, j)
    {
      assert if j == 1 then s[j + 1] != TAB_FRAME[1] else s[j + 0] != TAB_FRAME[0];
    }
    FindIs(s, TAB_FRAME, 0, 8);
    assert s[..8] == "x\n  at a";
    assert OccursAt("x\n  at a", SPACE_FRAME, 1);
  }

  // ---------------------------------------------------------------- Java exception prefixes

  predicate LooksLikeException(p: string) {
    && (StartsWith(p, "io.") || StartsWith(p, "com.") || StartsWith(p, "java.") || StartsWith(p, "org."))
    && (EndsWith(p, "Exception") || EndsWith(p, "Error"))
  }

  /** A package prefix and the last word of an exception class, as they are spelled. */
  predicate IsPackage(p: string) { p == "io." || p == "com." || p == "java." || p == "org." }

  predicate IsThrowable(p: string) { p == "Exception" || p == "Error" }

  predicate Spelled(p: string, package: string, middle: string, word: string) {
    IsPackage(package) && IsThrowable(word) && p == package + middle + word
  }

  /** The fully qualified name of an exception class. */
  ghost predicate ExceptionName(p: string) {
    exists package, middle, word :: Spelled(p, package, middle, word)
  }

  lemma {:induction false} SpelledParts(p: string, package: string, word: string)
    requires IsPackage(package) && IsThrowable(word) && StartsWith(p, package) && EndsWith(p, word)
    ensures ExceptionName(p)
  {
    var n := |package| - 1;
    assert package[n] == '.' && p[n] == p[..|package|][n];
    assert forall i :: 0 <= i < |word| ==> word[i] != '.';
    assert forall i :: |p| - |word| <= i < |p| ==> p[i] == p[|p| - |word|..][i - (|p| - |word|)];
    assert n < |p| - |word|;
    var middle := p[|package|..|p| - |word|];
    assert p == p[..|package|] + middle + p[|p| - |word|..];
    NamedBy(p, package, middle, word);
  }

  lemma {:induction false} NamedBy(p: string, package: string, middle: string, word: string)
    requires Spelled(p, package, middle, word)
    ensures ExceptionName(p)
  {
  }

  lemma {:induction false} SpelledLooksLike(p: string, package: string, middle: string, word: string)
    requires Spelled(p, package, middle, word)
    ensures LooksLikeException(p)
  {
    assert p[..|package|] == package && p[|p| - |word|..] == word;
    assert StartsWith(p, package) && EndsWith(p, word);
  }

  /** The test by prefix and suffix finds exactly the names spelled that way. */
  lemma {:induction false} ExceptionNamesExactly(p: string)
    ensures LooksLikeException(p) <==> ExceptionName(p)
  {
    if LooksLikeException(p) { LookalikeIsSpelled(p); }
    if ExceptionName(p) {
      var package, middle, word :| Spelled(p, package, middle, word);
      SpelledLooksLike(p, package, middle, word);
    }
  }

  lemma {:induction false} LookalikeIsSpelled(p: string)
    requires LooksLikeException(p)
    ensures ExceptionName(p)
  {
    var package := PackageOf(p);
    var word := ThrowableOf(p);
    SpelledParts(p, package, word);
  }

  lemma {:induction false} PackageOf(p: string) returns (package: string)
    requires LooksLikeException(p)
    ensures IsPackage(package) && StartsWith(p, package)
  {
    package := if StartsWith(p, "io.") then "io." else if StartsWith(p, "com.") then "com."
               else if StartsWith(p, "java.") then "java." else "org.";
  }

  lemma {:induction false} ThrowableOf(p: string) returns (word: string)
    requires LooksLikeException(p)
    ensures IsThrowable(word) && EndsWith(p, word)
  {
    word := if EndsWith(p, "Exception") then "Exception" else "Error";
  }

  /** `strip_java_exception_prefix` */
  function StripPrefix(s: string): (r: string)
    ensures r == s || |r| < |s|
  {
    var colon := FindFrom(s, ": ", 0);
    if colon < |s| && LooksLikeException(s[..colon]) then TrimStart(s[colon + 2..]) else s
  }

  predicate IsSuffix(r: string, s: string) { |r| <= |s| && r == s[|s| - |r|..] }

  lemma StripPrefixIsSuffix(s: string)
    ensures IsSuffix(StripPrefix(s), s)
  {
    var colon := FindFrom(s, ": ", 0);
    if colon < |s| && LooksLikeException(s[..colon]) {
      SuffixOfSuffix(s, s[colon + 2..], TrimStart(s[colon + 2..]));
    } else {
      assert s[0..] == s;
    }
  }

  lemma SuffixOfSuffix(s: string, t: string, r: string)
    requires IsSuffix(t, s) && IsSuffix(r, t)
    ensures IsSuffix(r, s)
  {
  }

  /** Stripping until nothing changes. */
  function StripAll(s: string): string
    decreases |s|
  {
    if StripPrefix(s) == s then s else StripAll(StripPrefix(s))
  }

  method StripLoop(s: string) returns (r: string)
    ensures r == StripAll(s)
  {
    r := s;
    var next := StripPrefix(r);
    while next != r
      invariant next == StripPrefix(r) && StripAll(r) == StripAll(s)
      decreases |r|
    {
      r := next;
      next := StripPrefix(r);
    }
  }

  lemma {:induction false} StripEndsAtFixpoint(s: string)
    ensures StripPrefix(StripAll(s)) == StripAll(s)
    decreases |s|
  {
    if StripPrefix(s) != s { StripEndsAtFixpoint(StripPrefix(s)); }
  }

  /** The loop ends at a fixpoint, which is a suffix of its input. */
  lemma {:induction false} StripEndsAtSuffixFixpoint(s: string)
    ensures StripPrefix(StripAll(s)) == StripAll(s)
    ensures IsSuffix(StripAll(s), s)
    decreases |s|
  {
    StripEndsAtFixpoint(s);
    StripPrefixIsSuffix(s);
    if StripPrefix(s) != s {
      StripEndsAtSuffixFixpoint(StripPrefix(s));
      SuffixOfSuffix(s, StripPrefix(s), StripAll(s));
    }
  }

  /** An exception class name: nothing in it reads as the end of the name. */
  ghost predicate IsWrapper(p: string) {
    ExceptionName(p) && forall j :: 0 <= j < |p| ==> !OccursAt(p, ": ", j)
  }

  /** At `n` an exception name ends in a colon and a space, the first of the text, and white space reaches exactly up to `m`. */
  ghost predicate UnwrapsAt(s: string, n: nat, m: nat) {
    && n + 2 <= m <= |s| && s[n] == ':' && s[n + 1] == ' '
    && NoColonBefore(s, n)
    && ExceptionName(s[..n])
    && SpacesTo(s, n + 2, m)
  }

  ghost predicate NoColonBefore(s: string, n: nat) {
    forall j :: 0 <= j < n && j + 1 < |s| ==> !(s[j] == ':' && s[j + 1] == ' ')
  }

  /** The white space of `s` from `k` on ends exactly at `m`. */
  ghost predicate SpacesTo(s: string, k: nat, m: nat)
    requires k <= m <= |s|
  {
    (forall i :: k <= i < m ==> IsSpace(s[i])) && (m < |s| ==> !IsSpace(s[m]))
  }

  ghost predicate Unwrappable(s: string) { exists n: nat, m: nat :: UnwrapsAt(s, n, m) }

  lemma {:induction false} TrimStartDropsSpaces(s: string)
    ensures forall i :: 0 <= i < |s| - |TrimStart(s)| ==> IsSpace(s[i])
  {
    if s == "" {
    } else if IsSpace(s[0]) {
      TrimStartDropsSpaces(s[1..]);
      assert forall i :: 1 <= i < |s| - |TrimStart(s)| ==> s[i] == s[1..][i - 1];
    }
  }

  lemma {:induction false} ColonAt(s: string, n: nat)
    ensures OccursAt(s, ": ", n) <==> n + 2 <= |s| && s[n] == ':' && s[n + 1] == ' '
  {
    assert ": "[0] == ':' && ": "[1] == ' ';
    if n + 2 <= |s| { assert s[n + 0] == s[n]; }
  }

  lemma {:induction false} StripUnwraps(s: string) returns (n: nat, m: nat)
    requires StripPrefix(s) != s
    ensures UnwrapsAt(s, n, m) && StripPrefix(s) == s[m..]
  {
    n := FindFrom(s, ": ", 0);
    FirstColonFound(s);
    StripForm(s, n);
    m := TrimmedAfter(s, n + 2, StripPrefix(s));
    PrefixEnds(s, n, m);
  }

  lemma {:induction false} PrefixEnds(s: string, n: nat, m: nat)
    requires n + 2 <= m <= |s| && s[n] == ':' && s[n + 1] == ' '
    requires ExceptionName(s[..n]) && SpacesTo(s, n + 2, m)
    requires NoColonBefore(s, n)
    ensures UnwrapsAt(s, n, m)
  {
  }

  lemma {:induction false} StripForm(s: string, n: nat)
    requires StripPrefix(s) != s && n == FindFrom(s, ": ", 0)
    ensures n + 2 <= |s| && ExceptionName(s[..n]) && StripPrefix(s) == TrimStart(s[n + 2..])
  {
    assert n < |s| && LooksLikeException(s[..n]);
    LookalikeIsSpelled(s[..n]);
  }

  lemma {:induction false} FirstColonFound(s: string)
    ensures var n := FindFrom(s, ": ", 0);
            && (n < |s| ==> n + 2 <= |s| && s[n] == ':' && s[n + 1] == ' ')
            && NoColonBefore(s, n)
  {
    var n := FindFrom(s, ": ", 0);
    ColonAt(s, n);
    forall j | 0 <= j < n && j + 1 < |s|
      ensures !(s[j] == ':' && s[j + 1] == ' ')
    {
      ColonAt(s, j);
    }
  }

  lemma {:induction false} TrimmedAfter(s: string, k: nat, r: string) returns (m: nat)
    requires k <= |s| && r == TrimStart(s[k..])
    ensures k <= m <= |s| && r == s[m..] && SpacesTo(s, k, m)
  {
    TrimStartDropsSpaces(s[k..]);
    SpacesBefore(s, k, r);
    m := |s| - |r|;
  }

  lemma {:induction false} SpacesBefore(s: string, k: nat, r: string)
    requires k <= |s| && |r| <= |s| - k && r == s[k..][|s| - k - |r|..]
    requires forall i :: 0 <= i < |s| - k - |r| ==> IsSpace(s[k..][i])
    requires r != "" ==> !IsSpace(r[0])
    ensures r == s[|s| - |r|..] && SpacesTo(s, k, |s| - |r|)
  {
    assert r == s[|s| - |r|..];
    forall i | k <= i < |s| - |r| ensures IsSpace(s[i]) { assert s[i] == s[k..][i - k]; }
  }

  lemma {:induction false} UnwrappedStrips(s: string, n: nat, m: nat)
    requires UnwrapsAt(s, n, m)
    ensures StripPrefix(s) != s
  {
    ColonAt(s, n);
    forall j | 0 <= j < n
      ensures !OccursAt(s, ": ", j)
    {
      ColonAt(s, j);
    }
    FindIs(s, ": ", 0, n);
    ExceptionNamesExactly(s[..n]);
  }

  lemma {:induction false} UnwrappableExactly(s: string)
    ensures StripPrefix(s) != s <==> Unwrappable(s)
  {
    if StripPrefix(s) != s { var n, m := StripUnwraps(s); }
    if Unwrappable(s) {
      var n: nat, m: nat :| UnwrapsAt(s, n, m);
      UnwrappedStrips(s, n, m);
    }
  }

  /** `r` is what remains of `s` when exception names are taken off its front, with the colon and the white space after each. */
  ghost predicate Unwraps(s: string, r: string)
    decreases |s|
  {
    r == s || exists n: nat, m: nat :: UnwrapsAt(s, n, m) && Unwraps(s[m..], r)
  }

  /** Stripping takes off exception names and nothing else, and leaves none at the front. */
  lemma {:induction false} StrippingUnwraps(s: string)
    ensures Unwraps(s, StripAll(s)) && !Unwrappable(StripAll(s))
    decreases |s|
  {
    UnwrappableExactly(s);
    if StripPrefix(s) == s {
    } else {
      var n, m := StripUnwraps(s);
      StrippingUnwraps(s[m..]);
    }
  }

  function Wrap(ps: seq<string>, msg: string): string {
    if ps == [] then msg else ps[0] + ": " + Wrap(ps[1..], msg)
  }

  lemma {:induction false} FindIs(s: string, p: string, i: nat, k: nat)
    requires i <= k < |s| && OccursAt(s, p, k) && forall j :: i <= j < k ==> !OccursAt(s, p, j)
    ensures FindFrom(s, p, i) == k
    decreases k - i
  {
    if i < k { FindIs(s, p, i + 1, k); }
  }

  lemma FirstColon(p: string, rest: string)
    requires IsWrapper(p)
    ensures FindFrom(p + ": " + rest, ": ", 0) == |p|
  {
    var s := p + ": " + rest;
    assert s[|p|] == ':' && s[|p| + 1] == ' ';
    forall j | 0 <= j < |p|
      ensures !OccursAt(s, ": ", j)
    {
      assert !OccursAt(p, ": ", j);
      assert s[j] == p[j] && s[j + 1] == (if j + 1 < |p| then p[j + 1] else ':');
    }
    FindIs(s, ": ", 0, |p|);
  }

  lemma StripsOneWrapper(p: string, rest: string)
    requires IsWrapper(p)
    ensures StripPrefix(p + ": " + rest) == TrimStart(rest)
  {
    var s := p + ": " + rest;
    ExceptionNamesExactly(p);
    FirstColon(p, rest);
    assert s[..|p|] == p && s[|p| + 2..] == rest;
  }

  /** A text that starts with something visible. */
  predicate Visible(s: string) { s != "" && !IsSpace(s[0]) }

  lemma WrappersAreVisible(p: string)
    requires LooksLikeException(p)
    ensures Visible(p)
  {
    assert StartsWith(p, "io.") ==> p[0] == p[..3][0] == 'i';
    assert StartsWith(p, "com.") ==> p[0] == p[..4][0] == 'c';
    assert StartsWith(p, "java.") ==> p[0] == p[..5][0] == 'j';
    assert StartsWith(p, "org.") ==> p[0] == p[..4][0] == 'o';
  }

  /** However many exception classes a message is wrapped in, exactly the wrappers are removed. */
  lemma {:induction false} StripsExactlyTheWrappers(ps: seq<string>, msg: string)
    requires forall i :: 0 <= i < |ps| ==> IsWrapper(ps[i])
    requires Visible(msg) && !Unwrappable(msg)
    ensures StripAll(Wrap(ps, msg)) == msg && Visible(Wrap(ps, msg))
  {
    UnwrappableExactly(msg);
    if ps == [] {
    } else {
      StripsExactlyTheWrappers(ps[1..], msg);
      var rest := Wrap(ps[1..], msg);
      ExceptionNamesExactly(ps[0]);
      WrappersAreVisible(ps[0]);
      StripsOneWrapper(ps[0], rest);
      assert TrimStart(rest) == rest;
      assert |Wrap(ps, msg)| > |rest|;
    }
  }

  // ---------------------------------------------------------------- URL hosts

  predicate EndsHost(c: char) { c == '/' || c == ')' || c == ',' || IsSpace(c) }

  function HostEnd(s: string, i: nat): (k: nat)
    requires i <= |s|
    ensures i <= k <= |s| && (k < |s| ==> EndsHost(s[k])) && forall e :: i <= e < k ==> !EndsHost(s[e])
    decreases |s| - i
  {
    if i == |s| || EndsHost(s[i]) then i else HostEnd(s, i + 1)
  }

  datatype Url = NoUrl | Url(at: nat, scheme: string)

  /** The URL treated next: the first https one, and only if there is none the first http one. */
  function NextUrl(s: string): (u: Url)
    ensures u.Url? ==> (u.scheme == HTTPS || u.scheme == HTTP) && u.at + |u.scheme| <= |s| && OccursAt(s, u.scheme, u.at)
  {
    var i, j := FindFrom(s, HTTPS, 0), FindFrom(s, HTTP, 0);
    if i < |s| then Url(i, HTTPS) else if j < |s| then Url(j, HTTP) else NoUrl
  }

  /** What is still to be treated after a URL's host. */
  function AfterHost(s: string, u: Url): (r: string)
    requires u.Url? && u.at + |u.scheme| <= |s|
    ensures |r| <= |s| - |u.scheme|
  {
    s[HostEnd(s, u.at + |u.scheme|)..]
  }

  function MaskUrlHosts(s: string): string
    decreases |s|
  {
    match NextUrl(s)
    case NoUrl => s
    case Url(i, scheme) => s[..i] + scheme + MASK + MaskUrlHosts(AfterHost(s, NextUrl(s)))
  }

  /** `mask_url_hosts` as a loop over what is left of the text. */
  method MaskLoop(s: string) returns (out: string)
    ensures out == MaskUrlHosts(s)
  {
    out := "";
    var rest := s;
    while NextUrl(rest).Url?
      invariant out + MaskUrlHosts(rest) == MaskUrlHosts(s)
      decreases |rest|
    {
      var u := NextUrl(rest);
      Regroup(out, rest[..u.at], u.scheme, MaskUrlHosts(AfterHost(rest, u)));
      out := out + rest[..u.at];
      out := out + u.scheme;
      out := out + MASK;
      rest := AfterHost(rest, u);
    }
    out := out + rest;
  }

  lemma Regroup(out: string, a: string, scheme: string, tail: string)
    ensures out + (a + scheme + MASK + tail) == out + a + scheme + MASK + tail
  {
  }

  predicate HostEndsAt(t: string, k: nat) { k >= |t| || EndsHost(t[k]) }

  /** Every occurrence of the scheme `p` is followed by the mask as its whole host. */
  ghost predicate MaskedFor(t: string, p: string) {
    forall j: nat :: OccursAt(t, p, j) ==> OccursAt(t, MASK, j + |p|) && HostEndsAt(t, j + |p| + |MASK|)
  }

  /** The same for a text that goes on with another URL: hosts must end inside it. */
  ghost predicate MaskedAheadFor(a: string, p: string) {
    forall j: nat :: OccursAt(a, p, j) ==>
      OccursAt(a, MASK, j + |p|) && j + |p| + |MASK| < |a| && EndsHost(a[j + |p| + |MASK|])
  }

  ghost predicate MaskedAhead(a: string) {
    MaskedAheadFor(a, HTTPS) && MaskedAheadFor(a, HTTP)
  }

  /** Every URL in the text has its host masked. */
  ghost predicate Masked(t: string) {
    MaskedFor(t, HTTPS) && MaskedFor(t, HTTP)
  }

  /** Some http URL stands unmasked before an https URL, outside the host of an earlier https URL. */
  ghost predicate HttpBeforeHttps(s: string)
    decreases |s|
  {
    var u := NextUrl(s);
    u.Url? && (!MaskedAhead(s[..u.at]) || HttpBeforeHttps(AfterHost(s, u)))
  }

  /** `h` occurs in a scheme only as its first letter. */
  predicate OneH(p: string) { p != "" && p[0] == 'h' && forall d :: 1 <= d < |p| ==> p[d] != 'h' }

  predicate NoH(p: string) { forall d :: 0 <= d < |p| ==> p[d] != 'h' }

  lemma SchemeFacts()
    ensures OneH(HTTPS) && OneH(HTTP) && NoH(MASK)
    ensures |HTTPS| == 8 && |HTTP| == 7 && |MASK| == 7
    ensures HTTPS[4] == 's' && HTTP[4] == ':'
  {
  }

  /** Where a scheme can occur in a text with a masked URL in the middle. */
  lemma OccurrencesAround(a: string, scheme: string, r: string, p: string, j: nat)
    requires (scheme == HTTPS || scheme == HTTP) && (p == HTTPS || p == HTTP)
    ensures var t := a + scheme + MASK + r;
            var end := |a| + |scheme| + |MASK|;
            OccursAt(t, p, j) <==> OccursAt(a, p, j) || (j == |a| && p == scheme) || (j >= end && OccursAt(r, p, j - end))
  {
    SchemeFacts();
    var t := a + scheme + MASK + r;
    var end := |a| + |scheme| + |MASK|;
    if j < |a| {
      if j + |p| <= |a| {
        assert forall e :: j <= e < j + |p| ==> t[e] == a[e];
      } else {
        // a scheme reaching over the border would have an h after its first letter
        assert t[|a|] == 'h' && p[|a| - j] != 'h' && t[j + (|a| - j)] == t[|a|];
      }
    } else if j == |a| {
      assert forall e :: j <= e < j + |scheme| ==> t[e] == scheme[e - j];
      assert t[j + 4] == scheme[4];
    } else if j < |a| + |scheme| {
      assert j < |t| && t[j] == scheme[j - |a|];
      assert t[j + 0] == t[j];
    } else if j < end {
      assert t[j] == MASK[j - |a| - |scheme|];
      assert t[j + 0] == t[j];
    } else {
      SuffixOccurrence(a + scheme + MASK, r, p, j);
    }
  }

  lemma SuffixOccurrence(q: string, r: string, p: string, j: nat)
    requires j >= |q|
    ensures OccursAt(q + r, p, j) <==> OccursAt(r, p, j - |q|)
  {
    var t := q + r;
    if j + |p| <= |t| {
      assert forall e :: j <= e < j + |p| ==> t[e] == r[e - |q|];
    }
  }

  lemma PrefixOccurrence(a: string, t: string, p: string, j: nat)
    requires a <= t && j + |p| <= |a|
    ensures OccursAt(t, p, j) <==> OccursAt(a, p, j)
  {
    assert forall e :: j <= e < j + |p| ==> t[e] == a[e];
  }

  lemma MaskAtBorder(a: string, scheme: string, r: string, k: nat)
    requires (scheme == HTTPS || scheme == HTTP) && k <= |a|
    ensures OccursAt(a + scheme + MASK + r, MASK, k) <==> OccursAt(a, MASK, k)
  {
    SchemeFacts();
    var t := a + scheme + MASK + r;
    if k + |MASK| <= |a| {
      assert a <= t;
      PrefixOccurrence(a, t, MASK, k);
    } else {
      assert t[|a|] == 'h' && MASK[|a| - k] != 'h' && t[k + (|a| - k)] == t[|a|];
    }
  }

  lemma MaskAfterScheme(a: string, scheme: string, r: string)
    ensures OccursAt(a + scheme + MASK + r, MASK, |a| + |scheme|)
  {
    var t, k := a + scheme + MASK + r, |a| + |scheme|;
    assert forall e :: k <= e < k + |MASK| ==> t[e] == MASK[e - k];
  }

  lemma WholeToParts(a: string, scheme: string, r: string, p: string)
    requires (scheme == HTTPS || scheme == HTTP) && (p == HTTPS || p == HTTP)
    requires MaskedFor(a + scheme + MASK + r, p)
    ensures MaskedAheadFor(a, p) && MaskedFor(r, p)
  {
    forall j: nat | OccursAt(a, p, j)
      ensures OccursAt(a, MASK, j + |p|) && j + |p| + |MASK| < |a| && EndsHost(a[j + |p| + |MASK|])
    {
      MaskedInFront(a, scheme, r, p, j);
    }
    forall j: nat | OccursAt(r, p, j)
      ensures OccursAt(r, MASK, j + |p|) && HostEndsAt(r, j + |p| + |MASK|)
    {
      MaskedBehind(a, scheme, r, p, j);
    }
  }

  lemma MaskedInFront(a: string, scheme: string, r: string, p: string, j: nat)
    requires (scheme == HTTPS || scheme == HTTP) && (p == HTTPS || p == HTTP)
    requires MaskedFor(a + scheme + MASK + r, p) && OccursAt(a, p, j)
    ensures OccursAt(a, MASK, j + |p|) && j + |p| + |MASK| < |a| && EndsHost(a[j + |p| + |MASK|])
  {
    var t, k := a + scheme + MASK + r, j + |p|;
    OccurrencesAround(a, scheme, r, p, j);
    MaskAtBorder(a, scheme, r, k);
    SchemeFacts();
    assert HostEndsAt(t, k + |MASK|);
    assert t[|a|] == scheme[0] == 'h';
  }

  lemma MaskedBehind(a: string, scheme: string, r: string, p: string, j: nat)
    requires (scheme == HTTPS || scheme == HTTP) && (p == HTTPS || p == HTTP)
    requires MaskedFor(a + scheme + MASK + r, p) && OccursAt(r, p, j)
    ensures OccursAt(r, MASK, j + |p|) && HostEndsAt(r, j + |p| + |MASK|)
  {
    var q := a + scheme + MASK;
    OccurrencesAround(a, scheme, r, p, j + |q|);
    assert OccursAt(q + r, MASK, (j + |q|) + |p|);
    SuffixOccurrence(q, r, MASK, (j + |q|) + |p|);
    SuffixHostEnd(q, r, j + |p| + |MASK|);
  }

  lemma SuffixHostEnd(q: string, r: string, k: nat)
    ensures HostEndsAt(q + r, k + |q|) <==> HostEndsAt(r, k)
  {
  }

  lemma PartsToWhole(a: string, scheme: string, r: string, p: string)
    requires (scheme == HTTPS || scheme == HTTP) && (p == HTTPS || p == HTTP)
    requires MaskedAheadFor(a, p) && MaskedFor(r, p) && HostEndsAt(r, 0)
    ensures MaskedFor(a + scheme + MASK + r, p)
  {
    var t := a + scheme + MASK + r;
    forall j: nat | OccursAt(t, p, j)
      ensures OccursAt(t, MASK, j + |p|) && HostEndsAt(t, j + |p| + |MASK|)
    {
      MaskedOccurrence(a, scheme, r, p, j);
    }
  }

  lemma MaskedOccurrence(a: string, scheme: string, r: string, p: string, j: nat)
    requires (scheme == HTTPS || scheme == HTTP) && (p == HTTPS || p == HTTP)
    requires MaskedAheadFor(a, p) && MaskedFor(r, p) && HostEndsAt(r, 0) && OccursAt(a + scheme + MASK + r, p, j)
    ensures OccursAt(a + scheme + MASK + r, MASK, j + |p|) && HostEndsAt(a + scheme + MASK + r, j + |p| + |MASK|)
  {
    var q := a + scheme + MASK;
    OccurrencesAround(a, scheme, r, p, j);
    if OccursAt(a, p, j) {
      MaskAtBorder(a, scheme, r, j + |p|);
      assert (q + r)[j + |p| + |MASK|] == a[j + |p| + |MASK|];
    } else if j == |a| && p == scheme {
      MaskAfterScheme(a, scheme, r);
      SuffixHostEnd(q, r, 0);
    } else {
      var i := j - |q|;
      assert OccursAt(r, MASK, i + |p|);
      SuffixOccurrence(q, r, MASK, j + |p|);
      SuffixHostEnd(q, r, i + |p| + |MASK|);
    }
  }

  /** The masked URL in the middle neither adds nor hides an unmasked one. */
  lemma MaskedAround(a: string, scheme: string, r: string)
    requires (scheme == HTTPS || scheme == HTTP) && HostEndsAt(r, 0)
    ensures Masked(a + scheme + MASK + r) <==> MaskedAhead(a) && Masked(r)
  {
    if Masked(a + scheme + MASK + r) {
      WholeToParts(a, scheme, r, HTTPS);
      WholeToParts(a, scheme, r, HTTP);
    }
    if MaskedAhead(a) && Masked(r) {
      PartsToWhole(a, scheme, r, HTTPS);
      PartsToWhole(a, scheme, r, HTTP);
    }
  }

  lemma NotFound(s: string, p: string)
    requires p != "" && FindFrom(s, p, 0) == |s|
    ensures forall j: nat :: !OccursAt(s, p, j)
  {
  }

  lemma NoUrlIsMasked(s: string)
    requires NextUrl(s).NoUrl?
    ensures Masked(s)
  {
    SchemeFacts();
    NotFound(s, HTTPS);
    NotFound(s, HTTP);
  }

  /** Masking changes nothing at the end of a host. */
  lemma MaskKeepsHostEnd(x: string)
    requires HostEndsAt(x, 0)
    ensures HostEndsAt(MaskUrlHosts(x), 0)
  {
    SchemeFacts();
    var u := NextUrl(x);
    if u.Url? {
      assert x[u.at] == u.scheme[0] == 'h' by { assert x[u.at + 0] == u.scheme[0]; }
      assert u.at > 0;
      StartsWithFirst(x[..u.at], u.scheme, MASK, MaskUrlHosts(AfterHost(x, u)));
    }
  }

  /**
    Masking is complete exactly when no unmasked http URL stands before an https URL: the
    search for https skips over it.
   */
  lemma {:induction false} HostsAreMaskedExactly(s: string)
    ensures Masked(MaskUrlHosts(s)) <==> !HttpBeforeHttps(s)
    decreases |s|
  {
    var u := NextUrl(s);
    match u
    case NoUrl => NoUrlIsMasked(s);
    case Url(i, scheme) =>
      SchemeFacts();
      HostsAreMaskedExactly(AfterHost(s, u));
      MaskKeepsHostEnd(AfterHost(s, u));
      MaskedAround(s[..i], scheme, MaskUrlHosts(AfterHost(s, u)));
  }

  /** No http URL comes before an https URL anywhere in the text. */
  ghost predicate HttpsFirst(s: string) {
    forall i: nat, j: nat :: i < j && OccursAt(s, HTTP, i) ==> !OccursAt(s, HTTPS, j)
  }

  lemma BeforeFirstUrlIsMasked(s: string)
    requires HttpsFirst(s) && NextUrl(s).Url?
    ensures MaskedAhead(s[..NextUrl(s).at])
  {
    SchemeFacts();
    var u := NextUrl(s);
    var a := s[..u.at];
    assert a <= s;
    forall j: nat
      ensures !OccursAt(a, HTTPS, j) && !OccursAt(a, HTTP, j)
    {
      if j + |HTTPS| <= |a| { PrefixOccurrence(a, s, HTTPS, j); }
      if j + |HTTP| <= |a| { PrefixOccurrence(a, s, HTTP, j); }
    }
  }

  /** In particular masking is complete for texts in which https URLs come first. */
  lemma {:induction false} HttpsFirstIsEnough(s: string)
    requires HttpsFirst(s)
    ensures !HttpBeforeHttps(s)
    decreases |s|
  {
    var u := NextUrl(s);
    if u.Url? {
      SchemeFacts();
      BeforeFirstUrlIsMasked(s);
      var m := HostEnd(s, u.at + |u.scheme|);
      var r := s[m..];
      assert s == s[..m] + r;
      SuffixKeepsHttpsFirst(s[..m], r);
      HttpsFirstIsEnough(r);
    }
  }

  lemma SuffixKeepsHttpsFirst(q: string, r: string)
    requires HttpsFirst(q + r)
    ensures HttpsFirst(r)
  {
    forall i: nat, j: nat | i < j && OccursAt(r, HTTP, i)
      ensures !OccursAt(r, HTTPS, j)
    {
      SuffixOccurrence(q, r, HTTP, i + |q|);
      SuffixOccurrence(q, r, HTTPS, j + |q|);
    }
  }

  /** The failing family: whatever precedes the first https URL is passed on as it is, hosts included. */
  lemma TextBeforeHttpsSurvives(s: string)
    requires FindFrom(s, HTTPS, 0) < |s|
    ensures s[..FindFrom(s, HTTPS, 0)] <= MaskUrlHosts(s)
  {
    var i := FindFrom(s, HTTPS, 0);
    var u := NextUrl(s);
    assert u == Url(i, HTTPS);
    StartsWithFirst(s[..i], HTTPS, MASK, MaskUrlHosts(AfterHost(s, u)));
  }

  lemma StartsWithFirst(a: string, b: string, c: string, d: string)
    ensures a <= a + b + c + d
  {
  }

  /** A failing input: the host of the first URL is still there. */
  lemma HttpFirstFails()
    ensures var s := "http://a https://b";
            "http://a " <= MaskUrlHosts(s) && !Masked(MaskUrlHosts(s))
  {
    var s := "http://a https://b";
    SchemeFacts();
    assert OccursAt(s, HTTPS, 9);
    FindIs(s, HTTPS, 0, 9);
    TextBeforeHttpsSurvives(s);
    var out := MaskUrlHosts(s);
    assert s[..9] == "http://a " <= out;
    assert forall e :: 0 <= e < 7 ==> out[e] == HTTP[e];
    assert OccursAt(out, HTTP, 0) && out[7] == 'a' && MASK[0] == '<';
    assert out[7 + 0] != MASK[0];
  }

  // ---------------------------------------------------------------- length

  /** The most characters whose encoding fits the budget, counting down from `n`. */
  function Fitting(s: string, budget: nat, n: nat): (k: nat)
    requires n <= |s|
    ensures k <= n
    decreases n
  {
    if n == 0 || Offset(s, n) <= budget then n else Fitting(s, budget, n - 1)
  }

  function Budget(max: nat): nat { if max < 3 then 0 else max - 3 }

  function Truncated(s: string, max: nat): string {
    if |Encode(s)| <= max then s else s[..Fitting(s, Budget(max), |s|)] + [ELLIPSIS]
  }

  lemma EllipsisBytes(s: string)
    ensures |Encode(s + [ELLIPSIS])| == |Encode(s)| + 3
    ensures Encode(s + [ELLIPSIS]) == Encode(s) + EncodeChar(ELLIPSIS)
  {
    assert (s + [ELLIPSIS])[..|s|] == s;
  }

  lemma {:induction false} FittingIs(s: string, budget: nat, n: nat, k: nat)
    requires k < n <= |s| && Offset(s, k) <= budget < Offset(s, k + 1)
    ensures Fitting(s, budget, n) == k
    decreases n
  {
    OffsetMonotone(s, k + 1, n);
    if n == k + 1 {
      assert Fitting(s, budget, k) == k;
    } else {
      FittingIs(s, budget, n - 1, k);
    }
  }

  /** `truncate_with_ellipsis` on the bytes of a string. */
  method TruncateWithEllipsis(bytes: seq<Byte>, max: nat, ghost s: string) returns (out: seq<Byte>)
    requires bytes == Encode(s)
    ensures out == Encode(Truncated(s, max))
  {
    if |bytes| <= max {
      return bytes;
    }
    var cut: nat := if max < 3 then 0 else max - 3;
    while cut > 0 && !IsCharBoundary(bytes, cut)
      invariant cut <= Budget(max) < |bytes|
      invariant forall i :: cut < i <= Budget(max) ==> !IsCharBoundary(bytes, i)
    {
      cut := cut - 1;
    }
    CutIsFitting(s, max, cut);
    out := bytes[..cut] + EncodeChar(ELLIPSIS);
  }

  lemma CutIsFitting(s: string, max: nat, cut: nat)
    requires cut <= Budget(max) < |Encode(s)| && max < |Encode(s)|
    requires IsCharBoundary(Encode(s), cut)
    requires forall i :: cut < i <= Budget(max) ==> !IsCharBoundary(Encode(s), i)
    ensures Encode(Truncated(s, max)) == Encode(s)[..cut] + EncodeChar(ELLIPSIS)
  {
    var k := BoundariesAreStarts(s, cut);
    assert s[..|s|] == s;
    assert k < |s|;
    OffsetStep(s, k);
    StartsAreBoundaries(s, k + 1);
    FittingIs(s, Budget(max), |s|, k);
    EncodePrefix(s, k);
    EllipsisBytes(s[..k]);
  }

  /**
    The cut is exact: a text that fits is kept; otherwise a whole-character prefix and an ellipsis
    remain, and one character more would not fit. The result keeps within `max` bytes exactly
    when the text fits or `max` has room for the ellipsis.
   */
  lemma TruncationIsLongestPrefix(s: string, max: nat)
    ensures |Encode(s)| <= max ==> Truncated(s, max) == s
    ensures |Encode(s)| > max ==>
              exists k :: 0 <= k < |s| && Truncated(s, max) == s[..k] + [ELLIPSIS]
                          && (max >= 3 ==> |Encode(s[..k + 1] + [ELLIPSIS])| > max)
    ensures |Encode(Truncated(s, max))| <= max <==> |Encode(s)| <= max || max >= 3
  {
    if |Encode(s)| > max { CutBounds(s, max, Fitting(s, Budget(max), |s|)); }
  }

  lemma CutBounds(s: string, max: nat, k: nat)
    requires |Encode(s)| > max && k == Fitting(s, Budget(max), |s|)
    ensures k < |s| && Truncated(s, max) == s[..k] + [ELLIPSIS]
    ensures |Encode(s[..k] + [ELLIPSIS])| <= Budget(max) + 3
    ensures |Encode(s[..k + 1] + [ELLIPSIS])| > Budget(max) + 3
  {
    assert s[..|s|] == s;
    FittingBounds(s, Budget(max), |s|);
    assert k < |s|;
    EllipsisBytes(s[..k]);
    EllipsisBytes(s[..k + 1]);
  }

  lemma {:induction false} FittingBounds(s: string, budget: nat, n: nat)
    requires n <= |s|
    ensures var k := Fitting(s, budget, n); Offset(s, k) <= budget && (k < n ==> Offset(s, k + 1) > budget)
    decreases n
  {
    if n == 0 {
      assert s[..0] == "";
    } else if Offset(s, n) > budget {
      FittingBounds(s, budget, n - 1);
    }
  }

  // ---------------------------------------------------------------- masks survive trimming and cutting

  lemma {:induction false} TrimEndDropsSpaces(s: string)
    ensures forall i :: |TrimEnd(s)| <= i < |s| ==> IsSpace(s[i])
  {
    if s != "" && IsSpace(s[|s| - 1]) { TrimEndDropsSpaces(s[..|s| - 1]); }
  }

  lemma MaskIsVisible()
    ensures forall d :: 0 <= d < |MASK| ==> !IsSpace(MASK[d]) && MASK[d] != ELLIPSIS
    ensures forall d :: 0 <= d < |HTTPS| ==> HTTPS[d] != ELLIPSIS
    ensures forall d :: 0 <= d < |HTTP| ==> HTTP[d] != ELLIPSIS
  {
  }

  lemma TrimStartKeepsMasks(s: string, p: string)
    requires MaskedFor(s, p)
    ensures MaskedFor(TrimStart(s), p)
  {
    var r := TrimStart(s);
    assert s == s[..|s| - |r|] + r;
    SuffixKeepsMasks(s[..|s| - |r|], r, p);
  }

  lemma SuffixKeepsMasks(q: string, r: string, p: string)
    requires MaskedFor(q + r, p)
    ensures MaskedFor(r, p)
  {
    forall j: nat | OccursAt(r, p, j)
      ensures OccursAt(r, MASK, j + |p|) && HostEndsAt(r, j + |p| + |MASK|)
    {
      SuffixOccurrence(q, r, p, j + |q|);
      assert OccursAt(q + r, MASK, (j + |q|) + |p|);
      SuffixOccurrence(q, r, MASK, (j + |q|) + |p|);
      SuffixHostEnd(q, r, j + |p| + |MASK|);
    }
  }

  lemma TrimEndKeepsMasks(s: string, p: string)
    requires MaskedFor(s, p)
    ensures MaskedFor(TrimEnd(s), p)
  {
    var r := TrimEnd(s);
    assert r <= s;
    TrimEndDropsSpaces(s);
    MaskIsVisible();
    forall j: nat | OccursAt(r, p, j)
      ensures OccursAt(r, MASK, j + |p|) && HostEndsAt(r, j + |p| + |MASK|)
    {
      PrefixOccurrence(r, s, p, j);
      var k := j + |p|;
      assert OccursAt(s, MASK, k);
      assert s[k + (|MASK| - 1)] == MASK[|MASK| - 1];
      PrefixOccurrence(r, s, MASK, k);
    }
  }

  /** At `k` stands the mask as a whole host, or as much of it as the cut left and then the final ellipsis. */
  ghost predicate MaskOrCut(u: string, k: nat) {
    || (OccursAt(u, MASK, k) && HostEndsAt(u, k + |MASK|))
    || exists c :: 0 <= c <= |MASK| && k <= |u| && u[k..] == MASK[..c] + [ELLIPSIS]
  }

  ghost predicate HiddenFor(u: string, p: string) {
    forall j: nat :: OccursAt(u, p, j) ==> MaskOrCut(u, j + |p|)
  }

  lemma CutKeepsHidden(s: string, n: nat, p: string)
    requires MaskedFor(s, p) && n <= |s| && (p == HTTPS || p == HTTP)
    ensures HiddenFor(s[..n] + [ELLIPSIS], p)
  {
    var a := s[..n];
    var u := a + [ELLIPSIS];
    MaskIsVisible();
    SchemeFacts();
    assert a <= s && a <= u;
    forall j: nat | OccursAt(u, p, j)
      ensures MaskOrCut(u, j + |p|)
    {
      var k := j + |p|;
      assert u[j + (|p| - 1)] == p[|p| - 1] != u[n];
      PrefixOccurrence(a, u, p, j);
      PrefixOccurrence(a, s, p, j);
      assert OccursAt(s, MASK, k);
      if k + |MASK| < n {
        assert u[k + |MASK|] == s[k + |MASK|];
        PrefixOccurrence(a, s, MASK, k);
        PrefixOccurrence(a, u, MASK, k);
      } else {
        var c := n - k;
        forall e | k <= e < n ensures s[e] == MASK[e - k] { assert s[k + (e - k)] == MASK[e - k]; }
        assert u[k..] == MASK[..c] + [ELLIPSIS];
      }
    }
  }

  lemma MaskedIsHidden(u: string, p: string)
    requires MaskedFor(u, p)
    ensures HiddenFor(u, p)
  {
  }

  // ---------------------------------------------------------------- the whole

  function Sanitised(msg: string): string {
    Truncated(Trim(MaskUrlHosts(StripAll(CutTrace(msg)))), MAX_CLIENT_ERROR_LEN)
  }

  lemma SanitisedHides(masked: string, p: string)
    requires MaskedFor(masked, p) && (p == HTTPS || p == HTTP)
    ensures HiddenFor(Truncated(Trim(masked), MAX_CLIENT_ERROR_LEN), p)
  {
    TrimStartKeepsMasks(masked, p);
    TrimEndKeepsMasks(TrimStart(masked), p);
    var s := Trim(masked);
    MaskedIsHidden(s, p);
    CutKeepsHidden(s, Fitting(s, Budget(MAX_CLIENT_ERROR_LEN), |s|), p);
  }

  lemma PrefixKeepsHttpsFirst(a: string, s: string)
    requires a <= s && HttpsFirst(s)
    ensures HttpsFirst(a)
  {
    forall i: nat, j: nat | i < j && OccursAt(a, HTTP, i)
      ensures !OccursAt(a, HTTPS, j)
    {
      if OccursAt(a, HTTPS, j) {
        PrefixOccurrence(a, s, HTTP, i);
        PrefixOccurrence(a, s, HTTPS, j);
      }
    }
  }

  /** Every message in which no http URL comes before an https URL reaches the client with all hosts hidden. */
  lemma {:induction false} NoHostOfHttpsFirstMessages(msg: string)
    requires HttpsFirst(msg)
    ensures HiddenFor(Sanitised(msg), HTTPS) && HiddenFor(Sanitised(msg), HTTP)
  {
    assert CutTrace(msg) <= msg by { NoFramesLeftExactly(msg); }
    PrefixKeepsHttpsFirst(CutTrace(msg), msg);
    StrippingKeepsHttpsFirst(CutTrace(msg));
    HttpsFirstIsEnough(StripAll(CutTrace(msg)));
    NoHostReachesTheClient(msg);
  }

  lemma {:induction false} StrippingKeepsHttpsFirst(s: string)
    requires HttpsFirst(s)
    ensures HttpsFirst(StripAll(s))
  {
    var r := StripAll(s);
    StripEndsAtSuffixFixpoint(s);
    assert s == s[..|s| - |r|] + r;
    SuffixKeepsHttpsFirst(s[..|s| - |r|], r);
  }

  /**
    End to end: unless an http URL precedes an https URL in the stripped message, every scheme the
    client gets to see is followed by the mask, or by what the final cut left of it.
   */
  lemma {:induction false} NoHostReachesTheClient(msg: string)
    requires !HttpBeforeHttps(StripAll(CutTrace(msg)))
    ensures HiddenFor(Sanitised(msg), HTTPS) && HiddenFor(Sanitised(msg), HTTP)
  {
    var stripped := StripAll(CutTrace(msg));
    HostsAreMaskedExactly(stripped);
    SanitisedHides(MaskUrlHosts(stripped), HTTPS);
    SanitisedHides(MaskUrlHosts(stripped), HTTP);
  }
}
