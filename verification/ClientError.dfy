/** `sanitise_for_client` as a whole: what of a message the client gets to see. */
module ClientError {
  import opened ErrorText
  import opened Numerals
  import opened Texts
  import opened Utf8

  // ---------------------------------------------------------------- masking

  /** The host of a URL: from the end of a scheme up to the first slash, bracket, comma or white space. */
  predicate HostAt(s: string, i: nat, m: nat) {
    && 0 < i <= m <= |s|
    && ((i >= 8 && OccursAt(s, "https://", i - 8)) || (i >= 7 && OccursAt(s, "http://", i - 7)))
    && (forall e :: i <= e < m ==> s[e] != '/' && s[e] != ')' && s[e] != ',' && !IsSpace(s[e]))
    && (m < |s| ==> s[m] == '/' || s[m] == ')' || s[m] == ',' || IsSpace(s[m]))
  }

  /** `out` is `s` with some of its hosts replaced by the mask, and is `s` everywhere else. */
  ghost predicate MasksHosts(s: string, out: string)
    decreases |s|
  {
    out == s || exists i: nat, m: nat, rest :: HostAt(s, i, m) && out == s[..i] + "<trino>" + rest && MasksHosts(s[m..], rest)
  }

  lemma {:induction false} SchemeEnds(s: string, at: nat, scheme: string)
    requires OccursAt(s, scheme, at)
    ensures s[..at + |scheme|] == s[..at] + scheme
  {
    assert forall d :: 0 <= d < |scheme| ==> s[at + d] == scheme[d];
  }

  lemma {:induction false} HostFollows(s: string, u: Url)
    requires u.Url? && (u.scheme == HTTPS || u.scheme == HTTP) && OccursAt(s, u.scheme, u.at)
    ensures u.at + |u.scheme| <= |s| && HostAt(s, u.at + |u.scheme|, HostEnd(s, u.at + |u.scheme|))
  {
    SchemeFacts();
  }

  lemma {:induction false} MaskStep(s: string, u: Url)
    requires u == NextUrl(s) && u.Url?
    ensures MaskUrlHosts(s) == s[..u.at] + u.scheme + MASK + MaskUrlHosts(s[HostEnd(s, u.at + |u.scheme|)..])
  {
  }

  lemma {:induction false} NextHost(s: string) returns (i: nat, m: nat)
    requires NextUrl(s).Url?
    ensures HostAt(s, i, m) && MaskUrlHosts(s) == s[..i] + "<trino>" + MaskUrlHosts(s[m..])
  {
    var u := NextUrl(s);
    i, m := u.at + |u.scheme|, HostEnd(s, u.at + |u.scheme|);
    HostFollows(s, u);
    SchemeEnds(s, u.at, u.scheme);
    MaskStep(s, u);
  }

  /** Masking replaces hosts and nothing else. */
  lemma {:induction false} MaskingReplacesOnlyHosts(s: string)
    ensures MasksHosts(s, MaskUrlHosts(s))
    decreases |s|
  {
    if NextUrl(s).NoUrl? {
    } else {
      var i, m := NextHost(s);
      MaskingReplacesOnlyHosts(s[m..]);
    }
  }

  ghost predicate NoUrls(s: string) {
    forall j: nat :: !OccursAt(s, "https://", j) && !OccursAt(s, "http://", j)
  }

  lemma {:induction false} TextWithoutUrlsIsKept(s: string)
    requires NoUrls(s)
    ensures MaskUrlHosts(s) == s
  {
    FoundExactly(s, HTTPS);
    FoundExactly(s, HTTP);
  }

  // ---------------------------------------------------------------- the whole

  /** Only white space is outside `x..y`, and none at its ends. */
  predicate TrimmedTo(s: string, x: nat, y: nat) {
    && x <= y <= |s| && Trimmed(s[x..y])
    && (forall i :: 0 <= i < x ==> IsSpace(s[i])) && (forall i :: y <= i < |s| ==> IsSpace(s[i]))
  }

  /** `text` is `s` if that fits, and otherwise the longest beginning of `s` that fits with an ellipsis. */
  ghost predicate CutToFit(s: string, text: string) {
    if |Encode(s)| <= 512 then text == s
    else exists n :: 0 <= n < |s| && text == s[..n] + [ELLIPSIS] && |Encode(text)| <= 512 && |Encode(s[..n + 1] + [ELLIPSIS])| > 512
  }

  /**
    Where the text sent comes from: the message up to a stack frame or its end, less the exception
    names at its front, with hosts masked, less outer white space, cut to fit.
   */
  ghost predicate Kept(msg: string, text: string, a: nat, b: nat, masked: string, x: nat, y: nat) {
    && a <= b <= |msg|
    && (b == |msg| || OccursAt(msg, TAB_FRAME, b) || OccursAt(msg, SPACE_FRAME, b))
    && Unwraps(msg[..b], msg[a..b])
    && MasksHosts(msg[a..b], masked)
    && TrimmedTo(masked, x, y)
    && CutToFit(masked[x..y], text)
  }

  ghost predicate KeptText(msg: string, text: string) {
    exists a: nat, b: nat, masked, x: nat, y: nat :: Kept(msg, text, a, b, masked, x, y)
  }

  lemma {:induction false} TrimKeepsTheMiddle(s: string) returns (x: nat, y: nat)
    ensures TrimmedTo(s, x, y) && s[x..y] == Trim(s)
  {
    var t := TrimStart(s);
    x, y := |s| - |t|, |s| - |t| + |Trim(s)|;
    TrimStartDropsSpaces(s);
    MiddleOf(s, t, Trim(s), x, y);
    assert Trimmed(Trim(s)) by { TrimIsTrimmed(s); }
    forall i | y <= i < |s|
      ensures IsSpace(s[i])
    {
      TrimEndDropsSpaces(t);
      assert s[i] == t[i - x];
    }
  }

  lemma {:induction false} MiddleOf(s: string, t: string, r: string, x: nat, y: nat)
    requires |r| <= |t| <= |s| && t == s[|s| - |t|..] && r == t[..|r|] && x == |s| - |t| && y == x + |r|
    ensures s[x..y] == r && forall i :: x <= i < |s| ==> s[i] == t[i - x]
  {
  }

  lemma {:induction false} TrimIsTrimmed(s: string)
    ensures Trimmed(Trim(s))
  {
  }

  lemma {:induction false} CutFits(s: string)
    ensures CutToFit(s, Truncated(s, MAX_CLIENT_ERROR_LEN))
  {
    if |Encode(s)| > 512 {
      var n := Fitting(s, Budget(512), |s|);
      CutBounds(s, 512, n);
      assert Truncated(s, 512) == s[..n] + [ELLIPSIS];
    }
  }

  lemma {:induction false} SanitisedIsKept(msg: string)
    ensures KeptText(msg, Sanitised(msg))
  {
    var b := CutPoint(msg);
    CutKept(msg, b);
  }

  lemma {:induction false} CutKept(msg: string, b: nat)
    requires b <= |msg| && (b == |msg| || OccursAt(msg, TAB_FRAME, b) || OccursAt(msg, SPACE_FRAME, b))
    ensures KeptText(msg, Truncated(Trim(MaskUrlHosts(StripAll(msg[..b]))), MAX_CLIENT_ERROR_LEN))
  {
    var a := StrippedPart(msg, b);
    RestKept(msg, a, b);
  }

  lemma {:induction false} StrippedPart(msg: string, b: nat) returns (a: nat)
    requires b <= |msg|
    ensures a <= b && msg[a..b] == StripAll(msg[..b]) && Unwraps(msg[..b], msg[a..b])
  {
    var r := StripAll(msg[..b]);
    assert IsSuffix(r, msg[..b]) by { StripEndsAtSuffixFixpoint(msg[..b]); }
    assert Unwraps(msg[..b], r) by { StrippingUnwraps(msg[..b]); }
    SuffixSlice(msg, b, r);
    a := b - |r|;
  }

  lemma {:induction false} SuffixSlice(msg: string, b: nat, r: string)
    requires b <= |msg| && IsSuffix(r, msg[..b])
    ensures |r| <= b && msg[b - |r|..b] == r
  {
  }

  lemma {:induction false} RestKept(msg: string, a: nat, b: nat)
    requires a <= b <= |msg| && Unwraps(msg[..b], msg[a..b])
    requires b == |msg| || OccursAt(msg, TAB_FRAME, b) || OccursAt(msg, SPACE_FRAME, b)
    ensures KeptText(msg, Truncated(Trim(MaskUrlHosts(msg[a..b])), MAX_CLIENT_ERROR_LEN))
  {
    var masked := MaskUrlHosts(msg[a..b]);
    MaskingReplacesOnlyHosts(msg[a..b]);
    var x, y := TrimKeepsTheMiddle(masked);
    CutFits(masked[x..y]);
    assert Kept(msg, Truncated(masked[x..y], MAX_CLIENT_ERROR_LEN), a, b, masked, x, y);
  }

  lemma {:induction false} CutPoint(msg: string) returns (n: nat)
    ensures n <= |msg| && CutTrace(msg) == msg[..n]
    ensures n == |msg| || OccursAt(msg, TAB_FRAME, n) || OccursAt(msg, SPACE_FRAME, n)
  {
    CutsAtFrameExactly(msg);
    n := |CutTrace(msg)|;
  }

  /** A message with nothing in it to remove. */
  ghost predicate Clean(msg: string) {
    NoFrames(msg) && !Unwrappable(msg) && NoUrls(msg) && Trimmed(msg) && |Encode(msg)| <= 512
  }

  lemma {:induction false} CleanIsKept(msg: string)
    requires Clean(msg)
    ensures Sanitised(msg) == msg
  {
    assert CutTrace(msg) == msg by { CutsAtFrameExactly(msg); }
    assert StripAll(msg) == msg by { UnwrappableExactly(msg); }
    assert MaskUrlHosts(msg) == msg by { TextWithoutUrlsIsKept(msg); }
    assert Trim(msg) == msg by { TrimTrimmed(msg); }
  }

  /**
    `sanitise_for_client`; the result as the bytes that are sent. A message with nothing to remove is
    sent as it is; of any other what is sent is exactly what `Kept` says, and never more than 512 bytes.
   */
  method SanitiseForClient(msg: string) returns (out: seq<Byte>)
    ensures out == Encode(Sanitised(msg)) && KeptText(msg, Sanitised(msg))
    ensures Clean(msg) ==> out == Encode(msg)
    ensures |out| <= MAX_CLIENT_ERROR_LEN
  {
    var truncated := CutTrace(msg);
    var stripped := StripLoop(truncated);
    var masked := MaskLoop(stripped);
    var trimmed := Trim(masked);
    out := TruncateWithEllipsis(Encode(trimmed), MAX_CLIENT_ERROR_LEN, trimmed);
    TruncationIsLongestPrefix(trimmed, MAX_CLIENT_ERROR_LEN);
    SanitisedIsKept(msg);
    if Clean(msg) { CleanIsKept(msg); }
  }
}
