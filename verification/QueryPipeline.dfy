/** `process_query`: a batch of statements, one response list each, stopping at the first error. */
module QueryPipeline {

  datatype Response<R> = Answer(r: R) | ErrorResponse(info: string)

  /** How one statement went: responses, an error for the client, or one that ends the connection. */
  datatype Outcome<R> = Done(responses: seq<Response<R>>) | UserError(info: string) | Fatal(info: string)

  datatype Result<R> = Responses(out: seq<Response<R>>) | Failed(error: Outcome<R>)

  /** `split_statements`: pieces of a parsed multi-statement text, or the text itself. */
  function SplitStatements(query: string, parsed: seq<string>, parses: bool): (pieces: seq<string>)
    ensures |pieces| >= 1
    ensures |pieces| == 1 ==> pieces == [query]
    ensures parses && |parsed| > 1 <==> |pieces| > 1
    ensures |pieces| > 1 ==> |pieces| == |parsed| && forall i :: 0 <= i < |parsed| ==> pieces[i] == parsed[i]
  {
    if parses && |parsed| > 1 then parsed else [query]
  }

  // ---------------------------------------------------------------- reference

  /**
    `run(i, text)` is what happens if `text` is run as statement `i` of the batch, so a text may
    fare differently from one place to the next. The statements from `i` on that succeed, up to
    the first one that does not.
   */
  function FirstError<R>(run: (nat, string) -> Outcome<R>, pieces: seq<string>, i: nat): (k: nat)
    requires i <= |pieces|
    ensures i <= k <= |pieces|
    ensures forall j :: i <= j < k ==> run(j, pieces[j]).Done?
    ensures k < |pieces| ==> !run(k, pieces[k]).Done?
    decreases |pieces| - i
  {
    if i == |pieces| || !run(i, pieces[i]).Done? then i else FirstError(run, pieces, i + 1)
  }

  /** The responses of the first `k` statements, in order. */
  function Joined<R>(run: (nat, string) -> Outcome<R>, pieces: seq<string>, k: nat): seq<Response<R>>
    requires k <= |pieces| && forall i :: 0 <= i < k ==> run(i, pieces[i]).Done?
  {
    if k == 0 then [] else Joined(run, pieces, k - 1) + run(k - 1, pieces[k - 1]).responses
  }

  /** The number of responses of the first `i` statements. */
  function ResponsesBefore<R>(run: (nat, string) -> Outcome<R>, pieces: seq<string>, i: nat): nat
    requires i <= |pieces| && forall j :: 0 <= j < i ==> run(j, pieces[j]).Done?
  {
    if i == 0 then 0 else ResponsesBefore(run, pieces, i - 1) + |run(i - 1, pieces[i - 1]).responses|
  }

  /** The responses of statement `i` stand in `out` from their place on. */
  ghost predicate AnsweredAt<R>(run: (nat, string) -> Outcome<R>, pieces: seq<string>, i: nat, out: seq<Response<R>>)
    requires i < |pieces| && forall j :: 0 <= j <= i ==> run(j, pieces[j]).Done?
  {
    var at, rs := ResponsesBefore(run, pieces, i), run(i, pieces[i]).responses;
    at + |rs| <= |out| && out[at..at + |rs|] == rs
  }

  /** The responses of the first `k` statements, each at its place, in statement order. */
  ghost predicate InOrder<R>(run: (nat, string) -> Outcome<R>, pieces: seq<string>, k: nat, out: seq<Response<R>>)
    requires k <= |pieces| && forall i :: 0 <= i < k ==> run(i, pieces[i]).Done?
  {
    forall i :: 0 <= i < k ==> AnsweredAt(run, pieces, i, out)
  }

  lemma {:induction false} JoinedInOrder<R>(run: (nat, string) -> Outcome<R>, pieces: seq<string>, k: nat, more: seq<Response<R>>)
    requires k <= |pieces| && forall i :: 0 <= i < k ==> run(i, pieces[i]).Done?
    ensures |Joined(run, pieces, k)| == ResponsesBefore(run, pieces, k)
    ensures InOrder(run, pieces, k, Joined(run, pieces, k) + more)
    decreases k
  {
    if k == 0 {
    } else {
      var before, last := Joined(run, pieces, k - 1), run(k - 1, pieces[k - 1]).responses;
      JoinedInOrder(run, pieces, k - 1, last + more);
      assert before + (last + more) == Joined(run, pieces, k) + more;
      assert (before + (last + more))[|before|..|before| + |last|] == last;
    }
  }

  lemma {:induction false} FirstErrorIs<R>(run: (nat, string) -> Outcome<R>, pieces: seq<string>, i: nat, k: nat)
    requires i <= k <= |pieces| && (forall j :: i <= j < k ==> run(j, pieces[j]).Done?)
    requires k < |pieces| ==> !run(k, pieces[k]).Done?
    ensures FirstError(run, pieces, i) == k
    decreases k - i
  {
    if i < k { FirstErrorIs(run, pieces, i + 1, k); }
  }

  // ---------------------------------------------------------------- the loop

  /**
    The responses of a batch are those of its longest error-free prefix, in order, with one
    trailing error if a statement failed with a client error; statements after the failing one
    are not run. A fatal error yields no responses at all. `ran` lists the statements run.
   */
  method ProcessQuery<R>(query: string, pieces: seq<string>, run: (nat, string) -> Outcome<R>)
    returns (result: Result<R>, ran: seq<string>)
    requires |pieces| >= 1 && (|pieces| == 1 ==> pieces == [query])
    ensures |pieces| == 1 ==>
              && ran == [query]
              && result == if run(0, query).Done? then Responses(run(0, query).responses) else Failed(run(0, query))
    ensures |pieces| > 1 ==>
              var k := FirstError(run, pieces, 0);
              && ran == (if k == |pieces| then pieces else pieces[..k + 1])
              && (k < |pieces| && run(k, pieces[k]).Fatal? ==> result == Failed(run(k, pieces[k])))
              && (k == |pieces| || run(k, pieces[k]).UserError? ==> result.Responses? && InOrder(run, pieces, k, result.out))
              && (k == |pieces| ==> |result.out| == ResponsesBefore(run, pieces, k))
              && (k < |pieces| && run(k, pieces[k]).UserError? ==>
                    && |result.out| == ResponsesBefore(run, pieces, k) + 1
                    && result.out[|result.out| - 1] == ErrorResponse(run(k, pieces[k]).info))
  {
    if |pieces| <= 1 {
      var only := run(0, query);
      ran := [query];
      if only.Done? {
        return Responses(only.responses), ran;
      }
      return Failed(only), ran;
    }
    var out: seq<Response<R>> := [];
    ran := [];
    for i := 0 to |pieces|
      invariant forall j :: 0 <= j < i ==> run(j, pieces[j]).Done?
      invariant out == Joined(run, pieces, i)
      invariant ran == pieces[..i]
    {
      var outcome := run(i, pieces[i]);
      ran := ran + [pieces[i]];
      assert ran == pieces[..i + 1];
      match outcome
      case Done(responses) =>
        out := out + responses;
      case UserError(info) =>
        FirstErrorIs(run, pieces, 0, i);
        JoinedInOrder(run, pieces, i, [ErrorResponse(info)]);
        out := out + [ErrorResponse(info)];
        return Responses(out), ran;
      case Fatal(_) =>
        FirstErrorIs(run, pieces, 0, i);
        return Failed(outcome), ran;
    }
    FirstErrorIs(run, pieces, 0, |pieces|);
    JoinedInOrder(run, pieces, |pieces|, []);
    assert pieces[..|pieces|] == pieces && out + [] == out;
    result := Responses(out);
  }
}
