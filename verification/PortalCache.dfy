/**
  The extended-query protocol of one connection: Describe runs the pipeline and caches the
  response under the portal's name; Execute takes it out again if it was made for the SQL text
  the portal is bound to now. Bind and Close re-point names without telling the cache.

  A pipeline run is identified by its position in `runs`, so responses have an identity.
 */
module PortalCache {
  import opened Options

  const MAX_CACHED_PORTALS := 64

  /** What a portal name is bound to: SQL text and result formats. */
  datatype Portal = Portal(sql: string, format: int)

  /** Who asked for a pipeline run. */
  datatype Cause = DescribingPortal | Executing | DescribingStatement

  datatype PipelineRun = PipelineRun(cause: Cause, sql: string, format: Option<int>, ok: bool)

  datatype Cached = Cached(sql: string, run: nat)

  datatype Delivery = Delivery(name: string, bound: Portal, run: nat)

  datatype State = State(
    bound: map<string, Portal>,
    cache: map<string, Cached>,
    runs: seq<PipelineRun>,
    delivered: seq<Delivery>)

  const INITIAL: State := State(map[], map[], [], [])

  /** Client messages; `ok` is the pipeline's answer should the message make it run. */
  datatype Message =
    | Bind(name: string, portal: Portal)
    | Close(name: string)
    | Describe(name: string, ok: bool)
    | Execute(name: string, ok: bool)
    | DescribeStatement(sql: string, returnsRows: bool, ok: bool)

  predicate Enabled(s: State, m: Message) {
    (m.Describe? || m.Execute?) ==> m.name in s.bound
  }

  predicate HasRoom(s: State, name: string) {
    |s.cache| < MAX_CACHED_PORTALS || name in s.cache
  }

  /** Execute finds a usable response: one made for the text the portal is bound to now. */
  predicate Hit(s: State, name: string) {
    name in s.cache && name in s.bound && s.cache[name].sql == s.bound[name].sql
  }

  function Step(s: State, m: Message): State
    requires Enabled(s, m)
  {
    match m
    case Bind(name, p) => s.(bound := s.bound[name := p])
    case Close(name) => s.(bound := s.bound - {name})
    case Describe(name, ok) =>
      var p := s.bound[name];
      var r := s.(runs := s.runs + [PipelineRun(DescribingPortal, p.sql, Some(p.format), ok)]);
      if ok && HasRoom(s, name) then r.(cache := s.cache[name := Cached(p.sql, |s.runs|)]) else r
    case Execute(name, ok) =>
      var p := s.bound[name];
      var r := s.(cache := s.cache - {name});
      if Hit(s, name) then r.(delivered := s.delivered + [Delivery(name, p, s.cache[name].run)])
      else
        var r := r.(runs := s.runs + [PipelineRun(Executing, p.sql, Some(p.format), ok)]);
        if ok then r.(delivered := s.delivered + [Delivery(name, p, |s.runs|)]) else r
    case DescribeStatement(sql, rows, ok) =>
      if rows then s.(runs := s.runs + [PipelineRun(DescribingStatement, sql, None, ok)]) else s
  }

  predicate CanRun(s: State, ms: seq<Message>)
    decreases |ms|
  {
    ms == [] || (Enabled(s, ms[0]) && CanRun(Step(s, ms[0]), ms[1..]))
  }

  function Run(s: State, ms: seq<Message>): State
    requires CanRun(s, ms)
    decreases |ms|
  {
    if ms == [] then s else Run(Step(s, ms[0]), ms[1..])
  }

  // ---------------------------------------------------------------- invariant

  /** A delivered response comes from a successful run of exactly the text bound at delivery. */
  predicate DeliveryOk(s: State, d: Delivery) {
    && d.run < |s.runs|
    && s.runs[d.run].ok
    && s.runs[d.run].sql == d.bound.sql
    && !s.runs[d.run].cause.DescribingStatement?
  }

  predicate CachedOk(s: State, c: Cached) {
    && c.run < |s.runs|
    && s.runs[c.run].ok
    && s.runs[c.run].sql == c.sql
    && s.runs[c.run].cause.DescribingPortal?
  }

  ghost predicate Inv(s: State) {
    && |s.cache| <= MAX_CACHED_PORTALS
    && (forall n :: n in s.cache ==> CachedOk(s, s.cache[n]))
    && (forall i :: 0 <= i < |s.delivered| ==> DeliveryOk(s, s.delivered[i]))
    // every response is in at most one place: once delivered, or cached under one name
    && (forall i, j :: 0 <= i < j < |s.delivered| ==> s.delivered[i].run != s.delivered[j].run)
    && (forall n, i :: n in s.cache && 0 <= i < |s.delivered| ==> s.cache[n].run != s.delivered[i].run)
    && (forall n, k :: n in s.cache && k in s.cache && n != k ==> s.cache[n].run != s.cache[k].run)
  }

  lemma CacheSizeAfterInsert(cache: map<string, Cached>, name: string, c: Cached)
    ensures |cache[name := c]| == if name in cache then |cache| else |cache| + 1
  {
    assert cache[name := c].Keys == cache.Keys + {name};
  }

  lemma CacheSizeAfterRemove(cache: map<string, Cached>, name: string)
    ensures |cache - {name}| <= |cache|
  {
    if name in cache {
      assert cache == (cache - {name})[name := cache[name]];
      CacheSizeAfterInsert(cache - {name}, name, cache[name]);
    } else {
      assert cache - {name} == cache;
    }
  }

  /** A response that is neither cached nor delivered. */
  ghost predicate Unclaimed(s: State, run: nat) {
    && run < |s.runs|
    && (forall n :: n in s.cache ==> s.cache[n].run != run)
    && (forall i :: 0 <= i < |s.delivered| ==> s.delivered[i].run != run)
  }

  lemma NewRunKeepsInv(s: State, r: PipelineRun)
    requires Inv(s)
    ensures Inv(s.(runs := s.runs + [r])) && Unclaimed(s.(runs := s.runs + [r]), |s.runs|)
  {
    var t := s.(runs := s.runs + [r]);
    forall n | n in t.cache ensures CachedOk(t, t.cache[n]) { assert CachedOk(s, s.cache[n]); }
    forall i | 0 <= i < |t.delivered| ensures DeliveryOk(t, t.delivered[i]) { assert DeliveryOk(s, s.delivered[i]); }
  }

  lemma InsertKeepsInv(s: State, name: string, c: Cached)
    requires Inv(s) && HasRoom(s, name) && CachedOk(s, c) && Unclaimed(s, c.run)
    ensures Inv(s.(cache := s.cache[name := c]))
  {
    CacheSizeAfterInsert(s.cache, name, c);
    var t := s.(cache := s.cache[name := c]);
    forall i | 0 <= i < |t.delivered| ensures DeliveryOk(t, t.delivered[i]) { assert DeliveryOk(s, s.delivered[i]); }
  }

  lemma TakeKeepsInv(s: State, name: string)
    requires Inv(s)
    ensures Inv(s.(cache := s.cache - {name}))
    ensures name in s.cache ==> Unclaimed(s.(cache := s.cache - {name}), s.cache[name].run)
  {
    CacheSizeAfterRemove(s.cache, name);
    var t := s.(cache := s.cache - {name});
    forall i | 0 <= i < |t.delivered| ensures DeliveryOk(t, t.delivered[i]) { assert DeliveryOk(s, s.delivered[i]); }
    if name in s.cache { assert CachedOk(s, s.cache[name]); }
  }

  lemma DeliverKeepsInv(s: State, d: Delivery)
    requires Inv(s) && DeliveryOk(s, d) && Unclaimed(s, d.run)
    ensures Inv(s.(delivered := s.delivered + [d]))
  {
    var t := s.(delivered := s.delivered + [d]);
    forall n | n in t.cache ensures CachedOk(t, t.cache[n]) { assert CachedOk(s, s.cache[n]); }
    forall i | 0 <= i < |t.delivered| ensures DeliveryOk(t, t.delivered[i]) { if i < |s.delivered| { assert DeliveryOk(s, s.delivered[i]); } }
  }

  lemma RebindKeepsInv(s: State, bound: map<string, Portal>)
    requires Inv(s)
    ensures Inv(s.(bound := bound))
  {
    var t := s.(bound := bound);
    forall n | n in t.cache ensures CachedOk(t, t.cache[n]) { assert CachedOk(s, s.cache[n]); }
    forall i | 0 <= i < |t.delivered| ensures DeliveryOk(t, t.delivered[i]) { assert DeliveryOk(s, s.delivered[i]); }
  }

  lemma DescribeKeepsInv(s: State, name: string, ok: bool)
    requires Inv(s) && name in s.bound
    ensures Inv(Step(s, Describe(name, ok)))
  {
    var p := s.bound[name];
    var r := PipelineRun(DescribingPortal, p.sql, Some(p.format), ok);
    NewRunKeepsInv(s, r);
    if ok && HasRoom(s, name) {
      InsertKeepsInv(s.(runs := s.runs + [r]), name, Cached(p.sql, |s.runs|));
    }
  }

  lemma ExecuteKeepsInv(s: State, name: string, ok: bool)
    requires Inv(s) && name in s.bound
    ensures Inv(Step(s, Execute(name, ok)))
  {
    var p := s.bound[name];
    TakeKeepsInv(s, name);
    var t := s.(cache := s.cache - {name});
    if Hit(s, name) {
      assert CachedOk(s, s.cache[name]);
      DeliverKeepsInv(t, Delivery(name, p, s.cache[name].run));
    } else {
      var r := PipelineRun(Executing, p.sql, Some(p.format), ok);
      NewRunKeepsInv(t, r);
      if ok { DeliverKeepsInv(t.(runs := t.runs + [r]), Delivery(name, p, |s.runs|)); }
    }
  }

  lemma StepKeepsInv(s: State, m: Message)
    requires Inv(s) && Enabled(s, m)
    ensures Inv(Step(s, m))
  {
    match m
    case Bind(name, p) => RebindKeepsInv(s, s.bound[name := p]);
    case Close(name) => RebindKeepsInv(s, s.bound - {name});
    case Describe(name, ok) => DescribeKeepsInv(s, name, ok);
    case Execute(name, ok) => ExecuteKeepsInv(s, name, ok);
    case DescribeStatement(sql, rows, ok) =>
      if rows { NewRunKeepsInv(s, PipelineRun(DescribingStatement, sql, None, ok)); }
  }

  lemma {:induction false} RunKeepsInv(s: State, ms: seq<Message>)
    requires Inv(s) && CanRun(s, ms)
    ensures Inv(Run(s, ms))
    decreases |ms|
  {
    if ms == [] {
    } else {
      StepKeepsInv(s, ms[0]);
      RunKeepsInv(Step(s, ms[0]), ms[1..]);
    }
  }

  // ---------------------------------------------------------------- main results

  /**
    The cache refines "run the bound statement". Over every sequence of messages: what Execute
    delivers was produced by a pipeline run of exactly the SQL text the portal was bound to at
    that moment, no response is delivered twice, and at most 64 responses are held back.
   */
  lemma CacheRefinesRunningTheBoundStatement(ms: seq<Message>)
    requires CanRun(INITIAL, ms)
    ensures var s := Run(INITIAL, ms);
            && (forall i :: 0 <= i < |s.delivered| ==> DeliveryOk(s, s.delivered[i]))
            && (forall i, j :: 0 <= i < j < |s.delivered| ==> s.delivered[i].run != s.delivered[j].run)
            && |s.cache| <= MAX_CACHED_PORTALS
  {
    RunKeepsInv(INITIAL, ms);
  }

  /** Messages that do not describe or execute `name`; re-binding other names is among them. */
  predicate LeavesAlone(m: Message, name: string) {
    (m.Describe? || m.Execute?) ==> m.name != name
  }

  predicate AllLeaveAlone(ms: seq<Message>, name: string) {
    forall i :: 0 <= i < |ms| ==> LeavesAlone(ms[i], name)
  }

  lemma {:induction false} EntrySurvives(s: State, ms: seq<Message>, name: string)
    requires CanRun(s, ms) && AllLeaveAlone(ms, name)
    ensures name in s.cache <==> name in Run(s, ms).cache
    ensures name in s.cache ==> Run(s, ms).cache[name] == s.cache[name]
    decreases |ms|
  {
    if ms == [] {
    } else {
      assert LeavesAlone(ms[0], name);
      EntrySurvives(Step(s, ms[0]), ms[1..], name);
    }
  }

  /**
    Exactly once: after a successful Describe and any traffic on other portals, an Execute of the
    same text adds no run and delivers the described response if there was room; with a full
    cache it adds exactly one run, its own.
   */
  lemma DescribedPortalRunsOnce(s: State, name: string, ms: seq<Message>, ok: bool)
    requires Inv(s) && name in s.bound
    requires AllLeaveAlone(ms, name)
    requires var d := Step(s, Describe(name, true));
             CanRun(d, ms) && name in Run(d, ms).bound && Run(d, ms).bound[name].sql == s.bound[name].sql
    ensures var t := Run(Step(s, Describe(name, true)), ms);
            var x := Step(t, Execute(name, ok));
            && (HasRoom(s, name) ==>
                  x.runs == t.runs && x.delivered == t.delivered + [Delivery(name, t.bound[name], |s.runs|)])
            && (!HasRoom(s, name) ==>
                  && |x.runs| == |t.runs| + 1
                  && x.runs[|t.runs|] == PipelineRun(Executing, t.bound[name].sql, Some(t.bound[name].format), ok)
                  && (ok ==> x.delivered == t.delivered + [Delivery(name, t.bound[name], |t.runs|)]))
  {
    EntrySurvives(Step(s, Describe(name, true)), ms, name);
  }

  /** Taking one response serves one Execute: the next one runs again. */
  lemma SecondExecuteRunsAgain(s: State, name: string, ok: bool, again: bool)
    requires Enabled(s, Execute(name, ok))
    ensures var t := Step(s, Execute(name, ok));
            name in t.bound && |Step(t, Execute(name, again)).runs| == |t.runs| + 1
  {
  }

  // ---------------------------------------------------------------- no response outlives an Execute

  /** Execute takes the entry of its portal, used or not, and no other. */
  lemma ExecuteTakesEntry(s: State, name: string, ok: bool)
    requires Enabled(s, Execute(name, ok))
    ensures var t := Step(s, Execute(name, ok));
            name !in t.cache && forall n :: n != name ==> (n in t.cache <==> n in s.cache) && (n in s.cache ==> t.cache[n] == s.cache[n])
  {
  }

  predicate NoDescribeOf(ms: seq<Message>, name: string) {
    forall i :: 0 <= i < |ms| ==> ms[i].Describe? ==> ms[i].name != name
  }

  lemma {:induction false} StaysUncached(s: State, ms: seq<Message>, name: string)
    requires CanRun(s, ms) && NoDescribeOf(ms, name) && name !in s.cache
    ensures name !in Run(s, ms).cache
    decreases |ms|
  {
    if ms == [] {
    } else {
      assert ms[0].Describe? ==> ms[0].name != name;
      StaysUncached(Step(s, ms[0]), ms[1..], name);
    }
  }

  /**
    After an Execute and any messages that do not describe the portal, re-Binds of it among them, the
    next Execute runs: exactly one run, of the text and with the formats bound then, and its own
    response is what it delivers if that run succeeds. A response left by an earlier Describe is gone.
   */
  lemma NextExecuteRunsAgain(s: State, name: string, ok: bool, ms: seq<Message>, again: bool)
    requires Enabled(s, Execute(name, ok)) && NoDescribeOf(ms, name)
    requires CanRun(Step(s, Execute(name, ok)), ms) && name in Run(Step(s, Execute(name, ok)), ms).bound
    ensures var t := Run(Step(s, Execute(name, ok)), ms);
            var x, p := Step(t, Execute(name, again)), t.bound[name];
            && x.runs == t.runs + [PipelineRun(Executing, p.sql, Some(p.format), again)]
            && x.delivered == (if again then t.delivered + [Delivery(name, p, |t.runs|)] else t.delivered)
  {
    ExecuteTakesEntry(s, name, ok);
    StaysUncached(Step(s, Execute(name, ok)), ms, name);
  }

  lemma {:induction false} EntriesAreNewer(s: State, ms: seq<Message>, name: string, n: nat)
    requires CanRun(s, ms) && n <= |s.runs| && (name in s.cache ==> s.cache[name].run >= n)
    ensures n <= |Run(s, ms).runs| && (name in Run(s, ms).cache ==> Run(s, ms).cache[name].run >= n)
    decreases |ms|
  {
    if ms == [] {
    } else {
      EntriesAreNewer(Step(s, ms[0]), ms[1..], name, n);
    }
  }

  /** So, over every sequence of messages, what an Execute delivers was run after the previous Execute of its portal. */
  lemma ResponsesAreNewerThanTheLastExecute(s: State, name: string, ok: bool, ms: seq<Message>, again: bool)
    requires Enabled(s, Execute(name, ok)) && CanRun(Step(s, Execute(name, ok)), ms)
    requires name in Run(Step(s, Execute(name, ok)), ms).bound
    ensures var u := Step(s, Execute(name, ok));
            var t := Run(u, ms);
            var x := Step(t, Execute(name, again));
            && |t.delivered| <= |x.delivered| <= |t.delivered| + 1
            && (|x.delivered| > |t.delivered| ==> x.delivered[|t.delivered|].run >= |u.runs|)
  {
    ExecuteTakesEntry(s, name, ok);
    EntriesAreNewer(Step(s, Execute(name, ok)), ms, name, |Step(s, Execute(name, ok)).runs|);
  }

  /** A Describe that fails leaves every entry as it is; a Describe delivers nothing. */
  lemma FailedDescribeKeepsEntries(s: State, name: string)
    requires Enabled(s, Describe(name, false))
    ensures var t := Step(s, Describe(name, false));
            t.cache == s.cache && t.delivered == s.delivered && |t.runs| == |s.runs| + 1 && !t.runs[|s.runs|].ok
  {
  }

  // ---------------------------------------------------------------- names

  predicate NoBindOf(ms: seq<Message>, name: string) {
    forall i :: 0 <= i < |ms| ==> ms[i].Bind? ==> ms[i].name != name
  }

  predicate NoCloseOf(ms: seq<Message>, name: string) {
    forall i :: 0 <= i < |ms| ==> ms[i].Close? ==> ms[i].name != name
  }

  lemma {:induction false} BindingStays(s: State, ms: seq<Message>, name: string)
    requires CanRun(s, ms) && NoBindOf(ms, name) && (name in s.bound ==> NoCloseOf(ms, name))
    ensures name in Run(s, ms).bound <==> name in s.bound
    ensures name in s.bound ==> Run(s, ms).bound[name] == s.bound[name]
    decreases |ms|
  {
    if ms == [] {
    } else {
      assert ms[0].Bind? ==> ms[0].name != name;
      if name in s.bound { assert ms[0].Close? ==> ms[0].name != name; }
      BindingStays(Step(s, ms[0]), ms[1..], name);
    }
  }

  /** A bound name means its text and formats until it is bound again or closed, whatever is run meanwhile. */
  lemma BoundUntilClosed(s: State, name: string, p: Portal, ms: seq<Message>)
    requires CanRun(Step(s, Bind(name, p)), ms) && NoBindOf(ms, name) && NoCloseOf(ms, name)
    ensures var t := Run(Step(s, Bind(name, p)), ms); name in t.bound && t.bound[name] == p
  {
    BindingStays(Step(s, Bind(name, p)), ms, name);
  }

  /** A closed name can be neither described nor executed until it is bound again. */
  lemma ClosedUntilBound(s: State, name: string, ms: seq<Message>, ok: bool)
    requires CanRun(Step(s, Close(name)), ms) && NoBindOf(ms, name)
    ensures var t := Run(Step(s, Close(name)), ms);
            !Enabled(t, Execute(name, ok)) && !Enabled(t, Describe(name, ok))
  {
    BindingStays(Step(s, Close(name)), ms, name);
  }

  // ---------------------------------------------------------------- a full cache

  /** The i-th of any number of different portal names. */
  function PortalName(i: nat): string { seq(i, _ => 'p') }

  /** Binding and describing `n` portals, none of which is executed. */
  function Filling(n: nat, sql: string): seq<Message> {
    if n == 0 then []
    else Filling(n - 1, sql) + [Bind(PortalName(n - 1), Portal(sql, 0)), Describe(PortalName(n - 1), true)]
  }

  lemma {:induction false} RunsOn(s: State, ms: seq<Message>, more: seq<Message>)
    requires CanRun(s, ms) && CanRun(Run(s, ms), more)
    ensures CanRun(s, ms + more) && Run(s, ms + more) == Run(Run(s, ms), more)
    decreases |ms|
  {
    if ms == [] {
      assert ms + more == more;
    } else {
      assert (ms + more)[1..] == ms[1..] + more;
      RunsOn(Step(s, ms[0]), ms[1..], more);
    }
  }

  lemma TwoMessages(s: State, a: Message, b: Message)
    requires Enabled(s, a) && Enabled(Step(s, a), b)
    ensures CanRun(s, [a, b]) && Run(s, [a, b]) == Step(Step(s, a), b)
  {
    assert [a, b][1..] == [b] && [b][1..] == [];
    assert Run(Step(s, a), [b]) == Run(Step(Step(s, a), b), []);
  }

  lemma {:induction false} FillingFills(n: nat, sql: string)
    requires n <= MAX_CACHED_PORTALS
    ensures CanRun(INITIAL, Filling(n, sql))
    ensures var s := Run(INITIAL, Filling(n, sql));
            |s.cache| == |s.runs| == n && forall k :: k in s.cache ==> |k| < n
  {
    if n == 0 {
    } else {
      FillingFills(n - 1, sql);
      var s, name := Run(INITIAL, Filling(n - 1, sql)), PortalName(n - 1);
      var b, d := Bind(name, Portal(sql, 0)), Describe(name, true);
      TwoMessages(s, b, d);
      CacheSizeAfterInsert(s.cache, name, Cached(sql, |s.runs|));
      RunsOn(INITIAL, Filling(n - 1, sql), [b, d]);
    }
  }

  /**
    From the start of the connection: with 64 described portals waiting, describing and executing one
    more runs its statement twice, be it one with side effects.
   */
  lemma FullCacheRunsTwice(sql: string)
    ensures var name, ms := PortalName(64), Filling(64, sql);
            var all := ms + [Bind(name, Portal(sql, 0)), Describe(name, true)];
            && CanRun(INITIAL, ms) && CanRun(INITIAL, all)
            && Enabled(Run(INITIAL, all), Execute(name, true))
            && Step(Run(INITIAL, all), Execute(name, true)).runs
               == Run(INITIAL, ms).runs + [PipelineRun(DescribingPortal, sql, Some(0), true), PipelineRun(Executing, sql, Some(0), true)]
  {
    var name := PortalName(64);
    var b, d := Bind(name, Portal(sql, 0)), Describe(name, true);
    FillingFills(64, sql);
    var s := Run(INITIAL, Filling(64, sql));
    TwoMessages(s, b, d);
    RunsOn(INITIAL, Filling(64, sql), [b, d]);
    var t := Step(Step(s, b), d);
    assert name !in t.cache;
    var p, q := PipelineRun(DescribingPortal, sql, Some(0), true), PipelineRun(Executing, sql, Some(0), true);
    assert s.runs + [p] + [q] == s.runs + [p, q];
  }

  // ---------------------------------------------------------------- accounting

  function Describes(ms: seq<Message>): nat {
    if ms == [] then 0 else (if ms[0].Describe? then 1 else 0) + Describes(ms[1..])
  }

  function RowStatements(ms: seq<Message>): nat {
    if ms == [] then 0 else (if ms[0].DescribeStatement? && ms[0].returnsRows then 1 else 0) + RowStatements(ms[1..])
  }

  function Executes(ms: seq<Message>): nat {
    if ms == [] then 0 else (if ms[0].Execute? then 1 else 0) + Executes(ms[1..])
  }

  /** Responses delivered from the cache: those whose run was made by a Describe. */
  function Served(runs: seq<PipelineRun>, ds: seq<Delivery>): nat
    requires forall i :: 0 <= i < |ds| ==> ds[i].run < |runs|
  {
    if ds == [] then 0
    else (if runs[ds[|ds| - 1].run].cause.DescribingPortal? then 1 else 0) + Served(runs, ds[..|ds| - 1])
  }

  lemma {:induction false} ServedIgnoresNewRuns(runs: seq<PipelineRun>, more: seq<PipelineRun>, ds: seq<Delivery>)
    requires forall i :: 0 <= i < |ds| ==> ds[i].run < |runs|
    ensures Served(runs + more, ds) == Served(runs, ds)
  {
    if ds == [] {
    } else {
      ServedIgnoresNewRuns(runs, more, ds[..|ds| - 1]);
    }
  }

  lemma ServedOneMore(runs: seq<PipelineRun>, ds: seq<Delivery>, d: Delivery)
    requires (forall i :: 0 <= i < |ds| ==> ds[i].run < |runs|) && d.run < |runs|
    ensures Served(runs, ds + [d]) == Served(runs, ds) + if runs[d.run].cause.DescribingPortal? then 1 else 0
  {
    assert (ds + [d])[..|ds|] == ds;
  }

  ghost predicate RunsExist(s: State) {
    forall i :: 0 <= i < |s.delivered| ==> s.delivered[i].run < |s.runs|
  }

  lemma DeliveredRunsExist(s: State)
    requires Inv(s)
    ensures RunsExist(s)
  {
    forall i | 0 <= i < |s.delivered| ensures s.delivered[i].run < |s.runs| { assert DeliveryOk(s, s.delivered[i]); }
  }

  lemma HitAccounts(s: State, name: string, ok: bool)
    requires RunsExist(s) && Hit(s, name) && CachedOk(s, s.cache[name])
    ensures var t := Step(s, Execute(name, ok));
            RunsExist(t) && |t.runs| + Served(t.runs, t.delivered) == |s.runs| + Served(s.runs, s.delivered) + 1
  {
    ServedOneMore(s.runs, s.delivered, Delivery(name, s.bound[name], s.cache[name].run));
  }

  lemma MissAccounts(s: State, name: string, ok: bool)
    requires RunsExist(s) && name in s.bound && !Hit(s, name)
    ensures var t := Step(s, Execute(name, ok));
            RunsExist(t) && |t.runs| + Served(t.runs, t.delivered) == |s.runs| + Served(s.runs, s.delivered) + 1
  {
    var p := s.bound[name];
    var r := PipelineRun(Executing, p.sql, Some(p.format), ok);
    ServedIgnoresNewRuns(s.runs, [r], s.delivered);
    if ok { ServedOneMore(s.runs + [r], s.delivered, Delivery(name, p, |s.runs|)); }
  }

  lemma ExecuteAccounts(s: State, name: string, ok: bool)
    requires Inv(s) && name in s.bound
    ensures var t := Step(s, Execute(name, ok));
            RunsExist(s) && RunsExist(t) && |t.runs| + Served(t.runs, t.delivered) == |s.runs| + Served(s.runs, s.delivered) + 1
  {
    DeliveredRunsExist(s);
    if Hit(s, name) { HitAccounts(s, name, ok); } else { MissAccounts(s, name, ok); }
  }

  lemma OneMessageAccounts(s: State, m: Message)
    requires Inv(s) && Enabled(s, m)
    ensures var t := Step(s, m);
            && RunsExist(s) && RunsExist(t)
            && |t.runs| + Served(t.runs, t.delivered)
               == |s.runs| + Served(s.runs, s.delivered) + Describes([m]) + RowStatements([m]) + Executes([m])
  {
    DeliveredRunsExist(s);
    match m
    case Bind(_, _) =>
    case Close(_) =>
    case Describe(name, ok) =>
      ServedIgnoresNewRuns(s.runs, [PipelineRun(DescribingPortal, s.bound[name].sql, Some(s.bound[name].format), ok)], s.delivered);
    case Execute(name, ok) => ExecuteAccounts(s, name, ok);
    case DescribeStatement(sql, rows, ok) =>
      ServedIgnoresNewRuns(s.runs, [PipelineRun(DescribingStatement, sql, None, ok)], s.delivered);
  }

  /**
    Conservation: every Execute is answered by a run of its own or by a cached response, so the
    pipeline runs are the portal describes (failed ones too), the row-returning statement
    describes, and the executes the cache did not serve.
   */
  lemma {:induction false} RunsAreAccountedFor(s: State, ms: seq<Message>)
    requires Inv(s) && CanRun(s, ms)
    ensures var t := Run(s, ms);
            && RunsExist(s) && RunsExist(t)
            && |t.runs| + Served(t.runs, t.delivered)
               == |s.runs| + Served(s.runs, s.delivered) + Describes(ms) + RowStatements(ms) + Executes(ms)
    decreases |ms|
  {
    DeliveredRunsExist(s);
    if ms == [] {
    } else {
      StepKeepsInv(s, ms[0]);
      OneMessageAccounts(s, ms[0]);
      RunsAreAccountedFor(Step(s, ms[0]), ms[1..]);
    }
  }

  // ---------------------------------------------------------------- result formats

  lemma {:induction false} RunsGrow(s: State, ms: seq<Message>)
    requires CanRun(s, ms)
    ensures s.runs <= Run(s, ms).runs
    decreases |ms|
  {
    if ms == [] {
    } else {
      assert s.runs <= Step(s, ms[0]).runs;
      RunsGrow(Step(s, ms[0]), ms[1..]);
    }
  }

  /**
    The cache compares SQL text only. After a successful Describe that found room and any traffic that
    does not describe or execute the portal, re-Binds of it among it, an Execute of the same text
    delivers the described response: in the formats bound now if and only if these are the formats
    bound at Describe.
   */
  lemma DeliveredFormatExactly(s: State, name: string, ms: seq<Message>, ok: bool)
    requires Inv(s) && name in s.bound && HasRoom(s, name)
    requires AllLeaveAlone(ms, name)
    requires var d := Step(s, Describe(name, true));
             CanRun(d, ms) && name in Run(d, ms).bound && Run(d, ms).bound[name].sql == s.bound[name].sql
    ensures var t := Run(Step(s, Describe(name, true)), ms);
            var x := Step(t, Execute(name, ok));
            && x.delivered == t.delivered + [Delivery(name, t.bound[name], |s.runs|)]
            && |s.runs| < |x.runs|
            && (x.runs[|s.runs|].format == Some(t.bound[name].format) <==> t.bound[name].format == s.bound[name].format)
  {
    DescribedPortalRunsOnce(s, name, ms, ok);
    RunsGrow(Step(s, Describe(name, true)), ms);
  }

  /** From the start: a portal described in one format, bound again to the same text in another, and executed. */
  lemma StaleFormatIsDelivered(name: string, sql: string)
    ensures var ms := [Bind(name, Portal(sql, 0)), Describe(name, true), Bind(name, Portal(sql, 1)), Execute(name, true)];
            && CanRun(INITIAL, ms)
            && Run(INITIAL, ms).runs == [PipelineRun(DescribingPortal, sql, Some(0), true)]
            && Run(INITIAL, ms).delivered == [Delivery(name, Portal(sql, 1), 0)]
  {
    var b, d, c, e := Bind(name, Portal(sql, 0)), Describe(name, true), Bind(name, Portal(sql, 1)), Execute(name, true);
    var s1 := Step(INITIAL, b);
    var s2 := Step(s1, d);
    var s3 := Step(s2, c);
    assert [b, d, c, e][1..] == [d, c, e] && [d, c, e][1..] == [c, e] && [c, e][1..] == [e] && [e][1..] == [];
    assert CanRun(s3, [e]) && CanRun(s2, [c, e]) && CanRun(s1, [d, c, e]);
    assert Run(s1, [d, c, e]) == Run(s2, [c, e]) == Run(s3, [e]) == Step(s3, e);
  }

  // ---------------------------------------------------------------- the connection's handlers

  class Connection {
    var bound: map<string, Portal>
    var cache: map<string, Cached>
    var runs: seq<PipelineRun>
    var delivered: seq<Delivery>

    ghost function Snapshot(): State
      reads this
    {
      State(bound, cache, runs, delivered)
    }

    constructor ()
      ensures Snapshot() == INITIAL
    {
      bound, cache, runs, delivered := map[], map[], [], [];
    }

    /** `process_query`, called with the outcome it is going to have. */
    method ProcessQuery(cause: Cause, sql: string, format: Option<int>, ok: bool) returns (run: nat)
      modifies this`runs
      ensures run == |old(runs)| && runs == old(runs) + [PipelineRun(cause, sql, format, ok)]
    {
      run := |runs|;
      runs := runs + [PipelineRun(cause, sql, format, ok)];
    }

    /** `take_cached` */
    method TakeCached(name: string) returns (entry: Option<Cached>)
      modifies this`cache
      ensures cache == old(cache) - {name}
      ensures entry == if name in old(cache) then Some(old(cache)[name]) else None
    {
      entry := None;
      if name in cache {
        entry := Some(cache[name]);
        cache := cache - {name};
      }
    }

    /** `insert_cached`: refuses to grow past the cap, replaces an entry of the same name. */
    method InsertCached(name: string, entry: Cached)
      modifies this`cache
      ensures cache == if old(HasRoom(Snapshot(), name)) then old(cache)[name := entry] else old(cache)
    {
      if |cache| >= MAX_CACHED_PORTALS && name !in cache {
        return;
      }
      cache := cache[name := entry];
    }

    /** `do_describe_portal` */
    method DescribePortal(name: string, ok: bool)
      requires Enabled(Snapshot(), Message.Describe(name, ok))
      modifies this`cache, this`runs
      ensures Snapshot() == Step(old(Snapshot()), Message.Describe(name, ok))
    {
      var portal := bound[name];
      var response := ProcessQuery(DescribingPortal, portal.sql, Some(portal.format), ok);
      if !ok {
        return;
      }
      InsertCached(name, Cached(portal.sql, response));
    }

    /** `do_query` */
    method ExecutePortal(name: string, ok: bool) returns (response: Option<nat>)
      requires Enabled(Snapshot(), Message.Execute(name, ok))
      modifies this`cache, this`runs, this`delivered
      ensures Snapshot() == Step(old(Snapshot()), Message.Execute(name, ok))
      ensures response.None? <==> !ok && !old(Hit(Snapshot(), name))
    {
      var portal := bound[name];
      var entry := TakeCached(name);
      if entry.Some? && entry.value.sql == portal.sql {
        response := Some(entry.value.run);
        delivered := delivered + [Delivery(name, portal, entry.value.run)];
        return;
      }
      var run := ProcessQuery(Executing, portal.sql, Some(portal.format), ok);
      if !ok {
        return None;
      }
      response := Some(run);
      delivered := delivered + [Delivery(name, portal, run)];
    }

    /** `do_describe_statement`: DML and DDL are not run; the response of a query is dropped. */
    method DescribeStatement(sql: string, returnsRows: bool, ok: bool)
      modifies this`runs
      ensures Snapshot() == Step(old(Snapshot()), Message.DescribeStatement(sql, returnsRows, ok))
    {
      if !returnsRows {
        return;
      }
      var _ := ProcessQuery(DescribingStatement, sql, None, ok);
    }
  }
}
