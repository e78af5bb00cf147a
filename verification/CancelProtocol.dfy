/**
  Cancellation: the process-wide registry keyed by (pid, secret), one shared slot per
  connection holding the id of its running Trino query, streams that clear the slot, and
  cancel requests that look up, read the slot and send in three separate steps.

  `Step` is one atomic action of any party; a run is any interleaving. Slots are shared
  (`Arc`), so a session's slot outlives its registry entry.
 */
module CancelProtocol {
  import opened Options

  type Key = (int, int)

  const TWO32 := 0x1_0000_0000

  /** i32 arithmetic of the connection counter. */
  function Wrap32(x: int): int { (x + 0x8000_0000) % TWO32 - 0x8000_0000 }

  /** A session; `submitted` is the history of query ids it recorded. */
  datatype Session = Session(key: Key, live: bool, slot: Option<string>, submitted: seq<string>)

  /**
    Eager: submitted, columns not known yet. Ready: stream handed out, never polled. Streaming: polled,
    so the clear-on-drop guard exists. Closed: finished, failed or dropped; the guard ran iff `polled`.
   */
  datatype Phase = Eager | Failed | Ready | Streaming | Closed(polled: bool)

  datatype TrinoQuery = TrinoQuery(conn: nat, phase: Phase)

  datatype Cancel = LookedUp(key: Key, conn: nat) | HasRead(key: Key, conn: nat, id: Option<string>)

  datatype Sent = Sent(key: Key, conn: nat, id: string)

  /** `found` logs what cancel requests found in slots, `sent` what they asked Trino to cancel. */
  datatype State = State(
    nextPid: int,
    sessions: seq<Session>,
    registry: map<Key, nat>,
    queries: map<string, TrinoQuery>,
    cancels: seq<Cancel>,
    found: seq<Option<string>>,
    sent: seq<Sent>)

  const INITIAL: State := State(1, [], map[], map[], [], [], [])

  datatype Event =
    | Establish(secret: int)
    | Disconnect(conn: nat)
    | Submit(conn: nat, id: string)
    | EagerFail(id: string)
    | EagerDone(id: string)
    | Poll(id: string)
    | Close(id: string)
    | CancelLookup(key: Key)
    | CancelRead(cancel: nat)
    | CancelSend(cancel: nat)

  /** What can happen. Trino never hands out the same query id twice. */
  predicate Enabled(s: State, e: Event) {
    match e
    case Establish(_) => true
    case Disconnect(c) => c < |s.sessions| && s.sessions[c].live
    case Submit(c, id) => c < |s.sessions| && s.sessions[c].live && id !in s.queries
    case EagerFail(id) => id in s.queries && s.queries[id].conn < |s.sessions| && s.queries[id].phase == Eager
    case EagerDone(id) => id in s.queries && s.queries[id].phase == Eager
    case Poll(id) => id in s.queries && (s.queries[id].phase == Ready || s.queries[id].phase == Streaming)
    case Close(id) =>
      && id in s.queries && s.queries[id].conn < |s.sessions|
      && (s.queries[id].phase == Ready || s.queries[id].phase == Streaming)
    case CancelLookup(_) => true
    case CancelRead(k) => k < |s.cancels| && s.cancels[k].LookedUp? && s.cancels[k].conn < |s.sessions|
    case CancelSend(k) => k < |s.cancels| && s.cancels[k].HasRead?
  }

  function WithSlot(s: State, c: nat, id: Option<string>): State
    requires c < |s.sessions|
  {
    s.(sessions := s.sessions[c := s.sessions[c].(slot := id)])
  }

  function WithPhase(s: State, id: string, p: Phase): State
    requires id in s.queries
  {
    s.(queries := s.queries[id := s.queries[id].(phase := p)])
  }

  function Step(s: State, e: Event): State
    requires Enabled(s, e)
  {
    match e
    case Establish(secret) =>
      var key := (s.nextPid, secret);
      s.(nextPid := Wrap32(s.nextPid + 1),
         sessions := s.sessions + [Session(key, true, None, [])],
         registry := s.registry[key := |s.sessions|])
    case Disconnect(c) =>
      s.(sessions := s.sessions[c := s.sessions[c].(live := false)],
         registry := s.registry - {s.sessions[c].key})
    case Submit(c, id) =>
      s.(sessions := s.sessions[c := s.sessions[c].(slot := Some(id), submitted := s.sessions[c].submitted + [id])],
         queries := s.queries[id := TrinoQuery(c, Eager)])
    case EagerFail(id) => WithPhase(WithSlot(s, s.queries[id].conn, None), id, Failed)
    case EagerDone(id) => WithPhase(s, id, Ready)
    case Poll(id) => WithPhase(s, id, Streaming)
    case Close(id) =>
      if s.queries[id].phase == Ready then WithPhase(s, id, Closed(false))
      else WithPhase(WithSlot(s, s.queries[id].conn, None), id, Closed(true))
    case CancelLookup(key) =>
      if key in s.registry then s.(cancels := s.cancels + [LookedUp(key, s.registry[key])]) else s
    case CancelRead(k) =>
      var c := s.cancels[k];
      var id := s.sessions[c.conn].slot;
      s.(cancels := s.cancels[k := HasRead(c.key, c.conn, id)], found := s.found + [id])
    case CancelSend(k) =>
      var c := s.cancels[k];
      var rest := s.(cancels := s.cancels[..k] + s.cancels[k + 1..]);
      if c.id.None? then rest else rest.(sent := s.sent + [Sent(c.key, c.conn, c.id.value)])
  }

  predicate CanRun(s: State, es: seq<Event>)
    decreases |es|
  {
    es == [] || (Enabled(s, es[0]) && CanRun(Step(s, es[0]), es[1..]))
  }

  function Run(s: State, es: seq<Event>): State
    requires CanRun(s, es)
    decreases |es|
  {
    if es == [] then s else Run(Step(s, es[0]), es[1..])
  }

  /** The key of a new session is not one that is in use. */
  predicate FreshKey(s: State, e: Event) {
    e.Establish? ==> (s.nextPid, e.secret) !in s.registry
  }

  /** In a whole run, every session that is established gets a key that is not in use. */
  predicate FreshRun(s: State, es: seq<Event>)
    requires CanRun(s, es)
    decreases |es|
  {
    es == [] || (FreshKey(s, es[0]) && FreshRun(Step(s, es[0]), es[1..]))
  }

  // ---------------------------------------------------------------- invariant

  /** The pid of the n-th session of the process, counting from 0. */
  function PidOf(n: nat): int { Wrap32(1 + n) }

  lemma SameRemainder(a: int, b: int)
    ensures a % TWO32 == b % TWO32 <==> (a - b) % TWO32 == 0
  {
    var q, r := a / TWO32, a % TWO32;
    var q', r' := b / TWO32, b % TWO32;
    assert a - b == TWO32 * (q - q') + (r - r');
    if r >= r' {
      assert (a - b) % TWO32 == r - r';
    } else {
      assert a - b == TWO32 * (q - q' - 1) + (TWO32 + r - r');
      assert (a - b) % TWO32 == TWO32 + r - r';
    }
  }

  /** Keys of different sessions have different pids until the counter has gone round. */
  lemma PidsRepeatExactly(m: nat, n: nat)
    ensures PidOf(m) == PidOf(n) <==> (m - n) % TWO32 == 0
  {
    SameRemainder(1 + m + 0x8000_0000, 1 + n + 0x8000_0000);
  }

  predicate Ended(s: State, id: string) {
    id in s.queries && (s.queries[id].phase == Failed || s.queries[id].phase == Closed(true))
  }

  predicate PidsInOrder(s: State) {
    s.nextPid == PidOf(|s.sessions|) && forall i :: 0 <= i < |s.sessions| ==> s.sessions[i].key.0 == PidOf(i)
  }

  /** The registry maps exactly the live sessions' keys, each to its own session. */
  predicate RegistryExact(s: State) {
    && (forall k :: k in s.registry ==> s.registry[k] < |s.sessions| && s.sessions[s.registry[k]].live && s.sessions[s.registry[k]].key == k)
    && (forall i :: 0 <= i < |s.sessions| && s.sessions[i].live ==> s.sessions[i].key in s.registry && s.registry[s.sessions[i].key] == i)
  }

  /** A slot is empty or holds the id its own connection submitted last. */
  predicate SlotHoldsLatest(x: Session) {
    x.slot.Some? ==> x.submitted != [] && x.slot.value == x.submitted[|x.submitted| - 1]
  }

  predicate Ownership(s: State) {
    && (forall i, j :: 0 <= i < |s.sessions| && 0 <= j < |s.sessions[i].submitted| ==>
          s.sessions[i].submitted[j] in s.queries && s.queries[s.sessions[i].submitted[j]].conn == i)
    && (forall id :: id in s.queries ==> s.queries[id].conn < |s.sessions| && id in s.sessions[s.queries[id].conn].submitted)
  }

  predicate CancelOk(s: State, c: Cancel) {
    && c.conn < |s.sessions|
    && s.sessions[c.conn].key == c.key
    && (c.HasRead? && c.id.Some? ==> c.id.value in s.sessions[c.conn].submitted)
  }

  predicate SentOk(s: State, x: Sent) {
    x.conn < |s.sessions| && s.sessions[x.conn].key == x.key && x.id in s.sessions[x.conn].submitted
  }

  ghost predicate SlotsOk(s: State) {
    && (forall i :: 0 <= i < |s.sessions| ==> SlotHoldsLatest(s.sessions[i]))
    && (forall id, i :: Ended(s, id) && 0 <= i < |s.sessions| ==> s.sessions[i].slot != Some(id))
  }

  predicate CancelsOk(s: State) {
    && (forall k :: 0 <= k < |s.cancels| ==> CancelOk(s, s.cancels[k]))
    && (forall k :: 0 <= k < |s.sent| ==> SentOk(s, s.sent[k]))
  }

  /** A registered key is that of the session it leads to, live or not. */
  predicate RegistryPoints(s: State) {
    forall k :: k in s.registry ==> s.registry[k] < |s.sessions| && s.sessions[s.registry[k]].key == k
  }

  /** What every run keeps, even one that hands out a key that is in use. */
  ghost predicate Always(s: State) {
    PidsInOrder(s) && RegistryPoints(s) && Ownership(s) && SlotsOk(s) && CancelsOk(s)
  }

  /** What a run keeps in which no key in use is handed out. */
  ghost predicate Inv(s: State) {
    Always(s) && RegistryExact(s)
  }

  /** What never changes from a state to a later one. */
  ghost predicate Grows(s: State, t: State) {
    && |s.sessions| <= |t.sessions|
    && (forall i :: 0 <= i < |s.sessions| ==> t.sessions[i].key == s.sessions[i].key && s.sessions[i].submitted <= t.sessions[i].submitted)
    && s.sent <= t.sent && s.found <= t.found
  }

  lemma StepGrows(s: State, e: Event)
    requires Enabled(s, e)
    ensures Grows(s, Step(s, e))
  {
  }

  /** Cancels and sent messages stay right as sessions only grow. */
  lemma CancelsStayOk(s: State, t: State)
    requires CancelsOk(s) && Grows(s, t) && t.cancels == s.cancels && t.sent == s.sent
    ensures CancelsOk(t)
  {
    forall k | 0 <= k < |t.cancels|
      ensures CancelOk(t, t.cancels[k])
    {
      assert CancelOk(s, s.cancels[k]);
      assert s.sessions[s.cancels[k].conn].submitted <= t.sessions[s.cancels[k].conn].submitted;
    }
    forall k | 0 <= k < |t.sent|
      ensures SentOk(t, t.sent[k])
    {
      assert SentOk(s, s.sent[k]);
      assert s.sessions[s.sent[k].conn].submitted <= t.sessions[s.sent[k].conn].submitted;
    }
  }

  /** A new session keeps the registry exact if and only if its key is not in use. */
  lemma NewKeyKeepsRegistryExactly(s: State, secret: int)
    requires RegistryExact(s)
    ensures RegistryExact(Step(s, Establish(secret))) <==> FreshKey(s, Establish(secret))
  {
    var t := Step(s, Establish(secret));
    var key := (s.nextPid, secret);
    assert forall i :: 0 <= i < |s.sessions| ==> t.sessions[i] == s.sessions[i];
    if key in s.registry {
      var i := s.registry[key];
      assert t.sessions[i].live && t.sessions[i].key == key && t.registry[key] != i;
    }
  }

  lemma EstablishKeepsAlways(s: State, secret: int)
    requires Always(s)
    ensures Always(Step(s, Establish(secret)))
  {
    var t := Step(s, Establish(secret));
    var n := |s.sessions|;
    assert forall i :: 0 <= i < n ==> t.sessions[i] == s.sessions[i];
    assert PidsInOrder(t) by {
      assert Wrap32(Wrap32(1 + n) + 1) == Wrap32(1 + (n + 1)) by { WrapAgain(1 + n); }
    }
    StepGrows(s, Establish(secret));
    CancelsStayOk(s, t);
    assert Ownership(t) by { OwnershipGrows(s, t); }
    assert SlotsOk(t) by {
      assert forall id :: Ended(t, id) == Ended(s, id);
    }
  }

  lemma OwnershipGrows(s: State, t: State)
    requires Ownership(s) && t.queries == s.queries
    requires |t.sessions| == |s.sessions| + 1 && forall i :: 0 <= i < |s.sessions| ==> t.sessions[i] == s.sessions[i]
    requires t.sessions[|s.sessions|].submitted == []
    ensures Ownership(t)
  {
  }

  lemma WrapAgain(x: int)
    ensures Wrap32(Wrap32(x) + 1) == Wrap32(x + 1)
  {
    SameRemainder(Wrap32(x) + 1 + 0x8000_0000, x + 1 + 0x8000_0000);
    var y := x + 0x8000_0000;
    assert y == TWO32 * (y / TWO32) + y % TWO32;
    assert Wrap32(x) - x == TWO32 * -(y / TWO32);
  }

  lemma DisconnectKeepsAlways(s: State, c: nat)
    requires Always(s) && Enabled(s, Disconnect(c))
    ensures Always(Step(s, Disconnect(c)))
  {
    var t := Step(s, Disconnect(c));
    StepGrows(s, Disconnect(c));
    CancelsStayOk(s, t);
    assert Ownership(t);
    assert SlotsOk(t) by { assert forall id :: Ended(t, id) == Ended(s, id); }
  }

  lemma SubmitKeepsOwnership(s: State, c: nat, id: string)
    requires Ownership(s) && Enabled(s, Submit(c, id))
    ensures Ownership(Step(s, Submit(c, id)))
  {
    var t := Step(s, Submit(c, id));
    assert t.sessions[c].submitted[|s.sessions[c].submitted|] == id;
    forall q | q in t.queries
      ensures t.queries[q].conn < |t.sessions| && q in t.sessions[t.queries[q].conn].submitted
    {
      if q != id {
        assert q in s.sessions[s.queries[q].conn].submitted;
        assert s.sessions[s.queries[q].conn].submitted <= t.sessions[s.queries[q].conn].submitted;
      }
    }
  }

  lemma SubmitKeepsAlways(s: State, c: nat, id: string)
    requires Always(s) && Enabled(s, Submit(c, id))
    ensures Always(Step(s, Submit(c, id)))
  {
    var t := Step(s, Submit(c, id));
    StepGrows(s, Submit(c, id));
    CancelsStayOk(s, t);
    SubmitKeepsOwnership(s, c, id);
    SubmitKeepsSlots(s, c, id);
  }

  lemma SubmitKeepsSlots(s: State, c: nat, id: string)
    requires SlotsOk(s) && Enabled(s, Submit(c, id))
    ensures SlotsOk(Step(s, Submit(c, id)))
  {
    var t := Step(s, Submit(c, id));
    assert forall q :: Ended(t, q) ==> Ended(s, q) && q != id;
  }

  /** A change of phase that ends nothing. */
  lemma PhaseKeepsAlways(s: State, id: string, p: Phase)
    requires Always(s) && id in s.queries && p != Failed && p != Closed(true)
    ensures Always(WithPhase(s, id, p))
  {
    var t := WithPhase(s, id, p);
    CancelsStayOk(s, t);
    assert Ownership(t);
    assert SlotsOk(t) by { assert forall q :: Ended(t, q) ==> Ended(s, q); }
  }

  lemma SlotOwner(s: State, i: nat, id: string)
    requires Ownership(s) && i < |s.sessions| && SlotHoldsLatest(s.sessions[i])
    ensures s.sessions[i].slot == Some(id) ==> id in s.queries && s.queries[id].conn == i
  {
    if s.sessions[i].slot == Some(id) {
      assert id == s.sessions[i].submitted[|s.sessions[i].submitted| - 1];
    }
  }

  /** A query ends and the slot of its connection is cleared. */
  lemma EndKeepsAlways(s: State, id: string, p: Phase)
    requires Always(s) && id in s.queries && (p == Failed || p == Closed(true))
    ensures Always(WithPhase(WithSlot(s, s.queries[id].conn, None), id, p))
  {
    var c := s.queries[id].conn;
    var t := WithPhase(WithSlot(s, c, None), id, p);
    CancelsStayOk(s, t);
    assert Ownership(t);
    EndKeepsSlots(s, id, p);
  }

  lemma EndKeepsSlots(s: State, id: string, p: Phase)
    requires Ownership(s) && SlotsOk(s) && id in s.queries && (p == Failed || p == Closed(true))
    ensures SlotsOk(WithPhase(WithSlot(s, s.queries[id].conn, None), id, p))
  {
    var t := WithPhase(WithSlot(s, s.queries[id].conn, None), id, p);
    forall q, i | Ended(t, q) && 0 <= i < |t.sessions|
      ensures t.sessions[i].slot != Some(q)
    {
      if q != id { assert Ended(s, q); } else { SlotOwner(s, i, id); }
    }
  }

  lemma LookupKeepsAlways(s: State, key: Key)
    requires Always(s)
    ensures Always(Step(s, CancelLookup(key)))
  {
    var t := Step(s, CancelLookup(key));
    assert forall id :: Ended(t, id) == Ended(s, id);
    assert CancelsOk(t) by {
      forall k | 0 <= k < |s.cancels| ensures CancelOk(t, s.cancels[k]) { assert CancelOk(s, s.cancels[k]); }
      forall k | 0 <= k < |s.sent| ensures SentOk(t, s.sent[k]) { assert SentOk(s, s.sent[k]); }
    }
  }

  lemma ReadKeepsAlways(s: State, k: nat)
    requires Always(s) && Enabled(s, CancelRead(k))
    ensures Always(Step(s, CancelRead(k)))
  {
    var t := Step(s, CancelRead(k));
    assert forall id :: Ended(t, id) == Ended(s, id);
    assert CancelOk(s, s.cancels[k]);
    assert SlotHoldsLatest(s.sessions[s.cancels[k].conn]);
    assert CancelsOk(t) by {
      forall j | 0 <= j < |s.cancels| ensures CancelOk(t, t.cancels[j]) { assert CancelOk(s, s.cancels[j]); }
      forall j | 0 <= j < |s.sent| ensures SentOk(t, s.sent[j]) { assert SentOk(s, s.sent[j]); }
    }
  }

  lemma SendKeepsAlways(s: State, k: nat)
    requires Always(s) && Enabled(s, CancelSend(k))
    ensures Always(Step(s, CancelSend(k)))
  {
    var t := Step(s, CancelSend(k));
    assert forall id :: Ended(t, id) == Ended(s, id);
    assert CancelOk(s, s.cancels[k]);
    assert CancelsOk(t) by {
      forall j | 0 <= j < |t.cancels| ensures CancelOk(t, t.cancels[j]) {
        assert CancelOk(s, s.cancels[if j < k then j else j + 1]);
      }
      forall j | 0 <= j < |s.sent| ensures SentOk(t, s.sent[j]) { assert SentOk(s, s.sent[j]); }
    }
  }

  lemma StepKeepsAlways(s: State, e: Event)
    requires Always(s) && Enabled(s, e)
    ensures Always(Step(s, e))
  {
    match e
    case Establish(secret) => EstablishKeepsAlways(s, secret);
    case Disconnect(c) => DisconnectKeepsAlways(s, c);
    case Submit(c, id) => SubmitKeepsAlways(s, c, id);
    case EagerFail(id) => EndKeepsAlways(s, id, Failed);
    case EagerDone(id) => PhaseKeepsAlways(s, id, Ready);
    case Poll(id) => PhaseKeepsAlways(s, id, Streaming);
    case Close(id) =>
      if s.queries[id].phase == Ready { PhaseKeepsAlways(s, id, Closed(false)); }
      else { EndKeepsAlways(s, id, Closed(true)); }
    case CancelLookup(key) => LookupKeepsAlways(s, key);
    case CancelRead(k) => ReadKeepsAlways(s, k);
    case CancelSend(k) => SendKeepsAlways(s, k);
  }

  lemma StepKeepsRegistry(s: State, e: Event)
    requires RegistryExact(s) && Enabled(s, e) && FreshKey(s, e)
    ensures RegistryExact(Step(s, e))
  {
    if e.Establish? { NewKeyKeepsRegistryExactly(s, e.secret); }
  }

  lemma StepKeepsInv(s: State, e: Event)
    requires Inv(s) && Enabled(s, e) && FreshKey(s, e)
    ensures Inv(Step(s, e))
  {
    StepKeepsAlways(s, e);
    StepKeepsRegistry(s, e);
  }

  lemma {:induction false} RunGrows(s: State, es: seq<Event>)
    requires CanRun(s, es)
    ensures Grows(s, Run(s, es))
    decreases |es|
  {
    if es == [] {
    } else {
      StepGrows(s, es[0]);
      RunGrows(Step(s, es[0]), es[1..]);
      var u, t := Step(s, es[0]), Run(s, es);
      forall i | 0 <= i < |s.sessions|
        ensures s.sessions[i].submitted <= t.sessions[i].submitted && t.sessions[i].key == s.sessions[i].key
      {
        assert s.sessions[i].submitted <= u.sessions[i].submitted <= t.sessions[i].submitted;
      }
    }
  }

  lemma {:induction false} RunKeepsAlways(s: State, es: seq<Event>)
    requires Always(s) && CanRun(s, es)
    ensures Always(Run(s, es))
    decreases |es|
  {
    if es == [] {
    } else {
      StepKeepsAlways(s, es[0]);
      RunKeepsAlways(Step(s, es[0]), es[1..]);
    }
  }

  lemma {:induction false} RunKeepsInv(s: State, es: seq<Event>)
    requires Inv(s) && CanRun(s, es) && FreshRun(s, es)
    ensures Inv(Run(s, es))
    decreases |es|
  {
    if es == [] {
    } else {
      StepKeepsInv(s, es[0]);
      RunKeepsInv(Step(s, es[0]), es[1..]);
    }
  }

  // ---------------------------------------------------------------- main results

  /**
    Over every interleaving of any number of connections, queries, streams and cancel requests,
    whatever keys are handed out: slots hold the latest id of their own connection, and every
    cancel sent names a query submitted under its key.
   */
  lemma CancelsNameQueriesOfTheirKey(es: seq<Event>)
    requires CanRun(INITIAL, es)
    ensures var s := Run(INITIAL, es);
            && (forall i :: 0 <= i < |s.sessions| ==> SlotHoldsLatest(s.sessions[i]))
            && (forall k :: 0 <= k < |s.sent| ==> SentOk(s, s.sent[k]))
  {
    RunKeepsAlways(INITIAL, es);
  }

  /**
    Cancel safety, over every interleaving in which no new session gets a key that is in use: in
    addition the registry holds exactly the live sessions, and no two live sessions share a key.
   */
  lemma CancelSafety(es: seq<Event>)
    requires CanRun(INITIAL, es) && FreshRun(INITIAL, es)
    ensures Safe(Run(INITIAL, es))
  {
    RunKeepsInv(INITIAL, es);
  }

  predicate Safe(s: State) {
    && (forall i :: 0 <= i < |s.sessions| ==> SlotHoldsLatest(s.sessions[i]))
    && RegistryExact(s)
    && (forall i, j :: 0 <= i < j < |s.sessions| && s.sessions[i].live && s.sessions[j].live ==> s.sessions[i].key != s.sessions[j].key)
    && (forall k :: 0 <= k < |s.sent| ==> SentOk(s, s.sent[k]))
  }

  /** In particular over every run of at most 2^32 sessions, whatever their secrets. */
  lemma CancelSafetyUpToWrap(es: seq<Event>)
    requires CanRun(INITIAL, es) && |Run(INITIAL, es).sessions| <= TWO32
    ensures Safe(Run(INITIAL, es))
  {
    FewSessionsAreFresh(INITIAL, es);
    CancelSafety(es);
  }

  /** Keys are never in use again while the counter has not gone round: up to 2^32 sessions. */
  lemma {:induction false} FewSessionsAreFresh(s: State, es: seq<Event>)
    requires Always(s) && CanRun(s, es) && |Run(s, es).sessions| <= TWO32
    ensures FreshRun(s, es)
    decreases |es|
  {
    if es == [] {
    } else {
      RunGrows(Step(s, es[0]), es[1..]);
      NewPidIsFresh(s, es[0]);
      StepKeepsAlways(s, es[0]);
      FewSessionsAreFresh(Step(s, es[0]), es[1..]);
    }
  }

  lemma NewPidIsFresh(s: State, e: Event)
    requires Always(s) && Enabled(s, e) && |Step(s, e).sessions| <= TWO32
    ensures FreshKey(s, e)
  {
    if e.Establish? {
      forall i | 0 <= i < |s.sessions|
        ensures s.sessions[i].key.0 != s.nextPid
      {
        PidsRepeatExactly(i, |s.sessions|);
      }
    }
  }

  /**
    Slot lifetime: once a polled stream has ended, or the eager phase of a query has failed,
    no slot read from then on returns that query's id, whatever else happens.
   */
  lemma {:induction false} EndedIdsAreNeverReadAgain(s: State, es: seq<Event>, id: string)
    requires Always(s) && CanRun(s, es) && Ended(s, id)
    ensures var t := Run(s, es);
            Ended(t, id) && forall k :: |s.found| <= k < |t.found| ==> t.found[k] != Some(id)
    decreases |es|
  {
    if es == [] {
    } else {
      var u := Step(s, es[0]);
      RunGrows(u, es[1..]);
      StepGrows(s, es[0]);
      StepKeepsAlways(s, es[0]);
      OneStepAfterTheEnd(s, es[0], id);
      EndedIdsAreNeverReadAgain(u, es[1..], id);
      assert u.found <= Run(s, es).found;
    }
  }

  lemma OneStepAfterTheEnd(s: State, e: Event, id: string)
    requires Always(s) && Enabled(s, e) && Ended(s, id)
    ensures Ended(Step(s, e), id)
    ensures forall k :: |s.found| <= k < |Step(s, e).found| ==> Step(s, e).found[k] != Some(id)
  {
  }

  /** The same for whole runs of the process: everything after the end, after any beginning. */
  lemma SlotLifetime(before: seq<Event>, after: seq<Event>, id: string)
    requires CanRun(INITIAL, before) && Ended(Run(INITIAL, before), id)
    requires CanRun(Run(INITIAL, before), after)
    ensures var s, t := Run(INITIAL, before), Run(Run(INITIAL, before), after);
            && (forall i :: 0 <= i < |t.sessions| ==> t.sessions[i].slot != Some(id))
            && (forall k :: |s.found| <= k < |t.found| ==> t.found[k] != Some(id))
  {
    var s := Run(INITIAL, before);
    RunKeepsAlways(INITIAL, before);
    RunKeepsAlways(s, after);
    EndedIdsAreNeverReadAgain(s, after, id);
  }

  /** What a cancel request reads is the newest query of the connection it looked up, and that query has not ended. */
  lemma ReadsAreCurrent(s: State, k: nat)
    requires Always(s) && Enabled(s, CancelRead(k))
    requires s.sessions[s.cancels[k].conn].slot.Some?
    ensures var x := s.sessions[s.cancels[k].conn];
            var id := Step(s, CancelRead(k)).found[|s.found|].value;
            && x.key == s.cancels[k].key
            && x.submitted != [] && id == x.submitted[|x.submitted| - 1]
            && !Ended(s, id)
  {
    assert CancelOk(s, s.cancels[k]);
    assert SlotHoldsLatest(s.sessions[s.cancels[k].conn]);
  }

  /**
    Closing a stream takes its own id out of the slot and leaves any other alone, exactly when
    a polled stream finds the slot empty or its own and an unpolled one does not find its own.
    The two lemmas below show what happens in the two failing families.
   */
  lemma CloseClearsJustItsOwnIdExactly(s: State, id: string)
    requires Enabled(s, Close(id))
    ensures var c := s.queries[id].conn;
            var was := s.sessions[c].slot;
            (Step(s, Close(id)).sessions[c].slot == (if was == Some(id) then None else was)
             <==> if s.queries[id].phase == Streaming then was == None || was == Some(id) else was != Some(id))
  {
  }

  /**
    A stream dropped before its first poll, as happens after DDL, stays cancellable: in every
    such state, a cancel request that arrives after the drop is still sent to Trino.
   */
  lemma UnpolledStreamIsStillCancelled(s: State, id: string)
    requires Inv(s) && Enabled(s, Close(id)) && s.queries[id].phase == Ready
    requires s.sessions[s.queries[id].conn].live && s.sessions[s.queries[id].conn].slot == Some(id)
    ensures var c, n := s.queries[id].conn, |s.cancels|;
            var key := s.sessions[c].key;
            var es := [Close(id), CancelLookup(key), CancelRead(n), CancelSend(n)];
            CanRun(s, es) && Run(s, es).sent == s.sent + [Sent(key, c, id)]
  {
    var c, n := s.queries[id].conn, |s.cancels|;
    var key := s.sessions[c].key;
    assert key in s.registry && s.registry[key] == c;
    var s1 := Step(s, Close(id));
    RunsTo(s, Close(id), s1, [CancelLookup(key), CancelRead(n), CancelSend(n)]);
    CancelIsSent(s1, key, id);
  }

  /** The event neither writes the slot of connection `c` nor ends the connection. */
  predicate Spares(s: State, e: Event, c: nat) {
    match e
    case Disconnect(d) => d != c
    case Submit(d, _) => d != c
    case EagerFail(q) => q in s.queries && s.queries[q].conn != c
    case Close(q) => q in s.queries && (s.queries[q].conn != c || s.queries[q].phase == Ready)
    case _ => true
  }

  predicate AllSpare(s: State, es: seq<Event>, c: nat)
    requires CanRun(s, es)
    decreases |es|
  {
    es == [] || (Spares(s, es[0], c) && AllSpare(Step(s, es[0]), es[1..], c))
  }

  lemma {:induction false} SlotSurvives(s: State, es: seq<Event>, c: nat)
    requires c < |s.sessions| && CanRun(s, es) && AllSpare(s, es, c)
    ensures c < |Run(s, es).sessions| && Run(s, es).sessions[c] == s.sessions[c]
    decreases |es|
  {
    if es == [] {
    } else {
      assert Step(s, es[0]).sessions[c] == s.sessions[c];
      SlotSurvives(Step(s, es[0]), es[1..], c);
    }
  }

  /** The event empties the slot of connection `c`: an eager phase fails there, or a polled stream ends. */
  predicate Clears(s: State, e: Event, c: nat) {
    match e
    case EagerFail(q) => q in s.queries && s.queries[q].conn == c
    case Close(q) => q in s.queries && s.queries[q].conn == c && s.queries[q].phase == Streaming
    case _ => false
  }

  predicate NeverCleared(s: State, es: seq<Event>, c: nat)
    requires CanRun(s, es)
    decreases |es|
  {
    es == [] || (!Clears(s, es[0], c) && NeverCleared(Step(s, es[0]), es[1..], c))
  }

  predicate NoSubmitOn(es: seq<Event>, c: nat) {
    forall i :: 0 <= i < |es| ==> es[i].Submit? ==> es[i].conn != c
  }

  lemma StepOnSlot(s: State, e: Event, c: nat)
    requires c < |s.sessions| && Enabled(s, e) && (e.Submit? ==> e.conn != c)
    ensures c < |Step(s, e).sessions|
    ensures Step(s, e).sessions[c].slot == if Clears(s, e, c) then None else s.sessions[c].slot
  {
  }

  lemma {:induction false} EmptySlotStays(s: State, es: seq<Event>, c: nat)
    requires c < |s.sessions| && s.sessions[c].slot == None && CanRun(s, es) && NoSubmitOn(es, c)
    ensures c < |Run(s, es).sessions| && Run(s, es).sessions[c].slot == None
    decreases |es|
  {
    if es == [] {
    } else {
      assert es[0].Submit? ==> es[0].conn != c;
      StepOnSlot(s, es[0], c);
      EmptySlotStays(Step(s, es[0]), es[1..], c);
    }
  }

  /**
    Whose query a cancel request finds, over every run: as long as the connection submits nothing new,
    the slot keeps the id it holds if and only if no eager phase of the connection fails and none of
    its polled streams ends, that of this very query or of any other.
   */
  lemma {:induction false} SlotKeepsIdExactly(s: State, es: seq<Event>, c: nat, id: string)
    requires c < |s.sessions| && s.sessions[c].slot == Some(id) && CanRun(s, es) && NoSubmitOn(es, c)
    ensures c < |Run(s, es).sessions| && (Run(s, es).sessions[c].slot == Some(id) <==> NeverCleared(s, es, c))
    decreases |es|
  {
    if es == [] {
    } else {
      assert es[0].Submit? ==> es[0].conn != c;
      StepOnSlot(s, es[0], c);
      if Clears(s, es[0], c) {
        EmptySlotStays(Step(s, es[0]), es[1..], c);
      } else {
        SlotKeepsIdExactly(Step(s, es[0]), es[1..], c, id);
      }
    }
  }

  /** Where the cancel request at position `k` stands after an event of another one. */
  function MovedTo(k: nat, e: Event): nat {
    if e.CancelSend? && e.cancel < k then k - 1 else k
  }

  function MovedBy(k: nat, es: seq<Event>): nat {
    if es == [] then k else MovedBy(MovedTo(k, es[0]), es[1..])
  }

  /** None of the events is a step of the cancel request that stands at `k` before them. */
  predicate NotItsOwn(k: nat, es: seq<Event>) {
    es == [] || (es[0] != CancelRead(k) && es[0] != CancelSend(k) && NotItsOwn(MovedTo(k, es[0]), es[1..]))
  }

  lemma {:induction false} CancelSurvives(s: State, es: seq<Event>, k: nat)
    requires k < |s.cancels| && CanRun(s, es) && NotItsOwn(k, es)
    ensures var j := MovedBy(k, es); j < |Run(s, es).cancels| && Run(s, es).cancels[j] == s.cancels[k]
    decreases |es|
  {
    if es == [] {
    } else {
      var t, j := Step(s, es[0]), MovedTo(k, es[0]);
      assert j < |t.cancels| && t.cancels[j] == s.cancels[k];
      CancelSurvives(t, es[1..], j);
    }
  }

  /** A cancel request looked up in `s`, with anything of others between its three steps. */
  ghost predicate CancelTakesPlace(s: State, key: Key, c: nat, toRead: seq<Event>, toSend: seq<Event>) {
    var k := |s.cancels|;
    var looked := Step(s, CancelLookup(key));
    && CanRun(looked, toRead) && NotItsOwn(k, toRead) && AllSpare(looked, toRead, c)
    && var r := MovedBy(k, toRead);
       Enabled(Run(looked, toRead), CancelRead(r))
       && var read := Step(Run(looked, toRead), CancelRead(r));
          CanRun(read, toSend) && NotItsOwn(r, toSend)
  }

  /**
    A cancel request for a registered key sends the id that is in the slot, whatever others do
    between its lookup, its read and its send, as long as the slot is not written before the read.
   */
  lemma CancelReachesQuery(s: State, key: Key, id: string, toRead: seq<Event>, toSend: seq<Event>)
    requires key in s.registry && s.registry[key] < |s.sessions| && s.sessions[s.registry[key]].slot == Some(id)
    requires CancelTakesPlace(s, key, s.registry[key], toRead, toSend)
    ensures var k, c := |s.cancels|, s.registry[key];
            var r := MovedBy(k, toRead);
            var read := Step(Run(Step(s, CancelLookup(key)), toRead), CancelRead(r));
            var t, j := Run(read, toSend), MovedBy(r, toSend);
            Enabled(t, CancelSend(j)) && Step(t, CancelSend(j)).sent == t.sent + [Sent(key, c, id)]
  {
    var k, c := |s.cancels|, s.registry[key];
    var looked := Step(s, CancelLookup(key));
    assert looked.cancels[k] == LookedUp(key, c);
    CancelSurvives(looked, toRead, k);
    SlotSurvives(looked, toRead, c);
    var r := MovedBy(k, toRead);
    var read := Step(Run(looked, toRead), CancelRead(r));
    assert read.cancels[r] == HasRead(key, c, Some(id));
    CancelSurvives(read, toSend, r);
  }

  /**
    Cancelling works: from the moment a query is submitted, through its eager phase and its
    stream, and whatever other connections and other cancel requests do, before the lookup and
    between the three steps, a cancel request with the connection's key is sent to Trino for
    that very query.
   */
  lemma RunningQueryIsCancelled(s: State, c: nat, id: string, es: seq<Event>, toRead: seq<Event>, toSend: seq<Event>)
    requires Inv(s) && Enabled(s, Submit(c, id))
    requires var u := Step(s, Submit(c, id));
             && CanRun(u, es) && FreshRun(u, es) && AllSpare(u, es, c)
             && CancelTakesPlace(Run(u, es), s.sessions[c].key, c, toRead, toSend)
    ensures var t, key := Run(Step(s, Submit(c, id)), es), s.sessions[c].key;
            var r := MovedBy(|t.cancels|, toRead);
            var read := Step(Run(Step(t, CancelLookup(key)), toRead), CancelRead(r));
            var last, j := Run(read, toSend), MovedBy(r, toSend);
            Enabled(last, CancelSend(j)) && Step(last, CancelSend(j)).sent == last.sent + [Sent(key, c, id)]
  {
    var u := Step(s, Submit(c, id));
    var t := Run(u, es);
    StepKeepsInv(s, Submit(c, id));
    RunKeepsInv(u, es);
    SlotSurvives(u, es, c);
    assert s.sessions[c].key in t.registry && t.registry[s.sessions[c].key] == c;
    CancelReachesQuery(t, s.sessions[c].key, id, toRead, toSend);
  }

  /** An undisturbed cancel request for a registered key sends the id in its slot. */
  lemma CancelIsSent(s: State, key: Key, id: string)
    requires key in s.registry && s.registry[key] < |s.sessions| && s.sessions[s.registry[key]].slot == Some(id)
    ensures var n := |s.cancels|;
            var es := [CancelLookup(key), CancelRead(n), CancelSend(n)];
            CanRun(s, es) && Run(s, es).sent == s.sent + [Sent(key, s.registry[key], id)]
  {
    var n := |s.cancels|;
    var s1 := Step(s, CancelLookup(key));
    var s2 := Step(s1, CancelRead(n));
    var s3 := Step(s2, CancelSend(n));
    assert s1.cancels[n] == LookedUp(key, s.registry[key]) && s2.cancels[n] == HasRead(key, s.registry[key], Some(id));
    RunsTo(s, CancelLookup(key), s1, [CancelRead(n), CancelSend(n)]);
    RunsTo(s1, CancelRead(n), s2, [CancelSend(n)]);
    RunsTo(s2, CancelSend(n), s3, []);
  }

  /**
    In a batch, the end of an earlier polled stream empties the slot under a later statement:
    query `b` is still running and the newest, yet a cancel request now finds nothing.
   */
  lemma EarlierStreamClearsLaterId(s: State, a: string, b: string)
    requires Always(s) && a != b && Enabled(s, Poll(a)) && b in s.queries && !Ended(s, b)
    requires s.queries[a].conn == s.queries[b].conn && s.sessions[s.queries[b].conn].slot == Some(b)
    ensures CanRun(s, [Poll(a), Close(a)])
    ensures var t := Run(s, [Poll(a), Close(a)]);
            b in t.queries && t.queries[b] == s.queries[b] && t.queries[b].conn < |t.sessions| && t.sessions[t.queries[b].conn].slot == None
  {
    var s1 := Step(s, Poll(a));
    var s2 := Step(s1, Close(a));
    RunsTo(s, Poll(a), s1, [Close(a)]);
    RunsTo(s1, Close(a), s2, []);
  }

  /** The process with one connection whose first query has handed out its stream. */
  function OneStream(secret: int): State {
    State(2, [Session((1, secret), true, Some("a"), ["a"])], map[(1, secret) := 0], map["a" := TrinoQuery(0, Ready)], [], [], [])
  }

  lemma OneStreamIsReached(secret: int, es: seq<Event>)
    ensures var all := [Establish(secret), Submit(0, "a"), EagerDone("a")] + es;
            && (CanRun(OneStream(secret), es) ==> CanRun(INITIAL, all) && Run(INITIAL, all) == Run(OneStream(secret), es))
  {
    var e1, e2, e3 := Establish(secret), Submit(0, "a"), EagerDone("a");
    var s1 := Step(INITIAL, e1);
    assert s1.sessions == [Session((1, secret), true, None, [])];
    var s2 := Step(s1, e2);
    assert [] + ["a"] == ["a"];
    assert s2.sessions == [Session((1, secret), true, Some("a"), ["a"])];
    var s3 := Step(s2, e3);
    assert s3 == OneStream(secret);
    assert [e1, e2, e3] + es == [e1] + ([e2] + ([e3] + es));
    RunsTo(INITIAL, e1, s1, [e2] + ([e3] + es));
    RunsTo(s1, e2, s2, [e3] + es);
    RunsTo(s2, e3, s3, es);
  }

  /**
    From the start of the process: one connection submits two statements of a batch, and then its
    streams are polled in order. When the first stream ends, the id of the second, whose stream is
    still to be polled, is no longer in the slot.
   */
  lemma BatchLosesItsId(secret: int)
    ensures var es := [Establish(secret), Submit(0, "a"), EagerDone("a")] + [Submit(0, "b"), EagerDone("b"), Poll("a"), Close("a")];
            && CanRun(INITIAL, es)
            && Run(INITIAL, es).queries == map["a" := TrinoQuery(0, Closed(true)), "b" := TrinoQuery(0, Ready)]
            && Run(INITIAL, es).sessions == [Session((1, secret), true, None, ["a", "b"])]
  {
    var e1, e2, e3, e4 := Submit(0, "b"), EagerDone("b"), Poll("a"), Close("a");
    var s := OneStream(secret);
    assert "a"[0] != "b"[0];
    var s1 := Step(s, e1);
    assert ["a"] + ["b"] == ["a", "b"];
    assert s1.sessions == [Session((1, secret), true, Some("b"), ["a", "b"])];
    var s2 := Step(s1, e2);
    assert s2.queries == map["a" := TrinoQuery(0, Ready), "b" := TrinoQuery(0, Ready)];
    BatchStreamsEnd(s2, secret);
    RunsTo(s, e1, s1, [e2, e3, e4]);
    RunsTo(s1, e2, s2, [e3, e4]);
    assert [e1] + [e2, e3, e4] == [e1, e2, e3, e4] && [e2] + [e3, e4] == [e2, e3, e4];
    OneStreamIsReached(secret, [e1, e2, e3, e4]);
  }

  lemma BatchStreamsEnd(s: State, secret: int)
    requires s.sessions == [Session((1, secret), true, Some("b"), ["a", "b"])]
    requires s.queries == map["a" := TrinoQuery(0, Ready), "b" := TrinoQuery(0, Ready)] && "a" != "b"
    ensures CanRun(s, [Poll("a"), Close("a")])
    ensures var t := Run(s, [Poll("a"), Close("a")]);
            && t.queries == map["a" := TrinoQuery(0, Closed(true)), "b" := TrinoQuery(0, Ready)]
            && t.sessions == [Session((1, secret), true, None, ["a", "b"])]
  {
    var s1 := Step(s, Poll("a"));
    var s2 := Step(s1, Close("a"));
    RunsTo(s, Poll("a"), s1, [Close("a")]);
    RunsTo(s1, Close("a"), s2, []);
    assert [Poll("a")] + [Close("a")] == [Poll("a"), Close("a")] && [Close("a")] + [] == [Close("a")];
  }

  /** From the start of the process: a stream is dropped unpolled, and its id stays in the slot. */
  lemma DroppedStreamKeepsItsId(secret: int)
    ensures var es := [Establish(secret), Submit(0, "a"), EagerDone("a")] + [Close("a")];
            && CanRun(INITIAL, es)
            && Run(INITIAL, es).queries == map["a" := TrinoQuery(0, Closed(false))]
            && Run(INITIAL, es).sessions == [Session((1, secret), true, Some("a"), ["a"])]
  {
    var s := OneStream(secret);
    RunsTo(s, Close("a"), Step(s, Close("a")), []);
    assert [Close("a")] + [] == [Close("a")];
    OneStreamIsReached(secret, [Close("a")]);
  }

  lemma RunsTo(s: State, e: Event, t: State, es: seq<Event>)
    requires Enabled(s, e) && t == Step(s, e)
    ensures CanRun(s, [e] + es) <==> CanRun(t, es)
    ensures CanRun(t, es) ==> Run(s, [e] + es) == Run(t, es)
  {
    assert ([e] + es)[1..] == es;
  }

  // ---------------------------------------------------------------- after a disconnect

  /** No session that is established in the run gets this key. */
  predicate NeverHandsOut(s: State, es: seq<Event>, key: Key)
    requires CanRun(s, es)
    decreases |es|
  {
    es == []
    || (&& (es[0].Establish? ==> (s.nextPid, es[0].secret) != key)
        && NeverHandsOut(Step(s, es[0]), es[1..], key))
  }

  function RequestsUnder(cs: seq<Cancel>, key: Key): nat {
    if cs == [] then 0 else (if cs[0].key == key then 1 else 0) + RequestsUnder(cs[1..], key)
  }

  function SentUnder(xs: seq<Sent>, key: Key): nat {
    if xs == [] then 0 else (if xs[0].key == key then 1 else 0) + SentUnder(xs[1..], key)
  }

  lemma {:induction false} RequestsJoin(a: seq<Cancel>, b: seq<Cancel>, key: Key)
    ensures RequestsUnder(a + b, key) == RequestsUnder(a, key) + RequestsUnder(b, key)
  {
    if a == [] {
      assert a + b == b;
    } else {
      assert (a + b)[1..] == a[1..] + b;
      RequestsJoin(a[1..], b, key);
    }
  }

  lemma {:induction false} SentJoin(a: seq<Sent>, b: seq<Sent>, key: Key)
    ensures SentUnder(a + b, key) == SentUnder(a, key) + SentUnder(b, key)
  {
    if a == [] {
      assert a + b == b;
    } else {
      assert (a + b)[1..] == a[1..] + b;
      SentJoin(a[1..], b, key);
    }
  }

  lemma RequestAt(cs: seq<Cancel>, k: nat, key: Key)
    requires k < |cs|
    ensures RequestsUnder(cs, key)
         == RequestsUnder(cs[..k] + cs[k + 1..], key) + (if cs[k].key == key then 1 else 0)
  {
    assert cs == cs[..k] + ([cs[k]] + cs[k + 1..]);
    RequestsJoin(cs[..k], [cs[k]] + cs[k + 1..], key);
    RequestsJoin([cs[k]], cs[k + 1..], key);
    RequestsJoin(cs[..k], cs[k + 1..], key);
    OneRequest(cs[k], key);
  }

  lemma OneRequest(c: Cancel, key: Key)
    ensures RequestsUnder([c], key) == if c.key == key then 1 else 0
  {
    assert [c][1..] == [];
  }

  lemma OneSent(x: Sent, key: Key)
    ensures SentUnder([x], key) == if x.key == key then 1 else 0
  {
    assert [x][1..] == [];
  }

  lemma SendMovesRequest(s: State, k: nat, key: Key)
    requires Enabled(s, CancelSend(k))
    ensures var t := Step(s, CancelSend(k));
            SentUnder(t.sent, key) + RequestsUnder(t.cancels, key) <= SentUnder(s.sent, key) + RequestsUnder(s.cancels, key)
  {
    RequestAt(s.cancels, k, key);
    var c := s.cancels[k];
    if c.id.Some? {
      SentJoin(s.sent, [Sent(c.key, c.conn, c.id.value)], key);
      OneSent(Sent(c.key, c.conn, c.id.value), key);
    }
  }

  lemma ReadKeepsRequest(s: State, k: nat, key: Key)
    requires Enabled(s, CancelRead(k))
    ensures RequestsUnder(Step(s, CancelRead(k)).cancels, key) == RequestsUnder(s.cancels, key)
  {
    var cs, ds := s.cancels, Step(s, CancelRead(k)).cancels;
    RequestAt(cs, k, key);
    RequestAt(ds, k, key);
    assert ds[..k] == cs[..k] && ds[k + 1..] == cs[k + 1..];
  }

  lemma LookupAddsRequest(s: State, looked: Key, key: Key)
    requires looked in s.registry
    ensures RequestsUnder(Step(s, CancelLookup(looked)).cancels, key)
         == RequestsUnder(s.cancels, key) + (if looked == key then 1 else 0)
  {
    RequestsJoin(s.cancels, [LookedUp(looked, s.registry[looked])], key);
    OneRequest(LookedUp(looked, s.registry[looked]), key);
  }

  /** A cancel request under a key that is not registered changes nothing. */
  lemma UnknownKeyIsIgnored(s: State, key: Key)
    requires key !in s.registry
    ensures Step(s, CancelLookup(key)) == s
  {
  }

  lemma StepUnderGoneKey(s: State, e: Event, key: Key)
    requires Enabled(s, e) && key !in s.registry && (e.Establish? ==> (s.nextPid, e.secret) != key)
    ensures key !in Step(s, e).registry
    ensures var t := Step(s, e);
            SentUnder(t.sent, key) + RequestsUnder(t.cancels, key) <= SentUnder(s.sent, key) + RequestsUnder(s.cancels, key)
  {
    match e
    case CancelLookup(k) => if k in s.registry { LookupAddsRequest(s, k, key); }
    case CancelRead(k) => ReadKeepsRequest(s, k, key);
    case CancelSend(k) => SendMovesRequest(s, k, key);
    case _ =>
  }

  lemma {:induction false} GoneKeyStaysGone(s: State, es: seq<Event>, key: Key)
    requires CanRun(s, es) && key !in s.registry && NeverHandsOut(s, es, key)
    ensures var t := Run(s, es);
            && key !in t.registry
            && SentUnder(t.sent, key) + RequestsUnder(t.cancels, key) <= SentUnder(s.sent, key) + RequestsUnder(s.cancels, key)
    decreases |es|
  {
    if es == [] {
    } else {
      StepUnderGoneKey(s, es[0], key);
      GoneKeyStaysGone(Step(s, es[0]), es[1..], key);
    }
  }

  /**
    A disconnect ends it: over every run after it in which the key is not handed out again, the key is
    not registered, a cancel request under it changes nothing, and no more cancels are sent under it
    than there were requests under way at the disconnect.
   */
  lemma DisconnectEndsTheKey(s: State, c: nat, es: seq<Event>)
    requires Enabled(s, Disconnect(c)) && CanRun(Step(s, Disconnect(c)), es)
    requires NeverHandsOut(Step(s, Disconnect(c)), es, s.sessions[c].key)
    ensures var key, t := s.sessions[c].key, Run(Step(s, Disconnect(c)), es);
            && key !in t.registry
            && Step(t, CancelLookup(key)) == t
            && SentUnder(t.sent, key) <= SentUnder(s.sent, key) + RequestsUnder(s.cancels, key)
  {
    var key, u := s.sessions[c].key, Step(s, Disconnect(c));
    assert key !in u.registry && u.sent == s.sent && u.cancels == s.cancels;
    GoneKeyStaysGone(u, es, key);
    UnknownKeyIsIgnored(Run(u, es), key);
  }

  /** It ends nothing else: all other keys stay registered, and no slot is touched. */
  lemma DisconnectLeavesOthersAlone(s: State, c: nat)
    requires Enabled(s, Disconnect(c))
    ensures var t := Step(s, Disconnect(c));
            && (forall k :: k != s.sessions[c].key ==> (k in t.registry <==> k in s.registry))
            && (forall k :: k in t.registry ==> k in s.registry && t.registry[k] == s.registry[k])
            && |t.sessions| == |s.sessions| && t.queries == s.queries && t.cancels == s.cancels
            && (forall i :: 0 <= i < |s.sessions| ==> t.sessions[i].slot == s.sessions[i].slot)
  {
  }

  // ---------------------------------------------------------------- conservation

  function FoundIds(xs: seq<Option<string>>): multiset<string> {
    if xs == [] then multiset{}
    else (if xs[0].Some? then multiset{xs[0].value} else multiset{}) + FoundIds(xs[1..])
  }

  /** Ids that were read but not sent yet. */
  function PendingIds(cs: seq<Cancel>): multiset<string> {
    if cs == [] then multiset{}
    else (if cs[0].HasRead? && cs[0].id.Some? then multiset{cs[0].id.value} else multiset{}) + PendingIds(cs[1..])
  }

  function SentIds(xs: seq<Sent>): multiset<string> {
    if xs == [] then multiset{} else multiset{xs[0].id} + SentIds(xs[1..])
  }

  lemma {:induction false} FoundIdsJoin(a: seq<Option<string>>, b: seq<Option<string>>)
    ensures FoundIds(a + b) == FoundIds(a) + FoundIds(b)
  {
    if a == [] {
      assert a + b == b;
    } else {
      assert (a + b)[1..] == a[1..] + b;
      FoundIdsJoin(a[1..], b);
    }
  }

  lemma {:induction false} PendingIdsJoin(a: seq<Cancel>, b: seq<Cancel>)
    ensures PendingIds(a + b) == PendingIds(a) + PendingIds(b)
  {
    if a == [] {
      assert a + b == b;
    } else {
      assert (a + b)[1..] == a[1..] + b;
      PendingIdsJoin(a[1..], b);
    }
  }

  lemma {:induction false} SentIdsJoin(a: seq<Sent>, b: seq<Sent>)
    ensures SentIds(a + b) == SentIds(a) + SentIds(b)
  {
    if a == [] {
      assert a + b == b;
    } else {
      assert (a + b)[1..] == a[1..] + b;
      SentIdsJoin(a[1..], b);
    }
  }

  lemma PendingAt(cs: seq<Cancel>, k: nat)
    requires k < |cs|
    ensures PendingIds(cs) == PendingIds(cs[..k] + cs[k + 1..]) + PendingIds([cs[k]])
  {
    assert cs == cs[..k] + ([cs[k]] + cs[k + 1..]);
    PendingIdsJoin(cs[..k], [cs[k]] + cs[k + 1..]);
    PendingIdsJoin([cs[k]], cs[k + 1..]);
    PendingIdsJoin(cs[..k], cs[k + 1..]);
  }

  lemma PendingOne(c: Cancel)
    ensures PendingIds([c]) == if c.HasRead? && c.id.Some? then multiset{c.id.value} else multiset{}
  {
    assert [c][1..] == [];
  }

  ghost predicate Conserved(s: State) {
    FoundIds(s.found) == PendingIds(s.cancels) + SentIds(s.sent)
  }

  lemma LookupConserves(s: State, key: Key)
    requires Conserved(s)
    ensures Conserved(Step(s, CancelLookup(key)))
  {
    if key in s.registry {
      PendingIdsJoin(s.cancels, [LookedUp(key, s.registry[key])]);
      PendingOne(LookedUp(key, s.registry[key]));
    }
  }

  lemma ReadConserves(s: State, k: nat)
    requires Conserved(s) && Enabled(s, CancelRead(k))
    ensures Conserved(Step(s, CancelRead(k)))
  {
    var t := Step(s, CancelRead(k));
    var id := s.sessions[s.cancels[k].conn].slot;
    var one := if id.Some? then multiset{id.value} else multiset{};
    PendingAfterRead(s.cancels, k, t.cancels[k]);
    assert PendingIds(t.cancels) == PendingIds(s.cancels) + one;
    FoundIdsOneMore(s.found, id);
    Exchange(PendingIds(s.cancels), one, SentIds(s.sent));
  }

  lemma PendingAfterRead(cs: seq<Cancel>, k: nat, c: Cancel)
    requires k < |cs| && cs[k].LookedUp? && c.HasRead?
    ensures PendingIds(cs[k := c]) == PendingIds(cs) + if c.id.Some? then multiset{c.id.value} else multiset{}
  {
    var ds := cs[k := c];
    PendingAt(cs, k);
    PendingAt(ds, k);
    PendingOne(cs[k]);
    PendingOne(c);
    assert ds[..k] == cs[..k] && ds[k + 1..] == cs[k + 1..];
  }

  lemma FoundIdsOneMore(xs: seq<Option<string>>, x: Option<string>)
    ensures FoundIds(xs + [x]) == FoundIds(xs) + if x.Some? then multiset{x.value} else multiset{}
  {
    FoundIdsJoin(xs, [x]);
    assert [x][1..] == [];
  }

  lemma SendConserves(s: State, k: nat)
    requires Conserved(s) && Enabled(s, CancelSend(k))
    ensures Conserved(Step(s, CancelSend(k)))
  {
    var c, rest := s.cancels[k], s.cancels[..k] + s.cancels[k + 1..];
    PendingAt(s.cancels, k);
    PendingOne(c);
    if c.id.Some? {
      var x := Sent(c.key, c.conn, c.id.value);
      SentIdsOneMore(s.sent, x);
      Exchange(PendingIds(rest), multiset{x.id}, SentIds(s.sent));
    } else {
      assert PendingIds(s.cancels) == PendingIds(rest);
    }
  }

  lemma SentIdsOneMore(xs: seq<Sent>, x: Sent)
    ensures SentIds(xs + [x]) == SentIds(xs) + multiset{x.id}
  {
    SentIdsJoin(xs, [x]);
    assert [x][1..] == [] && SentIds([x]) == multiset{x.id};
  }

  lemma Exchange(p: multiset<string>, one: multiset<string>, q: multiset<string>)
    ensures (p + one) + q == p + (q + one)
  {
  }

  lemma {:induction false} RunConserves(s: State, es: seq<Event>)
    requires Conserved(s) && CanRun(s, es)
    ensures Conserved(Run(s, es))
    decreases |es|
  {
    if es == [] {
    } else {
      match es[0] {
        case CancelLookup(key) => LookupConserves(s, key);
        case CancelRead(k) => ReadConserves(s, k);
        case CancelSend(k) => SendConserves(s, k);
        case _ =>
      }
      RunConserves(Step(s, es[0]), es[1..]);
    }
  }

  /**
    Conservation, over every run: the ids sent to Trino and those about to be sent are together exactly
    the ids that were found in slots. Nothing found is lost or sent twice, and nothing else is sent.
   */
  lemma FoundIdsAreSentOnce(es: seq<Event>)
    requires CanRun(INITIAL, es)
    ensures var s := Run(INITIAL, es);
            FoundIds(s.found) == PendingIds(s.cancels) + SentIds(s.sent)
  {
    RunConserves(INITIAL, es);
  }

  /** A failed eager phase and the end of a polled stream end their query, and empty the slot of its connection. */
  lemma EndingsEnd(s: State, id: string)
    ensures Enabled(s, EagerFail(id)) ==>
              var t := Step(s, EagerFail(id)); Ended(t, id) && t.sessions[s.queries[id].conn].slot == None
    ensures Enabled(s, Close(id)) && s.queries[id].phase == Streaming ==>
              var t := Step(s, Close(id)); Ended(t, id) && t.sessions[s.queries[id].conn].slot == None
  {
  }

  // ---------------------------------------------------------------- the running process

  /** The process state as the handlers update it; every method is one atomic step. */
  class Gateway {
    var nextPid: int
    var sessions: seq<Session>
    var registry: map<Key, nat>
    var queries: map<string, TrinoQuery>
    var cancels: seq<Cancel>
    var found: seq<Option<string>>
    var sent: seq<Sent>

    ghost function Snapshot(): State
      reads this
    {
      State(nextPid, sessions, registry, queries, cancels, found, sent)
    }

    constructor ()
      ensures Snapshot() == INITIAL
    {
      nextPid, sessions, registry := 1, [], map[];
      queries, cancels, found, sent := map[], [], [], [];
    }

    /** `set_active_query_id` */
    method SetActiveQueryId(conn: nat, id: Option<string>)
      requires conn < |sessions|
      modifies this
      ensures Snapshot() == WithSlot(old(Snapshot()), conn, id)
    {
      var session := sessions[conn];
      session := session.(slot := id);
      sessions := sessions[conn := session];
    }

    /** `establish_session`: a fresh key, a registry entry and a slot. */
    method EstablishSession(secret: int) returns (key: Key)
      modifies this
      ensures Snapshot() == Step(old(Snapshot()), Establish(secret))
      ensures key == (old(nextPid), secret) && key in registry
    {
      var pid := nextPid;
      nextPid := Wrap32(nextPid + 1);
      key := (pid, secret);
      registry := registry[key := |sessions|];
      sessions := sessions + [Session(key, true, None, [])];
    }

    /** `Drop for ConnectionState` */
    method DropConnectionState(conn: nat)
      requires Enabled(Snapshot(), Disconnect(conn))
      modifies this
      ensures Snapshot() == Step(old(Snapshot()), Disconnect(conn))
    {
      registry := registry - {sessions[conn].key};
      sessions := sessions[conn := sessions[conn].(live := false)];
    }

    /** Trino accepted a query: its id is recorded before its reply is looked at. */
    method RecordSubmission(conn: nat, id: string)
      requires Enabled(Snapshot(), Submit(conn, id))
      modifies this
      ensures Snapshot() == Step(old(Snapshot()), Submit(conn, id))
    {
      SetActiveQueryId(conn, Some(id));
      sessions := sessions[conn := sessions[conn].(submitted := sessions[conn].submitted + [id])];
      queries := queries[id := TrinoQuery(conn, Eager)];
    }

    /** The eager phase ends, with an error or with a stream nobody has polled yet. */
    method FinishEagerPhase(id: string, ok: bool)
      requires Enabled(Snapshot(), EagerFail(id))
      modifies this
      ensures Snapshot() == Step(old(Snapshot()), if ok then EagerDone(id) else EagerFail(id))
    {
      if !ok {
        SetActiveQueryId(queries[id].conn, None);
      }
      queries := queries[id := queries[id].(phase := if ok then Ready else Failed)];
    }

    method PollStream(id: string)
      requires Enabled(Snapshot(), Poll(id))
      modifies this
      ensures Snapshot() == Step(old(Snapshot()), Poll(id))
    {
      queries := queries[id := queries[id].(phase := Streaming)];
    }

    /** A stream finishes, fails or is dropped; the guard exists only if it was polled. */
    method CloseStream(id: string)
      requires Enabled(Snapshot(), Close(id))
      modifies this
      ensures Snapshot() == Step(old(Snapshot()), Close(id))
    {
      var polled := queries[id].phase == Streaming;
      if polled {
        SetActiveQueryId(queries[id].conn, None);
      }
      queries := queries[id := queries[id].(phase := Closed(polled))];
    }

    /** `lookup_cancel`, the first step of `on_cancel_request`. */
    method LookupCancel(key: Key) returns (handle: Option<nat>)
      modifies this
      ensures Snapshot() == Step(old(Snapshot()), CancelLookup(key))
      ensures handle.Some? <==> key in registry
      ensures handle.Some? ==> handle.value < |cancels| && cancels[handle.value] == LookedUp(key, registry[key])
    {
      handle := None;
      if key in registry {
        handle := Some(|cancels|);
        cancels := cancels + [LookedUp(key, registry[key])];
      }
    }

    /** The locked slot read, the second step. */
    method ReadSlot(k: nat) returns (id: Option<string>)
      requires Enabled(Snapshot(), CancelRead(k))
      modifies this
      ensures Snapshot() == Step(old(Snapshot()), CancelRead(k))
      ensures id == old(sessions[cancels[k].conn].slot)
    {
      var c := cancels[k];
      id := sessions[c.conn].slot;
      cancels := cancels[k := HasRead(c.key, c.conn, id)];
      found := found + [id];
    }

    /** The request to Trino, the last step; a request that found nothing sends nothing. */
    method SendCancel(k: nat)
      requires Enabled(Snapshot(), CancelSend(k))
      modifies this
      ensures Snapshot() == Step(old(Snapshot()), CancelSend(k))
    {
      var c := cancels[k];
      cancels := cancels[..k] + cancels[k + 1..];
      if c.id.Some? {
        sent := sent + [Sent(c.key, c.conn, c.id.value)];
      }
    }
  }
}
