/**
  `execute_trino_query`: Trino answers with a chain of pages. The eager phase walks the chain
  until columns appear; the row stream it returns walks the rest as it is polled.
 */
module TrinoStream {
  import opened Options

  datatype Column = Column(name: string, trinoType: string)

  datatype Row = Row(cells: seq<string>)

  /** Result data: rows in the reply itself, or a form the gateway does not read. */
  datatype Data = Direct(rows: seq<Row>) | OtherEncoding

  /** What a request for a page comes back with; `next` is the reply behind its nextUri. */
  datatype Reply =
    | Lost(message: string)
    | Page(error: Option<string>, columns: Option<seq<Column>>, data: Option<Data>, next: Option<Reply>)

  datatype Item = RowItem(cells: seq<string>) | ErrorItem(message: string)

  /** The returned stream before its first poll. */
  datatype RowStream = RowStream(columns: seq<Column>, initialRows: seq<Row>, nextUri: Option<Reply>)

  datatype Result = Opened(stream: RowStream) | UserError(message: string)

  function ExtractDirectRows(data: Option<Data>): seq<Row> {
    match data
    case Some(Direct(rows)) => rows
    case _ => []
  }

  // ---------------------------------------------------------------- the chain as a whole

  /** All replies of the chain, in order. */
  function Pages(r: Reply): (ps: seq<Reply>)
    ensures |ps| > 0 && ps[0] == r
  {
    [r] + (if r.Page? && r.next.Some? then Pages(r.next.value) else [])
  }

  predicate Fails(r: Reply) { r.Lost? || r.error.Some? }

  function MessageOf(r: Reply): string
    requires Fails(r)
  {
    if r.Lost? then r.message else r.error.value
  }

  function ColumnsOf(r: Reply): seq<Column> {
    if r.Page? && r.columns.Some? then r.columns.value else []
  }

  function RowsOf(r: Reply): seq<Row> {
    if r.Page? then ExtractDirectRows(r.data) else []
  }

  function NextOf(r: Reply): Option<Reply> {
    if r.Page? then r.next else None
  }

  /** None of the first `k` pages fails. */
  predicate GoodUpTo(ps: seq<Reply>, k: nat)
    requires k <= |ps|
  {
    forall i :: 0 <= i < k ==> !Fails(ps[i])
  }

  /** The rows of pages `a` to `b`, in order. */
  function Rows(ps: seq<Reply>, a: nat, b: nat): seq<Row>
    requires b <= |ps|
  {
    if a >= b then [] else Rows(ps, a, b - 1) + RowsOf(ps[b - 1])
  }

  /** The first failing page from `i` on, or the end of the chain. */
  function FirstFailure(ps: seq<Reply>, i: nat): (k: nat)
    requires i <= |ps|
    ensures i <= k <= |ps| && (k < |ps| ==> Fails(ps[k])) && forall j :: i <= j < k ==> !Fails(ps[j])
    decreases |ps| - i
  {
    if i == |ps| || Fails(ps[i]) then i else FirstFailure(ps, i + 1)
  }

  function Encoded(encode: (seq<Column>, Row) -> Item, columns: seq<Column>, rows: seq<Row>): seq<Item> {
    if rows == [] then [] else [encode(columns, rows[0])] + Encoded(encode, columns, rows[1..])
  }

  /** Rows, and the error of the page that ended them, as stream items. */
  function Items(encode: (seq<Column>, Row) -> Item, columns: seq<Column>, rows: seq<Row>, failed: Option<Reply>): seq<Item>
    requires failed.Some? ==> Fails(failed.value)
  {
    Encoded(encode, columns, rows) + (if failed.Some? then [ErrorItem(MessageOf(failed.value))] else [])
  }

  /** The first failing page from `i` on, if there is one. */
  function FailedPage(ps: seq<Reply>, i: nat): (f: Option<Reply>)
    requires i <= |ps|
    ensures f.Some? ==> Fails(f.value)
  {
    var k := FirstFailure(ps, i);
    if k < |ps| then Some(ps[k]) else None
  }

  /** What a client should receive: the rows of all pages before the first failing one, then its error. */
  function Delivery(encode: (seq<Column>, Row) -> Item, columns: seq<Column>, ps: seq<Reply>): seq<Item> {
    Items(encode, columns, Rows(ps, 0, FirstFailure(ps, 0)), FailedPage(ps, 0))
  }

  function PagesBehind(next: Option<Reply>): seq<Reply> {
    if next.None? then [] else Pages(next.value)
  }

  // ---------------------------------------------------------------- field by field, row by row

  predicate LinkedAt(ps: seq<Reply>, k: nat)
    requires k < |ps|
  {
    if k + 1 < |ps| then ps[k].Page? && ps[k].next == Some(ps[k + 1]) else ps[k].Lost? || ps[k].next == None
  }

  /** The replies one gets by following nextUri from the first one to the end. */
  ghost predicate Chain(first: Reply, ps: seq<Reply>) {
    |ps| > 0 && ps[0] == first && forall k :: 0 <= k < |ps| ==> LinkedAt(ps, k)
  }

  predicate Arrived(r: Reply) { r.Page? && r.error == None }

  /** The rows a reply carries in itself. */
  function DirectRows(r: Reply): seq<Row> {
    if r.Page? && r.data.Some? && r.data.value.Direct? then r.data.value.rows else []
  }

  /** How many rows the first `i` replies carry. */
  function RowsBefore(ps: seq<Reply>, i: nat): nat
    requires i <= |ps|
  {
    if i == 0 then 0 else RowsBefore(ps, i - 1) + |DirectRows(ps[i - 1])|
  }

  /** The rows of reply `i` stand in `rows` from their place on. */
  predicate PlacedAt(rows: seq<Row>, ps: seq<Reply>, i: nat)
    requires i < |ps|
  {
    var at, d := RowsBefore(ps, i), DirectRows(ps[i]);
    at + |d| <= |rows| && forall j :: 0 <= j < |d| ==> rows[at + j] == d[j]
  }

  /** `rows` are the rows of the first `n` replies, each at its place. */
  ghost predicate HoldsRows(rows: seq<Row>, ps: seq<Reply>, n: nat)
    requires n <= |ps|
  {
    |rows| == RowsBefore(ps, n) && forall i :: 0 <= i < n ==> PlacedAt(rows, ps, i)
  }

  /** The encoded rows of reply `i` stand in `items` from their place on, `skip` items further. */
  predicate EncodedAt(encode: (seq<Column>, Row) -> Item, cs: seq<Column>, items: seq<Item>, skip: nat, ps: seq<Reply>, i: nat)
    requires i < |ps|
  {
    var at, d := skip + RowsBefore(ps, i), DirectRows(ps[i]);
    at + |d| <= |items| && forall j :: 0 <= j < |d| ==> items[at + j] == encode(cs, d[j])
  }

  /**
    `items` are the encoded `held` rows and then those of the first `f` replies of `ps`, each at its
    place; `f` is the first reply that did not arrive, whose error comes last, or the end.
   */
  ghost predicate Delivers(encode: (seq<Column>, Row) -> Item, cs: seq<Column>, held: seq<Row>, ps: seq<Reply>, f: nat, items: seq<Item>)
    requires f <= |ps|
  {
    && (forall i :: 0 <= i < f ==> Arrived(ps[i]))
    && (f < |ps| ==> !Arrived(ps[f]))
    && |items| == |held| + RowsBefore(ps, f) + (if f < |ps| then 1 else 0)
    && (forall i :: 0 <= i < |held| ==> items[i] == encode(cs, held[i]))
    && (forall i :: 0 <= i < f ==> EncodedAt(encode, cs, items, |held|, ps, i))
    && (f < |ps| ==> items[|items| - 1] == ErrorItem(if ps[f].Lost? then ps[f].message else ps[f].error.value))
  }

  /** What opening a stream at reply `k` of the chain must give. */
  ghost predicate OpensAt(ps: seq<Reply>, k: nat, result: Result)
    requires k < |ps|
  {
    && (forall j :: 0 <= j < k ==> Arrived(ps[j]) && (ps[j].columns == None || |ps[j].columns.value| == 0))
    && match result
       case UserError(message) => !Arrived(ps[k]) && message == if ps[k].Lost? then ps[k].message else ps[k].error.value
       case Opened(stream) =>
         && Arrived(ps[k])
         && stream.columns == (if ps[k].columns.Some? then ps[k].columns.value else [])
         && (|stream.columns| > 0 || k + 1 == |ps|)
         && HoldsRows(stream.initialRows, ps, k + 1)
         && stream.nextUri == if k + 1 < |ps| then Some(ps[k + 1]) else None
  }

  lemma PagesAreTheChain(r: Reply)
    ensures Chain(r, Pages(r))
  {
    var ps := Pages(r);
    forall k | 0 <= k < |ps|
      ensures LinkedAt(ps, k)
    {
      PagesLink(r, k);
      if k + 1 < |ps| { LinkIsField(ps[k], ps[k + 1]); }
    }
  }

  lemma LinkIsField(r: Reply, next: Reply)
    requires NextOf(r) == Some(next)
    ensures r.Page? && r.next == Some(next)
  {
  }

  lemma {:induction false} RowsAreHeld(ps: seq<Reply>, n: nat)
    requires n <= |ps|
    ensures HoldsRows(Rows(ps, 0, n), ps, n)
    decreases n
  {
    if n == 0 {
    } else {
      RowsAreHeld(ps, n - 1);
      OneMorePage(Rows(ps, 0, n - 1), ps, n);
    }
  }

  lemma {:induction false} OneMorePage(rows: seq<Row>, ps: seq<Reply>, n: nat)
    requires 0 < n <= |ps| && HoldsRows(rows, ps, n - 1)
    ensures HoldsRows(rows + RowsOf(ps[n - 1]), ps, n)
  {
    assert RowsOf(ps[n - 1]) == DirectRows(ps[n - 1]);
    var all := rows + DirectRows(ps[n - 1]);
    forall i | 0 <= i < n
      ensures PlacedAt(all, ps, i)
    {
      if i < n - 1 { assert PlacedAt(rows, ps, i); }
    }
  }

  lemma {:induction false} EncodedByIndex(encode: (seq<Column>, Row) -> Item, cs: seq<Column>, rows: seq<Row>)
    ensures |Encoded(encode, cs, rows)| == |rows|
    ensures forall i :: 0 <= i < |rows| ==> Encoded(encode, cs, rows)[i] == encode(cs, rows[i])
  {
    if rows == [] {
    } else {
      EncodedByIndex(encode, cs, rows[1..]);
    }
  }

  lemma {:induction false} PageIsEncoded(encode: (seq<Column>, Row) -> Item, cs: seq<Column>, held: seq<Row>, rows: seq<Row>, items: seq<Item>,
                      ps: seq<Reply>, i: nat)
    requires i < |ps| && PlacedAt(rows, ps, i) && |held + rows| <= |items|
    requires forall n :: 0 <= n < |held + rows| ==> items[n] == encode(cs, (held + rows)[n])
    ensures EncodedAt(encode, cs, items, |held|, ps, i)
  {
    var at, d := RowsBefore(ps, i), DirectRows(ps[i]);
    forall j | 0 <= j < |d|
      ensures items[|held| + at + j] == encode(cs, d[j])
    {
      assert (held + rows)[|held| + at + j] == rows[at + j];
    }
  }

  lemma FailuresDidNotArrive(r: Reply)
    ensures Fails(r) <==> !Arrived(r)
    ensures Fails(r) ==> MessageOf(r) == if r.Lost? then r.message else r.error.value
  {
  }

  lemma {:induction false} ItemsDeliver(encode: (seq<Column>, Row) -> Item, cs: seq<Column>, held: seq<Row>, ps: seq<Reply>)
    ensures var f := FirstFailure(ps, 0);
            Delivers(encode, cs, held, ps, f, Items(encode, cs, held + Rows(ps, 0, f), FailedPage(ps, 0)))
  {
    var f := FirstFailure(ps, 0);
    var rows := Rows(ps, 0, f);
    var items := Items(encode, cs, held + rows, FailedPage(ps, 0));
    RowsAreHeld(ps, f);
    EncodedByIndex(encode, cs, held + rows);
    forall i | 0 <= i < f
      ensures Arrived(ps[i]) && EncodedAt(encode, cs, items, |held|, ps, i)
    {
      FailuresDidNotArrive(ps[i]);
      PageIsEncoded(encode, cs, held, rows, items, ps, i);
    }
    if f < |ps| { FailuresDidNotArrive(ps[f]); }
    assert forall i :: 0 <= i < |held| ==> (held + rows)[i] == held[i];
  }

  lemma {:induction false} EagerOpens(r: Reply)
    ensures OpensAt(Pages(r), StopAt(Pages(r), 0), EagerResult(Pages(r)))
  {
    var ps := Pages(r);
    var k := StopAt(ps, 0);
    RowsAreHeld(ps, k + 1);
    PagesLink(r, k);
  }

  // ---------------------------------------------------------------- lemmas about chains

  lemma {:induction false} PagesLink(r: Reply, k: nat)
    requires k < |Pages(r)|
    ensures NextOf(Pages(r)[k]) == if k + 1 < |Pages(r)| then Some(Pages(r)[k + 1]) else None
    decreases k
  {
    if k > 0 {
      PagesLink(r.next.value, k - 1);
    }
  }

  /** Each reply's nextUri leads to the one after it. */
  ghost predicate Linked(ps: seq<Reply>) {
    forall k {:trigger NextOf(ps[k])} :: 0 <= k < |ps| ==> NextOf(ps[k]) == if k + 1 < |ps| then Some(ps[k + 1]) else None
  }

  lemma PagesAreLinked(r: Reply)
    ensures Linked(Pages(r))
  {
    forall k | 0 <= k < |Pages(r)|
      ensures NextOf(Pages(r)[k]) == if k + 1 < |Pages(r)| then Some(Pages(r)[k + 1]) else None
    {
      PagesLink(r, k);
    }
  }

  lemma {:induction false} PagesBehindLink(r: Reply, k: nat)
    requires k < |Pages(r)|
    ensures PagesBehind(NextOf(Pages(r)[k])) == Pages(r)[k + 1..]
    decreases k
  {
    if k > 0 {
      var tail := Pages(r.next.value);
      assert Pages(r) == [r] + tail;
      PagesBehindLink(r.next.value, k - 1);
      assert Pages(r)[k] == tail[k - 1] && Pages(r)[k + 1..] == tail[k..];
    }
  }

  lemma {:induction false} RowsJoin(ps: seq<Reply>, a: nat, b: nat, c: nat)
    requires a <= b <= c <= |ps|
    ensures Rows(ps, a, b) + Rows(ps, b, c) == Rows(ps, a, c)
    decreases c
  {
    if b < c { RowsJoin(ps, a, b, c - 1); }
  }

  lemma {:induction false} RowsOfSuffix(ps: seq<Reply>, k: nat, n: nat)
    requires k + n <= |ps|
    ensures Rows(ps[k..], 0, n) == Rows(ps, k, k + n)
    decreases n
  {
    if n > 0 { RowsOfSuffix(ps, k, n - 1); }
  }

  lemma {:induction false} FailureOfSuffix(ps: seq<Reply>, k: nat, i: nat)
    requires k + i <= |ps|
    ensures FirstFailure(ps[k..], i) + k == FirstFailure(ps, k + i)
    decreases |ps| - i
  {
    if k + i < |ps| { FailureOfSuffix(ps, k, i + 1); }
  }

  lemma {:induction false} EncodedAppend(encode: (seq<Column>, Row) -> Item, cs: seq<Column>, a: seq<Row>, b: seq<Row>)
    ensures Encoded(encode, cs, a + b) == Encoded(encode, cs, a) + Encoded(encode, cs, b)
  {
    if a == [] {
      assert a + b == b;
    } else {
      assert (a + b)[1..] == a[1..] + b;
      EncodedAppend(encode, cs, a[1..], b);
    }
  }

  lemma {:induction false} FailureFrom(ps: seq<Reply>, i: nat, k: nat)
    requires i <= k <= |ps| && forall j :: i <= j < k ==> !Fails(ps[j])
    ensures FirstFailure(ps, i) == FirstFailure(ps, k)
    decreases k - i
  {
    if i < k { FailureFrom(ps, i + 1, k); }
  }

  // ---------------------------------------------------------------- the shared slot

  class ActiveQuerySlot {
    var id: Option<string>
    constructor () ensures id == None { id := None; }
  }

  method SetActiveQueryId(slot: ActiveQuerySlot?, id: Option<string>)
    modifies slot
    ensures slot != null ==> slot.id == id
  {
    if slot != null {
      slot.id := id;
    }
  }

  // ---------------------------------------------------------------- eager phase

  /** The page the eager phase stops at: the first from `i` on that fails or shows columns, or the last. */
  function StopAt(ps: seq<Reply>, i: nat): (k: nat)
    requires i < |ps|
    ensures i <= k < |ps|
    ensures forall j :: i <= j < k ==> !Fails(ps[j]) && |ColumnsOf(ps[j])| == 0
    ensures k + 1 < |ps| ==> Fails(ps[k]) || |ColumnsOf(ps[k])| > 0
    decreases |ps| - i
  {
    if i + 1 == |ps| || Fails(ps[i]) || |ColumnsOf(ps[i])| > 0 then i else StopAt(ps, i + 1)
  }

  /** What the eager phase should give: the error of that page, or a stream holding all rows up to it. */
  function EagerResult(ps: seq<Reply>): Result
    requires |ps| > 0
  {
    var k := StopAt(ps, 0);
    if Fails(ps[k]) then UserError(MessageOf(ps[k])) else Opened(RowStream(ColumnsOf(ps[k]), Rows(ps, 0, k + 1), NextOf(ps[k])))
  }

  /**
    The eager phase opens a stream exactly when some page shows columns, or the chain ends,
    before any page fails. It stops at the first page with columns, holds exactly the rows up to
    that page, and leaves the rest of the chain unfetched. It leaves the query id in the slot
    when it opens a stream and takes it out when it fails after Trino gave one.
   */
  method ExecuteTrinoQuery(id: string, first: Reply, slot: ActiveQuerySlot?) returns (result: Result)
    modifies slot
    ensures result == EagerResult(Pages(first))
    ensures Chain(first, Pages(first)) && OpensAt(Pages(first), StopAt(Pages(first), 0), result)
    ensures slot != null && result.Opened? ==> slot.id == Some(id)
    ensures slot != null && result.UserError? ==> slot.id == if first.Lost? then old(slot.id) else None
  {
    PagesAreLinked(first);
    PagesAreTheChain(first);
    EagerOpens(first);
    if first.Lost? {
      return UserError(first.message);
    }
    SetActiveQueryId(slot, Some(id));
    result := OpenStream(first, Pages(first));
    if result.UserError? {
      SetActiveQueryId(slot, None);
    }
  }

  /** The error check made on every reply: the request failed, or Trino reports an error. */
  method CheckReply(reply: Reply) returns (failure: Option<string>)
    ensures failure == if Fails(reply) then Some(MessageOf(reply)) else None
  {
    if reply.Lost? {
      return Some(reply.message);
    }
    return reply.error;
  }

  method OpenStream(first: Reply, ghost ps: seq<Reply>) returns (result: Result)
    requires |ps| > 0 && ps[0] == first && Linked(ps)
    ensures result == EagerResult(ps)
  {
    ghost var k := 0;
    var failure := CheckReply(first);
    var columns, nextUri := ColumnsOf(first), NextOf(first);
    var initialRows := RowsOf(first);
    assert Rows(ps, 0, 1) == Rows(ps, 0, 0) + RowsOf(first);
    while failure.None? && |columns| == 0 && nextUri.Some?
      invariant k < |ps| && StopAt(ps, 0) == StopAt(ps, k)
      invariant failure == if Fails(ps[k]) then Some(MessageOf(ps[k])) else None
      invariant columns == ColumnsOf(ps[k]) && initialRows == Rows(ps, 0, k + 1) && nextUri == NextOf(ps[k])
      decreases |ps| - k
    {
      var page := nextUri.value;
      assert k + 1 < |ps| && ps[k + 1] == page;
      k := k + 1;
      failure := CheckReply(page);
      columns, nextUri := ColumnsOf(page), NextOf(page);
      initialRows := initialRows + RowsOf(page);
      assert initialRows == Rows(ps, 0, k + 1);
    }
    assert StopAt(ps, k) == k;
    result := if failure.Some? then UserError(failure.value) else Opened(RowStream(columns, initialRows, nextUri));
  }

  // ---------------------------------------------------------------- lazy phase

  /** Polling a stream to its end: the rows it holds, then the pages it has not fetched. */
  method Drain(stream: RowStream, encode: (seq<Column>, Row) -> Item) returns (items: seq<Item>)
    ensures var rest := PagesBehind(stream.nextUri);
            && items == Items(encode, stream.columns, stream.initialRows + Rows(rest, 0, FirstFailure(rest, 0)), FailedPage(rest, 0))
            && (stream.nextUri.Some? ==> Chain(stream.nextUri.value, rest)) && (stream.nextUri.None? ==> rest == [])
            && Delivers(encode, stream.columns, stream.initialRows, rest, FirstFailure(rest, 0), items)
  {
    if stream.nextUri.Some? {
      PagesAreLinked(stream.nextUri.value);
      PagesAreTheChain(stream.nextUri.value);
    }
    ItemsDeliver(encode, stream.columns, stream.initialRows, PagesBehind(stream.nextUri));
    items := YieldAll(stream, encode, PagesBehind(stream.nextUri));
  }

  method YieldAll(stream: RowStream, encode: (seq<Column>, Row) -> Item, ghost rest: seq<Reply>) returns (items: seq<Item>)
    requires stream.nextUri == (if rest == [] then None else Some(rest[0])) && Linked(rest)
    ensures items == Items(encode, stream.columns, stream.initialRows + Rows(rest, 0, FirstFailure(rest, 0)), FailedPage(rest, 0))
  {
    var cs := stream.columns;
    items := YieldRows(cs, stream.initialRows, encode);
    var nextUri := stream.nextUri;
    ghost var k := 0;
    assert stream.initialRows + Rows(rest, 0, 0) == stream.initialRows;
    while nextUri.Some?
      invariant k <= |rest| && GoodUpTo(rest, k)
      invariant nextUri == if k < |rest| then Some(rest[k]) else None
      invariant items == Encoded(encode, cs, stream.initialRows + Rows(rest, 0, k))
      decreases |rest| - k
    {
      var chunk := nextUri.value;
      var failure := CheckReply(chunk);
      if failure.Some? {
        FailureFrom(rest, 0, k);
        items := items + [ErrorItem(failure.value)];
        return;
      }
      var rows := ExtractDirectRows(chunk.data);
      var more := YieldRows(cs, rows, encode);
      items := items + more;
      MoreRows(encode, cs, stream.initialRows, rest, k);
      nextUri := chunk.next;
      assert nextUri == NextOf(rest[k]);
      k := k + 1;
    }
    FailureFrom(rest, 0, k);
    assert items == items + [];
  }

  lemma {:induction false} MoreRows(encode: (seq<Column>, Row) -> Item, cs: seq<Column>, initial: seq<Row>, ps: seq<Reply>, k: nat)
    requires k < |ps|
    ensures Encoded(encode, cs, initial + Rows(ps, 0, k + 1)) == Encoded(encode, cs, initial + Rows(ps, 0, k)) + Encoded(encode, cs, RowsOf(ps[k]))
  {
    EncodedAppend(encode, cs, initial + Rows(ps, 0, k), RowsOf(ps[k]));
    assert initial + Rows(ps, 0, k) + RowsOf(ps[k]) == initial + Rows(ps, 0, k + 1);
  }

  method YieldRows(cs: seq<Column>, rows: seq<Row>, encode: (seq<Column>, Row) -> Item) returns (items: seq<Item>)
    ensures items == Encoded(encode, cs, rows)
  {
    items := [];
    for i := 0 to |rows|
      invariant items == Encoded(encode, cs, rows[..i])
    {
      items := items + [encode(cs, rows[i])];
      assert rows[..i + 1] == rows[..i] + [rows[i]];
      EncodedAppend(encode, cs, rows[..i], [rows[i]]);
      assert Encoded(encode, cs, [rows[i]]) == [encode(cs, rows[i])] + Encoded(encode, cs, []);
    }
    assert rows[..|rows|] == rows;
  }

  // ---------------------------------------------------------------- both phases

  /**
    Paging conservation: wherever in the chain columns show up, the eager phase followed by the
    stream gives the client the rows of every page before the first failing one, in order, none
    lost or repeated, followed by one error item if a page fails lazily.
   */
  method QueryToEnd(id: string, first: Reply, slot: ActiveQuerySlot?, encode: (seq<Column>, Row) -> Item)
    returns (result: Result, items: seq<Item>)
    modifies slot
    ensures Chain(first, Pages(first)) && OpensAt(Pages(first), StopAt(Pages(first), 0), result)
    ensures result.Opened? ==>
              Delivers(encode, result.stream.columns, [], Pages(first), FirstFailure(Pages(first), 0), items)
    ensures result.UserError? ==> items == []
  {
    result := ExecuteTrinoQuery(id, first, slot);
    items := [];
    if result.Opened? {
      items := Drain(result.stream, encode);
      BothPhasesDeliver(first, result.stream, encode, items);
    }
  }

  lemma {:induction false} BothPhasesDeliver(first: Reply, stream: RowStream, encode: (seq<Column>, Row) -> Item, items: seq<Item>)
    requires EagerResult(Pages(first)) == Opened(stream)
    requires var rest := PagesBehind(stream.nextUri);
             items == Items(encode, stream.columns, stream.initialRows + Rows(rest, 0, FirstFailure(rest, 0)), FailedPage(rest, 0))
    ensures Delivers(encode, stream.columns, [], Pages(first), FirstFailure(Pages(first), 0), items)
  {
    DeliveredWhole(first, stream, encode, items);
    DeliveryDelivers(encode, stream.columns, Pages(first));
  }

  lemma {:induction false} DeliveredWhole(first: Reply, stream: RowStream, encode: (seq<Column>, Row) -> Item, items: seq<Item>)
    requires EagerResult(Pages(first)) == Opened(stream)
    requires var rest := PagesBehind(stream.nextUri);
             items == Items(encode, stream.columns, stream.initialRows + Rows(rest, 0, FirstFailure(rest, 0)), FailedPage(rest, 0))
    ensures items == Delivery(encode, stream.columns, Pages(first))
  {
    OpenedParts(Pages(first), stream);
    PagesBehindLink(first, StopAt(Pages(first), 0));
    PartsJoin(Pages(first), PagesBehind(stream.nextUri), stream, encode, items);
  }

  lemma {:induction false} OpenedParts(ps: seq<Reply>, stream: RowStream)
    requires |ps| > 0 && EagerResult(ps) == Opened(stream)
    ensures var k := StopAt(ps, 0);
            GoodUpTo(ps, k + 1) && stream.initialRows == Rows(ps, 0, k + 1) && stream.nextUri == NextOf(ps[k])
  {
    var k := StopAt(ps, 0);
    assert !Fails(ps[k]);
    assert stream == RowStream(ColumnsOf(ps[k]), Rows(ps, 0, k + 1), NextOf(ps[k]));
  }

  lemma {:induction false} PartsJoin(ps: seq<Reply>, rest: seq<Reply>, stream: RowStream, encode: (seq<Column>, Row) -> Item, items: seq<Item>)
    requires |ps| > 0
    requires var k := StopAt(ps, 0);
             GoodUpTo(ps, k + 1) && stream.initialRows == Rows(ps, 0, k + 1) && rest == ps[k + 1..]
    requires items == Items(encode, stream.columns, stream.initialRows + Rows(rest, 0, FirstFailure(rest, 0)), FailedPage(rest, 0))
    ensures items == Delivery(encode, stream.columns, ps)
  {
    PhasesJoin(ps, rest, StopAt(ps, 0), encode, stream.columns);
  }

  lemma {:induction false} DeliveryDelivers(encode: (seq<Column>, Row) -> Item, cs: seq<Column>, ps: seq<Reply>)
    ensures Delivers(encode, cs, [], ps, FirstFailure(ps, 0), Delivery(encode, cs, ps))
  {
    var rows := Rows(ps, 0, FirstFailure(ps, 0));
    ItemsDeliver(encode, cs, [], ps);
    assert [] + rows == rows;
  }

  /** Splitting the chain after page k and delivering both parts delivers the whole. */
  lemma {:induction false} PhasesJoin(ps: seq<Reply>, rest: seq<Reply>, k: nat, encode: (seq<Column>, Row) -> Item, cs: seq<Column>)
    requires k < |ps| && GoodUpTo(ps, k + 1) && rest == ps[k + 1..]
    ensures Delivery(encode, cs, ps)
         == Items(encode, cs, Rows(ps, 0, k + 1) + Rows(rest, 0, FirstFailure(rest, 0)), FailedPage(rest, 0))
  {
    var g := FirstFailure(rest, 0);
    FailureOfSuffix(ps, k + 1, 0);
    FailureFrom(ps, 0, k + 1);
    assert FirstFailure(ps, 0) == k + 1 + g;
    RowsOfSuffix(ps, k + 1, g);
    RowsJoin(ps, 0, k + 1, k + 1 + g);
    assert FailedPage(ps, 0) == FailedPage(rest, 0);
  }
}
