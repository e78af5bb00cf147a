/**
  What a query means to an engine.

  Everything the two engines share (tables, operators, joins, grouping, sorting, ...) is a
  parameter, `Common`. An engine adds its own function table, cast table and default LIKE
  escape, and a dialect: Trino has no ILIKE, no LIKE ANY, no `::` and none of PostgreSQL's own
  type names; it takes only integer literals as row counts, rejects `LIMIT n OFFSET m` in that
  order and rejects `FETCH FIRST 0 ROWS ONLY`.
 */
module SqlSemantics {
  import opened Options
  import opened SqlAst
  import opened Rewrite
  import opened Texts
  import opened LikePattern

  datatype Val = VNull | VBool(b: bool) | VNum(n: real) | VText(s: string) | VArray(elems: seq<Val>) | VStar | VError

  type Row = seq<(string, Val)>

  datatype Outcome = Rows(rows: seq<Row>) | Rejected

  datatype Dialect = Postgres | Trino

  /** How a call was written: `f`, `f(SELECT ...)` or `f(x, ...)`. */
  datatype Shape = Bare | OfQuery | OfList(arity: nat)

  datatype Common = Common(
    lower: char -> char,
    tables: string -> seq<Row>,
    op: (string, seq<Val>) -> Val,
    sub: (string, seq<Val>, Outcome) -> Val,
    alias: (string, seq<Row>) -> seq<Row>,
    join: (string, seq<Row>, seq<Row>, seq<Val>) -> seq<Row>,
    group: (seq<seq<Val>>, seq<Row>) -> seq<seq<Row>>,
    project: (seq<string>, seq<Val>, Row) -> Row,
    distinct: seq<Row> -> seq<Row>,
    setOp: (string, seq<Row>, seq<Row>) -> seq<Row>,
    values: (nat, seq<Val>) -> seq<Row>,
    sort: (seq<seq<Val>>, seq<Row>) -> seq<Row>,
    ties: (seq<seq<Val>>, seq<Row>, nat, nat) -> seq<Row>)

  /**
    A function gets its arguments on the current row and on every row of the current group,
    so scalar and aggregate functions live in one table.
   */
  datatype Engine = Engine(
    dialect: Dialect,
    common: Common,
    defaultEscape: Option<char>,
    known: seq<string> -> bool,
    isAggregate: seq<string> -> bool,
    fns: (seq<string>, Shape, seq<Val>, seq<seq<Val>>) -> Val,
    cast: (bool, DataType, Val) -> Val)

  datatype Frame = Frame(row: Row, group: seq<Row>, ctes: map<string, Outcome>)

  // ---------------------------------------------------------------- values

  function LowerVal(lower: char -> char, v: Val): Val {
    match v
    case VNull => VNull
    case VText(s) => VText(LowerString(lower, s))
    case _ => VError
  }

  function Truth(negated: bool, r: Option<bool>): Val {
    if r.None? then VError else VBool(r.value != negated)
  }

  predicate TextOrNull(v: Val) { v.VText? || v.VNull? }

  function LikeVal(negated: bool, s: Val, p: Val, escape: Option<char>): Val {
    if !TextOrNull(s) || !TextOrNull(p) then VError
    else if s.VNull? || p.VNull? then VNull
    else Truth(negated, LikeResult(s.s, p.s, escape))
  }

  function ILikeVal(lower: char -> char, negated: bool, s: Val, p: Val, escape: Option<char>): Val {
    if !TextOrNull(s) || !TextOrNull(p) then VError
    else if s.VNull? || p.VNull? then VNull
    else Truth(negated, ILikeResult(lower, s.s, p.s, escape))
  }

  /** `s LIKE p` as an engine reads the pattern. */
  function DialectLikeVal(d: Dialect, negated: bool, s: Val, p: Val, escape: Option<char>): Val {
    if d.Trino? && s.VText? && p.VText? then Truth(negated, TrinoLikeResult(s.s, p.s, escape))
    else LikeVal(negated, s, p, escape)
  }

  /** Three-valued OR of a test over the elements of an array, from left to right up to the first true one. */
  function AnyOf(test: Val -> Val, elems: seq<Val>): Val {
    if elems == [] then VBool(false)
    else
      var v := test(elems[0]);
      if v == VBool(true) || v == VError then v
      else
        var rest := AnyOf(test, elems[1..]);
        if v == VNull && rest == VBool(false) then VNull else rest
  }

  /** `s LIKE ANY (p)` and `s ILIKE ANY (p)`, given the test for one element. */
  function AnyVal(test: Val -> Val, s: Val, p: Val): Val {
    if !TextOrNull(s) then VError
    else match p
      case VNull => VNull
      case VArray(elems) => AnyOf(test, elems)
      case _ => VError
  }

  function LikeTest(negated: bool, s: Val, escape: Option<char>): Val -> Val {
    p => LikeVal(negated, s, p, escape)
  }

  function ILikeTest(lower: char -> char, negated: bool, s: Val, escape: Option<char>): Val -> Val {
    p => ILikeVal(lower, negated, s, p, escape)
  }

  /** Some element is an error, and none before it is true. */
  ghost predicate ErrsFirst(test: Val -> Val, elems: seq<Val>) {
    exists i :: 0 <= i < |elems| && test(elems[i]) == VError && forall j :: 0 <= j < i ==> test(elems[j]) != VBool(true)
  }

  lemma {:induction false} AnyErrsExactly(test: Val -> Val, elems: seq<Val>)
    ensures AnyOf(test, elems) == VError <==> ErrsFirst(test, elems)
  {
    if elems == [] {
    } else {
      var v, rest := test(elems[0]), elems[1..];
      AnyErrsExactly(test, rest);
      if v == VError {
        assert test(elems[0]) == VError;
      } else if v != VBool(true) {
        if ErrsFirst(test, rest) {
          var i :| 0 <= i < |rest| && test(rest[i]) == VError && forall j :: 0 <= j < i ==> test(rest[j]) != VBool(true);
          assert elems[i + 1] == rest[i];
          forall j | 0 <= j < i + 1 ensures test(elems[j]) != VBool(true) { if j > 0 { assert elems[j] == rest[j - 1]; } }
        }
        if ErrsFirst(test, elems) {
          var i :| 0 <= i < |elems| && test(elems[i]) == VError && forall j :: 0 <= j < i ==> test(elems[j]) != VBool(true);
          assert rest[i - 1] == elems[i];
          forall j | 0 <= j < i - 1 ensures test(rest[j]) != VBool(true) { assert rest[j] == elems[j + 1]; }
        }
      }
    }
  }

  function LiteralVal(l: Literal): Val {
    match l
    case NullLit => VNull
    case BoolLit(b) => VBool(b)
    case NumberLit(n, _) => VNum(n)
    case TextLit(s) => VText(s)
  }

  function Lookup(name: string, row: Row): Val {
    if row == [] then VError else if row[0].0 == name then row[0].1 else Lookup(name, row[1..])
  }

  /** PostgreSQL folds unquoted names only; Trino folds every function name. */
  function ResolveIdent(d: Dialect, id: Ident): string {
    if d.Postgres? && id.quoted then id.value else Lower(id.value)
  }

  function Resolve(d: Dialect, fn: seq<Ident>): seq<string> {
    seq(|fn|, i requires 0 <= i < |fn| => ResolveIdent(d, fn[i]))
  }

  /** No type name in `t`, at any depth, is one that only PostgreSQL has. */
  predicate TrinoSpelling(t: DataType) {
    match t
    case Text => false
    case Int2(_) => false
    case Int4(_) => false
    case Int8(_) => false
    case Float4 => false
    case Float8 => false
    case Bool => false
    case Bytea => false
    case ArrayOf(elem) => TrinoSpelling(elem)
    case _ => true
  }

  function EscapeFor(eng: Engine, escape: Option<char>): Option<char> {
    if escape.Some? then escape else eng.defaultEscape
  }

  // ---------------------------------------------------------------- row counts and the tail of a query

  /** The only row counts Trino's grammar has: a literal of digits. */
  predicate WholeLiteral(e: Expr) {
    e.Lit? && e.lit.NumberLit? && e.lit.digits && e.lit.n >= 0.0 && e.lit.n.Floor as real == e.lit.n
  }

  datatype Count = NoBound | AtMost(n: nat) | BadCount

  /** To the nearest integer, halves away from zero. */
  function Rounded(n: real): int {
    if n < 0.0 then -((0.5 - n).Floor) else (n + 0.5).Floor
  }

  /** A row count is rounded to an integer; NULL means no bound; negative counts are errors. */
  function CountOf(v: Val): Count {
    match v
    case VNull => NoBound
    case VNum(n) => if Rounded(n) < 0 then BadCount else AtMost(Rounded(n))
    case _ => BadCount
  }

  function Take(c: Count, rows: seq<Row>): seq<Row> {
    if c.AtMost? && c.n < |rows| then rows[..c.n] else rows
  }

  function Skip(c: Count, rows: seq<Row>): seq<Row> {
    if c.AtMost? then (if c.n <= |rows| then rows[c.n..] else []) else rows
  }

  datatype FetchVal = FetchVal(withTies: bool, percent: bool, quantity: Option<Val>)

  /** LIMIT, OFFSET and FETCH with their evaluated counts; `odd` marks clauses neither dialect has. */
  datatype Tail = Tail(limit: Option<Val>, offset: Option<Val>, fetch: Option<FetchVal>, odd: bool)

  function MakeTail(l: (Option<Val>, Option<Val>, bool), f: Option<FetchVal>): Tail {
    Tail(l.0, l.1, f, l.2)
  }

  function OffsetCount(t: Tail): Count {
    if t.offset.None? then AtMost(0) else CountOf(t.offset.value)
  }

  function FetchCount(f: FetchVal): Count {
    if f.quantity.None? then AtMost(1) else CountOf(f.quantity.value)
  }

  function ApplyTail(d: Dialect, c: Common, t: Tail, keys: seq<seq<Val>>, rows: seq<Row>): Outcome {
    var off := OffsetCount(t);
    if t.odd || off.BadCount? then Rejected
    else if t.fetch.Some? then
      var n := FetchCount(t.fetch.value);
      if t.limit.Some? || t.fetch.value.percent || n.BadCount? || (d.Trino? && n == AtMost(0)) then Rejected
      else if t.fetch.value.withTies && n.AtMost? then
        Rows(c.ties(keys, rows, if off.AtMost? then off.n else 0, n.n))
      else Rows(Take(n, Skip(off, rows)))
    else if t.limit.Some? then
      if CountOf(t.limit.value).BadCount? || (d.Trino? && t.offset.Some?) then Rejected
      else Rows(Take(CountOf(t.limit.value), Skip(off, rows)))
    else Rows(Skip(off, rows))
  }

  function SortAndCut(d: Dialect, c: Common, ordered: bool, keys: seq<seq<Val>>, body: Outcome, t: Tail): Outcome {
    if body.Rejected? then Rejected
    else ApplyTail(d, c, t, keys, if ordered then c.sort(keys, body.rows) else body.rows)
  }

  // ---------------------------------------------------------------- helpers over rows

  function Extend(rows: seq<Row>, outer: Row): seq<Row> {
    seq(|rows|, i requires 0 <= i < |rows| => rows[i] + outer)
  }

  function Singles(rows: seq<Row>): seq<seq<Row>> {
    seq(|rows|, i requires 0 <= i < |rows| => [rows[i]])
  }

  function Cross(a: seq<Row>, b: seq<Row>): seq<Row> {
    if a == [] then [] else seq(|b|, i requires 0 <= i < |b| => a[0] + b[i]) + Cross(a[1..], b)
  }

  function Keep<T>(xs: seq<T>, flags: seq<Val>): seq<T> {
    if xs == [] || flags == [] then []
    else (if flags[0] == VBool(true) then [xs[0]] else []) + Keep(xs[1..], flags[1..])
  }

  function GroupFrame(g: seq<Row>, outer: Row, ctes: map<string, Outcome>): Frame {
    Frame(if g == [] then outer else g[0], g, ctes)
  }

  function ProjectAll(c: Common, names: seq<string>, vals: seq<seq<Val>>, groups: seq<seq<Row>>, outer: Row): seq<Row> {
    if vals == [] || groups == [] then []
    else [c.project(names, vals[0], if groups[0] == [] then outer else groups[0][0])]
         + ProjectAll(c, names, vals[1..], groups[1..], outer)
  }

  // ---------------------------------------------------------------- aggregation is syntactic

  ghost predicate Aggregates(eng: Engine, e: Expr)
    decreases e
  {
    match e
    case Op(_, xs) => exists i :: 0 <= i < |xs| && Aggregates(eng, xs[i])
    case Cast(_, x, _) => Aggregates(eng, x)
    case Like(_, _, x, p, _) => Aggregates(eng, x) || Aggregates(eng, p)
    case ILike(_, _, x, p, _) => Aggregates(eng, x) || Aggregates(eng, p)
    case Call(fn, args, _) =>
      || eng.isAggregate(Resolve(eng.dialect, fn))
      || (args.ArgList? && exists i :: 0 <= i < |args.args| && Aggregates(eng, args.args[i]))
    case SubQuery(_, xs, _) => exists i :: 0 <= i < |xs| && Aggregates(eng, xs[i])
    case _ => false
  }

  ghost predicate SomeAggregate(eng: Engine, es: seq<Expr>) {
    exists i :: 0 <= i < |es| && Aggregates(eng, es[i])
  }

  // ---------------------------------------------------------------- evaluation

  ghost function EvalE(eng: Engine, e: Expr, fr: Frame): Val
    decreases e, 0, 0
  {
    match e
    case Column(id) => Lookup(ResolveIdent(Postgres, id), fr.row)
    case Lit(l) => LiteralVal(l)
    case Wildcard => VStar
    case Op(op, xs) => eng.common.op(op, EvalEs(eng, xs, fr))
    case Cast(k, x, t) =>
      if eng.dialect.Trino? && (k.DoubleColon? || !TrinoSpelling(t)) then VError
      else eng.cast(k.TryCast? || k.SafeCast?, t, EvalE(eng, x, fr))
    case Like(neg, any, x, p, esc) =>
      var s, pt := EvalE(eng, x, fr), EvalE(eng, p, fr);
      if !any then DialectLikeVal(eng.dialect, neg, s, pt, EscapeFor(eng, esc))
      else if eng.dialect.Trino? then VError
      else AnyVal(LikeTest(neg, s, EscapeFor(eng, esc)), s, pt)
    case ILike(neg, any, x, p, esc) =>
      var s, pt := EvalE(eng, x, fr), EvalE(eng, p, fr);
      if eng.dialect.Trino? then VError
      else if any then AnyVal(ILikeTest(eng.common.lower, neg, s, EscapeFor(eng, esc)), s, pt)
      else ILikeVal(eng.common.lower, neg, s, pt, EscapeFor(eng, esc))
    case Call(fn, args, filter) =>
      var g := if filter.None? then fr.group
               else Keep(fr.group, EvalG(eng, filter.value, Singles(fr.group), fr.row, fr.ctes));
      EvalA(eng, Resolve(eng.dialect, fn), args, g, fr)
    case SubQuery(form, xs, q) => eng.common.sub(form, EvalEs(eng, xs, fr), EvalQ(eng, q, fr.row, fr.ctes))
  }

  /** A call of the function `name`; `g` are the rows of the group that pass its filter. */
  ghost function EvalA(eng: Engine, name: seq<string>, args: Args, g: seq<Row>, fr: Frame): Val
    decreases args, 0, 0
  {
    match args
    case NoArgs => eng.fns(name, Bare, [], [])
    case QueryArg(q) => eng.fns(name, OfQuery, [eng.common.sub("array", [], EvalQ(eng, q, fr.row, fr.ctes))], [])
    case ArgList(xs) => eng.fns(name, OfList(|xs|), EvalEs(eng, xs, fr), EvalGs(eng, xs, Singles(g), fr.row, fr.ctes))
  }

  ghost function EvalEs(eng: Engine, es: seq<Expr>, fr: Frame): (r: seq<Val>)
    ensures |r| == |es| && forall i :: 0 <= i < |es| ==> r[i] == EvalE(eng, es[i], fr)
    decreases es, 0, 0
  {
    if es == [] then [] else [EvalE(eng, es[0], fr)] + EvalEs(eng, es[1..], fr)
  }

  ghost function EvalO(eng: Engine, o: Option<Expr>, fr: Frame): Option<Val>
    decreases o, 0, 0
  {
    if o.None? then None else Some(EvalE(eng, o.value, fr))
  }

  /** A row count; what Trino's grammar does not take is an error. */
  ghost function EvalC(eng: Engine, o: Option<Expr>, fr: Frame): Option<Val>
    decreases o, 1, 0
  {
    if eng.dialect.Trino? && o.Some? && !WholeLiteral(o.value) then Some(VError) else EvalO(eng, o, fr)
  }

  /** One expression on every group. */
  ghost function EvalG(eng: Engine, e: Expr, gs: seq<seq<Row>>, outer: Row, ctes: map<string, Outcome>): (r: seq<Val>)
    ensures |r| == |gs| && forall i :: 0 <= i < |gs| ==> r[i] == EvalE(eng, e, GroupFrame(gs[i], outer, ctes))
    decreases e, 1, |gs|
  {
    if gs == [] then [] else [EvalE(eng, e, GroupFrame(gs[0], outer, ctes))] + EvalG(eng, e, gs[1..], outer, ctes)
  }

  /** Several expressions on every group. */
  ghost function EvalGs(eng: Engine, es: seq<Expr>, gs: seq<seq<Row>>, outer: Row, ctes: map<string, Outcome>): (r: seq<seq<Val>>)
    ensures |r| == |gs| && forall i :: 0 <= i < |gs| ==> r[i] == EvalEs(eng, es, GroupFrame(gs[i], outer, ctes))
    decreases es, 1, |gs|
  {
    seq(|gs|, i requires 0 <= i < |gs| => EvalEs(eng, es, GroupFrame(gs[i], outer, ctes)))
  }

  ghost function EvalR(eng: Engine, r: Rel, outer: Row, ctes: map<string, Outcome>): Outcome
    decreases r, 1, 0
  {
    match r
    case NoFrom => Rows([[]])
    case Table(name) => if name in ctes then ctes[name] else Rows(eng.common.tables(name))
    case Derived(q, a) =>
      (match EvalQ(eng, q, outer, ctes)
       case Rejected => Rejected
       case Rows(rows) => Rows(eng.common.alias(a, rows)))
    case Join(k, a, b, on) =>
      (match (EvalR(eng, a, outer, ctes), EvalR(eng, b, outer, ctes))
       case (Rows(x), Rows(y)) =>
         var flags := if on.None? then [] else EvalG(eng, on.value, Singles(Extend(Cross(x, y), outer)), outer, ctes);
         Rows(eng.common.join(k, x, y, flags))
       case _ => Rejected)
    case Select(_, _, _, from, _, _, _) =>
      (match EvalR(eng, from, outer, ctes)
       case Rejected => Rejected
       case Rows(src) => Rows(EvalS(eng, r, Extend(src, outer), outer, ctes)))
    case SetOp(op, a, b) =>
      (match (EvalR(eng, a, outer, ctes), EvalR(eng, b, outer, ctes))
       case (Rows(x), Rows(y)) => Rows(eng.common.setOp(op, x, y))
       case _ => Rejected)
    case Values(w, cells) => Rows(eng.common.values(w, EvalEs(eng, cells, Frame(outer, [outer], ctes))))
  }

  /** A SELECT over the rows of its FROM clause. */
  ghost function EvalS(eng: Engine, r: Rel, rows: seq<Row>, outer: Row, ctes: map<string, Outcome>): seq<Row>
    requires r.Select?
    decreases r, 0, 0
  {
    var kept := if r.where.None? then rows else Keep(rows, EvalG(eng, r.where.value, Singles(rows), outer, ctes));
    var groups := if r.groupBy == [] && !SomeAggregate(eng, r.items) && !(r.having.Some? && Aggregates(eng, r.having.value))
                  then Singles(kept)
                  else eng.common.group(EvalGs(eng, r.groupBy, Singles(kept), outer, ctes), kept);
    var chosen := if r.having.None? then groups else Keep(groups, EvalG(eng, r.having.value, groups, outer, ctes));
    var out := ProjectAll(eng.common, r.names, EvalGs(eng, r.items, chosen, outer, ctes), chosen, outer);
    if r.distinct then eng.common.distinct(out) else out
  }

  ghost function EvalL(eng: Engine, l: Option<LimitClause>, fr: Frame): (Option<Val>, Option<Val>, bool)
    decreases l, 0, 0
  {
    match l
    case None => (None, None, false)
    case Some(LimitOffset(n, m, ks)) => (EvalC(eng, n, fr), EvalC(eng, m, fr), ks != [])
    case Some(OffsetComma(m, n)) => (EvalC(eng, n, fr), EvalC(eng, m, fr), true)
  }

  ghost function EvalF(eng: Engine, f: Option<Fetch>, fr: Frame): Option<FetchVal>
    decreases f, 0, 0
  {
    match f
    case None => None
    case Some(Fetch(t, p, n)) => Some(FetchVal(t, p, EvalC(eng, n, fr)))
  }

  /** Sort keys for the rows of a query body. */
  ghost function EvalK(eng: Engine, es: seq<Expr>, body: Outcome, outer: Row, ctes: map<string, Outcome>): seq<seq<Val>>
    decreases es, 2, 0
  {
    if body.Rows? then EvalGs(eng, es, Singles(Extend(body.rows, outer)), outer, ctes) else []
  }

  ghost function EvalQ(eng: Engine, q: Query, outer: Row, ctes: map<string, Outcome>): Outcome
    decreases q, 0, 0
  {
    var inner := EvalCs(eng, q.ctes, outer, ctes);
    var body := EvalR(eng, q.body, outer, inner);
    var fr := Frame(outer, [outer], inner);
    SortAndCut(eng.dialect, eng.common, |q.orderBy| > 0, EvalK(eng, q.orderBy, body, outer, inner), body,
               MakeTail(EvalL(eng, q.limitClause, fr), EvalF(eng, q.fetch, fr)))
  }

  ghost function EvalCs(eng: Engine, cs: seq<Cte>, outer: Row, ctes: map<string, Outcome>): map<string, Outcome>
    decreases cs, 0, 0
  {
    if cs == [] then ctes
    else EvalCs(eng, cs[1..], outer, ctes[cs[0].name := EvalQ(eng, cs[0].query, outer, ctes)])
  }

  // ---------------------------------------------------------------- row counts

  /** The tails PostgreSQL answers with an error. */
  predicate Rejects(t: Tail) {
    || t.odd
    || OffsetCount(t).BadCount?
    || (t.fetch.Some? && (t.limit.Some? || t.fetch.value.percent || FetchCount(t.fetch.value).BadCount?))
    || (t.fetch.None? && t.limit.Some? && CountOf(t.limit.value).BadCount?)
  }

  lemma PostgresRejectsExactly(c: Common, t: Tail, keys: seq<seq<Val>>, rows: seq<Row>)
    ensures ApplyTail(Postgres, c, t, keys, rows) == Rejected <==> Rejects(t)
  {
  }

  lemma WholeLiteralCounts(e: Expr)
    requires WholeLiteral(e)
    ensures CountOf(LiteralVal(e.lit)) == AtMost(e.lit.n.Floor)
    ensures IsZeroLiteral(e) <==> e.lit.n.Floor == 0
  {
    ZeroThreshold();
  }

  /** A literal that the double parser reads as zero is a row count of zero. */
  lemma ZeroLiteralCountsZero(e: Expr)
    requires IsZeroLiteral(e)
    ensures CountOf(LiteralVal(e.lit)) == AtMost(0)
  {
    ZeroThreshold();
    assert Rounded(e.lit.n) == 0;
  }

  /** The parser reads numbers up to 2^-1075 as zero, however many digits they have, and twice that no longer. */
  lemma TinyLiterals(digits: bool)
    ensures IsZeroLiteral(Lit(NumberLit(0.0, digits))) && IsZeroLiteral(Lit(NumberLit(Halved(1075), digits)))
    ensures IsZeroLiteral(Lit(NumberLit(-Halved(1075), digits))) && !IsZeroLiteral(Lit(NumberLit(Halved(1074), digits)))
  {
    assert Halved(1075) == Halved(1074) / 2.0;
  }

  lemma ZeroThreshold()
    ensures 0.0 < F64_ROUNDS_TO_ZERO <= 0.25
  {
  }
}
