/**
  The rewritten query means to Trino what the original meant to PostgreSQL.

  `Related` says how Trino's function and cast tables stand to PostgreSQL's: related by the
  rename table and the type-name table. `NameOk` is the condition on names, `FitsQ` the one on the
  values of all other nodes along the evaluation. Module `RewriteChecks` has a form of them that
  can be read off the statement; module `RewriteConditions` has inputs that fail.
 */
module RewritePreservation {
  import opened Options
  import opened SqlAst
  import opened Rewrite
  import opened Texts
  import opened LikePattern
  import opened SqlSemantics

  /** What Trino calls the PostgreSQL function `word` of so many arguments. */
  function TrinoWord(word: string, argCount: nat): string {
    if word == "string_agg" then "listagg"
    else if word == "log" && argCount == 1 then "log10"
    else if word == "trunc" then "truncate"
    else word
  }

  /** The Trino name of a resolved PostgreSQL function name. */
  function TrinoName(name: seq<string>, argCount: nat): seq<string> {
    if |name| == 1 then [TrinoWord(name[0], argCount)] else name
  }

  function ShapeCount(s: Shape): nat {
    if s.OfList? then s.arity else 0
  }

  ghost predicate Related(pg: Engine, tr: Engine) {
    && pg.dialect.Postgres? && tr.dialect.Trino?
    && tr.common == pg.common
    && KeepsWildcards(pg.common.lower)
    && (forall n, s, a, g {:trigger pg.fns(n, s, a, g)} :: pg.known(n) ==>
          tr.fns(TrinoName(n, ShapeCount(s)), s, a, g) == pg.fns(n, s, a, g))
    && (forall n, k {:trigger TrinoName(n, k)} :: pg.known(n) ==> tr.isAggregate(TrinoName(n, k)) == pg.isAggregate(n))
    && (forall a, g :: tr.fns(["lower"], OfList(1), [a], g) == LowerVal(pg.common.lower, a))
    && !tr.isAggregate(["lower"])
    && (forall try, t, u, v {:trigger pg.cast(try, t, v), tr.cast(try, u, v)} :: TrinoSpelling(u) && SortOf(u) == SortOf(t) ==>
          tr.cast(try, u, v) == pg.cast(try, t, v))
  }

  predicate Avoids(p: string, escape: Option<char>) {
    escape.Some? ==> escape.value !in p
  }

  /** The pattern contains no escape character of PostgreSQL's, nor, as Trino will see it, of Trino's. */
  ghost predicate EscapesAvoided(pg: Engine, tr: Engine, p: string, escape: Option<char>, lowered: bool) {
    && Avoids(p, EscapeFor(pg, escape))
    && Avoids(if lowered then LowerString(pg.common.lower, p) else p, EscapeFor(tr, escape))
  }

  /** The two engines read `p` with the same escape, in front of nothing Trino refuses, or it uses neither engine's. */
  ghost predicate EscapesFit(pg: Engine, tr: Engine, s: Val, p: Val, escape: Option<char>, lowered: bool) {
    s.VText? && p.VText? ==>
      || (&& EscapeFor(pg, escape) == EscapeFor(tr, escape)
          && (lowered ==> Caseless(pg.common.lower, EscapeFor(pg, escape)))
          && (StrictEscapes(p.s, EscapeFor(pg, escape)) || Tokens(p.s, EscapeFor(pg, escape)).None?))
      || EscapesAvoided(pg, tr, p.s, escape, lowered)
  }

  /** Quoting keeps upper-case letters in PostgreSQL, but neither the renamer nor Trino looks at quotes. */
  predicate FoldSafe(id: Ident) {
    id.quoted ==> Lower(id.value) == id.value
  }

  /** A call of a function the relation between the engines speaks of, by a name that survives. */
  ghost predicate NameOk(pg: Engine, e: Expr) {
    e.Call? ==> pg.known(Resolve(Postgres, e.fn)) && forall i :: 0 <= i < |e.fn| ==> FoldSafe(e.fn[i])
  }

  ghost function NamesE(pg: Engine): Expr -> bool { e => NameOk(pg, e) }
  ghost function AnyQ(): Query -> bool { q => true }

  /** When the value of `s LIKE p` survives; LIKE ANY does only as an error. */
  ghost predicate LikeFits(pg: Engine, tr: Engine, e: Expr, s: Val, p: Val)
    requires e.Like?
  {
    if e.any then AnyErrs(LikeTest(e.negated, s, EscapeFor(pg, e.escape)), s, p)
    else EscapesFit(pg, tr, s, p, e.escape, false)
  }

  /** `s LIKE ANY (p)` or `s ILIKE ANY (p)` is an error. */
  ghost predicate AnyErrs(test: Val -> Val, s: Val, p: Val) {
    !TextOrNull(s) || (!p.VNull? && !p.VArray?) || (p.VArray? && ErrsFirst(test, p.elems))
  }

  /** When the value of `s ILIKE p` survives the rewrite, and that of `s ILIKE ANY (p)` the loss of ANY. */
  ghost predicate ILikeFits(pg: Engine, tr: Engine, e: Expr, s: Val, p: Val)
    requires e.ILike?
  {
    if !e.any then EscapesFit(pg, tr, s, p, e.escape, true)
    else
      !TextOrNull(s)
      || match p
         case VNull => true
         case VArray(elems) => ErrsFirst(ILikeTest(pg.common.lower, e.negated, s, EscapeFor(pg, e.escape)), elems)
         case VText(t) => s.VText? && !StrictEscapes(LowerString(pg.common.lower, t), EscapeFor(tr, e.escape))
         case _ => true
  }

  ghost function TailOf(eng: Engine, q: Query, fr: Frame): Tail {
    MakeTail(EvalL(eng, q.limitClause, fr), EvalF(eng, q.fetch, fr))
  }

  predicate WholeIfAny(o: Option<Expr>) { o.Some? ==> WholeLiteral(o.value) }

  /** Every row count is a literal of digits, and a FETCH of the client's own is not for zero rows. */
  predicate CountsTaken(q: Query) {
    && (q.limitClause.Some? && q.limitClause.value.LimitOffset? ==>
          WholeIfAny(q.limitClause.value.limit) && WholeIfAny(q.limitClause.value.offset))
    && (q.fetch.Some? && q.fetch.value.quantity.Some? ==>
          WholeLiteral(q.fetch.value.quantity.value) && !IsZeroLiteral(q.fetch.value.quantity.value))
  }

  predicate ZeroLimit(q: Query) {
    LimitThenOffset(q) && IsZeroLiteral(q.limitClause.value.limit.value)
  }

  /**
    The tail `t` of the query survives. `LIMIT 0` loses its offset: it is spelled with digits exactly
    when the offset is valid. Any other tail is taken by Trino, or an error to PostgreSQL too.
   */
  predicate TailFits(t: Tail, q: Query) {
    if ZeroLimit(q) then WholeLiteral(q.limitClause.value.limit.value) <==> !OffsetCount(t).BadCount?
    else Rejects(t) || CountsTaken(q)
  }

  // ---------------------------------------------------------------- conditions along the evaluation

  /**
    The conditions of all nodes of `e`, each on the values it has where PostgreSQL's evaluation
    reaches it: on this row and group, and on the rows of its subqueries.
   */
  ghost predicate FitsE(pg: Engine, tr: Engine, e: Expr, fr: Frame)
    decreases e, 0, 0
  {
    match e
    case Column(_) => true
    case Lit(_) => true
    case Wildcard => true
    case Op(_, xs) => FitsEs(pg, tr, xs, fr)
    case Cast(_, x, t) => FitsE(pg, tr, x, fr) && ((t.ArrayOf? ==> TrinoSpelling(t.elem)) || EvalE(pg, e, fr) == VError)
    case Like(_, _, x, p, _) =>
      FitsE(pg, tr, x, fr) && FitsE(pg, tr, p, fr) && LikeFits(pg, tr, e, EvalE(pg, x, fr), EvalE(pg, p, fr))
    case ILike(_, _, x, p, _) =>
      FitsE(pg, tr, x, fr) && FitsE(pg, tr, p, fr) && ILikeFits(pg, tr, e, EvalE(pg, x, fr), EvalE(pg, p, fr))
    case Call(_, args, filter) =>
      && (filter.Some? ==> FitsG(pg, tr, filter.value, Singles(fr.group), fr.row, fr.ctes))
      && FitsA(pg, tr, args, Filtered(pg, filter, fr), fr)
    case SubQuery(_, xs, q) => FitsEs(pg, tr, xs, fr) && FitsQ(pg, tr, q, fr.row, fr.ctes)
  }

  /** The rows of the group that pass a call's filter. */
  ghost function Filtered(pg: Engine, filter: Option<Expr>, fr: Frame): seq<Row> {
    if filter.None? then fr.group
    else Keep(fr.group, EvalG(pg, filter.value, Singles(fr.group), fr.row, fr.ctes))
  }

  ghost predicate FitsA(pg: Engine, tr: Engine, args: Args, g: seq<Row>, fr: Frame)
    decreases args, 0, 0
  {
    match args
    case NoArgs => true
    case QueryArg(q) => FitsQ(pg, tr, q, fr.row, fr.ctes)
    case ArgList(xs) => FitsEs(pg, tr, xs, fr) && FitsGs(pg, tr, xs, Singles(g), fr.row, fr.ctes)
  }

  ghost predicate FitsEs(pg: Engine, tr: Engine, es: seq<Expr>, fr: Frame)
    decreases es, 0, 0
  {
    forall i :: 0 <= i < |es| ==> FitsE(pg, tr, es[i], fr)
  }

  ghost predicate FitsO(pg: Engine, tr: Engine, o: Option<Expr>, fr: Frame)
    decreases o, 0, 0
  {
    o.Some? ==> FitsE(pg, tr, o.value, fr)
  }

  ghost predicate FitsG(pg: Engine, tr: Engine, e: Expr, gs: seq<seq<Row>>, outer: Row, ctes: map<string, Outcome>)
    decreases e, 1, 0
  {
    forall i :: 0 <= i < |gs| ==> FitsE(pg, tr, e, GroupFrame(gs[i], outer, ctes))
  }

  ghost predicate FitsGs(pg: Engine, tr: Engine, es: seq<Expr>, gs: seq<seq<Row>>, outer: Row, ctes: map<string, Outcome>)
    decreases es, 1, 0
  {
    forall i :: 0 <= i < |gs| ==> FitsEs(pg, tr, es, GroupFrame(gs[i], outer, ctes))
  }

  ghost predicate FitsR(pg: Engine, tr: Engine, r: Rel, outer: Row, ctes: map<string, Outcome>)
    decreases r, 1, 0
  {
    match r
    case NoFrom => true
    case Table(_) => true
    case Derived(q, _) => FitsQ(pg, tr, q, outer, ctes)
    case Join(_, a, b, on) =>
      && FitsR(pg, tr, a, outer, ctes) && FitsR(pg, tr, b, outer, ctes)
      && var x, y := EvalR(pg, a, outer, ctes), EvalR(pg, b, outer, ctes);
         x.Rows? && y.Rows? && on.Some? ==>
           FitsG(pg, tr, on.value, Singles(Extend(Cross(x.rows, y.rows), outer)), outer, ctes)
    case Select(_, _, _, from, _, _, _) =>
      && FitsR(pg, tr, from, outer, ctes)
      && var src := EvalR(pg, from, outer, ctes);
         src.Rows? ==> FitsS(pg, tr, r, Extend(src.rows, outer), outer, ctes)
    case SetOp(_, a, b) => FitsR(pg, tr, a, outer, ctes) && FitsR(pg, tr, b, outer, ctes)
    case Values(_, cells) => FitsEs(pg, tr, cells, Frame(outer, [outer], ctes))
  }

  /** The rows that pass WHERE, the groups they form, and the groups that pass HAVING. */
  ghost function KeptRows(pg: Engine, r: Rel, rows: seq<Row>, outer: Row, ctes: map<string, Outcome>): seq<Row>
    requires r.Select?
  {
    if r.where.None? then rows else Keep(rows, EvalG(pg, r.where.value, Singles(rows), outer, ctes))
  }

  ghost function Groups(pg: Engine, r: Rel, kept: seq<Row>, outer: Row, ctes: map<string, Outcome>): seq<seq<Row>>
    requires r.Select?
  {
    if r.groupBy == [] && !SomeAggregate(pg, r.items) && !(r.having.Some? && Aggregates(pg, r.having.value))
    then Singles(kept)
    else pg.common.group(EvalGs(pg, r.groupBy, Singles(kept), outer, ctes), kept)
  }

  ghost function Chosen(pg: Engine, r: Rel, groups: seq<seq<Row>>, outer: Row, ctes: map<string, Outcome>): seq<seq<Row>>
    requires r.Select?
  {
    if r.having.None? then groups else Keep(groups, EvalG(pg, r.having.value, groups, outer, ctes))
  }

  ghost predicate FitsS(pg: Engine, tr: Engine, r: Rel, rows: seq<Row>, outer: Row, ctes: map<string, Outcome>)
    requires r.Select?
    decreases r, 0, 0
  {
    var kept := KeptRows(pg, r, rows, outer, ctes);
    var groups := Groups(pg, r, kept, outer, ctes);
    && (r.where.Some? ==> FitsG(pg, tr, r.where.value, Singles(rows), outer, ctes))
    && FitsGs(pg, tr, r.groupBy, Singles(kept), outer, ctes)
    && (r.having.Some? ==> FitsG(pg, tr, r.having.value, groups, outer, ctes))
    && FitsGs(pg, tr, r.items, Chosen(pg, r, groups, outer, ctes), outer, ctes)
  }

  ghost predicate FitsL(pg: Engine, tr: Engine, l: Option<LimitClause>, fr: Frame)
    decreases l, 0, 0
  {
    l.Some? && l.value.LimitOffset? ==> FitsO(pg, tr, l.value.limit, fr) && FitsO(pg, tr, l.value.offset, fr)
  }

  ghost predicate FitsF(pg: Engine, tr: Engine, f: Option<Fetch>, fr: Frame)
    decreases f, 0, 0
  {
    f.Some? ==> FitsO(pg, tr, f.value.quantity, fr)
  }

  ghost predicate FitsCs(pg: Engine, tr: Engine, cs: seq<Cte>, outer: Row, ctes: map<string, Outcome>)
    decreases cs, 0, 0
  {
    cs == []
    || (&& FitsQ(pg, tr, cs[0].query, outer, ctes)
        && FitsCs(pg, tr, cs[1..], outer, ctes[cs[0].name := EvalQ(pg, cs[0].query, outer, ctes)]))
  }

  ghost predicate FitsQ(pg: Engine, tr: Engine, q: Query, outer: Row, ctes: map<string, Outcome>)
    decreases q, 0, 0
  {
    var inner := EvalCs(pg, q.ctes, outer, ctes);
    var body, fr := EvalR(pg, q.body, outer, inner), Frame(outer, [outer], inner);
    && FitsCs(pg, tr, q.ctes, outer, ctes)
    && FitsR(pg, tr, q.body, outer, inner)
    && (body.Rows? ==>
          && FitsGs(pg, tr, q.orderBy, Singles(Extend(body.rows, outer)), outer, inner)
          && FitsL(pg, tr, q.limitClause, fr) && FitsF(pg, tr, q.fetch, fr)
          && TailFits(TailOf(pg, q, fr), q))
  }

  // ---------------------------------------------------------------- names

  lemma ResolveAfterRename(fn: seq<Ident>, n: nat)
    requires forall i :: 0 <= i < |fn| ==> FoldSafe(fn[i])
    ensures Resolve(Trino, RenamedFn(fn, n)) == TrinoName(Resolve(Postgres, fn), n)
  {
    RenamesExactly(fn, n);
    if |fn| == 1 && Replaced(Lower(fn[0].value), n) {
      var target := TrinoWord(Lower(fn[0].value), n);
      FoldFixes("listagg");
      FoldFixes("log10");
      FoldFixes("truncate");
      assert Lower(target) == target;
      assert Resolve(Trino, RenamedFn(fn, n)) == [target];
      assert Resolve(Postgres, fn) == [Lower(fn[0].value)];
    } else {
      assert Resolve(Trino, fn) == Resolve(Postgres, fn);
      if |fn| == 1 { assert TrinoName(Resolve(Postgres, fn), n) == Resolve(Postgres, fn); }
    }
  }

  lemma LowerCallAggregates(tr: Engine, x: Expr)
    requires tr.dialect.Trino? && !tr.isAggregate(["lower"])
    ensures Aggregates(tr, MakeLowerCall(x)) == Aggregates(tr, x)
  {
    FoldFixes("lower");
    assert Resolve(Trino, [Ident("lower", false)]) == ["lower"];
    var args := ArgList([x]);
    assert args.args[0] == x;
    assert Aggregates(tr, x) ==> 0 <= 0 < |args.args| && Aggregates(tr, args.args[0]);
  }

  lemma {:induction false} AggregatesKept(pg: Engine, tr: Engine, e: Expr)
    requires Related(pg, tr) && EveryE(e, NamesE(pg), AnyQ())
    ensures Aggregates(tr, VisitE(ALL, e)) == Aggregates(pg, e)
    decreases e
  {
    match e
    case Column(_) =>
    case Lit(_) =>
    case Wildcard =>
    case Op(_, xs) => AggregatesKeptEs(pg, tr, xs);
    case Cast(_, x, _) => AggregatesKept(pg, tr, x);
    case Like(_, _, x, p, _) => AggregatesKept(pg, tr, x); AggregatesKept(pg, tr, p);
    case ILike(_, _, x, p, _) =>
      AggregatesKept(pg, tr, x);
      AggregatesKept(pg, tr, p);
      LowerCallAggregates(tr, VisitE(ALL, x));
      LowerCallAggregates(tr, VisitE(ALL, p));
    case Call(fn, args, filter) =>
      if args.ArgList? { AggregatesKeptEs(pg, tr, args.args); }
      AggregatesKeptCall(pg, tr, fn, args, filter);
    case SubQuery(_, xs, _) => AggregatesKeptEs(pg, tr, xs);
  }

  lemma AggregatesKeptCall(pg: Engine, tr: Engine, fn: seq<Ident>, args: Args, filter: Option<Expr>)
    requires Related(pg, tr) && NameOk(pg, Call(fn, args, filter))
    requires args.ArgList? ==> SomeAggregate(tr, VisitEs(ALL, args.args)) == SomeAggregate(pg, args.args)
    ensures Aggregates(tr, VisitE(ALL, Call(fn, args, filter))) == Aggregates(pg, Call(fn, args, filter))
  {
    var n := ArgCount(args);
    assert ArgCount(VisitA(ALL, args)) == n;
    CallNode(ALL, fn, VisitA(ALL, args), VisitO(ALL, filter));
    ResolveAfterRename(fn, n);
  }

  lemma {:induction false} AggregatesKeptEs(pg: Engine, tr: Engine, es: seq<Expr>)
    requires Related(pg, tr) && EveryEs(es, NamesE(pg), AnyQ())
    ensures SomeAggregate(tr, VisitEs(ALL, es)) == SomeAggregate(pg, es)
    decreases es
  {
    forall i | 0 <= i < |es|
      ensures Aggregates(tr, VisitEs(ALL, es)[i]) == Aggregates(pg, es[i])
    {
      AggregatesKept(pg, tr, es[i]);
    }
  }

  // ---------------------------------------------------------------- node by node

  lemma LikeKept(pg: Engine, tr: Engine, neg: bool, s: Val, p: Val, esc: Option<char>)
    requires EscapesFit(pg, tr, s, p, esc, false)
    ensures DialectLikeVal(Trino, neg, s, p, EscapeFor(tr, esc)) == LikeVal(neg, s, p, EscapeFor(pg, esc))
  {
    if s.VText? && p.VText? {
      TrinoReadsExactly(s.s, p.s, EscapeFor(tr, esc));
      if EscapesAvoided(pg, tr, p.s, esc, false) {
        EscapesUnused(p.s, EscapeFor(pg, esc));
        EscapesUnused(p.s, EscapeFor(tr, esc));
      }
    }
  }

  lemma EscapesUnused(p: string, escape: Option<char>)
    requires Avoids(p, escape)
    ensures Tokens(p, escape) == Tokens(p, None) && StrictEscapes(p, escape)
  {
    UnusedIsStrict(p, escape);
    if escape.Some? { UnusedEscape(p, escape.value); }
  }

  lemma {:induction false} UnusedIsStrict(p: string, escape: Option<char>)
    requires Avoids(p, escape)
    ensures StrictEscapes(p, escape)
  {
    if p == "" {
    } else {
      UnusedIsStrict(p[1..], escape);
    }
  }

  lemma ILikeKept(pg: Engine, tr: Engine, neg: bool, s: Val, p: Val, esc: Option<char>)
    requires KeepsWildcards(pg.common.lower) && EscapesFit(pg, tr, s, p, esc, true)
    ensures var l := pg.common.lower;
            DialectLikeVal(Trino, neg, LowerVal(l, s), LowerVal(l, p), EscapeFor(tr, esc)) == ILikeVal(l, neg, s, p, EscapeFor(pg, esc))
  {
    var l := pg.common.lower;
    if s.VText? && p.VText? {
      if !EscapesAvoided(pg, tr, p.s, esc, true) {
        ILikeRewriteExactlyWhenStrict(l, s.s, p.s, EscapeFor(pg, esc));
      } else {
        EscapesUnused(p.s, EscapeFor(pg, esc));
        EscapesUnused(LowerString(l, p.s), EscapeFor(tr, esc));
        ILikeIsLikeOnLowered(l, s.s, p.s, None);
      }
    }
  }

  lemma EvalLowerCall(tr: Engine, lower: char -> char, x: Expr, fr: Frame)
    requires tr.dialect.Trino?
    requires forall a, g :: tr.fns(["lower"], OfList(1), [a], g) == LowerVal(lower, a)
    ensures EvalE(tr, MakeLowerCall(x), fr) == LowerVal(lower, EvalE(tr, x, fr))
  {
    FoldFixes("lower");
    assert Resolve(Trino, [Ident("lower", false)]) == ["lower"];
    assert EvalEs(tr, [x], fr) == [EvalE(tr, x, fr)];
  }

  /**
    `lower` takes no array, so dropping ANY turns every answer on an array into an error, and an error
    on a text into an answer. The value is kept exactly when the subject is no text, the pattern is
    NULL or of another type, an array with an invalid element before the first match, or a text that
    is no valid pattern to Trino. (A pattern is a value here; PostgreSQL also takes the bare literal
    '{a}' for an array.)
   */
  lemma DroppedAnyExactly(pg: Engine, tr: Engine, e: Expr, fr: Frame)
    requires Related(pg, tr) && e.ILike? && e.any
    requires EvalE(tr, VisitE(ALL, e.subject), fr) == EvalE(pg, e.subject, fr)
    requires EvalE(tr, VisitE(ALL, e.pattern), fr) == EvalE(pg, e.pattern, fr)
    ensures EvalE(tr, VisitE(ALL, e), fr) == EvalE(pg, e, fr)
       <==> ILikeFits(pg, tr, e, EvalE(pg, e.subject, fr), EvalE(pg, e.pattern, fr))
  {
    var s, p := EvalE(pg, e.subject, fr), EvalE(pg, e.pattern, fr);
    LoweredNode(pg, tr, e, fr);
    if p.VArray? { AnyErrsExactly(ILikeTest(pg.common.lower, e.negated, s, EscapeFor(pg, e.escape)), p.elems); }
    if p.VText? { ReadsWhenStrict(LowerString(pg.common.lower, p.s), EscapeFor(tr, e.escape)); }
  }

  lemma ReadsWhenStrict(p: string, escape: Option<char>)
    ensures StrictEscapes(p, escape) ==> Tokens(p, escape).Some?
  {
    if StrictEscapes(p, escape) { StrictPatternsRead(p, escape); }
  }

  /** What Trino computes for a rewritten ILIKE. */
  lemma LoweredNode(pg: Engine, tr: Engine, e: Expr, fr: Frame)
    requires Related(pg, tr) && e.ILike?
    requires EvalE(tr, VisitE(ALL, e.subject), fr) == EvalE(pg, e.subject, fr)
    requires EvalE(tr, VisitE(ALL, e.pattern), fr) == EvalE(pg, e.pattern, fr)
    ensures var l := pg.common.lower;
            EvalE(tr, VisitE(ALL, e), fr)
            == DialectLikeVal(Trino, e.negated, LowerVal(l, EvalE(pg, e.subject, fr)), LowerVal(l, EvalE(pg, e.pattern, fr)), EscapeFor(tr, e.escape))
  {
    VisitILike(ALL, e.negated, e.any, e.subject, e.pattern, e.escape);
    EvalLowerCall(tr, pg.common.lower, VisitE(ALL, e.subject), fr);
    EvalLowerCall(tr, pg.common.lower, VisitE(ALL, e.pattern), fr);
  }

  lemma ILikeNodeKept(pg: Engine, tr: Engine, e: Expr, fr: Frame)
    requires Related(pg, tr) && e.ILike? && ILikeFits(pg, tr, e, EvalE(pg, e.subject, fr), EvalE(pg, e.pattern, fr))
    requires EvalE(tr, VisitE(ALL, e.subject), fr) == EvalE(pg, e.subject, fr)
    requires EvalE(tr, VisitE(ALL, e.pattern), fr) == EvalE(pg, e.pattern, fr)
    ensures EvalE(tr, VisitE(ALL, e), fr) == EvalE(pg, e, fr)
  {
    if e.any {
      DroppedAnyExactly(pg, tr, e, fr);
    } else {
      LoweredNode(pg, tr, e, fr);
      ILikeKept(pg, tr, e.negated, EvalE(pg, e.subject, fr), EvalE(pg, e.pattern, fr), e.escape);
    }
  }

  /**
    `LIKE ANY` is passed on as it is, and Trino has no such predicate: the value is kept exactly
    when it is an error in PostgreSQL as well.
   */
  lemma PassedAnyExactly(pg: Engine, tr: Engine, e: Expr, fr: Frame)
    requires Related(pg, tr) && e.Like? && e.any
    ensures EvalE(tr, VisitE(ALL, e), fr) == EvalE(pg, e, fr)
       <==> LikeFits(pg, tr, e, EvalE(pg, e.subject, fr), EvalE(pg, e.pattern, fr))
  {
    var s, p := EvalE(pg, e.subject, fr), EvalE(pg, e.pattern, fr);
    VisitLike(ALL, e.negated, e.any, e.subject, e.pattern, e.escape);
    if p.VArray? { AnyErrsExactly(LikeTest(e.negated, s, EscapeFor(pg, e.escape)), p.elems); }
  }

  lemma LikeNodeKept(pg: Engine, tr: Engine, e: Expr, fr: Frame)
    requires Related(pg, tr) && e.Like? && LikeFits(pg, tr, e, EvalE(pg, e.subject, fr), EvalE(pg, e.pattern, fr))
    requires EvalE(tr, VisitE(ALL, e.subject), fr) == EvalE(pg, e.subject, fr)
    requires EvalE(tr, VisitE(ALL, e.pattern), fr) == EvalE(pg, e.pattern, fr)
    ensures EvalE(tr, VisitE(ALL, e), fr) == EvalE(pg, e, fr)
  {
    if e.any {
      PassedAnyExactly(pg, tr, e, fr);
    } else {
      VisitLike(ALL, e.negated, e.any, e.subject, e.pattern, e.escape);
      LikeKept(pg, tr, e.negated, EvalE(pg, e.subject, fr), EvalE(pg, e.pattern, fr), e.escape);
    }
  }

  lemma NormalizedSpelling(t: DataType)
    ensures TrinoSpelling(NormalizeDataType(t)) <==> (t.ArrayOf? ==> TrinoSpelling(t.elem))
  {
  }

  /**
    A cast that is an error in PostgreSQL stays one. Any other keeps its value exactly when it is not
    to an array whose element type, at some depth, is one only PostgreSQL knows: names below the
    outermost are not normalised, and Trino rejects them.
   */
  lemma CastKeptExactly(pg: Engine, tr: Engine, e: Expr, fr: Frame)
    requires Related(pg, tr) && e.Cast? && EvalE(tr, VisitE(ALL, e.arg), fr) == EvalE(pg, e.arg, fr)
    ensures EvalE(pg, e, fr) == VError ==> EvalE(tr, VisitE(ALL, e), fr) == VError
    ensures EvalE(pg, e, fr) != VError ==>
              (EvalE(tr, VisitE(ALL, e), fr) == EvalE(pg, e, fr) <==> (e.ty.ArrayOf? ==> TrinoSpelling(e.ty.elem)))
  {
    VisitCast(ALL, e.kind, e.arg, e.ty);
    NormalizedSpelling(e.ty);
    NormalizingKeepsSort(e.ty);
  }

  lemma ArgsKept(pg: Engine, tr: Engine, name: seq<string>, args: Args, g: seq<Row>, fr: Frame)
    requires Related(pg, tr) && pg.known(name)
    requires args.QueryArg? ==> EvalQ(tr, VisitQ(ALL, args.query), fr.row, fr.ctes) == EvalQ(pg, args.query, fr.row, fr.ctes)
    requires args.ArgList? ==>
               && EvalEs(tr, VisitEs(ALL, args.args), fr) == EvalEs(pg, args.args, fr)
               && EvalGs(tr, VisitEs(ALL, args.args), Singles(g), fr.row, fr.ctes) == EvalGs(pg, args.args, Singles(g), fr.row, fr.ctes)
    ensures EvalA(tr, TrinoName(name, ArgCount(args)), VisitA(ALL, args), g, fr) == EvalA(pg, name, args, g, fr)
  {
  }

  /** A call keeps its value once its arguments and the rows of its group do. */
  lemma CallNodeKept(pg: Engine, tr: Engine, e: Expr, g: seq<Row>, fr: Frame)
    requires Related(pg, tr) && e.Call? && NameOk(pg, e)
    requires EvalA(tr, TrinoName(Resolve(Postgres, e.fn), ArgCount(e.args)), VisitA(ALL, e.args), g, fr)
          == EvalA(pg, Resolve(Postgres, e.fn), e.args, g, fr)
    requires e.filter.None? ==> g == fr.group
    requires e.filter.Some? ==> g == Keep(fr.group, EvalG(pg, e.filter.value, Singles(fr.group), fr.row, fr.ctes))
    requires e.filter.Some? ==> g == Keep(fr.group, EvalG(tr, VisitE(ALL, e.filter.value), Singles(fr.group), fr.row, fr.ctes))
    ensures EvalE(tr, VisitE(ALL, e), fr) == EvalE(pg, e, fr)
  {
    assert ArgCount(VisitA(ALL, e.args)) == ArgCount(e.args);
    CallNode(ALL, e.fn, VisitA(ALL, e.args), VisitO(ALL, e.filter));
    ResolveAfterRename(e.fn, ArgCount(e.args));
  }

  // ---------------------------------------------------------------- the whole tree

  lemma {:induction false} MeaningKeptE(pg: Engine, tr: Engine, e: Expr, fr: Frame)
    requires Related(pg, tr) && EveryE(e, NamesE(pg), AnyQ()) && FitsE(pg, tr, e, fr)
    ensures EvalE(tr, VisitE(ALL, e), fr) == EvalE(pg, e, fr)
    decreases e, 0, 0
  {
    match e
    case Column(_) =>
    case Lit(_) =>
    case Wildcard =>
    case Op(op, xs) =>
      MeaningKeptEs(pg, tr, xs, fr);
    case Cast(_, x, _) =>
      MeaningKeptE(pg, tr, x, fr);
      CastNodeKept(pg, tr, e, fr);
    case Like(_, _, x, p, _) =>
      MeaningKeptE(pg, tr, x, fr);
      MeaningKeptE(pg, tr, p, fr);
      LikeNodeKept(pg, tr, e, fr);
    case ILike(_, _, x, p, _) =>
      MeaningKeptE(pg, tr, x, fr);
      MeaningKeptE(pg, tr, p, fr);
      ILikeNodeKept(pg, tr, e, fr);
    case Call(fn, args, filter) =>
      assert NameOk(pg, e) by { assert NamesE(pg)(e); }
      var g := Filtered(pg, filter, fr);
      if filter.Some? { MeaningKeptG(pg, tr, filter.value, Singles(fr.group), fr.row, fr.ctes); }
      if args.QueryArg? { MeaningKeptQ(pg, tr, args.query, fr.row, fr.ctes); }
      if args.ArgList? {
        MeaningKeptEs(pg, tr, args.args, fr);
        MeaningKeptGs(pg, tr, args.args, Singles(g), fr.row, fr.ctes);
      }
      ArgsKept(pg, tr, Resolve(Postgres, fn), args, g, fr);
      CallNodeKept(pg, tr, e, g, fr);
    case SubQuery(_, xs, q) =>
      MeaningKeptEs(pg, tr, xs, fr);
      MeaningKeptQ(pg, tr, q, fr.row, fr.ctes);
  }

  lemma CastNodeKept(pg: Engine, tr: Engine, e: Expr, fr: Frame)
    requires Related(pg, tr) && e.Cast? && EvalE(tr, VisitE(ALL, e.arg), fr) == EvalE(pg, e.arg, fr)
    requires (e.ty.ArrayOf? ==> TrinoSpelling(e.ty.elem)) || EvalE(pg, e, fr) == VError
    ensures EvalE(tr, VisitE(ALL, e), fr) == EvalE(pg, e, fr)
  {
    CastKeptExactly(pg, tr, e, fr);
    NormalizedSpelling(e.ty);
  }

  lemma {:induction false} MeaningKeptEs(pg: Engine, tr: Engine, es: seq<Expr>, fr: Frame)
    requires Related(pg, tr) && EveryEs(es, NamesE(pg), AnyQ()) && FitsEs(pg, tr, es, fr)
    ensures EvalEs(tr, VisitEs(ALL, es), fr) == EvalEs(pg, es, fr)
    decreases es, 0, 0
  {
    forall i | 0 <= i < |es|
      ensures EvalEs(tr, VisitEs(ALL, es), fr)[i] == EvalEs(pg, es, fr)[i]
    {
      MeaningKeptE(pg, tr, es[i], fr);
    }
  }

  lemma {:induction false} MeaningKeptO(pg: Engine, tr: Engine, o: Option<Expr>, fr: Frame)
    requires Related(pg, tr) && EveryO(o, NamesE(pg), AnyQ()) && FitsO(pg, tr, o, fr)
    ensures EvalO(tr, VisitO(ALL, o), fr) == EvalO(pg, o, fr)
    decreases o, 0, 0
  {
    if o.Some? { MeaningKeptE(pg, tr, o.value, fr); }
  }

  lemma {:induction false} MeaningKeptG(pg: Engine, tr: Engine, e: Expr, gs: seq<seq<Row>>, outer: Row, ctes: map<string, Outcome>)
    requires Related(pg, tr) && EveryE(e, NamesE(pg), AnyQ()) && FitsG(pg, tr, e, gs, outer, ctes)
    ensures EvalG(tr, VisitE(ALL, e), gs, outer, ctes) == EvalG(pg, e, gs, outer, ctes)
    decreases e, 1, 0
  {
    forall i | 0 <= i < |gs|
      ensures EvalG(tr, VisitE(ALL, e), gs, outer, ctes)[i] == EvalG(pg, e, gs, outer, ctes)[i]
    {
      MeaningKeptE(pg, tr, e, GroupFrame(gs[i], outer, ctes));
    }
  }

  lemma {:induction false} MeaningKeptGs(pg: Engine, tr: Engine, es: seq<Expr>, gs: seq<seq<Row>>, outer: Row, ctes: map<string, Outcome>)
    requires Related(pg, tr) && EveryEs(es, NamesE(pg), AnyQ()) && FitsGs(pg, tr, es, gs, outer, ctes)
    ensures EvalGs(tr, VisitEs(ALL, es), gs, outer, ctes) == EvalGs(pg, es, gs, outer, ctes)
    decreases es, 1, 0
  {
    forall i | 0 <= i < |gs|
      ensures EvalGs(tr, VisitEs(ALL, es), gs, outer, ctes)[i] == EvalGs(pg, es, gs, outer, ctes)[i]
    {
      MeaningKeptEs(pg, tr, es, GroupFrame(gs[i], outer, ctes));
    }
  }

  lemma {:induction false} MeaningKeptR(pg: Engine, tr: Engine, r: Rel, outer: Row, ctes: map<string, Outcome>)
    requires Related(pg, tr) && EveryR(r, NamesE(pg), AnyQ()) && FitsR(pg, tr, r, outer, ctes)
    ensures EvalR(tr, VisitR(ALL, r), outer, ctes) == EvalR(pg, r, outer, ctes)
    decreases r, 1, 0
  {
    match r
    case NoFrom =>
    case Table(_) =>
    case Derived(q, _) => MeaningKeptQ(pg, tr, q, outer, ctes);
    case Join(_, a, b, on) =>
      MeaningKeptR(pg, tr, a, outer, ctes);
      MeaningKeptR(pg, tr, b, outer, ctes);
      var x, y := EvalR(pg, a, outer, ctes), EvalR(pg, b, outer, ctes);
      if x.Rows? && y.Rows? && on.Some? {
        MeaningKeptG(pg, tr, on.value, Singles(Extend(Cross(x.rows, y.rows), outer)), outer, ctes);
      }
    case Select(_, _, _, from, _, _, _) =>
      MeaningKeptR(pg, tr, from, outer, ctes);
      if EvalR(pg, from, outer, ctes).Rows? {
        MeaningKeptS(pg, tr, r, Extend(EvalR(pg, from, outer, ctes).rows, outer), outer, ctes);
      }
    case SetOp(_, a, b) =>
      MeaningKeptR(pg, tr, a, outer, ctes);
      MeaningKeptR(pg, tr, b, outer, ctes);
    case Values(_, cells) => MeaningKeptEs(pg, tr, cells, Frame(outer, [outer], ctes));
  }

  lemma {:induction false} MeaningKeptS(pg: Engine, tr: Engine, r: Rel, rows: seq<Row>, outer: Row, ctes: map<string, Outcome>)
    requires Related(pg, tr) && r.Select? && EveryR(r, NamesE(pg), AnyQ()) && FitsS(pg, tr, r, rows, outer, ctes)
    ensures EvalS(tr, VisitR(ALL, r), rows, outer, ctes) == EvalS(pg, r, rows, outer, ctes)
    decreases r, 0, 0
  {
    if r.where.Some? { MeaningKeptG(pg, tr, r.where.value, Singles(rows), outer, ctes); }
    var kept := KeptRows(pg, r, rows, outer, ctes);
    MeaningKeptGs(pg, tr, r.groupBy, Singles(kept), outer, ctes);
    assert |VisitEs(ALL, r.groupBy)| == |r.groupBy|;
    AggregatesKeptEs(pg, tr, r.items);
    if r.having.Some? { AggregatesKept(pg, tr, r.having.value); }
    var groups := Groups(pg, r, kept, outer, ctes);
    if r.having.Some? { MeaningKeptG(pg, tr, r.having.value, groups, outer, ctes); }
    var chosen := Chosen(pg, r, groups, outer, ctes);
    MeaningKeptGs(pg, tr, r.items, chosen, outer, ctes);
  }

  lemma {:induction false} MeaningKeptCs(pg: Engine, tr: Engine, cs: seq<Cte>, outer: Row, ctes: map<string, Outcome>)
    requires Related(pg, tr) && EveryCs(cs, NamesE(pg), AnyQ()) && FitsCs(pg, tr, cs, outer, ctes)
    ensures EvalCs(tr, VisitCs(ALL, cs), outer, ctes) == EvalCs(pg, cs, outer, ctes)
    decreases cs, 0, 0
  {
    if cs == [] {
    } else {
      MeaningKeptQ(pg, tr, cs[0].query, outer, ctes);
      assert VisitCs(ALL, cs)[1..] == VisitCs(ALL, cs[1..]);
      MeaningKeptCs(pg, tr, cs[1..], outer, ctes[cs[0].name := EvalQ(pg, cs[0].query, outer, ctes)]);
    }
  }

  lemma {:induction false} MeaningKeptQ(pg: Engine, tr: Engine, q: Query, outer: Row, ctes: map<string, Outcome>)
    requires Related(pg, tr) && EveryQ(q, NamesE(pg), AnyQ()) && FitsQ(pg, tr, q, outer, ctes)
    ensures EvalQ(tr, VisitQ(ALL, q), outer, ctes) == EvalQ(pg, q, outer, ctes)
    decreases q, 1, 0
  {
    MeaningKeptCs(pg, tr, q.ctes, outer, ctes);
    var inner := EvalCs(pg, q.ctes, outer, ctes);
    MeaningKeptR(pg, tr, q.body, outer, inner);
    var body := EvalR(pg, q.body, outer, inner);
    MeaningKeptK(pg, tr, q.orderBy, body, outer, inner);
    if body.Rows? { MeaningKeptT(pg, tr, q, Frame(outer, [outer], inner)); }
    AssembleQuery(pg, tr, q, outer, ctes);
  }

  /** A row count has the same value in both engines, leaving aside what Trino's grammar takes. */
  ghost predicate CountKept(pg: Engine, tr: Engine, o: Option<Expr>, fr: Frame) {
    EvalO(tr, VisitO(ALL, o), fr) == EvalO(pg, o, fr)
  }

  ghost predicate TailKept(pg: Engine, tr: Engine, q: Query, fr: Frame) {
    && (q.limitClause.Some? && q.limitClause.value.LimitOffset? ==>
          CountKept(pg, tr, q.limitClause.value.limit, fr) && CountKept(pg, tr, q.limitClause.value.offset, fr))
    && (q.fetch.Some? ==> CountKept(pg, tr, q.fetch.value.quantity, fr))
  }

  lemma {:induction false} MeaningKeptT(pg: Engine, tr: Engine, q: Query, fr: Frame)
    requires Related(pg, tr) && EveryL(q.limitClause, NamesE(pg), AnyQ()) && EveryF(q.fetch, NamesE(pg), AnyQ())
    requires FitsL(pg, tr, q.limitClause, fr) && FitsF(pg, tr, q.fetch, fr)
    ensures TailKept(pg, tr, q, fr)
    decreases q, 0
  {
    if q.limitClause.Some? && q.limitClause.value.LimitOffset? {
      MeaningKeptO(pg, tr, q.limitClause.value.limit, fr);
      MeaningKeptO(pg, tr, q.limitClause.value.offset, fr);
    }
    if q.fetch.Some? { MeaningKeptO(pg, tr, q.fetch.value.quantity, fr); }
  }

  lemma VisitedParts(q: Query)
    ensures var m := VisitQ(ALL, q);
            && m == RewriteLimit(WalkQ(ALL, q))
            && m.ctes == VisitCs(ALL, q.ctes) && m.body == VisitR(ALL, q.body) && m.orderBy == VisitEs(ALL, q.orderBy)
  {
  }

  /** Once the parts of a query mean the same, moving its LIMIT keeps the whole. */
  lemma AssembleQuery(pg: Engine, tr: Engine, q: Query, outer: Row, ctes: map<string, Outcome>)
    requires Related(pg, tr)
    requires EvalCs(tr, VisitCs(ALL, q.ctes), outer, ctes) == EvalCs(pg, q.ctes, outer, ctes)
    requires var inner := EvalCs(pg, q.ctes, outer, ctes);
             var body := EvalR(pg, q.body, outer, inner);
             var fr := Frame(outer, [outer], inner);
             && EvalR(tr, VisitR(ALL, q.body), outer, inner) == body
             && EvalK(tr, VisitEs(ALL, q.orderBy), body, outer, inner) == EvalK(pg, q.orderBy, body, outer, inner)
             && (body.Rows? ==> TailKept(pg, tr, q, fr) && TailFits(TailOf(pg, q, fr), q))
    ensures EvalQ(tr, VisitQ(ALL, q), outer, ctes) == EvalQ(pg, q, outer, ctes)
  {
    var inner := EvalCs(pg, q.ctes, outer, ctes);
    var body := EvalR(pg, q.body, outer, inner);
    var keys := EvalK(pg, q.orderBy, body, outer, inner);
    if body.Rows? {
      var sorted := if |q.orderBy| > 0 then pg.common.sort(keys, body.rows) else body.rows;
      var fr := Frame(outer, [outer], inner);
      TailsAgreeExactly(pg, tr, q, fr, keys, sorted);
    }
    VisitedParts(q);
    QueriesAgree(pg, tr, q, VisitQ(ALL, q), outer, ctes);
  }

  /** Two queries agree when their parts do and their tails cut the same rows. */
  lemma QueriesAgree(pg: Engine, tr: Engine, q: Query, m: Query, outer: Row, ctes: map<string, Outcome>)
    requires tr.common == pg.common && |m.orderBy| == |q.orderBy|
    requires EvalCs(tr, m.ctes, outer, ctes) == EvalCs(pg, q.ctes, outer, ctes)
    requires var inner := EvalCs(pg, q.ctes, outer, ctes);
             var body := EvalR(pg, q.body, outer, inner);
             var keys := EvalK(pg, q.orderBy, body, outer, inner);
             var fr := Frame(outer, [outer], inner);
             && EvalR(tr, m.body, outer, inner) == body
             && EvalK(tr, m.orderBy, body, outer, inner) == keys
             && (body.Rows? ==>
                   var sorted := if |q.orderBy| > 0 then pg.common.sort(keys, body.rows) else body.rows;
                   ApplyTail(tr.dialect, pg.common, TailOf(tr, m, fr), keys, sorted)
                   == ApplyTail(pg.dialect, pg.common, TailOf(pg, q, fr), keys, sorted))
    ensures EvalQ(tr, m, outer, ctes) == EvalQ(pg, q, outer, ctes)
  {
  }

  lemma {:induction false} MeaningKeptK(pg: Engine, tr: Engine, es: seq<Expr>, body: Outcome, outer: Row, ctes: map<string, Outcome>)
    requires Related(pg, tr) && EveryEs(es, NamesE(pg), AnyQ()) && (body.Rows? ==> FitsGs(pg, tr, es, Singles(Extend(body.rows, outer)), outer, ctes))
    ensures EvalK(tr, VisitEs(ALL, es), body, outer, ctes) == EvalK(pg, es, body, outer, ctes)
    decreases es, 2, 0
  {
    if body.Rows? { MeaningKeptGs(pg, tr, es, Singles(Extend(body.rows, outer)), outer, ctes); }
  }

  // ---------------------------------------------------------------- tails

  /** A row count as Trino gets it. */
  function Counted(o: Option<Expr>, v: Option<Val>): Option<Val> {
    if o.Some? && !WholeLiteral(o.value) then Some(VError) else v
  }

  lemma CountSent(pg: Engine, tr: Engine, o: Option<Expr>, fr: Frame)
    requires tr.dialect.Trino? && CountKept(pg, tr, o, fr)
    ensures EvalC(tr, VisitO(ALL, o), fr) == Counted(o, EvalO(pg, o, fr))
  {
    if o.Some? { VisitKeepsZeroLiterals(ALL, o.value); }
  }

  lemma WholeCount(eng: Engine, o: Option<Expr>, fr: Frame)
    ensures o.Some? && WholeLiteral(o.value) ==>
              && EvalO(eng, o, fr).Some?
              && CountOf(EvalO(eng, o, fr).value) == AtMost(o.value.lit.n.Floor)
              && (IsZeroLiteral(o.value) <==> o.value.lit.n.Floor == 0)
  {
    if o.Some? && WholeLiteral(o.value) { WholeLiteralCounts(o.value); }
  }

  lemma PlainCount(pg: Engine, o: Option<Expr>, fr: Frame)
    requires pg.dialect.Postgres?
    ensures EvalC(pg, o, fr) == EvalO(pg, o, fr)
  {
  }

  lemma PlainClause(pg: Engine, n: Option<Expr>, m: Option<Expr>, ks: seq<Expr>, fr: Frame)
    requires pg.dialect.Postgres?
    ensures EvalL(pg, Some(LimitOffset(n, m, ks)), fr) == (EvalO(pg, n, fr), EvalO(pg, m, fr), ks != [])
  {
    PlainCount(pg, n, fr);
    PlainCount(pg, m, fr);
  }

  lemma NoClause(eng: Engine, fr: Frame)
    ensures EvalL(eng, None, fr) == (None, None, false) && VisitL(ALL, None) == None
  {
  }

  lemma CommaIsOdd(eng: Engine, l: Option<LimitClause>, fr: Frame)
    requires l.Some? && l.value.OffsetComma?
    ensures EvalL(eng, l, fr).2
    ensures var v := VisitL(ALL, l); v.Some? && v.value.OffsetComma?
  {
  }

  lemma LimitClauseParts(eng: Engine, n: Option<Expr>, m: Option<Expr>, fr: Frame)
    ensures EvalL(eng, Some(LimitOffset(n, m, [])), fr) == (EvalC(eng, n, fr), EvalC(eng, m, fr), false)
    ensures VisitL(ALL, Some(LimitOffset(n, m, []))) == Some(LimitOffset(VisitO(ALL, n), VisitO(ALL, m), []))
  {
    assert VisitEs(ALL, []) == [];
  }

  /** The tail Trino sees when a LIMIT has been moved into FETCH. */
  lemma MovedTail(pg: Engine, tr: Engine, q: Query, fr: Frame)
    requires tr.dialect.Trino? && TailKept(pg, tr, q, fr) && LimitThenOffset(q) && !ZeroLimit(q)
    ensures var c := q.limitClause.value;
            var fetch := FetchVal(false, false, Counted(c.limit, EvalO(pg, c.limit, fr)));
            TailOf(tr, RewriteLimit(WalkQ(ALL, q)), fr) == Tail(None, Counted(c.offset, EvalO(pg, c.offset, fr)), Some(fetch), false)
  {
    var c := q.limitClause.value;
    LimitActionCommutesWithWalk(ALL, q);
    var m := WalkQ(ALL, RewriteLimit(q));
    LimitClauseParts(tr, None, c.offset, fr);
    LimitClauseParts(tr, None, VisitO(ALL, c.offset), fr);
    assert m.limitClause == Some(LimitOffset(None, VisitO(ALL, c.offset), []));
    assert m.fetch == Some(Fetch(false, false, VisitO(ALL, c.limit)));
    assert EvalC(tr, None, fr) == None;
    CountSent(pg, tr, c.limit, fr);
    CountSent(pg, tr, c.offset, fr);
  }

  /** The tail Trino sees for `LIMIT 0 OFFSET m`. */
  lemma ZeroedTail(pg: Engine, tr: Engine, q: Query, fr: Frame)
    requires tr.dialect.Trino? && TailKept(pg, tr, q, fr) && ZeroLimit(q)
    ensures var c := q.limitClause.value;
            TailOf(tr, RewriteLimit(WalkQ(ALL, q)), fr) == Tail(Counted(c.limit, EvalO(pg, c.limit, fr)), None, None, false)
  {
    var c := q.limitClause.value;
    LimitActionCommutesWithWalk(ALL, q);
    var m := WalkQ(ALL, RewriteLimit(q));
    LimitClauseParts(tr, c.limit, None, fr);
    LimitClauseParts(tr, VisitO(ALL, c.limit), None, fr);
    assert m.limitClause == Some(LimitOffset(VisitO(ALL, c.limit), None, []));
    assert EvalC(tr, None, fr) == None;
    CountSent(pg, tr, c.limit, fr);
  }

  ghost function CountedFetch(pg: Engine, f: Option<Fetch>, fr: Frame): Option<FetchVal> {
    match f
    case None => None
    case Some(Fetch(t, p, n)) => Some(FetchVal(t, p, Counted(n, EvalO(pg, n, fr))))
  }

  lemma FetchSent(pg: Engine, tr: Engine, f: Option<Fetch>, fr: Frame)
    requires tr.dialect.Trino? && (f.Some? ==> CountKept(pg, tr, f.value.quantity, fr))
    ensures EvalF(tr, VisitF(ALL, f), fr) == CountedFetch(pg, f, fr)
  {
    if f.Some? { CountSent(pg, tr, f.value.quantity, fr); }
  }

  lemma PlainClauseSent(pg: Engine, tr: Engine, q: Query, fr: Frame)
    requires tr.dialect.Trino? && TailKept(pg, tr, q, fr)
    requires q.limitClause.Some? && q.limitClause.value.LimitOffset?
    ensures var c := q.limitClause.value;
            EvalL(tr, VisitL(ALL, q.limitClause), fr)
            == (Counted(c.limit, EvalO(pg, c.limit, fr)), Counted(c.offset, EvalO(pg, c.offset, fr)), c.limitBy != [])
  {
    var c := q.limitClause.value;
    assert |VisitEs(ALL, c.limitBy)| == |c.limitBy|;
    CountSent(pg, tr, c.limit, fr);
    CountSent(pg, tr, c.offset, fr);
  }

  /** `LIMIT n OFFSET m` as FETCH: right exactly when both counts are literals of digits, or PostgreSQL rejects it too. */
  lemma LimitAsFetchExactly(pg: Engine, tr: Engine, q: Query, fr: Frame, keys: seq<seq<Val>>, rows: seq<Row>)
    requires pg.dialect.Postgres? && tr.dialect.Trino? && TailKept(pg, tr, q, fr)
    requires LimitThenOffset(q) && !ZeroLimit(q)
    ensures ApplyTail(Trino, pg.common, TailOf(tr, RewriteLimit(WalkQ(ALL, q)), fr), keys, rows)
         == ApplyTail(Postgres, pg.common, TailOf(pg, q, fr), keys, rows)
       <==> Rejects(TailOf(pg, q, fr)) || CountsTaken(q)
  {
    var c := q.limitClause.value;
    MovedTail(pg, tr, q, fr);
    PlainClause(pg, c.limit, c.offset, [], fr);
    assert TailOf(pg, q, fr) == Tail(EvalO(pg, c.limit, fr), EvalO(pg, c.offset, fr), None, false);
    WholeCount(pg, c.limit, fr);
    WholeCount(pg, c.offset, fr);
    assert EvalO(pg, c.limit, fr).Some? && EvalO(pg, c.offset, fr).Some?;
  }

  /** `LIMIT 0 OFFSET m` as a bare `LIMIT 0`: right exactly when it is spelled with digits and the dropped offset is valid, or neither. */
  lemma ZeroLimitDropsOffsetExactly(pg: Engine, tr: Engine, q: Query, fr: Frame, keys: seq<seq<Val>>, rows: seq<Row>)
    requires pg.dialect.Postgres? && tr.dialect.Trino? && TailKept(pg, tr, q, fr) && ZeroLimit(q)
    ensures ApplyTail(Trino, pg.common, TailOf(tr, RewriteLimit(WalkQ(ALL, q)), fr), keys, rows)
         == ApplyTail(Postgres, pg.common, TailOf(pg, q, fr), keys, rows)
       <==> (WholeLiteral(q.limitClause.value.limit.value) <==> !OffsetCount(TailOf(pg, q, fr)).BadCount?)
  {
    var c := q.limitClause.value;
    ZeroedTail(pg, tr, q, fr);
    PlainClause(pg, c.limit, c.offset, [], fr);
    assert TailOf(pg, q, fr) == Tail(EvalO(pg, c.limit, fr), EvalO(pg, c.offset, fr), None, false);
    ZeroLiteralCountsZero(c.limit.value);
    assert EvalO(pg, c.limit, fr) == Some(LiteralVal(c.limit.value.lit));
    assert Take(AtMost(0), Skip(AtMost(0), rows)) == [];
    assert Take(AtMost(0), Skip(OffsetCount(TailOf(pg, q, fr)), rows)) == [];
  }

  /** A clause that is not moved, a FETCH of the client's own among them: right exactly when Trino takes its counts, or PostgreSQL rejects it too. */
  lemma UnmovedTailExactly(pg: Engine, tr: Engine, q: Query, fr: Frame, keys: seq<seq<Val>>, rows: seq<Row>)
    requires pg.dialect.Postgres? && tr.dialect.Trino? && TailKept(pg, tr, q, fr) && !LimitThenOffset(q)
    ensures ApplyTail(Trino, pg.common, TailOf(tr, RewriteLimit(WalkQ(ALL, q)), fr), keys, rows)
         == ApplyTail(Postgres, pg.common, TailOf(pg, q, fr), keys, rows)
       <==> Rejects(TailOf(pg, q, fr)) || CountsTaken(q)
  {
    var t, u := TailOf(pg, q, fr), TailOf(tr, RewriteLimit(WalkQ(ALL, q)), fr);
    assert u == TailOf(tr, WalkQ(ALL, q), fr) by { LimitActionCommutesWithWalk(ALL, q); }
    FetchSent(pg, tr, q.fetch, fr);
    if q.fetch.Some? { FetchTaken(pg, q.fetch, fr); }
    if q.limitClause.Some? && q.limitClause.value.LimitOffset? {
      var c := q.limitClause.value;
      PlainClauseSent(pg, tr, q, fr);
      PlainClause(pg, c.limit, c.offset, c.limitBy, fr);
      CountTaken(pg, c.limit, fr);
      CountTaken(pg, c.offset, fr);
    } else if q.limitClause.Some? {
      CommaIsOdd(pg, q.limitClause, fr);
      CommaIsOdd(tr, VisitL(ALL, q.limitClause), fr);
    } else {
      NoClause(pg, fr);
      NoClause(tr, fr);
    }
  }

  /** Trino counts as PostgreSQL does what it takes, and nothing else. */
  lemma CountTaken(pg: Engine, o: Option<Expr>, fr: Frame)
    ensures var v := EvalO(pg, o, fr);
            && v.Some? == o.Some? == Counted(o, v).Some?
            && (o.Some? ==> CountOf(Counted(o, v).value) == if WholeLiteral(o.value) then CountOf(v.value) else BadCount)
            && (o.Some? && WholeLiteral(o.value) ==> CountOf(v.value).AtMost?)
  {
    WholeCount(pg, o, fr);
  }

  lemma FetchTaken(pg: Engine, f: Option<Fetch>, fr: Frame)
    requires f.Some? && pg.dialect.Postgres?
    ensures var v := EvalF(pg, f, fr).value;
            var w := CountedFetch(pg, f, fr).value;
            var n := f.value.quantity;
            && w.withTies == v.withTies && w.percent == v.percent
            && (FetchCount(w).BadCount? || FetchCount(w) == FetchCount(v))
            && (FetchCount(w).BadCount? || FetchCount(w) == AtMost(0) <==> n.Some? && (!WholeLiteral(n.value) || IsZeroLiteral(n.value)))
  {
    CountTaken(pg, f.value.quantity, fr);
    WholeCount(pg, f.value.quantity, fr);
  }

  /**
    For every query and every evaluation of its counts: what Trino cuts for the rewritten tail is
    what PostgreSQL cuts for the original if and only if `TailFits`.
   */
  lemma TailsAgreeExactly(pg: Engine, tr: Engine, q: Query, fr: Frame, keys: seq<seq<Val>>, rows: seq<Row>)
    requires pg.dialect.Postgres? && tr.dialect.Trino? && TailKept(pg, tr, q, fr)
    ensures ApplyTail(Trino, pg.common, TailOf(tr, RewriteLimit(WalkQ(ALL, q)), fr), keys, rows)
         == ApplyTail(Postgres, pg.common, TailOf(pg, q, fr), keys, rows)
       <==> TailFits(TailOf(pg, q, fr), q)
    ensures Rejects(TailOf(pg, q, fr)) <==> ApplyTail(Postgres, pg.common, TailOf(pg, q, fr), keys, rows) == Rejected
  {
    PostgresRejectsExactly(pg.common, TailOf(pg, q, fr), keys, rows);
    if ZeroLimit(q) {
      ZeroLimitDropsOffsetExactly(pg, tr, q, fr, keys, rows);
    } else if LimitThenOffset(q) {
      LimitAsFetchExactly(pg, tr, q, fr, keys, rows);
    } else {
      UnmovedTailExactly(pg, tr, q, fr, keys, rows);
    }
  }

  /**
    Main theorem. For every query, of any nesting: what Trino computes for the output of the
    four visitors is what PostgreSQL computes for the input, row for row, if every node fits on the
    values it has where the evaluation reaches it.
   */
  lemma RewritePreservesMeaning(pg: Engine, tr: Engine, q: Query, outer: Row, ctes: map<string, Outcome>)
    requires Related(pg, tr) && EveryQ(q, NamesE(pg), AnyQ())
    requires FitsQ(pg, tr, q, outer, ctes)
    ensures EvalQ(tr, RewriteQuery(q), outer, ctes) == EvalQ(pg, q, outer, ctes)
  {
    PipelineIsOneWalk(q);
    MeaningKeptQ(pg, tr, q, outer, ctes);
  }

  // ---------------------------------------------------------------- related engines exist

  /** The PostgreSQL function behind a Trino name. */
  function PostgresName(name: seq<string>): seq<string> {
    if name == ["listagg"] then ["string_agg"]
    else if name == ["log10"] then ["log"]
    else if name == ["truncate"] then ["trunc"]
    else name
  }

  lemma PostgresNameInverts(n: seq<string>, k: nat)
    requires n != ["listagg"] && n != ["log10"] && n != ["truncate"]
    ensures PostgresName(TrinoName(n, k)) == n
  {
    if |n| == 1 {
      var t := TrinoName(n, k);
      assert n == [n[0]] && t == [TrinoWord(n[0], k)];
      assert |"listagg"| == 7 && |"log10"| == 5 && |"truncate"| == 8;
      if Replaced(n[0], k) {
        assert t == ["listagg"] || t == ["log10"] || t == ["truncate"];
      } else {
        assert t == n;
      }
    }
  }

  /**
    `Related` is not an empty assumption: every PostgreSQL engine without functions under the
    three target names, and whose casts do not tell a type name from its synonym, has a Trino
    engine related to it.
   */
  lemma RelatedEngineExists(pg: Engine) returns (tr: Engine)
    requires pg.dialect.Postgres? && KeepsWildcards(pg.common.lower)
    requires !pg.known(["listagg"]) && !pg.known(["log10"]) && !pg.known(["truncate"])
    requires forall a, g :: pg.fns(["lower"], OfList(1), [a], g) == LowerVal(pg.common.lower, a)
    requires !pg.isAggregate(["lower"])
    requires forall try, t, u, v :: SortOf(u) == SortOf(t) ==> pg.cast(try, u, v) == pg.cast(try, t, v)
    ensures Related(pg, tr)
  {
    tr := Engine(Trino, pg.common, None, pg.known,
                 n => pg.isAggregate(PostgresName(n)),
                 (n, s, a, g) => pg.fns(PostgresName(n), s, a, g),
                 pg.cast);
    forall n, k: nat | pg.known(n)
      ensures PostgresName(TrinoName(n, k)) == n
    {
      PostgresNameInverts(n, k);
    }
    var l := ["lower"];
    assert l[0] == "lower" && |"lower"| == 5 && "lower"[1] == 'o' && "log10"[2] == 'g' && "lower"[2] == 'w';
    assert PostgresName(l) == l by {
      assert l != ["listagg"] by { assert ["listagg"][0] == "listagg"; }
      assert l != ["log10"] by { assert ["log10"][0] == "log10"; }
      assert l != ["truncate"] by { assert ["truncate"][0] == "truncate"; }
    }
  }
}
