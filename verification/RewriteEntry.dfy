/** `rewrite_sql` as a whole, and what its result is for every statement. */
module RewriteEntry {
  import opened Options
  import opened SqlAst
  import opened Rewrite
  import opened RewriteNormalForm
  import opened RewritePreservation
  import opened RewriteVisitors
  import opened SqlSemantics

  /** The SQL sent on: the input text itself, or the printed form of a statement. */
  datatype Output = Unchanged(sql: string) | Printed(stmt: Statement)

  /** `m` is what becomes of the query `q`: the same to Trino as `q` to PostgreSQL wherever all nodes fit. */
  ghost predicate MeansQ(pg: Engine, tr: Engine, q: Query, m: Query, outer: Row, ctes: map<string, Outcome>) {
    Related(pg, tr) && EveryQ(q, NamesE(pg), AnyQ()) && FitsQ(pg, tr, q, outer, ctes) ==>
      EvalQ(tr, m, outer, ctes) == EvalQ(pg, q, outer, ctes)
  }

  ghost predicate MeansE(pg: Engine, tr: Engine, e: Expr, m: Expr, fr: Frame) {
    Related(pg, tr) && EveryE(e, NamesE(pg), AnyQ()) && FitsE(pg, tr, e, fr) ==> EvalE(tr, m, fr) == EvalE(pg, e, fr)
  }

  /** Every node of `m` is in Trino's form, and every query of it comes from one of `q` in the right order. */
  ghost predicate TrinoQuery(q: Query, m: Query) {
    EveryQ(m, TrinoE(), NoLimitThenOffset()) && EveryQ(m, TrinoE(), ComesFrom(NodesQ(q)))
  }

  ghost predicate TrinoExpr(e: Expr, m: Expr) {
    EveryE(m, TrinoE(), NoLimitThenOffset()) && EveryE(m, TrinoE(), ComesFrom(NodesE(e)))
  }

  /** The result of rewriting has the shape of the statement, part by part in Trino's form. */
  ghost predicate TrinoStatement(s: Statement, t: Statement) {
    match s
    case QueryStatement(q) => t.QueryStatement? && TrinoQuery(q, t.query)
    case Command(text, es, qs) =>
      && t.Command? && t.text == text && |t.exprs| == |es| && |t.queries| == |qs|
      && (forall i :: 0 <= i < |es| ==> TrinoExpr(es[i], t.exprs[i]))
      && (forall i :: 0 <= i < |qs| ==> TrinoQuery(qs[i], t.queries[i]))
  }

  lemma AllComeFrom(ns: set<Query>)
    ensures Yields(ns, ComesFrom(ns)) && Yields(ns, NoLimitThenOffset())
  {
    forall m | m in ns
      ensures ComesFrom(ns)(VisitQ(ALL, m))
    {
      VisitedTail(m);
    }
  }

  lemma QueryBecomesTrino(q: Query)
    ensures TrinoQuery(q, VisitQ(ALL, q))
  {
    AllComeFrom(NodesQ(q));
    RewrittenQ(NodesQ(q), NoLimitThenOffset(), q);
    RewrittenQ(NodesQ(q), ComesFrom(NodesQ(q)), q);
  }

  lemma ExprBecomesTrino(e: Expr)
    ensures TrinoExpr(e, VisitE(ALL, e))
  {
    AllComeFrom(NodesE(e));
    RewrittenE(NodesE(e), NoLimitThenOffset(), e);
    RewrittenE(NodesE(e), ComesFrom(NodesE(e)), e);
  }

  lemma StatementBecomesTrino(s: Statement)
    ensures TrinoStatement(s, RewriteStatement(s))
  {
    StatementInOneWalk(s);
    match s
    case QueryStatement(q) => QueryBecomesTrino(q);
    case Command(_, es, qs) =>
      forall i | 0 <= i < |es| ensures TrinoExpr(es[i], VisitEs(ALL, es)[i]) { ExprBecomesTrino(es[i]); }
      forall i | 0 <= i < |qs| ensures TrinoQuery(qs[i], VisitQs(ALL, qs)[i]) { QueryBecomesTrino(qs[i]); }
  }

  lemma QueryKeepsMeaning(pg: Engine, tr: Engine, q: Query, outer: Row, ctes: map<string, Outcome>)
    ensures MeansQ(pg, tr, q, VisitQ(ALL, q), outer, ctes)
  {
    if Related(pg, tr) && EveryQ(q, NamesE(pg), AnyQ()) && FitsQ(pg, tr, q, outer, ctes) {
      MeaningKeptQ(pg, tr, q, outer, ctes);
    }
  }

  lemma ExprKeepsMeaning(pg: Engine, tr: Engine, e: Expr, fr: Frame)
    ensures MeansE(pg, tr, e, VisitE(ALL, e), fr)
  {
    if Related(pg, tr) && EveryE(e, NamesE(pg), AnyQ()) && FitsE(pg, tr, e, fr) {
      MeaningKeptE(pg, tr, e, fr);
    }
  }

  /** Every query and every expression of the statement keeps its meaning, for these engines and these data. */
  ghost predicate MeansStatement(pg: Engine, tr: Engine, s: Statement, t: Statement, fr: Frame) {
    match s
    case QueryStatement(q) => t.QueryStatement? && MeansQ(pg, tr, q, t.query, fr.row, fr.ctes)
    case Command(_, es, qs) =>
      && t.Command? && |t.exprs| == |es| && |t.queries| == |qs|
      && (forall i :: 0 <= i < |es| ==> MeansE(pg, tr, es[i], t.exprs[i], fr))
      && (forall i :: 0 <= i < |qs| ==> MeansQ(pg, tr, qs[i], t.queries[i], fr.row, fr.ctes))
  }

  lemma StatementKeepsMeaning(pg: Engine, tr: Engine, s: Statement, fr: Frame)
    ensures MeansStatement(pg, tr, s, RewriteStatement(s), fr)
  {
    StatementInOneWalk(s);
    match s
    case QueryStatement(q) => QueryKeepsMeaning(pg, tr, q, fr.row, fr.ctes);
    case Command(_, es, qs) =>
      forall i | 0 <= i < |es| ensures MeansE(pg, tr, es[i], VisitEs(ALL, es)[i], fr) { ExprKeepsMeaning(pg, tr, es[i], fr); }
      forall i | 0 <= i < |qs| ensures MeansQ(pg, tr, qs[i], VisitQs(ALL, qs)[i], fr.row, fr.ctes) {
        QueryKeepsMeaning(pg, tr, qs[i], fr.row, fr.ctes);
      }
  }

  lemma StatementIsRewritten(s: Statement, t: Statement)
    requires t == RewriteStatement(s)
    ensures TrinoStatement(s, t) && forall pg, tr, fr :: MeansStatement(pg, tr, s, t, fr)
  {
    StatementBecomesTrino(s);
    forall pg, tr, fr
      ensures MeansStatement(pg, tr, s, t, fr)
    {
      StatementKeepsMeaning(pg, tr, s, fr);
    }
  }

  /**
    `rewrite_sql`, given what the parser made of the text: nothing at all, or a list of statements.
    Anything but a single statement is sent as it is. A single one is sent in Trino's form
    throughout, and means to Trino what it meant to PostgreSQL, for all related engines, data and
    outer rows on which its nodes fit.
   */
  method RewriteSql(sql: string, parsed: Option<seq<Statement>>) returns (out: Output)
    ensures !(parsed.Some? && |parsed.value| == 1) ==> out == Unchanged(sql)
    ensures parsed.Some? && |parsed.value| == 1 ==> out.Printed? && TrinoStatement(parsed.value[0], out.stmt)
    ensures parsed.Some? && |parsed.value| == 1 ==>
              forall pg, tr, fr :: MeansStatement(pg, tr, parsed.value[0], out.stmt, fr)
    ensures parsed.Some? && |parsed.value| == 1 ==> out == Printed(RewriteStatement(parsed.value[0]))
  {
    if parsed.None? {
      return Unchanged(sql);
    }
    if |parsed.value| != 1 {
      return Unchanged(sql);
    }
    var stmt := parsed.value[0];
    stmt := VisitWhole(CastRewriter, stmt);
    stmt := VisitWhole(ILikeRewriter, stmt);
    stmt := VisitWhole(FunctionRenamer, stmt);
    stmt := VisitWhole(LimitOffsetRewriter, stmt);
    StatementIsRewritten(parsed.value[0], stmt);
    return Printed(stmt);
  }
}
