/** The rewritten tree is in the grammar Trino accepts. */
module RewriteNormalForm {
  import opened Options
  import opened SqlAst
  import opened Rewrite
  import opened Texts

  /** Not an ILIKE, not `::`, not a cast to a mapped type name, not a renameable call. */
  predicate TrinoNode(e: Expr) {
    && !e.ILike?
    && (e.Cast? ==> e.kind != DoubleColon && !PostgresOnly(e.ty))
    && (e.Call? && |e.fn| == 1 ==> !Replaced(Lower(e.fn[0].value), if e.args.ArgList? then |e.args.args| else 0))
  }

  ghost function TrinoE(): Expr -> bool { e => TrinoNode(e) }

  // ---------------------------------------------------------------- the queries of a tree

  /** All query nodes of an expression, a query and everything between, at any depth. */
  ghost function NodesE(e: Expr): set<Query>
    decreases e
  {
    match e
    case Column(_) => {}
    case Lit(_) => {}
    case Wildcard => {}
    case Op(_, xs) => NodesEs(xs)
    case Cast(_, x, _) => NodesE(x)
    case Like(_, _, x, p, _) => NodesE(x) + NodesE(p)
    case ILike(_, _, x, p, _) => NodesE(x) + NodesE(p)
    case Call(_, args, filter) =>
      NodesO(filter) + (match args
                        case NoArgs => {}
                        case QueryArg(q) => NodesQ(q)
                        case ArgList(xs) => NodesEs(xs))
    case SubQuery(_, xs, q) => NodesEs(xs) + NodesQ(q)
  }

  ghost function NodesEs(es: seq<Expr>): (ns: set<Query>)
    ensures forall i :: 0 <= i < |es| ==> NodesE(es[i]) <= ns
    decreases es
  {
    if es == [] then {} else NodesE(es[0]) + NodesEs(es[1..])
  }

  ghost function NodesO(o: Option<Expr>): set<Query>
    decreases o
  {
    match o
    case None => {}
    case Some(e) => NodesE(e)
  }

  ghost function NodesR(r: Rel): set<Query>
    decreases r
  {
    match r
    case NoFrom => {}
    case Table(_) => {}
    case Derived(q, _) => NodesQ(q)
    case Join(_, a, b, on) => NodesR(a) + NodesR(b) + NodesO(on)
    case Select(_, items, _, from, w, g, h) => NodesEs(items) + NodesR(from) + NodesO(w) + NodesEs(g) + NodesO(h)
    case SetOp(_, a, b) => NodesR(a) + NodesR(b)
    case Values(_, cells) => NodesEs(cells)
  }

  ghost function NodesL(l: Option<LimitClause>): set<Query>
    decreases l
  {
    match l
    case None => {}
    case Some(LimitOffset(n, m, ks)) => NodesO(n) + NodesO(m) + NodesEs(ks)
    case Some(OffsetComma(m, n)) => NodesO(m) + NodesO(n)
  }

  ghost function NodesF(f: Option<Fetch>): set<Query>
    decreases f
  {
    match f
    case None => {}
    case Some(Fetch(_, _, n)) => NodesO(n)
  }

  ghost function NodesCs(cs: seq<Cte>): (ns: set<Query>)
    ensures forall i :: 0 <= i < |cs| ==> NodesQ(cs[i].query) <= ns
    decreases cs
  {
    if cs == [] then {} else NodesQ(cs[0].query) + NodesCs(cs[1..])
  }

  ghost function NodesQ(q: Query): set<Query>
    decreases q
  {
    {q} + NodesCs(q.ctes) + NodesR(q.body) + NodesEs(q.orderBy) + NodesL(q.limitClause) + NodesF(q.fetch)
  }

  /** Whatever the visit makes of a query in `ns` satisfies `out`. */
  ghost predicate Yields(ns: set<Query>, out: Query -> bool) {
    forall m :: m in ns ==> out(VisitQ(ALL, m))
  }

  // ---------------------------------------------------------------- the rewritten tree

  lemma LowerCallIsTrino(x: Expr)
    ensures TrinoNode(MakeLowerCall(x))
  {
    LowerIsNotRenamed(1);
  }

  lemma RenamedCallIsTrino(fn: seq<Ident>, args: Args, filter: Option<Expr>)
    ensures TrinoNode(Call(RenamedFn(fn, ArgCount(args)), args, filter))
  {
    RenamesExactly(fn, ArgCount(args));
    if |fn| == 1 && Replaced(Lower(fn[0].value), ArgCount(args)) {
      FoldFixes("listagg");
      FoldFixes("log10");
      FoldFixes("truncate");
    }
  }

  /**
    Every expression node of the output is one of Trino's, and every query node of the output is
    the visited form of a query node of the input; so it has any property `out` that those have.
   */
  lemma {:induction false} RewrittenE(ns: set<Query>, out: Query -> bool, e: Expr)
    requires NodesE(e) <= ns && Yields(ns, out)
    ensures EveryE(VisitE(ALL, e), TrinoE(), out)
    decreases e
  {
    match e
    case Column(_) =>
    case Lit(_) =>
    case Wildcard =>
    case Op(_, xs) => RewrittenEs(ns, out, xs);
    case Cast(_, x, _) => RewrittenE(ns, out, x);
    case Like(_, _, x, p, _) => RewrittenE(ns, out, x); RewrittenE(ns, out, p);
    case ILike(neg, any, x, p, esc) =>
      RewrittenE(ns, out, x);
      RewrittenE(ns, out, p);
      LowerCallRewritten(out, VisitE(ALL, x));
      LowerCallRewritten(out, VisitE(ALL, p));
      VisitILike(ALL, neg, any, x, p, esc);
    case Call(fn, args, filter) =>
      if filter.Some? { RewrittenE(ns, out, filter.value); }
      if args.QueryArg? { RewrittenQ(ns, out, args.query); }
      if args.ArgList? { RewrittenEs(ns, out, args.args); }
      VisitCall(ALL, fn, args, filter);
      RenamedCallIsTrino(fn, VisitA(ALL, args), VisitO(ALL, filter));
    case SubQuery(_, xs, q) => RewrittenEs(ns, out, xs); RewrittenQ(ns, out, q);
  }

  lemma LowerCallRewritten(out: Query -> bool, x: Expr)
    requires EveryE(x, TrinoE(), out)
    ensures EveryE(MakeLowerCall(x), TrinoE(), out)
  {
    LowerCallIsTrino(x);
    assert EveryEs([x], TrinoE(), out);
    assert EveryO(None, TrinoE(), out);
  }

  lemma {:induction false} RewrittenEs(ns: set<Query>, out: Query -> bool, es: seq<Expr>)
    requires NodesEs(es) <= ns && Yields(ns, out)
    ensures EveryEs(VisitEs(ALL, es), TrinoE(), out)
    decreases es
  {
    forall i | 0 <= i < |es|
      ensures EveryE(VisitEs(ALL, es)[i], TrinoE(), out)
    {
      RewrittenE(ns, out, es[i]);
    }
  }

  lemma {:induction false} RewrittenO(ns: set<Query>, out: Query -> bool, o: Option<Expr>)
    requires NodesO(o) <= ns && Yields(ns, out)
    ensures EveryO(VisitO(ALL, o), TrinoE(), out)
    decreases o
  {
    if o.Some? { RewrittenE(ns, out, o.value); }
  }

  lemma {:induction false} RewrittenR(ns: set<Query>, out: Query -> bool, r: Rel)
    requires NodesR(r) <= ns && Yields(ns, out)
    ensures EveryR(VisitR(ALL, r), TrinoE(), out)
    decreases r
  {
    match r
    case NoFrom =>
    case Table(_) =>
    case Derived(q, _) => RewrittenQ(ns, out, q);
    case Join(_, a, b, on) => RewrittenR(ns, out, a); RewrittenR(ns, out, b); RewrittenO(ns, out, on);
    case Select(_, items, _, from, w, g, h) =>
      RewrittenEs(ns, out, items);
      RewrittenR(ns, out, from);
      RewrittenO(ns, out, w);
      RewrittenEs(ns, out, g);
      RewrittenO(ns, out, h);
    case SetOp(_, a, b) => RewrittenR(ns, out, a); RewrittenR(ns, out, b);
    case Values(_, cells) => RewrittenEs(ns, out, cells);
  }

  lemma {:induction false} RewrittenCs(ns: set<Query>, out: Query -> bool, cs: seq<Cte>)
    requires NodesCs(cs) <= ns && Yields(ns, out)
    ensures EveryCs(VisitCs(ALL, cs), TrinoE(), out)
    decreases cs
  {
    forall i | 0 <= i < |cs|
      ensures EveryQ(VisitCs(ALL, cs)[i].query, TrinoE(), out)
    {
      RewrittenQ(ns, out, cs[i].query);
    }
  }

  lemma {:induction false} RewrittenL(ns: set<Query>, out: Query -> bool, l: Option<LimitClause>)
    requires NodesL(l) <= ns && Yields(ns, out)
    ensures EveryL(VisitL(ALL, l), TrinoE(), out)
    decreases l
  {
    match l
    case None =>
    case Some(LimitOffset(n, m, ks)) => RewrittenO(ns, out, n); RewrittenO(ns, out, m); RewrittenEs(ns, out, ks);
    case Some(OffsetComma(m, n)) => RewrittenO(ns, out, m); RewrittenO(ns, out, n);
  }

  lemma {:induction false} RewrittenF(ns: set<Query>, out: Query -> bool, f: Option<Fetch>)
    requires NodesF(f) <= ns && Yields(ns, out)
    ensures EveryF(VisitF(ALL, f), TrinoE(), out)
    decreases f
  {
    if f.Some? { RewrittenO(ns, out, f.value.quantity); }
  }

  lemma {:induction false} RewrittenQ(ns: set<Query>, out: Query -> bool, q: Query)
    requires NodesQ(q) <= ns && Yields(ns, out)
    ensures EveryQ(VisitQ(ALL, q), TrinoE(), out)
    decreases q
  {
    assert q in NodesQ(q);
    RewrittenCs(ns, out, q.ctes);
    RewrittenR(ns, out, q.body);
    RewrittenEs(ns, out, q.orderBy);
    RewrittenL(ns, out, q.limitClause);
    RewrittenF(ns, out, q.fetch);
    MovedLimitRewritten(out, WalkQ(ALL, q));
  }

  /** Moving a LIMIT makes no new parts. */
  lemma MovedLimitRewritten(out: Query -> bool, v: Query)
    requires EveryCs(v.ctes, TrinoE(), out) && EveryR(v.body, TrinoE(), out) && EveryEs(v.orderBy, TrinoE(), out)
    requires EveryL(v.limitClause, TrinoE(), out) && EveryF(v.fetch, TrinoE(), out)
    requires out(RewriteLimit(v))
    ensures EveryQ(RewriteLimit(v), TrinoE(), out)
  {
    assert EveryO(None, TrinoE(), out);
    assert EveryEs([], TrinoE(), out);
    if LimitThenOffset(v) {
      var c := v.limitClause.value;
      assert EveryL(Some(LimitOffset(c.limit, None, [])), TrinoE(), out);
      assert EveryL(Some(LimitOffset(None, c.offset, [])), TrinoE(), out);
      assert EveryF(Some(Fetch(false, false, c.limit)), TrinoE(), out);
    }
  }

  /** After rewriting, every expression node at any depth is one Trino understands. */
  lemma NoPostgresNodeLeft(q: Query)
    ensures EveryQ(RewriteQuery(q), TrinoE(), n => true)
  {
    PipelineIsOneWalk(q);
    RewrittenQ(NodesQ(q), n => true, q);
  }

  ghost function NoLimitThenOffset(): Query -> bool { n => !LimitThenOffset(n) }

  /** No query of the output without a FETCH and a LIMIT BY, at any depth and whatever the others look like, has both LIMIT and OFFSET. */
  lemma NoLimitBeforeOffsetLeft(q: Query)
    ensures EveryQ(RewriteQuery(q), TrinoE(), NoLimitThenOffset())
  {
    PipelineIsOneWalk(q);
    RewrittenQ(NodesQ(q), NoLimitThenOffset(), q);
  }

  // ---------------------------------------------------------------- what is left alone

  lemma {:induction false} KeptE(e: Expr)
    requires EveryE(e, TrinoE(), NoLimitThenOffset())
    ensures VisitE(ALL, e) == e
    decreases e
  {
    assert TrinoE()(e);
    match e
    case Column(_) =>
    case Lit(_) =>
    case Wildcard =>
    case Op(_, xs) => KeptEs(xs);
    case Cast(k, x, t) =>
      KeptE(x);
      VisitCast(ALL, k, x, t);
      NormalizingKeepsSort(t);
    case Like(_, _, x, p, _) => KeptE(x); KeptE(p);
    case Call(fn, args, filter) =>
      if filter.Some? { KeptE(filter.value); }
      if args.QueryArg? { KeptQ(args.query); }
      if args.ArgList? { KeptEs(args.args); }
      VisitCall(ALL, fn, args, filter);
      RenamesExactly(fn, ArgCount(args));
    case SubQuery(_, xs, q) => KeptEs(xs); KeptQ(q);
  }

  lemma {:induction false} KeptEs(es: seq<Expr>)
    requires EveryEs(es, TrinoE(), NoLimitThenOffset())
    ensures VisitEs(ALL, es) == es
    decreases es
  {
    forall i | 0 <= i < |es| ensures VisitEs(ALL, es)[i] == es[i] { KeptE(es[i]); }
  }

  lemma {:induction false} KeptO(o: Option<Expr>)
    requires EveryO(o, TrinoE(), NoLimitThenOffset())
    ensures VisitO(ALL, o) == o
    decreases o
  {
    if o.Some? { KeptE(o.value); }
  }

  lemma {:induction false} KeptR(r: Rel)
    requires EveryR(r, TrinoE(), NoLimitThenOffset())
    ensures VisitR(ALL, r) == r
    decreases r
  {
    match r
    case NoFrom =>
    case Table(_) =>
    case Derived(q, _) => KeptQ(q);
    case Join(_, a, b, on) => KeptR(a); KeptR(b); KeptO(on);
    case Select(_, items, _, from, w, g, h) => KeptEs(items); KeptR(from); KeptO(w); KeptEs(g); KeptO(h);
    case SetOp(_, a, b) => KeptR(a); KeptR(b);
    case Values(_, cells) => KeptEs(cells);
  }

  lemma {:induction false} KeptCs(cs: seq<Cte>)
    requires EveryCs(cs, TrinoE(), NoLimitThenOffset())
    ensures VisitCs(ALL, cs) == cs
    decreases cs
  {
    forall i | 0 <= i < |cs| ensures VisitCs(ALL, cs)[i] == cs[i] { KeptQ(cs[i].query); }
  }

  lemma {:induction false} KeptL(l: Option<LimitClause>)
    requires EveryL(l, TrinoE(), NoLimitThenOffset())
    ensures VisitL(ALL, l) == l
    decreases l
  {
    match l
    case None =>
    case Some(LimitOffset(n, m, ks)) => KeptO(n); KeptO(m); KeptEs(ks);
    case Some(OffsetComma(m, n)) => KeptO(m); KeptO(n);
  }

  lemma {:induction false} KeptQ(q: Query)
    requires EveryQ(q, TrinoE(), NoLimitThenOffset())
    ensures VisitQ(ALL, q) == q
    decreases q
  {
    KeptCs(q.ctes);
    KeptR(q.body);
    KeptEs(q.orderBy);
    KeptL(q.limitClause);
    if q.fetch.Some? { KeptO(q.fetch.value.quantity); }
    assert WalkQ(ALL, q) == q;
    assert NoLimitThenOffset()(q);
  }

  /**
    The rewriter leaves a query alone if and only if nothing in it, at any depth, is for it to change:
    no ILIKE, no `::`, no PostgreSQL type name, no replaced function, no LIMIT before OFFSET.
   */
  lemma UnchangedExactly(q: Query)
    ensures RewriteQuery(q) == q <==> EveryQ(q, TrinoE(), NoLimitThenOffset())
  {
    NoLimitBeforeOffsetLeft(q);
    if EveryQ(q, TrinoE(), NoLimitThenOffset()) {
      PipelineIsOneWalk(q);
      KeptQ(q);
    }
  }

  // ---------------------------------------------------------------- rendering order

  datatype Word = LimitWord | OffsetWord | ByWord | CommaWord | FetchWord

  /** The order in which a query's tail is printed: the limit clause, then FETCH. */
  function RenderTail(q: Query): seq<Word> {
    (match q.limitClause
     case None => []
     case Some(LimitOffset(l, o, ks)) =>
       (if l.Some? then [LimitWord] else []) + (if o.Some? then [OffsetWord] else []) + (if ks != [] then [ByWord] else [])
     case Some(OffsetComma(_, _)) => [CommaWord])
    + (if q.fetch.Some? then [FetchWord] else [])
  }

  /** Trino: an optional OFFSET, then at most one row limit. */
  predicate TrinoOrder(ws: seq<Word>) {
    ws == [] || ws == [OffsetWord] || ws == [LimitWord] || ws == [FetchWord]
    || ws == [OffsetWord, LimitWord] || ws == [OffsetWord, FetchWord]
  }

  /** A tail that can be put in Trino's order: no LIMIT BY, no comma form, and not both a LIMIT and a FETCH. */
  predicate Orderable(q: Query) {
    q.limitClause.Some? ==>
      && q.limitClause.value.LimitOffset?
      && q.limitClause.value.limitBy == []
      && !(q.limitClause.value.limit.Some? && q.fetch.Some?)
  }

  lemma LimitActionOrdersExactly(q: Query)
    ensures TrinoOrder(RenderTail(RewriteLimit(q))) <==> Orderable(q)
  {
    var ws := RenderTail(RewriteLimit(q));
    if q.limitClause.Some? {
      match q.limitClause.value
      case OffsetComma(_, _) => assert ws[0] == CommaWord;
      case LimitOffset(l, o, ks) =>
        if ks != [] {
          var i := (if l.Some? then 1 else 0) + (if o.Some? then 1 else 0);
          assert ws[i] == ByWord;
        } else if l.Some? && q.fetch.Some? {
          assert ws[0] == LimitWord && ws[|ws| - 1] == FetchWord;
        }
    }
  }

  lemma WalkKeepsOrderable(q: Query)
    ensures Orderable(WalkQ(ALL, q)) <==> Orderable(q)
  {
    var v := WalkQ(ALL, q);
    assert v.limitClause == VisitL(ALL, q.limitClause) && v.fetch == VisitF(ALL, q.fetch);
    match q.limitClause
    case None =>
    case Some(LimitOffset(n, m, ks)) =>
      assert v.limitClause == Some(LimitOffset(VisitO(ALL, n), VisitO(ALL, m), VisitEs(ALL, ks)));
      assert |VisitEs(ALL, ks)| == |ks| && VisitO(ALL, n).Some? == n.Some?;
    case Some(OffsetComma(m, n)) =>
      assert v.limitClause == Some(OffsetComma(VisitO(ALL, m), VisitO(ALL, n)));
  }

  /** A FETCH the client did not write: after an OFFSET, plain, and not for a zero literal. */
  ghost predicate MadeFetch(n: Query) {
    && n.limitClause.Some? && n.limitClause.value.LimitOffset?
    && n.limitClause.value.limit.None? && n.limitClause.value.offset.Some?
    && n.fetch.Some? && !n.fetch.value.withTies && !n.fetch.value.percent
    && n.fetch.value.quantity.Some? && !IsZeroLiteral(n.fetch.value.quantity.value)
  }

  /** What becomes of the query `m`: printed in Trino's order exactly when it can be, with a FETCH of its own or one made well. */
  ghost predicate BecomesTrino(m: Query, n: Query) {
    && n == VisitQ(ALL, m)
    && (TrinoOrder(RenderTail(n)) <==> Orderable(m))
    && (n.fetch.Some? ==> m.fetch.Some? || MadeFetch(n))
  }

  lemma VisitedTail(m: Query)
    ensures BecomesTrino(m, VisitQ(ALL, m))
  {
    LimitActionOrdersExactly(WalkQ(ALL, m));
    WalkKeepsOrderable(m);
    assert WalkQ(ALL, m).fetch.Some? <==> m.fetch.Some?;
  }

  /** Some query of `ns` became this one. */
  ghost function ComesFrom(ns: set<Query>): Query -> bool { n => exists m :: m in ns && BecomesTrino(m, n) }

  /**
    Every query of the output comes from one of the input. Its tail is printed in Trino's order if
    and only if that query had no LIMIT BY, no comma form and not both LIMIT and FETCH; and a FETCH
    it did not have follows an OFFSET and is not for a zero literal.
   */
  lemma PrintsInTrinoOrderExactly(q: Query)
    ensures EveryQ(RewriteQuery(q), TrinoE(), ComesFrom(NodesQ(q)))
  {
    PipelineIsOneWalk(q);
    var ns := NodesQ(q);
    forall m | m in ns
      ensures ComesFrom(ns)(VisitQ(ALL, m))
    {
      VisitedTail(m);
    }
    RewrittenQ(ns, ComesFrom(ns), q);
  }
}
