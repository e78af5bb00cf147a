/**
  Conditions that can be read off a statement before it is sent, and that make every node fit,
  whatever the data.
 */
module RewriteChecks {
  import opened Options
  import opened SqlAst
  import opened Rewrite
  import opened LikePattern
  import opened SqlSemantics
  import opened RewritePreservation

  /** Neither engine has an escape, both have the same and the pattern is a text that uses it strictly, or one that uses neither's. */
  ghost predicate PatternChecked(pg: Engine, tr: Engine, pattern: Expr, escape: Option<char>, lowered: bool) {
    || EscapeFor(pg, escape) == EscapeFor(tr, escape) == None
    || (&& pattern.Lit? && pattern.lit.TextLit?
        && (|| EscapesAvoided(pg, tr, pattern.lit.s, escape, lowered)
            || (&& EscapeFor(pg, escape) == EscapeFor(tr, escape)
                && (lowered ==> Caseless(pg.common.lower, EscapeFor(pg, escape)))
                && StrictEscapes(pattern.lit.s, EscapeFor(pg, escape)))))
  }

  ghost predicate NodeChecked(pg: Engine, tr: Engine, e: Expr) {
    match e
    case Like(_, any, _, p, esc) => !any && PatternChecked(pg, tr, p, esc, false)
    case ILike(_, any, _, p, esc) => !any && PatternChecked(pg, tr, p, esc, true)
    case Cast(_, _, t) => t.ArrayOf? ==> TrinoSpelling(t.elem)
    case _ => true
  }

  /** All row counts are literals of digits, and no FETCH of the client's own is for zero rows. */
  predicate TailChecked(q: Query) {
    if ZeroLimit(q) then WholeLiteral(q.limitClause.value.limit.value) && WholeLiteral(q.limitClause.value.offset.value)
    else CountsTaken(q)
  }

  ghost function CheckedE(pg: Engine, tr: Engine): Expr -> bool { e => NodeChecked(pg, tr, e) }
  ghost function CheckedQ(): Query -> bool { q => TailChecked(q) }

  lemma {:induction false} AlwaysFitsE(pg: Engine, tr: Engine, e: Expr, fr: Frame)
    requires pg.dialect.Postgres? && EveryE(e, CheckedE(pg, tr), CheckedQ())
    ensures FitsE(pg, tr, e, fr)
    decreases e, 0
  {
    match e
    case Column(_) =>
    case Lit(_) =>
    case Wildcard =>
    case Op(_, xs) => AlwaysFitsEs(pg, tr, xs, fr);
    case Cast(_, x, _) =>
      assert CheckedE(pg, tr)(e);
      AlwaysFitsE(pg, tr, x, fr);
    case Like(_, _, x, p, _) =>
      assert CheckedE(pg, tr)(e);
      AlwaysFitsE(pg, tr, x, fr);
      AlwaysFitsE(pg, tr, p, fr);
    case ILike(_, _, x, p, _) =>
      assert CheckedE(pg, tr)(e);
      AlwaysFitsE(pg, tr, x, fr);
      AlwaysFitsE(pg, tr, p, fr);
    case Call(_, args, filter) =>
      if filter.Some? { AlwaysFitsG(pg, tr, filter.value, Singles(fr.group), fr.row, fr.ctes); }
      if args.QueryArg? { AlwaysFitsQ(pg, tr, args.query, fr.row, fr.ctes); }
      if args.ArgList? {
        AlwaysFitsEs(pg, tr, args.args, fr);
        AlwaysFitsGs(pg, tr, args.args, Singles(Filtered(pg, filter, fr)), fr.row, fr.ctes);
      }
    case SubQuery(_, xs, q) =>
      AlwaysFitsEs(pg, tr, xs, fr);
      AlwaysFitsQ(pg, tr, q, fr.row, fr.ctes);
  }

  lemma {:induction false} AlwaysFitsEs(pg: Engine, tr: Engine, es: seq<Expr>, fr: Frame)
    requires pg.dialect.Postgres? && EveryEs(es, CheckedE(pg, tr), CheckedQ())
    ensures FitsEs(pg, tr, es, fr)
    decreases es, 0
  {
    forall i | 0 <= i < |es| ensures FitsE(pg, tr, es[i], fr) { AlwaysFitsE(pg, tr, es[i], fr); }
  }

  lemma {:induction false} AlwaysFitsO(pg: Engine, tr: Engine, o: Option<Expr>, fr: Frame)
    requires pg.dialect.Postgres? && EveryO(o, CheckedE(pg, tr), CheckedQ())
    ensures FitsO(pg, tr, o, fr)
    decreases o, 0
  {
    if o.Some? { AlwaysFitsE(pg, tr, o.value, fr); }
  }

  lemma {:induction false} AlwaysFitsG(pg: Engine, tr: Engine, e: Expr, gs: seq<seq<Row>>, outer: Row, ctes: map<string, Outcome>)
    requires pg.dialect.Postgres? && EveryE(e, CheckedE(pg, tr), CheckedQ())
    ensures FitsG(pg, tr, e, gs, outer, ctes)
    decreases e, 1
  {
    forall i | 0 <= i < |gs| ensures FitsE(pg, tr, e, GroupFrame(gs[i], outer, ctes)) {
      AlwaysFitsE(pg, tr, e, GroupFrame(gs[i], outer, ctes));
    }
  }

  lemma {:induction false} AlwaysFitsGs(pg: Engine, tr: Engine, es: seq<Expr>, gs: seq<seq<Row>>, outer: Row, ctes: map<string, Outcome>)
    requires pg.dialect.Postgres? && EveryEs(es, CheckedE(pg, tr), CheckedQ())
    ensures FitsGs(pg, tr, es, gs, outer, ctes)
    decreases es, 1
  {
    forall i | 0 <= i < |gs| ensures FitsEs(pg, tr, es, GroupFrame(gs[i], outer, ctes)) {
      AlwaysFitsEs(pg, tr, es, GroupFrame(gs[i], outer, ctes));
    }
  }

  lemma {:induction false} AlwaysFitsR(pg: Engine, tr: Engine, r: Rel, outer: Row, ctes: map<string, Outcome>)
    requires pg.dialect.Postgres? && EveryR(r, CheckedE(pg, tr), CheckedQ())
    ensures FitsR(pg, tr, r, outer, ctes)
    decreases r, 1
  {
    match r
    case NoFrom =>
    case Table(_) =>
    case Derived(q, _) => AlwaysFitsQ(pg, tr, q, outer, ctes);
    case Join(_, a, b, on) =>
      AlwaysFitsR(pg, tr, a, outer, ctes);
      AlwaysFitsR(pg, tr, b, outer, ctes);
      var x, y := EvalR(pg, a, outer, ctes), EvalR(pg, b, outer, ctes);
      if x.Rows? && y.Rows? && on.Some? {
        AlwaysFitsG(pg, tr, on.value, Singles(Extend(Cross(x.rows, y.rows), outer)), outer, ctes);
      }
    case Select(_, _, _, from, _, _, _) =>
      AlwaysFitsR(pg, tr, from, outer, ctes);
      var src := EvalR(pg, from, outer, ctes);
      if src.Rows? { AlwaysFitsS(pg, tr, r, Extend(src.rows, outer), outer, ctes); }
    case SetOp(_, a, b) =>
      AlwaysFitsR(pg, tr, a, outer, ctes);
      AlwaysFitsR(pg, tr, b, outer, ctes);
    case Values(_, cells) => AlwaysFitsEs(pg, tr, cells, Frame(outer, [outer], ctes));
  }

  lemma {:induction false} AlwaysFitsS(pg: Engine, tr: Engine, r: Rel, rows: seq<Row>, outer: Row, ctes: map<string, Outcome>)
    requires pg.dialect.Postgres? && r.Select? && EveryR(r, CheckedE(pg, tr), CheckedQ())
    ensures FitsS(pg, tr, r, rows, outer, ctes)
    decreases r, 0
  {
    var kept := KeptRows(pg, r, rows, outer, ctes);
    var groups := Groups(pg, r, kept, outer, ctes);
    if r.where.Some? { AlwaysFitsG(pg, tr, r.where.value, Singles(rows), outer, ctes); }
    AlwaysFitsGs(pg, tr, r.groupBy, Singles(kept), outer, ctes);
    if r.having.Some? { AlwaysFitsG(pg, tr, r.having.value, groups, outer, ctes); }
    AlwaysFitsGs(pg, tr, r.items, Chosen(pg, r, groups, outer, ctes), outer, ctes);
  }

  lemma {:induction false} AlwaysFitsCs(pg: Engine, tr: Engine, cs: seq<Cte>, outer: Row, ctes: map<string, Outcome>)
    requires pg.dialect.Postgres? && EveryCs(cs, CheckedE(pg, tr), CheckedQ())
    ensures FitsCs(pg, tr, cs, outer, ctes)
    decreases cs, 0
  {
    if cs == [] {
    } else {
      AlwaysFitsQ(pg, tr, cs[0].query, outer, ctes);
      AlwaysFitsCs(pg, tr, cs[1..], outer, ctes[cs[0].name := EvalQ(pg, cs[0].query, outer, ctes)]);
    }
  }

  lemma CheckedTailFits(pg: Engine, q: Query, fr: Frame)
    requires pg.dialect.Postgres? && TailChecked(q)
    ensures TailFits(TailOf(pg, q, fr), q)
  {
    if ZeroLimit(q) {
      var c := q.limitClause.value;
      PlainClause(pg, c.limit, c.offset, [], fr);
      WholeCount(pg, c.offset, fr);
    }
  }

  lemma {:induction false} AlwaysFitsQ(pg: Engine, tr: Engine, q: Query, outer: Row, ctes: map<string, Outcome>)
    requires pg.dialect.Postgres? && EveryQ(q, CheckedE(pg, tr), CheckedQ())
    ensures FitsQ(pg, tr, q, outer, ctes)
    decreases q, 0
  {
    var inner := EvalCs(pg, q.ctes, outer, ctes);
    var body, fr := EvalR(pg, q.body, outer, inner), Frame(outer, [outer], inner);
    AlwaysFitsCs(pg, tr, q.ctes, outer, ctes);
    AlwaysFitsR(pg, tr, q.body, outer, inner);
    if body.Rows? { AlwaysFitsGs(pg, tr, q.orderBy, Singles(Extend(body.rows, outer)), outer, inner); }
    if q.limitClause.Some? && q.limitClause.value.LimitOffset? {
      AlwaysFitsO(pg, tr, q.limitClause.value.limit, fr);
      AlwaysFitsO(pg, tr, q.limitClause.value.offset, fr);
    }
    if q.fetch.Some? { AlwaysFitsO(pg, tr, q.fetch.value.quantity, fr); }
    assert CheckedQ()(q);
    CheckedTailFits(pg, q, fr);
  }

  /**
    The main theorem for statements that pass a check of their text: no LIKE ANY, patterns that are
    literals with no escape, or with the same one in both engines and used strictly, casts to names Trino has,
    row counts of digits. Such a statement means the same to Trino on all data.
   */
  lemma CheckedStatementsKeepMeaning(pg: Engine, tr: Engine, q: Query, outer: Row, ctes: map<string, Outcome>)
    requires Related(pg, tr) && EveryQ(q, NamesE(pg), AnyQ())
    requires EveryQ(q, CheckedE(pg, tr), CheckedQ())
    ensures EvalQ(tr, RewriteQuery(q), outer, ctes) == EvalQ(pg, q, outer, ctes)
  {
    AlwaysFitsQ(pg, tr, q, outer, ctes);
    RewritePreservesMeaning(pg, tr, q, outer, ctes);
  }
}
