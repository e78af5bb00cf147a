/**
  The conditions under which the rewriter keeps the meaning of a node, each as an exact one, with
  inputs on which it does not.
 */
module RewriteConditions {
  import opened Options
  import opened SqlAst
  import opened Rewrite
  import opened Texts
  import opened LikePattern
  import opened SqlSemantics
  import opened RewritePreservation

  lemma TableNamesAreFolded(s: string, n: nat)
    requires Replaced(s, n)
    ensures Lower(s) == s && Lower(TrinoWord(s, n)) == TrinoWord(s, n)
  {
    FoldFixes("string_agg");
    FoldFixes("log");
    FoldFixes("trunc");
    FoldFixes("listagg");
    FoldFixes("log10");
    FoldFixes("truncate");
  }

  /**
    A renamed name is the Trino name of the function PostgreSQL calls exactly when no part of
    it is a quoted name with an upper-case letter.
   */
  lemma NamesFollowExactlyWhenFoldSafe(fn: seq<Ident>, n: nat)
    ensures Resolve(Trino, RenamedFn(fn, n)) == TrinoName(Resolve(Postgres, fn), n)
       <==> forall i :: 0 <= i < |fn| ==> FoldSafe(fn[i])
  {
    if i :| 0 <= i < |fn| && !FoldSafe(fn[i]) {
      var v := fn[i].value;
      var names := Resolve(Postgres, fn);
      assert names[i] == v && Lower(v) != v;
      if |fn| == 1 {
        RenamesExactly(fn, n);
        if Replaced(v, n) { TableNamesAreFolded(v, n); }
        assert TrinoName(names, n) == names;
        if Replaced(Lower(v), n) {
          TableNamesAreFolded(Lower(v), n);
          assert Resolve(Trino, RenamedFn(fn, n))[0] == TrinoWord(Lower(v), n);
        } else {
          assert Resolve(Trino, RenamedFn(fn, n))[0] == Lower(v);
        }
      } else {
        assert Resolve(Trino, RenamedFn(fn, n))[i] == Lower(v);
      }
    } else {
      ResolveAfterRename(fn, n);
    }
  }

  /** `CAST('{x}' AS text[])` is an error after the rewrite, whatever PostgreSQL makes of it. */
  lemma LeftoverTypeFails(pg: Engine, tr: Engine, fr: Frame)
    requires Related(pg, tr) && pg.cast(false, ArrayOf(Text), VText("{x}")) != VError
    ensures var e := Cast(CastCall, Lit(TextLit("{x}")), ArrayOf(Text));
            EvalE(pg, e, fr) != VError && EvalE(tr, VisitE(ALL, e), fr) == VError
  {
    var x := Lit(TextLit("{x}"));
    VisitCast(ALL, CastCall, x, ArrayOf(Text));
  }

  /** `'a' ILIKE ANY (ARRAY['a'])` is true in PostgreSQL and an error after the rewrite. */
  lemma DroppedAnyFails(pg: Engine, tr: Engine, fr: Frame)
    requires Related(pg, tr) && pg.common.op("array", [VText("a")]) == VArray([VText("a")])
    requires pg.defaultEscape == Some('\\')
    ensures var a := Lit(TextLit("a"));
            var e := ILike(false, true, a, Op("array", [a]), None);
            EvalE(pg, e, fr) == VBool(true) && EvalE(tr, VisitE(ALL, e), fr) == VError
  {
    var a := Lit(TextLit("a"));
    var arr := Op("array", [a]);
    var e := ILike(false, true, a, arr, None);
    assert VisitEs(ALL, [a]) == [a];
    assert VisitE(ALL, arr) == arr;
    assert EvalEs(pg, [a], fr) == [VText("a")] == EvalEs(tr, [a], fr);
    LetterMatchesItself(pg.common.lower);
    assert EvalE(pg, e, fr) == VBool(true);
    VisitILike(ALL, false, true, a, arr, None);
    EvalLowerCall(tr, pg.common.lower, arr, fr);
  }

  lemma LetterMatchesItself(lower: char -> char)
    ensures AnyVal(ILikeTest(lower, false, VText("a"), Some('\\')), VText("a"), VArray([VText("a")])) == VBool(true)
  {
    LiteralTokens('a', Some('\\'));
    assert MatchesNoCase(lower, "a", [Literally('a')]) by { assert "a"[1..] == ""; }
    assert ILikeTest(lower, false, VText("a"), Some('\\'))(VText("a")) == VBool(true);
  }

  /** `'a' LIKE ANY (ARRAY['a'])` is true in PostgreSQL and an error in Trino. */
  lemma PassedAnyFails(pg: Engine, tr: Engine, fr: Frame)
    requires Related(pg, tr) && pg.common.op("array", [VText("a")]) == VArray([VText("a")])
    requires pg.defaultEscape == Some('\\')
    ensures var a := Lit(TextLit("a"));
            var e := Like(false, true, a, Op("array", [a]), None);
            EvalE(pg, e, fr) == VBool(true) && EvalE(tr, VisitE(ALL, e), fr) == VError
  {
    var a := Lit(TextLit("a"));
    assert EvalEs(pg, [a], fr) == [VText("a")];
    LiteralTokens('a', Some('\\'));
    assert Matches("a", [Literally('a')]) by { assert "a"[1..] == ""; }
    assert LikeTest(false, VText("a"), Some('\\'))(VText("a")) == VBool(true);
    VisitLike(ALL, false, true, a, Op("array", [a]), None);
  }

  /** A quoted `"LOG"` of one argument is no function PostgreSQL knows as `log`, but becomes `log10`. */
  lemma QuotedNameFails()
    ensures var fn := [Ident("LOG", true)];
            Resolve(Postgres, fn) == ["LOG"] && Resolve(Trino, RenamedFn(fn, 1)) == ["log10"] && TrinoName(["LOG"], 1) == ["LOG"]
  {
    var fn := [Ident("LOG", true)];
    assert Lower("LOG") == "log";
    FoldFixes("log10");
    RenamesExactly(fn, 1);
    assert TrinoWord("LOG", 1) == "LOG" by { assert "LOG"[0] == 'L'; }
  }

  // ---------------------------------------------------------------- tails that fail

  /** A query that is nothing but its tail: one empty row, unsorted. */
  function Bare(l: Option<LimitClause>, f: Option<Fetch>): Query {
    Query([], NoFrom, [], l, f)
  }

  function LimitAndOffset(n: Expr, m: Expr): Query {
    Bare(Some(LimitOffset(Some(n), Some(m), [])), None)
  }

  lemma NoSortKeys(eng: Engine, outer: Row, ctes: map<string, Outcome>)
    ensures EvalK(eng, [], Rows([[]]), outer, ctes) == [[]]
  {
    var gs := Singles(Extend([[]], outer));
    var keys := EvalGs(eng, [], gs, outer, ctes);
    assert |gs| == 1 && |keys| == 1;
    assert keys[0] == EvalEs(eng, [], GroupFrame(gs[0], outer, ctes)) == [];
  }

  lemma BareMeans(eng: Engine, q: Query, outer: Row, ctes: map<string, Outcome>)
    requires q == Bare(q.limitClause, q.fetch)
    ensures EvalQ(eng, q, outer, ctes)
         == ApplyTail(eng.dialect, eng.common, TailOf(eng, q, Frame(outer, [outer], ctes)), [[]], [[]])
  {
    NoSortKeys(eng, outer, ctes);
    assert EvalCs(eng, [], outer, ctes) == ctes;
  }

  /** A PostgreSQL and a Trino engine that share all but their own tables. */
  ghost predicate Paired(pg: Engine, tr: Engine) {
    pg.dialect.Postgres? && tr.dialect.Trino? && tr.common == pg.common
  }

  /** A bare query is kept by the pipeline exactly when its tail fits. */
  lemma BareKeptExactly(pg: Engine, tr: Engine, q: Query, outer: Row, ctes: map<string, Outcome>)
    requires Paired(pg, tr) && q == Bare(q.limitClause, q.fetch)
    requires TailKept(pg, tr, q, Frame(outer, [outer], ctes))
    ensures EvalQ(tr, RewriteQuery(q), outer, ctes) == EvalQ(pg, q, outer, ctes)
       <==> TailFits(TailOf(pg, q, Frame(outer, [outer], ctes)), q)
  {
    var fr := Frame(outer, [outer], ctes);
    PipelineIsOneWalk(q);
    var m := VisitQ(ALL, q);
    VisitedParts(q);
    assert m == Bare(m.limitClause, m.fetch);
    BareMeans(pg, q, outer, ctes);
    BareMeans(tr, m, outer, ctes);
    TailsAgreeExactly(pg, tr, q, fr, [[]], [[]]);
  }

  lemma BareFails(pg: Engine, tr: Engine, q: Query, t: Tail, outer: Row, ctes: map<string, Outcome>)
    requires Paired(pg, tr) && q == Bare(q.limitClause, q.fetch) && TailKept(pg, tr, q, Frame(outer, [outer], ctes))
    requires TailOf(pg, q, Frame(outer, [outer], ctes)) == t && !TailFits(t, q)
    ensures EvalQ(pg, q, outer, ctes) == ApplyTail(Postgres, pg.common, t, [[]], [[]])
    ensures EvalQ(tr, RewriteQuery(q), outer, ctes) != EvalQ(pg, q, outer, ctes)
  {
    BareMeans(pg, q, outer, ctes);
    BareKeptExactly(pg, tr, q, outer, ctes);
  }

  lemma LiteralKept(pg: Engine, tr: Engine, l: Literal, fr: Frame)
    ensures CountKept(pg, tr, Some(Lit(l)), fr) && EvalO(pg, Some(Lit(l)), fr) == Some(LiteralVal(l))
  {
    VisitKeepsZeroLiterals(ALL, Lit(l));
  }

  lemma LiteralTail(pg: Engine, tr: Engine, n: Literal, m: Literal, fr: Frame)
    requires pg.dialect.Postgres?
    ensures TailKept(pg, tr, LimitAndOffset(Lit(n), Lit(m)), fr)
    ensures TailOf(pg, LimitAndOffset(Lit(n), Lit(m)), fr) == Tail(Some(LiteralVal(n)), Some(LiteralVal(m)), None, false)
  {
    LiteralKept(pg, tr, n, fr);
    LiteralKept(pg, tr, m, fr);
    PlainClause(pg, Some(Lit(n)), Some(Lit(m)), [], fr);
  }

  /** One row, no offset: PostgreSQL gives the row for NULL and 2.5, nothing for zero. */
  lemma OneRowAnswers(c: Common, n: Val)
    ensures var t := Tail(Some(n), Some(VNum(0.0)), None, false);
            && (n == VNull || n == VNum(2.5) ==> !Rejects(t) && ApplyTail(Postgres, c, t, [[]], [[]]) == Rows([[]]))
            && (n == VNum(0.0) ==> !Rejects(t) && ApplyTail(Postgres, c, t, [[]], [[]]) == Rows([]))
  {
    var rows: seq<Row> := [[]];
    assert Skip(AtMost(0), rows) == rows && Take(AtMost(0), rows) == [];
  }

  lemma OddCounts(n: Literal)
    ensures n == NumberLit(0.0, false) || n == ZERO ==> IsZeroLiteral(Lit(n))
    ensures n == NullLit || n == NumberLit(2.5, false) ==> !IsZeroLiteral(Lit(n))
  {
    ZeroThreshold();
  }

  const ZERO := NumberLit(0.0, true)

  /** `LIMIT NULL`, `LIMIT 2.5` and `LIMIT 0.0` before `OFFSET 0`: answered by PostgreSQL, not by Trino. */
  lemma OddCountFails(pg: Engine, tr: Engine, n: Literal, outer: Row, ctes: map<string, Outcome>)
    requires Paired(pg, tr) && (n == NullLit || n == NumberLit(2.5, false) || n == NumberLit(0.0, false))
    ensures var q := LimitAndOffset(Lit(n), Lit(ZERO));
            && EvalQ(pg, q, outer, ctes) == Rows(if n == NumberLit(0.0, false) then [] else [[]])
            && EvalQ(tr, RewriteQuery(q), outer, ctes) != EvalQ(pg, q, outer, ctes)
  {
    var q := LimitAndOffset(Lit(n), Lit(ZERO));
    LiteralTail(pg, tr, n, ZERO, Frame(outer, [outer], ctes));
    OddCounts(n);
    OneRowAnswers(pg.common, LiteralVal(n));
    BareFails(pg, tr, q, Tail(Some(LiteralVal(n)), Some(VNum(0.0)), None, false), outer, ctes);
  }

  /** `LIMIT 0 OFFSET 'x'` is an error in PostgreSQL; Trino never sees the offset. */
  lemma LostOffsetFails(pg: Engine, tr: Engine, outer: Row, ctes: map<string, Outcome>)
    requires Paired(pg, tr)
    ensures var q := LimitAndOffset(Lit(ZERO), Lit(TextLit("x")));
            EvalQ(pg, q, outer, ctes) == Rejected && EvalQ(tr, RewriteQuery(q), outer, ctes) != Rejected
  {
    var q := LimitAndOffset(Lit(ZERO), Lit(TextLit("x")));
    LiteralTail(pg, tr, ZERO, TextLit("x"), Frame(outer, [outer], ctes));
    WholeLiteralCounts(Lit(ZERO));
    BareFails(pg, tr, q, Tail(Some(VNum(0.0)), Some(VText("x")), None, false), outer, ctes);
  }

  /** `LIMIT 1 - 1 OFFSET 0`: zero rows, but not a zero literal, so it becomes a FETCH that Trino rejects. */
  lemma ZeroCountFails(pg: Engine, tr: Engine, outer: Row, ctes: map<string, Outcome>)
    requires Paired(pg, tr) && pg.common.op("-", [VNum(1.0), VNum(1.0)]) == VNum(0.0)
    ensures var one := Lit(NumberLit(1.0, true));
            var q := LimitAndOffset(Op("-", [one, one]), Lit(ZERO));
            EvalQ(pg, q, outer, ctes) == Rows([]) && EvalQ(tr, RewriteQuery(q), outer, ctes) != Rows([])
  {
    var one, fr := Lit(NumberLit(1.0, true)), Frame(outer, [outer], ctes);
    var n := Op("-", [one, one]);
    var q := LimitAndOffset(n, Lit(ZERO));
    OpKept(pg, tr, "-", one, one, fr);
    LiteralKept(pg, tr, ZERO, fr);
    PlainClause(pg, Some(n), Some(Lit(ZERO)), [], fr);
    OneRowAnswers(pg.common, VNum(0.0));
    BareFails(pg, tr, q, Tail(Some(VNum(0.0)), Some(VNum(0.0)), None, false), outer, ctes);
  }

  lemma OpKept(pg: Engine, tr: Engine, op: string, a: Expr, b: Expr, fr: Frame)
    requires tr.common == pg.common && a.Lit? && b.Lit?
    ensures CountKept(pg, tr, Some(Op(op, [a, b])), fr)
    ensures EvalO(pg, Some(Op(op, [a, b])), fr) == Some(pg.common.op(op, [LiteralVal(a.lit), LiteralVal(b.lit)]))
  {
    assert VisitEs(ALL, [a, b]) == [a, b];
    assert VisitE(ALL, Op(op, [a, b])) == Op(op, [a, b]);
    assert EvalEs(pg, [a, b], fr) == [LiteralVal(a.lit), LiteralVal(b.lit)] == EvalEs(tr, [a, b], fr);
  }

  /** A client's own `FETCH FIRST 0 ROWS ONLY` is passed on, and Trino rejects it. */
  lemma ZeroFetchFails(pg: Engine, tr: Engine, outer: Row, ctes: map<string, Outcome>)
    requires Paired(pg, tr)
    ensures var q := Bare(None, Some(Fetch(false, false, Some(Lit(ZERO)))));
            EvalQ(pg, q, outer, ctes) == Rows([]) && EvalQ(tr, RewriteQuery(q), outer, ctes) != Rows([])
  {
    var fr := Frame(outer, [outer], ctes);
    var f := Some(Fetch(false, false, Some(Lit(ZERO))));
    LiteralKept(pg, tr, ZERO, fr);
    PlainCount(pg, Some(Lit(ZERO)), fr);
    NoClause(pg, fr);
    WholeLiteralCounts(Lit(ZERO));
    var rows: seq<Row> := [[]];
    assert Skip(AtMost(0), rows) == rows && Take(AtMost(0), rows) == [];
    BareFails(pg, tr, Bare(None, f), Tail(None, None, Some(FetchVal(false, false, Some(VNum(0.0)))), false), outer, ctes);
  }

  // ---------------------------------------------------------------- default escapes

  /** PostgreSQL escapes with a backslash when there is no ESCAPE clause, Trino not at all. */
  ghost predicate RealDefaults(pg: Engine, tr: Engine) {
    pg.defaultEscape == Some('\\') && tr.defaultEscape == None
  }

  lemma EscapedPercent()
    ensures Tokens("\\%", Some('\\')) == Some([Literally('%')])
    ensures LikeResult("%", "\\%", Some('\\')) == Some(true) && LikeResult("%", "\\%", None) == Some(false)
  {
    var p := "\\%";
    assert p[2..] == "" && p[1..] == "%" && "%"[1..] == "";
    assert [Literally('%')] + [] == [Literally('%')] && [AnyString] + [] == [AnyString];
    assert Tokens(p, Some('\\')) == Some([Literally('%')]);
    assert Tokens("%", None) == Some([AnyString]);
    assert Tokens(p, None) == Some([Literally('\\')] + [AnyString]);
  }

  /** `'%' LIKE '\%'` is true in PostgreSQL and false in Trino. */
  lemma DefaultEscapeFails(pg: Engine, tr: Engine, fr: Frame)
    requires Related(pg, tr) && RealDefaults(pg, tr)
    ensures var e := Like(false, false, Lit(TextLit("%")), Lit(TextLit("\\%")), None);
            EvalE(pg, e, fr) == VBool(true) && EvalE(tr, VisitE(ALL, e), fr) == VBool(false)
  {
    EscapedPercent();
    VisitLike(ALL, false, false, Lit(TextLit("%")), Lit(TextLit("\\%")), None);
  }

  /** And so is `'%' ILIKE '\%'` after the rewrite. */
  lemma DefaultEscapeFailsILike(pg: Engine, tr: Engine, fr: Frame)
    requires Related(pg, tr) && RealDefaults(pg, tr) && Caseless(pg.common.lower, Some('\\'))
    ensures var e := ILike(false, false, Lit(TextLit("%")), Lit(TextLit("\\%")), None);
            EvalE(pg, e, fr) == VBool(true) && EvalE(tr, VisitE(ALL, e), fr) == VBool(false)
  {
    var l := pg.common.lower;
    var x, p := Lit(TextLit("%")), Lit(TextLit("\\%"));
    EscapedPercent();
    assert "%"[1..] == "";
    assert MatchesNoCase(l, "%", [Literally('%')]);
    LoweredPercent(l);
    LoweredNode(pg, tr, ILike(false, false, x, p, None), fr);
  }

  lemma LoweredPercent(lower: char -> char)
    requires KeepsWildcards(lower) && Caseless(lower, Some('\\'))
    ensures LowerString(lower, "%") == "%" && LowerString(lower, "\\%") == "\\%"
  {
    assert "%"[1..] == "" && "\\%"[1..] == "%";
    assert LowerString(lower, "%") == "%";
  }

  /** `'b' LIKE '!b' ESCAPE '!'` is true in PostgreSQL; Trino refuses the escape in front of a letter. */
  lemma EscapedLetterFails(pg: Engine, tr: Engine, fr: Frame)
    requires Related(pg, tr)
    ensures var e := Like(false, false, Lit(TextLit("b")), Lit(TextLit("!b")), Some('!'));
            EvalE(pg, e, fr) == VBool(true) && EvalE(tr, VisitE(ALL, e), fr) == VError
  {
    var p := "!b";
    assert p[2..] == "" && "b"[1..] == "";
    assert [Literally('b')] + [] == [Literally('b')];
    assert Tokens(p, Some('!')) == Some([Literally('b')]);
    assert Matches("b", [Literally('b')]);
    VisitLike(ALL, false, false, Lit(TextLit("b")), Lit(TextLit(p)), Some('!'));
  }
}
