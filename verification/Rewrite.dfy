/**
  The four rewriting visitors of `src/rewrite` and the algebra of running them.

  Each visitor is a post-order walk with an action at every expression or query node.
  `Rules` says which actions are switched on, so that one visitor, several visitors fused
  into one walk, and the whole pipeline are instances of the same function.
 */
module Rewrite {
  import opened Options
  import opened SqlAst
  import opened Texts

  datatype Rules = Rules(casts: bool, ilikes: bool, renames: bool, limits: bool)

  const CASTS := Rules(true, false, false, false)
  const ILIKES := Rules(false, true, false, false)
  const RENAMES := Rules(false, false, true, false)
  const LIMITS := Rules(false, false, false, true)
  const ALL := Rules(true, true, true, true)

  function Union(a: Rules, b: Rules): Rules {
    Rules(a.casts || b.casts, a.ilikes || b.ilikes, a.renames || b.renames, a.limits || b.limits)
  }

  // ---------------------------------------------------------------- node actions

  /** PostgreSQL type names become Trino's; only the outermost name is looked at. */
  function NormalizeDataType(t: DataType): DataType {
    match t
    case Text => Varchar(None)
    case Int2(_) => SmallInt(None)
    case Int4(_) => Integer(None)
    case Int8(_) => BigInt(None)
    case Float4 => Real
    case Float8 => DoublePrecision
    case Bool => Boolean
    case Bytea => Varbinary(None)
    case _ => t
  }

  function RewriteCast(e: Expr): Expr {
    if e.Cast? then
      e.(kind := if e.kind == DoubleColon then CastCall else e.kind, ty := NormalizeDataType(e.ty))
    else e
  }

  function MakeLowerCall(x: Expr): Expr {
    Call([Ident("lower", false)], ArgList([x]), None)
  }

  function RewriteILike(e: Expr): Expr {
    if e.ILike? then
      Like(e.negated, false, MakeLowerCall(e.subject), MakeLowerCall(e.pattern), e.escape)
    else e
  }

  function ArgCount(args: Args): nat {
    if args.ArgList? then |args.args| else 0
  }

  /**
    The rename table: the Trino name for a lower-cased PostgreSQL name. Lowering ASCII letters is
    enough, as none of its names is the lower case of a non-ASCII character.
   */
  function NewName(lower: string, argCount: nat): Option<string> {
    if lower == "string_agg" then Some("listagg")
    else if lower == "log" && argCount == 1 then Some("log10")
    else if lower == "trunc" then Some("truncate")
    else None
  }

  function RenamedFn(fn: seq<Ident>, argCount: nat): seq<Ident> {
    if |fn| == 1 && NewName(Lower(fn[0].value), argCount).Some? then
      [fn[0].(value := NewName(Lower(fn[0].value), argCount).value)]
    else fn
  }

  function RenameFunction(e: Expr): Expr {
    if e.Call? then e.(fn := RenamedFn(e.fn, ArgCount(e.args))) else e
  }

  /** 2^-1075: decimal texts up to this value are parsed to the double 0.0. */
  const F64_ROUNDS_TO_ZERO: real := Halved(1075)

  /** 2^-n. */
  function Halved(n: nat): (r: real)
    ensures 0.0 < r <= 1.0 && (n >= 1 ==> r <= 0.5) && (n >= 2 ==> r <= 0.25)
  {
    if n == 0 then 1.0 else Halved(n - 1) / 2.0
  }

  /** `is_zero_literal`: a numeric literal whose double value is zero. */
  predicate IsZeroLiteral(e: Expr) {
    && e.Lit?
    && e.lit.NumberLit?
    && -F64_ROUNDS_TO_ZERO <= e.lit.n <= F64_ROUNDS_TO_ZERO
  }

  /** The clause `LIMIT n OFFSET m` that Trino's grammar does not have. */
  predicate LimitThenOffset(q: Query) {
    && q.fetch.None?
    && q.limitClause.Some?
    && q.limitClause.value.LimitOffset?
    && q.limitClause.value.limit.Some?
    && q.limitClause.value.offset.Some?
    && q.limitClause.value.limitBy == []
  }

  ghost function RewriteLimit(q: Query): Query {
    if !LimitThenOffset(q) then q
    else
      var c := q.limitClause.value;
      if IsZeroLiteral(c.limit.value) then
        q.(limitClause := Some(LimitOffset(c.limit, None, [])))
      else
        q.(limitClause := Some(c.(limit := None)), fetch := Some(Fetch(false, false, c.limit)))
  }

  ghost function NodeE(p: Rules, e: Expr): Expr {
    var e := if p.casts then RewriteCast(e) else e;
    var e := if p.ilikes then RewriteILike(e) else e;
    if p.renames then RenameFunction(e) else e
  }

  ghost function NodeQ(p: Rules, q: Query): Query {
    if p.limits then RewriteLimit(q) else q
  }

  // ---------------------------------------------------------------- the walk

  ghost function VisitE(p: Rules, e: Expr): Expr
    decreases e
  {
    NodeE(p, match e
             case Column(_) => e
             case Lit(_) => e
             case Wildcard => e
             case Op(op, xs) => Op(op, VisitEs(p, xs))
             case Cast(k, x, t) => Cast(k, VisitE(p, x), t)
             case Like(n, a, x, pt, c) => Like(n, a, VisitE(p, x), VisitE(p, pt), c)
             case ILike(n, a, x, pt, c) => ILike(n, a, VisitE(p, x), VisitE(p, pt), c)
             case Call(f, args, filter) => Call(f, VisitA(p, args), VisitO(p, filter))
             case SubQuery(k, xs, q) => SubQuery(k, VisitEs(p, xs), VisitQ(p, q)))
  }

  ghost function VisitA(p: Rules, args: Args): Args
    decreases args
  {
    match args
    case NoArgs => NoArgs
    case QueryArg(q) => QueryArg(VisitQ(p, q))
    case ArgList(xs) => ArgList(VisitEs(p, xs))
  }

  ghost function VisitEs(p: Rules, es: seq<Expr>): (r: seq<Expr>)
    ensures |r| == |es| && forall i :: 0 <= i < |es| ==> r[i] == VisitE(p, es[i])
    decreases es
  {
    if es == [] then [] else [VisitE(p, es[0])] + VisitEs(p, es[1..])
  }

  ghost function VisitO(p: Rules, o: Option<Expr>): Option<Expr>
    decreases o
  {
    match o
    case None => None
    case Some(e) => Some(VisitE(p, e))
  }

  ghost function VisitR(p: Rules, r: Rel): Rel
    decreases r
  {
    match r
    case NoFrom => r
    case Table(_) => r
    case Derived(q, a) => Derived(VisitQ(p, q), a)
    case Join(k, a, b, on) => Join(k, VisitR(p, a), VisitR(p, b), VisitO(p, on))
    case Select(d, items, names, from, w, g, h) =>
      Select(d, VisitEs(p, items), names, VisitR(p, from), VisitO(p, w), VisitEs(p, g), VisitO(p, h))
    case SetOp(op, a, b) => SetOp(op, VisitR(p, a), VisitR(p, b))
    case Values(w, cells) => Values(w, VisitEs(p, cells))
  }

  ghost function VisitL(p: Rules, l: Option<LimitClause>): Option<LimitClause>
    decreases l
  {
    match l
    case None => None
    case Some(LimitOffset(n, m, ks)) => Some(LimitOffset(VisitO(p, n), VisitO(p, m), VisitEs(p, ks)))
    case Some(OffsetComma(m, n)) => Some(OffsetComma(VisitO(p, m), VisitO(p, n)))
  }

  ghost function VisitF(p: Rules, f: Option<Fetch>): Option<Fetch>
    decreases f
  {
    match f
    case None => None
    case Some(Fetch(t, pc, n)) => Some(Fetch(t, pc, VisitO(p, n)))
  }

  ghost function VisitCs(p: Rules, cs: seq<Cte>): (r: seq<Cte>)
    ensures |r| == |cs| && forall i :: 0 <= i < |cs| ==> r[i] == Cte(cs[i].name, VisitQ(p, cs[i].query))
    decreases cs
  {
    if cs == [] then [] else [Cte(cs[0].name, VisitQ(p, cs[0].query))] + VisitCs(p, cs[1..])
  }

  ghost function WalkQ(p: Rules, q: Query): Query
    decreases q, 0
  {
    Query(VisitCs(p, q.ctes), VisitR(p, q.body), VisitEs(p, q.orderBy),
          VisitL(p, q.limitClause), VisitF(p, q.fetch))
  }

  ghost function VisitQ(p: Rules, q: Query): Query
    decreases q, 1
  {
    NodeQ(p, WalkQ(p, q))
  }

  // ---------------------------------------------------------------- the tables

  /** Normalising a type name keeps what it stands for, and leaves no outermost name that only PostgreSQL has. */
  lemma NormalizingKeepsSort(t: DataType)
    ensures SortOf(NormalizeDataType(t)) == SortOf(t) && !PostgresOnly(NormalizeDataType(t))
    ensures NormalizeDataType(t) == t <==> !PostgresOnly(t)
  {
  }

  /** The names that are replaced, by spelling and number of arguments. */
  predicate Replaced(lower: string, argCount: nat) {
    lower == "string_agg" || (lower == "log" && argCount == 1) || lower == "trunc"
  }

  /** An unqualified name in the table is replaced, whatever its case, and keeps its quotes; all others stay. */
  lemma RenamesExactly(fn: seq<Ident>, n: nat)
    ensures |fn| == 1 && Lower(fn[0].value) == "string_agg" ==> RenamedFn(fn, n) == [Ident("listagg", fn[0].quoted)]
    ensures |fn| == 1 && Lower(fn[0].value) == "log" && n == 1 ==> RenamedFn(fn, n) == [Ident("log10", fn[0].quoted)]
    ensures |fn| == 1 && Lower(fn[0].value) == "trunc" ==> RenamedFn(fn, n) == [Ident("truncate", fn[0].quoted)]
    ensures !(|fn| == 1 && Replaced(Lower(fn[0].value), n)) ==> RenamedFn(fn, n) == fn
  {
    assert "log"[0] != "trunc"[0] && "string_agg"[0] != "trunc"[0] && |"log"| != |"string_agg"|;
  }

  // ---------------------------------------------------------------- pass algebra

  lemma FoldFixes(s: string)
    requires forall i :: 0 <= i < |s| ==> LowerChar(s[i]) == s[i]
    ensures Lower(s) == s
  {
  }

  lemma LowerIsNotRenamed(n: nat)
    ensures NewName(Lower("lower"), n) == None
  {
    FoldFixes("lower");
    assert "lower"[0] != "trunc"[0];
  }

  /** No target of the rename table is itself renamed, at any arity. */
  lemma TargetsAreNotRenamed(s: string, m: nat, n: nat)
    requires NewName(s, m).Some?
    ensures NewName(Lower(NewName(s, m).value), n) == None
  {
    FoldFixes("listagg");
    FoldFixes("log10");
    FoldFixes("truncate");
  }

  /** The generated `lower(...)` calls are not in the rename table. */
  lemma LowerCallIsInert(p: Rules, x: Expr)
    ensures NodeE(p, MakeLowerCall(x)) == MakeLowerCall(x)
    ensures VisitE(p, MakeLowerCall(x)) == MakeLowerCall(VisitE(p, x))
  {
    LowerIsNotRenamed(1);
    var args := [x];
    assert VisitEs(p, args) == [VisitE(p, x)];
    assert VisitA(p, ArgList(args)) == ArgList([VisitE(p, x)]);
  }

  lemma RenamesOnce(fn: seq<Ident>, n: nat)
    ensures RenamedFn(RenamedFn(fn, n), n) == RenamedFn(fn, n)
  {
    if |fn| == 1 && NewName(Lower(fn[0].value), n).Some? {
      TargetsAreNotRenamed(Lower(fn[0].value), n, n);
    }
  }

  /** A call node changes in its name only. */
  ghost function FnAfter(p: Rules, fn: seq<Ident>, argCount: nat): seq<Ident> {
    if p.renames then RenamedFn(fn, argCount) else fn
  }

  lemma NamesFuse(a: Rules, b: Rules, fn: seq<Ident>, n: nat)
    ensures FnAfter(b, FnAfter(a, fn, n), n) == FnAfter(Union(a, b), fn, n)
  {
    RenamesOnce(fn, n);
  }

  lemma CallNode(p: Rules, fn: seq<Ident>, args: Args, filter: Option<Expr>)
    ensures NodeE(p, Call(fn, args, filter)) == Call(FnAfter(p, fn, ArgCount(args)), args, filter)
  {
  }

  lemma RewriteLimitOnce(q: Query)
    ensures RewriteLimit(RewriteLimit(q)) == RewriteLimit(q)
  {
  }

  /**
    Two visits fuse into one: the second visitor also walks the nodes the first one made, and
    still the result is that of a single bottom-up walk applying both sets of actions.
   */
  lemma {:induction false} VisitsFuseE(a: Rules, b: Rules, e: Expr)
    ensures VisitE(b, VisitE(a, e)) == VisitE(Union(a, b), e)
    decreases e
  {
    match e
    case Column(_) => LeafVisitsFuse(a, b, e);
    case Lit(_) => LeafVisitsFuse(a, b, e);
    case Wildcard => LeafVisitsFuse(a, b, e);
    case Op(op, xs) =>
      VisitsFuseEs(a, b, xs);
      OpVisitsFuse(a, b, op, xs);
    case Cast(k, x, t) =>
      VisitsFuseE(a, b, x);
      CastVisitsFuse(a, b, k, x, t);
    case Like(_, _, x, pt, _) =>
      VisitsFuseE(a, b, x);
      VisitsFuseE(a, b, pt);
      LikeVisitsFuse(a, b, e);
    case ILike(_, _, x, pt, _) =>
      VisitsFuseE(a, b, x);
      VisitsFuseE(a, b, pt);
      ILikeVisitsFuse(a, b, e);
    case Call(f, args, filter) =>
      VisitsFuseA(a, b, args);
      VisitsFuseO(a, b, filter);
      CallVisitsFuse(a, b, f, args, filter);
    case SubQuery(k, xs, q) =>
      VisitsFuseEs(a, b, xs);
      VisitsFuseQ(a, b, q);
      SubQueryVisitsFuse(a, b, k, xs, q);
  }

  lemma LeafVisitsFuse(a: Rules, b: Rules, e: Expr)
    requires e.Column? || e.Lit? || e.Wildcard?
    ensures VisitE(b, VisitE(a, e)) == VisitE(Union(a, b), e)
  {
  }

  lemma OpVisitsFuse(a: Rules, b: Rules, op: string, xs: seq<Expr>)
    requires VisitEs(b, VisitEs(a, xs)) == VisitEs(Union(a, b), xs)
    ensures VisitE(b, VisitE(a, Op(op, xs))) == VisitE(Union(a, b), Op(op, xs))
  {
    assert VisitE(a, Op(op, xs)) == Op(op, VisitEs(a, xs));
  }

  ghost function KindAfter(p: Rules, k: CastKind): CastKind {
    if p.casts && k == DoubleColon then CastCall else k
  }

  ghost function TypeAfter(p: Rules, t: DataType): DataType {
    if p.casts then NormalizeDataType(t) else t
  }

  lemma VisitCast(p: Rules, k: CastKind, x: Expr, t: DataType)
    ensures VisitE(p, Cast(k, x, t)) == Cast(KindAfter(p, k), VisitE(p, x), TypeAfter(p, t))
  {
  }

  lemma CastActionsFuse(a: Rules, b: Rules, k: CastKind, t: DataType)
    ensures KindAfter(b, KindAfter(a, k)) == KindAfter(Union(a, b), k)
    ensures TypeAfter(b, TypeAfter(a, t)) == TypeAfter(Union(a, b), t)
  {
  }

  lemma CastVisitsFuse(a: Rules, b: Rules, k: CastKind, x: Expr, t: DataType)
    requires VisitE(b, VisitE(a, x)) == VisitE(Union(a, b), x)
    ensures VisitE(b, VisitE(a, Cast(k, x, t))) == VisitE(Union(a, b), Cast(k, x, t))
  {
    VisitCast(a, k, x, t);
    VisitCast(b, KindAfter(a, k), VisitE(a, x), TypeAfter(a, t));
    VisitCast(Union(a, b), k, x, t);
    CastActionsFuse(a, b, k, t);
  }

  lemma LikeVisitsFuse(a: Rules, b: Rules, e: Expr)
    requires e.Like?
    requires VisitE(b, VisitE(a, e.subject)) == VisitE(Union(a, b), e.subject)
    requires VisitE(b, VisitE(a, e.pattern)) == VisitE(Union(a, b), e.pattern)
    ensures VisitE(b, VisitE(a, e)) == VisitE(Union(a, b), e)
  {
    VisitLike(a, e.negated, e.any, e.subject, e.pattern, e.escape);
    VisitLike(b, e.negated, e.any, VisitE(a, e.subject), VisitE(a, e.pattern), e.escape);
    VisitLike(Union(a, b), e.negated, e.any, e.subject, e.pattern, e.escape);
  }

  lemma SubQueryVisitsFuse(a: Rules, b: Rules, k: string, xs: seq<Expr>, q: Query)
    requires VisitEs(b, VisitEs(a, xs)) == VisitEs(Union(a, b), xs)
    requires VisitQ(b, VisitQ(a, q)) == VisitQ(Union(a, b), q)
    ensures VisitE(b, VisitE(a, SubQuery(k, xs, q))) == VisitE(Union(a, b), SubQuery(k, xs, q))
  {
    assert VisitE(a, SubQuery(k, xs, q)) == SubQuery(k, VisitEs(a, xs), VisitQ(a, q));
  }

  /** The second visit walks the `lower` calls made by the first and keeps them. */
  lemma ILikeVisitsFuse(a: Rules, b: Rules, e: Expr)
    requires e.ILike?
    requires VisitE(b, VisitE(a, e.subject)) == VisitE(Union(a, b), e.subject)
    requires VisitE(b, VisitE(a, e.pattern)) == VisitE(Union(a, b), e.pattern)
    ensures VisitE(b, VisitE(a, e)) == VisitE(Union(a, b), e)
  {
    var x, pt := VisitE(a, e.subject), VisitE(a, e.pattern);
    VisitILike(a, e.negated, e.any, e.subject, e.pattern, e.escape);
    VisitILike(Union(a, b), e.negated, e.any, e.subject, e.pattern, e.escape);
    if a.ilikes {
      VisitLike(b, e.negated, false, MakeLowerCall(x), MakeLowerCall(pt), e.escape);
      LowerCallIsInert(b, x);
      LowerCallIsInert(b, pt);
    } else {
      VisitILike(b, e.negated, e.any, x, pt, e.escape);
    }
  }

  lemma VisitLike(p: Rules, negated: bool, any: bool, x: Expr, pattern: Expr, escape: Option<char>)
    ensures VisitE(p, Like(negated, any, x, pattern, escape)) == Like(negated, any, VisitE(p, x), VisitE(p, pattern), escape)
  {
  }

  lemma VisitILike(p: Rules, negated: bool, any: bool, x: Expr, pattern: Expr, escape: Option<char>)
    ensures VisitE(p, ILike(negated, any, x, pattern, escape))
         == if p.ilikes then Like(negated, false, MakeLowerCall(VisitE(p, x)), MakeLowerCall(VisitE(p, pattern)), escape)
            else ILike(negated, any, VisitE(p, x), VisitE(p, pattern), escape)
  {
  }

  lemma VisitCall(p: Rules, f: seq<Ident>, args: Args, filter: Option<Expr>)
    ensures VisitE(p, Call(f, args, filter)) == Call(FnAfter(p, f, ArgCount(args)), VisitA(p, args), VisitO(p, filter))
    ensures ArgCount(VisitA(p, args)) == ArgCount(args)
  {
    assert ArgCount(VisitA(p, args)) == ArgCount(args);
    CallNode(p, f, VisitA(p, args), VisitO(p, filter));
  }

  lemma CallVisitsFuse(a: Rules, b: Rules, f: seq<Ident>, args: Args, filter: Option<Expr>)
    requires VisitA(b, VisitA(a, args)) == VisitA(Union(a, b), args)
    requires VisitO(b, VisitO(a, filter)) == VisitO(Union(a, b), filter)
    ensures VisitE(b, VisitE(a, Call(f, args, filter))) == VisitE(Union(a, b), Call(f, args, filter))
  {
    VisitCall(a, f, args, filter);
    VisitCall(b, FnAfter(a, f, ArgCount(args)), VisitA(a, args), VisitO(a, filter));
    VisitCall(Union(a, b), f, args, filter);
    NamesFuse(a, b, f, ArgCount(args));
  }

  lemma {:induction false} VisitsFuseA(a: Rules, b: Rules, args: Args)
    ensures VisitA(b, VisitA(a, args)) == VisitA(Union(a, b), args)
    decreases args
  {
    match args
    case NoArgs =>
    case QueryArg(q) => VisitsFuseQ(a, b, q);
    case ArgList(xs) => VisitsFuseEs(a, b, xs);
  }

  lemma {:induction false} VisitsFuseEs(a: Rules, b: Rules, es: seq<Expr>)
    ensures VisitEs(b, VisitEs(a, es)) == VisitEs(Union(a, b), es)
    decreases es
  {
    forall i | 0 <= i < |es|
      ensures VisitEs(b, VisitEs(a, es))[i] == VisitEs(Union(a, b), es)[i]
    {
      VisitsFuseE(a, b, es[i]);
    }
  }

  lemma {:induction false} VisitsFuseO(a: Rules, b: Rules, o: Option<Expr>)
    ensures VisitO(b, VisitO(a, o)) == VisitO(Union(a, b), o)
    decreases o
  {
    if o.Some? { VisitsFuseE(a, b, o.value); }
  }

  lemma {:induction false} VisitsFuseR(a: Rules, b: Rules, r: Rel)
    ensures VisitR(b, VisitR(a, r)) == VisitR(Union(a, b), r)
    decreases r
  {
    match r
    case NoFrom =>
    case Table(_) =>
    case Derived(q, _) => VisitsFuseQ(a, b, q);
    case Join(_, x, y, on) => VisitsFuseR(a, b, x); VisitsFuseR(a, b, y); VisitsFuseO(a, b, on);
    case Select(_, items, _, from, w, g, h) =>
      VisitsFuseEs(a, b, items);
      VisitsFuseR(a, b, from);
      VisitsFuseO(a, b, w);
      VisitsFuseEs(a, b, g);
      VisitsFuseO(a, b, h);
      SelectVisitsFuse(a, b, r);
    case SetOp(_, x, y) => VisitsFuseR(a, b, x); VisitsFuseR(a, b, y);
    case Values(_, cells) => VisitsFuseEs(a, b, cells);
  }

  lemma {:induction false} SelectVisitsFuse(a: Rules, b: Rules, r: Rel)
    requires r.Select?
    requires VisitEs(b, VisitEs(a, r.items)) == VisitEs(Union(a, b), r.items)
    requires VisitR(b, VisitR(a, r.from)) == VisitR(Union(a, b), r.from)
    requires VisitO(b, VisitO(a, r.where)) == VisitO(Union(a, b), r.where)
    requires VisitEs(b, VisitEs(a, r.groupBy)) == VisitEs(Union(a, b), r.groupBy)
    requires VisitO(b, VisitO(a, r.having)) == VisitO(Union(a, b), r.having)
    ensures VisitR(b, VisitR(a, r)) == VisitR(Union(a, b), r)
  {
    VisitSelect(a, r);
    VisitSelect(b, VisitR(a, r));
    VisitSelect(Union(a, b), r);
  }

  lemma {:induction false} VisitSelect(p: Rules, r: Rel)
    requires r.Select?
    ensures VisitR(p, r) == Select(r.distinct, VisitEs(p, r.items), r.names, VisitR(p, r.from), VisitO(p, r.where),
                                   VisitEs(p, r.groupBy), VisitO(p, r.having))
  {
  }

  lemma {:induction false} VisitsFuseL(a: Rules, b: Rules, l: Option<LimitClause>)
    ensures VisitL(b, VisitL(a, l)) == VisitL(Union(a, b), l)
    decreases l
  {
    match l
    case None =>
    case Some(LimitOffset(n, m, ks)) => VisitsFuseO(a, b, n); VisitsFuseO(a, b, m); VisitsFuseEs(a, b, ks);
    case Some(OffsetComma(m, n)) => VisitsFuseO(a, b, m); VisitsFuseO(a, b, n);
  }

  lemma {:induction false} VisitsFuseF(a: Rules, b: Rules, f: Option<Fetch>)
    ensures VisitF(b, VisitF(a, f)) == VisitF(Union(a, b), f)
    decreases f
  {
    if f.Some? { VisitsFuseO(a, b, f.value.quantity); }
  }

  lemma {:induction false} VisitsFuseCs(a: Rules, b: Rules, cs: seq<Cte>)
    ensures VisitCs(b, VisitCs(a, cs)) == VisitCs(Union(a, b), cs)
    decreases cs
  {
    forall i | 0 <= i < |cs|
      ensures VisitCs(b, VisitCs(a, cs))[i] == VisitCs(Union(a, b), cs)[i]
    {
      VisitsFuseQ(a, b, cs[i].query);
    }
  }

  /** No action turns a zero literal into something else or makes one. */
  lemma VisitKeepsZeroLiterals(p: Rules, e: Expr)
    ensures IsZeroLiteral(VisitE(p, e)) <==> IsZeroLiteral(e)
    ensures e.Lit? ==> VisitE(p, e) == e
    ensures VisitE(p, e).Lit? ==> e.Lit?
  {
  }

  /** Walking after the limit action is the limit action after walking. */
  lemma LimitActionCommutesWithWalk(p: Rules, q: Query)
    ensures RewriteLimit(WalkQ(p, q)) == WalkQ(p, RewriteLimit(q))
  {
    if LimitThenOffset(q) {
      var c := q.limitClause.value;
      VisitKeepsZeroLiterals(p, c.limit.value);
      assert VisitEs(p, []) == [];
      assert VisitL(p, q.limitClause) == Some(LimitOffset(VisitO(p, c.limit), VisitO(p, c.offset), []));
      assert LimitThenOffset(WalkQ(p, q));
      if IsZeroLiteral(c.limit.value) {
        assert VisitL(p, Some(LimitOffset(c.limit, None, []))) == Some(LimitOffset(VisitO(p, c.limit), None, []));
      } else {
        assert VisitL(p, Some(LimitOffset(None, c.offset, []))) == Some(LimitOffset(None, VisitO(p, c.offset), []));
        assert VisitF(p, Some(Fetch(false, false, c.limit))) == Some(Fetch(false, false, VisitO(p, c.limit)));
      }
    } else if q.limitClause.Some? && q.limitClause.value.LimitOffset? {
      var c := q.limitClause.value;
      assert VisitL(p, q.limitClause) == Some(LimitOffset(VisitO(p, c.limit), VisitO(p, c.offset), VisitEs(p, c.limitBy)));
      assert !LimitThenOffset(WalkQ(p, q));
    }
  }

  lemma {:induction false} VisitsFuseQ(a: Rules, b: Rules, q: Query)
    ensures VisitQ(b, VisitQ(a, q)) == VisitQ(Union(a, b), q)
    decreases q
  {
    VisitsFuseCs(a, b, q.ctes);
    VisitsFuseR(a, b, q.body);
    VisitsFuseEs(a, b, q.orderBy);
    VisitsFuseL(a, b, q.limitClause);
    VisitsFuseF(a, b, q.fetch);
    WalkThenActFuse(a, b, q);
  }

  lemma WalkThenActFuse(a: Rules, b: Rules, q: Query)
    requires WalkQ(b, WalkQ(a, q)) == WalkQ(Union(a, b), q)
    ensures VisitQ(b, VisitQ(a, q)) == VisitQ(Union(a, b), q)
  {
    LimitActionCommutesWithWalk(b, WalkQ(a, q));
    RewriteLimitOnce(WalkQ(Union(a, b), q));
  }

  /** The four visits in the order of `rewrite_sql`. */
  ghost function RewriteQuery(q: Query): Query {
    VisitQ(LIMITS, VisitQ(RENAMES, VisitQ(ILIKES, VisitQ(CASTS, q))))
  }

  ghost function VisitQs(p: Rules, qs: seq<Query>): (r: seq<Query>)
    ensures |r| == |qs| && forall i :: 0 <= i < |qs| ==> r[i] == VisitQ(p, qs[i])
  {
    seq(|qs|, i requires 0 <= i < |qs| => VisitQ(p, qs[i]))
  }

  /** A visitor walks whatever statement was parsed. */
  ghost function VisitStatement(p: Rules, s: Statement): Statement {
    match s
    case QueryStatement(q) => QueryStatement(VisitQ(p, q))
    case Command(text, es, qs) => Command(text, VisitEs(p, es), VisitQs(p, qs))
  }

  ghost function RewriteStatement(s: Statement): Statement {
    VisitStatement(LIMITS, VisitStatement(RENAMES, VisitStatement(ILIKES, VisitStatement(CASTS, s))))
  }

  lemma StatementVisitsFuse(a: Rules, b: Rules, s: Statement)
    ensures VisitStatement(b, VisitStatement(a, s)) == VisitStatement(Union(a, b), s)
  {
    match s
    case QueryStatement(q) => VisitsFuseQ(a, b, q);
    case Command(_, es, qs) =>
      VisitsFuseEs(a, b, es);
      forall i | 0 <= i < |qs|
        ensures VisitQs(b, VisitQs(a, qs))[i] == VisitQs(Union(a, b), qs)[i]
      {
        VisitsFuseQ(a, b, qs[i]);
      }
      assert VisitQs(b, VisitQs(a, qs)) == VisitQs(Union(a, b), qs);
  }

  /** For every statement, the pipeline is one walk over its queries and expressions, and rewriting twice is rewriting once. */
  lemma StatementPipeline(s: Statement)
    ensures RewriteStatement(s) == VisitStatement(ALL, s)
    ensures RewriteStatement(RewriteStatement(s)) == RewriteStatement(s)
  {
    StatementInOneWalk(s);
    StatementInOneWalk(VisitStatement(ALL, s));
    StatementVisitsFuse(ALL, ALL, s);
  }

  lemma StatementInOneWalk(s: Statement)
    ensures RewriteStatement(s) == VisitStatement(ALL, s)
  {
    StatementVisitsFuse(CASTS, ILIKES, s);
    StatementVisitsFuse(Union(CASTS, ILIKES), RENAMES, s);
    StatementVisitsFuse(Union(Union(CASTS, ILIKES), RENAMES), LIMITS, s);
  }

  /** The four sequential visits are one fused bottom-up traversal. */
  lemma PipelineIsOneWalk(q: Query)
    ensures RewriteQuery(q) == VisitQ(ALL, q)
  {
    VisitsFuseQ(CASTS, ILIKES, q);
    VisitsFuseQ(Union(CASTS, ILIKES), RENAMES, q);
    VisitsFuseQ(Union(Union(CASTS, ILIKES), RENAMES), LIMITS, q);
  }

  /** Any two visitors commute, on every tree. */
  lemma VisitorsCommute(a: Rules, b: Rules, q: Query)
    ensures VisitQ(a, VisitQ(b, q)) == VisitQ(b, VisitQ(a, q))
  {
    VisitsFuseQ(a, b, q);
    VisitsFuseQ(b, a, q);
    assert Union(a, b) == Union(b, a);
  }

  /** Rewriting a rewritten query changes nothing. */
  lemma PipelineIsIdempotent(q: Query)
    ensures RewriteQuery(RewriteQuery(q)) == RewriteQuery(q)
  {
    PipelineIsOneWalk(q);
    PipelineIsOneWalk(VisitQ(ALL, q));
    VisitsFuseQ(ALL, ALL, q);
  }
}
