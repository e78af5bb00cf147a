/**
  The visitors as they run: a walk that updates the tree it owns, node by node, children
  before parents. A Rust tree under `&mut` has one owner, so it is a value that the walk
  reassigns. Each method is proved against the walk functions of module `Rewrite`.
 */
module RewriteVisitors {
  import opened Options
  import opened SqlAst
  import opened Rewrite
  import opened Texts

  datatype Visitor = CastRewriter | ILikeRewriter | FunctionRenamer | LimitOffsetRewriter

  function RulesOf(v: Visitor): Rules {
    match v
    case CastRewriter => CASTS
    case ILikeRewriter => ILIKES
    case FunctionRenamer => RENAMES
    case LimitOffsetRewriter => LIMITS
  }

  method PostVisitExpr(v: Visitor, node: Expr) returns (expr: Expr)
    ensures expr == NodeE(RulesOf(v), node)
  {
    expr := node;
    match v
    case CastRewriter =>
      if expr.Cast? {
        if expr.kind == DoubleColon {
          expr := expr.(kind := CastCall);
        }
        expr := expr.(ty := NormalizeDataType(expr.ty));
      }
    case ILikeRewriter =>
      var owned := expr;
      expr := Lit(NullLit);
      if owned.ILike? {
        var subject, pattern := MakeLowerCall(owned.subject), MakeLowerCall(owned.pattern);
        expr := Like(owned.negated, false, subject, pattern, owned.escape);
      } else {
        expr := owned;
      }
    case FunctionRenamer =>
      if expr.Call? && |expr.fn| == 1 {
        var ident := expr.fn[0];
        var lower := Lower(ident.value);
        var argCount := if expr.args.ArgList? then |expr.args.args| else 0;
        var newName := NewName(lower, argCount);
        if newName.Some? {
          ident := ident.(value := newName.value);
          expr := expr.(fn := [ident]);
        }
      }
    case LimitOffsetRewriter =>
  }

  method PostVisitQuery(v: Visitor, node: Query) returns (query: Query)
    ensures query == NodeQ(RulesOf(v), node)
  {
    query := node;
    if v != LimitOffsetRewriter || query.fetch.Some? {
      return;
    }
    var limit: Option<Expr> := None;
    match query.limitClause {
      case Some(LimitOffset(l, Some(m), ks)) =>
        if |ks| == 0 {
          limit := l;
          query := query.(limitClause := Some(LimitOffset(None, Some(m), ks)));
        }
      case _ =>
    }
    if limit.None? {
      return;
    }
    if IsZeroLiteral(limit.value) {
      query := query.(limitClause := Some(LimitOffset(limit, None, [])));
      return;
    }
    query := query.(fetch := Some(Fetch(false, false, limit)));
  }

  method VisitExpr(v: Visitor, node: Expr) returns (expr: Expr)
    ensures expr == VisitE(RulesOf(v), node)
    decreases node
  {
    expr := node;
    match node {
      case Column(_) =>
      case Lit(_) =>
      case Wildcard =>
      case Op(op, xs) =>
        var ys := VisitExprs(v, xs);
        expr := Op(op, ys);
      case Cast(k, x, t) =>
        var y := VisitExpr(v, x);
        expr := Cast(k, y, t);
      case Like(n, any, x, p, esc) =>
        var y := VisitExpr(v, x);
        var z := VisitExpr(v, p);
        expr := Like(n, any, y, z, esc);
      case ILike(n, any, x, p, esc) =>
        var y := VisitExpr(v, x);
        var z := VisitExpr(v, p);
        expr := ILike(n, any, y, z, esc);
      case Call(fn, args, filter) =>
        var bs := VisitArgs(v, args);
        var h := VisitOption(v, filter);
        expr := Call(fn, bs, h);
      case SubQuery(form, xs, q) =>
        var ys := VisitExprs(v, xs);
        var r := VisitQuery(v, q);
        expr := SubQuery(form, ys, r);
    }
    expr := PostVisitExpr(v, expr);
  }

  method VisitArgs(v: Visitor, node: Args) returns (args: Args)
    ensures args == VisitA(RulesOf(v), node)
    decreases node
  {
    match node
    case NoArgs => args := NoArgs;
    case QueryArg(q) =>
      var r := VisitQuery(v, q);
      args := QueryArg(r);
    case ArgList(xs) =>
      var ys := VisitExprs(v, xs);
      args := ArgList(ys);
  }

  method VisitExprs(v: Visitor, nodes: seq<Expr>) returns (exprs: seq<Expr>)
    ensures exprs == VisitEs(RulesOf(v), nodes)
    decreases nodes
  {
    exprs := nodes;
    for i := 0 to |nodes|
      invariant |exprs| == |nodes|
      invariant forall k :: 0 <= k < i ==> exprs[k] == VisitE(RulesOf(v), nodes[k])
      invariant exprs[i..] == nodes[i..]
    {
      var e := VisitExpr(v, nodes[i]);
      exprs := exprs[i := e];
    }
  }

  method VisitOption(v: Visitor, node: Option<Expr>) returns (expr: Option<Expr>)
    ensures expr == VisitO(RulesOf(v), node)
    decreases node
  {
    expr := node;
    if node.Some? {
      var e := VisitExpr(v, node.value);
      expr := Some(e);
    }
  }

  method VisitRel(v: Visitor, node: Rel) returns (rel: Rel)
    ensures rel == VisitR(RulesOf(v), node)
    decreases node
  {
    rel := node;
    match node
    case NoFrom =>
    case Table(_) =>
    case Derived(q, alias) =>
      var r := VisitQuery(v, q);
      rel := Derived(r, alias);
    case Join(k, a, b, on) =>
      var x := VisitRel(v, a);
      var y := VisitRel(v, b);
      var z := VisitOption(v, on);
      rel := Join(k, x, y, z);
    case Select(d, items, names, from, w, g, h) =>
      var items' := VisitExprs(v, items);
      var from' := VisitRel(v, from);
      var w' := VisitOption(v, w);
      var g' := VisitExprs(v, g);
      var h' := VisitOption(v, h);
      rel := Select(d, items', names, from', w', g', h');
    case SetOp(op, a, b) =>
      var x := VisitRel(v, a);
      var y := VisitRel(v, b);
      rel := SetOp(op, x, y);
    case Values(w, cells) =>
      var cells' := VisitExprs(v, cells);
      rel := Values(w, cells');
  }

  method VisitCtes(v: Visitor, nodes: seq<Cte>) returns (ctes: seq<Cte>)
    ensures ctes == VisitCs(RulesOf(v), nodes)
    decreases nodes
  {
    ctes := nodes;
    for i := 0 to |nodes|
      invariant |ctes| == |nodes|
      invariant forall k :: 0 <= k < i ==> ctes[k] == Cte(nodes[k].name, VisitQ(RulesOf(v), nodes[k].query))
      invariant ctes[i..] == nodes[i..]
    {
      var q := VisitQuery(v, nodes[i].query);
      ctes := ctes[i := Cte(nodes[i].name, q)];
    }
  }

  method VisitLimitClause(v: Visitor, node: Option<LimitClause>) returns (clause: Option<LimitClause>)
    ensures clause == VisitL(RulesOf(v), node)
    decreases node
  {
    clause := node;
    match node
    case None =>
    case Some(LimitOffset(n, m, ks)) =>
      var n' := VisitOption(v, n);
      var m' := VisitOption(v, m);
      var ks' := VisitExprs(v, ks);
      clause := Some(LimitOffset(n', m', ks'));
    case Some(OffsetComma(m, n)) =>
      var m' := VisitOption(v, m);
      var n' := VisitOption(v, n);
      clause := Some(OffsetComma(m', n'));
  }

  method VisitFetch(v: Visitor, node: Option<Fetch>) returns (fetch: Option<Fetch>)
    ensures fetch == VisitF(RulesOf(v), node)
    decreases node
  {
    fetch := node;
    if node.Some? {
      var n := VisitOption(v, node.value.quantity);
      fetch := Some(node.value.(quantity := n));
    }
  }

  method VisitQuery(v: Visitor, node: Query) returns (query: Query)
    ensures query == VisitQ(RulesOf(v), node)
    decreases node
  {
    var ctes := VisitCtes(v, node.ctes);
    var body := VisitRel(v, node.body);
    var orderBy := VisitExprs(v, node.orderBy);
    var limitClause := VisitLimitClause(v, node.limitClause);
    var fetch := VisitFetch(v, node.fetch);
    query := PostVisitQuery(v, Query(ctes, body, orderBy, limitClause, fetch));
  }

  method VisitQueries(v: Visitor, nodes: seq<Query>) returns (queries: seq<Query>)
    ensures queries == VisitQs(RulesOf(v), nodes)
  {
    queries := nodes;
    for i := 0 to |nodes|
      invariant |queries| == |nodes|
      invariant forall k :: 0 <= k < i ==> queries[k] == VisitQ(RulesOf(v), nodes[k])
      invariant queries[i..] == nodes[i..]
    {
      assert queries[i] == nodes[i];
      var q := VisitQuery(v, queries[i]);
      queries := queries[i := q];
    }
  }

  method VisitWhole(v: Visitor, node: Statement) returns (stmt: Statement)
    ensures stmt == VisitStatement(RulesOf(v), node)
  {
    match node
    case QueryStatement(query) =>
      var q := VisitQuery(v, query);
      stmt := QueryStatement(q);
    case Command(text, exprs, queries) =>
      var es := VisitExprs(v, exprs);
      var qs := VisitQueries(v, queries);
      stmt := Command(text, es, qs);
  }
}
