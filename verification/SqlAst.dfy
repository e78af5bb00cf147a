/**
  The part of sqlparser's syntax tree that the rewriter looks at or walks
  through: expressions, queries and everything a query can be nested in.
 */
module SqlAst {
  import opened Options

  /** An identifier; `quoted` records PostgreSQL's double quotes. */
  datatype Ident = Ident(value: string, quoted: bool)

  /** Literals. A number carries the value its text denotes and whether the text is digits only. */
  datatype Literal = NullLit | BoolLit(b: bool) | NumberLit(n: real, digits: bool) | TextLit(s: string)

  datatype CastKind = CastCall | DoubleColon | TryCast | SafeCast

  datatype DataType =
    | Text | Varchar(length: Option<nat>)
    | Int2(width: Option<nat>) | SmallInt(width: Option<nat>)
    | Int4(width: Option<nat>) | Integer(width: Option<nat>)
    | Int8(width: Option<nat>) | BigInt(width: Option<nat>)
    | Float4 | Real | Float8 | DoublePrecision
    | Bool | Boolean
    | Bytea | Varbinary(length: Option<nat>)
    | ArrayOf(elem: DataType)
    | OtherType(name: string)

  /** A type name only PostgreSQL has; elements of arrays are not looked at. */
  predicate PostgresOnly(t: DataType) {
    t.Text? || t.Int2? || t.Int4? || t.Int8? || t.Float4? || t.Float8? || t.Bool? || t.Bytea?
  }

  /** What a type name stands for, in either engine. */
  datatype Sort =
    | Characters(max: Option<nat>) | WholeNumber(bytes: nat) | Floating(bytes: nat) | TruthValue | Octets(max: Option<nat>)
    | ListOf(elem: Sort) | Named(name: string)

  function SortOf(t: DataType): Sort {
    match t
    case Text => Characters(None)
    case Varchar(n) => Characters(n)
    case Int2(_) => WholeNumber(2)
    case SmallInt(_) => WholeNumber(2)
    case Int4(_) => WholeNumber(4)
    case Integer(_) => WholeNumber(4)
    case Int8(_) => WholeNumber(8)
    case BigInt(_) => WholeNumber(8)
    case Float4 => Floating(4)
    case Real => Floating(4)
    case Float8 => Floating(8)
    case DoublePrecision => Floating(8)
    case Bool => TruthValue
    case Boolean => TruthValue
    case Bytea => Octets(None)
    case Varbinary(n) => Octets(n)
    case ArrayOf(elem) => ListOf(SortOf(elem))
    case OtherType(name) => Named(name)
  }

  /** Function arguments: no parentheses at all, `f(SELECT ...)`, or a list. */
  datatype Args = NoArgs | QueryArg(query: Query) | ArgList(args: seq<Expr>)

  datatype Expr =
    | Column(name: Ident)
    | Lit(lit: Literal)
    | Wildcard
    | Op(op: string, operands: seq<Expr>)
    | Cast(kind: CastKind, arg: Expr, ty: DataType)
    | Like(negated: bool, any: bool, subject: Expr, pattern: Expr, escape: Option<char>)
    | ILike(negated: bool, any: bool, subject: Expr, pattern: Expr, escape: Option<char>)
    | Call(fn: seq<Ident>, args: Args, filter: Option<Expr>)
    | SubQuery(form: string, operands: seq<Expr>, query: Query)

  /** Query bodies and FROM items. */
  datatype Rel =
    | NoFrom
    | Table(name: string)
    | Derived(query: Query, alias: string)
    | Join(kind: string, left: Rel, right: Rel, on: Option<Expr>)
    | Select(distinct: bool, items: seq<Expr>, names: seq<string>, from: Rel,
             where: Option<Expr>, groupBy: seq<Expr>, having: Option<Expr>)
    | SetOp(op: string, left: Rel, right: Rel)
    | Values(width: nat, cells: seq<Expr>)

  datatype LimitClause =
    | LimitOffset(limit: Option<Expr>, offset: Option<Expr>, limitBy: seq<Expr>)
    | OffsetComma(skip: Option<Expr>, count: Option<Expr>)

  datatype Fetch = Fetch(withTies: bool, percent: bool, quantity: Option<Expr>)

  datatype Cte = Cte(name: string, query: Query)

  datatype Query = Query(ctes: seq<Cte>, body: Rel, orderBy: seq<Expr>,
                         limitClause: Option<LimitClause>, fetch: Option<Fetch>)

  /** What the parser hands over: a query, or a command such as INSERT with the expressions and queries in it. */
  datatype Statement = QueryStatement(query: Query) | Command(text: string, exprs: seq<Expr>, queries: seq<Query>)

  /**
    Every expression node satisfies `pe` and every query node satisfies `pq`, at any depth.
   */
  ghost predicate EveryE(e: Expr, pe: Expr -> bool, pq: Query -> bool)
    decreases e
  {
    && pe(e)
    && match e
       case Column(_) => true
       case Lit(_) => true
       case Wildcard => true
       case Op(_, xs) => EveryEs(xs, pe, pq)
       case Cast(_, x, _) => EveryE(x, pe, pq)
       case Like(_, _, x, p, _) => EveryE(x, pe, pq) && EveryE(p, pe, pq)
       case ILike(_, _, x, p, _) => EveryE(x, pe, pq) && EveryE(p, pe, pq)
       case Call(_, args, filter) =>
         && EveryO(filter, pe, pq)
         && (match args
             case NoArgs => true
             case QueryArg(q) => EveryQ(q, pe, pq)
             case ArgList(xs) => EveryEs(xs, pe, pq))
       case SubQuery(_, xs, q) => EveryEs(xs, pe, pq) && EveryQ(q, pe, pq)
  }

  ghost predicate EveryEs(es: seq<Expr>, pe: Expr -> bool, pq: Query -> bool)
    decreases es
  {
    forall i :: 0 <= i < |es| ==> EveryE(es[i], pe, pq)
  }

  ghost predicate EveryO(o: Option<Expr>, pe: Expr -> bool, pq: Query -> bool)
    decreases o
  {
    o.Some? ==> EveryE(o.value, pe, pq)
  }

  ghost predicate EveryR(r: Rel, pe: Expr -> bool, pq: Query -> bool)
    decreases r
  {
    match r
    case NoFrom => true
    case Table(_) => true
    case Derived(q, _) => EveryQ(q, pe, pq)
    case Join(_, a, b, on) => EveryR(a, pe, pq) && EveryR(b, pe, pq) && EveryO(on, pe, pq)
    case Select(_, items, _, from, w, g, h) =>
      EveryEs(items, pe, pq) && EveryR(from, pe, pq) && EveryO(w, pe, pq) && EveryEs(g, pe, pq) && EveryO(h, pe, pq)
    case SetOp(_, a, b) => EveryR(a, pe, pq) && EveryR(b, pe, pq)
    case Values(_, cells) => EveryEs(cells, pe, pq)
  }

  ghost predicate EveryQ(q: Query, pe: Expr -> bool, pq: Query -> bool)
    decreases q
  {
    && pq(q)
    && EveryCs(q.ctes, pe, pq)
    && EveryR(q.body, pe, pq)
    && EveryEs(q.orderBy, pe, pq)
    && EveryL(q.limitClause, pe, pq)
    && EveryF(q.fetch, pe, pq)
  }

  ghost predicate EveryL(l: Option<LimitClause>, pe: Expr -> bool, pq: Query -> bool)
    decreases l
  {
    match l
    case None => true
    case Some(LimitOffset(n, m, ks)) => EveryO(n, pe, pq) && EveryO(m, pe, pq) && EveryEs(ks, pe, pq)
    case Some(OffsetComma(m, n)) => EveryO(m, pe, pq) && EveryO(n, pe, pq)
  }

  ghost predicate EveryF(f: Option<Fetch>, pe: Expr -> bool, pq: Query -> bool)
    decreases f
  {
    f.Some? ==> EveryO(f.value.quantity, pe, pq)
  }

  ghost predicate EveryCs(cs: seq<Cte>, pe: Expr -> bool, pq: Query -> bool)
    decreases cs
  {
    forall i :: 0 <= i < |cs| ==> EveryQ(cs[i].query, pe, pq)
  }
}
