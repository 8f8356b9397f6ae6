/**
 * The parser's syntax tree (`typort_parser::simple_example`, typort-parser/src/lib.rs).
 * The statement kinds are those the HIR lowering consumes: besides `Expr`, `Let` and
 * `Return`, which the parser crate declares, it also matches `Assign`, `While` and
 * `For`. Source positions are dropped because the lowering keeps only `data`.
 */
module Ast {
  import opened Base

  datatype Expression =
    | Int(value: i64)
    | Bool(b: bool)
    | Name(name: string)
    | Add(left: Expression, right: Expression)
    | Sub(left: Expression, right: Expression)
    | Mul(left: Expression, right: Expression)
    | Div(left: Expression, right: Expression)
    | Eq(left: Expression, right: Expression)
    | Neq(left: Expression, right: Expression)
    | Call(callee: string, args: seq<Expression>)
    | If(cond: Expression, thenBlock: seq<Stmt>, elseBlock: ElseBlock)

  /** The optional `else` block of an `if` (`Option<Vec<Stmt>>`). */
  datatype ElseBlock = NoElse | Else(stmts: seq<Stmt>)

  datatype Stmt =
    | Expr(e: Expression)
    | Let(name: string, e: Expression)
    | Assign(name: string, e: Expression)
    | Return(e: Expression)
    | While(cond: Expression, body: seq<Stmt>)
    | For(loopVar: string, from: Expression, to: Expression, body: seq<Stmt>)

  /** A parameter: its name and the name of its type. */
  datatype Param = Param(name: string, ty: string)

  datatype Func = Func(name: string, params: seq<Param>, returnType: Option<string>, block: seq<Stmt>)

  /** No `for` loop occurs anywhere in the expression, including nested blocks. */
  predicate ExprForFree(e: Expression)
    decreases e
  {
    match e
    case Int(_) => true
    case Bool(_) => true
    case Name(_) => true
    case Add(l, r) => ExprForFree(l) && ExprForFree(r)
    case Sub(l, r) => ExprForFree(l) && ExprForFree(r)
    case Mul(l, r) => ExprForFree(l) && ExprForFree(r)
    case Div(l, r) => ExprForFree(l) && ExprForFree(r)
    case Eq(l, r) => ExprForFree(l) && ExprForFree(r)
    case Neq(l, r) => ExprForFree(l) && ExprForFree(r)
    case Call(_, args) => ArgsForFree(args)
    case If(c, t, NoElse) => ExprForFree(c) && ForFree(t)
    case If(c, t, Else(b)) => ExprForFree(c) && ForFree(t) && ForFree(b)
  }

  predicate ArgsForFree(es: seq<Expression>)
    decreases es
  {
    es == [] || (ExprForFree(es[0]) && ArgsForFree(es[1..]))
  }

  predicate StmtForFree(s: Stmt)
    decreases s
  {
    match s
    case Expr(e) => ExprForFree(e)
    case Let(_, e) => ExprForFree(e)
    case Assign(_, e) => ExprForFree(e)
    case Return(e) => ExprForFree(e)
    case While(c, b) => ExprForFree(c) && ForFree(b)
    case For(_, _, _, _) => false
  }

  predicate ForFree(ss: seq<Stmt>)
    decreases ss
  {
    ss == [] || (StmtForFree(ss[0]) && ForFree(ss[1..]))
  }

  /** The number of `for` statements at the top level of a block. */
  function TopLevelFors(ss: seq<Stmt>): nat
  {
    if ss == [] then 0 else (if ss[0].For? then 1 else 0) + TopLevelFors(ss[1..])
  }
}
