/**
 * The high-level IR and its lowering from the parser's tree
 * (typort-interpreter/src/hir.rs). The lowering is a structural copy except for
 * `for (v <- from until to) body`, which becomes
 * `let v = from; while (v != to) { body; v = v + 1 }`.
 */
module Hir {
  import opened Base
  import Ast

  datatype Expression =
    | Int(value: i64)
    | Bool(b: bool)
    | Name(name: string)
    | Add(left: Expression, right: Expression)
    | Sub(left: Expression, right: Expression)
    | Mul(left: Expression, right: Expression)
    | Div(left: Expression, right: Expression)
    | Eq(left: Expression, right: Expression)
    | Neq(left: Expression, right: Expression)
    | Call(callee: string, args: seq<Expression>)
    | If(cond: Expression, thenBlock: seq<Stmt>, elseBlock: ElseBlock)

  /** The optional `else` block of an `if` (`Option<Vec<Stmt>>`). */
  datatype ElseBlock = NoElse | Else(stmts: seq<Stmt>)

  /** The statement kinds of the HIR: there is no `For`. */
  datatype Stmt =
    | Expr(e: Expression)
    | Let(name: string, e: Expression)
    | Assign(name: string, e: Expression)
    | Return(e: Expression)
    | While(cond: Expression, body: seq<Stmt>)

  datatype Func = Func(name: string, params: seq<(string, string)>, returnType: Option<string>, block: seq<Stmt>)

  /** `From<parser Expression> for Expression`. */
  function FromAst(e: Ast.Expression): Expression
    decreases e
  {
    match e
    case Int(x) => Int(x)
    case Bool(b) => Bool(b)
    case Name(n) => Name(n)
    case Add(l, r) => Add(FromAst(l), FromAst(r))
    case Sub(l, r) => Sub(FromAst(l), FromAst(r))
    case Mul(l, r) => Mul(FromAst(l), FromAst(r))
    case Div(l, r) => Div(FromAst(l), FromAst(r))
    case Eq(l, r) => Eq(FromAst(l), FromAst(r))
    case Neq(l, r) => Neq(FromAst(l), FromAst(r))
    case Call(n, args) => Call(n, FromAstArgs(args))
    case If(c, t, NoElse) => If(FromAst(c), ConvertBlock(t), NoElse)
    case If(c, t, Else(b)) => If(FromAst(c), ConvertBlock(t), Else(ConvertBlock(b)))
  }

  /** The arguments of a call, converted one by one (`map(into)`). */
  function FromAstArgs(es: seq<Ast.Expression>): (r: seq<Expression>)
    ensures |r| == |es|
    decreases es
  {
    if es == [] then [] else [FromAst(es[0])] + FromAstArgs(es[1..])
  }

  /** The same statement kind on both sides of the lowering. */
  predicate SameKind(s: Ast.Stmt, h: Stmt)
  {
    && (s.Expr? <==> h.Expr?)
    && (s.Let? <==> h.Let?)
    && (s.Assign? <==> h.Assign?)
    && (s.Return? <==> h.Return?)
    && (s.While? <==> h.While?)
  }

  /** `convert_stmt`: one statement of the same kind, or two for a `for` loop. */
  function ConvertStmt(s: Ast.Stmt): (r: seq<Stmt>)
    ensures !s.For? ==> |r| == 1 && SameKind(s, r[0])
    ensures s.For? ==> |r| == 2 && r[0].Let? && r[1].While?
    decreases s
  {
    match s
    case Expr(e) => [Expr(FromAst(e))]
    case Let(n, e) => [Let(n, FromAst(e))]
    case Assign(n, e) => [Assign(n, FromAst(e))]
    case Return(e) => [Return(FromAst(e))]
    case While(c, b) => [While(FromAst(c), ConvertBlock(b))]
    case For(v, from, to, b) =>
      [ Let(v, FromAst(from)),
        While(Neq(Name(v), FromAst(to)), ConvertBlock(b) + [Assign(v, Add(Name(v), Int(1)))]) ]
  }

  /** `flat_map(convert_stmt)` over a block. */
  function ConvertBlock(ss: seq<Ast.Stmt>): seq<Stmt>
    decreases ss
  {
    if ss == [] then [] else ConvertStmt(ss[0]) + ConvertBlock(ss[1..])
  }

  /** `parse_to_hir`: every function in order, with its name, parameters and return type. */
  function ParseToHir(fs: seq<Ast.Func>): (r: seq<Func>)
    ensures |r| == |fs|
    ensures forall i :: 0 <= i < |fs| ==>
      && r[i].name == fs[i].name
      && |r[i].params| == |fs[i].params|
      && (forall k :: 0 <= k < |fs[i].params| ==> r[i].params[k] == (fs[i].params[k].name, fs[i].params[k].ty))
      && r[i].returnType == fs[i].returnType
      && r[i].block == ConvertBlock(fs[i].block)
  {
    if fs == [] then []
    else
      var f := fs[0];
      var params := seq(|f.params|, k requires 0 <= k < |f.params| => (f.params[k].name, f.params[k].ty));
      [Func(f.name, params, f.returnType, ConvertBlock(f.block))] + ParseToHir(fs[1..])
  }

  // ----- The HIR as a fragment of the parser's tree -----

  function EmbedExpr(h: Expression): Ast.Expression
    decreases h
  {
    match h
    case Int(x) => Ast.Int(x)
    case Bool(b) => Ast.Bool(b)
    case Name(n) => Ast.Name(n)
    case Add(l, r) => Ast.Add(EmbedExpr(l), EmbedExpr(r))
    case Sub(l, r) => Ast.Sub(EmbedExpr(l), EmbedExpr(r))
    case Mul(l, r) => Ast.Mul(EmbedExpr(l), EmbedExpr(r))
    case Div(l, r) => Ast.Div(EmbedExpr(l), EmbedExpr(r))
    case Eq(l, r) => Ast.Eq(EmbedExpr(l), EmbedExpr(r))
    case Neq(l, r) => Ast.Neq(EmbedExpr(l), EmbedExpr(r))
    case Call(n, args) => Ast.Call(n, EmbedArgs(args))
    case If(c, t, NoElse) => Ast.If(EmbedExpr(c), EmbedBlock(t), Ast.NoElse)
    case If(c, t, Else(b)) => Ast.If(EmbedExpr(c), EmbedBlock(t), Ast.Else(EmbedBlock(b)))
  }

  function EmbedArgs(hs: seq<Expression>): seq<Ast.Expression>
    decreases hs
  {
    if hs == [] then [] else [EmbedExpr(hs[0])] + EmbedArgs(hs[1..])
  }

  function EmbedStmt(h: Stmt): Ast.Stmt
    decreases h
  {
    match h
    case Expr(e) => Ast.Expr(EmbedExpr(e))
    case Let(n, e) => Ast.Let(n, EmbedExpr(e))
    case Assign(n, e) => Ast.Assign(n, EmbedExpr(e))
    case Return(e) => Ast.Return(EmbedExpr(e))
    case While(c, b) => Ast.While(EmbedExpr(c), EmbedBlock(b))
  }

  function EmbedBlock(hs: seq<Stmt>): seq<Ast.Stmt>
    decreases hs
  {
    if hs == [] then [] else [EmbedStmt(hs[0])] + EmbedBlock(hs[1..])
  }

  // ----- Properties of the lowering -----

  /** Lowering an embedded HIR tree gives it back: every HIR tree is the lowering of a parser tree. */
  lemma {:induction false} LowerEmbedExpr(h: Expression)
    ensures FromAst(EmbedExpr(h)) == h
    decreases h, 1
  {
    match h
    case Int(_) =>
    case Bool(_) =>
    case Name(_) =>
    case Add(l, r) => LowerEmbedExpr(l); LowerEmbedExpr(r);
    case Sub(l, r) => LowerEmbedExpr(l); LowerEmbedExpr(r);
    case Mul(l, r) => LowerEmbedExpr(l); LowerEmbedExpr(r);
    case Div(l, r) => LowerEmbedExpr(l); LowerEmbedExpr(r);
    case Eq(l, r) => LowerEmbedExpr(l); LowerEmbedExpr(r);
    case Neq(l, r) => LowerEmbedExpr(l); LowerEmbedExpr(r);
    case Call(_, args) => LowerEmbedArgs(args);
    case If(c, t, eb) => LowerEmbedIf(c, t, eb);
  }

  lemma {:induction false} LowerEmbedIf(c: Expression, t: seq<Stmt>, eb: ElseBlock)
    ensures FromAst(EmbedExpr(If(c, t, eb))) == If(c, t, eb)
    decreases If(c, t, eb), 0
  {
    var c', t' := EmbedExpr(c), EmbedBlock(t);
    LowerEmbedExpr(c);
    LowerEmbedBlock(t);
    match eb
    case NoElse =>
      calc {
        FromAst(EmbedExpr(If(c, t, NoElse)));
        FromAst(Ast.If(c', t', Ast.NoElse));
        If(FromAst(c'), ConvertBlock(t'), NoElse);
      }
    case Else(b) =>
      var b' := EmbedBlock(b);
      LowerEmbedBlock(b);
      calc {
        FromAst(EmbedExpr(If(c, t, Else(b))));
        FromAst(Ast.If(c', t', Ast.Else(b')));
        If(FromAst(c'), ConvertBlock(t'), Else(ConvertBlock(b')));
      }
  }

  lemma {:induction false} LowerEmbedArgs(hs: seq<Expression>)
    ensures FromAstArgs(EmbedArgs(hs)) == hs
    decreases hs
  {
    if hs != [] {
      LowerEmbedExpr(hs[0]);
      LowerEmbedArgs(hs[1..]);
    }
  }

  lemma {:induction false} LowerEmbedBlock(hs: seq<Stmt>)
    ensures ConvertBlock(EmbedBlock(hs)) == hs
    decreases hs
  {
    if hs != [] {
      var e := EmbedBlock(hs);
      assert e[0] == EmbedStmt(hs[0]) && e[1..] == EmbedBlock(hs[1..]);
      LowerEmbedStmt(hs[0]);
      LowerEmbedBlock(hs[1..]);
    }
  }

  lemma {:induction false} LowerEmbedStmt(h: Stmt)
    ensures ConvertStmt(EmbedStmt(h)) == [h]
    decreases h
  {
    match h
    case Expr(x) => LowerEmbedExpr(x);
    case Let(_, x) => LowerEmbedExpr(x);
    case Assign(_, x) => LowerEmbedExpr(x);
    case Return(x) => LowerEmbedExpr(x);
    case While(c, b) => LowerEmbedExpr(c); LowerEmbedBlock(b);
  }

  /** On a tree without `for` loops the lowering changes nothing. */
  lemma {:induction false} EmbedLowerExpr(e: Ast.Expression)
    requires Ast.ExprForFree(e)
    ensures EmbedExpr(FromAst(e)) == e
    decreases e, 1
  {
    match e
    case Int(_) =>
    case Bool(_) =>
    case Name(_) =>
    case Add(l, r) => EmbedLowerExpr(l); EmbedLowerExpr(r);
    case Sub(l, r) => EmbedLowerExpr(l); EmbedLowerExpr(r);
    case Mul(l, r) => EmbedLowerExpr(l); EmbedLowerExpr(r);
    case Div(l, r) => EmbedLowerExpr(l); EmbedLowerExpr(r);
    case Eq(l, r) => EmbedLowerExpr(l); EmbedLowerExpr(r);
    case Neq(l, r) => EmbedLowerExpr(l); EmbedLowerExpr(r);
    case Call(_, args) => EmbedLowerArgs(args);
    case If(_, _, _) => EmbedLowerIf(e);
  }

  lemma {:induction false} EmbedLowerIf(e: Ast.Expression)
    requires e.If? && Ast.ExprForFree(e)
    ensures EmbedExpr(FromAst(e)) == e
    decreases e, 0
  {
    var c, t := e.cond, e.thenBlock;
    var c', t' := FromAst(c), ConvertBlock(t);
    EmbedLowerExpr(c);
    EmbedLowerBlock(t);
    match e.elseBlock
    case NoElse =>
      calc {
        EmbedExpr(FromAst(Ast.If(c, t, Ast.NoElse)));
        EmbedExpr(If(c', t', NoElse));
        Ast.If(EmbedExpr(c'), EmbedBlock(t'), Ast.NoElse);
      }
    case Else(b) =>
      var b' := ConvertBlock(b);
      EmbedLowerBlock(b);
      calc {
        EmbedExpr(FromAst(Ast.If(c, t, Ast.Else(b))));
        EmbedExpr(If(c', t', Else(b')));
        Ast.If(EmbedExpr(c'), EmbedBlock(t'), Ast.Else(EmbedBlock(b')));
      }
  }

  lemma {:induction false} EmbedLowerArgs(es: seq<Ast.Expression>)
    requires Ast.ArgsForFree(es)
    ensures EmbedArgs(FromAstArgs(es)) == es
    decreases es
  {
    if es != [] {
      EmbedLowerExpr(es[0]);
      EmbedLowerArgs(es[1..]);
    }
  }

  lemma {:induction false} EmbedLowerBlock(ss: seq<Ast.Stmt>)
    requires Ast.ForFree(ss)
    ensures EmbedBlock(ConvertBlock(ss)) == ss
    decreases ss
  {
    if ss != [] {
      EmbedLowerStmt(ss[0]);
      EmbedLowerBlock(ss[1..]);
      var c := ConvertBlock(ss);
      assert c == ConvertStmt(ss[0]) + ConvertBlock(ss[1..]);
      assert c[0] == ConvertStmt(ss[0])[0] && c[1..] == ConvertBlock(ss[1..]);
    }
  }

  lemma {:induction false} EmbedLowerStmt(s: Ast.Stmt)
    requires Ast.StmtForFree(s)
    ensures |ConvertStmt(s)| == 1 && EmbedStmt(ConvertStmt(s)[0]) == s
    decreases s
  {
    match s
    case Expr(x) => EmbedLowerExpr(x);
    case Let(_, x) => EmbedLowerExpr(x);
    case Assign(_, x) => EmbedLowerExpr(x);
    case Return(x) => EmbedLowerExpr(x);
    case While(c, b) => EmbedLowerExpr(c); EmbedLowerBlock(b);
  }

  /** The lowering's output, read back as a parser tree, never contains a `for` loop. */
  lemma {:induction false} EmbedIsForFree(hs: seq<Stmt>)
    ensures Ast.ForFree(EmbedBlock(hs))
    decreases hs
  {
    if hs != [] {
      var e := EmbedBlock(hs);
      assert e[0] == EmbedStmt(hs[0]) && e[1..] == EmbedBlock(hs[1..]);
      EmbedStmtIsForFree(hs[0]);
      EmbedIsForFree(hs[1..]);
    }
  }

  lemma {:induction false} EmbedStmtIsForFree(h: Stmt)
    ensures Ast.StmtForFree(EmbedStmt(h))
    decreases h
  {
    match h
    case Expr(x) => EmbedExprIsForFree(x);
    case Let(_, x) => EmbedExprIsForFree(x);
    case Assign(_, x) => EmbedExprIsForFree(x);
    case Return(x) => EmbedExprIsForFree(x);
    case While(c, b) => EmbedExprIsForFree(c); EmbedIsForFree(b);
  }

  lemma {:induction false} EmbedExprIsForFree(h: Expression)
    ensures Ast.ExprForFree(EmbedExpr(h))
    decreases h
  {
    match h
    case Int(_) =>
    case Bool(_) =>
    case Name(_) =>
    case Add(l, r) => EmbedExprIsForFree(l); EmbedExprIsForFree(r);
    case Sub(l, r) => EmbedExprIsForFree(l); EmbedExprIsForFree(r);
    case Mul(l, r) => EmbedExprIsForFree(l); EmbedExprIsForFree(r);
    case Div(l, r) => EmbedExprIsForFree(l); EmbedExprIsForFree(r);
    case Eq(l, r) => EmbedExprIsForFree(l); EmbedExprIsForFree(r);
    case Neq(l, r) => EmbedExprIsForFree(l); EmbedExprIsForFree(r);
    case Call(_, args) => EmbedArgsIsForFree(args);
    case If(c, t, NoElse) => EmbedExprIsForFree(c); EmbedIsForFree(t);
    case If(c, t, Else(b)) => EmbedExprIsForFree(c); EmbedIsForFree(t); EmbedIsForFree(b);
  }

  lemma {:induction false} EmbedArgsIsForFree(hs: seq<Expression>)
    ensures Ast.ArgsForFree(EmbedArgs(hs))
    decreases hs
  {
    if hs != [] {
      var e := EmbedArgs(hs);
      assert e[0] == EmbedExpr(hs[0]) && e[1..] == EmbedArgs(hs[1..]);
      EmbedExprIsForFree(hs[0]);
      EmbedArgsIsForFree(hs[1..]);
    }
  }

  /** Each top-level `for` adds exactly one statement to a lowered block. */
  lemma {:induction false} ConvertBlockLength(ss: seq<Ast.Stmt>)
    ensures |ConvertBlock(ss)| == |ss| + Ast.TopLevelFors(ss)
    decreases ss
  {
    if ss != [] { ConvertBlockLength(ss[1..]); }
  }

  /** Lowering a block is lowering its parts: `flat_map` distributes over concatenation. */
  lemma {:induction false} ConvertBlockAppend(a: seq<Ast.Stmt>, b: seq<Ast.Stmt>)
    ensures ConvertBlock(a + b) == ConvertBlock(a) + ConvertBlock(b)
    decreases a
  {
    if a != [] {
      assert (a + b)[0] == a[0] && (a + b)[1..] == a[1..] + b;
      ConvertBlockAppend(a[1..], b);
      calc {
        ConvertBlock(a + b);
        ConvertStmt(a[0]) + ConvertBlock(a[1..] + b);
        ConvertStmt(a[0]) + (ConvertBlock(a[1..]) + ConvertBlock(b));
        (ConvertStmt(a[0]) + ConvertBlock(a[1..])) + ConvertBlock(b);
      }
    } else {
      assert a + b == b;
    }
  }

  /**
   * The desugaring law: `for (v <- from until to) body` becomes a `let` of `v` to
   * `from`, then a loop that runs while `v != to` (an exclusive bound) and whose
   * body is the lowered `body` followed by exactly one `v = v + 1`.
   */
  lemma ForDesugaring(v: string, from: Ast.Expression, to: Ast.Expression, body: seq<Ast.Stmt>)
    ensures var r := ConvertStmt(Ast.For(v, from, to, body));
      && |r| == 2
      && r[0] == Let(v, FromAst(from))
      && r[1].While? && r[1].cond == Neq(Name(v), FromAst(to))
      && |r[1].body| == |ConvertBlock(body)| + 1
      && r[1].body[..|ConvertBlock(body)|] == ConvertBlock(body)
      && r[1].body[|ConvertBlock(body)|] == Assign(v, Add(Name(v), Int(1)))
  {
    var r := ConvertStmt(Ast.For(v, from, to, body));
    assert r[1].body[..|ConvertBlock(body)|] == ConvertBlock(body);
  }
}
