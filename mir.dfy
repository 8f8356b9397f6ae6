/**
 * The mid-level IR and its lowering from the HIR (typort-interpreter/src/mir.rs).
 *
 * The IR is generic in the payload `N` of `Name`, `Let` and `Assign`: the lowering
 * copies names (`N = string`), while the interpreter (vm.rs) reads that payload as
 * an integer stack slot (`N = nat`). The interpreter also consumes a string-literal
 * variant `String(heapId, text)` that the lowering never produces; it is part of
 * the union here.
 */
module Mir {
  import opened Base
  import Ast
  import Hir

  datatype Expression<N> =
    | Int(value: i64)
    | Bool(b: bool)
    | Name(name: N)
    | String(heapId: nat, text: string)
    | Add(left: Expression<N>, right: Expression<N>)
    | Sub(left: Expression<N>, right: Expression<N>)
    | Mul(left: Expression<N>, right: Expression<N>)
    | Div(left: Expression<N>, right: Expression<N>)
    | Eq(left: Expression<N>, right: Expression<N>)
    | Neq(left: Expression<N>, right: Expression<N>)
    | Call(callee: string, args: seq<Expression<N>>)
    | If(cond: Expression<N>, thenBlock: seq<Stmt<N>>, elseBlock: ElseBlock<N>)

  /** The optional `else` block of an `if`. */
  datatype ElseBlock<N> = NoElse | Else(stmts: seq<Stmt<N>>)

  datatype Stmt<N> =
    | Expr(e: Expression<N>)
    | Let(name: N, e: Expression<N>)
    | Assign(name: N, e: Expression<N>)
    | Return(e: Expression<N>)
    | While(cond: Expression<N>, body: seq<Stmt<N>>)

  /** A function: its name, its `(name, type)` parameters, return type and body. */
  datatype Func<N> = Func(name: string, params: seq<(string, string)>, returnType: Option<string>, block: seq<Stmt<N>>)

  // ----- Sizes, the termination measure of everything that walks a tree -----

  function ExprSize<N>(e: Expression<N>): (n: nat)
    ensures n >= 1
    decreases e
  {
    match e
    case Int(_) => 1
    case Bool(_) => 1
    case Name(_) => 1
    case String(_, _) => 1
    case Add(l, r) => 2 + ExprSize(l) + ExprSize(r)
    case Sub(l, r) => 2 + ExprSize(l) + ExprSize(r)
    case Mul(l, r) => 2 + ExprSize(l) + ExprSize(r)
    case Div(l, r) => 2 + ExprSize(l) + ExprSize(r)
    case Eq(l, r) => 2 + ExprSize(l) + ExprSize(r)
    case Neq(l, r) => 2 + ExprSize(l) + ExprSize(r)
    case Call(_, args) => 1 + ListSize(args)
    case If(c, t, NoElse) => 1 + ExprSize(c) + BlockSize(t)
    case If(c, t, Else(b)) => 1 + ExprSize(c) + BlockSize(t) + BlockSize(b)
  }

  function ListSize<N>(es: seq<Expression<N>>): (n: nat)
    ensures n >= 1
    decreases es
  {
    if es == [] then 1 else ExprSize(es[0]) + ListSize(es[1..])
  }

  function StmtSize<N>(s: Stmt<N>): (n: nat)
    ensures n >= 1
    decreases s
  {
    match s
    case Expr(e) => 1 + ExprSize(e)
    case Let(_, e) => 1 + ExprSize(e)
    case Assign(_, e) => 1 + ExprSize(e)
    case Return(e) => 1 + ExprSize(e)
    case While(c, b) => 2 + ExprSize(c) + BlockSize(b)
  }

  function BlockSize<N>(ss: seq<Stmt<N>>): (n: nat)
    ensures n >= 1
    decreases ss
  {
    if ss == [] then 1 else StmtSize(ss[0]) + BlockSize(ss[1..])
  }

  /** Every argument is smaller than the argument list. */
  lemma ArgSmaller<N>(es: seq<Expression<N>>, i: nat)
    requires i < |es|
    ensures ExprSize(es[i]) < ListSize(es)
    decreases i
  {
    if i > 0 {
      ArgSmaller(es[1..], i - 1);
    }
  }

  /** Every statement is smaller than its block. */
  lemma StmtSmaller<N>(ss: seq<Stmt<N>>, i: nat)
    requires i < |ss|
    ensures StmtSize(ss[i]) < BlockSize(ss)
    decreases i
  {
    if i > 0 {
      StmtSmaller(ss[1..], i - 1);
    }
  }

  // ----- The lowering from the HIR -----

  /** `From<hir::Expression> for Expression`. */
  function FromHir(h: Hir.Expression): (m: Expression<string>)
    ensures Mirrors(h, m)
    decreases h
  {
    match h
    case Int(x) => Int(x)
    case Bool(b) => Bool(b)
    case Name(n) => Name(n)
    case Add(l, r) => Add(FromHir(l), FromHir(r))
    case Sub(l, r) => Sub(FromHir(l), FromHir(r))
    case Mul(l, r) => Mul(FromHir(l), FromHir(r))
    case Div(l, r) => Div(FromHir(l), FromHir(r))
    case Eq(l, r) => Eq(FromHir(l), FromHir(r))
    case Neq(l, r) => Neq(FromHir(l), FromHir(r))
    case Call(n, args) => Call(n, FromHirArgs(args))
    case If(c, t, NoElse) => If(FromHir(c), FromHirBlock(t), NoElse)
    case If(c, t, Else(b)) => If(FromHir(c), FromHirBlock(t), Else(FromHirBlock(b)))
  }

  /**
   * One level of an expression and its lowering agree: the same variant, the same
   * literal payload, name and callee, as many arguments, blocks of the same length,
   * and an `else` block exactly when the HIR has one.
   */
  predicate Mirrors(h: Hir.Expression, m: Expression<string>)
  {
    && (h.Int? <==> m.Int?) && (h.Int? ==> h.value == m.value)
    && (h.Bool? <==> m.Bool?) && (h.Bool? ==> h.b == m.b)
    && (h.Name? <==> m.Name?) && (h.Name? ==> h.name == m.name)
    && (h.Add? <==> m.Add?) && (h.Sub? <==> m.Sub?) && (h.Mul? <==> m.Mul?)
    && (h.Div? <==> m.Div?) && (h.Eq? <==> m.Eq?) && (h.Neq? <==> m.Neq?)
    && (h.Call? <==> m.Call?) && (h.Call? ==> h.callee == m.callee && |h.args| == |m.args|)
    && (h.If? <==> m.If?)
    && (h.If? ==>
         && |h.thenBlock| == |m.thenBlock|
         && (h.elseBlock.Else? <==> m.elseBlock.Else?)
         && (h.elseBlock.Else? ==> |h.elseBlock.stmts| == |m.elseBlock.stmts|))
    && !m.String?
  }

  /** The arguments of a call, converted one by one. */
  function FromHirArgs(hs: seq<Hir.Expression>): (r: seq<Expression<string>>)
    ensures |r| == |hs|
    decreases hs
  {
    if hs == [] then [] else [FromHir(hs[0])] + FromHirArgs(hs[1..])
  }

  /** `From<hir::Stmt> for Stmt`: the same kind, the same name, a body of the same length. */
  function FromHirStmt(h: Hir.Stmt): (m: Stmt<string>)
    ensures h.Expr? <==> m.Expr?
    ensures h.Let? <==> m.Let?
    ensures h.Assign? <==> m.Assign?
    ensures h.Return? <==> m.Return?
    ensures h.While? <==> m.While?
    ensures (h.Let? || h.Assign?) ==> m.name == h.name
    ensures h.While? ==> |m.body| == |h.body|
    decreases h
  {
    match h
    case Expr(e) => Expr(FromHir(e))
    case Let(n, e) => Let(n, FromHir(e))
    case Assign(n, e) => Assign(n, FromHir(e))
    case Return(e) => Return(FromHir(e))
    case While(c, b) => While(FromHir(c), FromHirBlock(b))
  }

  /** A block, converted statement by statement. */
  function FromHirBlock(hs: seq<Hir.Stmt>): (r: seq<Stmt<string>>)
    ensures |r| == |hs|
    decreases hs
  {
    if hs == [] then [] else [FromHirStmt(hs[0])] + FromHirBlock(hs[1..])
  }

  /** `hir_to_mir`: every function in order, with its name, parameters and return type. */
  function HirToMir(fs: seq<Hir.Func>): (r: seq<Func<string>>)
    ensures |r| == |fs|
    ensures forall i :: 0 <= i < |fs| ==>
      && r[i].name == fs[i].name
      && r[i].params == fs[i].params
      && r[i].returnType == fs[i].returnType
      && r[i].block == FromHirBlock(fs[i].block)
  {
    if fs == [] then []
    else [Func(fs[0].name, fs[0].params, fs[0].returnType, FromHirBlock(fs[0].block))] + HirToMir(fs[1..])
  }

  // ----- The HIR as the string-free fragment of the MIR -----

  /** No string literal occurs anywhere in the expression. */
  predicate StringFree(e: Expression<string>)
    decreases e
  {
    match e
    case Int(_) => true
    case Bool(_) => true
    case Name(_) => true
    case String(_, _) => false
    case Add(l, r) => StringFree(l) && StringFree(r)
    case Sub(l, r) => StringFree(l) && StringFree(r)
    case Mul(l, r) => StringFree(l) && StringFree(r)
    case Div(l, r) => StringFree(l) && StringFree(r)
    case Eq(l, r) => StringFree(l) && StringFree(r)
    case Neq(l, r) => StringFree(l) && StringFree(r)
    case Call(_, args) => ArgsStringFree(args)
    case If(c, t, NoElse) => StringFree(c) && BlockStringFree(t)
    case If(c, t, Else(b)) => StringFree(c) && BlockStringFree(t) && BlockStringFree(b)
  }

  predicate ArgsStringFree(es: seq<Expression<string>>)
    decreases es
  {
    es == [] || (StringFree(es[0]) && ArgsStringFree(es[1..]))
  }

  predicate StmtStringFree(s: Stmt<string>)
    decreases s
  {
    match s
    case Expr(e) => StringFree(e)
    case Let(_, e) => StringFree(e)
    case Assign(_, e) => StringFree(e)
    case Return(e) => StringFree(e)
    case While(c, b) => StringFree(c) && BlockStringFree(b)
  }

  predicate BlockStringFree(ss: seq<Stmt<string>>)
    decreases ss
  {
    ss == [] || (StmtStringFree(ss[0]) && BlockStringFree(ss[1..]))
  }

  /** Reads a string-free MIR expression back as HIR. */
  function ToHir(m: Expression<string>): Hir.Expression
    requires StringFree(m)
    decreases m
  {
    match m
    case Int(x) => Hir.Int(x)
    case Bool(b) => Hir.Bool(b)
    case Name(n) => Hir.Name(n)
    case Add(l, r) => Hir.Add(ToHir(l), ToHir(r))
    case Sub(l, r) => Hir.Sub(ToHir(l), ToHir(r))
    case Mul(l, r) => Hir.Mul(ToHir(l), ToHir(r))
    case Div(l, r) => Hir.Div(ToHir(l), ToHir(r))
    case Eq(l, r) => Hir.Eq(ToHir(l), ToHir(r))
    case Neq(l, r) => Hir.Neq(ToHir(l), ToHir(r))
    case Call(n, args) => Hir.Call(n, ToHirArgs(args))
    case If(c, t, NoElse) => Hir.If(ToHir(c), ToHirBlock(t), Hir.NoElse)
    case If(c, t, Else(b)) => Hir.If(ToHir(c), ToHirBlock(t), Hir.Else(ToHirBlock(b)))
  }

  function ToHirArgs(ms: seq<Expression<string>>): seq<Hir.Expression>
    requires ArgsStringFree(ms)
    decreases ms
  {
    if ms == [] then [] else [ToHir(ms[0])] + ToHirArgs(ms[1..])
  }

  function ToHirStmt(m: Stmt<string>): Hir.Stmt
    requires StmtStringFree(m)
    decreases m
  {
    match m
    case Expr(e) => Hir.Expr(ToHir(e))
    case Let(n, e) => Hir.Let(n, ToHir(e))
    case Assign(n, e) => Hir.Assign(n, ToHir(e))
    case Return(e) => Hir.Return(ToHir(e))
    case While(c, b) => Hir.While(ToHir(c), ToHirBlock(b))
  }

  function ToHirBlock(ms: seq<Stmt<string>>): seq<Hir.Stmt>
    requires BlockStringFree(ms)
    decreases ms
  {
    if ms == [] then [] else [ToHirStmt(ms[0])] + ToHirBlock(ms[1..])
  }

  // ----- Properties of the lowering -----

  /** The lowering never produces a string literal. */
  lemma {:induction false} FromHirIsStringFree(h: Hir.Expression)
    ensures StringFree(FromHir(h))
    decreases h
  {
    match h
    case Int(_) =>
    case Bool(_) =>
    case Name(_) =>
    case Add(l, r) => FromHirIsStringFree(l); FromHirIsStringFree(r);
    case Sub(l, r) => FromHirIsStringFree(l); FromHirIsStringFree(r);
    case Mul(l, r) => FromHirIsStringFree(l); FromHirIsStringFree(r);
    case Div(l, r) => FromHirIsStringFree(l); FromHirIsStringFree(r);
    case Eq(l, r) => FromHirIsStringFree(l); FromHirIsStringFree(r);
    case Neq(l, r) => FromHirIsStringFree(l); FromHirIsStringFree(r);
    case Call(_, args) => FromHirArgsIsStringFree(args);
    case If(c, t, NoElse) => FromHirIsStringFree(c); FromHirBlockIsStringFree(t);
    case If(c, t, Else(b)) => FromHirIsStringFree(c); FromHirBlockIsStringFree(t); FromHirBlockIsStringFree(b);
  }

  lemma {:induction false} FromHirArgsIsStringFree(hs: seq<Hir.Expression>)
    ensures ArgsStringFree(FromHirArgs(hs))
    decreases hs
  {
    if hs != [] {
      var m := FromHirArgs(hs);
      assert m[0] == FromHir(hs[0]) && m[1..] == FromHirArgs(hs[1..]);
      FromHirIsStringFree(hs[0]);
      FromHirArgsIsStringFree(hs[1..]);
    }
  }

  lemma {:induction false} FromHirStmtIsStringFree(h: Hir.Stmt)
    ensures StmtStringFree(FromHirStmt(h))
    decreases h
  {
    match h
    case Expr(x) => FromHirIsStringFree(x);
    case Let(_, x) => FromHirIsStringFree(x);
    case Assign(_, x) => FromHirIsStringFree(x);
    case Return(x) => FromHirIsStringFree(x);
    case While(c, b) => FromHirIsStringFree(c); FromHirBlockIsStringFree(b);
  }

  lemma {:induction false} FromHirBlockIsStringFree(hs: seq<Hir.Stmt>)
    ensures BlockStringFree(FromHirBlock(hs))
    decreases hs
  {
    if hs != [] {
      var m := FromHirBlock(hs);
      assert m[0] == FromHirStmt(hs[0]) && m[1..] == FromHirBlock(hs[1..]);
      FromHirStmtIsStringFree(hs[0]);
      FromHirBlockIsStringFree(hs[1..]);
    }
  }

  /** Reading a lowered expression back gives the original: the lowering loses nothing. */
  lemma {:induction false} ToHirFromHir(h: Hir.Expression)
    ensures StringFree(FromHir(h)) && ToHir(FromHir(h)) == h
    decreases h
  {
    FromHirIsStringFree(h);
    match h
    case Int(_) =>
    case Bool(_) =>
    case Name(_) =>
    case Add(l, r) => ToHirFromHir(l); ToHirFromHir(r);
    case Sub(l, r) => ToHirFromHir(l); ToHirFromHir(r);
    case Mul(l, r) => ToHirFromHir(l); ToHirFromHir(r);
    case Div(l, r) => ToHirFromHir(l); ToHirFromHir(r);
    case Eq(l, r) => ToHirFromHir(l); ToHirFromHir(r);
    case Neq(l, r) => ToHirFromHir(l); ToHirFromHir(r);
    case Call(_, args) => ToHirFromHirArgs(args);
    case If(c, t, NoElse) => ToHirFromHir(c); ToHirFromHirBlock(t);
    case If(c, t, Else(b)) => ToHirFromHir(c); ToHirFromHirBlock(t); ToHirFromHirBlock(b);
  }

  lemma {:induction false} ToHirFromHirArgs(hs: seq<Hir.Expression>)
    ensures ArgsStringFree(FromHirArgs(hs)) && ToHirArgs(FromHirArgs(hs)) == hs
    decreases hs
  {
    FromHirArgsIsStringFree(hs);
    if hs != [] {
      var m := FromHirArgs(hs);
      assert m[0] == FromHir(hs[0]) && m[1..] == FromHirArgs(hs[1..]);
      ToHirFromHir(hs[0]);
      ToHirFromHirArgs(hs[1..]);
    }
  }

  lemma {:induction false} ToHirFromHirStmt(h: Hir.Stmt)
    ensures StmtStringFree(FromHirStmt(h)) && ToHirStmt(FromHirStmt(h)) == h
    decreases h
  {
    FromHirStmtIsStringFree(h);
    match h
    case Expr(x) => ToHirFromHir(x);
    case Let(_, x) => ToHirFromHir(x);
    case Assign(_, x) => ToHirFromHir(x);
    case Return(x) => ToHirFromHir(x);
    case While(c, b) => ToHirFromHir(c); ToHirFromHirBlock(b);
  }

  lemma {:induction false} ToHirFromHirBlock(hs: seq<Hir.Stmt>)
    ensures BlockStringFree(FromHirBlock(hs)) && ToHirBlock(FromHirBlock(hs)) == hs
    decreases hs
  {
    FromHirBlockIsStringFree(hs);
    if hs != [] {
      var m := FromHirBlock(hs);
      assert m[0] == FromHirStmt(hs[0]) && m[1..] == FromHirBlock(hs[1..]);
      ToHirFromHirStmt(hs[0]);
      ToHirFromHirBlock(hs[1..]);
    }
  }

  /** Every string-free MIR expression is the lowering of an HIR expression. */
  lemma {:induction false} FromHirToHir(m: Expression<string>)
    requires StringFree(m)
    ensures FromHir(ToHir(m)) == m
    decreases m
  {
    match m
    case Int(_) =>
    case Bool(_) =>
    case Name(_) =>
    case Add(l, r) => FromHirToHir(l); FromHirToHir(r);
    case Sub(l, r) => FromHirToHir(l); FromHirToHir(r);
    case Mul(l, r) => FromHirToHir(l); FromHirToHir(r);
    case Div(l, r) => FromHirToHir(l); FromHirToHir(r);
    case Eq(l, r) => FromHirToHir(l); FromHirToHir(r);
    case Neq(l, r) => FromHirToHir(l); FromHirToHir(r);
    case Call(_, args) => FromHirToHirArgs(args);
    case If(_, _, _) => FromHirToHirIf(m);
  }

  lemma {:induction false} FromHirToHirIf(m: Expression<string>)
    requires m.If? && StringFree(m)
    ensures FromHir(ToHir(m)) == m
    decreases m, 0
  {
    FromHirToHir(m.cond);
    FromHirToHirBlock(m.thenBlock);
    if m.elseBlock.Else? {
      FromHirToHirBlock(m.elseBlock.stmts);
    }
  }

  lemma {:induction false} FromHirToHirArgs(ms: seq<Expression<string>>)
    requires ArgsStringFree(ms)
    ensures FromHirArgs(ToHirArgs(ms)) == ms
    decreases ms
  {
    if ms != [] {
      var h := ToHirArgs(ms);
      assert h[0] == ToHir(ms[0]) && h[1..] == ToHirArgs(ms[1..]);
      FromHirToHir(ms[0]);
      FromHirToHirArgs(ms[1..]);
    }
  }

  lemma {:induction false} FromHirToHirStmt(m: Stmt<string>)
    requires StmtStringFree(m)
    ensures FromHirStmt(ToHirStmt(m)) == m
    decreases m
  {
    match m
    case Expr(x) => FromHirToHir(x);
    case Let(_, x) => FromHirToHir(x);
    case Assign(_, x) => FromHirToHir(x);
    case Return(x) => FromHirToHir(x);
    case While(c, b) => FromHirToHir(c); FromHirToHirBlock(b);
  }

  lemma {:induction false} FromHirToHirBlock(ms: seq<Stmt<string>>)
    requires BlockStringFree(ms)
    ensures FromHirBlock(ToHirBlock(ms)) == ms
    decreases ms
  {
    if ms != [] {
      var h := ToHirBlock(ms);
      assert h[0] == ToHirStmt(ms[0]) && h[1..] == ToHirBlock(ms[1..]);
      FromHirToHirStmt(ms[0]);
      FromHirToHirBlock(ms[1..]);
    }
  }

  /** Lowering a block is lowering its parts. */
  lemma {:induction false} FromHirBlockAppend(a: seq<Hir.Stmt>, b: seq<Hir.Stmt>)
    ensures FromHirBlock(a + b) == FromHirBlock(a) + FromHirBlock(b)
    decreases a
  {
    if a == [] {
      assert a + b == b;
    } else {
      assert (a + b)[0] == a[0] && (a + b)[1..] == a[1..] + b;
      FromHirBlockAppend(a[1..], b);
    }
  }

  // ----- The two lowerings composed -----

  /** The counting loop `let v = from; while (v != to) { body; v = v + 1 }`. */
  function ForLoop<N>(v: N, from: Expression<N>, to: Expression<N>, body: seq<Stmt<N>>): seq<Stmt<N>>
  {
    [Let(v, from), While(Neq(Name(v), to), body + [Assign(v, Add(Name(v), Int(1)))])]
  }

  /** A `for` loop of the parser's tree reaches the MIR as a counting loop over the lowered bounds and body. */
  lemma LowerFor(v: string, from: Ast.Expression, to: Ast.Expression, body: seq<Ast.Stmt>)
    ensures FromHirBlock(Hir.ConvertStmt(Ast.For(v, from, to, body)))
         == ForLoop(v, FromHir(Hir.FromAst(from)), FromHir(Hir.FromAst(to)), FromHirBlock(Hir.ConvertBlock(body)))
  {
    var inc := Hir.Assign(v, Hir.Add(Hir.Name(v), Hir.Int(1)));
    FromHirBlockAppend(Hir.ConvertBlock(body), [inc]);
    assert [inc][1..] == [];
    assert FromHir(Hir.Add(Hir.Name(v), Hir.Int(1))) == Add(Name(v), Int(1)) by {
      assert FromHir(Hir.Name(v)) == Name(v);
      assert FromHir(Hir.Int(1)) == Int(1);
    }
    assert FromHirBlock([inc]) == [Assign(v, Add(Name(v), Int(1)))];
    var lowered := Hir.ConvertStmt(Ast.For(v, from, to, body));
    assert lowered == [Hir.Let(v, Hir.FromAst(from)), Hir.While(Hir.Neq(Hir.Name(v), Hir.FromAst(to)), Hir.ConvertBlock(body) + [inc])];
    assert lowered[1..][1..] == [];
    assert FromHir(Hir.Neq(Hir.Name(v), Hir.FromAst(to))) == Neq(Name(v), FromHir(Hir.FromAst(to))) by {
      assert FromHir(Hir.Name(v)) == Name(v);
    }
    assert FromHirBlock(lowered[1..]) == [FromHirStmt(lowered[1])];
  }

  /** After both lowerings a block has one statement per source statement plus one per top-level `for`. */
  lemma LoweredBlockLength(ss: seq<Ast.Stmt>)
    ensures |FromHirBlock(Hir.ConvertBlock(ss))| == |ss| + Ast.TopLevelFors(ss)
  {
    Hir.ConvertBlockLength(ss);
  }
}
