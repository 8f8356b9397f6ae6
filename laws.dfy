/**
 * Properties of the interpreter's semantics (typort-interpreter/src/vm.rs): how
 * blocks, `let`, assignment, names, arithmetic, equality, loops, conditionals,
 * calls and the built-ins behave, and what the counting loop produced for a
 * `for` statement computes.
 */
module Laws {
  import opened Base
  import Mir
  import opened Semantics
  import Frames

  // ----- Blocks -----

  /**
   * A block yields `Unit` when empty, and otherwise the value of its last statement,
   * run in the state the statements before it leave.
   */
  lemma {:induction false} BlockAppend(fs: Table, ss: seq<Stmt>, s: Stmt, st: State, ret: Value, fuel: nat)
    ensures EvalBlock(fs, [], st, Unit, fuel) == Ok(Done(Unit, st))
    ensures EvalBlock(fs, ss + [s], st, ret, fuel) ==
      match EvalBlock(fs, ss, st, ret, fuel)
      case Ok(d) => EvalStmt(fs, s, d.st, fuel)
      case Err(e) => Err(e)
    decreases ss
  {
    if ss == [] {
      assert ss + [s] == [s];
      assert [s][1..] == [];
    } else {
      assert (ss + [s])[0] == ss[0] && (ss + [s])[1..] == ss[1..] + [s];
      var d := EvalStmt(fs, ss[0], st, fuel);
      if d.Ok? {
        BlockAppend(fs, ss[1..], s, d.value.st, d.value.value, fuel);
      }
    }
  }

  /** `return` does not leave the block: the statements after it still run and give the block its value. */
  lemma ReturnDoesNotExit(fs: Table, e: Expr, s: Stmt, st: State, fuel: nat)
    requires EvalExpr(fs, e, st, fuel).Ok?
    ensures EvalBlock(fs, [Mir.Return(e), s], st, Unit, fuel) == EvalStmt(fs, s, EvalExpr(fs, e, st, fuel).value.st, fuel)
  {
    BlockAppend(fs, [Mir.Return(e)], s, st, Unit, fuel);
    assert [Mir.Return(e)] + [s] == [Mir.Return(e), s];
    assert [Mir.Return(e)][1..] == [];
  }

  // ----- Expressions that only read the stack -----

  /** Literals, names, arithmetic and comparisons: no call, no `if`, no string literal. */
  predicate Pure(e: Expr)
    decreases e
  {
    match e
    case Int(_) => true
    case Bool(_) => true
    case Name(_) => true
    case Add(l, r) => Pure(l) && Pure(r)
    case Sub(l, r) => Pure(l) && Pure(r)
    case Mul(l, r) => Pure(l) && Pure(r)
    case Div(l, r) => Pure(l) && Pure(r)
    case Eq(l, r) => Pure(l) && Pure(r)
    case Neq(l, r) => Pure(l) && Pure(r)
    case _ => false
  }

  /** `r` is what a pure expression evaluated in `st` may give: nothing changed, and the same again on a longer stack. */
  ghost predicate Stable(fs: Table, e: Expr, st: State, more: seq<Value>, fuel: nat, r: Result<Done>)
  {
    var st2 := st.(stack := st.stack + more);
    r.Ok? ==> (
      && r.value.st == st
      && EvalExpr(fs, e, st2, fuel) == Ok(Done(r.value.value, st2)))
  }

  /**
   * A pure expression changes no state, and gives the same outcome in any state
   * with the same heap and frame base whose stack extends the original one.
   */
  lemma {:induction false} PureStable(fs: Table, e: Expr, st: State, more: seq<Value>, fuel: nat)
    requires Pure(e)
    ensures Stable(fs, e, st, more, fuel, EvalExpr(fs, e, st, fuel))
    decreases Mir.ExprSize(e), 1
  {
    var st2 := st.(stack := st.stack + more);
    match e
    case Int(_) =>
    case Bool(_) =>
    case Name(slot) =>
      if st.frameBase + slot < |st.stack| {
        assert st2.stack[st.frameBase + slot] == st.stack[st.frameBase + slot];
      }
    case Add(l, r) => PureStableArith(fs, Plus, l, r, st, more, fuel);
    case Sub(l, r) => PureStableArith(fs, Minus, l, r, st, more, fuel);
    case Mul(l, r) => PureStableArith(fs, Times, l, r, st, more, fuel);
    case Div(l, r) => PureStableArith(fs, Divide, l, r, st, more, fuel);
    case Eq(l, r) => PureStableEquality(fs, false, l, r, st, more, fuel); EqExprIsEquality(fs, false, l, r, st, fuel);
    case Neq(l, r) => PureStableEquality(fs, true, l, r, st, more, fuel); EqExprIsEquality(fs, true, l, r, st, fuel);
  }

  lemma {:induction false} PureStableArith(fs: Table, op: ArithOp, l: Expr, r: Expr, st: State, more: seq<Value>, fuel: nat)
    requires Pure(l) && Pure(r)
    ensures Stable(fs, OpExpr(op, l, r), st, more, fuel, EvalArith(fs, op, l, r, st, fuel))
    decreases 2 + Mir.ExprSize(l) + Mir.ExprSize(r), 0
  {
    var st2 := st.(stack := st.stack + more);
    var res := EvalArith(fs, op, l, r, st, fuel);
    if res.Ok? {
      PureStable(fs, l, st, more, fuel);
      PureStable(fs, r, st, more, fuel);
      var x := EvalExpr(fs, l, st, fuel).value.value;
      var y := EvalExpr(fs, r, st, fuel).value.value;
      assert EvalExpr(fs, r, st, fuel).value.st == st;
      assert EvalArith(fs, op, l, r, st, fuel) == match Apply(op, x.i, y.i) case Ok(v) => Ok(Done(Int(v), st)) case Err(e) => Err(e);
      assert EvalExpr(fs, l, st2, fuel) == Ok(Done(x, st2));
      assert EvalExpr(fs, r, st2, fuel) == Ok(Done(y, st2));
      assert EvalArith(fs, op, l, r, st2, fuel) == match Apply(op, x.i, y.i) case Ok(v) => Ok(Done(Int(v), st2)) case Err(e) => Err(e);
      OpExprIsArith(fs, op, l, r, st2, fuel);
    }
  }

  lemma {:induction false} PureStableEquality(fs: Table, negate: bool, l: Expr, r: Expr, st: State, more: seq<Value>, fuel: nat)
    requires Pure(l) && Pure(r)
    ensures Stable(fs, EqExpr(negate, l, r), st, more, fuel, EvalEquality(fs, negate, l, r, st, fuel))
    decreases 2 + Mir.ExprSize(l) + Mir.ExprSize(r), 0
  {
    var st2 := st.(stack := st.stack + more);
    var res := EvalEquality(fs, negate, l, r, st, fuel);
    if res.Ok? {
      PureStable(fs, l, st, more, fuel);
      PureStable(fs, r, st, more, fuel);
      var x := EvalExpr(fs, l, st, fuel).value.value;
      var y := EvalExpr(fs, r, st, fuel).value.value;
      assert EvalExpr(fs, r, st, fuel).value.st == st;
      assert EvalExpr(fs, l, st2, fuel) == Ok(Done(x, st2));
      assert EvalExpr(fs, r, st2, fuel) == Ok(Done(y, st2));
      if x.Int? && y.Int? {
        assert EvalEquality(fs, negate, l, r, st2, fuel) == Ok(Done(Bool((x.i == y.i) != negate), st2));
      } else {
        assert EvalEquality(fs, negate, l, r, st2, fuel) == Ok(Done(Bool((x.b == y.b) != negate), st2));
      }
      EqExprIsEquality(fs, negate, l, r, st2, fuel);
    }
  }

  // ----- Statements -----

  /** `let` of a pure expression pushes exactly its value and yields `Unit`. */
  lemma LetPushes(fs: Table, slot: nat, e: Expr, st: State, fuel: nat)
    requires Pure(e)
    ensures EvalStmt(fs, Mir.Let(slot, e), st, fuel).Ok? <==> EvalExpr(fs, e, st, fuel).Ok?
    ensures EvalExpr(fs, e, st, fuel).Ok? ==>
      EvalStmt(fs, Mir.Let(slot, e), st, fuel) == Ok(Done(Unit, st.(stack := st.stack + [EvalExpr(fs, e, st, fuel).value.value])))
  {
    PureStable(fs, e, st, [], fuel);
  }

  /**
   * Assigning a pure expression overwrites exactly the slot `frameBase + slot`,
   * keeps the stack length and yields `Unit`; a slot past the stack is fatal.
   */
  lemma AssignOverwrites(fs: Table, slot: nat, e: Expr, st: State, fuel: nat)
    requires Pure(e) && EvalExpr(fs, e, st, fuel).Ok?
    ensures var k := st.frameBase + slot;
      var r := EvalStmt(fs, Mir.Assign(slot, e), st, fuel);
      && (k >= |st.stack| ==> r == Err(NoSlot(k)))
      && (k < |st.stack| ==> (
           && r.Ok? && r.value.value == Unit && r.value.st.heap == st.heap
           && r.value.st.frameBase == st.frameBase
           && |r.value.st.stack| == |st.stack|
           && r.value.st.stack[k] == EvalExpr(fs, e, st, fuel).value.value
           && forall j :: 0 <= j < |st.stack| && j != k ==> r.value.st.stack[j] == st.stack[j]))
  {
    PureStable(fs, e, st, [], fuel);
  }

  /** A name reads the slot `frameBase + slot` and changes nothing; a slot past the stack is fatal. */
  lemma NameReads(fs: Table, slot: nat, st: State, fuel: nat)
    ensures var k := st.frameBase + slot;
      var r := EvalExpr(fs, Mir.Name(slot), st, fuel);
      && (r.Ok? <==> k < |st.stack|)
      && (r.Ok? ==> r.value == Done(st.stack[k], st))
      && (r.Err? ==> r.error == NoSlot(k))
  {
  }

  // ----- Arithmetic and comparison -----

  /** The MIR expression of an arithmetic operator. */
  function OpExpr(op: ArithOp, l: Expr, r: Expr): Expr
  {
    match op
    case Plus => Mir.Add(l, r)
    case Minus => Mir.Sub(l, r)
    case Times => Mir.Mul(l, r)
    case Divide => Mir.Div(l, r)
  }

  /** Each arithmetic operator evaluates through `int_func`. */
  lemma OpExprIsArith(fs: Table, op: ArithOp, l: Expr, r: Expr, st: State, fuel: nat)
    ensures EvalExpr(fs, OpExpr(op, l, r), st, fuel) == EvalArith(fs, op, l, r, st, fuel)
  {
    match op
    case Plus => assert OpExpr(op, l, r) == Mir.Add(l, r);
    case Minus => assert OpExpr(op, l, r) == Mir.Sub(l, r);
    case Times => assert OpExpr(op, l, r) == Mir.Mul(l, r);
    case Divide => assert OpExpr(op, l, r) == Mir.Div(l, r);
  }

  /**
   * `+ - * /` evaluate the left operand first, then the right, and succeed only on
   * two `Int`s whose exact result (division rounding toward zero) is an `i64`.
   */
  lemma ArithSemantics(fs: Table, op: ArithOp, l: Expr, r: Expr, st: State, fuel: nat)
    ensures var res := EvalArith(fs, op, l, r, st, fuel);
      var a := EvalExpr(fs, l, st, fuel);
      && (a.Err? ==> res == Err(a.error))
      && (a.Ok? ==>
        var b := EvalExpr(fs, r, a.value.st, fuel);
        && (b.Err? ==> res == Err(b.error))
        && (b.Ok? && !(a.value.value.Int? && b.value.value.Int?) ==> res == Err(ExpectInt))
        && (b.Ok? && a.value.value.Int? && b.value.value.Int? ==>
          ArithOutcome(op, a.value.value.i, b.value.value.i, b.value.st, res)))
  {
    var res := EvalArith(fs, op, l, r, st, fuel);
    var a := EvalExpr(fs, l, st, fuel);
    if a.Err? {
      assert res == Err(a.error);
    } else {
      var b := EvalExpr(fs, r, a.value.st, fuel);
      if b.Err? {
        assert res == Err(b.error);
      } else if !(a.value.value.Int? && b.value.value.Int?) {
        assert res == Err(ExpectInt);
      } else {
        var x, y := a.value.value.i, b.value.value.i;
        var v := Apply(op, x, y);
        assert res == match v case Ok(n) => Ok(Done(Int(n), b.value.st)) case Err(e) => Err(e);
      }
    }
  }

  /** Division by zero is fatal; otherwise the exact result if it fits an `i64`, else an overflow. */
  predicate ArithOutcome(op: ArithOp, x: i64, y: i64, after: State, res: Result<Done>)
  {
    if op == Divide && y == 0 then res == Err(DivisionByZero)
    else if I64_MIN <= Exact(op, x, y) <= I64_MAX then res == Ok(Done(Int(Exact(op, x, y)), after))
    else res == Err(Overflow)
  }

  /** The MIR expression of `==` (`negate` false) or `!=` (`negate` true). */
  function EqExpr(negate: bool, l: Expr, r: Expr): Expr
  {
    if negate then Mir.Neq(l, r) else Mir.Eq(l, r)
  }

  lemma EqExprIsEquality(fs: Table, negate: bool, l: Expr, r: Expr, st: State, fuel: nat)
    ensures EvalExpr(fs, EqExpr(negate, l, r), st, fuel) == EvalEquality(fs, negate, l, r, st, fuel)
  {
  }

  /** Flips the boolean a successful comparison yields. */
  function Negate(r: Result<Done>): Result<Done>
  {
    match r
    case Ok(Done(Bool(b), s)) => Ok(Done(Bool(!b), s))
    case _ => r
  }

  /** `!=` is the negation of `==`, including its errors. */
  lemma NeqNegatesEq(fs: Table, l: Expr, r: Expr, st: State, fuel: nat)
    ensures EvalExpr(fs, Mir.Neq(l, r), st, fuel) == Negate(EvalExpr(fs, Mir.Eq(l, r), st, fuel))
  {
  }

  /**
   * `==` succeeds only on two `Int`s or two `Bool`s, and then compares the values;
   * any other pairing is fatal.
   */
  lemma EqualitySemantics(fs: Table, l: Expr, r: Expr, st: State, fuel: nat)
    ensures var res := EvalExpr(fs, Mir.Eq(l, r), st, fuel);
      var a := EvalExpr(fs, l, st, fuel);
      && (a.Err? ==> res == Err(a.error))
      && (a.Ok? ==>
        var b := EvalExpr(fs, r, a.value.st, fuel);
        && (b.Err? ==> res == Err(b.error))
        && (b.Ok? ==>
          var x, y := a.value.value, b.value.value;
          && (res.Ok? <==> (x.Int? && y.Int?) || (x.Bool? && y.Bool?))
          && (res.Ok? ==> res.value == Done(Bool(x == y), b.value.st))
          && (res.Err? ==> res.error == ExpectSameType)))
  {
  }

  // ----- Control flow -----

  /**
   * A loop stops as soon as its condition is anything but `Bool(true)` and yields
   * the value of the last iteration (`Unit` after none); on `Bool(true)` it runs
   * the body and goes on from there, the body's value becoming the latest one.
   */
  lemma WhileSemantics(fs: Table, c: Expr, b: seq<Stmt>, st: State, ret: Value, fuel: nat)
    ensures var d := EvalExpr(fs, c, st, fuel);
      && (d.Err? ==> EvalWhile(fs, c, b, st, ret, fuel) == Err(d.error))
      && (d.Ok? && d.value.value != Bool(true) ==> EvalWhile(fs, c, b, st, ret, fuel) == Ok(Done(ret, d.value.st)))
      && (d.Ok? && d.value.value == Bool(true) ==>
        var body := EvalBlock(fs, b, d.value.st, Unit, fuel);
        && (body.Err? ==> EvalWhile(fs, c, b, st, ret, fuel) == Err(body.error))
        && (body.Ok? && fuel > 0 ==>
              EvalWhile(fs, c, b, st, ret, fuel) == EvalWhile(fs, c, b, body.value.st, body.value.value, fuel - 1)))
    ensures EvalStmt(fs, Mir.While(c, b), st, fuel) == EvalWhile(fs, c, b, st, Unit, fuel)
  {
    var d := EvalExpr(fs, c, st, fuel);
    if d.Ok? && d.value.value == Bool(true) {
      var body := EvalBlock(fs, b, d.value.st, Unit, fuel);
      if body.Ok? && fuel > 0 {
        assert EvalWhile(fs, c, b, st, ret, fuel) == EvalWhile(fs, c, b, body.value.st, body.value.value, fuel - 1);
      }
    }
  }

  /** `if` takes the then-block only on `Bool(true)`; otherwise the else-block, or `Unit` without one. */
  lemma IfSemantics(fs: Table, c: Expr, t: seq<Stmt>, eb: Mir.ElseBlock<nat>, st: State, fuel: nat)
    requires EvalExpr(fs, c, st, fuel).Ok?
    ensures var d := EvalExpr(fs, c, st, fuel).value;
      var res := EvalExpr(fs, Mir.If(c, t, eb), st, fuel);
      && (d.value == Bool(true) ==> res == EvalBlock(fs, t, d.st, Unit, fuel))
      && (d.value != Bool(true) && eb.Else? ==> res == EvalBlock(fs, eb.stmts, d.st, Unit, fuel))
      && (d.value != Bool(true) && eb.NoElse? ==> res == Ok(Done(Unit, d.st)))
  {
  }

  // ----- Calls -----

  /**
   * A user call leaves the stack as long as before, the frame base as before and
   * every heap entry in place. The callee's body runs in a frame that starts at the
   * stack length before the call, so it never writes below it: the slots the
   * caller had come back exactly as the argument evaluation left them.
   */
  lemma CallRestoresFrame(fs: Table, name: string, args: seq<Expr>, st: State, fuel: nat)
    requires name != "print" && name != "Array"
    ensures var r := EvalExpr(fs, Mir.Call(name, args), st, fuel);
      r.Ok? ==>
        && |r.value.st.stack| == |st.stack|
        && r.value.st.frameBase == st.frameBase
        && (forall k :: 0 <= k < st.frameBase && k < |st.stack| ==> r.value.st.stack[k] == st.stack[k])
        && st.heap.Keys <= r.value.st.heap.Keys
    ensures var r := EvalExpr(fs, Mir.Call(name, args), st, fuel);
      r.Ok? ==>
        && name in fs
        && var p := PushArgs(fs, |fs[name].params|, args, st, fuel);
        && p.Ok? && |st.stack| <= |p.value.stack|
        && r.value.st.stack == p.value.stack[..|st.stack|]
  {
    Frames.UserCallExtends(fs, name, args, st, fuel);
    var r := EvalExpr(fs, Mir.Call(name, args), st, fuel);
    if r.Ok? {
      var f := fs[name];
      Frames.PushExtends(fs, |f.params|, args, st, fuel);
      var pushed := PushArgs(fs, |f.params|, args, st, fuel).value;
      var entry := pushed.(frameBase := |st.stack|);
      Frames.BlockExtends(fs, f.block, entry, Unit, fuel - 1);
      var body := EvalBlock(fs, f.block, entry, Unit, fuel - 1).value;
      assert r.value.st.stack == Truncate(body.st.stack, |st.stack|);
      forall k | 0 <= k < |st.stack|
        ensures r.value.st.stack[k] == pushed.stack[k]
      {
        assert body.st.stack[k] == entry.stack[k];
      }
    }
  }

  /** With pure arguments a user call gives the caller back its whole stack and frame base. */
  lemma PureCallKeepsStack(fs: Table, name: string, args: seq<Expr>, st: State, fuel: nat)
    requires name != "print" && name != "Array"
    requires AllPureOk(fs, args, st, fuel)
    ensures var r := EvalExpr(fs, Mir.Call(name, args), st, fuel);
      r.Ok? ==> r.value.st.stack == st.stack && r.value.st.frameBase == st.frameBase
  {
    CallRestoresFrame(fs, name, args, st, fuel);
    if name in fs {
      var n := |fs[name].params|;
      PushPureArgs(fs, n, args, st, [], fuel);
      assert st.(stack := st.stack + []) == st;
      var vs := PureValues(fs, args, st, fuel, n);
      assert (st.stack + [] + vs)[..|st.stack|] == st.stack;
    }
  }

  /**
   * The arguments are evaluated in the caller's frame, so an argument whose block
   * assigns a slot of the caller changes the caller's stack: `f(if (true) { x = 5; 1 })`
   * with `x` in slot 0.
   */
  lemma ArgumentWritesCallerSlot()
    ensures var f := Mir.Func("f", [("a", "Int")], None, [Mir.Expr(Mir.Name(0))]);
      var arg := Mir.If(Mir.Bool(true), [Mir.Assign(0, Mir.Int(5)), Mir.Expr(Mir.Int(1))], Mir.NoElse);
      EvalExpr(map["f" := f], Mir.Call("f", [arg]), State([Int(0)], map[], 0), 1)
        == Ok(Done(Int(1), State([Int(5)], map[], 0)))
  {
    var f := Mir.Func("f", [("a", "Int")], None, [Mir.Expr(Mir.Name(0))]);
    var blk := [Mir.Assign(0, Mir.Int(5)), Mir.Expr(Mir.Int(1))];
    var arg := Mir.If(Mir.Bool(true), blk, Mir.NoElse);
    var fs := map["f" := f];
    var st := State([Int(0)], map[], 0);
    var s1 := State([Int(5)], map[], 0);
    assert EvalStmt(fs, blk[0], st, 1) == Ok(Done(Unit, s1)) by {
      assert EvalExpr(fs, Mir.Int(5), st, 1) == Ok(Done(Int(5), st));
      assert st.stack[0 := Int(5)] == s1.stack;
    }
    assert EvalBlock(fs, blk[1..], s1, Unit, 1) == Ok(Done(Int(1), s1)) by {
      assert blk[1..][0] == Mir.Expr(Mir.Int(1)) && blk[1..][1..] == [];
    }
    assert EvalExpr(fs, arg, st, 1) == Ok(Done(Int(1), s1));
    var s2 := State([Int(5), Int(1)], map[], 0);
    assert PushArgs(fs, 1, [arg], st, 1) == Ok(s2) by {
      assert [arg][0] == arg && [arg][1..] == [];
      assert s1.stack + [Int(1)] == s2.stack;
      assert PushArgs(fs, 0, [], s2, 1) == Ok(s2);
    }
    var entry := s2.(frameBase := 1);
    assert EvalBlock(fs, f.block, entry, Unit, 0) == Ok(Done(Int(1), entry)) by {
      assert f.block[1..] == [];
    }
    assert Truncate(s2.stack, 1) == [Int(5)];
  }

  /**
   * The callee's frame base is fixed before the arguments are evaluated, so an
   * argument whose block runs `let` pushes a value that the callee then reads as
   * its first parameter: `f(if (true) { let y = 7; 1 })` where `f(a)` returns `a`
   * gives 7, not 1.
   */
  lemma ArgumentLetShiftsParams()
    ensures var f := Mir.Func("f", [("a", "Int")], None, [Mir.Expr(Mir.Name(0))]);
      var arg := Mir.If(Mir.Bool(true), [Mir.Let(0, Mir.Int(7)), Mir.Expr(Mir.Int(1))], Mir.NoElse);
      EvalExpr(map["f" := f], Mir.Call("f", [arg]), State([], map[], 0), 1)
        == Ok(Done(Int(7), State([], map[], 0)))
  {
    var f := Mir.Func("f", [("a", "Int")], None, [Mir.Expr(Mir.Name(0))]);
    var blk := [Mir.Let(0, Mir.Int(7)), Mir.Expr(Mir.Int(1))];
    var arg := Mir.If(Mir.Bool(true), blk, Mir.NoElse);
    var fs := map["f" := f];
    var st := State([], map[], 0);
    var s1 := State([Int(7)], map[], 0);
    assert EvalStmt(fs, blk[0], st, 1) == Ok(Done(Unit, s1)) by {
      assert EvalExpr(fs, Mir.Int(7), st, 1) == Ok(Done(Int(7), st));
      assert st.stack + [Int(7)] == s1.stack;
    }
    assert EvalBlock(fs, blk[1..], s1, Unit, 1) == Ok(Done(Int(1), s1)) by {
      assert blk[1..][0] == Mir.Expr(Mir.Int(1)) && blk[1..][1..] == [];
    }
    assert EvalExpr(fs, arg, st, 1) == Ok(Done(Int(1), s1));
    var s2 := State([Int(7), Int(1)], map[], 0);
    assert PushArgs(fs, 1, [arg], st, 1) == Ok(s2) by {
      assert [arg][0] == arg && [arg][1..] == [];
      assert s1.stack + [Int(1)] == s2.stack;
      assert PushArgs(fs, 0, [], s2, 1) == Ok(s2);
    }
    assert EvalBlock(fs, f.block, s2, Unit, 0) == Ok(Done(Int(7), s2)) by {
      assert f.block[1..] == [];
    }
    assert Truncate(s2.stack, 0) == [];
  }

  /** Calling an unknown function is fatal, before any argument is evaluated. */
  lemma UnknownFunctionIsFatal(fs: Table, name: string, args: seq<Expr>, st: State, fuel: nat)
    requires name != "print" && name != "Array" && name !in fs
    ensures EvalExpr(fs, Mir.Call(name, args), st, fuel) == Err(UnknownFunction(name))
  {
  }

  /** Every one of `es` is pure and evaluates without error in `st`. */
  ghost predicate AllPureOk(fs: Table, es: seq<Expr>, st: State, fuel: nat)
    decreases es
  {
    es != [] ==> Pure(es[0]) && EvalExpr(fs, es[0], st, fuel).Ok? && AllPureOk(fs, es[1..], st, fuel)
  }

  /** The values of the first `n` of `es` (all of them when there are fewer), each evaluated in `st`. */
  ghost function PureValues(fs: Table, es: seq<Expr>, st: State, fuel: nat, n: nat): (vs: seq<Value>)
    requires AllPureOk(fs, es, st, fuel)
    ensures |vs| == if n < |es| then n else |es|
    decreases es
  {
    if n == 0 || es == [] then []
    else [EvalExpr(fs, es[0], st, fuel).value.value] + PureValues(fs, es[1..], st, fuel, n - 1)
  }

  /** The `k`-th pushed value is the value of the `k`-th argument. */
  lemma {:induction false} PureValuesAt(fs: Table, es: seq<Expr>, st: State, fuel: nat, n: nat, k: nat)
    requires AllPureOk(fs, es, st, fuel) && k < n && k < |es|
    ensures EvalExpr(fs, es[k], st, fuel).Ok?
    ensures PureValues(fs, es, st, fuel, n)[k] == EvalExpr(fs, es[k], st, fuel).value.value
    decreases es
  {
    if k > 0 {
      PureValuesAt(fs, es[1..], st, fuel, n - 1, k - 1);
    }
  }

  /** With pure arguments, the arguments `zip` pairs with parameters are pushed in order, and nothing else changes. */
  lemma {:induction false} PushPureArgs(fs: Table, n: nat, es: seq<Expr>, st: State, pre: seq<Value>, fuel: nat)
    requires AllPureOk(fs, es, st, fuel)
    ensures PushArgs(fs, n, es, st.(stack := st.stack + pre), fuel) == Ok(st.(stack := st.stack + pre + PureValues(fs, es, st, fuel, n)))
    decreases es
  {
    var base := st.(stack := st.stack + pre);
    if n == 0 || es == [] {
      assert st.stack + pre + [] == st.stack + pre;
    } else {
      PureStable(fs, es[0], st, pre, fuel);
      var v := EvalExpr(fs, es[0], st, fuel).value.value;
      assert EvalExpr(fs, es[0], base, fuel) == Ok(Done(v, base));
      assert st.stack + pre + [v] == st.stack + (pre + [v]);
      PushPureArgs(fs, n - 1, es[1..], st, pre + [v], fuel);
      var rest := PureValues(fs, es[1..], st, fuel, n - 1);
      assert st.stack + (pre + [v]) + rest == st.stack + pre + ([v] + rest);
    }
  }

  /**
   * The callee's frame starts at the caller's stack length: with pure arguments, a
   * function whose body is the name of parameter `k` returns the `k`-th argument,
   * and the caller's state is as before.
   */
  lemma CallReadsParam(fs: Table, name: string, args: seq<Expr>, k: nat, st: State, fuel: nat)
    requires name != "print" && name != "Array" && name in fs
    requires fs[name].block == [Mir.Expr(Mir.Name(k))]
    requires k < |fs[name].params| && k < |args|
    requires AllPureOk(fs, args, st, fuel)
    requires fuel > 0
    ensures EvalExpr(fs, args[k], st, fuel).Ok?
    ensures EvalExpr(fs, Mir.Call(name, args), st, fuel) == Ok(Done(EvalExpr(fs, args[k], st, fuel).value.value, st))
  {
    var f := fs[name];
    PushPureArgs(fs, |f.params|, args, st, [], fuel);
    assert st.stack + [] == st.stack;
    var vs := PureValues(fs, args, st, fuel, |f.params|);
    PureValuesAt(fs, args, st, fuel, |f.params|, k);
    var entry := st.(stack := st.stack + vs, frameBase := |st.stack|);
    assert EvalBlock(fs, f.block, entry, Unit, fuel - 1) == Ok(Done(vs[k], entry)) by {
      assert f.block[0] == Mir.Expr(Mir.Name(k)) && f.block[1..] == [];
      assert (st.stack + vs)[|st.stack| + k] == vs[k];
      assert Load(entry, k) == Ok(Done(vs[k], entry));
      assert EvalStmt(fs, f.block[0], entry, fuel - 1) == Ok(Done(vs[k], entry));
    }
    assert Truncate(st.stack + vs, |st.stack|) == st.stack;
  }

  // ----- Heap -----

  /** With pure arguments, `Array` returns the id `heap.len()` and stores the argument values there, in order. */
  lemma ArrayAllocates(fs: Table, args: seq<Expr>, st: State, fuel: nat)
    requires AllPureOk(fs, args, st, fuel)
    ensures var r := EvalExpr(fs, Mir.Call("Array", args), st, fuel);
      && r.Ok?
      && r.value.value == HeapId(|st.heap|)
      && r.value.st == st.(heap := Alloc(st.heap, PureValues(fs, args, st, fuel, |args|)))
  {
    EvalPureArgs(fs, args, st, [], fuel);
    assert [] + PureValues(fs, args, st, fuel, |args|) == PureValues(fs, args, st, fuel, |args|);
  }

  lemma {:induction false} EvalPureArgs(fs: Table, es: seq<Expr>, st: State, acc: seq<Value>, fuel: nat)
    requires AllPureOk(fs, es, st, fuel)
    ensures EvalArgs(fs, es, st, acc, fuel) == Ok(Vals(acc + PureValues(fs, es, st, fuel, |es|), st))
    decreases es
  {
    if es == [] {
      assert acc + [] == acc;
    } else {
      PureStable(fs, es[0], st, [], fuel);
      var v := EvalExpr(fs, es[0], st, fuel).value.value;
      EvalPureArgs(fs, es[1..], st, acc + [v], fuel);
      var rest := PureValues(fs, es[1..], st, fuel, |es| - 1);
      assert acc + [v] + rest == acc + ([v] + rest);
    }
  }

  /** The heap's keys are exactly `0 .. heap.len() - 1`. */
  ghost predicate Dense(h: Heap)
  {
    forall k: nat :: k in h <==> k < |h|
  }

  /** On a dense heap the key `heap.len()` is fresh, and allocating keeps the heap dense and grows it by one. */
  lemma AllocFreshWhenDense(h: Heap, vs: seq<Value>)
    requires Dense(h)
    ensures |h| !in h
    ensures Dense(Alloc(h, vs)) && |Alloc(h, vs)| == |h| + 1
  {
    var h' := Alloc(h, vs);
    assert h' == h[|h| := Vec(vs)];
    assert |h| !in h by {
      assert |h| in h <==> |h| < |h|;
    }
    assert |h'| == |h| + 1;
    forall k: nat
      ensures k in h' <==> k < |h'|
    {
      assert k in h <==> k < |h|;
    }
  }

  /**
   * A string literal keeps its own pre-assigned id, so the heap need not be dense:
   * then `heap.len()` can be a key already in use, and `Array` overwrites that entry.
   */
  lemma AllocMayOverwrite()
    ensures var h := map[1 := String("b")];
      |h| in h && Alloc(h, [])[|h|] == Vec([]) && h[|h|] == String("b")
  {
    var h := map[1 := String("b")];
    assert h.Keys == {1};
  }

  /** `print` needs an argument, evaluates only the first one, and yields `Unit`. */
  lemma PrintSemantics(fs: Table, args: seq<Expr>, st: State, fuel: nat)
    ensures args == [] ==> EvalExpr(fs, Mir.Call("print", args), st, fuel) == Err(MissingArgument)
    ensures args != [] ==>
      && EvalExpr(fs, Mir.Call("print", args), st, fuel) == EvalExpr(fs, Mir.Call("print", [args[0]]), st, fuel)
      && var d := EvalExpr(fs, args[0], st, fuel);
        var r := EvalExpr(fs, Mir.Call("print", args), st, fuel);
        && (d.Err? ==> r == Err(d.error))
        && (d.Ok? && Printable(d.value.st.heap, d.value.value) ==> r == Ok(Done(Unit, d.value.st)))
        && (d.Ok? && !Printable(d.value.st.heap, d.value.value) ==> r == Err(MissingHeapEntry(d.value.value.id)))
  {
  }

  // ----- The counting loop of a `for` statement -----

  /** The condition of the counting loop over `slot` up to `b`. */
  function CountCond(slot: nat, b: i64): Expr
  {
    Mir.Neq(Mir.Name(slot), Mir.Int(b))
  }

  /** The body of the counting loop over `slot` when the `for` body is empty. */
  function CountStep(slot: nat): seq<Stmt>
  {
    [Mir.Assign(slot, Mir.Add(Mir.Name(slot), Mir.Int(1)))]
  }

  /** One step of the counter: the condition holds while `x != b`, and the body adds one. */
  lemma CountOnce(fs: Table, slot: nat, b: i64, s: State, x: i64, fuel: nat)
    requires s.frameBase + slot < |s.stack| && s.stack[s.frameBase + slot] == Int(x)
    ensures EvalExpr(fs, CountCond(slot, b), s, fuel) == Ok(Done(Bool(x != b), s))
    ensures x < I64_MAX ==>
      EvalBlock(fs, CountStep(slot), s, Unit, fuel) == Ok(Done(Unit, s.(stack := s.stack[s.frameBase + slot := Int(x + 1)])))
    ensures x == I64_MAX ==> EvalBlock(fs, CountStep(slot), s, Unit, fuel) == Err(Overflow)
  {
    var k := s.frameBase + slot;
    var name: Expr := Mir.Name(slot);
    assert EvalExpr(fs, name, s, fuel) == Ok(Done(Int(x), s));
    assert EvalExpr(fs, Mir.Int(b), s, fuel) == Ok(Done(Int(b), s));
    assert EvalExpr(fs, CountCond(slot, b), s, fuel) == EvalEquality(fs, true, name, Mir.Int(b), s, fuel);
    var inc: Expr := Mir.Add(name, Mir.Int(1));
    assert EvalExpr(fs, Mir.Int(1), s, fuel) == Ok(Done(Int(1), s));
    assert EvalExpr(fs, inc, s, fuel) == EvalArith(fs, Plus, name, Mir.Int(1), s, fuel);
    assert Exact(Plus, x, 1) == x + 1;
    var step := CountStep(slot);
    assert step[0] == Mir.Assign(slot, inc) && step[1..] == [];
    if x < I64_MAX {
      assert EvalExpr(fs, inc, s, fuel) == Ok(Done(Int(x + 1), s));
      assert EvalStmt(fs, step[0], s, fuel) == Ok(Done(Unit, s.(stack := s.stack[k := Int(x + 1)])));
    } else {
      assert EvalExpr(fs, inc, s, fuel) == Err(Overflow);
    }
  }

  /** From `x <= b`, with fuel for `b - x` iterations, the counter stops at exactly `b`. */
  lemma {:induction false} CountUp(fs: Table, slot: nat, b: i64, s: State, x: i64, ret: Value, fuel: nat)
    requires s.frameBase + slot < |s.stack| && s.stack[s.frameBase + slot] == Int(x)
    requires x <= b && fuel >= b - x
    ensures EvalWhile(fs, CountCond(slot, b), CountStep(slot), s, ret, fuel)
         == Ok(Done(if x == b then ret else Unit, s.(stack := s.stack[s.frameBase + slot := Int(b)])))
    decreases b - x
  {
    var k := s.frameBase + slot;
    CountOnce(fs, slot, b, s, x, fuel);
    if x == b {
      assert s.stack[k := Int(b)] == s.stack;
    } else {
      var s' := s.(stack := s.stack[k := Int(x + 1)]);
      CountUp(fs, slot, b, s', x + 1, Unit, fuel - 1);
      assert s'.stack[k := Int(b)] == s.stack[k := Int(b)];
    }
  }

  /** Past the bound the counter never meets it: it runs out of fuel or overflows at `i64::MAX`. */
  lemma {:induction false} CountPast(fs: Table, slot: nat, b: i64, s: State, x: i64, ret: Value, fuel: nat)
    requires s.frameBase + slot < |s.stack| && s.stack[s.frameBase + slot] == Int(x)
    requires x > b
    ensures EvalWhile(fs, CountCond(slot, b), CountStep(slot), s, ret, fuel).Err?
    decreases fuel
  {
    CountOnce(fs, slot, b, s, x, fuel);
    if x < I64_MAX && fuel > 0 {
      CountPast(fs, slot, b, s.(stack := s.stack[s.frameBase + slot := Int(x + 1)]), x + 1, Unit, fuel - 1);
    }
  }

  /**
   * The loop a `for v in a..b` with an empty body lowers to: with `a <= b` and fuel
   * for `b - a` iterations it pushes the loop variable, which ends holding `b`, and
   * yields `Unit`; with `a > b` it never finishes normally.
   */
  lemma CountingLoop(fs: Table, slot: nat, a: i64, b: i64, st: State, fuel: nat)
    requires st.frameBase + slot == |st.stack|
    ensures a <= b && fuel >= b - a ==>
      EvalBlock(fs, Mir.ForLoop(slot, Mir.Int(a), Mir.Int(b), []), st, Unit, fuel) == Ok(Done(Unit, st.(stack := st.stack + [Int(b)])))
    ensures a > b ==> EvalBlock(fs, Mir.ForLoop(slot, Mir.Int(a), Mir.Int(b), []), st, Unit, fuel).Err?
  {
    var loop := Mir.ForLoop(slot, Mir.Int(a), Mir.Int(b), []);
    assert [] + CountStep(slot) == CountStep(slot);
    assert loop == [Mir.Let(slot, Mir.Int(a)), Mir.While(CountCond(slot, b), CountStep(slot))];
    var s := st.(stack := st.stack + [Int(a)]);
    assert EvalStmt(fs, loop[0], st, fuel) == Ok(Done(Unit, s));
    assert loop[1..][0] == loop[1] && loop[1..][1..] == [];
    var w := EvalWhile(fs, CountCond(slot, b), CountStep(slot), s, Unit, fuel);
    assert EvalStmt(fs, loop[1], s, fuel) == w;
    assert EvalBlock(fs, loop[1..], s, Unit, fuel) == (match w case Ok(d) => EvalBlock(fs, [], d.st, d.value, fuel) case Err(e) => Err(e));
    assert EvalBlock(fs, loop[1..], s, Unit, fuel) == w;
    assert EvalBlock(fs, loop, st, Unit, fuel) == EvalWhile(fs, CountCond(slot, b), CountStep(slot), s, Unit, fuel);
    if a <= b && fuel >= b - a {
      CountUp(fs, slot, b, s, a, Unit, fuel);
      assert s.stack[|st.stack| := Int(b)] == st.stack + [Int(b)];
    }
    if a > b {
      CountPast(fs, slot, b, s, a, Unit, fuel);
    }
  }

  // ----- The function table -----

  /** `Interpreter::new` keys its table by exactly the names of the functions it is given. */
  lemma {:induction false} TableKeys(fs: seq<Mir.Func<nat>>)
    ensures forall name :: name in TableOf(fs) <==> exists i :: 0 <= i < |fs| && fs[i].name == name
  {
    if fs != [] {
      var init, last := fs[..|fs| - 1], fs[|fs| - 1];
      TableKeys(init);
      assert TableOf(fs) == TableOf(init)[last.name := last];
      forall name
        ensures name in TableOf(fs) <==> exists i :: 0 <= i < |fs| && fs[i].name == name
      {
        if name in TableOf(init) {
          var i :| 0 <= i < |init| && init[i].name == name;
          assert fs[i] == init[i];
        }
        if exists i :: 0 <= i < |fs| && fs[i].name == name {
          var i :| 0 <= i < |fs| && fs[i].name == name;
          if i < |init| {
            assert init[i] == fs[i];
          }
        }
      }
    }
  }

  /** `Interpreter::new` maps each name to the last function of that name. */
  lemma {:induction false} TableLastWins(fs: seq<Mir.Func<nat>>, i: nat)
    requires i < |fs|
    requires forall j :: i < j < |fs| ==> fs[j].name != fs[i].name
    ensures fs[i].name in TableOf(fs) && TableOf(fs)[fs[i].name] == fs[i]
  {
    var init, last := fs[..|fs| - 1], fs[|fs| - 1];
    assert TableOf(fs) == TableOf(init)[last.name := last];
    if i < |init| {
      assert init[i] == fs[i];
      assert last.name != fs[i].name;
      forall j | i < j < |init|
        ensures init[j].name != init[i].name
      {
        assert init[j] == fs[j];
      }
      TableLastWins(init, i);
    }
  }
}
