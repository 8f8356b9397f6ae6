/**
 * The frame discipline of the interpreter (typort-interpreter/src/vm.rs): whatever
 * is evaluated, the frame base is back where it was, the stack never shrinks below
 * its length before, the slots below the frame base (the callers' locals) are never
 * written, and no heap entry disappears. A user call gives the stack back at
 * exactly its length before the call.
 */
module Frames {
  import opened Base
  import Mir
  import opened Semantics

  /** `b` is a state reachable from `a` by evaluating something in the frame of `a`. */
  predicate Extends(a: State, b: State)
  {
    && b.frameBase == a.frameBase
    && |a.stack| <= |b.stack|
    && (forall k :: 0 <= k < a.frameBase && k < |a.stack| ==> b.stack[k] == a.stack[k])
    && a.heap.Keys <= b.heap.Keys
  }

  lemma ExtendsTrans(a: State, b: State, c: State)
    requires Extends(a, b) && Extends(b, c)
    ensures Extends(a, c)
  {
  }

  lemma {:induction false} ExprExtends(fs: Table, e: Expr, st: State, fuel: nat)
    ensures EvalExpr(fs, e, st, fuel).Ok? ==> Extends(st, EvalExpr(fs, e, st, fuel).value.st)
    decreases fuel, Mir.ExprSize(e), 1
  {
    match e
    case Int(_) =>
    case Bool(_) =>
    case Name(_) =>
    case String(_, _) =>
    case Add(l, r) => ArithExtends(fs, Plus, l, r, st, fuel);
    case Sub(l, r) => ArithExtends(fs, Minus, l, r, st, fuel);
    case Mul(l, r) => ArithExtends(fs, Times, l, r, st, fuel);
    case Div(l, r) => ArithExtends(fs, Divide, l, r, st, fuel);
    case Eq(l, r) => EqualityExtends(fs, false, l, r, st, fuel);
    case Neq(l, r) => EqualityExtends(fs, true, l, r, st, fuel);
    case Call(name, args) =>
      if name == "print" {
        PrintExtends(fs, args, st, fuel);
      } else if name == "Array" {
        ArrayExtends(fs, args, st, fuel);
      } else {
        UserCallExtends(fs, name, args, st, fuel);
      }
    case If(c, t, eb) => IfExtends(fs, c, t, eb, st, fuel);
  }

  /** An arithmetic operator: both operands, left then right, then the operator. */
  lemma {:induction false} ArithExtends(fs: Table, op: ArithOp, l: Expr, r: Expr, st: State, fuel: nat)
    ensures EvalArith(fs, op, l, r, st, fuel).Ok? ==> Extends(st, EvalArith(fs, op, l, r, st, fuel).value.st)
    decreases fuel, 2 + Mir.ExprSize(l) + Mir.ExprSize(r), 0
  {
    ExprExtends(fs, l, st, fuel);
    var a := EvalExpr(fs, l, st, fuel);
    if a.Ok? {
      ExprExtends(fs, r, a.value.st, fuel);
      var b := EvalExpr(fs, r, a.value.st, fuel);
      if b.Ok? {
        ExtendsTrans(st, a.value.st, b.value.st);
      }
    }
  }

  /** A comparison: both operands, left then right. */
  lemma {:induction false} EqualityExtends(fs: Table, negate: bool, l: Expr, r: Expr, st: State, fuel: nat)
    ensures EvalEquality(fs, negate, l, r, st, fuel).Ok? ==> Extends(st, EvalEquality(fs, negate, l, r, st, fuel).value.st)
    decreases fuel, 2 + Mir.ExprSize(l) + Mir.ExprSize(r), 0
  {
    ExprExtends(fs, l, st, fuel);
    var a := EvalExpr(fs, l, st, fuel);
    if a.Ok? {
      ExprExtends(fs, r, a.value.st, fuel);
      var b := EvalExpr(fs, r, a.value.st, fuel);
      if b.Ok? {
        ExtendsTrans(st, a.value.st, b.value.st);
      }
    }
  }

  lemma {:induction false} PrintExtends(fs: Table, args: seq<Expr>, st: State, fuel: nat)
    ensures EvalPrint(fs, args, st, fuel).Ok? ==> Extends(st, EvalPrint(fs, args, st, fuel).value.st)
    decreases fuel, 1 + Mir.ListSize(args), 0
  {
    if args != [] {
      ExprExtends(fs, args[0], st, fuel);
    }
  }

  lemma {:induction false} ArrayExtends(fs: Table, args: seq<Expr>, st: State, fuel: nat)
    ensures EvalArray(fs, args, st, fuel).Ok? ==> Extends(st, EvalArray(fs, args, st, fuel).value.st)
    decreases fuel, 1 + Mir.ListSize(args), 0
  {
    ArgsExtend(fs, args, st, [], fuel);
  }

  lemma {:induction false} ArgsExtend(fs: Table, es: seq<Expr>, st: State, acc: seq<Value>, fuel: nat)
    ensures EvalArgs(fs, es, st, acc, fuel).Ok? ==> Extends(st, EvalArgs(fs, es, st, acc, fuel).value.st)
    decreases fuel, Mir.ListSize(es), 1
  {
    if es != [] {
      ExprExtends(fs, es[0], st, fuel);
      var d := EvalExpr(fs, es[0], st, fuel);
      if d.Ok? {
        ArgsExtend(fs, es[1..], d.value.st, acc + [d.value.value], fuel);
        var r := EvalArgs(fs, es[1..], d.value.st, acc + [d.value.value], fuel);
        if r.Ok? {
          ExtendsTrans(st, d.value.st, r.value.st);
        }
      }
    }
  }

  /** Pushing arguments keeps the frame and only makes the stack longer. */
  lemma {:induction false} PushExtends(fs: Table, n: nat, es: seq<Expr>, st: State, fuel: nat)
    ensures PushArgs(fs, n, es, st, fuel).Ok? ==> Extends(st, PushArgs(fs, n, es, st, fuel).value)
    decreases fuel, Mir.ListSize(es), 1
  {
    if n != 0 && es != [] {
      ExprExtends(fs, es[0], st, fuel);
      var d := EvalExpr(fs, es[0], st, fuel);
      if d.Ok? {
        var pushed := d.value.st.(stack := d.value.st.stack + [d.value.value]);
        assert Extends(d.value.st, pushed);
        ExtendsTrans(st, d.value.st, pushed);
        PushExtends(fs, n - 1, es[1..], pushed, fuel);
        var r := PushArgs(fs, n - 1, es[1..], pushed, fuel);
        if r.Ok? {
          ExtendsTrans(st, pushed, r.value);
        }
      }
    }
  }

  /**
   * A user call restores the stack to its length before the call and the frame
   * base to the caller's, leaves the caller's frame below its base untouched and
   * removes no heap entry.
   */
  lemma {:induction false} UserCallExtends(fs: Table, name: string, args: seq<Expr>, st: State, fuel: nat)
    ensures var r := EvalUserCall(fs, name, args, st, fuel);
      r.Ok? ==> Extends(st, r.value.st) && |r.value.st.stack| == |st.stack|
    decreases fuel, 1 + Mir.ListSize(args), 0
  {
    if name in fs {
      var f := fs[name];
      PushExtends(fs, |f.params|, args, st, fuel);
      var pushed := PushArgs(fs, |f.params|, args, st, fuel);
      if pushed.Ok? && fuel > 0 {
        var entry := pushed.value.(frameBase := |st.stack|);
        BlockExtends(fs, f.block, entry, Unit, fuel - 1);
        var body := EvalBlock(fs, f.block, entry, Unit, fuel - 1);
        if body.Ok? {
          var s := body.value.st.stack;
          assert |st.stack| <= |s|;
          var back := Truncate(s, |st.stack|);
          assert |back| == |st.stack|;
          forall k | 0 <= k < st.frameBase && k < |st.stack|
            ensures back[k] == st.stack[k]
          {
            assert back[k] == s[k] == pushed.value.stack[k];
          }
        }
      }
    }
  }

  lemma {:induction false} IfExtends(fs: Table, c: Expr, t: seq<Stmt>, eb: Mir.ElseBlock<nat>, st: State, fuel: nat)
    ensures EvalIf(fs, c, t, eb, st, fuel).Ok? ==> Extends(st, EvalIf(fs, c, t, eb, st, fuel).value.st)
    decreases fuel, Mir.ExprSize(Mir.If(c, t, eb)), 0
  {
    ExprExtends(fs, c, st, fuel);
    var d := EvalExpr(fs, c, st, fuel);
    if d.Ok? {
      if d.value.value == Bool(true) {
        BlockExtends(fs, t, d.value.st, Unit, fuel);
        var r := EvalBlock(fs, t, d.value.st, Unit, fuel);
        if r.Ok? {
          ExtendsTrans(st, d.value.st, r.value.st);
        }
      } else if eb.Else? {
        BlockExtends(fs, eb.stmts, d.value.st, Unit, fuel);
        var r := EvalBlock(fs, eb.stmts, d.value.st, Unit, fuel);
        if r.Ok? {
          ExtendsTrans(st, d.value.st, r.value.st);
        }
      }
    }
  }

  lemma {:induction false} BlockExtends(fs: Table, ss: seq<Stmt>, st: State, ret: Value, fuel: nat)
    ensures EvalBlock(fs, ss, st, ret, fuel).Ok? ==> Extends(st, EvalBlock(fs, ss, st, ret, fuel).value.st)
    decreases fuel, Mir.BlockSize(ss), 1
  {
    if ss != [] {
      StmtExtends(fs, ss[0], st, fuel);
      var d := EvalStmt(fs, ss[0], st, fuel);
      if d.Ok? {
        BlockExtends(fs, ss[1..], d.value.st, d.value.value, fuel);
        var r := EvalBlock(fs, ss[1..], d.value.st, d.value.value, fuel);
        if r.Ok? {
          ExtendsTrans(st, d.value.st, r.value.st);
        }
      }
    }
  }

  lemma {:induction false} StmtExtends(fs: Table, s: Stmt, st: State, fuel: nat)
    ensures EvalStmt(fs, s, st, fuel).Ok? ==> Extends(st, EvalStmt(fs, s, st, fuel).value.st)
    decreases fuel, Mir.StmtSize(s), 1
  {
    match s
    case Expr(e) => ExprExtends(fs, e, st, fuel);
    case Return(e) => ExprExtends(fs, e, st, fuel);
    case Let(_, e) =>
      ExprExtends(fs, e, st, fuel);
      var d := EvalExpr(fs, e, st, fuel);
      if d.Ok? {
        var pushed := d.value.st.(stack := d.value.st.stack + [d.value.value]);
        assert Extends(d.value.st, pushed);
        ExtendsTrans(st, d.value.st, pushed);
      }
    case Assign(slot, e) =>
      ExprExtends(fs, e, st, fuel);
      var d := EvalExpr(fs, e, st, fuel);
      if d.Ok? {
        var r := Store(d.value.st, slot, d.value.value);
        if r.Ok? {
          assert Extends(d.value.st, r.value.st);
          ExtendsTrans(st, d.value.st, r.value.st);
        }
      }
    case While(c, b) => WhileExtends(fs, c, b, st, Unit, fuel);
  }

  lemma {:induction false} WhileExtends(fs: Table, c: Expr, b: seq<Stmt>, st: State, ret: Value, fuel: nat)
    ensures EvalWhile(fs, c, b, st, ret, fuel).Ok? ==> Extends(st, EvalWhile(fs, c, b, st, ret, fuel).value.st)
    decreases fuel, 1 + Mir.ExprSize(c) + Mir.BlockSize(b), 1
  {
    ExprExtends(fs, c, st, fuel);
    var d := EvalExpr(fs, c, st, fuel);
    if d.Ok? && d.value.value == Bool(true) {
      BlockExtends(fs, b, d.value.st, Unit, fuel);
      var r := EvalBlock(fs, b, d.value.st, Unit, fuel);
      if r.Ok? && fuel > 0 {
        ExtendsTrans(st, d.value.st, r.value.st);
        WhileExtends(fs, c, b, r.value.st, r.value.value, fuel - 1);
        var w := EvalWhile(fs, c, b, r.value.st, r.value.value, fuel - 1);
        if w.Ok? {
          ExtendsTrans(st, r.value.st, w.value.st);
        }
      }
    }
  }
}
