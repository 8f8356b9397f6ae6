/**
 * The interpreter of typort-interpreter/src/vm.rs as a class over its mutable
 * state. Each method returns `Err` where the Rust code panics, and is proved to
 * compute exactly what the matching function of `Semantics` describes: the same
 * value, or the same error, and on success the same new state.
 *
 * The branches of `translate_expr` for `==`/`!=`, `print`, `Array`, user calls and
 * `if` are written inline in vm.rs; here each is a method of its own so that its
 * proof stays small. Every method takes the fuel of `Semantics`.
 */
module Vm {
  import opened Base
  import Mir
  import opened Semantics

  /** A method's result and final state agree with what the semantics prescribes. */
  predicate Agrees(spec: Result<Done>, r: Result<Value>, now: State)
  {
    match spec
    case Ok(d) => r == Ok(d.value) && now == d.st
    case Err(e) => r == Err(e)
  }

  class Interpreter {
    var stack: seq<Value>
    var heap: Heap
    const funcs: Table
    var frameBase: nat

    /** The state the semantics talks about. */
    function Snapshot(): State
      reads this
    {
      State(stack, heap, frameBase)
    }

    /** `Interpreter::new`: the table of the given functions, an empty stack and heap. */
    constructor (fs: seq<Mir.Func<nat>>)
      ensures funcs == TableOf(fs)
      ensures stack == [] && heap == map[] && frameBase == 0
    {
      var table: Table := map[];
      for i := 0 to |fs|
        invariant table == TableOf(fs[..i])
      {
        assert fs[..i + 1][..i] == fs[..i];
        table := table[fs[i].name := fs[i]];
      }
      assert fs[..|fs|] == fs;
      funcs := table;
      stack := [];
      heap := map[];
      frameBase := 0;
    }

    /** `run`: the block of `main`. */
    method Run(fuel: nat) returns (r: Result<Value>)
      modifies this
      ensures Agrees(EvalMain(funcs, old(Snapshot()), fuel), r, Snapshot())
    {
      if "main" !in funcs {
        return Err(UnknownFunction("main"));
      }
      r := TranslateBlock(funcs["main"].block, fuel);
    }

    /** `translate_block`. */
    method TranslateBlock(ss: seq<Stmt>, fuel: nat) returns (r: Result<Value>)
      modifies this
      ensures Agrees(EvalBlock(funcs, ss, old(Snapshot()), Unit, fuel), r, Snapshot())
      decreases fuel, Mir.BlockSize(ss), 1
    {
      var ret := Unit;
      for i := 0 to |ss|
        invariant EvalBlock(funcs, ss, old(Snapshot()), Unit, fuel) == EvalBlock(funcs, ss[i..], Snapshot(), ret, fuel)
      {
        assert ss[i..][0] == ss[i] && ss[i..][1..] == ss[i + 1..];
        Mir.StmtSmaller(ss, i);
        ret :- TranslateStmt(ss[i], fuel);
      }
      r := Ok(ret);
    }

    /** `translate_stmt`. */
    method TranslateStmt(s: Stmt, fuel: nat) returns (r: Result<Value>)
      modifies this
      ensures Agrees(EvalStmt(funcs, s, old(Snapshot()), fuel), r, Snapshot())
      decreases fuel, Mir.StmtSize(s), 1
    {
      match s
      case Expr(e) =>
        r := TranslateExpr(e, fuel);
      case Let(_, e) =>
        var v :- TranslateExpr(e, fuel);
        stack := stack + [v];
        r := Ok(Unit);
      case Assign(slot, e) =>
        var v :- TranslateExpr(e, fuel);
        var k := frameBase + slot;
        if k >= |stack| {
          return Err(NoSlot(k));
        }
        stack := stack[k := v];
        r := Ok(Unit);
      case Return(e) =>
        r := TranslateExpr(e, fuel);
      case While(c, b) =>
        var ret := Unit;
        var left: nat := fuel;
        while true
          invariant left <= fuel
          invariant EvalStmt(funcs, s, old(Snapshot()), fuel) == EvalWhile(funcs, c, b, Snapshot(), ret, left)
          decreases left
        {
          var cond :- TranslateExpr(c, left);
          if cond != Bool(true) {
            return Ok(ret);
          }
          ret :- TranslateBlock(b, left);
          if left == 0 {
            return Err(OutOfFuel);
          }
          left := left - 1;
        }
    }

    /** `translate_expr`. */
    method TranslateExpr(e: Expr, fuel: nat) returns (r: Result<Value>)
      modifies this
      ensures Agrees(EvalExpr(funcs, e, old(Snapshot()), fuel), r, Snapshot())
      decreases fuel, Mir.ExprSize(e), 1
    {
      match e
      case Int(x) =>
        r := Ok(Int(x));
      case String(idx, t) =>
        heap := heap[idx := String(t)];
        r := Ok(HeapId(idx));
      case Bool(b) =>
        r := Ok(Bool(b));
      case Name(slot) =>
        var k := frameBase + slot;
        if k < |stack| {
          r := Ok(stack[k]);
        } else {
          r := Err(NoSlot(k));
        }
      case Add(x, y) =>
        r := IntFunc(Plus, x, y, fuel);
      case Sub(x, y) =>
        r := IntFunc(Minus, x, y, fuel);
      case Mul(x, y) =>
        r := IntFunc(Times, x, y, fuel);
      case Div(x, y) =>
        r := IntFunc(Divide, x, y, fuel);
      case Eq(x, y) =>
        r := Equality(false, x, y, fuel);
      case Neq(x, y) =>
        r := Equality(true, x, y, fuel);
      case Call(name, args) =>
        if name == "print" {
          r := Print(args, fuel);
        } else if name == "Array" {
          r := MakeArray(args, fuel);
        } else {
          r := UserCall(name, args, fuel);
        }
      case If(c, t, eb) =>
        r := IfExpr(c, t, eb, fuel);
    }

    /** `int_func`: evaluate both operands, then apply the operator to two `Int`s. */
    method IntFunc(op: ArithOp, x: Expr, y: Expr, fuel: nat) returns (r: Result<Value>)
      modifies this
      ensures Agrees(EvalArith(funcs, op, x, y, old(Snapshot()), fuel), r, Snapshot())
      decreases fuel, 2 + Mir.ExprSize(x) + Mir.ExprSize(y), 0
    {
      ghost var start := Snapshot();
      var a :- TranslateExpr(x, fuel);
      ghost var mid := Snapshot();
      var b :- TranslateExpr(y, fuel);
      assert EvalExpr(funcs, x, start, fuel) == Ok(Done(a, mid));
      assert EvalExpr(funcs, y, mid, fuel) == Ok(Done(b, Snapshot()));
      if a.Int? && b.Int? {
        var v := Apply(op, a.i, b.i);
        assert EvalArith(funcs, op, x, y, start, fuel) == match v case Ok(n) => Ok(Done(Int(n), Snapshot())) case Err(e) => Err(e);
        if v.Err? {
          return Err(v.error);
        }
        r := Ok(Int(v.value));
      } else {
        assert EvalArith(funcs, op, x, y, start, fuel) == Err(ExpectInt);
        r := Err(ExpectInt);
      }
    }

    /** The `Eq` (`negate` false) and `Neq` (`negate` true) branches. */
    method Equality(negate: bool, x: Expr, y: Expr, fuel: nat) returns (r: Result<Value>)
      modifies this
      ensures Agrees(EvalEquality(funcs, negate, x, y, old(Snapshot()), fuel), r, Snapshot())
      decreases fuel, 2 + Mir.ExprSize(x) + Mir.ExprSize(y), 0
    {
      var a :- TranslateExpr(x, fuel);
      var b :- TranslateExpr(y, fuel);
      if a.Int? && b.Int? {
        r := Ok(Bool((a.i == b.i) != negate));
      } else if a.Bool? && b.Bool? {
        r := Ok(Bool((a.b == b.b) != negate));
      } else {
        r := Err(ExpectSameType);
      }
    }

    /** The `print` branch: the first argument only, whose heap entry must exist. */
    method Print(args: seq<Expr>, fuel: nat) returns (r: Result<Value>)
      modifies this
      ensures Agrees(EvalPrint(funcs, args, old(Snapshot()), fuel), r, Snapshot())
      decreases fuel, 1 + Mir.ListSize(args), 0
    {
      if |args| == 0 {
        return Err(MissingArgument);
      }
      Mir.ArgSmaller(args, 0);
      var v :- TranslateExpr(args[0], fuel);
      if v.HeapId? && v.id !in heap {
        return Err(MissingHeapEntry(v.id));
      }
      r := Ok(Unit);
    }

    /** The `Array` branch: every argument, then a `Vec` stored under `heap.len()`. */
    method MakeArray(args: seq<Expr>, fuel: nat) returns (r: Result<Value>)
      modifies this
      ensures Agrees(EvalArray(funcs, args, old(Snapshot()), fuel), r, Snapshot())
      decreases fuel, 1 + Mir.ListSize(args), 0
    {
      var values: seq<Value> := [];
      for i := 0 to |args|
        invariant EvalArgs(funcs, args, old(Snapshot()), [], fuel) == EvalArgs(funcs, args[i..], Snapshot(), values, fuel)
      {
        assert args[i..][0] == args[i] && args[i..][1..] == args[i + 1..];
        Mir.ArgSmaller(args, i);
        var v :- TranslateExpr(args[i], fuel);
        values := values + [v];
      }
      var idx := |heap|;
      heap := heap[idx := Vec(values)];
      r := Ok(HeapId(idx));
    }

    /**
     * A call of a user function: push the arguments `zip` pairs with parameters,
     * run the body in a frame starting at the old stack length, then truncate the
     * stack and restore the caller's frame base.
     */
    method UserCall(name: string, args: seq<Expr>, fuel: nat) returns (r: Result<Value>)
      modifies this
      ensures Agrees(EvalUserCall(funcs, name, args, old(Snapshot()), fuel), r, Snapshot())
      decreases fuel, 1 + Mir.ListSize(args), 0
    {
      if name !in funcs {
        return Err(UnknownFunction(name));
      }
      var f := funcs[name];
      var oldBase := frameBase;
      var nextBase := |stack|;
      var i := 0;
      while i < |f.params| && i < |args|
        invariant i <= |args| && i <= |f.params|
        invariant PushArgs(funcs, |f.params|, args, old(Snapshot()), fuel)
               == PushArgs(funcs, |f.params| - i, args[i..], Snapshot(), fuel)
        decreases |args| - i
      {
        assert args[i..][0] == args[i] && args[i..][1..] == args[i + 1..];
        Mir.ArgSmaller(args, i);
        var v :- TranslateExpr(args[i], fuel);
        stack := stack + [v];
        i := i + 1;
      }
      frameBase := nextBase;
      if fuel == 0 {
        return Err(OutOfFuel);
      }
      var ret :- TranslateBlock(f.block, fuel - 1);
      stack := Truncate(stack, nextBase);
      frameBase := oldBase;
      r := Ok(ret);
    }

    /** The `If` branch: the then-block only on `Bool(true)`. */
    method IfExpr(c: Expr, t: seq<Stmt>, eb: Mir.ElseBlock<nat>, fuel: nat) returns (r: Result<Value>)
      modifies this
      ensures Agrees(EvalIf(funcs, c, t, eb, old(Snapshot()), fuel), r, Snapshot())
      decreases fuel, Mir.ExprSize(Mir.If(c, t, eb)), 0
    {
      var cond :- TranslateExpr(c, fuel);
      if cond == Bool(true) {
        r := TranslateBlock(t, fuel);
      } else if eb.Else? {
        r := TranslateBlock(eb.stmts, fuel);
      } else {
        r := Ok(Unit);
      }
    }
  }
}
