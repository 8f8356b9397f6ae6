/**
 * What the tree-walking interpreter of typort-interpreter/src/vm.rs computes, as
 * functions of the interpreter state. Every `panic!` and failed `unwrap` of the
 * interpreter is an `Err`. Interpreted loops and calls need not terminate, so the
 * evaluation carries fuel: each user-function call and each `while` iteration
 * spends one unit, and running out is the error `OutOfFuel`.
 */
module Semantics {
  import opened Base
  import Mir

  /** The interpreter runs MIR whose names are stack slots. */
  type Expr = Mir.Expression<nat>
  type Stmt = Mir.Stmt<nat>
  type Table = map<string, Mir.Func<nat>>

  datatype Value = Int(i: i64) | Bool(b: bool) | HeapId(id: nat) | Unit

  datatype HeapValue = Vec(items: seq<Value>) | String(text: string)

  type Heap = map<nat, HeapValue>

  /** The mutable part of an `Interpreter`: the shared stack, the heap and `func_stack_offset`. */
  datatype State = State(stack: seq<Value>, heap: Heap, frameBase: nat)

  /** The ways evaluation can stop early: the interpreter's panics, and running out of fuel. */
  datatype Error =
    | ExpectInt
    | ExpectSameType
    | Overflow
    | DivisionByZero
    | NoSlot(index: nat)
    | MissingArgument
    | MissingHeapEntry(id: nat)
    | UnknownFunction(name: string)
    | OutOfFuel

  datatype Result<T> = Ok(value: T) | Err(error: Error) {
    predicate IsFailure() { Err? }
    function PropagateFailure<U>(): Result<U>
      requires Err?
    {
      Err(error)
    }
    function Extract(): T
      requires Ok?
    {
      value
    }
  }

  /** A value together with the state after computing it. */
  datatype Done = Done(value: Value, st: State)

  /** Several values together with the state after computing them. */
  datatype Vals = Vals(values: seq<Value>, st: State)

  // ----- Arithmetic on i64 -----

  datatype ArithOp = Plus | Minus | Times | Divide

  function Abs(x: int): nat { if x < 0 then -x else x }

  /** Rust's integer division, which rounds toward zero: the magnitude is that of the magnitudes, the sign that of the operands. */
  function TruncDiv(a: int, b: int): (q: int)
    requires b != 0
    ensures Abs(q) == Abs(a) / Abs(b)
    ensures q > 0 ==> (a < 0) == (b < 0)
    ensures q < 0 ==> (a < 0) != (b < 0)
  {
    var m := NatDiv(Abs(a), Abs(b));
    if (a < 0) == (b < 0) then m else -(m as int)
  }

  function NatDiv(x: nat, y: nat): nat
    requires y > 0
  {
    x / y
  }

  /** The mathematical result of an operator. */
  function Exact(op: ArithOp, a: int, b: int): int
    requires op == Divide ==> b != 0
  {
    match op
    case Plus => a + b
    case Minus => a - b
    case Times => a * b
    case Divide => TruncDiv(a, b)
  }

  /**
   * The closure passed to `int_func`, with the panics of Rust's checked `i64`
   * arithmetic: a result out of range, and division by zero.
   */
  function Apply(op: ArithOp, a: i64, b: i64): (r: Result<i64>)
    ensures op == Divide && b == 0 ==> r == Err(DivisionByZero)
    ensures !(op == Divide && b == 0) ==>
      if I64_MIN <= Exact(op, a, b) <= I64_MAX then r == Ok(Exact(op, a, b)) else r == Err(Overflow)
  {
    if op == Divide && b == 0 then Err(DivisionByZero)
    else
      var x := Exact(op, a, b);
      if I64_MIN <= x <= I64_MAX then Ok(x) else Err(Overflow)
  }

  // ----- Stack and heap primitives -----

  /** `*self.stack.get(self.func_stack_offset + slot).unwrap()`. */
  function Load(st: State, slot: nat): Result<Done>
  {
    var k := st.frameBase + slot;
    if k < |st.stack| then Ok(Done(st.stack[k], st)) else Err(NoSlot(k))
  }

  /** `*self.stack.get_mut(self.func_stack_offset + slot).unwrap() = v`. */
  function Store(st: State, slot: nat, v: Value): Result<Done>
  {
    var k := st.frameBase + slot;
    if k < |st.stack| then Ok(Done(Unit, st.(stack := st.stack[k := v]))) else Err(NoSlot(k))
  }

  /** `Vec::truncate`: drop everything from index `n` on; a shorter vector is left alone. */
  function Truncate(s: seq<Value>, n: nat): (r: seq<Value>)
    ensures |r| == if n < |s| then n else |s|
    ensures r == s[..|r|]
  {
    if n < |s| then s[..n] else s
  }

  /** The allocation of `Array` and `bi_array`: a `Vec` stored under the key `heap.len()`. */
  function Alloc(h: Heap, vs: seq<Value>): (r: Heap)
    ensures r.Keys == h.Keys + {|h|}
    ensures r[|h|] == Vec(vs)
    ensures forall k :: k in h && k != |h| ==> r[k] == h[k]
  {
    h[|h| := Vec(vs)]
  }

  /** What `print` needs to print a value: a heap id must be present in the heap. */
  predicate Printable(h: Heap, v: Value)
  {
    v.HeapId? ==> v.id in h
  }

  // ----- Evaluation -----

  /** `translate_expr`. */
  function EvalExpr(fs: Table, e: Expr, st: State, fuel: nat): Result<Done>
    decreases fuel, Mir.ExprSize(e), 1
  {
    match e
    case Int(x) => Ok(Done(Int(x), st))
    case Bool(b) => Ok(Done(Bool(b), st))
    case Name(slot) => Load(st, slot)
    case String(idx, t) => Ok(Done(HeapId(idx), st.(heap := st.heap[idx := String(t)])))
    case Add(l, r) => EvalArith(fs, Plus, l, r, st, fuel)
    case Sub(l, r) => EvalArith(fs, Minus, l, r, st, fuel)
    case Mul(l, r) => EvalArith(fs, Times, l, r, st, fuel)
    case Div(l, r) => EvalArith(fs, Divide, l, r, st, fuel)
    case Eq(l, r) => EvalEquality(fs, false, l, r, st, fuel)
    case Neq(l, r) => EvalEquality(fs, true, l, r, st, fuel)
    case Call(name, args) =>
      if name == "print" then EvalPrint(fs, args, st, fuel)
      else if name == "Array" then EvalArray(fs, args, st, fuel)
      else EvalUserCall(fs, name, args, st, fuel)
    case If(c, t, eb) => EvalIf(fs, c, t, eb, st, fuel)
  }

  /** `int_func`: both operands left to right, then the operator on two `Int`s. */
  function EvalArith(fs: Table, op: ArithOp, l: Expr, r: Expr, st: State, fuel: nat): Result<Done>
    decreases fuel, 2 + Mir.ExprSize(l) + Mir.ExprSize(r), 0
  {
    var a :- EvalExpr(fs, l, st, fuel);
    var b :- EvalExpr(fs, r, a.st, fuel);
    if a.value.Int? && b.value.Int? then
      var x :- Apply(op, a.value.i, b.value.i);
      Ok(Done(Int(x), b.st))
    else
      Err(ExpectInt)
  }

  /** `==` (`negate` false) and `!=` (`negate` true) on two `Int`s or two `Bool`s. */
  function EvalEquality(fs: Table, negate: bool, l: Expr, r: Expr, st: State, fuel: nat): Result<Done>
    decreases fuel, 2 + Mir.ExprSize(l) + Mir.ExprSize(r), 0
  {
    var a :- EvalExpr(fs, l, st, fuel);
    var b :- EvalExpr(fs, r, a.st, fuel);
    if a.value.Int? && b.value.Int? then Ok(Done(Bool((a.value.i == b.value.i) != negate), b.st))
    else if a.value.Bool? && b.value.Bool? then Ok(Done(Bool((a.value.b == b.value.b) != negate), b.st))
    else Err(ExpectSameType)
  }

  /** The built-in `print`: only the first argument is evaluated; a heap id must be in the heap. */
  function EvalPrint(fs: Table, args: seq<Expr>, st: State, fuel: nat): Result<Done>
    decreases fuel, 1 + Mir.ListSize(args), 0
  {
    if args == [] then Err(MissingArgument)
    else
      var d :- EvalExpr(fs, args[0], st, fuel);
      if Printable(d.st.heap, d.value) then Ok(Done(Unit, d.st)) else Err(MissingHeapEntry(d.value.id))
  }

  /** The built-in `Array`: every argument left to right, then a fresh `Vec` at `heap.len()`. */
  function EvalArray(fs: Table, args: seq<Expr>, st: State, fuel: nat): Result<Done>
    decreases fuel, 1 + Mir.ListSize(args), 0
  {
    var vs :- EvalArgs(fs, args, st, [], fuel);
    Ok(Done(HeapId(|vs.st.heap|), vs.st.(heap := Alloc(vs.st.heap, vs.values))))
  }

  /** Evaluates `es` left to right, appending the values to `acc`. */
  function EvalArgs(fs: Table, es: seq<Expr>, st: State, acc: seq<Value>, fuel: nat): Result<Vals>
    decreases fuel, Mir.ListSize(es), 1
  {
    if es == [] then Ok(Vals(acc, st))
    else
      var d :- EvalExpr(fs, es[0], st, fuel);
      EvalArgs(fs, es[1..], d.st, acc + [d.value], fuel)
  }

  /**
   * A call of a user function: look the function up, push the first
   * `min(#params, #args)` arguments evaluated in the caller's frame, run the body
   * with the frame base at the stack length before the call, then truncate the
   * stack back to that length and restore the caller's frame base.
   */
  function EvalUserCall(fs: Table, name: string, args: seq<Expr>, st: State, fuel: nat): Result<Done>
    decreases fuel, 1 + Mir.ListSize(args), 0
  {
    if name !in fs then Err(UnknownFunction(name))
    else
      var f := fs[name];
      var pushed :- PushArgs(fs, |f.params|, args, st, fuel);
      if fuel == 0 then Err(OutOfFuel)
      else
        var body :- EvalBlock(fs, f.block, pushed.(frameBase := |st.stack|), Unit, fuel - 1);
        Ok(Done(body.value, body.st.(stack := Truncate(body.st.stack, |st.stack|), frameBase := st.frameBase)))
  }

  /** The `zip` of the parameters with the arguments: at most `n` arguments, each pushed once evaluated. */
  function PushArgs(fs: Table, n: nat, es: seq<Expr>, st: State, fuel: nat): Result<State>
    decreases fuel, Mir.ListSize(es), 1
  {
    if n == 0 || es == [] then Ok(st)
    else
      var d :- EvalExpr(fs, es[0], st, fuel);
      PushArgs(fs, n - 1, es[1..], d.st.(stack := d.st.stack + [d.value]), fuel)
  }

  /** `if`: the then-block only on `Bool(true)`, otherwise the else-block if there is one. */
  function EvalIf(fs: Table, c: Expr, t: seq<Stmt>, eb: Mir.ElseBlock<nat>, st: State, fuel: nat): Result<Done>
    decreases fuel, Mir.ExprSize(Mir.If(c, t, eb)), 0
  {
    var d :- EvalExpr(fs, c, st, fuel);
    if d.value == Bool(true) then EvalBlock(fs, t, d.st, Unit, fuel)
    else
      match eb
      case NoElse => Ok(Done(Unit, d.st))
      case Else(b) => EvalBlock(fs, b, d.st, Unit, fuel)
  }

  /** `translate_block` from the point where `ret` holds the last value: the statements in order. */
  function EvalBlock(fs: Table, ss: seq<Stmt>, st: State, ret: Value, fuel: nat): Result<Done>
    decreases fuel, Mir.BlockSize(ss), 1
  {
    if ss == [] then Ok(Done(ret, st))
    else
      var d :- EvalStmt(fs, ss[0], st, fuel);
      EvalBlock(fs, ss[1..], d.st, d.value, fuel)
  }

  /** `translate_stmt`. */
  function EvalStmt(fs: Table, s: Stmt, st: State, fuel: nat): Result<Done>
    decreases fuel, Mir.StmtSize(s), 1
  {
    match s
    case Expr(e) => EvalExpr(fs, e, st, fuel)
    case Let(_, e) =>
      var d :- EvalExpr(fs, e, st, fuel);
      Ok(Done(Unit, d.st.(stack := d.st.stack + [d.value])))
    case Assign(slot, e) =>
      var d :- EvalExpr(fs, e, st, fuel);
      Store(d.st, slot, d.value)
    case Return(e) => EvalExpr(fs, e, st, fuel)
    case While(c, b) => EvalWhile(fs, c, b, st, Unit, fuel)
  }

  /** The `while let Value::Bool(true) = cond` loop from the point where `ret` holds the last value. */
  function EvalWhile(fs: Table, c: Expr, b: seq<Stmt>, st: State, ret: Value, fuel: nat): Result<Done>
    decreases fuel, 1 + Mir.ExprSize(c) + Mir.BlockSize(b), 1
  {
    var d :- EvalExpr(fs, c, st, fuel);
    if d.value != Bool(true) then Ok(Done(ret, d.st))
    else
      var r :- EvalBlock(fs, b, d.st, Unit, fuel);
      if fuel == 0 then Err(OutOfFuel) else EvalWhile(fs, c, b, r.st, r.value, fuel - 1)
  }

  /** `run`: the block of `main`, which must exist. */
  function EvalMain(fs: Table, st: State, fuel: nat): Result<Done>
  {
    if "main" !in fs then Err(UnknownFunction("main")) else EvalBlock(fs, fs["main"].block, st, Unit, fuel)
  }

  /** The function table of `Interpreter::new`: keyed by name, a later function replacing an earlier one. */
  function TableOf(fs: seq<Mir.Func<nat>>): Table
  {
    if fs == [] then map[] else TableOf(fs[..|fs| - 1])[fs[|fs| - 1].name := fs[|fs| - 1]]
  }
}
