/**
 * The built-in functions of typort-interpreter/src/built_in.rs, which act on an
 * `Interpreter` and already-evaluated arguments. What `bi_print` writes to the
 * console is not modelled; what it requires of the heap and what it returns is.
 */
module BuiltIn {
  import Mir
  import opened Semantics
  import Vm

  /**
   * What `bi_print` returns for `vs`: `Unit` when every value can be printed,
   * otherwise the panic for the first heap id that is not in the heap.
   */
  function PrintAll(h: Heap, vs: seq<Value>): (r: Result<Value>)
    ensures r.Ok? <==> forall i :: 0 <= i < |vs| ==> Printable(h, vs[i])
    ensures r.Ok? ==> r.value == Unit
    ensures r.Err? ==> exists i :: 0 <= i < |vs| && !Printable(h, vs[i])
                          && r.error == MissingHeapEntry(vs[i].id)
                          && forall j :: 0 <= j < i ==> Printable(h, vs[j])
  {
    if vs == [] then Ok(Unit)
    else if !Printable(h, vs[0]) then Err(MissingHeapEntry(vs[0].id))
    else
      var r := PrintAll(h, vs[1..]);
      assert forall i :: 1 <= i < |vs| ==> vs[i] == vs[1..][i - 1];
      r
  }

  /**
   * The interpreter's `print` branch is `bi_print` on the value of the first
   * argument alone, in the state that argument leaves.
   */
  lemma PrintIsBiPrint(fs: Table, args: seq<Expr>, st: State, fuel: nat)
    requires args != []
    ensures var d := EvalExpr(fs, args[0], st, fuel);
      d.Ok? ==> (
        EvalExpr(fs, Mir.Call("print", args), st, fuel) ==
          match PrintAll(d.value.st.heap, [d.value.value])
          case Ok(v) => Ok(Done(v, d.value.st))
          case Err(e) => Err(e))
  {
  }

  /** `bi_print`: looks each heap id up, in order, and changes nothing. */
  method BiPrint(vm: Vm.Interpreter, args: seq<Value>) returns (r: Result<Value>)
    ensures r == PrintAll(vm.heap, args)
  {
    for i := 0 to |args|
      invariant forall j :: 0 <= j < i ==> Printable(vm.heap, args[j])
    {
      if args[i].HeapId? && args[i].id !in vm.heap {
        return Err(MissingHeapEntry(args[i].id));
      }
    }
    r := Ok(Unit);
  }

  /** `bi_array`: stores the arguments, in order, as a `Vec` under the key `heap.len()`. */
  method BiArray(vm: Vm.Interpreter, args: seq<Value>) returns (r: Value)
    modifies vm
    ensures r == HeapId(|old(vm.heap)|)
    ensures vm.heap == Alloc(old(vm.heap), args)
    ensures vm.stack == old(vm.stack) && vm.frameBase == old(vm.frameBase)
  {
    var idx := |vm.heap|;
    vm.heap := vm.heap[idx := Vec(args)];
    r := HeapId(idx);
  }
}
