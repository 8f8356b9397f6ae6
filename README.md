# TyportHDL interpreter core in Dafny

This project models the small language pipeline of TyportHDL:

- the hand-written token scanners of the parser crate: `name` and `int` in typort-parser/src/lib.rs, and `id` and `varid` in typort-parser/src/lex.rs;
- the two lowering passes from the parser's syntax tree to the HIR (hir.rs) and from the HIR to the MIR (mir.rs);
- the tree-walking interpreter `Interpreter` (vm.rs) with its built-ins `bi_print` and `bi_array` (built_in.rs);
- the printer of the `Type` enum (ty.rs).

Modules:

- `Base`: `i64`, bytes, `Span`, `Location`, and the scanner result.
- `Scanner` and `Lex`: each scanner is a loop method, proved equal to a function that states what it reads.
- `Ast`, `Hir`, `Mir`: the three trees and the lowering functions, with round-trip lemmas between them.
- `Semantics`: what the interpreter computes, as functions of its state.
  - Every `panic!` and failed `unwrap` is an `Err`.
  - Loops and calls spend fuel.
- `Vm`: the class `Interpreter`, whose fields `stack`, `heap`, `funcs` and `frameBase` (`func_stack_offset`) are updated in place. Each method is proved to agree with the matching `Semantics` function.
- `Frames`: the frame discipline of the interpreter.
- `Laws`: the behaviour of each construct, and what the counting loop of a `for` computes.
- `BuiltIn`: the two built-ins.
- `Ty`: the type printer.

The interpreter executes MIR in which a name is a stack slot relative to the current frame base. vm.rs reads `name.data` as a `usize` and handles `Expression::String(idx, text)`. The mir.rs of the same tree still carries names as strings and has no `String` variant. The model therefore makes the MIR generic in its name payload:

- the lowering produces `Mir.Expression<string>`;
- the interpreter runs `Mir.Expression<nat>`;
- the step that assigns slots is not part of this model.

The interpreter fixes the callee's frame base at the stack length before it evaluates the arguments, and evaluates them in the caller's frame (vm.rs:136-142). An argument whose block runs `let` therefore shifts the callee's parameters, and one that assigns a variable changes the caller's frame. The model keeps this behaviour, and `Laws.ArgumentLetShiftsParams` and `Laws.ArgumentWritesCallerSlot` show it on two small programs. The laws about parameters assume pure arguments.

The parser's `Stmt` in lib.rs declares only `Expr`, `Let` and `Return`, but hir.rs also matches `Assign`, `While` and `For`. `Ast.Stmt` has all six kinds, following hir.rs.

## Model

| member | source | states |
|---|---|---|
| Scanner.NameScan | typort-parser/src/lib.rs:11-45 | a first byte that is not an ASCII letter is refused and nothing is consumed; otherwise the token is that letter plus the longest run of ASCII alphanumerics and `_`, the token and the rest make up the input, and offset and column advance by its length |
| Scanner.Name | typort-parser/src/lib.rs:11-45 | the counting loop over the byte iterator returns exactly `NameScan` |
| Scanner.NameOfEmptyInput | typort-parser/src/lib.rs:14-44 | on empty input the scanner succeeds with an empty token and does not move |
| Scanner.IntScan | typort-parser/src/lib.rs:50-83 | a first byte that is neither a digit nor a sign is refused; otherwise the token is that byte plus the digits after it, its value is the signed decimal value, and `parse().unwrap()` panics exactly on empty input, a lone sign, or a value outside `i64` |
| Scanner.Int | typort-parser/src/lib.rs:50-83 | the loop and `parse::<i64>().unwrap()` return exactly `IntScan` |
| Scanner.DecimalValueOfDigits | typort-parser/src/lib.rs:70-73 | the decimal spelling of `n` parses back to `n` |
| Scanner.DigitRunEndUnique | typort-parser/src/lib.rs:60-69 | the loop's stopping index is the only end of the digit run |
| Scanner.IntScanReadsDigits | typort-parser/src/lib.rs:50-83 | scanning the spelling of any non-negative `i64`, followed by a non-digit, gives that number and leaves the rest unread |
| Scanner.IntScanReadsNegative | typort-parser/src/lib.rs:50-83 | the same for `-` followed by the spelling of any `n` from 0 up to 2^63, which gives `-n` |
| Scanner.LoneSignPanics | typort-parser/src/lib.rs:70-73 | a `+` or `-` not followed by a digit makes the `unwrap` panic |
| Lex.IdScan | typort-parser/src/lex.rs:30-58 | a first char that is not alphabetic is refused without consuming; otherwise the token is the identifier run |
| Lex.VarIdScan | typort-parser/src/lex.rs:63-91 | the same with a lower-case ASCII letter as the only accepted first char |
| Lex.Accept | typort-parser/src/lex.rs:40-57 | the token and the rest make up the input, the token's tail chars are alphanumeric or `_`, the rest does not start with one, and the location advances by the token length |
| Lex.Id | typort-parser/src/lex.rs:30-58 | the loop returns exactly `IdScan` |
| Lex.VarId | typort-parser/src/lex.rs:63-91 | the loop returns exactly `VarIdScan` |
| Lex.ScanTail | typort-parser/src/lex.rs:40-46 | the counting loop stops at the end of the identifier run |
| Lex.VarIdImpliesId | typort-parser/src/lex.rs:29-91 | every input `varid` accepts is accepted by `id` with the same token and location |
| Lex.EmptyInputGivesEmptyToken | typort-parser/src/lex.rs:33-57 | both scanners succeed on empty input with an empty token |
| Lex.ByteLen | typort-parser/src/lex.rs:48 | a string's UTF-8 length is at least its char count, and equal exactly when it is ASCII |
| Lex.CutIntended | typort-parser/src/lex.rs:48 | the end of the first `len` chars is a char boundary of the input |
| Lex.CutsAgreeOnAscii | typort-parser/src/lex.rs:48 | cutting at the char count equals cutting at the byte length exactly when the accepted chars are ASCII |
| Lex.CutAsWrittenSplitsChar | typort-parser/src/lex.rs:48 | on "é" the cut as written falls inside the char |
| Hir.FromAstArgs | typort-interpreter/src/hir.rs:42-44 | call arguments are converted one for one |
| Hir.ConvertStmt | typort-interpreter/src/hir.rs:72-92 | every statement but `for` becomes one statement of the same kind; a `for` becomes a `let` followed by a `while` |
| Hir.ParseToHir | typort-interpreter/src/hir.rs:94-107 | every function, in order, keeps its name, its parameters, its return type, and the lowered body |
| Hir.LowerEmbedExpr | typort-interpreter/src/hir.rs:18-51 | every HIR expression is the lowering of a parser expression: lowering is onto |
| Hir.LowerEmbedIf | typort-interpreter/src/hir.rs:45-49 | the same for `if` with or without `else` |
| Hir.LowerEmbedArgs | typort-interpreter/src/hir.rs:42-44 | the same for argument lists |
| Hir.LowerEmbedBlock | typort-interpreter/src/hir.rs:72-92 | the same for blocks |
| Hir.LowerEmbedStmt | typort-interpreter/src/hir.rs:72-80 | the same for single statements |
| Hir.EmbedLowerExpr | typort-interpreter/src/hir.rs:18-51 | on a tree without `for`, lowering loses nothing: the parser expression is recovered |
| Hir.EmbedLowerIf | typort-interpreter/src/hir.rs:45-49 | the same for `if` |
| Hir.EmbedLowerArgs | typort-interpreter/src/hir.rs:42-44 | the same for argument lists |
| Hir.EmbedLowerBlock | typort-interpreter/src/hir.rs:72-92 | the same for blocks |
| Hir.EmbedLowerStmt | typort-interpreter/src/hir.rs:72-80 | a statement without `for` lowers to exactly one statement that reads back as itself |
| Hir.EmbedIsForFree | typort-interpreter/src/hir.rs:62-70 | the HIR has no `for`: every lowered block reads back without one |
| Hir.EmbedStmtIsForFree | typort-interpreter/src/hir.rs:62-70 | the same for statements |
| Hir.EmbedExprIsForFree | typort-interpreter/src/hir.rs:3-16 | the same for expressions |
| Hir.EmbedArgsIsForFree | typort-interpreter/src/hir.rs:14 | the same for argument lists |
| Hir.ConvertBlockLength | typort-interpreter/src/hir.rs:72-92 | a lowered block has one statement per source statement plus one per top-level `for` |
| Hir.ConvertBlockAppend | typort-interpreter/src/hir.rs:104 | `flat_map(convert_stmt)` distributes over concatenation of blocks |
| Hir.ForDesugaring | typort-interpreter/src/hir.rs:81-90 | `for` becomes `let v = from`, then `while (v != to)` whose body is the lowered body followed by exactly `v = v + 1` |
| Mir.FromHir | typort-interpreter/src/mir.rs:18-51 | the lowered expression has the same variant, payloads, callee, number of arguments, block lengths and `else` presence, and is never a string literal |
| Mir.FromHirArgs | typort-interpreter/src/mir.rs:42-44 | arguments are converted one for one |
| Mir.FromHirStmt | typort-interpreter/src/mir.rs:72-84 | each statement keeps its kind, its name and the length of its body |
| Mir.FromHirBlock | typort-interpreter/src/mir.rs:79-81 | a block keeps its length |
| Mir.HirToMir | typort-interpreter/src/mir.rs:86-99 | every function, in order, keeps its name, its parameters, its return type, and the converted body |
| Mir.FromHirIsStringFree | typort-interpreter/src/mir.rs:18-51 | the lowering never produces a string literal |
| Mir.FromHirArgsIsStringFree | typort-interpreter/src/mir.rs:42-44 | the same for argument lists |
| Mir.FromHirStmtIsStringFree | typort-interpreter/src/mir.rs:72-84 | the same for statements |
| Mir.FromHirBlockIsStringFree | typort-interpreter/src/mir.rs:79-81 | the same for blocks |
| Mir.ToHirFromHir | typort-interpreter/src/mir.rs:18-51 | reading a lowered expression back gives the HIR expression: the conversion is injective |
| Mir.ToHirFromHirArgs | typort-interpreter/src/mir.rs:42-44 | the same for argument lists |
| Mir.ToHirFromHirStmt | typort-interpreter/src/mir.rs:72-84 | the same for statements |
| Mir.ToHirFromHirBlock | typort-interpreter/src/mir.rs:79-81 | the same for blocks |
| Mir.FromHirToHir | typort-interpreter/src/mir.rs:18-51 | every string-free MIR expression is a lowering: the conversion is onto them |
| Mir.FromHirToHirIf | typort-interpreter/src/mir.rs:45-49 | the same for `if` |
| Mir.FromHirToHirArgs | typort-interpreter/src/mir.rs:42-44 | the same for argument lists |
| Mir.FromHirToHirStmt | typort-interpreter/src/mir.rs:72-84 | the same for statements |
| Mir.FromHirToHirBlock | typort-interpreter/src/mir.rs:79-81 | the same for blocks |
| Mir.FromHirBlockAppend | typort-interpreter/src/mir.rs:96 | converting a block distributes over concatenation |
| Mir.LowerFor | typort-interpreter/src/hir.rs:81-90 | after both passes a parser `for` is exactly the counting loop over the lowered bounds and body |
| Mir.LoweredBlockLength | typort-interpreter/src/mir.rs:96 | after both passes a block has one statement per source statement plus one per top-level `for` |
| Semantics.TruncDiv | typort-interpreter/src/vm.rs:94 | `/` on `i64` rounds toward zero: the magnitude is the quotient of the magnitudes, and the sign is positive for equal operand signs, negative for different ones |
| Semantics.Apply | typort-interpreter/src/vm.rs:91-94 | division by zero is fatal; otherwise the exact result if it fits an `i64`, and an overflow error if it does not |
| Semantics.Truncate | typort-interpreter/src/vm.rs:144 | `Vec::truncate` keeps the first `n` values and does nothing to a shorter vector |
| Semantics.Alloc | typort-interpreter/src/vm.rs:131-132 | `heap.len()` becomes a key holding the new vector and every other entry is unchanged |
| Vm.Interpreter.constructor | typort-interpreter/src/vm.rs:34-45 | the table maps each name to the last function of that name; the stack and heap are empty and the frame base is 0 |
| Vm.Interpreter.Run | typort-interpreter/src/vm.rs:46-49 | result and new state agree with `EvalMain`: `main`'s block runs from the current state, and a missing `main` is fatal |
| Vm.Interpreter.TranslateBlock | typort-interpreter/src/vm.rs:50-56 | result and new state agree with `EvalBlock`, which runs the statements in order and yields the last value, or `Unit` when there are none |
| Vm.Interpreter.TranslateStmt | typort-interpreter/src/vm.rs:57-81 | result and new state agree with `EvalStmt`: `let` pushes; assignment evaluates the value, then writes slot `frameBase + slot`, which must exist; `return` is just its expression; `while` loops while the condition is `Bool(true)` and yields the last body value |
| Vm.Interpreter.TranslateExpr | typort-interpreter/src/vm.rs:82-159 | result and new state agree with `EvalExpr`: a string literal is stored under its own id, a name is read at `frameBase + slot` and must exist, and operators and calls are dispatched by kind and callee name |
| Vm.Interpreter.IntFunc | typort-interpreter/src/vm.rs:161-171 | result and new state agree with `EvalArith`: left operand, then right operand, then the operator on two `Int`s; anything else is fatal |
| Vm.Interpreter.Equality | typort-interpreter/src/vm.rs:95-112 | result and new state agree with `EvalEquality`: `==` and `!=` on two `Int`s or two `Bool`s; other pairs are fatal |
| Vm.Interpreter.Print | typort-interpreter/src/vm.rs:114-126 | result and new state agree with `EvalPrint`: an argument is required, only the first is evaluated, and a heap id it names must be in the heap |
| Vm.Interpreter.MakeArray | typort-interpreter/src/vm.rs:127-133 | result and new state agree with `EvalArray`: all arguments are evaluated in order and stored as a `Vec` under `heap.len()` |
| Vm.Interpreter.UserCall | typort-interpreter/src/vm.rs:134-147 | result and new state agree with `EvalUserCall`: the callee must exist; the arguments `zip` pairs with parameters are pushed, the body runs in a frame at the old stack length, then the stack is truncated and the frame base restored |
| Vm.Interpreter.IfExpr | typort-interpreter/src/vm.rs:149-157 | result and new state agree with `EvalIf`: the then-block on `Bool(true)`, else the else-block, or `Unit` without one |
| BuiltIn.PrintAll | typort-interpreter/src/built_in.rs:4-19 | `Unit` exactly when every heap id is in the heap; otherwise the panic for the first missing one |
| BuiltIn.BiPrint | typort-interpreter/src/built_in.rs:4-19 | the loop returns exactly `PrintAll` and changes nothing |
| BuiltIn.BiArray | typort-interpreter/src/built_in.rs:21-25 | returns the id `heap.len()`, stores the arguments there, and leaves stack and frame base alone |
| BuiltIn.PrintIsBiPrint | typort-interpreter/src/vm.rs:114-126 | the interpreter's `print` is `bi_print` applied to the first argument's value |
| Frames.ExprExtends | typort-interpreter/src/vm.rs:82-159 | evaluating an expression keeps the frame base, never shortens the stack, never writes below the frame base, and removes no heap entry |
| Frames.ArithExtends | typort-interpreter/src/vm.rs:161-171 | the same for the arithmetic operators |
| Frames.EqualityExtends | typort-interpreter/src/vm.rs:95-112 | the same for `==` and `!=` |
| Frames.PrintExtends | typort-interpreter/src/vm.rs:114-126 | the same for `print` |
| Frames.ArrayExtends | typort-interpreter/src/vm.rs:127-133 | the same for `Array` |
| Frames.ArgsExtend | typort-interpreter/src/vm.rs:128-130 | the same for evaluating an argument list |
| Frames.PushExtends | typort-interpreter/src/vm.rs:138-141 | pushing arguments only lengthens the stack |
| Frames.UserCallExtends | typort-interpreter/src/vm.rs:134-147 | a user call gives the stack back at exactly its old length, keeps the frame base, leaves the slots below the caller's frame base intact and removes no heap entry |
| Frames.IfExtends | typort-interpreter/src/vm.rs:149-157 | the frame discipline for `if` |
| Frames.BlockExtends | typort-interpreter/src/vm.rs:50-56 | the frame discipline for blocks |
| Frames.StmtExtends | typort-interpreter/src/vm.rs:57-72 | the frame discipline for statements |
| Frames.WhileExtends | typort-interpreter/src/vm.rs:73-79 | the frame discipline for loops |
| Frames.ExtendsTrans | typort-interpreter/src/vm.rs:26-31 | the frame discipline composes |
| Laws.BlockAppend | typort-interpreter/src/vm.rs:50-56 | an empty block yields `Unit`; a non-empty block yields its last statement's value, run in the state the others leave |
| Laws.ReturnDoesNotExit | typort-interpreter/src/vm.rs:69-72 | `return` does not leave the block: the next statement runs and gives the value |
| Laws.PureStable | typort-interpreter/src/vm.rs:84-112 | literals, names, operators and comparisons change no state, and give the same result on a longer stack |
| Laws.PureStableArith | typort-interpreter/src/vm.rs:161-171 | the same for the arithmetic operators |
| Laws.PureStableEquality | typort-interpreter/src/vm.rs:95-112 | the same for `==` and `!=` |
| Laws.LetPushes | typort-interpreter/src/vm.rs:60-64 | `let` of a pure expression succeeds exactly when the expression does, and pushes exactly its value |
| Laws.AssignOverwrites | typort-interpreter/src/vm.rs:65-68 | assignment overwrites exactly slot `frameBase + slot` and nothing else; a slot past the stack is fatal |
| Laws.NameReads | typort-interpreter/src/vm.rs:90 | a name reads slot `frameBase + slot` and changes nothing, and fails exactly when the slot is past the stack |
| Laws.OpExprIsArith | typort-interpreter/src/vm.rs:91-94 | each of `+ - * /` goes through `int_func` |
| Laws.ArithSemantics | typort-interpreter/src/vm.rs:161-171 | errors propagate from the left operand first; two `Int`s give the exact result or a fatal overflow or division by zero; anything else is fatal |
| Laws.EqExprIsEquality | typort-interpreter/src/vm.rs:95-112 | `==` and `!=` go through the same comparison |
| Laws.NeqNegatesEq | typort-interpreter/src/vm.rs:95-112 | `!=` is the negation of `==`, with the same errors |
| Laws.EqualitySemantics | typort-interpreter/src/vm.rs:95-103 | `==` succeeds exactly on two `Int`s or two `Bool`s, and then compares them |
| Laws.WhileSemantics | typort-interpreter/src/vm.rs:73-79 | the loop stops on anything but `Bool(true)` with the latest body value; otherwise it runs the body and continues from its state |
| Laws.IfSemantics | typort-interpreter/src/vm.rs:149-157 | `if` takes the then-block only on `Bool(true)` |
| Laws.CallRestoresFrame | typort-interpreter/src/vm.rs:134-147 | after a user call the stack length and frame base are as before, no heap entry is removed, and the caller's slots are exactly as the argument evaluation left them: the callee's body never writes below the stack length before the call |
| Laws.PureCallKeepsStack | typort-interpreter/src/vm.rs:134-147 | with pure arguments a user call gives the caller back its whole stack and frame base |
| Laws.ArgumentWritesCallerSlot | typort-interpreter/src/vm.rs:136-141 | arguments run in the caller's frame: `f(if (true) { x = 5; 1 })` changes the caller's slot of `x` |
| Laws.ArgumentLetShiftsParams | typort-interpreter/src/vm.rs:137-142 | the callee's frame base is fixed before the arguments run: in `f(if (true) { let y = 7; 1 })` the callee reads 7 as its first parameter |
| Laws.UnknownFunctionIsFatal | typort-interpreter/src/vm.rs:135 | calling an unknown function is fatal before any argument is evaluated |
| Laws.PureValues | typort-interpreter/src/vm.rs:138 | `zip` pairs as many arguments as the shorter of parameters and arguments |
| Laws.PureValuesAt | typort-interpreter/src/vm.rs:138-141 | the `k`-th pushed value is the `k`-th argument's value |
| Laws.PushPureArgs | typort-interpreter/src/vm.rs:138-141 | pure arguments are pushed in order and nothing else changes |
| Laws.CallReadsParam | typort-interpreter/src/vm.rs:134-147 | the callee's frame starts at the caller's stack length: with pure arguments, its parameter `k` is the caller's `k`-th argument, and the caller's state comes back unchanged |
| Laws.ArrayAllocates | typort-interpreter/src/vm.rs:127-133 | `Array` returns `heap.len()` and stores the argument values there in order |
| Laws.EvalPureArgs | typort-interpreter/src/vm.rs:128-130 | pure arguments evaluate to their values, in order, without changing state |
| Laws.AllocFreshWhenDense | typort-interpreter/src/vm.rs:131-132 | on a heap whose keys are `0..len`, `heap.len()` is a fresh key and stays so |
| Laws.AllocMayOverwrite | typort-interpreter/src/vm.rs:85-88 | string literals keep their own ids, so `heap.len()` can be taken and `Array` then overwrites that entry |
| Laws.PrintSemantics | typort-interpreter/src/vm.rs:114-126 | `print` without arguments is fatal; with arguments it ignores all but the first and yields `Unit`, or is fatal on a missing heap id |
| Laws.CountOnce | typort-interpreter/src/hir.rs:83-88 | the loop condition holds while the counter differs from the bound, and one step adds one or overflows at `i64::MAX` |
| Laws.CountUp | typort-interpreter/src/hir.rs:83-88 | from `x <= b`, with fuel for `b - x` rounds, the loop finishes with the counter holding exactly `b` and nothing else changed |
| Laws.CountPast | typort-interpreter/src/hir.rs:83-88 | from `x > b` the counter never meets the bound and the loop never finishes normally |
| Laws.CountingLoop | typort-interpreter/src/hir.rs:81-90 | a lowered `for v in a..b` with an empty body leaves `v` equal to `b` and yields `Unit` when `a <= b`, and never finishes normally when `a > b` |
| Laws.TableKeys | typort-interpreter/src/vm.rs:34-38 | the table holds exactly the names of the functions given |
| Laws.TableLastWins | typort-interpreter/src/vm.rs:34-38 | a name maps to the function that carries it last in the list |
| Ty.Show | typort-interpreter/src/ty.rs:14-35 | tuples and function types start with `(`, and a user-named type prints its name |
| Ty.ShowAll | typort-interpreter/src/ty.rs:27-28 | one text per type |
| Ty.FoldJoinIsJoin | typort-interpreter/src/ty.rs:29 | the left fold of `reduce` gives the same text as joining with `", "` |
| Ty.JoinFront | typort-interpreter/src/ty.rs:29 | joining the first two items first does not change the text |
| Ty.ReduceIsJoin | typort-interpreter/src/ty.rs:27-30 | `reduce(..).unwrap_or("")` is the items separated by `", "`, and empty for none |
| Ty.FuncIsJoin | typort-interpreter/src/ty.rs:24-32 | a function type prints `(`, its parameters separated by `", "`, `) -> `, then its result |
| Ty.FuncNoParams | typort-interpreter/src/ty.rs:24-32 | a function type without parameters prints as `() -> ` and the result |
| Ty.TupleIsJoin | typort-interpreter/src/ty.rs:21-23 | a tuple prints its components in order, separated by `", "`, in parentheses |
| Ty.ShowAllItems | typort-interpreter/src/ty.rs:27-28 | the `i`-th text is the `i`-th type printed |
| Ty.ScalarSpellings | typort-interpreter/src/ty.rs:17-20 | `I64` is spelled `Int` and `F64` is spelled `Float`; `Unit` and `Bool` are spelled as named |
| Ty.CountAppend | typort-interpreter/src/ty.rs:14-35 | counting a char distributes over concatenation |
| Ty.NoParens | typort-interpreter/src/ty.rs:33 | a name without parentheses counts none |
| Ty.BalancedAppend | typort-interpreter/src/ty.rs:21-32 | balanced texts stay balanced when concatenated |
| Ty.JoinBalanced | typort-interpreter/src/ty.rs:29 | joining balanced texts gives a balanced text |
| Ty.ShowBalanced | typort-interpreter/src/ty.rs:14-35 | when no type name holds a parenthesis, every printed type has as many `(` as `)` |
| Ty.TupleBalanced | typort-interpreter/src/ty.rs:21-23 | the same for tuples |
| Ty.WrapBalanced | typort-interpreter/src/ty.rs:21-32 | a balanced text in parentheses stays balanced |

## Left out

- Lex.IdScan: the input must be ASCII. Unicode's alphabetic and alphanumeric classes are not modelled, and on non-ASCII input the code slices at the wrong byte (see Findings).
- Lex.VarIdScan: the input must be ASCII, for the same reason.
- Lex.Id: the input must be ASCII, for the same reason.
- Lex.VarId: the input must be ASCII, for the same reason.
- The trailing `<< whitespace()` of each scanner's parser and the `path` field of `Span` (always `None`) are not modelled; they belong to the combinator library, which is not part of this model.
- The `parser!` grammar of lib.rs and lex.rs (`literal`, `boolean`, and the expression, statement and function rules) is not modelled: it is macro input for a combinator library that is not part of this model. The scanners and the syntax tree it builds are modelled.
- Semantics.Apply: `+`, `-` and `*` overflow is taken as fatal, as in a debug build. A release build wraps instead, and that is not modelled. Division by zero and `i64::MIN / -1` panic in both builds.
- Interpreted loops and recursion need not terminate. Every `Semantics` function and every `Interpreter` method therefore takes fuel: one unit per user call and per `while` round, with `OutOfFuel` when it runs out. A run that ends in `OutOfFuel` has no counterpart in the code, and divergence itself is not modelled. That a result other than `OutOfFuel` stays the same with more fuel is not proved.
- What `print` and `bi_print` write to the console is not modelled. Only what they require of the heap and what they return is.
- `HeapValue::Class` is not modelled: no code path creates one. Printing one reaches `todo!()` in vm.rs.
- The mapping from names to stack slots is not part of this model: no code in the tree produces the `usize` names vm.rs reads. The interpreter runs `Mir.Expression<nat>`, whose names are already slots.
- Which id a string literal's `Expression::String` carries is likewise not part of this model: it is an input of the interpreter.
- The lifetime-carrying `Span` wrappers of the HIR and MIR are reduced to their `data`, since the lowerings only copy them.
- `run_code_vm`, the command-line programs, the language server and the editor extension are not modelled: they do I/O and call the core.
- The branches of `translate_expr` for comparisons, `print`, `Array`, user calls and `if` are inline in vm.rs. Here each is a method of its own, so that each proof stays small.
- Ty.Show: its own contract states only the shape of the text. The full text is stated by `Ty.TupleIsJoin`, `Ty.FuncIsJoin`, `Ty.ScalarSpellings` and the `Own` case of `Ty.Show`.

## Findings

| source | as written | input that shows it | evidently intended | confidence | as-written member | corrected member |
|---|---|---|---|---|---|---|
| typort-parser/src/lex.rs:48 | `id` and `varid` count accepted chars in `len` and then slice the `&str` at byte `len` with `get_unchecked` (also at line 81) | `"é"` (U+00E9, alphabetic, two bytes): `len` is 1, and byte 1 lies inside the char, so the unchecked slice is not on a char boundary | slice at the byte length of the accepted chars | high; not executed | Lex.CutAsWrittenSplitsChar | Lex.CutIntended |
