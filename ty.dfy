/**
 * The types of the interpreter and their printed form (`Display for Type`,
 * typort-interpreter/src/ty.rs).
 */
module Ty {
  import opened Base

  datatype Type =
    | Unit
    | Bool
    | I64
    | F64
    | Tuple2(a: Type, b: Type)
    | Tuple3(a: Type, b: Type, c: Type)
    | Tuple4(a: Type, b: Type, c: Type, d: Type)
    | Func(params: seq<Type>, result: Type)
    | Own(name: string)

  /** `fmt`: fixed spellings, components in parentheses, `", "` between them. */
  function Show(t: Type): (s: string)
    ensures (t.Tuple2? || t.Tuple3? || t.Tuple4? || t.Func?) ==> |s| > 0 && s[0] == '('
    ensures t.Own? ==> s == t.name
    decreases t
  {
    match t
    case Unit => "Unit"
    case Bool => "Bool"
    case I64 => "Int"
    case F64 => "Float"
    case Tuple2(a, b) => "(" + Show(a) + ", " + Show(b) + ")"
    case Tuple3(a, b, c) => "(" + Show(a) + ", " + Show(b) + ", " + Show(c) + ")"
    case Tuple4(a, b, c, d) => "(" + Show(a) + ", " + Show(b) + ", " + Show(c) + ", " + Show(d) + ")"
    case Func(ps, o) => "(" + UnwrapOr(Reduce(ShowAll(ps)), "") + ") -> " + Show(o)
    case Own(name) => name
  }

  /** `i.iter().map(|t| format!("{t}"))`. */
  function ShowAll(ts: seq<Type>): (r: seq<string>)
    ensures |r| == |ts|
    decreases ts
  {
    if ts == [] then [] else [Show(ts[0])] + ShowAll(ts[1..])
  }

  /** `reduce(|a, b| format!("{a}, {b}"))`: `None` on no items, else a left fold. */
  function Reduce(ss: seq<string>): Option<string>
  {
    if ss == [] then None else Some(FoldJoin(ss[0], ss[1..]))
  }

  function FoldJoin(acc: string, rest: seq<string>): string
    decreases |rest|
  {
    if rest == [] then acc else FoldJoin(acc + ", " + rest[0], rest[1..])
  }

  function UnwrapOr(o: Option<string>, d: string): string
  {
    match o
    case None => d
    case Some(s) => s
  }

  /** The items separated by `", "`, defined from the right: the reference for the fold. */
  function Join(ss: seq<string>): string
  {
    if ss == [] then "" else if |ss| == 1 then ss[0] else ss[0] + ", " + Join(ss[1..])
  }

  // ----- Properties of the printer -----

  /** Folding from the left gives the same text as joining from the right. */
  lemma {:induction false} FoldJoinIsJoin(acc: string, rest: seq<string>)
    ensures FoldJoin(acc, rest) == Join([acc] + rest)
    decreases |rest|
  {
    if rest != [] {
      FoldJoinIsJoin(acc + ", " + rest[0], rest[1..]);
      JoinFront(acc, rest[0], rest[1..]);
      assert [acc] + rest == [acc, rest[0]] + rest[1..];
    }
  }

  /** Joining is associative at the front: the first two items can be joined first. */
  lemma JoinFront(x: string, y: string, rest: seq<string>)
    ensures Join([x + ", " + y] + rest) == Join([x, y] + rest)
  {
    assert ([x, y] + rest)[1..] == [y] + rest;
    assert ([x + ", " + y] + rest)[1..] == rest;
    if rest != [] {
      assert ([y] + rest)[1..] == rest;
    }
  }

  /** `reduce(..).unwrap_or("")` prints the items separated by `", "`. */
  lemma ReduceIsJoin(ss: seq<string>)
    ensures UnwrapOr(Reduce(ss), "") == Join(ss)
  {
    if ss != [] {
      FoldJoinIsJoin(ss[0], ss[1..]);
      assert [ss[0]] + ss[1..] == ss;
    }
  }

  /** A function type prints its parameters separated by `", "` in parentheses, then `" -> "` and the result. */
  lemma FuncIsJoin(ps: seq<Type>, o: Type)
    ensures Show(Func(ps, o)) == "(" + Join(ShowAll(ps)) + ") -> " + Show(o)
  {
    ReduceIsJoin(ShowAll(ps));
  }

  /** A function type without parameters prints as `"() -> "` and the result. */
  lemma FuncNoParams(o: Type)
    ensures Show(Func([], o)) == "() -> " + Show(o)
  {
    FuncIsJoin([], o);
  }

  /** The components of a tuple type. */
  function Components(t: Type): seq<Type>
    requires t.Tuple2? || t.Tuple3? || t.Tuple4?
  {
    match t
    case Tuple2(a, b) => [a, b]
    case Tuple3(a, b, c) => [a, b, c]
    case Tuple4(a, b, c, d) => [a, b, c, d]
  }

  /** A tuple type prints its components in order, separated by `", "`, in parentheses. */
  lemma TupleIsJoin(t: Type)
    requires t.Tuple2? || t.Tuple3? || t.Tuple4?
    ensures Show(t) == "(" + Join(ShowAll(Components(t))) + ")"
  {
    var cs := Components(t);
    ShowAllItems(cs);
    var ss := ShowAll(cs);
    if t.Tuple2? {
      assert ss == [Show(t.a), Show(t.b)];
      Join2(Show(t.a), Show(t.b));
      Wrap2(Show(t.a), Show(t.b));
    } else if t.Tuple3? {
      assert ss == [Show(t.a), Show(t.b), Show(t.c)];
      Join3(Show(t.a), Show(t.b), Show(t.c));
      Wrap3(Show(t.a), Show(t.b), Show(t.c));
    } else {
      assert ss == [Show(t.a), Show(t.b), Show(t.c), Show(t.d)];
      Join4(Show(t.a), Show(t.b), Show(t.c), Show(t.d));
      Wrap4(Show(t.a), Show(t.b), Show(t.c), Show(t.d));
    }
  }

  lemma Wrap2(x: string, y: string)
    ensures "(" + x + ", " + y + ")" == "(" + (x + ", " + y) + ")"
  {
  }

  lemma Wrap3(x: string, y: string, z: string)
    ensures "(" + x + ", " + y + ", " + z + ")" == "(" + (x + ", " + y + ", " + z) + ")"
  {
  }

  lemma Wrap4(w: string, x: string, y: string, z: string)
    ensures "(" + w + ", " + x + ", " + y + ", " + z + ")" == "(" + (w + ", " + x + ", " + y + ", " + z) + ")"
  {
  }

  lemma Join2(x: string, y: string)
    ensures Join([x, y]) == x + ", " + y
  {
    assert [x, y][1..] == [y];
  }

  lemma Join3(x: string, y: string, z: string)
    ensures Join([x, y, z]) == x + ", " + y + ", " + z
  {
    assert [x, y, z][1..] == [y, z];
    Join2(y, z);
  }

  lemma Join4(w: string, x: string, y: string, z: string)
    ensures Join([w, x, y, z]) == w + ", " + x + ", " + y + ", " + z
  {
    assert [w, x, y, z][1..] == [x, y, z];
    Join3(x, y, z);
  }

  lemma {:induction false} ShowAllItems(ts: seq<Type>)
    ensures forall i :: 0 <= i < |ts| ==> ShowAll(ts)[i] == Show(ts[i])
    decreases ts
  {
    if ts != [] {
      ShowAllItems(ts[1..]);
      assert forall i :: 1 <= i < |ts| ==> ShowAll(ts)[i] == ShowAll(ts[1..])[i - 1];
    }
  }

  /** The scalar types have fixed names; `I64` is spelled `Int` and `F64` `Float`. */
  lemma ScalarSpellings()
    ensures Show(Unit) == "Unit" && Show(Bool) == "Bool" && Show(I64) == "Int" && Show(F64) == "Float"
  {
  }

  // ----- Parentheses are balanced -----

  function Count(s: string, c: char): nat
  {
    if s == [] then 0 else (if s[0] == c then 1 else 0) + Count(s[1..], c)
  }

  lemma {:induction false} CountAppend(s: string, t: string, c: char)
    ensures Count(s + t, c) == Count(s, c) + Count(t, c)
    decreases s
  {
    if s == [] {
      assert s + t == t;
    } else {
      assert (s + t)[1..] == s[1..] + t;
      CountAppend(s[1..], t, c);
    }
  }

  /** No user-named type contains a parenthesis in its name. */
  predicate NamesParenFree(t: Type)
    decreases t
  {
    match t
    case Tuple2(a, b) => NamesParenFree(a) && NamesParenFree(b)
    case Tuple3(a, b, c) => NamesParenFree(a) && NamesParenFree(b) && NamesParenFree(c)
    case Tuple4(a, b, c, d) => NamesParenFree(a) && NamesParenFree(b) && NamesParenFree(c) && NamesParenFree(d)
    case Func(ps, o) => (forall i :: 0 <= i < |ps| ==> NamesParenFree(ps[i])) && NamesParenFree(o)
    case Own(name) => Count(name, '(') == 0 && Count(name, ')') == 0
    case _ => true
  }

  predicate Balanced(s: string)
  {
    Count(s, '(') == Count(s, ')')
  }

  /** A text without parentheses counts none of either. */
  lemma {:induction false} NoParens(s: string)
    requires forall i :: 0 <= i < |s| ==> s[i] != '(' && s[i] != ')'
    ensures Count(s, '(') == 0 && Count(s, ')') == 0
    decreases s
  {
    if s != [] {
      NoParens(s[1..]);
    }
  }

  lemma BalancedAppend(s: string, t: string)
    requires Balanced(s) && Balanced(t)
    ensures Balanced(s + t)
  {
    CountAppend(s, t, '(');
    CountAppend(s, t, ')');
  }

  lemma {:induction false} JoinBalanced(ss: seq<string>)
    requires forall i :: 0 <= i < |ss| ==> Balanced(ss[i])
    ensures Balanced(Join(ss))
    decreases ss
  {
    if |ss| > 1 {
      JoinBalanced(ss[1..]);
      assert Balanced(", ");
      BalancedAppend(ss[0], ", ");
      BalancedAppend(ss[0] + ", ", Join(ss[1..]));
    }
  }

  /** When no type name contains a parenthesis, every printed type has as many `(` as `)`. */
  lemma {:induction false} ShowBalanced(t: Type)
    requires NamesParenFree(t)
    ensures Balanced(Show(t))
    decreases t
  {
    match t
    case Unit => NoParens("Unit");
    case Bool => NoParens("Bool");
    case I64 => NoParens("Int");
    case F64 => NoParens("Float");
    case Own(_) =>
    case Tuple2(_, _) => TupleBalanced(t);
    case Tuple3(_, _, _) => TupleBalanced(t);
    case Tuple4(_, _, _, _) => TupleBalanced(t);
    case Func(ps, o) =>
      ShowAllItems(ps);
      forall i | 0 <= i < |ps|
        ensures Balanced(ShowAll(ps)[i])
      {
        ShowBalanced(ps[i]);
      }
      JoinBalanced(ShowAll(ps));
      ShowBalanced(o);
      FuncIsJoin(ps, o);
      WrapBalanced(Join(ShowAll(ps)), ") -> ", Show(o));
  }

  lemma {:induction false} TupleBalanced(t: Type)
    requires t.Tuple2? || t.Tuple3? || t.Tuple4?
    requires NamesParenFree(t)
    ensures Balanced(Show(t))
    decreases t, 0
  {
    var cs := Components(t);
    ShowAllItems(cs);
    forall i | 0 <= i < |cs|
      ensures Balanced(ShowAll(cs)[i])
    {
      ShowBalanced(cs[i]);
    }
    JoinBalanced(ShowAll(cs));
    TupleIsJoin(t);
    WrapBalanced(Join(ShowAll(cs)), ")", "");
    assert Show(t) == "(" + Join(ShowAll(cs)) + ")" + "";
  }

  /** `"(" + inner + close + tail` is balanced when `inner` and `tail` are and `close` holds one `)`. */
  lemma WrapBalanced(inner: string, close: string, tail: string)
    requires Balanced(inner) && Balanced(tail)
    requires close == ")" || close == ") -> "
    ensures Balanced("(" + inner + close + tail)
  {
    assert Count("(", '(') == 1 && Count("(", ')') == 0 by {
      assert "("[1..] == [];
    }
    assert Count(close, '(') == 0 && Count(close, ')') == 1 by {
      NoParens(close[1..]);
    }
    CountAppend("(", inner, '(');
    CountAppend("(", inner, ')');
    CountAppend("(" + inner, close, '(');
    CountAppend("(" + inner, close, ')');
    CountAppend("(" + inner + close, tail, '(');
    CountAppend("(" + inner + close, tail, ')');
  }
}
