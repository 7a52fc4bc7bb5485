/** SafeEvaluator: eval_expr screens a parsed tree with the allow-list walk and then reduces it
    by structural recursion (_eval) against the variables and the fixed globals. */
module Evaluator {
  import opened Results
  import opened PyAst
  import opened PyValues
  import Checker
  import PyInt

  /** The evaluator's variables dictionary. */
  type Env = map<string, Value>

  /** Name resolution: the variables first, then ALLOWED_GLOBALS, otherwise NameError. */
  function Lookup(vars: Env, id: string): Result<Value, Error> {
    if id in vars then Ok(vars[id])
    else if id in ALLOWED_GLOBALS then Ok(ALLOWED_GLOBALS[id])
    else Err(NameError(id))
  }

  /** _eval: operands, elements and arguments are evaluated left to right and the first failure
      is the result; a callee is evaluated, and must be callable, before any argument is. */
  function Eval(vars: Env, n: Node): Result<Value, Error>
    decreases n, 1
  {
    match n
    case Constant(lit) => Ok(LiteralValue(lit))
    case Name(id, _) => Lookup(vars, id)
    case BinOp(l, op, r) =>
      var a :- Eval(vars, l);
      var b :- Eval(vars, r);
      Arith(op, a, b)
    case UnaryOp(op, x) =>
      var a :- Eval(vars, x);
      UnaryArith(op, a)
    case Tuple(elts, _) =>
      var vs :- EvalEach(vars, elts);
      Ok(VTuple(vs))
    case List(elts, _) =>
      var vs :- EvalEach(vars, elts);
      Ok(VList(vs))
    case Call(func, args, kws) =>
      var f :- Eval(vars, func);
      if !IsCallable(f) then Err(NotCallable)
      else
        var vs :- EvalEach(vars, args);
        var kvs :- EvalKeywords(vars, kws);
        Invoke(f.f, vs, kvs != [])
    case Other(name, _) => Err(UnsupportedNode(KForeign(name)))
  }

  function EvalEach(vars: Env, ns: seq<Node>): Result<seq<Value>, Error>
    decreases ns, 0
  {
    if ns == [] then Ok([])
    else
      var v :- Eval(vars, ns[0]);
      var rest :- EvalEach(vars, ns[1..]);
      Ok([v] + rest)
  }

  /** The values of the named arguments, in order. */
  function EvalKeywords(vars: Env, kws: seq<Keyword>): Result<seq<Value>, Error>
    decreases kws, 0
  {
    if kws == [] then Ok([])
    else
      var k := kws[0];
      assert k.value < k;
      var v :- Eval(vars, k.value);
      var rest :- EvalKeywords(vars, kws[1..]);
      Ok([v] + rest)
  }

  /** eval_expr on the outcome of ast.parse (None when it raised SyntaxError): the whole tree is
      screened before anything is evaluated. */
  function EvalExpr(vars: Env, parsed: Option<Expression>): Result<Value, Error> {
    match parsed
    case None => Err(SyntaxError)
    case Some(e) =>
      match Checker.CheckNode(ExpressionAst(e))
      case Err(k) => Err(Rejected(k))
      case Ok(_) => Eval(vars, e.body)
  }

  // ---------------------------------------------------------------------------------------
  // Name resolution

  /** Variables shadow globals; a name in neither is a NameError. */
  lemma NameResolution(vars: Env, id: string, ctx: Context)
    ensures id in vars ==> Eval(vars, Name(id, ctx)) == Ok(vars[id])
    ensures id !in vars && id in ALLOWED_GLOBALS ==> Eval(vars, Name(id, ctx)) == Ok(ALLOWED_GLOBALS[id])
    ensures id !in vars && id !in ALLOWED_GLOBALS ==> Eval(vars, Name(id, ctx)) == Err(NameError(id))
  {
  }

  // ---------------------------------------------------------------------------------------
  // Left-to-right evaluation of element lists

  /** A list of nodes evaluates iff each node does, to their values in order. */
  lemma {:induction false} EvalEachOk(vars: Env, ns: seq<Node>)
    ensures EvalEach(vars, ns).Ok? <==> forall i :: 0 <= i < |ns| ==> Eval(vars, ns[i]).Ok?
    ensures EvalEach(vars, ns).Ok? ==>
      |EvalEach(vars, ns).value| == |ns| &&
      forall i :: 0 <= i < |ns| ==> EvalEach(vars, ns).value[i] == Eval(vars, ns[i]).value
  {
    if ns != [] {
      EvalEachOk(vars, ns[1..]);
      assert forall i :: 1 <= i < |ns| ==> ns[i] == ns[1..][i - 1];
    }
  }

  /** A failing list fails with the error of its first failing node. */
  lemma {:induction false} EvalEachFirstError(vars: Env, ns: seq<Node>) returns (i: nat)
    requires EvalEach(vars, ns).Err?
    ensures i < |ns| && Eval(vars, ns[i]) == Err(EvalEach(vars, ns).error)
    ensures forall j :: 0 <= j < i ==> Eval(vars, ns[j]).Ok?
  {
    if Eval(vars, ns[0]).Err? {
      i := 0;
    } else {
      var k := EvalEachFirstError(vars, ns[1..]);
      i := k + 1;
      assert forall j :: 1 <= j < i ==> ns[j] == ns[1..][j - 1];
    }
  }

  /** A tuple display evaluates to a tuple as long as its elements list, element i being the
      value of element node i; otherwise it fails with its first failing element's error. */
  lemma TupleDisplay(vars: Env, elts: seq<Node>, ctx: Context)
    ensures Eval(vars, Tuple(elts, ctx)).Ok? <==> forall i :: 0 <= i < |elts| ==> Eval(vars, elts[i]).Ok?
    ensures Eval(vars, Tuple(elts, ctx)).Ok? ==>
      var v := Eval(vars, Tuple(elts, ctx)).value;
      v.VTuple? && |v.items| == |elts| &&
      forall i :: 0 <= i < |elts| ==> v.items[i] == Eval(vars, elts[i]).value
    ensures Eval(vars, Tuple(elts, ctx)).Err? ==>
      exists i :: 0 <= i < |elts| && Eval(vars, elts[i]) == Eval(vars, Tuple(elts, ctx)) &&
        forall j :: 0 <= j < i ==> Eval(vars, elts[j]).Ok?
  {
    EvalEachOk(vars, elts);
    if EvalEach(vars, elts).Err? {
      var i := EvalEachFirstError(vars, elts);
    }
  }

  /** The same for a list display. */
  lemma ListDisplay(vars: Env, elts: seq<Node>, ctx: Context)
    ensures Eval(vars, List(elts, ctx)).Ok? <==> forall i :: 0 <= i < |elts| ==> Eval(vars, elts[i]).Ok?
    ensures Eval(vars, List(elts, ctx)).Ok? ==>
      var v := Eval(vars, List(elts, ctx)).value;
      v.VList? && |v.items| == |elts| &&
      forall i :: 0 <= i < |elts| ==> v.items[i] == Eval(vars, elts[i]).value
    ensures Eval(vars, List(elts, ctx)).Err? ==>
      exists i :: 0 <= i < |elts| && Eval(vars, elts[i]) == Eval(vars, List(elts, ctx)) &&
        forall j :: 0 <= j < i ==> Eval(vars, elts[j]).Ok?
  {
    EvalEachOk(vars, elts);
    if EvalEach(vars, elts).Err? {
      var i := EvalEachFirstError(vars, elts);
    }
  }

  // ---------------------------------------------------------------------------------------
  // Operators

  /** The left operand is evaluated first and its failure wins; then the right operand; only
      then is the operator applied. */
  lemma BinOpOrder(vars: Env, l: Node, op: BinOperator, r: Node)
    ensures Eval(vars, l).Err? ==> Eval(vars, BinOp(l, op, r)) == Eval(vars, l).PropagateFailure()
    ensures Eval(vars, l).Ok? && Eval(vars, r).Err? ==>
      Eval(vars, BinOp(l, op, r)) == Eval(vars, r).PropagateFailure()
    ensures Eval(vars, l).Ok? && Eval(vars, r).Ok? ==>
      Eval(vars, BinOp(l, op, r)) == Arith(op, Eval(vars, l).value, Eval(vars, r).value)
  {
  }

  /** On two ints, + - * are exact, ** with a non-negative exponent is repeated multiplication,
      and // and % by zero fail with ZeroDivisionError and otherwise give the quotient and the
      remainder that has the sign of the divisor. */
  lemma IntOperators(vars: Env, l: Node, r: Node, a: int, b: int)
    requires Eval(vars, l) == Ok(VInt(a)) && Eval(vars, r) == Ok(VInt(b))
    ensures Eval(vars, BinOp(l, Add, r)) == Ok(VInt(a + b))
    ensures Eval(vars, BinOp(l, Sub, r)) == Ok(VInt(a - b))
    ensures Eval(vars, BinOp(l, Mult, r)) == Ok(VInt(a * b))
    ensures b >= 0 ==> Eval(vars, BinOp(l, Pow, r)) == Ok(VInt(PyInt.Pow(a, b)))
    ensures b == 0 ==>
      Eval(vars, BinOp(l, FloorDiv, r)) == Err(ZeroDivision) &&
      Eval(vars, BinOp(l, Mod, r)) == Err(ZeroDivision) &&
      Eval(vars, BinOp(l, Div, r)) == Err(ZeroDivision)
    ensures b != 0 ==>
      Eval(vars, BinOp(l, FloorDiv, r)).Ok? && Eval(vars, BinOp(l, Mod, r)).Ok? &&
      var q := Eval(vars, BinOp(l, FloorDiv, r)).value;
      var m := Eval(vars, BinOp(l, Mod, r)).value;
      q.VInt? && m.VInt? && a == b * q.i + m.i &&
      (b > 0 ==> 0 <= m.i < b) && (b < 0 ==> b < m.i <= 0)
  {
    IntStep(vars, l, Add, r, a, b);
    IntStep(vars, l, Sub, r, a, b);
    IntStep(vars, l, Mult, r, a, b);
    IntStep(vars, l, Pow, r, a, b);
    IntStep(vars, l, FloorDiv, r, a, b);
    IntStep(vars, l, Mod, r, a, b);
    IntStep(vars, l, Div, r, a, b);
    if b != 0 {
      PyInt.FloorDivMod(a, b);
    }
  }

  lemma IntStep(vars: Env, l: Node, op: BinOperator, r: Node, a: int, b: int)
    requires Eval(vars, l) == Ok(VInt(a)) && Eval(vars, r) == Ok(VInt(b))
    requires ArithmeticOperator(op)
    ensures Eval(vars, BinOp(l, op, r)) == IntArith(op, a, b)
  {
    BinOpOrder(vars, l, op, r);
  }

  /** Unary plus returns an int operand unchanged and unary minus negates it, so negating twice
      gives the operand back. */
  lemma UnaryOperators(vars: Env, x: Node, a: int)
    requires Eval(vars, x) == Ok(VInt(a))
    ensures Eval(vars, UnaryOp(UAdd, x)) == Ok(VInt(a))
    ensures Eval(vars, UnaryOp(USub, x)) == Ok(VInt(-a))
    ensures Eval(vars, UnaryOp(USub, UnaryOp(USub, x))) == Eval(vars, x)
  {
  }

  // ---------------------------------------------------------------------------------------
  // Calls

  /** The callee is evaluated first; a value that is not callable fails the call before any
      argument is evaluated; a callable receives the argument values in order. */
  lemma CallOrder(vars: Env, func: Node, args: seq<Node>, kws: seq<Keyword>)
    ensures Eval(vars, func).Err? ==> Eval(vars, Call(func, args, kws)) == Eval(vars, func)
    ensures Eval(vars, func).Ok? && !IsCallable(Eval(vars, func).value) ==>
      Eval(vars, Call(func, args, kws)) == Err(NotCallable)
    ensures (Eval(vars, func).Ok? && IsCallable(Eval(vars, func).value) && kws == [] &&
      forall i :: 0 <= i < |args| ==> Eval(vars, args[i]).Ok?) ==>
      exists vs: seq<Value> ::
        |vs| == |args| && (forall i :: 0 <= i < |args| ==> vs[i] == Eval(vars, args[i]).value) &&
        Eval(vars, Call(func, args, kws)) == Invoke(Eval(vars, func).value.f, vs, false)
  {
    EvalEachOk(vars, args);
    if Eval(vars, func).Ok? && IsCallable(Eval(vars, func).value) && kws == [] &&
      (forall i :: 0 <= i < |args| ==> Eval(vars, args[i]).Ok?) {
      var vs := EvalEach(vars, args).value;
      assert EvalKeywords(vars, kws) == Ok([]);
      assert Eval(vars, Call(func, args, kws)) == Invoke(Eval(vars, func).value.f, vs, false);
    }
  }

  /** The name id occurs somewhere in the tree n. */
  predicate NameOccurs(n: Node, id: string)
    decreases n, 1
  {
    match n
    case Constant(_) => false
    case Name(x, _) => x == id
    case BinOp(l, _, r) => NameOccurs(l, id) || NameOccurs(r, id)
    case UnaryOp(_, x) => NameOccurs(x, id)
    case Tuple(elts, _) => NameOccursIn(elts, id)
    case List(elts, _) => NameOccursIn(elts, id)
    case Call(func, args, kws) => NameOccurs(func, id) || NameOccursIn(args, id) || NameOccursInKeywords(kws, id)
    case Other(_, children) => NameOccursIn(children, id)
  }

  predicate NameOccursIn(ns: seq<Node>, id: string)
    decreases ns, 0
  {
    ns != [] && (NameOccurs(ns[0], id) || NameOccursIn(ns[1..], id))
  }

  predicate NameOccursInKeywords(kws: seq<Keyword>, id: string)
    decreases kws, 0
  {
    kws != [] && (assert kws[0].value < kws[0]; NameOccurs(kws[0].value, id) || NameOccursInKeywords(kws[1..], id))
  }

  /** Every callable inside a value that evaluation produces was obtained by looking up a name
      of the tree: the result names a Name node of n whose lookup holds that callable. */
  lemma {:induction false} ValuesComeFromNames(vars: Env, n: Node, f: Builtin) returns (id: string)
    requires Eval(vars, n).Ok? && Mentions(Eval(vars, n).value, f)
    ensures NameOccurs(n, id) && Lookup(vars, id).Ok? && Mentions(Lookup(vars, id).value, f)
    decreases n, 1
  {
    match n
    case Constant(lit) =>
    case Name(x, _) =>
      id := x;
    case BinOp(l, op, r) =>
      var a, b := Eval(vars, l).value, Eval(vars, r).value;
      ArithMentions(op, a, b, f);
      if Mentions(a, f) { id := ValuesComeFromNames(vars, l, f); } else { id := ValuesComeFromNames(vars, r, f); }
    case UnaryOp(op, x) =>
    case Tuple(elts, _) =>
      id := EachComesFromNames(vars, elts, f);
    case List(elts, _) =>
      id := EachComesFromNames(vars, elts, f);
    case Call(func, args, kws) =>
      var g := Eval(vars, func).value;
      var vs := EvalEach(vars, args).value;
      var kvs := EvalKeywords(vars, kws).value;
      InvokeMentions(g.f, vs, kvs != [], f);
      id := EachComesFromNames(vars, args, f);
    case Other(_, _) =>
  }

  lemma {:induction false} EachComesFromNames(vars: Env, ns: seq<Node>, f: Builtin) returns (id: string)
    requires EvalEach(vars, ns).Ok? && MentionedIn(EvalEach(vars, ns).value, f)
    ensures NameOccursIn(ns, id) && Lookup(vars, id).Ok? && Mentions(Lookup(vars, id).value, f)
    decreases ns, 0
  {
    var vs := EvalEach(vars, ns).value;
    var i :| 0 <= i < |vs| && Mentions(vs[i], f);
    if i == 0 {
      id := ValuesComeFromNames(vars, ns[0], f);
    } else {
      assert vs[i] == EvalEach(vars, ns[1..]).value[i - 1];
      id := EachComesFromNames(vars, ns[1..], f);
    }
  }

  /** The function a call invokes is held by the lookup of a name of its callee expression. */
  lemma CalleesComeFromNames(vars: Env, func: Node, f: Builtin) returns (id: string)
    requires Eval(vars, func) == Ok(VFunc(f))
    ensures NameOccurs(func, id) && Lookup(vars, id).Ok? && Mentions(Lookup(vars, id).value, f)
  {
    id := ValuesComeFromNames(vars, func, f);
  }

  /** A tree without names evaluates to a value that holds no callable. */
  lemma NamelessHoldsNoCallable(vars: Env, n: Node, f: Builtin)
    requires forall id :: !NameOccurs(n, id)
    ensures Eval(vars, n).Ok? ==> !Mentions(Eval(vars, n).value, f)
  {
    if Eval(vars, n).Ok? && Mentions(Eval(vars, n).value, f) {
      var id := ValuesComeFromNames(vars, n, f);
    }
  }

  // ---------------------------------------------------------------------------------------
  // Screening before evaluation

  /** The root is allowed, so screening a parsed expression is screening its body. */
  lemma ExpressionCheck(e: Expression)
    ensures Checker.CheckNode(ExpressionAst(e)) == Checker.CheckNode(NodeAst(e.body))
    ensures Checker.CheckNode(ExpressionAst(e)).Ok? <==> Checker.Allowed(e.body)
  {
    var t := NodeAst(e.body);
    assert ExpressionAst(e).kind in ALLOWED_NODES;
    assert Checker.CheckNode(ExpressionAst(e)) == Checker.CheckChildren([t]);
    assert [t][1..] == [];
    assert Checker.CheckChildren([t][1..]) == Ok(());
    Checker.CheckAcceptsAllowed(e.body);
    match Checker.CheckNode(t)
    case Err(k) =>
    case Ok(u) =>
      assert u == ();
  }

  /** A rejected expression evaluates nothing: the outcome is the rejection, whatever the
      variables hold. */
  lemma RejectedBeforeEvaluation(vars1: Env, vars2: Env, e: Expression)
    requires Checker.CheckNode(ExpressionAst(e)).Err?
    ensures EvalExpr(vars1, Some(e)) == Err(Rejected(Checker.CheckNode(ExpressionAst(e)).error))
    ensures EvalExpr(vars1, Some(e)) == EvalExpr(vars2, Some(e))
  {
  }

  /** A call with a named argument anywhere in the tree is rejected by the screen. */
  lemma KeywordCallsRejected(vars: Env, e: Expression)
    requires Checker.UsesKeywords(e.body)
    ensures EvalExpr(vars, Some(e)).Err? && EvalExpr(vars, Some(e)).error.Rejected?
  {
    Checker.KeywordsNeverAllowed(e.body);
    ExpressionCheck(e);
  }

  /** The evaluator's own failures for node kinds and operators it has no case for. */
  predicate InternalFailure(r: Result<Value, Error>) {
    r.Err? && (r.error.UnsupportedNode? || r.error.UnsupportedOperator? || r.error.UnsupportedUnaryOperator?)
  }

  /** On a screened tree those failures cannot happen, and every call passes no named
      arguments, so the keyword-argument path of _eval is never taken. */
  lemma {:induction false} AllowedHasNoInternalFailure(vars: Env, n: Node)
    requires Checker.Allowed(n)
    ensures !InternalFailure(Eval(vars, n))
    decreases n, 1
  {
    match n
    case Constant(_) =>
    case Name(_, _) =>
    case BinOp(l, op, r) =>
      AllowedHasNoInternalFailure(vars, l);
      AllowedHasNoInternalFailure(vars, r);
    case UnaryOp(op, x) =>
      AllowedHasNoInternalFailure(vars, x);
    case Tuple(elts, _) =>
      EachHasNoInternalFailure(vars, elts);
    case List(elts, _) =>
      EachHasNoInternalFailure(vars, elts);
    case Call(func, args, kws) =>
      AllowedHasNoInternalFailure(vars, func);
      EachHasNoInternalFailure(vars, args);
      assert kws == [];
      assert EvalKeywords(vars, kws) == Ok([]);
      var r := Eval(vars, Call(func, args, kws));
      if r.Err? && Eval(vars, func).Ok? && IsCallable(Eval(vars, func).value) && EvalEach(vars, args).Ok? {
        InvokeFailures(Eval(vars, func).value.f, EvalEach(vars, args).value, false);
      }
    case Other(_, _) =>
  }

  lemma {:induction false} EachHasNoInternalFailure(vars: Env, ns: seq<Node>)
    requires forall i :: 0 <= i < |ns| ==> Checker.Allowed(ns[i])
    ensures EvalEach(vars, ns).Err? ==>
      !(EvalEach(vars, ns).error.UnsupportedNode? || EvalEach(vars, ns).error.UnsupportedOperator? ||
        EvalEach(vars, ns).error.UnsupportedUnaryOperator?)
    decreases ns, 0
  {
    if ns != [] {
      AllowedHasNoInternalFailure(vars, ns[0]);
      EachHasNoInternalFailure(vars, ns[1..]);
    }
  }

  /** eval_expr never reaches the evaluator's internal failures. */
  lemma EvalExprNoInternalFailure(vars: Env, parsed: Option<Expression>)
    ensures !InternalFailure(EvalExpr(vars, parsed))
  {
    if parsed.Some? {
      ExpressionCheck(parsed.value);
      if Checker.Allowed(parsed.value.body) {
        AllowedHasNoInternalFailure(vars, parsed.value.body);
      }
    }
  }

  /** A call through a name bound nowhere fails with NameError, before its arguments are
      evaluated, once the screen has let it through. */
  lemma UnknownCalleeFails(vars: Env, x: string, args: seq<Node>)
    requires x !in vars && x !in ALLOWED_GLOBALS
    requires forall i :: 0 <= i < |args| ==> Checker.Allowed(args[i])
    ensures EvalExpr(vars, Some(Expression(Call(Name(x, Load), args, [])))) == Err(NameError(x))
  {
    assert Checker.Allowed(Call(Name(x, Load), args, []));
    ExpressionCheck(Expression(Call(Name(x, Load), args, [])));
    assert Eval(vars, Name(x, Load)) == Err(NameError(x));
    assert Eval(vars, Call(Name(x, Load), args, [])) == Err(NameError(x));
  }

  /** `__import__('os')` passes the screen (a string constant is an allowed Constant) and then
      fails with NameError unless a variable of that name exists. */
  lemma ImportIsUnreachable(vars: Env)
    requires "__import__" !in vars
    ensures var e := Expression(Call(Name("__import__", Load), [Constant(StrLit("os"))], []));
      Checker.CheckNode(ExpressionAst(e)).Ok? &&
      EvalExpr(vars, Some(e)) == Err(NameError("__import__"))
  {
    var e := Expression(Call(Name("__import__", Load), [Constant(StrLit("os"))], []));
    assert Checker.Allowed(e.body);
    ExpressionCheck(e);
    UnknownCalleeFails(vars, "__import__", [Constant(StrLit("os"))]);
  }
}
