/** The values an expression evaluates to, the fixed table of global names, and Python's
    semantics for the operators and built-in callables the evaluator can reach. */
module PyValues {
  import opened Results
  import opened PyAst
  import PyInt

  /** The callables of ALLOWED_GLOBALS. The integer functions of the math module and the sum,
      min and max utilities are modelled; RealValued stands for every other function of the
      table (sin, sqrt, hypot, avg, pct, the c_ functions, ...), all of which compute on floats
      or complex numbers. */
  datatype Builtin = Factorial | Gcd | Lcm | Comb | Perm | Sum | Min | Max | RealValued(name: string)

  /** VOpaque stands for a float, complex, bool, None or bytes value: the model passes it around
      and stores it but does not compute with it. */
  datatype Value =
    | VInt(i: int)
    | VStr(s: string)
    | VTuple(items: seq<Value>)
    | VList(items: seq<Value>)
    | VFunc(f: Builtin)
    | VOpaque(typeName: string)

  /** The exceptions the evaluator and the calculator raise. */
  datatype Error =
    | SyntaxError                 // ast.parse rejected the text
    | Rejected(kind: Kind)        // "Unsupported expression element" from the allow-list walk
    | NameError(name: string)     // "Unknown name"
    | UnsupportedOperator         // a BinOp operator outside the seven arithmetic ones
    | UnsupportedUnaryOperator    // a UnaryOp operator other than + and -
    | NotCallable                 // "Attempted to call non-callable"
    | UnsupportedNode(kind: Kind) // a node kind the evaluator has no case for
    | ZeroDivision                // ZeroDivisionError
    | TypeError                   // operands or arguments of the wrong type or number
    | ValueError                  // a math function's domain error, min() or max() of nothing
    | OutsideModel                // a result or failure that depends on float semantics
    | InvalidVariableName         // "Invalid variable name" from assign

  /** ALLOWED_GLOBALS: the math functions, the complex c_ functions, the utilities and the
      constants, keyed by the names expressions use. */
  const ALLOWED_GLOBALS: map<string, Value> := map[
    "sin" := VFunc(RealValued("sin")), "cos" := VFunc(RealValued("cos")),
    "tan" := VFunc(RealValued("tan")), "asin" := VFunc(RealValued("asin")),
    "acos" := VFunc(RealValued("acos")), "atan" := VFunc(RealValued("atan")),
    "log" := VFunc(RealValued("log")), "ln" := VFunc(RealValued("log")),
    "log10" := VFunc(RealValued("log10")), "sqrt" := VFunc(RealValued("sqrt")),
    "exp" := VFunc(RealValued("exp")), "factorial" := VFunc(Factorial),
    "degrees" := VFunc(RealValued("degrees")), "radians" := VFunc(RealValued("radians")),
    "comb" := VFunc(Comb), "perm" := VFunc(Perm), "gcd" := VFunc(Gcd), "lcm" := VFunc(Lcm),
    "hypot" := VFunc(RealValued("hypot")),
    "c_sin" := VFunc(RealValued("c_sin")), "c_cos" := VFunc(RealValued("c_cos")),
    "c_tan" := VFunc(RealValued("c_tan")), "c_log" := VFunc(RealValued("c_log")),
    "c_sqrt" := VFunc(RealValued("c_sqrt")), "c_exp" := VFunc(RealValued("c_exp")),
    "c_phase" := VFunc(RealValued("c_phase")), "c_polar" := VFunc(RealValued("c_polar")),
    "c_rect" := VFunc(RealValued("c_rect")),
    "avg" := VFunc(RealValued("avg")), "sum" := VFunc(Sum), "min" := VFunc(Min),
    "max" := VFunc(Max), "pct" := VFunc(RealValued("pct")),
    "pi" := VOpaque("float"), "e" := VOpaque("float"), "tau" := VOpaque("float"),
    "inf" := VOpaque("float"), "nan" := VOpaque("float")
  ]

  /** The value of a Constant node. */
  function LiteralValue(lit: Literal): Value {
    match lit
    case IntLit(i) => VInt(i)
    case StrLit(s) => VStr(s)
    case OtherLit(t) => VOpaque(t)
  }

  /** callable(v) */
  predicate IsCallable(v: Value) {
    v.VFunc?
  }

  /** f occurs in v, at any depth of tuples and lists. */
  predicate Mentions(v: Value, f: Builtin)
    decreases v
  {
    match v
    case VFunc(g) => g == f
    case VTuple(items) => exists i :: 0 <= i < |items| && Mentions(items[i], f)
    case VList(items) => exists i :: 0 <= i < |items| && Mentions(items[i], f)
    case _ => false
  }

  predicate MentionedIn(items: seq<Value>, f: Builtin) {
    exists i :: 0 <= i < |items| && Mentions(items[i], f)
  }

  /** s * k for a str, tuple or list: k copies of s one after the other, none when k <= 0. */
  function Repeat<T>(s: seq<T>, k: int): (r: seq<T>)
    ensures k <= 0 ==> r == []
    ensures forall i :: 0 <= i < |r| ==> r[i] in s
    decreases k
  {
    if k <= 0 then [] else s + Repeat(s, k - 1)
  }

  /** s * k has k copies' worth of elements, and element i is element i mod |s| of s. */
  lemma RepeatLayout<T>(s: seq<T>, k: int)
    ensures |Repeat(s, k)| == if k <= 0 then 0 else k * |s|
    ensures forall i :: 0 <= i < |Repeat(s, k)| ==> |s| > 0 && Repeat(s, k)[i] == s[i % |s|]
  {
    RepeatLength(s, k);
    forall i | 0 <= i < |Repeat(s, k)|
      ensures |s| > 0 && Repeat(s, k)[i] == s[i % |s|]
    {
      RepeatElement(s, k, i);
    }
  }

  lemma {:induction false} RepeatLength<T>(s: seq<T>, k: int)
    ensures |Repeat(s, k)| == if k <= 0 then 0 else k * |s|
    decreases k
  {
    if k > 0 {
      RepeatLength(s, k - 1);
      OneMoreCopy(k - 1, |s|);
    }
  }

  lemma OneMoreCopy(k: int, n: int)
    ensures k * n + n == (k + 1) * n
  {
  }

  lemma {:induction false} RepeatElement<T>(s: seq<T>, k: int, i: int)
    requires 0 <= i < |Repeat(s, k)|
    ensures |s| > 0 && Repeat(s, k)[i] == s[i % |s|]
    decreases k
  {
    var rest := Repeat(s, k - 1);
    assert Repeat(s, k) == s + rest;
    if i < |s| {
      SmallMod(i, |s|);
    } else {
      RepeatElement(s, k - 1, i - |s|);
      ModShift(i, |s|);
    }
  }

  lemma SmallMod(i: int, n: int)
    requires 0 <= i < n
    ensures i % n == i
  {
  }

  /** (i - n) % n == i % n */
  lemma ModShift(i: int, n: int)
    requires n > 0 && i >= n
    ensures (i - n) % n == i % n
  {
    PyInt.FloorDivModUnique(i, n, (i - n) / n + 1, (i - n) % n);
  }

  predicate IsSequence(v: Value) {
    v.VStr? || v.VTuple? || v.VList?
  }

  function Repeated(v: Value, k: int): Value
    requires IsSequence(v)
  {
    match v
    case VStr(s) => VStr(Repeat(s, k))
    case VTuple(items) => VTuple(Repeat(items, k))
    case VList(items) => VList(Repeat(items, k))
  }

  /** The seven arithmetic operators on two ints, with Python's floor division and sign-of-divisor
      modulo; true division and negative powers produce floats unless they divide by zero. */
  function IntArith(op: BinOperator, a: int, b: int): Result<Value, Error> {
    match op
    case Add => Ok(VInt(a + b))
    case Sub => Ok(VInt(a - b))
    case Mult => Ok(VInt(a * b))
    case Div => if b == 0 then Err(ZeroDivision) else Err(OutsideModel)
    case FloorDiv => if b == 0 then Err(ZeroDivision) else Ok(VInt(PyInt.FloorDiv(a, b)))
    case Mod => if b == 0 then Err(ZeroDivision) else Ok(VInt(PyInt.Mod(a, b)))
    case Pow =>
      if b >= 0 then Ok(VInt(PyInt.Pow(a, b)))
      else if a == 0 then Err(ZeroDivision)
      else Err(OutsideModel)
    case _ => Err(UnsupportedOperator)
  }

  predicate ArithmeticOperator(op: BinOperator) {
    op.Add? || op.Sub? || op.Mult? || op.Div? || op.FloorDiv? || op.Mod? || op.Pow?
  }

  /** Applies a BinOp operator to two evaluated operands: the evaluator dispatches on the
      operator first, then Python's operator semantics decide by the operand types. */
  function Arith(op: BinOperator, a: Value, b: Value): Result<Value, Error> {
    if !ArithmeticOperator(op) then Err(UnsupportedOperator)
    else if a.VInt? && b.VInt? then IntArith(op, a.i, b.i)
    else if a.VOpaque? || b.VOpaque? then Err(OutsideModel)
    else if op == Add && a.VStr? && b.VStr? then Ok(VStr(a.s + b.s))
    else if op == Add && a.VTuple? && b.VTuple? then Ok(VTuple(a.items + b.items))
    else if op == Add && a.VList? && b.VList? then Ok(VList(a.items + b.items))
    else if op == Mult && IsSequence(a) && b.VInt? then Ok(Repeated(a, b.i))
    else if op == Mult && a.VInt? && IsSequence(b) then Ok(Repeated(b, a.i))
    else if op == Mod && a.VStr? then Err(OutsideModel)
    else Err(TypeError)
  }

  /** Applies a UnaryOp operator to its evaluated operand. */
  function UnaryArith(op: UnaryOperator, a: Value): Result<Value, Error> {
    if !(op == UAdd || op == USub) then Err(UnsupportedUnaryOperator)
    else if a.VInt? then Ok(VInt(if op == UAdd then a.i else -a.i))
    else if a.VOpaque? then Err(OutsideModel)
    else Err(TypeError)
  }

  /** The arguments of an integer-only math function: their ints, or the TypeError the first
      argument of another type raises. */
  function IntArgs(args: seq<Value>): (r: Result<seq<int>, Error>)
    ensures r.Ok? ==> |r.value| == |args| && forall i :: 0 <= i < |args| ==> args[i] == VInt(r.value[i])
    ensures r.Ok? <==> forall i :: 0 <= i < |args| ==> args[i].VInt?
    ensures r.Err? ==> r.error == TypeError || r.error == OutsideModel
  {
    if args == [] then Ok([])
    else
      match args[0]
      case VInt(x) =>
        var rest :- IntArgs(args[1..]);
        Ok([x] + rest)
      case VOpaque(_) => Err(OutsideModel)
      case _ => Err(TypeError)
  }

  /** sum(args, start=acc): adds the arguments to acc from left to right with the + operator. */
  function SumFrom(acc: Value, args: seq<Value>): Result<Value, Error>
    decreases args
  {
    if args == [] then Ok(acc)
    else
      var next :- Arith(Add, acc, args[0]);
      SumFrom(next, args[1..])
  }

  /** Calls a built-in on its evaluated positional arguments; withKeywords says whether named
      arguments were passed, which none of the modelled built-ins accepts. */
  function Invoke(f: Builtin, args: seq<Value>, withKeywords: bool): Result<Value, Error> {
    if withKeywords then (if f.RealValued? then Err(OutsideModel) else Err(TypeError))
    else
      match f
      case Factorial =>
        if |args| != 1 then Err(TypeError)
        else
          var xs :- IntArgs(args);
          if xs[0] < 0 then Err(ValueError) else Ok(VInt(PyInt.Factorial(xs[0])))
      case Gcd =>
        var xs :- IntArgs(args);
        Ok(VInt(PyInt.GcdAll(xs)))
      case Lcm =>
        var xs :- IntArgs(args);
        Ok(VInt(PyInt.LcmAll(xs)))
      case Comb =>
        if |args| != 2 then Err(TypeError)
        else
          var xs :- IntArgs(args);
          if xs[0] < 0 || xs[1] < 0 then Err(ValueError) else Ok(VInt(PyInt.Comb(xs[0], xs[1])))
      case Perm =>
        if |args| == 1 then
          var xs :- IntArgs(args);
          if xs[0] < 0 then Err(ValueError) else Ok(VInt(PyInt.Factorial(xs[0])))
        else if |args| == 2 then
          var xs :- IntArgs(args);
          if xs[0] < 0 || xs[1] < 0 then Err(ValueError) else Ok(VInt(PyInt.Perm(xs[0], xs[1])))
        else Err(TypeError)
      case Sum => SumFrom(VInt(0), args)
      case Min =>
        if args == [] then Err(ValueError)
        else if |args| == 1 then Ok(args[0])
        else if IntArgs(args).Ok? then Ok(VInt(PyInt.Min(IntArgs(args).value)))
        else Err(OutsideModel)
      case Max =>
        if args == [] then Err(ValueError)
        else if |args| == 1 then Ok(args[0])
        else if IntArgs(args).Ok? then Ok(VInt(PyInt.Max(IntArgs(args).value)))
        else Err(OutsideModel)
      case RealValued(_) => Err(OutsideModel)
  }

  lemma ConcatMentions(xs: seq<Value>, ys: seq<Value>, f: Builtin)
    requires MentionedIn(xs + ys, f)
    ensures MentionedIn(xs, f) || MentionedIn(ys, f)
  {
    var i :| 0 <= i < |xs + ys| && Mentions((xs + ys)[i], f);
    if i < |xs| {
      assert (xs + ys)[i] == xs[i];
    } else {
      assert (xs + ys)[i] == ys[i - |xs|];
    }
  }

  lemma RepeatMentions(xs: seq<Value>, k: int, f: Builtin)
    requires MentionedIn(Repeat(xs, k), f)
    ensures MentionedIn(xs, f)
  {
    var r := Repeat(xs, k);
    var i :| 0 <= i < |r| && Mentions(r[i], f);
    var j :| 0 <= j < |xs| && xs[j] == r[i];
  }

  /** An operator never conjures a callable: any built-in in its result was in an operand. */
  lemma ArithMentions(op: BinOperator, a: Value, b: Value, f: Builtin)
    requires Arith(op, a, b).Ok? && Mentions(Arith(op, a, b).value, f)
    ensures Mentions(a, f) || Mentions(b, f)
  {
    var v := Arith(op, a, b).value;
    if op == Add && a.VTuple? && b.VTuple? {
      ConcatMentions(a.items, b.items, f);
    } else if op == Add && a.VList? && b.VList? {
      ConcatMentions(a.items, b.items, f);
    } else if op == Mult && (a.VTuple? || a.VList?) && b.VInt? {
      RepeatMentions(a.items, b.i, f);
    } else if op == Mult && a.VInt? && (b.VTuple? || b.VList?) {
      RepeatMentions(b.items, a.i, f);
    }
  }

  /** sum() started from an int succeeds exactly when every argument is an int, and then it is
      the start plus the total of the arguments. */
  lemma {:induction false} SumFromInt(acc: int, args: seq<Value>)
    ensures SumFrom(VInt(acc), args).Ok? <==> forall i :: 0 <= i < |args| ==> args[i].VInt?
    ensures SumFrom(VInt(acc), args).Ok? ==>
      SumFrom(VInt(acc), args) == Ok(VInt(acc + PyInt.Total(IntArgs(args).value)))
    decreases args
  {
    if args != [] && args[0].VInt? {
      var x := args[0].i;
      var rest := args[1..];
      assert Arith(Add, VInt(acc), args[0]) == Ok(VInt(acc + x));
      SumFromInt(acc + x, rest);
      assert forall i :: 1 <= i < |args| ==> args[i] == rest[i - 1];
      if SumFrom(VInt(acc), args).Ok? {
        var xs := IntArgs(args).value;
        assert xs == [x] + IntArgs(rest).value;
        assert xs[1..] == IntArgs(rest).value;
      }
    }
  }

  /** A built-in never conjures a callable either: min and max of one argument return it, and
      everything else returns an int. */
  lemma InvokeMentions(f: Builtin, args: seq<Value>, withKeywords: bool, g: Builtin)
    requires Invoke(f, args, withKeywords).Ok? && Mentions(Invoke(f, args, withKeywords).value, g)
    ensures MentionedIn(args, g)
  {
    if f == Sum {
      SumFromInt(0, args);
    }
  }

  /** The only ways sum() fails: an operand + rejects (TypeError) or one outside the model. */
  lemma {:induction false} SumFromFailures(acc: Value, args: seq<Value>)
    requires SumFrom(acc, args).Err?
    ensures SumFrom(acc, args).error == TypeError || SumFrom(acc, args).error == OutsideModel
    decreases args
  {
    if Arith(Add, acc, args[0]).Ok? {
      SumFromFailures(Arith(Add, acc, args[0]).value, args[1..]);
    }
  }

  /** A built-in fails only as Python's own functions do (TypeError, ValueError) or outside the
      model; never with one of the evaluator's unsupported-construct errors. */
  lemma InvokeFailures(f: Builtin, args: seq<Value>, withKeywords: bool)
    requires Invoke(f, args, withKeywords).Err?
    ensures Invoke(f, args, withKeywords).error in {TypeError, ValueError, OutsideModel}
  {
    if f == Sum && !withKeywords {
      SumFromFailures(VInt(0), args);
    }
  }
}
