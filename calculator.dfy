/** Calculator: a session over one SafeEvaluator, holding its variables dictionary and the
    append-only history of the results it produced. */
module Session {
  import opened Results
  import opened PyAst
  import opened PyValues
  import PyText
  import Evaluator
  import Checker

  /** One history entry: the text shown for it, its value, and whether it was an assignment. */
  datatype EvalResult = EvalResult(expr: string, value: Value, isAssignment: bool)

  /** The name test of assign: the name, stripped of surrounding whitespace, is an identifier. */
  predicate ValidName(name: string) {
    PyText.IsIdentifier(PyText.Strip(name))
  }

  class Calculator {
    var vars: Evaluator.Env
    var history: seq<EvalResult>

    /** A new session starts with no variables and no history. */
    constructor()
      ensures vars == map[] && history == []
    {
      vars := map[];
      history := [];
    }

    /** assign(name, expr): the stripped name must be an identifier, which is checked before
        anything is evaluated; a failing evaluation changes nothing; otherwise the value is
        bound to the name, replacing any earlier binding, and exactly one assignment entry is
        appended. `parsed` is what ast.parse made of `expr`. */
    method Assign(name: string, expr: string, parsed: Option<Expression>) returns (r: Result<EvalResult, Error>)
      modifies this
      ensures !ValidName(name) ==> r == Err(InvalidVariableName) && vars == old(vars) && history == old(history)
      ensures ValidName(name) ==> match Evaluator.EvalExpr(old(vars), parsed)
        case Err(e) => r == Err(e) && vars == old(vars) && history == old(history)
        case Ok(v) =>
          var key := PyText.Strip(name);
          r == Ok(EvalResult(key + " = " + expr, v, true)) &&
          vars == old(vars)[key := v] && history == old(history) + [r.value]
    {
      if !ValidName(name) {
        r := Err(InvalidVariableName);
      } else {
        var outcome := Evaluator.EvalExpr(vars, parsed);
        if outcome.Err? {
          r := Err(outcome.error);
        } else {
          var key, v := PyText.Strip(name), outcome.value;
          var res := EvalResult(key + " = " + expr, v, true);
          vars := vars[key := v];
          history := history + [res];
          r := Ok(res);
        }
      }
    }

    /** evaluate(expr): never changes the variables; on success appends exactly one entry that
        is not an assignment, on failure appends nothing. */
    method Evaluate(expr: string, parsed: Option<Expression>) returns (r: Result<EvalResult, Error>)
      modifies this
      ensures vars == old(vars)
      ensures match Evaluator.EvalExpr(old(vars), parsed)
        case Err(e) => r == Err(e) && history == old(history)
        case Ok(v) => r == Ok(EvalResult(expr, v, false)) && history == old(history) + [r.value]
    {
      var outcome := Evaluator.EvalExpr(vars, parsed);
      match outcome
      case Err(e) =>
        r := Err(e);
      case Ok(v) =>
        var res := EvalResult(expr, v, false);
        history := history + [res];
        r := Ok(res);
    }

    /** clear(): empties both the variables and the history. */
    method Clear()
      modifies this
      ensures vars == map[] && history == []
    {
      vars := map[];
      history := [];
    }

    /** load(path), without the file: the decoded variables and history replace the current
        ones wholesale. */
    method Load(newVars: Evaluator.Env, newHistory: seq<EvalResult>)
      modifies this
      ensures vars == newVars && history == newHistory
    {
      vars := newVars;
      history := newHistory;
    }
  }

  lemma TenEvaluates(vars: Evaluator.Env)
    ensures Evaluator.EvalExpr(vars, Some(Expression(Constant(IntLit(10))))) == Ok(VInt(10))
  {
    var e := Expression(Constant(IntLit(10)));
    assert Checker.Allowed(e.body);
    Evaluator.ExpressionCheck(e);
  }

  lemma DoubleEvaluates(vars: Evaluator.Env)
    requires "x" in vars && vars["x"] == VInt(10)
    ensures Evaluator.EvalExpr(vars, Some(Expression(BinOp(Name("x", Load), Mult, Constant(IntLit(2)))))) == Ok(VInt(20))
  {
    var e := Expression(BinOp(Name("x", Load), Mult, Constant(IntLit(2))));
    assert Checker.Allowed(e.body);
    Evaluator.ExpressionCheck(e);
    Evaluator.IntOperators(vars, Name("x", Load), Constant(IntLit(2)), 10, 2);
  }

  lemma XIsValidName()
    ensures ValidName("x") && PyText.Strip("x") == "x"
  {
    PyText.StripUnchanged("x");
  }

  /** The first line of the example session, `x = 10`, on a new session. */
  method AssignTen(session: Calculator)
    modifies session
    requires session.vars == map[] && session.history == []
    ensures session.vars == map["x" := VInt(10)] && |session.history| == 1
  {
    XIsValidName();
    TenEvaluates(session.vars);
    var r := session.Assign("x", "10", Some(Expression(Constant(IntLit(10)))));
  }

  /** The second line, `x * 2`, once x is bound to 10. */
  method EvaluateDouble(session: Calculator) returns (r: Result<EvalResult, Error>)
    modifies session
    requires "x" in session.vars && session.vars["x"] == VInt(10)
    ensures r.Ok? && r.value.value == VInt(20) && |session.history| == |old(session.history)| + 1
  {
    DoubleEvaluates(session.vars);
    r := session.Evaluate("x * 2", Some(Expression(BinOp(Name("x", Load), Mult, Constant(IntLit(2))))));
  }

  /** A session `x = 10` followed by `x * 2`: the second line sees the binding the first made,
      and each line leaves one history entry. */
  method SessionExample() returns (value: Value, entries: nat)
    ensures value == VInt(20) && entries == 2
  {
    var session := new Calculator();
    AssignTen(session);
    var r := EvaluateDouble(session);
    value := r.value.value;
    entries := |session.history|;
  }
}
