# A verified model of the safe calculator and three small scripts

This project models four pieces of a collection of small Python scripts in Dafny:

- **The safe expression evaluator and its session** (`calculatorphyton.py`).
  - `SafeEvaluator._check_node` walks a parsed expression tree. It rejects the whole expression if any node, at any depth, has a kind outside `ALLOWED_NODES`.
  - `_eval` then reduces the tree by recursion. It looks names up in the variables first and then in `ALLOWED_GLOBALS`. It applies the seven arithmetic operators and unary `+`/`-` with Python's integer semantics, builds tuples and lists, and calls only callables.
  - `Calculator` holds the variables dictionary and the history list. Only `assign`, `evaluate`, `clear` and `load` change them.
- **The dice notation parser** (`dice_rolling.py`). `parse_dice` reads `NdS` against `DICE_RE` and checks ranges. `roll_dice` rolls the dice, and the main loop appends each roll to the history.
- **`BankAccount.perform_transaction`** (`method.py`): a guarded deposit or withdrawal on an integer balance.
- **`is_disarium`** (`disarium.py`): an accumulating loop over the decimal digits of a number.

## Layout

| file | module | contents |
|---|---|---|
| `results.dfy` | `Results` | `Option` and `Result` with failure propagation |
| `pytext.dfy` | `PyText` | `str.strip`, `str.isidentifier`, `str(int)`, and `int(str)` on digit strings |
| `pyint.dfy` | `PyInt` | floor division and modulo, `**`, and the integer functions of `math` |
| `pyast.dfy` | `PyAst` | the typed expression tree, its generic node view, and `ALLOWED_NODES` |
| `checker.dfy` | `Checker` | `_check_node`, its pre-order meaning, and the grammar it admits |
| `pyvalues.dfy` | `PyValues` | values, exceptions, `ALLOWED_GLOBALS`, the operators and the built-ins |
| `evaluator.dfy` | `Evaluator` | `_eval` and `eval_expr`, with their properties |
| `calculator.dfy` | `Session` | the `Calculator` class |
| `dice.dfy` | `DiceRolling` | `parse_dice`, `roll_dice`, and the roll history as a class |
| `bank.dfy` | `Bank` | the `BankAccount` class |
| `disarium.dfy` | `Disarium` | `is_disarium` as a loop proved against a digit power sum |

## The expression tree and its two views

A parsed expression is a typed `Node`. Its constructors are:

- `Constant`, `Name`, `BinOp`, `UnaryOp`, `Call` (which holds its keyword arguments), `Tuple` and `List`;
- `Other(className, children)`, which stands for any other Python node class.

Operators and contexts are their own datatypes, as in Python's `ast`, so `Name(x, Store)` and `BinOp(a, LShift, b)` can be written.

`NodeAst` maps a node to the generic view that `ast.iter_child_nodes` walks: a kind plus its children, in Python's field order. `_check_node` is modelled on that generic view:

- an operator or a context is a child node of its own;
- a keyword argument is an `ast.keyword` child.

The typed `Checker.Allowed` grammar is proved equivalent to the walk.

## Notes on the code

- `__import__('os')` is not stopped by the allow-list: `ast.Constant` is allowed whatever its value, and `ast.Name` and `ast.Call` are allowed too. The call then fails in name lookup with `NameError`, because `__import__` is neither a variable nor a global (`Evaluator.ImportIsUnreachable`).
- What keeps evaluation away from the interpreter is name lookup. Every callable inside a value that evaluation produces, and so every function a call invokes, is held by the lookup of a name that occurs in the expression itself: a variable's value or an entry of `ALLOWED_GLOBALS` (`Evaluator.ValuesComeFromNames`, `Evaluator.CalleesComeFromNames`). An expression without names yields no callable at all (`Evaluator.NamelessHoldsNoCallable`).
- The three unsupported-construct branches of `_eval` (calculatorphyton.py:183, 190 and 202) raise distinct messages: "Unsupported operator", "Unsupported unary operator" and "Unsupported node". The model keeps them apart, and all three are proved unreachable after validation.

## Model

| member | source | states |
|---|---|---|
| PyText.Strip | calculatorphyton.py:211 | `str.strip` result is empty exactly when the text is all whitespace, and otherwise neither starts nor ends with whitespace |
| PyText.StripIsSlice | calculatorphyton.py:211 | strip removes only a whitespace run before and a whitespace run after a contiguous part of the text |
| PyText.StripIdempotent | dice_rolling.py:22 | stripping twice gives the same as stripping once |
| PyText.NatToString | disarium.py:6 | `str(n)` has exactly the decimal digits of n, most significant first |
| PyText.IsIdentifier | calculatorphyton.py:212 | definition of `str.isidentifier` on ASCII: a letter or underscore, then letters, digits and underscores; used by `Session.ValidName` |
| PyText.IntToString | disarium.py:6 | `str(n)`: the digits of n, after a minus sign when n < 0 |
| PyText.ParseNat | dice_rolling.py:27-28 | definition of `int()` on a digit string, most significant digit first; `ParseNatToString` and `PaddedValue` state its properties |
| PyText.ParseNatToString | dice_rolling.py:27-28 | `int(str(n)) == n`, and `str(n)` consists of digits only |
| PyText.PaddedValue | dice_rolling.py:27-28 | `int()` of a digit string ignores leading zeros |
| PyInt.FloorDivMod | calculatorphyton.py:177-180 | for b ≠ 0, `a == b * (a // b) + a % b`, with the remainder in [0, b) for b > 0 and in (b, 0] for b < 0 |
| PyInt.FloorDivModUnique | calculatorphyton.py:177-180 | any quotient and remainder with the divisor's sign that satisfy that equation are Python's `//` and `%` |
| PyInt.Factorial | calculatorphyton.py:67 | `math.factorial` is at least 1 |
| PyInt.PermAndCombBeyondN | calculatorphyton.py:70-71 | `perm(n, k)` and `comb(n, k)` are 0 when k > n |
| PyInt.PermAllIsFactorial | calculatorphyton.py:71 | `perm(n, n) == factorial(n)` |
| PyInt.CombAll | calculatorphyton.py:70 | `comb(n, n) == 1` |
| PyInt.Pow | calculatorphyton.py:181-182 | definition of `a ** b` on ints for b ≥ 0 as repeated multiplication |
| PyInt.FloorDiv | calculatorphyton.py:177-178 | definition of `//`, rounding towards negative infinity; `FloorDivMod` and `FloorDivModUnique` state its meaning |
| PyInt.Mod | calculatorphyton.py:179-180 | definition of `%` as the remainder of `//`; see `FloorDivMod` |
| PyInt.Perm | calculatorphyton.py:71 | definition of `math.perm(n, k)` by its recurrence; see `PermAndCombBeyondN` and `PermAllIsFactorial` |
| PyInt.Comb | calculatorphyton.py:70 | definition of `math.comb(n, k)` by Pascal's rule; see `PermAndCombBeyondN` and `CombAll` |
| PyInt.Lcm | calculatorphyton.py:73 | definition of `math.lcm(a, b)` as `a // gcd(a, b) * b`, zero when either is zero; see `LcmIsCommonMultiple` and `LcmIsLeast` |
| PyInt.GcdAll | calculatorphyton.py:72 | definition of `math.gcd(*xs)` as a fold of gcd over the absolute values from 0; see `GcdAllDividesEach` and `GcdAllIsGreatest` |
| PyInt.LcmAll | calculatorphyton.py:73 | definition of `math.lcm(*xs)` as a fold of lcm over the absolute values from 1; see `LcmAllDividedByEach` and `LcmAllIsLeast` |
| PyInt.Total | calculatorphyton.py:94 | the sum of a list of ints, the reference that `SumFromInt` relates `sum` to |
| PyInt.Gcd | calculatorphyton.py:72 | gcd is positive unless both arguments are 0 |
| PyInt.GcdDividesBoth | calculatorphyton.py:72 | gcd divides both arguments |
| PyInt.EuclidStep | calculatorphyton.py:72 | a common divisor of b and a % b divides a, the step that makes Euclid's algorithm correct |
| PyInt.CommonDivisorDividesGcd | calculatorphyton.py:72 | every common divisor divides the gcd, so it is the greatest |
| PyInt.LcmIsCommonMultiple | calculatorphyton.py:73 | `lcm(a, b)` is a multiple of both arguments |
| PyInt.LcmIsLeast | calculatorphyton.py:73 | `lcm(a, b)` divides every common multiple of a and b, so it is the least one |
| PyInt.GcdScale | calculatorphyton.py:72 | `gcd(m*a, m*b) == m * gcd(a, b)`, the step to the least-multiple property |
| PyInt.GcdAllDividesEach | calculatorphyton.py:72 | gcd of many arguments divides each of them |
| PyInt.GcdAllIsGreatest | calculatorphyton.py:72 | every common divisor of all the arguments divides their gcd |
| PyInt.LcmAllDividedByEach | calculatorphyton.py:73 | lcm of many arguments is a multiple of each of them |
| PyInt.LcmAllIsLeast | calculatorphyton.py:73 | lcm of many arguments divides every common multiple of them |
| PyInt.Min | calculatorphyton.py:95 | `min` of ints is one of them and no larger than any |
| PyInt.Max | calculatorphyton.py:96 | `max` of ints is one of them and no smaller than any |
| Checker.FirstForbiddenMeaning | calculatorphyton.py:139-143 | no disallowed kind in a list of kinds exactly when the scan finds none; otherwise it gives the first one |
| Checker.CheckNode | calculatorphyton.py:139-143 | definition of `_check_node`: the node's kind must be allowed, then each child is checked in order; `CheckIsFirstForbidden`, `CheckNodeMeaning` and `CheckAcceptsAllowed` state its meaning |
| Checker.CheckChildren | calculatorphyton.py:142-143 | the loop over `ast.iter_child_nodes`: the first failing child's error, or success |
| PyAst.NodeAst | calculatorphyton.py:142 | the children that `ast.iter_child_nodes` yields for each node class, in Python's field order, with operators, contexts and keywords as nodes |
| Checker.CheckIsFirstForbidden | calculatorphyton.py:139-143 | `_check_node` fails with the first disallowed kind of the tree in pre-order, and succeeds when there is none |
| Checker.CheckNodeMeaning | calculatorphyton.py:139-143 | `_check_node` succeeds iff every node at any depth has an allowed kind; a failure names a disallowed kind that occurs in the tree |
| Checker.OperatorAllowList | calculatorphyton.py:122 | exactly `+ - * / // % **` of the thirteen Python binary operators are allowed |
| Checker.CheckAcceptsAllowed | calculatorphyton.py:114-127 | the walk accepts a tree iff it is in the grammar: load-context names, the seven operators, unary `+`/`-`, constants, load-context tuples and lists, and calls without keywords |
| Checker.KeywordsNeverAllowed | calculatorphyton.py:142 | a call with a named argument anywhere in the tree is rejected, since `ast.keyword` is not allowed |
| PyValues.IntArgs | calculatorphyton.py:67-73 | the integer functions accept their arguments iff all are ints, and get those ints in order |
| PyValues.IntArith | calculatorphyton.py:166-182 | definition of the seven operators on two ints; `Evaluator.IntOperators` states their meaning |
| PyValues.Arith | calculatorphyton.py:166-183 | the operator dispatch of `_eval` and Python's `+`, `*` on strings, tuples and lists; any other operator is "Unsupported operator"; see `ArithMentions` |
| PyValues.UnaryArith | calculatorphyton.py:184-190 | unary `+` and `-` on ints; any other unary operator is "Unsupported unary operator"; see `Evaluator.UnaryOperators` |
| PyValues.SumFrom | calculatorphyton.py:94 | `sum` as repeated `+` from the start value; see `SumFromInt` and `SumFromFailures` |
| PyValues.Invoke | calculatorphyton.py:54-98 | the built-ins of `ALLOWED_GLOBALS` applied to positional arguments: arity and type errors, the domain errors of `math`, and the int results; see `InvokeMentions` and `InvokeFailures` |
| PyValues.RepeatLayout | calculatorphyton.py:173-174 | sequence repetition `s * k` has length 0 for k ≤ 0 and k · len(s) otherwise, and its element i is element i mod len(s) of s: k copies of s in order |
| PyValues.ArithMentions | calculatorphyton.py:166-182 | no operator creates a callable: one in the result was in an operand |
| PyValues.SumFromInt | calculatorphyton.py:94 | `sum` from an int start succeeds exactly when every argument is an int, and then gives the start plus the total of the arguments |
| PyValues.SumFromFailures | calculatorphyton.py:94 | `sum` fails only with TypeError, or for operands outside the model |
| PyValues.InvokeMentions | calculatorphyton.py:54-98 | no built-in creates a callable: one in the result was among the arguments |
| PyValues.InvokeFailures | calculatorphyton.py:54-98 | the built-ins fail only with TypeError or ValueError, or outside the model |
| Evaluator.Lookup | calculatorphyton.py:159-165 | definition of name resolution; `NameResolution` states its three cases |
| Evaluator.Eval | calculatorphyton.py:154-202 | definition of `_eval`, case by case and left to right; the lemmas below state its properties |
| Evaluator.EvalExpr | calculatorphyton.py:145-152 | definition of `eval_expr`: a syntax error, else the allow-list check, else `_eval` of the body |
| Evaluator.NameResolution | calculatorphyton.py:159-165 | a variable shadows a global of the same name; otherwise the global is used; otherwise NameError |
| Evaluator.EvalEachOk | calculatorphyton.py:191-194 | a list of nodes evaluates iff each node does, giving as many values as nodes, value i being node i's |
| Evaluator.EvalEachFirstError | calculatorphyton.py:191-194 | a failing list fails with the error of its first failing node, all nodes before it succeeding |
| Evaluator.TupleDisplay | calculatorphyton.py:191-192 | a tuple has one element per element node, in order; otherwise the first failing element's error |
| Evaluator.ListDisplay | calculatorphyton.py:193-194 | the same for a list |
| Evaluator.BinOpOrder | calculatorphyton.py:166-168 | the left operand's failure wins, then the right operand's, and only then is the operator applied to both values |
| Evaluator.IntOperators | calculatorphyton.py:166-182 | on ints: `+ - *` are exact and `**` with exponent ≥ 0 is the power. `//`, `%` and `/` by zero raise ZeroDivisionError; `//` and `%` otherwise give the floor quotient and the remainder with the divisor's sign |
| Evaluator.UnaryOperators | calculatorphyton.py:184-189 | `+x` is x and `-x` is the negation of x on ints, so `-(-x)` is x |
| Evaluator.CallOrder | calculatorphyton.py:195-201 | the callee is evaluated first; a non-callable fails with "Attempted to call non-callable" before any argument is evaluated; a callable gets the argument values in order |
| Evaluator.ValuesComeFromNames | calculatorphyton.py:154-201 | any callable inside a value produced by evaluation is in the value that the lookup of some name occurring in the tree returns |
| Evaluator.CalleesComeFromNames | calculatorphyton.py:195-200 | the function a call invokes is in the value of the lookup of a name that occurs in its callee expression |
| Evaluator.NamelessHoldsNoCallable | calculatorphyton.py:154-201 | an expression without names never evaluates to a value holding a callable |
| Evaluator.ExpressionCheck | calculatorphyton.py:145-152 | screening the parsed expression is screening its body, and succeeds iff the body is in the grammar |
| Evaluator.RejectedBeforeEvaluation | calculatorphyton.py:145-152 | a rejected expression gives the rejection whatever the variables hold, so nothing of it is evaluated |
| Evaluator.KeywordCallsRejected | calculatorphyton.py:199 | a call with keyword arguments never reaches the kwargs step |
| Evaluator.AllowedHasNoInternalFailure | calculatorphyton.py:166-202 | a screened tree never hits the unsupported operator, unary operator or node branches |
| Evaluator.EvalExprNoInternalFailure | calculatorphyton.py:145-202 | `eval_expr` never ends in one of those branches |
| Evaluator.UnknownCalleeFails | calculatorphyton.py:159-165 | calling a name bound nowhere fails with NameError |
| Evaluator.ImportIsUnreachable | calculatorphyton.py:159-165 | `__import__('os')` passes the allow-list check and fails with NameError unless a variable of that name exists |
| Session.ValidName | calculatorphyton.py:211-213 | a name is accepted when, once stripped, it is an identifier |
| Session.Calculator.constructor | calculatorphyton.py:206-208 | a new session has no variables and no history |
| Session.Calculator.Assign | calculatorphyton.py:210-218 | a name that is not an identifier once stripped fails before evaluation; a failed evaluation changes nothing; otherwise `vars[name] = value` replaces any old binding and one assignment entry `name = expr` is appended |
| Session.Calculator.Evaluate | calculatorphyton.py:220-224 | the variables never change; success appends exactly one entry that is not an assignment, failure appends nothing |
| Session.Calculator.Clear | calculatorphyton.py:240-242 | the variables and the history are both empty afterwards |
| Session.Calculator.Load | calculatorphyton.py:234-238 | the loaded variables and history replace the current ones |
| Session.SessionExample | calculatorphyton.py:210-224 | after `x = 10`, evaluating `x * 2` gives 20, and the history holds two entries |
| DiceRolling.DiceMatch | dice_rolling.py:17 | the two groups of a match are digit strings, the sides group non-empty |
| DiceRolling.MatchComplete | dice_rolling.py:17 | every text of the form blanks, digits, blanks, `d`/`D`, blanks, digits, blanks matches, with those two digit runs as groups |
| DiceRolling.MatchSound | dice_rolling.py:17 | every match is a text of that form with its groups in place |
| DiceRolling.ParseDice | dice_rolling.py:21-31 | every parsed result has 1 ≤ n ≤ 1000 and 2 ≤ sides ≤ 1000000 |
| DiceRolling.Groups | dice_rolling.py:27-30 | the groups are accepted exactly when the count (1 if empty) is in 1..1000 and the sides in 2..1000000, giving those two numbers, and the out-of-range error otherwise |
| DiceRolling.BlankIsDefault | dice_rolling.py:22-23 | empty or all-whitespace input gives (1, 6) |
| DiceRolling.MalformedRejected | dice_rolling.py:24-26 | non-blank text not of the pattern's form fails with the invalid format error |
| DiceRolling.ParseMatched | dice_rolling.py:27-30 | after a match, the result is the conversion and range check of the groups |
| DiceRolling.WellFormedParses | dice_rolling.py:24-30 | text of the pattern's form gives its count (1 when missing) and sides when in range, and the out-of-range error otherwise |
| DiceRolling.RoundTrip | dice_rolling.py:17-31 | `parse_dice(f"{n}d{sides}")`, with `d` or `D`, is `(n, sides)` for every count in 1..1000 and sides in 2..1000000, and the out-of-range error for every other count and sides |
| DiceRolling.DefaultCount | dice_rolling.py:27 | `d{sides}` or `D{sides}` with no count is one die of that many sides, for every sides in 2..1000000 |
| DiceRolling.PaddedRoundTrip | dice_rolling.py:27-30 | leading zeros in either group change nothing: zeros plus `str(n)`, `d`/`D`, zeros plus `str(sides)` parses to `(n, sides)` in range and to the out-of-range error otherwise, so `"007d06"` is `(7, 6)` |
| DiceRolling.RollDice | dice_rolling.py:33-34 | `roll_dice(n, sides)` has n results, each in 1..sides |
| DiceRolling.RollDiceCovers | dice_rolling.py:33-34 | every list of results in 1..sides is produced by some draws |
| DiceRolling.Total | dice_rolling.py:76 | `sum(rolls)`; `TotalBounds` bounds it |
| DiceRolling.TotalBounds | dice_rolling.py:76 | the total of n rolls lies between n and n * sides |
| DiceRolling.WellFormed | dice_rolling.py:71-77 | what a history entry is: notation `f"{n}d{sides}"` for a parse result, n rolls each in 1..sides, and their sum as total |
| DiceRolling.RecordWellFormed | dice_rolling.py:71-77 | the appended entry's notation parses back to its count and sides, it has one result per die, each in range, and its total is their sum |
| DiceRolling.RollLog.Valid | dice_rolling.py:19 | the invariant of the history list: every entry is well-formed |
| DiceRolling.RollLog.constructor | dice_rolling.py:19 | the history starts empty |
| DiceRolling.RollLog.Roll | dice_rolling.py:71-77 | a parse error leaves the history unchanged; otherwise exactly one entry `(f"{n}d{sides}", rolls, sum(rolls))` is appended, and every entry stays well-formed |
| DiceRolling.RollLog.Clear | dice_rolling.py:66-67 | the history is empty afterwards |
| Bank.Transaction | method.py:7-32 | the balance changes only by a positive deposit (adding it) or a positive withdrawal the balance covers (subtracting it) |
| Bank.BankAccount.constructor | method.py:2-4 | owner and balance are as given |
| Bank.BankAccount.Open | method.py:2-4 | the balance defaults to 0 |
| Bank.BankAccount.PerformTransaction | method.py:7-32 | the outcome and the new balance are those of `Transaction`; `owner` is a constant field |
| Bank.DepositEffect | method.py:12-17 | a deposit of amount > 0 adds exactly amount; any other leaves the balance unchanged |
| Bank.WithdrawEffect | method.py:19-26 | a withdrawal with 0 < amount ≤ balance subtracts exactly amount; amount > balance is insufficient funds; any other is invalid; both leave the balance unchanged |
| Bank.OtherKindsChangeNothing | method.py:28-32 | `check_balance` and unknown types leave the balance unchanged |
| Bank.NonNegativePreserved | method.py:20-22 | from a non-negative balance no transaction makes it negative |
| Bank.WithdrawUndoesDeposit | method.py:12-22 | withdrawing what was just deposited restores the balance |
| Bank.ScriptedSession | method.py:37-45 | the five scripted transactions from 5000 end at 4500 with the expected outcomes |
| Disarium.DigitPowerSum | disarium.py:7-9 | the sum of digit ** position over a list of digits, positions counted from 1 |
| Disarium.DisariumSum | disarium.py:5-10 | the power sum of the decimal digits of num, the reference the loop is proved against |
| Disarium.CharToInt | disarium.py:8 | `int(c)` succeeds exactly on a digit and gives its value |
| Disarium.IsDisarium | disarium.py:1-10 | for num ≥ 0 the answer is whether the sum of digit ** position equals num, where the loop keeps total equal to the power sum of the digits seen so far; a negative num fails at its `-` |
| Disarium.SingleDigits | disarium.py:7-10 | every digit 0-9 is a Disarium number |
| Disarium.TwoAndThreeDigitExamples | disarium.py:7-10 | 89 and 135 are Disarium numbers |
| Disarium.TenIsNot | disarium.py:7-10 | 10 is not: its power sum is 1 |

## Left out

- CPython's resource limits are not modelled, so the model gives a result where CPython raises. `_check_node` and `_eval` (calculatorphyton.py:139-143, 154-202) recurse once per tree level: a chain of about a thousand `+1` terms raises `RecursionError`, and then `assign` leaves `variables` unchanged where `Calculator.Assign` binds the value. CPython 3.11 and later refuse to convert ints of more than 4300 digits to or from text: `int(m.group(1))` (dice_rolling.py:27-28) then raises a `ValueError` that is not the out-of-range error, so `DiceRolling.RoundTrip` and `DiceRolling.PaddedRoundTrip` claim too much for such huge counts, and `str(num)` (disarium.py:6) raises where `Disarium.IsDisarium` gives an answer.
- `ast.parse` is a foreign library call. The model takes its outcome as input: `None` for a `SyntaxError`, or the parsed `Expression`.
  - `Calculator.Assign` and `Calculator.Evaluate` therefore take the expression text together with its parse.
- Floats, complex numbers and bools are carried as opaque values. Any result that depends on their arithmetic is the `OutsideModel` error. This covers:
  - true division `/`;
  - negative powers of non-zero ints;
  - the real- and complex-valued functions (`sin` … `hypot`, `c_*`, `avg`, `pct`);
  - the constants `pi`, `e`, `tau`, `inf` and `nan`.
- `min` and `max` over two or more values that are not all ints are `OutsideModel`. Python compares strings and sequences there.
- String formatting `str % x` is `OutsideModel`.
- Keyword arguments to built-ins are modelled as a TypeError. The branch is unreachable anyway, since such calls are rejected before evaluation.
- Whitespace, identifiers and digits are ASCII only. Python's Unicode whitespace, identifier and digit classes are not modelled.
- `Calculator.save` and the file and JSON part of `load` are I/O. `load` is modelled as replacing the variables and the history wholesale.
- These are I/O, timing or randomness, and are not modelled:
  - the REPL loops, `print_help`, `show_help` and `show_stats` (with its float average);
  - `input`, `print`, `time.sleep`;
  - `KeyboardInterrupt` and `EOFError` handling.
  - The REPL's split of a line at `=` and the dice loop's `.lower()` are not part of this model. Lowering does not change what `parse_dice` accepts, since it accepts `d` and `D`.
- `random.randint` is a parameter. `roll_dice` takes the generator's draws as a stream, and die i is `1 + draw(i) % sides`; `RollDiceCovers` shows every outcome is reachable. The distribution is not modelled.
- `Disarium.IsDisarium`: the iteration count is not returned. The loop runs over `range(len(str(num)))`, and `str(num)` has exactly as many characters as decimal digits (`PyText.NatToString`).
- The prints of `BankAccount` are left out. The outcome each call returns says which message it would print.
- The following scripts are not part of this model:
  - `calculator.py`, a menu of one-line float computations;
  - `user.py`, a print loop;
  - `Find the value.py`, `natural num.py`, `perimeter circle.py` and `rock paper scissors.py`.
