/** SafeEvaluator._check_node: the allow-list walk over every node of a parsed expression. */
module Checker {
  import opened Results
  import opened PyAst

  /** Fails with the kind of the first node, in pre-order, whose kind is outside
      ALLOWED_NODES; the node itself is tested before any of its children. */
  function CheckNode(t: AstNode): Result<(), Kind>
    decreases t, 1
  {
    if t.kind !in ALLOWED_NODES then Err(t.kind) else CheckChildren(t.children)
  }

  function CheckChildren(ts: seq<AstNode>): Result<(), Kind>
    decreases ts, 0
  {
    if ts == [] then Ok(())
    else
      match CheckNode(ts[0])
      case Err(k) => Err(k)
      case Ok(_) => CheckChildren(ts[1..])
  }

  /** The kinds of all nodes of a tree, at any depth, in pre-order. */
  function Walk(t: AstNode): seq<Kind>
    decreases t, 1
  {
    [t.kind] + WalkAll(t.children)
  }

  function WalkAll(ts: seq<AstNode>): seq<Kind>
    decreases ts, 0
  {
    if ts == [] then [] else Walk(ts[0]) + WalkAll(ts[1..])
  }

  /** The first kind of a list that is not allowed. */
  function FirstForbidden(ks: seq<Kind>): Option<Kind>
  {
    if ks == [] then None
    else if ks[0] !in ALLOWED_NODES then Some(ks[0])
    else FirstForbidden(ks[1..])
  }

  function AsCheck(first: Option<Kind>): Result<(), Kind> {
    match first
    case None => Ok(())
    case Some(k) => Err(k)
  }

  lemma {:induction false} FirstForbiddenConcat(a: seq<Kind>, b: seq<Kind>)
    ensures FirstForbidden(a + b) == if FirstForbidden(a).Some? then FirstForbidden(a) else FirstForbidden(b)
  {
    if a != [] {
      assert (a + b)[1..] == a[1..] + b;
      FirstForbiddenConcat(a[1..], b);
    } else {
      assert a + b == b;
    }
  }

  /** No forbidden kind is found exactly when every kind is allowed; a kind that is found occurs
      in the list, is not allowed, and every kind before its first occurrence is allowed. */
  lemma {:induction false} FirstForbiddenMeaning(ks: seq<Kind>)
    ensures FirstForbidden(ks).None? <==> forall i :: 0 <= i < |ks| ==> ks[i] in ALLOWED_NODES
    ensures FirstForbidden(ks).Some? ==>
      exists i :: 0 <= i < |ks| && ks[i] == FirstForbidden(ks).value && ks[i] !in ALLOWED_NODES &&
        forall j :: 0 <= j < i ==> ks[j] in ALLOWED_NODES
  {
    if ks != [] && ks[0] in ALLOWED_NODES {
      FirstForbiddenMeaning(ks[1..]);
      if FirstForbidden(ks).Some? {
        var i :| 0 <= i < |ks[1..]| && ks[1..][i] == FirstForbidden(ks[1..]).value && ks[1..][i] !in ALLOWED_NODES &&
          forall j :: 0 <= j < i ==> ks[1..][j] in ALLOWED_NODES;
        assert ks[i + 1] == ks[1..][i];
        assert forall j :: 0 <= j < i + 1 ==> ks[j] in ALLOWED_NODES by {
          forall j | 0 <= j < i + 1 ensures ks[j] in ALLOWED_NODES {
            if j > 0 { assert ks[j] == ks[1..][j - 1]; }
          }
        }
      } else {
        forall i | 0 <= i < |ks| ensures ks[i] in ALLOWED_NODES {
          if i > 0 { assert ks[i] == ks[1..][i - 1]; }
        }
      }
    }
  }

  /** The check fails with exactly the first disallowed kind of the pre-order walk, and
      succeeds when there is none. */
  lemma {:induction false} CheckIsFirstForbidden(t: AstNode)
    ensures CheckNode(t) == AsCheck(FirstForbidden(Walk(t)))
    decreases t, 1
  {
    FirstForbiddenConcat([t.kind], WalkAll(t.children));
    CheckChildrenIsFirstForbidden(t.children);
  }

  lemma {:induction false} CheckChildrenIsFirstForbidden(ts: seq<AstNode>)
    ensures CheckChildren(ts) == AsCheck(FirstForbidden(WalkAll(ts)))
    decreases ts, 0
  {
    if ts != [] {
      CheckIsFirstForbidden(ts[0]);
      CheckChildrenIsFirstForbidden(ts[1..]);
      FirstForbiddenConcat(Walk(ts[0]), WalkAll(ts[1..]));
    }
  }

  /** The check succeeds iff every node of the tree, at any depth, has an allowed kind; when it
      fails, the kind it reports belongs to some node of the tree and is not allowed. */
  lemma CheckNodeMeaning(t: AstNode)
    ensures CheckNode(t).Ok? <==> forall i :: 0 <= i < |Walk(t)| ==> Walk(t)[i] in ALLOWED_NODES
    ensures CheckNode(t).Err? ==> CheckNode(t).error in Walk(t) && CheckNode(t).error !in ALLOWED_NODES
  {
    CheckIsFirstForbidden(t);
    FirstForbiddenMeaning(Walk(t));
  }

  lemma {:induction false} CheckChildrenOk(ts: seq<AstNode>)
    ensures CheckChildren(ts).Ok? <==> forall i :: 0 <= i < |ts| ==> CheckNode(ts[i]).Ok?
  {
    if ts != [] {
      CheckChildrenOk(ts[1..]);
      assert forall i :: 1 <= i < |ts| ==> ts[i] == ts[1..][i - 1];
    }
  }

  predicate AllowedOperator(op: BinOperator) {
    op.Add? || op.Sub? || op.Mult? || op.Div? || op.FloorDiv? || op.Mod? || op.Pow?
  }

  lemma OperatorAllowList(op: BinOperator)
    ensures OperatorKind(op) in ALLOWED_NODES <==> AllowedOperator(op)
  {
    match op
    case Add =>
    case Sub =>
    case Mult =>
    case MatMult =>
    case Div =>
    case Mod =>
    case Pow =>
    case LShift =>
    case RShift =>
    case BitOr =>
    case BitXor =>
    case BitAnd =>
    case FloorDiv =>
  }

  /** The allow-list read as a grammar: only the seven arithmetic operators and unary + and -, only
      Load contexts, no keyword arguments and no foreign node kind, at any depth. */
  predicate Allowed(n: Node)
    decreases n
  {
    match n
    case Constant(_) => true
    case Name(_, ctx) => ctx == Load
    case BinOp(l, op, r) => AllowedOperator(op) && Allowed(l) && Allowed(r)
    case UnaryOp(op, x) => (op == UAdd || op == USub) && Allowed(x)
    case Call(f, args, kws) => Allowed(f) && (forall i :: 0 <= i < |args| ==> Allowed(args[i])) && kws == []
    case Tuple(elts, ctx) => ctx == Load && forall i :: 0 <= i < |elts| ==> Allowed(elts[i])
    case List(elts, ctx) => ctx == Load && forall i :: 0 <= i < |elts| ==> Allowed(elts[i])
    case Other(_, _) => false
  }

  /** One step of the walk: a node passes iff its own kind is allowed and every child passes. */
  lemma CheckNodeStep(t: AstNode)
    ensures CheckNode(t).Ok? <==>
      t.kind in ALLOWED_NODES && forall i :: 0 <= i < |t.children| ==> CheckNode(t.children[i]).Ok?
  {
    CheckChildrenOk(t.children);
  }

  lemma CheckNodeAsts(ns: seq<Node>)
    requires forall i :: 0 <= i < |ns| ==> (CheckNode(NodeAst(ns[i])).Ok? <==> Allowed(ns[i]))
    ensures CheckChildren(NodeAsts(ns)).Ok? <==> forall i :: 0 <= i < |ns| ==> Allowed(ns[i])
  {
    CheckChildrenOk(NodeAsts(ns));
  }

  lemma CheckBinOp(l: Node, op: BinOperator, r: Node)
    requires CheckNode(NodeAst(l)).Ok? <==> Allowed(l)
    requires CheckNode(NodeAst(r)).Ok? <==> Allowed(r)
    ensures CheckNode(NodeAst(BinOp(l, op, r))).Ok? <==> Allowed(BinOp(l, op, r))
  {
    var t := NodeAst(BinOp(l, op, r));
    CheckNodeStep(t);
    CheckNodeStep(Leaf(OperatorKind(op)));
    OperatorAllowList(op);
    assert t.children == [NodeAst(l), Leaf(OperatorKind(op)), NodeAst(r)];
    assert CheckNode(t).Ok? <==>
      CheckNode(NodeAst(l)).Ok? && CheckNode(Leaf(OperatorKind(op))).Ok? && CheckNode(NodeAst(r)).Ok? by {
      assert |t.children| == 3;
      assert t.children[0] == NodeAst(l) && t.children[1] == Leaf(OperatorKind(op)) && t.children[2] == NodeAst(r);
    }
  }

  lemma CheckUnaryOp(op: UnaryOperator, x: Node)
    requires CheckNode(NodeAst(x)).Ok? <==> Allowed(x)
    ensures CheckNode(NodeAst(UnaryOp(op, x))).Ok? <==> Allowed(UnaryOp(op, x))
  {
    var t := NodeAst(UnaryOp(op, x));
    CheckNodeStep(t);
    CheckNodeStep(Leaf(UnaryKind(op)));
    assert t.children == [Leaf(UnaryKind(op)), NodeAst(x)];
    assert CheckNode(t).Ok? <==> CheckNode(Leaf(UnaryKind(op))).Ok? && CheckNode(NodeAst(x)).Ok? by {
      assert t.children[0] == Leaf(UnaryKind(op)) && t.children[1] == NodeAst(x);
    }
    assert UnaryKind(op) in ALLOWED_NODES <==> op == UAdd || op == USub;
  }

  lemma CheckCall(f: Node, args: seq<Node>, kws: seq<Keyword>)
    requires CheckNode(NodeAst(f)).Ok? <==> Allowed(f)
    requires forall i :: 0 <= i < |args| ==> (CheckNode(NodeAst(args[i])).Ok? <==> Allowed(args[i]))
    ensures CheckNode(NodeAst(Call(f, args, kws))).Ok? <==> Allowed(Call(f, args, kws))
  {
    var t := NodeAst(Call(f, args, kws));
    var mid, tail := NodeAsts(args), KeywordAsts(kws);
    assert t.children == [NodeAst(f)] + mid + tail;
    CheckNodeStep(t);
    assert CheckNode(t).Ok? <==> AllPass(t.children);
    AllPassSplit(NodeAst(f), mid, tail);
    assert AllPass(mid) <==> forall i :: 0 <= i < |args| ==> Allowed(args[i]) by {
      assert forall i :: 0 <= i < |args| ==> mid[i] == NodeAst(args[i]);
    }
    assert AllPass(tail) <==> kws == [] by {
      if kws != [] {
        assert tail[0].kind == KKeyword;
        CheckNodeStep(tail[0]);
      }
    }
    AllowedCall(f, args, kws);
  }

  lemma AllowedCall(f: Node, args: seq<Node>, kws: seq<Keyword>)
    ensures Allowed(Call(f, args, kws)) <==>
      Allowed(f) && (forall i :: 0 <= i < |args| ==> Allowed(args[i])) && kws == []
  {
  }

  /** Every node of the list passes the walk. */
  predicate AllPass(ts: seq<AstNode>) {
    forall i :: 0 <= i < |ts| ==> CheckNode(ts[i]).Ok?
  }

  lemma AllPassSplit(h: AstNode, mid: seq<AstNode>, tail: seq<AstNode>)
    ensures AllPass([h] + mid + tail) <==> CheckNode(h).Ok? && AllPass(mid) && AllPass(tail)
  {
    var all := [h] + mid + tail;
    assert all[0] == h;
    assert forall i :: 0 <= i < |mid| ==> all[1 + i] == mid[i];
    assert forall i :: 0 <= i < |tail| ==> all[1 + |mid| + i] == tail[i];
  }

  lemma CheckSequence(kind: Kind, elts: seq<Node>, ctx: Context)
    requires kind == KTuple || kind == KList
    requires forall i :: 0 <= i < |elts| ==> (CheckNode(NodeAst(elts[i])).Ok? <==> Allowed(elts[i]))
    ensures CheckNode(AstNode(kind, NodeAsts(elts) + [Leaf(ContextKind(ctx))])).Ok? <==>
      ctx == Load && forall i :: 0 <= i < |elts| ==> Allowed(elts[i])
  {
    var t := AstNode(kind, NodeAsts(elts) + [Leaf(ContextKind(ctx))]);
    CheckNodeStep(t);
    CheckNodeStep(Leaf(ContextKind(ctx)));
    assert t.children[|elts|] == Leaf(ContextKind(ctx));
    assert forall i :: 0 <= i < |elts| ==> t.children[i] == NodeAst(elts[i]);
  }

  /** The runtime walk accepts a typed tree exactly when the tree is in the allowed grammar. */
  lemma {:induction false} CheckAcceptsAllowed(n: Node)
    ensures CheckNode(NodeAst(n)).Ok? <==> Allowed(n)
    decreases n
  {
    match n
    case Constant(_) =>
    case Name(_, ctx) =>
      CheckNodeStep(NodeAst(n));
      CheckNodeStep(Leaf(ContextKind(ctx)));
    case BinOp(l, op, r) =>
      CheckAcceptsAllowed(l);
      CheckAcceptsAllowed(r);
      CheckBinOp(l, op, r);
    case UnaryOp(op, x) =>
      CheckAcceptsAllowed(x);
      CheckUnaryOp(op, x);
    case Call(f, args, kws) =>
      CheckAcceptsAllowed(f);
      forall i | 0 <= i < |args| ensures CheckNode(NodeAst(args[i])).Ok? <==> Allowed(args[i]) {
        CheckAcceptsAllowed(args[i]);
      }
      CheckCall(f, args, kws);
    case Tuple(elts, ctx) =>
      forall i | 0 <= i < |elts| ensures CheckNode(NodeAst(elts[i])).Ok? <==> Allowed(elts[i]) {
        CheckAcceptsAllowed(elts[i]);
      }
      CheckSequence(KTuple, elts, ctx);
    case List(elts, ctx) =>
      forall i | 0 <= i < |elts| ensures CheckNode(NodeAst(elts[i])).Ok? <==> Allowed(elts[i]) {
        CheckAcceptsAllowed(elts[i]);
      }
      CheckSequence(KList, elts, ctx);
    case Other(_, _) =>
  }

  /** Some call, at any depth of the tree, passes a named argument (`f(x=1)` or `f(**d)`). */
  predicate UsesKeywords(n: Node)
    decreases n
  {
    match n
    case Constant(_) => false
    case Name(_, _) => false
    case BinOp(l, _, r) => UsesKeywords(l) || UsesKeywords(r)
    case UnaryOp(_, x) => UsesKeywords(x)
    case Call(f, args, kws) =>
      kws != [] || UsesKeywords(f) || exists i :: 0 <= i < |args| && UsesKeywords(args[i])
    case Tuple(elts, _) => exists i :: 0 <= i < |elts| && UsesKeywords(elts[i])
    case List(elts, _) => exists i :: 0 <= i < |elts| && UsesKeywords(elts[i])
    case Other(_, kids) => exists i :: 0 <= i < |kids| && UsesKeywords(kids[i])
  }

  /** ast.keyword is not in the allow-list, so no tree with a keyword argument passes the check. */
  lemma {:induction false} KeywordsNeverAllowed(n: Node)
    requires UsesKeywords(n)
    ensures !Allowed(n)
    ensures CheckNode(NodeAst(n)).Err?
    decreases n
  {
    CheckAcceptsAllowed(n);
    match n
    case BinOp(l, _, r) =>
      if UsesKeywords(l) { KeywordsNeverAllowed(l); } else { KeywordsNeverAllowed(r); }
    case UnaryOp(_, x) =>
      KeywordsNeverAllowed(x);
    case Call(f, args, kws) =>
      if kws == [] {
        if UsesKeywords(f) {
          KeywordsNeverAllowed(f);
        } else {
          var i :| 0 <= i < |args| && UsesKeywords(args[i]);
          KeywordsNeverAllowed(args[i]);
        }
      }
    case Tuple(elts, _) =>
      var i :| 0 <= i < |elts| && UsesKeywords(elts[i]);
      KeywordsNeverAllowed(elts[i]);
    case List(elts, _) =>
      var i :| 0 <= i < |elts| && UsesKeywords(elts[i]);
      KeywordsNeverAllowed(elts[i]);
    case Other(_, _) =>
  }
}
