/** The expression trees that Python's ast.parse(text, mode='eval') produces, as far as the safe
    evaluator distinguishes them, and the generic view of a tree that its allow-list walk uses. */
module PyAst {
  import opened Results

  /** The classes of Python's ast module, one constructor per class the evaluator tells apart
      (KBinOp is ast.BinOp, KLoad is ast.Load, KKeyword is ast.keyword, ...); KForeign stands for
      every other class: Attribute, Subscript, Lambda, Compare, BoolOp, IfExp, ListComp, Starred,
      JoinedStr, NamedExpr and the rest. */
  datatype Kind =
    | KExpression | KBinOp | KUnaryOp | KNum | KConstant | KName | KLoad
    | KAdd | KSub | KMult | KDiv | KFloorDiv | KMod | KPow | KUAdd | KUSub
    | KCall | KTuple | KList
    | KMatMult | KLShift | KRShift | KBitOr | KBitXor | KBitAnd
    | KInvert | KNot | KStore | KDel | KKeyword
    | KForeign(className: string)

  /** ALLOWED_NODES: the node kinds the evaluator accepts. */
  const ALLOWED_NODES: set<Kind> := {
    KExpression, KBinOp, KUnaryOp, KNum, KConstant, KName, KLoad,
    KAdd, KSub, KMult, KDiv, KFloorDiv, KMod, KPow, KUAdd, KUSub,
    KCall, KTuple, KList
  }

  /** Every binary operator of Python's grammar. */
  datatype BinOperator =
    | Add | Sub | Mult | MatMult | Div | Mod | Pow
    | LShift | RShift | BitOr | BitXor | BitAnd | FloorDiv

  /** Every unary operator of Python's grammar. */
  datatype UnaryOperator = Invert | Not | UAdd | USub

  datatype Context = Load | Store | Del

  /** The value of a Constant node; OtherLit names the type of a float, complex, bytes, bool,
      None or Ellipsis literal, which the model carries but does not compute with. */
  datatype Literal = IntLit(i: int) | StrLit(s: string) | OtherLit(typeName: string)

  datatype Node =
    | Constant(value: Literal)
    | Name(id: string, ctx: Context)
    | BinOp(left: Node, op: BinOperator, right: Node)
    | UnaryOp(uop: UnaryOperator, operand: Node)
    | Call(func: Node, args: seq<Node>, keywords: seq<Keyword>)
    | Tuple(elts: seq<Node>, ctx: Context)
    | List(elts: seq<Node>, ctx: Context)
    | Other(className: string, children: seq<Node>)

  /** A named argument `arg=value`; arg is None for `**value`. */
  datatype Keyword = Keyword(arg: Option<string>, value: Node)

  /** The root that ast.parse returns in 'eval' mode. */
  datatype Expression = Expression(body: Node)

  /** A node as a generic walk sees it: its kind and its child nodes in the order that
      ast.iter_child_nodes yields them. */
  datatype AstNode = AstNode(kind: Kind, children: seq<AstNode>)

  function OperatorKind(op: BinOperator): Kind {
    match op
    case Add => KAdd
    case Sub => KSub
    case Mult => KMult
    case MatMult => KMatMult
    case Div => KDiv
    case Mod => KMod
    case Pow => KPow
    case LShift => KLShift
    case RShift => KRShift
    case BitOr => KBitOr
    case BitXor => KBitXor
    case BitAnd => KBitAnd
    case FloorDiv => KFloorDiv
  }

  function UnaryKind(op: UnaryOperator): Kind {
    match op
    case Invert => KInvert
    case Not => KNot
    case UAdd => KUAdd
    case USub => KUSub
  }

  function ContextKind(ctx: Context): Kind {
    match ctx
    case Load => KLoad
    case Store => KStore
    case Del => KDel
  }

  function Leaf(kind: Kind): AstNode {
    AstNode(kind, [])
  }

  /** The generic view of a node: a BinOp has children left, op, right; a Name its context; a Call
      its callee, its positional arguments and then its keyword nodes; a Tuple or List its
      elements and then its context. */
  function NodeAst(n: Node): AstNode
    decreases n, 1
  {
    match n
    case Constant(_) => Leaf(KConstant)
    case Name(_, ctx) => AstNode(KName, [Leaf(ContextKind(ctx))])
    case BinOp(l, op, r) => AstNode(KBinOp, [NodeAst(l), Leaf(OperatorKind(op)), NodeAst(r)])
    case UnaryOp(op, x) => AstNode(KUnaryOp, [Leaf(UnaryKind(op)), NodeAst(x)])
    case Call(f, args, kws) => AstNode(KCall, [NodeAst(f)] + NodeAsts(args) + KeywordAsts(kws))
    case Tuple(elts, ctx) => AstNode(KTuple, NodeAsts(elts) + [Leaf(ContextKind(ctx))])
    case List(elts, ctx) => AstNode(KList, NodeAsts(elts) + [Leaf(ContextKind(ctx))])
    case Other(name, kids) => AstNode(KForeign(name), NodeAsts(kids))
  }

  function NodeAsts(ns: seq<Node>): (ts: seq<AstNode>)
    ensures |ts| == |ns|
    ensures forall i :: 0 <= i < |ns| ==> ts[i] == NodeAst(ns[i])
    decreases ns, 0
  {
    if ns == [] then [] else [NodeAst(ns[0])] + NodeAsts(ns[1..])
  }

  function KeywordAsts(kws: seq<Keyword>): (ts: seq<AstNode>)
    ensures |ts| == |kws|
    ensures forall i :: 0 <= i < |kws| ==> ts[i].kind == KKeyword
    decreases kws, 0
  {
    if kws == [] then []
    else
      var k := kws[0];
      assert k.value < k;
      [AstNode(KKeyword, [NodeAst(k.value)])] + KeywordAsts(kws[1..])
  }

  function ExpressionAst(e: Expression): AstNode {
    AstNode(KExpression, [NodeAst(e.body)])
  }
}
