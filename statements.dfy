/** The statement and expression nodes the scope passes walk
    (src/MonC/Parsing/Scoping/WalkScopeVisitor.cs and src/MonC/Semantics/Scoping/ScopeManager.cs).
    Every node carries its identity, because the scope cache is keyed by node. Expressions are
    told apart only as far as the scope manager dispatches on them: the three parse-tree
    kinds, and every other kind as an operation over its operands. */
module Statements {
  import opened Parsing

  datatype Expr =
    | IdentifierParse(id: NodeId, name: string)
    | AssignmentParse(id: NodeId, lhs: Expr, rhs: Expr)
    | FunctionCallParse(id: NodeId, arguments: seq<Expr>)
    | Operation(id: NodeId, operands: seq<Expr>)

  datatype Declaration = Declaration(id: NodeId, name: string, assignment: Expr)

  datatype Stmt =
    | DeclarationStatement(declaration: Declaration)
    | Break(id: NodeId)
    | Continue(id: NodeId)
    | Return(id: NodeId, rhs: Expr)
    | IfElse(id: NodeId, condition: Expr, ifBody: seq<Stmt>, elseBody: seq<Stmt>)
    | For(id: NodeId, forDeclaration: Declaration, condition: Expr, update: Expr, body: seq<Stmt>)
    | While(id: NodeId, condition: Expr, body: seq<Stmt>)
    | ExpressionStatement(id: NodeId, expression: Expr)

  function StmtId(s: Stmt): NodeId
  {
    if s.DeclarationStatement? then s.declaration.id else s.id
  }

  /** The reference a scope keeps to a declaration. */
  function Ref(d: Declaration): DeclarationRef
  {
    DeclarationRef(d.id, d.name)
  }

  /** A function definition, as far as walking its scopes goes. */
  datatype FunctionDefinition = FunctionDefinition(id: NodeId, body: seq<Stmt>)

  /** The direct sub-expressions, in order. */
  function Operands(e: Expr): (r: seq<Expr>)
    ensures forall i :: 0 <= i < |r| ==> r[i] < e
  {
    match e
    case IdentifierParse(_, _) => []
    case AssignmentParse(_, lhs, rhs) => [lhs, rhs]
    case FunctionCallParse(_, arguments) => arguments
    case Operation(_, operands) => operands
  }

  /** Every node of an expression, in pre-order: the order in which a children visitor hands
      the nodes of an expression to the visitor it wraps. */
  function SubExpressions(e: Expr): (r: seq<Expr>)
    ensures |r| != 0 && r[0] == e
    decreases e, 1
  {
    [e] + SubExpressionsAll(e, Operands(e))
  }

  function SubExpressionsAll(parent: Expr, es: seq<Expr>): seq<Expr>
    requires forall i :: 0 <= i < |es| ==> es[i] < parent
    decreases parent, 0, |es|
  {
    if |es| == 0 then [] else SubExpressions(es[0]) + SubExpressionsAll(parent, es[1..])
  }
}
