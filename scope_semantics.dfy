/** What the scope walker and the scope manager compute, as functions of their state.
    The walker keeps a stack of scopes (top last) and hands each statement and each
    expression on to its handler together with the scope on top of the stack at that moment;
    the manager records, per node, a copy of the scope it was handed. */
module ScopeSemantics {
  import opened Wrappers
  import opened Parsing
  import opened Statements

  /** One hand-off from the walker to its handler: `CurrentScope` is set to `scope`, then the
      node is passed on (an expression through the children visitor, so every node of it). */
  datatype Handoff =
    | StatementVisit(scope: Scope, statement: Stmt)
    | ExpressionVisit(scope: Scope, expression: Expr)

  /** The outcome of walking: the scope stack afterwards and the hand-offs, in order. */
  datatype Walked = Walked(stack: seq<Scope>, handoffs: seq<Handoff>)

  function Top(stack: seq<Scope>): Scope
    requires |stack| != 0
  {
    stack[|stack| - 1]
  }

  function Pop(stack: seq<Scope>): seq<Scope>
    requires |stack| != 0
  {
    stack[..|stack| - 1]
  }

  /** The stack with the declaration added to the variables of the scope on top. */
  function Declare(stack: seq<Scope>, d: Declaration): seq<Scope>
    requires |stack| != 0
  {
    Pop(stack) + [Top(stack).(variables := Top(stack).variables + [Ref(d)])]
  }

  /** Walking leaves the depth of the stack and every scope below its top as they were. */
  predicate Balanced(stack: seq<Scope>, r: Walked)
    requires |stack| != 0
  {
    |r.stack| == |stack| && Pop(r.stack) == Pop(stack)
  }

  /** `VisitDeclaration`: the declaration is handed on, then its initializer, both with the
      scope on top; only then is it added to that scope. */
  function WalkDeclaration(stack: seq<Scope>, d: Declaration): (r: Walked)
    requires |stack| != 0
    ensures Balanced(stack, r)
  {
    Walked(Declare(stack, d),
           [StatementVisit(Top(stack), DeclarationStatement(d)), ExpressionVisit(Top(stack), d.assignment)])
  }

  function WalkStmt(stack: seq<Scope>, s: Stmt): (r: Walked)
    requires |stack| != 0
    ensures Balanced(stack, r)
    decreases s
  {
    var base := Top(stack);
    var visit := StatementVisit(base, s);
    match s
    case DeclarationStatement(d) => WalkDeclaration(stack, d)
    case Break(_) => Walked(stack, [visit])
    case Continue(_) => Walked(stack, [visit])
    case Return(_, rhs) => Walked(stack, [visit, ExpressionVisit(base, rhs)])
    case ExpressionStatement(_, e) => Walked(stack, [visit, ExpressionVisit(base, e)])
    case IfElse(_, condition, ifBody, elseBody) =>
      var ifWalk := WalkBody(stack + [base], ifBody);
      var elseWalk := WalkBody(Pop(ifWalk.stack) + [base], elseBody);
      Walked(Pop(elseWalk.stack),
             [visit, ExpressionVisit(base, condition)] + ifWalk.handoffs + elseWalk.handoffs)
    case For(_, d, condition, update, body) =>
      var declared := WalkDeclaration(stack + [base], d);
      var inner := Top(declared.stack);
      var bodyWalk := WalkBody(declared.stack, body);
      Walked(Pop(bodyWalk.stack),
             [visit] + declared.handoffs
             + [ExpressionVisit(inner, condition), ExpressionVisit(inner, update)] + bodyWalk.handoffs)
    case While(_, condition, body) =>
      var bodyWalk := WalkBody(stack + [base], body);
      Walked(Pop(bodyWalk.stack), [visit, ExpressionVisit(base, condition)] + bodyWalk.handoffs)
  }

  /** `VisitBody`: the statements by index, each from the stack the previous one left. */
  function WalkBody(stack: seq<Scope>, body: seq<Stmt>): (r: Walked)
    requires |stack| != 0
    ensures Balanced(stack, r)
    decreases body
  {
    if |body| == 0 then Walked(stack, [])
    else
      var before := WalkBody(stack, body[..|body| - 1]);
      var last := WalkStmt(before.stack, body[|body| - 1]);
      Walked(last.stack, before.handoffs + last.handoffs)
  }

  /** The scope manager's state: the node-to-scope dictionary and `CurrentScope` (null until
      a walker first sets it). */
  datatype Cache = Cache(scopes: map<NodeId, Scope>, current: Option<Scope>)

  /** `GetScope`: the recorded scope, or a new empty one for a node never recorded. */
  function GetScope(c: Cache, node: NodeId): Scope
  {
    if node in c.scopes then c.scopes[node] else NewScope()
  }

  /** `ReplaceNode`: the new node gets the scope `GetScope` gives for the old one. */
  function ReplaceNode(c: Cache, oldNode: NodeId, newNode: NodeId): Cache
  {
    c.(scopes := c.scopes[newNode := GetScope(c, oldNode)])
  }

  /** `ApplyScope`: record a copy of the current scope for the node. */
  function ApplyScope(c: Cache, node: NodeId): (r: Cache)
    requires c.current.Some?
    ensures r.current == c.current
  {
    c.(scopes := c.scopes[node := c.current.value])
  }

  /** The manager's `VisitExpression`: a parse-tree node is dispatched to its own handler, any
      other expression node is recorded. */
  function VisitExpression(c: Cache, e: Expr): (r: Cache)
    requires c.current.Some?
    ensures r.current == c.current
    decreases e, 1
  {
    match e
    case AssignmentParse(id, lhs, rhs) => ApplyScope(ApplyScope(ApplyScope(c, id), lhs.id), rhs.id)
    case FunctionCallParse(id, arguments) => VisitEach(e, ApplyScope(c, id), arguments)
    case IdentifierParse(id, _) => ApplyScope(c, id)
    case Operation(id, _) => ApplyScope(c, id)
  }

  /** `VisitExpression` on each of `es` by index; `parent` bounds the recursion. */
  function VisitEach(parent: Expr, c: Cache, es: seq<Expr>): (r: Cache)
    requires c.current.Some?
    requires forall i :: 0 <= i < |es| ==> es[i] < parent
    ensures r.current == c.current
    decreases parent, 0, |es|
  {
    if |es| == 0 then c
    else VisitExpression(VisitEach(parent, c, es[..|es| - 1]), es[|es| - 1])
  }

  /** Every node of `e`, in pre-order, handed to the manager's `VisitExpression`. */
  function VisitNodes(c: Cache, nodes: seq<Expr>): (r: Cache)
    requires c.current.Some?
    ensures r.current == c.current
  {
    if |nodes| == 0 then c
    else VisitExpression(VisitNodes(c, nodes[..|nodes| - 1]), nodes[|nodes| - 1])
  }

  /** A statement handed to the manager reaches `VisitDefaultStatement`, which records it. */
  function VisitStatement(c: Cache, s: Stmt): (r: Cache)
    requires c.current.Some?
    ensures r.current == c.current
  {
    ApplyScope(c, StmtId(s))
  }

  function Handle(c: Cache, h: Handoff): (r: Cache)
    ensures r.current == Some(h.scope)
  {
    var c' := c.(current := Some(h.scope));
    match h
    case StatementVisit(_, s) => VisitStatement(c', s)
    case ExpressionVisit(_, e) => VisitNodes(c', SubExpressions(e))
  }

  function HandleAll(c: Cache, hs: seq<Handoff>): Cache
  {
    if |hs| == 0 then c else Handle(HandleAll(c, hs[..|hs| - 1]), hs[|hs| - 1])
  }

  /** `ProcessFunction`: walk the body from `Scope.New(function)`, the manager handling every
      hand-off. */
  function ProcessFunction(c: Cache, f: FunctionDefinition): Cache
  {
    HandleAll(c, WalkBody([FunctionScope(f.id)], f.body).handoffs)
  }

  lemma {:induction false} HandleAllAppend(c: Cache, a: seq<Handoff>, b: seq<Handoff>)
    ensures HandleAll(c, a + b) == HandleAll(HandleAll(c, a), b)
    decreases |b|
  {
    if |b| == 0 {
      assert a + b == a;
    } else {
      assert (a + b)[..|a + b| - 1] == a + b[..|b| - 1];
      HandleAllAppend(c, a, b[..|b| - 1]);
    }
  }
}
