/** The scope walker of src/MonC/Parsing/Scoping/WalkScopeVisitor.cs and the node-to-scope
    cache of src/MonC/Semantics/Scoping/ScopeManager.cs, which creates a walker for each
    function and is itself that walker's handler. Each method is proved to do what the
    function of the same name in `ScopeSemantics` says. */
module Scoping {
  import opened Wrappers
  import opened Parsing
  import opened Statements
  import opened ScopeSemantics

  class ScopeManager {
    var scopes: map<NodeId, Scope>
    var currentScope: Option<Scope>

    function Cache(): ScopeSemantics.Cache
      reads this
    {
      ScopeSemantics.Cache(scopes, currentScope)
    }

    constructor ()
      ensures scopes == map[] && currentScope == None
    {
      scopes := map[];
      currentScope := None;
    }

    /** The scope recorded for the node, or a new empty scope, which is not recorded. */
    method GetScope(node: NodeId) returns (scope: Scope)
      ensures node in scopes ==> scope == scopes[node]
      ensures node !in scopes ==> scope == NewScope()
    {
      if node !in scopes {
        return NewScope();
      }
      return scopes[node];
    }

    method ReplaceNode(oldNode: NodeId, newNode: NodeId)
      modifies this
      ensures Cache() == ScopeSemantics.ReplaceNode(old(Cache()), oldNode, newNode)
    {
      var scope := GetScope(oldNode);
      scopes := scopes[newNode := scope];
    }

    /** The `CurrentScope` setter the walker uses. */
    method SetCurrentScope(scope: Scope)
      modifies this
      ensures Cache() == old(Cache()).(current := Some(scope))
    {
      currentScope := Some(scope);
    }

    method ApplyScope(node: NodeId)
      requires currentScope.Some?
      modifies this
      ensures Cache() == ScopeSemantics.ApplyScope(old(Cache()), node)
    {
      scopes := scopes[node := currentScope.value];
    }

    /** A statement is dispatched to the statement visitor this class inherits, whose handler
        for every statement kind is `VisitDefaultStatement`. */
    method VisitStatement(s: Stmt)
      requires currentScope.Some?
      modifies this
      ensures Cache() == ScopeSemantics.VisitStatement(old(Cache()), s)
    {
      ApplyScope(StmtId(s));
    }

    method VisitExpression(e: Expr)
      requires currentScope.Some?
      modifies this
      ensures Cache() == ScopeSemantics.VisitExpression(old(Cache()), e)
      decreases e, 2
    {
      match e
      case AssignmentParse(_, _, _) => VisitAssignment(e);
      case FunctionCallParse(_, _) => VisitFunctionCall(e);
      case IdentifierParse(_, _) => VisitIdentifier(e);
      case Operation(id, _) => ApplyScope(id);
    }

    /** An assignment, its left side and its right side all get the current scope. */
    method VisitAssignment(e: Expr)
      requires e.AssignmentParse? && currentScope.Some?
      modifies this
      ensures Cache() == ScopeSemantics.VisitExpression(old(Cache()), e)
    {
      ApplyScope(e.id);
      ApplyScope(e.lhs.id);
      ApplyScope(e.rhs.id);
    }

    method VisitIdentifier(e: Expr)
      requires e.IdentifierParse? && currentScope.Some?
      modifies this
      ensures Cache() == ScopeSemantics.VisitExpression(old(Cache()), e)
    {
      ApplyScope(e.id);
    }

    /** The call gets the current scope; then each argument is visited, by index. */
    method VisitFunctionCall(e: Expr)
      requires e.FunctionCallParse? && currentScope.Some?
      modifies this
      ensures Cache() == ScopeSemantics.VisitExpression(old(Cache()), e)
      decreases e, 1
    {
      ApplyScope(e.id);
      ghost var start := Cache();
      for i := 0 to |e.arguments|
        invariant currentScope.Some?
        invariant Cache() == VisitEach(e, start, e.arguments[..i])
      {
        assert e.arguments[..i + 1][..i] == e.arguments[..i];
        VisitExpression(e.arguments[i]);
      }
      assert e.arguments[..|e.arguments|] == e.arguments;
    }

    /** Walk a function's body from `Scope.New(function)`, this manager being the walker's
        handler. */
    method ProcessFunction(f: FunctionDefinition)
      modifies this
      ensures Cache() == ScopeSemantics.ProcessFunction(old(Cache()), f)
    {
      var walker := new WalkScopeVisitor(this, FunctionScope(f.id));
      walker.VisitBody(f.body);
    }
  }

  class WalkScopeVisitor {
    /** The scope stack; its top is the last element. */
    var scopes: seq<Scope>
    const handler: ScopeManager

    constructor (handler: ScopeManager, initialScope: Scope)
      ensures scopes == [initialScope] && this.handler == handler
    {
      this.handler := handler;
      scopes := [initialScope];
    }

    /** Set the handler's current scope to the top, then hand the statement on. */
    method VisitStatement(s: Stmt)
      requires |scopes| != 0
      modifies handler
      ensures handler.Cache() == HandleAll(old(handler.Cache()), [StatementVisit(Top(scopes), s)])
    {
      handler.SetCurrentScope(Top(scopes));
      handler.VisitStatement(s);
      assert [StatementVisit(Top(scopes), s)][..0] == [];
    }

    /** Set the handler's current scope to the top, then hand every node of the expression on,
        in pre-order. */
    method VisitExpression(e: Expr)
      requires |scopes| != 0
      modifies handler
      ensures handler.Cache() == HandleAll(old(handler.Cache()), [ExpressionVisit(Top(scopes), e)])
    {
      handler.SetCurrentScope(Top(scopes));
      ghost var start := handler.Cache();
      var nodes := SubExpressions(e);
      for i := 0 to |nodes|
        invariant handler.currentScope.Some?
        invariant handler.Cache() == VisitNodes(start, nodes[..i])
      {
        assert nodes[..i + 1][..i] == nodes[..i];
        handler.VisitExpression(nodes[i]);
      }
      assert nodes[..|nodes|] == nodes;
      assert [ExpressionVisit(Top(scopes), e)][..0] == [];
    }

    method VisitDeclaration(d: Declaration)
      requires |scopes| != 0
      modifies this, handler
      ensures scopes == WalkDeclaration(old(scopes), d).stack
      ensures handler.Cache() == HandleAll(old(handler.Cache()), WalkDeclaration(old(scopes), d).handoffs)
    {
      ghost var c0 := handler.Cache();
      VisitStatement(DeclarationStatement(d));
      VisitExpression(d.assignment);
      HandleAllAppend(c0, [StatementVisit(Top(scopes), DeclarationStatement(d))],
                      [ExpressionVisit(Top(scopes), d.assignment)]);
      var scope := Top(scopes);
      scopes := Pop(scopes) + [scope.(variables := scope.variables + [Ref(d)])];
    }

    /** Dispatch on the statement kind (`AcceptStatementVisitor(this)`). */
    method Accept(s: Stmt)
      requires |scopes| != 0
      modifies this, handler
      ensures scopes == WalkStmt(old(scopes), s).stack
      ensures handler.Cache() == HandleAll(old(handler.Cache()), WalkStmt(old(scopes), s).handoffs)
      decreases s, 1
    {
      match s
      case DeclarationStatement(d) => VisitDeclaration(d);
      case Break(_) => VisitStatement(s);
      case Continue(_) => VisitStatement(s);
      case Return(_, rhs) => VisitWithExpression(s, rhs);
      case ExpressionStatement(_, e) => VisitWithExpression(s, e);
      case IfElse(_, _, _, _) => VisitIfElse(s);
      case For(_, _, _, _, _) => VisitFor(s);
      case While(_, _, _) => VisitWhile(s);
    }

    /** `VisitReturn` and `VisitExpressionStatement`: the statement, then its expression. */
    method VisitWithExpression(s: Stmt, e: Expr)
      requires |scopes| != 0
      requires (s.Return? && e == s.rhs) || (s.ExpressionStatement? && e == s.expression)
      modifies handler
      ensures handler.Cache() == HandleAll(old(handler.Cache()), WalkStmt(scopes, s).handoffs)
      ensures scopes == WalkStmt(scopes, s).stack
    {
      ghost var c0 := handler.Cache();
      VisitStatement(s);
      VisitExpression(e);
      HandleAllAppend(c0, [StatementVisit(Top(scopes), s)], [ExpressionVisit(Top(scopes), e)]);
    }

    /** Each branch is walked on a fresh copy of the base scope, pushed and popped around it. */
    method VisitIfElse(s: Stmt)
      requires |scopes| != 0 && s.IfElse?
      modifies this, handler
      ensures scopes == WalkStmt(old(scopes), s).stack
      ensures handler.Cache() == HandleAll(old(handler.Cache()), WalkStmt(old(scopes), s).handoffs)
      decreases s, 0
    {
      ghost var c0 := handler.Cache();
      ghost var s0 := scopes;
      var base := Top(scopes);
      VisitStatement(s);
      VisitExpression(s.condition);
      HandleAllAppend(c0, [StatementVisit(base, s)], [ExpressionVisit(base, s.condition)]);
      ghost var c1 := handler.Cache();
      scopes := scopes + [base];
      VisitBody(s.ifBody);
      HandleAllAppend(c0, [StatementVisit(base, s), ExpressionVisit(base, s.condition)],
                      WalkBody(s0 + [base], s.ifBody).handoffs);
      ghost var c2 := handler.Cache();
      ghost var middle := Pop(scopes) + [base];
      scopes := Pop(scopes);
      scopes := scopes + [base];
      VisitBody(s.elseBody);
      HandleAllAppend(c0, [StatementVisit(base, s), ExpressionVisit(base, s.condition)]
                          + WalkBody(s0 + [base], s.ifBody).handoffs,
                      WalkBody(middle, s.elseBody).handoffs);
      scopes := Pop(scopes);
    }

    /** The loop's declaration lives in a copy of the base scope, popped after the body. */
    method VisitFor(s: Stmt)
      requires |scopes| != 0 && s.For?
      modifies this, handler
      ensures scopes == WalkStmt(old(scopes), s).stack
      ensures handler.Cache() == HandleAll(old(handler.Cache()), WalkStmt(old(scopes), s).handoffs)
      decreases s, 0
    {
      ghost var c0 := handler.Cache();
      ghost var s0 := scopes;
      var base := Top(scopes);
      VisitStatement(s);
      scopes := scopes + [base];
      VisitDeclaration(s.forDeclaration);
      ghost var declared := WalkDeclaration(s0 + [base], s.forDeclaration);
      HandleAllAppend(c0, [StatementVisit(base, s)], declared.handoffs);
      var inner := Top(scopes);
      VisitExpression(s.condition);
      VisitExpression(s.update);
      HandleAllAppend(c0, [StatementVisit(base, s)] + declared.handoffs, [ExpressionVisit(inner, s.condition)]);
      HandleAllAppend(c0, [StatementVisit(base, s)] + declared.handoffs + [ExpressionVisit(inner, s.condition)],
                      [ExpressionVisit(inner, s.update)]);
      assert [StatementVisit(base, s)] + declared.handoffs + [ExpressionVisit(inner, s.condition)]
             + [ExpressionVisit(inner, s.update)]
             == [StatementVisit(base, s)] + declared.handoffs
             + [ExpressionVisit(inner, s.condition), ExpressionVisit(inner, s.update)];
      ghost var stackBeforeBody := scopes;
      assert stackBeforeBody == declared.stack;
      VisitBody(s.body);
      HandleAllAppend(c0, [StatementVisit(base, s)] + declared.handoffs
                          + [ExpressionVisit(inner, s.condition), ExpressionVisit(inner, s.update)],
                      WalkBody(stackBeforeBody, s.body).handoffs);
      scopes := Pop(scopes);
    }

    /** The condition is visited in the base scope, the body in a copy of it. */
    method VisitWhile(s: Stmt)
      requires |scopes| != 0 && s.While?
      modifies this, handler
      ensures scopes == WalkStmt(old(scopes), s).stack
      ensures handler.Cache() == HandleAll(old(handler.Cache()), WalkStmt(old(scopes), s).handoffs)
      decreases s, 0
    {
      ghost var c0 := handler.Cache();
      ghost var s0 := scopes;
      var base := Top(scopes);
      VisitStatement(s);
      VisitExpression(s.condition);
      HandleAllAppend(c0, [StatementVisit(base, s)], [ExpressionVisit(base, s.condition)]);
      scopes := scopes + [base];
      VisitBody(s.body);
      HandleAllAppend(c0, [StatementVisit(base, s), ExpressionVisit(base, s.condition)],
                      WalkBody(s0 + [base], s.body).handoffs);
      scopes := Pop(scopes);
    }

    /** The statements of a body, by index. */
    method VisitBody(body: seq<Stmt>)
      requires |scopes| != 0
      modifies this, handler
      ensures scopes == WalkBody(old(scopes), body).stack
      ensures handler.Cache() == HandleAll(old(handler.Cache()), WalkBody(old(scopes), body).handoffs)
      decreases body
    {
      ghost var c0 := handler.Cache();
      ghost var s0 := scopes;
      for i := 0 to |body|
        invariant |scopes| != 0
        invariant scopes == WalkBody(s0, body[..i]).stack
        invariant handler.Cache() == HandleAll(c0, WalkBody(s0, body[..i]).handoffs)
      {
        assert body[..i + 1][..i] == body[..i];
        HandleAllAppend(c0, WalkBody(s0, body[..i]).handoffs, WalkStmt(scopes, body[i]).handoffs);
        Accept(body[i]);
      }
      assert body[..|body|] == body;
    }
  }
}
