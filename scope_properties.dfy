/** Properties of scope walking and of the node-to-scope cache. */
module ScopeProperties {
  import opened Wrappers
  import opened Parsing
  import opened Statements
  import opened ScopeSemantics

  /** What a statement declares in the scope it is walked in: a declaration statement its
      own variable; every compound statement nothing, since it declares only in copies. */
  function Declared(s: Stmt): seq<DeclarationRef>
  {
    if s.DeclarationStatement? then [Ref(s.declaration)] else []
  }

  /** What the top-level statements of a body declare, in order. */
  function DeclaredIn(body: seq<Stmt>): seq<DeclarationRef>
  {
    if |body| == 0 then [] else DeclaredIn(body[..|body| - 1]) + Declared(body[|body| - 1])
  }

  /** `scope` with `added` appended to its variables. */
  function With(scope: Scope, added: seq<DeclarationRef>): Scope
  {
    scope.(variables := scope.variables + added)
  }

  /** Walking a statement changes only the scope on top, and only by appending what the
      statement itself declares: declarations inside if, else, for and while bodies, and the
      declaration of a for loop, are gone once the statement is done. */
  lemma WalkStmtStack(stack: seq<Scope>, s: Stmt)
    requires |stack| != 0
    ensures WalkStmt(stack, s).stack == Pop(stack) + [With(Top(stack), Declared(s))]
  {
    var base := Top(stack);
    assert stack == Pop(stack) + [base];
    assert With(base, []) == base;
    match s
    case IfElse(_, condition, ifBody, elseBody) =>
      var ifWalk := WalkBody(stack + [base], ifBody);
      assert Pop(ifWalk.stack) == stack;
      var elseWalk := WalkBody(Pop(ifWalk.stack) + [base], elseBody);
      assert Pop(elseWalk.stack) == stack;
    case For(_, d, condition, update, body) =>
      var declared := WalkDeclaration(stack + [base], d);
      assert Pop(declared.stack) == stack;
      var bodyWalk := WalkBody(declared.stack, body);
      assert Pop(bodyWalk.stack) == stack;
    case While(_, condition, body) =>
      var bodyWalk := WalkBody(stack + [base], body);
      assert Pop(bodyWalk.stack) == stack;
    case _ =>
  }

  /** After a body, the scope on top holds what it held before plus the body's own top-level
      declarations, in order; nothing below the top changes. */
  lemma {:induction false} WalkBodyStack(stack: seq<Scope>, body: seq<Stmt>)
    requires |stack| != 0
    ensures WalkBody(stack, body).stack == Pop(stack) + [With(Top(stack), DeclaredIn(body))]
    decreases |body|
  {
    if |body| == 0 {
      assert With(Top(stack), DeclaredIn(body)) == Top(stack);
      assert stack == Pop(stack) + [Top(stack)];
    } else {
      var before := WalkBody(stack, body[..|body| - 1]);
      WalkBodyStack(stack, body[..|body| - 1]);
      WalkStmtStack(before.stack, body[|body| - 1]);
      var top := Top(stack);
      assert top.variables + DeclaredIn(body)
             == (top.variables + DeclaredIn(body[..|body| - 1])) + Declared(body[|body| - 1]);
    }
  }

  /** What is handed on while walking depends on the scope on top of the stack only, never on
      the scopes below it. */
  lemma {:induction false} WalkStmtLocal(stack: seq<Scope>, s: Stmt)
    requires |stack| != 0
    ensures WalkStmt(stack, s).handoffs == WalkStmt([Top(stack)], s).handoffs
    decreases s
  {
    var base := Top(stack);
    match s
    case IfElse(_, condition, ifBody, elseBody) =>
      WalkBodyLocal(stack + [base], ifBody);
      WalkBodyLocal([base] + [base], ifBody);
      var ifWalk := WalkBody(stack + [base], ifBody);
      var ifWalk' := WalkBody([base] + [base], ifBody);
      WalkBodyLocal(Pop(ifWalk.stack) + [base], elseBody);
      WalkBodyLocal(Pop(ifWalk'.stack) + [base], elseBody);
    case For(_, d, condition, update, body) =>
      var declared := WalkDeclaration(stack + [base], d);
      var declared' := WalkDeclaration([base] + [base], d);
      WalkBodyLocal(declared.stack, body);
      WalkBodyLocal(declared'.stack, body);
    case While(_, condition, body) =>
      WalkBodyLocal(stack + [base], body);
      WalkBodyLocal([base] + [base], body);
    case _ =>
  }

  lemma {:induction false} WalkBodyLocal(stack: seq<Scope>, body: seq<Stmt>)
    requires |stack| != 0
    ensures WalkBody(stack, body).handoffs == WalkBody([Top(stack)], body).handoffs
    decreases body
  {
    if |body| != 0 {
      var prefix := body[..|body| - 1];
      var before := WalkBody(stack, prefix);
      var before' := WalkBody([Top(stack)], prefix);
      WalkBodyLocal(stack, prefix);
      WalkBodyStack(stack, prefix);
      WalkBodyStack([Top(stack)], prefix);
      WalkStmtLocal(before.stack, body[|body| - 1]);
      WalkStmtLocal(before'.stack, body[|body| - 1]);
    }
  }

  /** The hand-offs of walking a body alone, starting from a single scope. */
  function Local(scope: Scope, body: seq<Stmt>): seq<Handoff>
  {
    WalkBody([scope], body).handoffs
  }

  /** An if/else hands itself and its condition on in the base scope, then each branch is
      walked exactly as it would be alone from a fresh copy of the base scope: nothing the
      if-body declares reaches the else-body. */
  lemma IfElseBranches(stack: seq<Scope>, s: Stmt)
    requires |stack| != 0 && s.IfElse?
    ensures WalkStmt(stack, s).handoffs
            == [StatementVisit(Top(stack), s), ExpressionVisit(Top(stack), s.condition)]
               + Local(Top(stack), s.ifBody) + Local(Top(stack), s.elseBody)
    ensures WalkStmt(stack, s).stack == stack
  {
    var base := Top(stack);
    var ifWalk := WalkBody(stack + [base], s.ifBody);
    WalkBodyLocal(stack + [base], s.ifBody);
    WalkBodyLocal(Pop(ifWalk.stack) + [base], s.elseBody);
    WalkStmtStack(stack, s);
    assert stack == Pop(stack) + [With(base, [])];
  }

  /** A for loop hands itself on in the base scope; its declaration and the declaration's
      initializer in a copy of it; the condition and update in that copy with the declaration
      added, and the body is walked alone from there. Afterwards the stack is as before. */
  lemma ForScope(stack: seq<Scope>, s: Stmt)
    requires |stack| != 0 && s.For?
    ensures var base := Top(stack);
            var inner := With(base, [Ref(s.forDeclaration)]);
            WalkStmt(stack, s).handoffs
            == [StatementVisit(base, s),
                StatementVisit(base, DeclarationStatement(s.forDeclaration)),
                ExpressionVisit(base, s.forDeclaration.assignment),
                ExpressionVisit(inner, s.condition), ExpressionVisit(inner, s.update)]
               + Local(inner, s.body)
    ensures WalkStmt(stack, s).stack == stack
  {
    var base := Top(stack);
    var declared := WalkDeclaration(stack + [base], s.forDeclaration);
    WalkBodyLocal(declared.stack, s.body);
    WalkStmtStack(stack, s);
    assert stack == Pop(stack) + [With(base, [])];
  }

  /** A while loop hands itself and its condition on in the base scope and walks its body
      alone from a copy of it. Afterwards the stack is as before. */
  lemma WhileScope(stack: seq<Scope>, s: Stmt)
    requires |stack| != 0 && s.While?
    ensures WalkStmt(stack, s).handoffs
            == [StatementVisit(Top(stack), s), ExpressionVisit(Top(stack), s.condition)]
               + Local(Top(stack), s.body)
    ensures WalkStmt(stack, s).stack == stack
  {
    WalkBodyLocal(stack + [Top(stack)], s.body);
    WalkStmtStack(stack, s);
    assert stack == Pop(stack) + [With(Top(stack), [])];
  }

  /** A declaration and its initializer are handed on in the scope that does not hold it yet;
      it is added to the scope on top afterwards. */
  lemma DeclarationAfterInitializer(stack: seq<Scope>, d: Declaration)
    requires |stack| != 0
    ensures WalkStmt(stack, DeclarationStatement(d)).handoffs
            == [StatementVisit(Top(stack), DeclarationStatement(d)), ExpressionVisit(Top(stack), d.assignment)]
    ensures Ref(d) !in Top(stack).variables ==>
              forall h :: h in WalkStmt(stack, DeclarationStatement(d)).handoffs ==> Ref(d) !in h.scope.variables
    ensures Top(WalkStmt(stack, DeclarationStatement(d)).stack) == With(Top(stack), [Ref(d)])
  {
  }

  /** `scope` is `base` with variables appended: same function, earlier variables first. */
  predicate Extends(scope: Scope, base: Scope)
  {
    scope.owner == base.owner && base.variables <= scope.variables
  }

  /** Every scope handed on while walking belongs to the same function as the scope on top
      when the walk began, and holds at least the variables that scope held. */
  lemma {:induction false} WalkStmtExtends(stack: seq<Scope>, s: Stmt)
    requires |stack| != 0
    ensures forall h :: h in WalkStmt(stack, s).handoffs ==> Extends(h.scope, Top(stack))
    decreases s
  {
    var base := Top(stack);
    match s
    case IfElse(_, condition, ifBody, elseBody) =>
      var ifWalk := WalkBody(stack + [base], ifBody);
      WalkBodyExtends(stack + [base], ifBody);
      assert Pop(ifWalk.stack) == stack;
      WalkBodyExtends(Pop(ifWalk.stack) + [base], elseBody);
    case For(_, d, condition, update, body) =>
      var declared := WalkDeclaration(stack + [base], d);
      WalkBodyExtends(declared.stack, body);
    case While(_, condition, body) =>
      WalkBodyExtends(stack + [base], body);
    case _ =>
  }

  lemma {:induction false} WalkBodyExtends(stack: seq<Scope>, body: seq<Stmt>)
    requires |stack| != 0
    ensures forall h :: h in WalkBody(stack, body).handoffs ==> Extends(h.scope, Top(stack))
    decreases body
  {
    if |body| != 0 {
      var prefix := body[..|body| - 1];
      var before := WalkBody(stack, prefix);
      WalkBodyExtends(stack, prefix);
      WalkBodyStack(stack, prefix);
      WalkStmtExtends(before.stack, body[|body| - 1]);
    }
  }

  /** Every statement of a body is handed on, with the scope on top at the start plus exactly
      the declarations of the statements before it in the body. */
  lemma {:induction false} StatementSeesEarlierDeclarations(stack: seq<Scope>, body: seq<Stmt>, i: nat)
    requires |stack| != 0 && i < |body|
    ensures StatementVisit(With(Top(stack), DeclaredIn(body[..i])), body[i]) in WalkBody(stack, body).handoffs
    decreases |body|
  {
    var prefix := body[..|body| - 1];
    var before := WalkBody(stack, prefix);
    if i == |body| - 1 {
      WalkBodyStack(stack, prefix);
      assert prefix == body[..i];
      var last := WalkStmt(before.stack, body[i]);
      assert last.handoffs[0] == StatementVisit(Top(before.stack), body[i]);
    } else {
      assert prefix[..i] == body[..i] && prefix[i] == body[i];
      StatementSeesEarlierDeclarations(stack, prefix, i);
    }
  }

  /** The nodes `VisitExpression` records for an expression: an assignment, its left and its
      right side; a call and, through the visits of its arguments, theirs; any other node
      itself. */
  function Touched(e: Expr): set<NodeId>
    decreases e, 1
  {
    match e
    case AssignmentParse(id, lhs, rhs) => {id, lhs.id, rhs.id}
    case FunctionCallParse(id, arguments) => {id} + TouchedAll(e, arguments)
    case IdentifierParse(id, _) => {id}
    case Operation(id, _) => {id}
  }

  function TouchedAll(parent: Expr, es: seq<Expr>): set<NodeId>
    requires forall i :: 0 <= i < |es| ==> es[i] < parent
    decreases parent, 0, |es|
  {
    if |es| == 0 then {} else TouchedAll(parent, es[..|es| - 1]) + Touched(es[|es| - 1])
  }

  /** `r` is `c` with the current scope recorded for exactly the nodes in `nodes`. */
  predicate RecordsCurrent(c: Cache, r: Cache, nodes: set<NodeId>)
    requires c.current.Some?
  {
    && r.current == c.current
    && r.scopes.Keys == c.scopes.Keys + nodes
    && (forall id :: id in nodes ==> r.scopes[id] == c.current.value)
    && (forall id :: id in c.scopes && id !in nodes ==> r.scopes[id] == c.scopes[id])
  }

  /** The manager's `VisitExpression` records a copy of the current scope for the expression's
      node and, for the parse-tree kinds, the nodes they pass on, and for no other node. */
  lemma {:induction false} VisitExpressionRecords(c: Cache, e: Expr)
    requires c.current.Some?
    ensures RecordsCurrent(c, VisitExpression(c, e), Touched(e))
    decreases e, 1
  {
    match e
    case FunctionCallParse(id, arguments) =>
      VisitEachRecords(e, ApplyScope(c, id), arguments);
    case _ =>
  }

  lemma {:induction false} VisitEachRecords(parent: Expr, c: Cache, es: seq<Expr>)
    requires c.current.Some?
    requires forall i :: 0 <= i < |es| ==> es[i] < parent
    ensures RecordsCurrent(c, VisitEach(parent, c, es), TouchedAll(parent, es))
    decreases parent, 0, |es|
  {
    if |es| != 0 {
      var before := VisitEach(parent, c, es[..|es| - 1]);
      VisitEachRecords(parent, c, es[..|es| - 1]);
      VisitExpressionRecords(before, es[|es| - 1]);
    }
  }

  /** An assignment parse node, its left side and its right side all get the current scope;
      so do a call parse node and every one of its arguments. */
  lemma ParseNodesGetCurrentScope(c: Cache, e: Expr)
    requires c.current.Some?
    ensures e.AssignmentParse? ==>
              var r := VisitExpression(c, e);
              && GetScope(r, e.id) == c.current.value
              && GetScope(r, e.lhs.id) == c.current.value
              && GetScope(r, e.rhs.id) == c.current.value
    ensures e.FunctionCallParse? ==>
              var r := VisitExpression(c, e);
              && GetScope(r, e.id) == c.current.value
              && forall i :: 0 <= i < |e.arguments| ==> GetScope(r, e.arguments[i].id) == c.current.value
  {
    VisitExpressionRecords(c, e);
    if e.FunctionCallParse? {
      forall i | 0 <= i < |e.arguments|
        ensures e.arguments[i].id in TouchedAll(e, e.arguments)
      {
        TouchedAllContains(e, e.arguments, i);
      }
    }
  }

  lemma {:induction false} TouchedAllContains(parent: Expr, es: seq<Expr>, i: nat)
    requires forall j :: 0 <= j < |es| ==> es[j] < parent
    requires i < |es|
    ensures es[i].id in TouchedAll(parent, es)
    decreases |es|
  {
    if i < |es| - 1 {
      TouchedAllContains(parent, es[..|es| - 1], i);
    }
  }

  /** `ReplaceNode(old, new)`: afterwards `GetScope(new)` is what `GetScope(old)` was, and
      every other node's scope is unchanged. */
  lemma ReplaceNodeScope(c: Cache, oldNode: NodeId, newNode: NodeId)
    ensures GetScope(ReplaceNode(c, oldNode, newNode), newNode) == GetScope(c, oldNode)
    ensures forall n :: n != newNode ==> GetScope(ReplaceNode(c, oldNode, newNode), n) == GetScope(c, n)
  {
  }

  function TouchedNodes(nodes: seq<Expr>): set<NodeId>
  {
    if |nodes| == 0 then {} else TouchedNodes(nodes[..|nodes| - 1]) + Touched(nodes[|nodes| - 1])
  }

  lemma {:induction false} VisitNodesRecords(c: Cache, nodes: seq<Expr>)
    requires c.current.Some?
    ensures RecordsCurrent(c, VisitNodes(c, nodes), TouchedNodes(nodes))
    decreases |nodes|
  {
    if |nodes| != 0 {
      VisitNodesRecords(c, nodes[..|nodes| - 1]);
      VisitExpressionRecords(VisitNodes(c, nodes[..|nodes| - 1]), nodes[|nodes| - 1]);
    }
  }

  /** `r` keeps every entry of `c` it does not overwrite, and every entry it writes is a scope
      extending `base`. */
  predicate OnlyRecordsExtensions(c: Cache, r: Cache, base: Scope)
  {
    && c.scopes.Keys <= r.scopes.Keys
    && forall id :: id in r.scopes ==>
         (id in c.scopes && r.scopes[id] == c.scopes[id]) || Extends(r.scopes[id], base)
  }

  /** Handling hand-offs whose scopes all extend `base` records only such scopes, and records
      every statement handed on. */
  lemma {:induction false} HandleAllRecords(c: Cache, hs: seq<Handoff>, base: Scope)
    requires forall h :: h in hs ==> Extends(h.scope, base)
    ensures OnlyRecordsExtensions(c, HandleAll(c, hs), base)
    ensures forall h :: h in hs && h.StatementVisit? ==> StmtId(h.statement) in HandleAll(c, hs).scopes
    decreases |hs|
  {
    if |hs| != 0 {
      var prefix := hs[..|hs| - 1];
      var h := hs[|hs| - 1];
      assert forall g :: g in prefix ==> g in hs;
      HandleAllRecords(c, prefix, base);
      var before := HandleAll(c, prefix);
      var c' := before.(current := Some(h.scope));
      if h.ExpressionVisit? {
        VisitNodesRecords(c', SubExpressions(h.expression));
      }
      assert forall g :: g in hs ==> g in prefix || g == h;
    }
  }

  /** Processing a function records, for every node it touches, a scope belonging to that
      function, leaves every other entry as it was, and records every statement of the
      function's body. */
  lemma ProcessFunctionScopes(c: Cache, f: FunctionDefinition)
    ensures var r := ProcessFunction(c, f);
            forall id :: id in r.scopes ==>
              (id in c.scopes && r.scopes[id] == c.scopes[id]) || r.scopes[id].owner == Some(f.id)
    ensures forall i :: 0 <= i < |f.body| ==> StmtId(f.body[i]) in ProcessFunction(c, f).scopes
  {
    var stack := [FunctionScope(f.id)];
    var hs := WalkBody(stack, f.body).handoffs;
    WalkBodyExtends(stack, f.body);
    HandleAllRecords(c, hs, FunctionScope(f.id));
    forall i | 0 <= i < |f.body|
      ensures StmtId(f.body[i]) in ProcessFunction(c, f).scopes
    {
      StatementSeesEarlierDeclarations(stack, f.body, i);
    }
  }
}
