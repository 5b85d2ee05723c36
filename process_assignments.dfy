/** Assignment resolution, src/MonC/Parsing/Semantics/ProcessAssignmentsVisitor.cs: a binary
    `=` whose left side is an identifier is replaced by an assignment leaf bound to the
    declaration the identifier names in the operation's scope. The visitor reports its
    verdict through `ShouldReplace` and `NewLeaf`, and appends diagnostics to a shared list. */
module ProcessAssignments {
  import opened Wrappers
  import opened Parsing
  import opened Leaves

  /** What visiting a binary operation concludes. */
  datatype Resolution =
    | NotAnAssignment
    | ExpectingIdentifier
    | Undeclared(name: string)
    | Resolved(declaration: DeclarationRef)

  /** The scope the cache records for a node, keyed by the node's identity; a node it has not
      seen is taken to get an empty scope, as the scope manager's `GetScope` gives. */
  function ScopeOf(scopes: map<NodeId, Scope>, node: NodeId): Scope
  {
    if node in scopes then scopes[node] else NewScope()
  }

  /** The verdict for a binary operation in a given scope. */
  function Resolve(scope: Scope, leaf: Leaf): (r: Resolution)
    requires leaf.BinaryOperation?
    ensures r.NotAnAssignment? <==> leaf.op != "="
    ensures r.ExpectingIdentifier? <==> leaf.op == "=" && !leaf.lhs.IdentifierParse?
    ensures r.Undeclared? <==>
              leaf.op == "=" && leaf.lhs.IdentifierParse?
              && forall i :: 0 <= i < |scope.variables| ==> scope.variables[i].name != leaf.lhs.identifier
    ensures r.Undeclared? ==> r.name == leaf.lhs.identifier
    ensures r.Resolved? ==>
              exists i :: 0 <= i < |scope.variables| && scope.variables[i] == r.declaration
                && r.declaration.name == leaf.lhs.identifier
                && forall j :: 0 <= j < i ==> scope.variables[j].name != leaf.lhs.identifier
  {
    if leaf.op != "=" then NotAnAssignment
    else if !leaf.lhs.IdentifierParse? then ExpectingIdentifier
    else
      var i := FirstIndex(scope.variables, leaf.lhs.identifier);
      if i == -1 then Undeclared(leaf.lhs.identifier) else Resolved(scope.variables[i])
  }

  /** The diagnostic a failed resolution reports; the source sets only its message. */
  function Diagnostic(r: Resolution): (e: Option<ParseError>)
    ensures e.Some? <==> r.ExpectingIdentifier? || r.Undeclared?
    ensures r.ExpectingIdentifier? ==> e == Some(ParseError("Expecting identifier", 0, 0))
    ensures r.Undeclared? ==> e == Some(ParseError("Undeclared identifier " + r.name, 0, 0))
  {
    match r
    case ExpectingIdentifier => Some(ParseError("Expecting identifier", 0, 0))
    case Undeclared(name) => Some(ParseError("Undeclared identifier " + name, 0, 0))
    case _ => None
  }

  /** A declaration added to a scope after the first one of a name never changes what an
      assignment to that name resolves to; one added when the name is still undeclared is
      what the assignment then resolves to. */
  lemma ResolveAfterDeclaration(scope: Scope, added: DeclarationRef, leaf: Leaf)
    requires leaf.BinaryOperation?
    ensures var later := scope.(variables := scope.variables + [added]);
            && (Resolve(scope, leaf).Resolved? ==> Resolve(later, leaf) == Resolve(scope, leaf))
            && (Resolve(scope, leaf).Undeclared? && added.name == leaf.lhs.identifier ==>
                  Resolve(later, leaf) == Resolved(added))
  {
    if leaf.op == "=" && leaf.lhs.IdentifierParse? {
      FirstIndexAppend(scope.variables, added, leaf.lhs.identifier);
    }
  }

  class ProcessAssignmentsVisitor {
    const scopes: map<NodeId, Scope>
    var errors: seq<ParseError>
    var shouldReplace: bool
    /** `NewLeaf`: null until a first replacement is produced. */
    var newLeaf: Option<Leaf>

    constructor (scopes: map<NodeId, Scope>, errors: seq<ParseError>)
      ensures this.scopes == scopes && this.errors == errors
      ensures !shouldReplace && newLeaf == None
    {
      this.scopes := scopes;
      this.errors := errors;
      shouldReplace := false;
      newLeaf := None;
    }

    /** An `=` whose left side is an identifier declared in the leaf's scope is replaced by
        an assignment to the first declaration of that name, keeping the right-hand side; any
        other `=` reports one diagnostic and leaves the verdict as it was; any other operator
        changes nothing. */
    method VisitBinaryOperation(leaf: Leaf)
      requires leaf.BinaryOperation?
      modifies this
      ensures var r := Resolve(ScopeOf(scopes, leaf.id), leaf);
              && (r.Resolved? ==> shouldReplace && newLeaf == Some(Assignment(r.declaration, leaf.rhs)))
              && (!r.Resolved? ==> shouldReplace == old(shouldReplace) && newLeaf == old(newLeaf))
              && errors == old(errors) + (if Diagnostic(r).Some? then [Diagnostic(r).value] else [])
    {
      if leaf.op == "=" {
        if !leaf.lhs.IdentifierParse? {
          errors := errors + [ParseError("Expecting identifier", 0, 0)];
          return;
        }
        var scope := ScopeOf(scopes, leaf.id);
        var declaration := Find(scope.variables, leaf.lhs.identifier);
        if declaration.None? {
          errors := errors + [ParseError("Undeclared identifier " + leaf.lhs.identifier, 0, 0)];
          return;
        }
        shouldReplace := true;
        newLeaf := Some(Assignment(declaration.value, leaf.rhs));
      }
    }

    /** Every other leaf kind the visitor handles is never replaced. */
    method VisitOther(leaf: Leaf)
      requires !leaf.BinaryOperation? && !leaf.UnaryOperation?
      modifies this
      ensures !shouldReplace && newLeaf == old(newLeaf) && errors == old(errors)
    {
      shouldReplace := false;
    }
  }
}
