/** The pre-order children traversal of src/MonC/SyntaxTree/Util/VisitChildrenVisitor.cs.
    Its `Visit*` methods have no effect other than calls on the wrapped visitor, so a traversal
    is modelled as the sequence of leaves handed to that visitor, in call order. */
module VisitChildren {
  import opened Wrappers
  import opened Leaves

  /** The visitor a `VisitChildrenVisitor` wraps: the do-nothing visitor it installs in place of
      null, or a visitor of the caller's, which may or may not also implement the parse-tree
      visitor interface. */
  datatype Visitor = NoOp | Custom(id: nat, parseTreeVisitor: bool)

  /** Whether the parse-tree leaves' `Accept` reaches the visitor. What the do-nothing visitor
      implements is irrelevant: it ignores every call. */
  predicate TakesParseLeaves(visitor: Visitor)
  {
    visitor.Custom? && visitor.parseTreeVisitor
  }

  /** The leaves handed to the wrapped visitor while traversing `leaf`, in order. `parse` says
      whether that visitor takes parse-tree leaves. */
  function Visits(leaf: Leaf, parse: bool): (r: seq<Leaf>)
    ensures !IsParseLeaf(leaf) || parse ==> |r| != 0 && r[0] == leaf
    decreases leaf
  {
    match leaf
    case BinaryOperation(_, _, lhs, rhs) => [leaf] + Visits(lhs, parse) + Visits(rhs, parse)
    case UnaryOperation(_, rhs) => [leaf] + Visits(rhs, parse)
    case Body(statements) => [leaf] + VisitsAll(statements, parse)
    case Declaration(_, _, assignment) => [leaf] + VisitsOptional(assignment, parse)
    case For(declaration, condition, update, body) =>
      [leaf] + Visits(declaration, parse) + Visits(condition, parse)
      + Visits(update, parse) + Visits(body, parse)
    case FunctionDefinition(_, parameters, functionBody) =>
      [leaf] + VisitsAll(parameters, parse) + VisitsOptional(functionBody, parse)
    case FunctionCall(_, arguments) => [leaf] + VisitsAll(arguments, parse)
    case IfElse(condition, ifBody, elseBody) =>
      [leaf] + Visits(condition, parse) + Visits(ifBody, parse) + VisitsOptional(elseBody, parse)
    case While(condition, body) => [leaf] + Visits(condition, parse) + Visits(body, parse)
    case Return(returnValue) => [leaf] + VisitsOptional(returnValue, parse)
    case Assignment(_, rhs) => [leaf] + Visits(rhs, parse)
    case IdentifierParse(_) => if parse then [leaf] else []
    case FunctionCallParse(_, arguments) =>
      (if parse then [leaf] else []) + VisitsAll(arguments, parse)
    case _ => [leaf]
  }

  /** `for (i = 0; i < n; ++i) leaves[i].Accept(this)`. */
  function VisitsAll(leaves: seq<Leaf>, parse: bool): seq<Leaf>
    decreases leaves
  {
    if |leaves| == 0 then [] else Visits(leaves[0], parse) + VisitsAll(leaves[1..], parse)
  }

  /** `leaf?.Accept(this)`: nothing when the optional child is absent. */
  function VisitsOptional(leaf: Option<Leaf>, parse: bool): seq<Leaf>
    decreases leaf
  {
    match leaf
    case None => []
    case Some(child) => Visits(child, parse)
  }

  function Optional(leaf: Option<Leaf>): seq<Leaf>
  {
    if leaf.Some? then [leaf.value] else []
  }

  /** The children the traversal descends into, in the order it visits them: the left operand
      before the right one; a loop's declaration, condition, update and body; an if/else's
      condition, if-body and else-body; statements, parameters and arguments by index; an
      absent optional child is not there. The callee of a call is never descended into. */
  function Children(leaf: Leaf): seq<Leaf>
  {
    match leaf
    case BinaryOperation(_, _, lhs, rhs) => [lhs, rhs]
    case UnaryOperation(_, rhs) => [rhs]
    case Body(statements) => statements
    case Declaration(_, _, assignment) => Optional(assignment)
    case For(declaration, condition, update, body) => [declaration, condition, update, body]
    case FunctionDefinition(_, parameters, functionBody) => parameters + Optional(functionBody)
    case FunctionCall(_, arguments) => arguments
    case IfElse(condition, ifBody, elseBody) => [condition, ifBody] + Optional(elseBody)
    case While(condition, body) => [condition, body]
    case Return(returnValue) => Optional(returnValue)
    case Assignment(_, rhs) => [rhs]
    case FunctionCallParse(_, arguments) => arguments
    case _ => []
  }

  /** What the wrapped visitor is handed for the leaf itself: the leaf, unless it is a
      parse-tree leaf and the visitor does not take those. */
  function Own(leaf: Leaf, parse: bool): seq<Leaf>
  {
    if IsParseLeaf(leaf) && !parse then [] else [leaf]
  }

  lemma {:induction false} VisitsAllAppend(a: seq<Leaf>, b: seq<Leaf>, parse: bool)
    ensures VisitsAll(a + b, parse) == VisitsAll(a, parse) + VisitsAll(b, parse)
    decreases a
  {
    if |a| != 0 {
      assert (a + b)[1..] == a[1..] + b;
      VisitsAllAppend(a[1..], b, parse);
    } else {
      assert a + b == b;
    }
  }

  /** Pre-order: every traversal hands over the leaf itself first, then traverses each child,
      left to right, to completion before the next one. */
  lemma {:induction false} PreOrder(leaf: Leaf, parse: bool)
    ensures Visits(leaf, parse) == Own(leaf, parse) + VisitsAll(Children(leaf), parse)
  {
    match leaf
    case BinaryOperation(_, _, lhs, rhs) => PreOrderPair(leaf, lhs, rhs, parse);
    case While(condition, body) => PreOrderPair(leaf, condition, body, parse);
    case For(_, _, _, _) => PreOrderFor(leaf, parse);
    case FunctionDefinition(_, _, _) => PreOrderFunctionDefinition(leaf, parse);
    case IfElse(_, _, _) => PreOrderIfElse(leaf, parse);
    case Declaration(_, _, assignment) => PreOrderOptional(leaf, assignment, parse);
    case Return(returnValue) => PreOrderOptional(leaf, returnValue, parse);
    case UnaryOperation(_, rhs) => PreOrderSingle(leaf, rhs, parse);
    case Assignment(_, rhs) => PreOrderSingle(leaf, rhs, parse);
    case Body(_) => PreOrderSequence(leaf, parse);
    case FunctionCall(_, _) => PreOrderSequence(leaf, parse);
    case FunctionCallParse(_, _) => PreOrderSequence(leaf, parse);
    case _ => PreOrderNoChildren(leaf, parse);
  }

  lemma PreOrderPair(leaf: Leaf, first: Leaf, second: Leaf, parse: bool)
    requires leaf.BinaryOperation? || leaf.While?
    requires Children(leaf) == [first, second]
    ensures Visits(leaf, parse) == Own(leaf, parse) + VisitsAll(Children(leaf), parse)
  {
    VisitsAllOfPair(first, second, parse);
  }

  lemma PreOrderSingle(leaf: Leaf, child: Leaf, parse: bool)
    requires leaf.UnaryOperation? || leaf.Assignment?
    requires Children(leaf) == [child]
    ensures Visits(leaf, parse) == Own(leaf, parse) + VisitsAll(Children(leaf), parse)
  {
    VisitsAllCons(child, [], parse);
  }

  lemma PreOrderOptional(leaf: Leaf, child: Option<Leaf>, parse: bool)
    requires leaf.Declaration? || leaf.Return?
    requires Children(leaf) == Optional(child)
    requires leaf.Declaration? ==> child == leaf.assignment
    requires leaf.Return? ==> child == leaf.returnValue
    ensures Visits(leaf, parse) == Own(leaf, parse) + VisitsAll(Children(leaf), parse)
  {
    VisitsAllOptional(child, parse);
  }

  lemma PreOrderSequence(leaf: Leaf, parse: bool)
    requires leaf.Body? || leaf.FunctionCall? || leaf.FunctionCallParse?
    ensures Visits(leaf, parse) == Own(leaf, parse) + VisitsAll(Children(leaf), parse)
  {
  }

  lemma PreOrderNoChildren(leaf: Leaf, parse: bool)
    requires Children(leaf) == []
    requires !leaf.Body? && !leaf.FunctionCall? && !leaf.FunctionCallParse? && !leaf.Declaration?
    requires !leaf.Return? && !leaf.FunctionDefinition?
    ensures Visits(leaf, parse) == Own(leaf, parse) + VisitsAll(Children(leaf), parse)
  {
  }

  lemma PreOrderFor(leaf: Leaf, parse: bool)
    requires leaf.For?
    ensures Visits(leaf, parse) == Own(leaf, parse) + VisitsAll(Children(leaf), parse)
  {
    VisitsAllOfPair(leaf.update, leaf.body, parse);
    VisitsAllCons(leaf.condition, [leaf.update, leaf.body], parse);
    VisitsAllCons(leaf.declaration, [leaf.condition, leaf.update, leaf.body], parse);
  }

  lemma PreOrderFunctionDefinition(leaf: Leaf, parse: bool)
    requires leaf.FunctionDefinition?
    ensures Visits(leaf, parse) == Own(leaf, parse) + VisitsAll(Children(leaf), parse)
  {
    VisitsAllAppend(leaf.parameters, Optional(leaf.functionBody), parse);
    VisitsAllOptional(leaf.functionBody, parse);
  }

  lemma PreOrderIfElse(leaf: Leaf, parse: bool)
    requires leaf.IfElse?
    ensures Visits(leaf, parse) == Own(leaf, parse) + VisitsAll(Children(leaf), parse)
  {
    VisitsAllOfPair(leaf.condition, leaf.ifBody, parse);
    VisitsAllAppend([leaf.condition, leaf.ifBody], Optional(leaf.elseBody), parse);
    VisitsAllOptional(leaf.elseBody, parse);
  }

  /** Statements, parameters and arguments are traversed by index: everything handed over
      for the elements before `i` comes before what is handed over for element `i`, and that
      before everything for the elements after it. */
  lemma IndexOrder(leaves: seq<Leaf>, parse: bool, i: nat)
    requires i < |leaves|
    ensures VisitsAll(leaves, parse)
            == VisitsAll(leaves[..i], parse) + Visits(leaves[i], parse) + VisitsAll(leaves[i + 1..], parse)
  {
    assert leaves == leaves[..i] + ([leaves[i]] + leaves[i + 1..]);
    VisitsAllAppend(leaves[..i], [leaves[i]] + leaves[i + 1..], parse);
    VisitsAllCons(leaves[i], leaves[i + 1..], parse);
  }

  lemma VisitsAllCons(first: Leaf, rest: seq<Leaf>, parse: bool)
    ensures VisitsAll([first] + rest, parse) == Visits(first, parse) + VisitsAll(rest, parse)
  {
    assert ([first] + rest)[1..] == rest;
  }

  lemma VisitsAllOfPair(first: Leaf, second: Leaf, parse: bool)
    ensures VisitsAll([first, second], parse) == Visits(first, parse) + Visits(second, parse)
  {
    VisitsAllCons(first, [second], parse);
    VisitsAllCons(second, [], parse);
  }

  lemma VisitsAllOptional(leaf: Option<Leaf>, parse: bool)
    ensures VisitsAll(Optional(leaf), parse) == VisitsOptional(leaf, parse)
  {
    if leaf.Some? {
      VisitsAllCons(leaf.value, [], parse);
    }
  }

  /** The leaves of `s` that are not parse-tree leaves, in order. */
  function WithoutParseLeaves(s: seq<Leaf>): (r: seq<Leaf>)
    ensures |r| <= |s|
  {
    if |s| == 0 then []
    else (if IsParseLeaf(s[0]) then [] else [s[0]]) + WithoutParseLeaves(s[1..])
  }

  lemma {:induction false} WithoutParseLeavesAppend(a: seq<Leaf>, b: seq<Leaf>)
    ensures WithoutParseLeaves(a + b) == WithoutParseLeaves(a) + WithoutParseLeaves(b)
    decreases a
  {
    if |a| != 0 {
      assert (a + b)[1..] == a[1..] + b;
      WithoutParseLeavesAppend(a[1..], b);
    } else {
      assert a + b == b;
    }
  }

  /** A visitor that does not take parse-tree leaves is handed exactly the other leaves a
      parse-tree visitor would be handed, in the same order: skipping a parse-tree leaf never
      skips its arguments. */
  lemma {:induction false} ParseLeavesFiltered(leaf: Leaf)
    ensures Visits(leaf, false) == WithoutParseLeaves(Visits(leaf, true))
    decreases leaf, 1
  {
    PreOrder(leaf, false);
    PreOrder(leaf, true);
    var children := Children(leaf);
    assert children == Children(leaf);
    ParseLeavesFilteredAll(leaf, children);
    WithoutParseLeavesAppend(Own(leaf, true), VisitsAll(children, true));
    assert WithoutParseLeaves(Own(leaf, true)) == Own(leaf, false) by {
      assert Own(leaf, true) == [leaf];
      assert WithoutParseLeaves([leaf]) == (if IsParseLeaf(leaf) then [] else [leaf]) + WithoutParseLeaves([]);
    }
  }

  lemma {:induction false} ParseLeavesFilteredAll(parent: Leaf, leaves: seq<Leaf>)
    requires forall i :: 0 <= i < |leaves| ==> leaves[i] < parent
    ensures VisitsAll(leaves, false) == WithoutParseLeaves(VisitsAll(leaves, true))
    decreases parent, 0, |leaves|
  {
    if |leaves| != 0 {
      ParseLeavesFiltered(leaves[0]);
      ParseLeavesFilteredAll(parent, leaves[1..]);
      WithoutParseLeavesAppend(Visits(leaves[0], true), VisitsAll(leaves[1..], true));
    }
  }

  /** The traversal object. Only the wrapped visitor is state. */
  class VisitChildrenVisitor {
    var visitor: Visitor

    /** `new VisitChildrenVisitor(visitor)`: null installs the do-nothing visitor. */
    constructor (visitor': Option<Visitor>)
      ensures visitor'.None? ==> visitor == NoOp
      ensures visitor'.Some? ==> visitor == visitor'.value
    {
      visitor := if visitor'.None? then NoOp else visitor'.value;
    }

    /** Replace the wrapped visitor (null installs the do-nothing visitor) and return the
        traversal object itself, so the call can be chained. */
    method SetVisitor(visitor': Option<Visitor>) returns (self: VisitChildrenVisitor)
      modifies this
      ensures visitor'.None? ==> visitor == NoOp
      ensures visitor'.Some? ==> visitor == visitor'.value
      ensures self == this
    {
      visitor := if visitor'.None? then NoOp else visitor'.value;
      self := this;
    }

    /** The leaves the wrapped visitor is handed when `leaf.Accept(this)` is called. */
    function Traverse(leaf: Leaf): seq<Leaf>
      reads this
    {
      Visits(leaf, TakesParseLeaves(visitor))
    }
  }

  /** After `SetVisitor(null)` the traversal still runs: the do-nothing visitor is handed every
      leaf except the parse-tree ones, in pre-order. */
  lemma NoOpTraversal(leaf: Leaf)
    ensures Visits(leaf, TakesParseLeaves(NoOp)) == WithoutParseLeaves(Visits(leaf, true))
    ensures !IsParseLeaf(leaf) ==> |Visits(leaf, TakesParseLeaves(NoOp))| != 0
  {
    ParseLeavesFiltered(leaf);
  }
}
