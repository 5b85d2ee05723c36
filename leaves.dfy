/** The syntax tree the traversal and assignment-resolution passes work on: one constructor
    per leaf class of src/MonC/IASTLeafVisitor.cs, plus the two leaves of the parse-tree
    extension (an identifier and a call not yet resolved). Leaf kinds the passes never look
    inside keep only the fields that identify them. */
module Leaves {
  import opened Wrappers
  import opened Parsing

  datatype Leaf =
    | BinaryOperation(id: NodeId, op: string, lhs: Leaf, rhs: Leaf)
    | UnaryOperation(op: string, rhs: Leaf)
    | Body(statements: seq<Leaf>)
    | Declaration(id: NodeId, name: string, assignment: Option<Leaf>)
    | For(declaration: Leaf, condition: Leaf, update: Leaf, body: Leaf)
    | FunctionDefinition(name: string, parameters: seq<Leaf>, functionBody: Option<Leaf>)
    | FunctionCall(callee: string, arguments: seq<Leaf>)
    | Variable(variable: DeclarationRef)
    | IfElse(condition: Leaf, ifBody: Leaf, elseBody: Option<Leaf>)
    | NumericLiteral(value: int)
    | StringLiteral(text: string)
    | While(condition: Leaf, body: Leaf)
    | Break
    | Return(returnValue: Option<Leaf>)
    | Assignment(target: DeclarationRef, rhs: Leaf)
    | Enum(name: string)
    | EnumValue(name: string)
    | IdentifierParse(identifier: string)
    | FunctionCallParse(lhs: Leaf, arguments: seq<Leaf>)

  /** A leaf of the parse-tree extension: its `Accept` reaches a visitor only when that visitor
      also implements the parse-tree visitor interface. */
  predicate IsParseLeaf(leaf: Leaf)
  {
    leaf.IdentifierParse? || leaf.FunctionCallParse?
  }
}
