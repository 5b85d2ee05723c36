/** The values the front-end passes share: node identities, diagnostics and scopes.
    The Scope class itself is not part of this model; only what the passes use of it is
    (its enclosing function, its ordered variable list, `Copy` and `List.Find`). */
module Parsing {
  import opened Wrappers

  /** Identity of a syntax-tree node. The passes key their dictionaries by object reference;
      two nodes are the same key exactly when their ids are equal. */
  type NodeId = nat

  /** A diagnostic. A field the reporting code does not set keeps its default, 0. */
  datatype ParseError = ParseError(message: string, start: int, end: int)

  /** A declaration as a scope lists it: the declaration node's identity and its name. */
  datatype DeclarationRef = DeclarationRef(id: NodeId, name: string)

  /** A scope: the function it belongs to (none for `Scope.New()`) and the variables declared
      so far, in declaration order. Being a value, a copy never sees what is added to the
      original afterwards, which is what `Copy()` is used for. */
  datatype Scope = Scope(owner: Option<NodeId>, variables: seq<DeclarationRef>)

  /** `Scope.New()`. */
  function NewScope(): Scope
  {
    Scope(None, [])
  }

  /** `Scope.New(function)`. */
  function FunctionScope(owner: NodeId): Scope
  {
    Scope(Some(owner), [])
  }

  /** The position of the first variable with the name, or -1 when there is none. */
  function FirstIndex(variables: seq<DeclarationRef>, name: string): (i: int)
    ensures -1 <= i < |variables|
    ensures i == -1 <==> forall j :: 0 <= j < |variables| ==> variables[j].name != name
    ensures i != -1 ==> variables[i].name == name
    ensures i != -1 ==> forall j :: 0 <= j < i ==> variables[j].name != name
  {
    if |variables| == 0 then -1
    else if variables[0].name == name then 0
    else
      var rest := FirstIndex(variables[1..], name);
      if rest == -1 then -1 else rest + 1
  }

  /** `Variables.Find(d => d.Name == name)`: the first declaration with the name, or null. */
  function Find(variables: seq<DeclarationRef>, name: string): (r: Option<DeclarationRef>)
    ensures r.None? <==> forall j :: 0 <= j < |variables| ==> variables[j].name != name
    ensures r.Some? ==> r.value.name == name && r.value in variables
  {
    var i := FirstIndex(variables, name);
    if i == -1 then None else Some(variables[i])
  }

  /** Declarations made later never hide an earlier one from `Find`: appending to a scope
      that already declares the name leaves the lookup unchanged, and appending the first
      declaration of a name makes the lookup find it. */
  lemma {:induction false} FindAppend(variables: seq<DeclarationRef>, added: DeclarationRef, name: string)
    ensures Find(variables, name).Some? ==> Find(variables + [added], name) == Find(variables, name)
    ensures Find(variables, name).None? && added.name == name ==> Find(variables + [added], name) == Some(added)
    ensures Find(variables, name).None? && added.name != name ==> Find(variables + [added], name).None?
  {
    FirstIndexAppend(variables, added, name);
  }

  lemma {:induction false} FirstIndexAppend(variables: seq<DeclarationRef>, added: DeclarationRef, name: string)
    ensures FirstIndex(variables, name) != -1 ==>
              FirstIndex(variables + [added], name) == FirstIndex(variables, name)
    ensures FirstIndex(variables, name) == -1 && added.name == name ==>
              FirstIndex(variables + [added], name) == |variables|
  {
    if |variables| != 0 {
      assert (variables + [added])[1..] == variables[1..] + [added];
      FirstIndexAppend(variables[1..], added, name);
    }
  }
}
