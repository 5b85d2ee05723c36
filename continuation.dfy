/** The values a bound (host-implemented) function hands back to the interpreter, one per step
    (src/MonC/VM/Continuation.cs). The C# type is a flat struct: an action tag plus one payload
    field per action, every field not set by a constructor keeping its default (0 or null). */
module Continuations {
  import opened Int32
  import opened Wrappers

  /** The four declared actions. The `Action` field of the C# struct can also hold a value
      outside them; `UndefinedAction` stands for such a value. */
  datatype ContinuationAction = RETURN | CALL | YIELD | UNWRAP | UndefinedAction(value: int)

  /** A yield token: an external asynchronous operation. Whether `Start` invokes the
      registered completion callback before it returns is the host's choice, recorded here. */
  datatype YieldToken = YieldToken(id: nat, completesSynchronously: bool)

  /** The struct's fields; `None` is the C# null of a reference-typed field. The enumerator
      to unwrap is modelled as the finite sequence of continuations it will produce. */
  datatype Continuation = Continuation(
    action: ContinuationAction,
    returnValue: int32,
    functionIndex: int32,
    arguments: Option<seq<int32>>,
    yieldToken: Option<YieldToken>,
    toUnwrap: Option<seq<Continuation>>)
  {
    /** `default(Continuation)`: every field zero or null; the tag's zero value is RETURN. */
    static function Default(): (c: Continuation)
      ensures c.action == RETURN && c.returnValue == 0
      ensures c.functionIndex == 0 && c.arguments == None && c.yieldToken == None && c.toUnwrap == None
    {
      Continuation(RETURN, 0, 0, None, None, None)
    }

    static function Return(returnValue: int32): (c: Continuation)
      ensures c.action == RETURN && c.returnValue == returnValue && Canonical(c)
    {
      Default().(returnValue := returnValue)
    }

    static function Call(functionIndex: int32, arguments: seq<int32>): (c: Continuation)
      ensures c.action == CALL && c.functionIndex == functionIndex && c.arguments == Some(arguments)
      ensures Canonical(c)
    {
      Default().(action := CALL, functionIndex := functionIndex, arguments := Some(arguments))
    }

    static function Yield(token: YieldToken): (c: Continuation)
      ensures c.action == YIELD && c.yieldToken == Some(token) && Canonical(c)
    {
      Default().(action := YIELD, yieldToken := Some(token))
    }

    static function Unwrap(toUnwrap: seq<Continuation>): (c: Continuation)
      ensures c.action == UNWRAP && c.toUnwrap == Some(toUnwrap) && Canonical(c)
    {
      Default().(action := UNWRAP, toUnwrap := Some(toUnwrap))
    }
  }

  /** A continuation as the four static constructors build it: one of the four declared
      actions, the payload field of its own action set (non-null), and every other payload
      field at its default value. */
  predicate Canonical(c: Continuation)
  {
    && !c.action.UndefinedAction?
    && (c.returnValue != 0 ==> c.action == RETURN)
    && (c.functionIndex != 0 ==> c.action == CALL)
    && (c.arguments.Some? <==> c.action == CALL)
    && (c.yieldToken.Some? <==> c.action == YIELD)
    && (c.toUnwrap.Some? <==> c.action == UNWRAP)
  }

  /** Canonical continuations are exactly those the static constructors produce: each one is
      rebuilt by the constructor of its own action from its own payload. */
  lemma CanonicalIsConstructed(c: Continuation)
    requires Canonical(c)
    ensures c.action == RETURN ==> c == Continuation.Return(c.returnValue)
    ensures c.action == CALL ==> c == Continuation.Call(c.functionIndex, c.arguments.value)
    ensures c.action == YIELD ==> c == Continuation.Yield(c.yieldToken.value)
    ensures c.action == UNWRAP ==> c == Continuation.Unwrap(c.toUnwrap.value)
  {
  }

  /** `default(Continuation)` is indistinguishable from `Continuation.Return(0)`. */
  lemma DefaultIsReturnZero()
    ensures Continuation.Default() == Continuation.Return(0)
  {
  }
}
