/** The interpreter of src/MonC/VM/VirtualMachine.cs as functions on a value: the VM's mutable
    fields are gathered in a `Machine`, and one function per operation says what that operation
    does to them. The class `VM.VirtualMachine` updates its fields in place and is proved to
    agree with these functions. */
module VMSemantics {
  import opened Int32
  import opened Wrappers
  import opened ILModules
  import opened Continuations

  /** A bound function: called with the VM's string table (what its binding context exposes)
      and the staged arguments, it yields the continuations its enumerator will produce. */
  type BoundFunction = (seq<string>, seq<int32>) -> seq<Continuation>

  /** The loaded module: the compiled code plus the host's bound functions, keyed by the
      function index a call names. */
  datatype VMModule = VMModule(ilModule: ILModule, vmFunctions: map<int32, BoundFunction>)

  function EmptyVMModule(): VMModule
  {
    VMModule(ILModule.New(), map[])
  }

  /** A call-stack frame. Memory is a map from slot to value; a slot never written reads 0.
      `binding` is the bound function's enumerator, as the continuations still to come. */
  datatype StackFrame = StackFrame(
    functionIndex: int32,
    pc: int32,
    memory: map<int, int32>,
    binding: Option<seq<Continuation>>)

  /** `new StackFrame()`. */
  function NewFrame(): StackFrame
  {
    StackFrame(0, 0, map[], None)
  }

  function Read(memory: map<int, int32>, slot: int): int32
  {
    if slot in memory then memory[slot] else 0
  }

  /** The C# exceptions the interpreter can raise. */
  datatype VMError =
    | InvalidOperation   // LoadModule or Call while a call is in progress
    | DivideByZero       // DIV or MOD by a slot holding 0
    | Overflow           // int.MinValue / -1 and int.MinValue % -1
    | IndexOutOfRange    // a function index, program counter or frame depth outside its table
    | ArgumentNull       // a CALL continuation without arguments
    | NullReference      // a YIELD continuation without a token
    | NotImplemented     // an opcode outside the 23, or a continuation action outside the 4, the interpreter knows

  /** What a yield does with its token, in order. */
  datatype YieldEvent = Registered(token: YieldToken) | Started(token: YieldToken) | Resumed(token: YieldToken)

  /** The VM's mutable fields. `breakHandler`/`finishedHandler` say whether a handler is
      registered; `breaks`/`finishes` count the handler invocations. */
  datatype Machine = Machine(
    callStack: seq<StackFrame>,
    argumentStack: seq<int32>,
    aRegister: int32,
    canContinue: bool,
    breakHandler: bool,
    isStepping: bool,
    framePool: seq<StackFrame>,
    finishedHandler: bool,
    breaks: nat,
    finishes: nat,
    yieldLog: seq<YieldEvent>)

  /** A freshly constructed VM. */
  function NewMachine(): Machine
  {
    Machine([], [], 0, false, false, false, [], false, 0, 0, [])
  }

  /** The state after an operation, and the exception it raised, if any. On an exception the
      state is the one at the point of the throw. */
  datatype Exec = Exec(m: Machine, fault: Option<VMError>)

  function Ok(m: Machine): Exec { Exec(m, None) }

  function Throw(m: Machine, e: VMError): Exec { Exec(m, Some(e)) }

  predicate IsRunning(m: Machine) { |m.callStack| != 0 }

  function Top(m: Machine): StackFrame
    requires IsRunning(m)
  {
    m.callStack[|m.callStack| - 1]
  }

  /** The machine with its top frame replaced. */
  function SetTop(m: Machine, frame: StackFrame): (r: Machine)
    requires IsRunning(m)
    ensures IsRunning(r) && Top(r) == frame && |r.callStack| == |m.callStack|
    ensures r.callStack[..|m.callStack| - 1] == m.callStack[..|m.callStack| - 1]
  {
    m.(callStack := m.callStack[..|m.callStack| - 1] + [frame])
  }

  /** `AcquireFrame`: the most recently pooled frame, taken off the pool, or a new frame. */
  function AcquireFrame(m: Machine): (StackFrame, Machine)
  {
    if |m.framePool| > 0 then
      (m.framePool[|m.framePool| - 1], m.(framePool := m.framePool[..|m.framePool| - 1]))
    else
      (NewFrame(), m)
  }

  /** `PopFrame`: the top frame goes to the pool with its program counter and binding reset;
      its memory is kept. */
  function PopFrame(m: Machine): Machine
    requires IsRunning(m)
  {
    var frame := Top(m);
    m.(callStack := m.callStack[..|m.callStack| - 1],
       framePool := m.framePool + [frame.(binding := None, pc := 0)])
  }

  /** Frame memory after argument i has been written into slot i, for i = 0, 1, ... in order. */
  function WithArguments(memory: map<int, int32>, args: seq<int32>): map<int, int32>
    decreases |args|
  {
    if |args| == 0 then memory
    else WithArguments(memory, args[..|args| - 1])[|args| - 1 := args[|args| - 1]]
  }

  /** After the writes, slot i holds argument i and every other slot what it held before. */
  lemma {:induction false} WithArgumentsReads(memory: map<int, int32>, args: seq<int32>)
    ensures forall i :: 0 <= i < |args| ==> Read(WithArguments(memory, args), i) == args[i]
    ensures forall slot :: !(0 <= slot < |args|) ==> Read(WithArguments(memory, args), slot) == Read(memory, slot)
    decreases |args|
  {
    if |args| > 0 {
      var front := args[..|args| - 1];
      WithArgumentsReads(memory, front);
      forall i | 0 <= i < |front|
        ensures front[i] == args[i]
      {
      }
    }
  }

  predicate IsBound(mod: VMModule, functionIndex: int32)
  {
    functionIndex as int >= |mod.ilModule.definedFunctions|
  }

  /** `PushCall`: start a call of the function with the given index, consuming the staged
      arguments. */
  function PushCall(mod: VMModule, m: Machine, functionIndex: int32): Exec
  {
    var (frame, m1) := AcquireFrame(m);
    var callee := frame.(functionIndex := functionIndex);
    if IsBound(mod, functionIndex) then
      if functionIndex !in mod.vmFunctions then
        Throw(m1, IndexOutOfRange)
      else
        var steps := mod.vmFunctions[functionIndex](mod.ilModule.strings, m1.argumentStack);
        Ok(m1.(argumentStack := [], callStack := m1.callStack + [callee.(binding := Some(steps))]))
    else
      var memory := WithArguments(callee.memory, m1.argumentStack);
      Ok(m1.(argumentStack := [], callStack := m1.callStack + [callee.(memory := memory)]))
  }

  /** `Break`: stop the run loop and notify the break handler. */
  function Break(m: Machine): Machine
  {
    m.(canContinue := false, breaks := if m.breakHandler then m.breaks + 1 else m.breaks)
  }

  /** `Jump`: add the offset to the top frame's program counter. */
  function Jump(m: Machine, offset: int32): Machine
    requires IsRunning(m)
  {
    SetTop(m, Top(m).(pc := Add(Top(m).pc, offset)))
  }

  /** The value of the top frame's memory slot named by the instruction. */
  function Operand(m: Machine, ins: Instruction): int32
    requires IsRunning(m)
  {
    Read(Top(m).memory, ins.immediate as int)
  }

  function Bit(b: bool): int32 { if b then 1 else 0 }

  /** `InterpretInstruction`: one instruction, executed after its fetch has advanced the
      program counter. */
  function Execute(mod: VMModule, m: Machine, ins: Instruction): Exec
    requires IsRunning(m)
  {
    match ins.op
    case BREAK => Ok(Break(SetTop(m, Top(m).(pc := Sub(Top(m).pc, 1)))))
    case WRITE => Ok(SetTop(m, Top(m).(memory := Top(m).memory[ins.immediate as int := m.aRegister])))
    case PUSHARG => Ok(m.(argumentStack := m.argumentStack + [m.aRegister]))
    case CALL => PushCall(mod, m, ins.immediate)
    case RETURN => Ok(PopFrame(m))
    case JUMP => Ok(Jump(m, ins.immediate))
    case JUMPZ => Ok(if m.aRegister == 0 then Jump(m, ins.immediate) else m)
    case JUMPNZ => Ok(if m.aRegister != 0 then Jump(m, ins.immediate) else m)
    case DIV => Divide(m, Operand(m, ins), true)
    case MOD => Divide(m, Operand(m, ins), false)
    case Undefined(_) => Throw(m, NotImplemented)
    case _ => Ok(m.(aRegister := Accumulate(m.aRegister, ins, Operand(m, ins))))
  }

  /** The new accumulator of the opcodes that only compute one, from the old accumulator, the
      instruction and the value of the slot its immediate names. */
  function Accumulate(acc: int32, ins: Instruction, operand: int32): int32
  {
    match ins.op
    case LOAD => ins.immediate
    case READ => operand
    case CMPE => Bit(acc == operand)
    case CMPLT => Bit(acc < operand)
    case CMPLTE => Bit(acc <= operand)
    case BOOL => Bit(acc != 0)
    case LNOT => Bit(acc == 0)
    case ADD => Add(acc, operand)
    case SUB => Sub(acc, operand)
    case AND => And(acc, operand)
    case OR => Or(acc, operand)
    case MUL => Mul(acc, operand)
    case _ => acc
  }

  /** `/=` (quotient) or `%=` (remainder) of the accumulator by a slot value. */
  function Divide(m: Machine, divisor: int32, quotient: bool): Exec
  {
    if divisor == 0 then Throw(m, DivideByZero)
    else if m.aRegister as int == MinValue && divisor == -1 then Throw(m, Overflow)
    else
      QuotInRange(m.aRegister, divisor);
      QuotRemSpec(m.aRegister as int, divisor as int);
      var r := if quotient then Quot(m.aRegister as int, divisor as int)
               else Rem(m.aRegister as int, divisor as int);
      Ok(m.(aRegister := r as int32))
  }

  /** `InterpretBoundFunctionCall`: advance the top frame's enumerator by one step. */
  function BoundStep(mod: VMModule, m: Machine): Exec
    requires IsRunning(m) && Top(m).binding.Some?
  {
    var frame := Top(m);
    var steps := frame.binding.value;
    if |steps| == 0 then
      Ok(PopFrame(m))
    else
      var c := steps[0];
      var m1 := SetTop(m, frame.(binding := Some(steps[1..])));
      match c.action
      case CALL => ContinueWithCall(mod, m1, c)
      case RETURN => Ok(PopFrame(m1.(aRegister := c.returnValue)))
      case YIELD => ContinueWithYield(m1, c)
      case UNWRAP => ContinueWithUnwrap(m1, c)
      case UndefinedAction(_) => Throw(m1, NotImplemented)
  }

  /** A CALL step: stage the continuation's arguments and push the callee above the caller. */
  function ContinueWithCall(mod: VMModule, m: Machine, c: Continuation): Exec
  {
    if c.arguments.None? then Throw(m, ArgumentNull)
    else PushCall(mod, m.(argumentStack := m.argumentStack + c.arguments.value), c.functionIndex)
  }

  /** A YIELD step: stop the run loop, register the resume callback, then start the token. */
  function ContinueWithYield(m: Machine, c: Continuation): Exec
  {
    var stopped := m.(canContinue := false);
    if c.yieldToken.None? then Throw(stopped, NullReference)
    else
      var token := c.yieldToken.value;
      var started := stopped.(yieldLog := stopped.yieldLog + [Registered(token), Started(token)]);
      if token.completesSynchronously then
        // Start invoked the completion callback, Continue, before returning.
        Ok(started.(canContinue := true, yieldLog := started.yieldLog + [Resumed(token)]))
      else
        Ok(started)
  }

  /** An UNWRAP step: push a frame of the same function that runs the inner enumerator. */
  function ContinueWithUnwrap(m: Machine, c: Continuation): Exec
    requires IsRunning(m)
  {
    var (unwrapFrame, m1) := AcquireFrame(m);
    Ok(m1.(callStack := m1.callStack + [unwrapFrame.(functionIndex := Top(m).functionIndex, binding := c.toUnwrap)]))
  }

  /** `InterpretCurrentInstruction`: one cycle of the run loop. */
  function Cycle(mod: VMModule, m: Machine): Exec
  {
    if !IsRunning(m) then
      Ok(m.(canContinue := false, finishes := if m.finishedHandler then m.finishes + 1 else m.finishes))
    else
      var top := Top(m);
      if top.binding.Some? then
        BoundStep(mod, m)
      else if !(0 <= top.functionIndex as int < |mod.ilModule.definedFunctions|) then
        Throw(m, IndexOutOfRange)
      else
        var code := mod.ilModule.definedFunctions[top.functionIndex].code;
        if !(0 <= top.pc as int < |code|) then
          Throw(m, IndexOutOfRange)
        else
          var e := Execute(mod, SetTop(m, top.(pc := Add(top.pc, 1))), code[top.pc]);
          if e.fault.None? && e.m.isStepping then Ok(Break(e.m)) else e
  }

  /** At most `fuel` rounds of `step`, while the run flag is up and no exception is raised. */
  function Iterate(step: Machine -> Exec, m: Machine, fuel: nat): Exec
    decreases fuel
  {
    if !m.canContinue || fuel == 0 then Ok(m)
    else
      var e := step(m);
      if e.fault.Some? then e else Iterate(step, e.m, fuel - 1)
  }

  /** The `while (_canContinue)` loop, for at most `fuel` cycles. */
  function Run(mod: VMModule, m: Machine, fuel: nat): Exec
  {
    Iterate(s => Cycle(mod, s), m, fuel)
  }

  /** `Continue`: a no-op while the loop is already running, otherwise run it. */
  function Continue(mod: VMModule, m: Machine, fuel: nat): Exec
  {
    if m.canContinue then Ok(m) else Run(mod, m.(canContinue := true), fuel)
  }

  /** `LookupFunction`, searching the exported-function table from entry `from` on:
      the value of the first entry with the name, or -1. */
  function FindExport(exports: seq<KeyValuePair>, name: string, from: nat): (r: int32)
    requires from <= |exports|
    ensures (forall j :: from <= j < |exports| ==> exports[j].key != name) ==> r == -1
    ensures forall k :: (from <= k < |exports| && exports[k].key == name &&
                         forall j :: from <= j < k ==> exports[j].key != name) ==> r == exports[k].value
    decreases |exports| - from
  {
    if from == |exports| then -1
    else if exports[from].key == name then exports[from].value
    else FindExport(exports, name, from + 1)
  }

  /** `Call`: the result (whether the name was found) and the state after the call. */
  function Call(mod: VMModule, m: Machine, name: string, args: seq<int32>, start: bool, fuel: nat): (bool, Exec)
  {
    if IsRunning(m) then (false, Throw(m, InvalidOperation))
    else
      var index := FindExport(mod.ilModule.exportedFunctions, name, 0);
      if index == -1 then (false, Ok(m))
      else
        var e := PushCall(mod, m.(argumentStack := m.argumentStack + args), index);
        if e.fault.Some? || !start then (true, e) else (true, Continue(mod, e.m, fuel))
  }

  /** `GetInternalStackFrame`: the frame `depth` levels below the top, or a new frame past
      the bottom of the stack. */
  function FrameAt(m: Machine, depth: int32): Result<StackFrame, VMError>
  {
    if depth as int >= |m.callStack| then Success(NewFrame())
    else if depth < 0 then Failure(IndexOutOfRange)
    else Success(m.callStack[|m.callStack| - 1 - depth as int])
  }

  /** `GetString`: the string with the given id, or "" when the id is out of range. */
  function StringAt(strings: seq<string>, id: int32): string
  {
    if 0 <= id as int < |strings| then strings[id] else ""
  }
}
