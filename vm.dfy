/** The bytecode virtual machine of src/MonC/VM/VirtualMachine.cs: a single-threaded accumulator
    machine with a call stack, an argument staging buffer and a pool of reusable frames. Each
    method updates the fields in place and is proved to do what the function of the same name
    in `VMSemantics` says. */
module VM {
  import opened Int32
  import opened Wrappers
  import opened ILModules
  import opened Continuations
  import opened VMSemantics

  /** What `GetStackFrame` reports about a frame. */
  datatype StackFrameInfo = StackFrameInfo(functionIndex: int32, pc: int32)

  class VirtualMachine {
    var callStack: seq<StackFrame>
    var argumentStack: seq<int32>
    var vmModule: VMModule
    var aRegister: int32
    var canContinue: bool
    var breakHandler: bool
    var isStepping: bool
    var framePool: seq<StackFrame>
    var finishedHandler: bool
    var breaks: nat
    var finishes: nat
    var yieldLog: seq<YieldEvent>

    /** The mutable fields, as one value. */
    function State(): Machine
      reads this
    {
      Machine(callStack, argumentStack, aRegister, canContinue, breakHandler, isStepping,
              framePool, finishedHandler, breaks, finishes, yieldLog)
    }

    constructor ()
      ensures State() == NewMachine()
      ensures vmModule.ilModule == ILModule.New() && |vmModule.vmFunctions| == 0
    {
      callStack, argumentStack, vmModule := [], [], EmptyVMModule();
      aRegister, canContinue, breakHandler, isStepping := 0, false, false, false;
      framePool, finishedHandler, breaks, finishes, yieldLog := [], false, 0, 0, [];
    }

    function IsRunning(): (r: bool)
      reads this
      ensures r <==> |callStack| != 0
    {
      |callStack| != 0
    }

    function ReturnValue(): int32
      reads this
    {
      aRegister
    }

    function CallStackFrameCount(): nat
      reads this
    {
      |callStack|
    }

    /** Replace the module; refused while a call is in progress. */
    method LoadModule(module': VMModule) returns (fault: Option<VMError>)
      modifies this
      ensures State() == old(State())
      ensures fault == (if old(|callStack|) != 0 then Some(InvalidOperation) else None)
      ensures fault.None? ==> vmModule == module'
      ensures fault.Some? ==> vmModule == old(vmModule)
    {
      if IsRunning() {
        return Some(InvalidOperation);
      }
      vmModule := module';
      fault := None;
    }

    /** Call an exported function by name with the given arguments, and run it if `start`. */
    method Call(functionName: string, arguments: seq<int32>, start: bool, fuel: nat)
      returns (found: bool, fault: Option<VMError>)
      modifies this
      ensures (found, Exec(State(), fault))
              == VMSemantics.Call(vmModule, old(State()), functionName, arguments, start, fuel)
      ensures vmModule == old(vmModule)
    {
      if IsRunning() {
        return false, Some(InvalidOperation);
      }
      var functionIndex := LookupFunction(functionName);
      if functionIndex == -1 {
        return false, None;
      }
      argumentStack := argumentStack + arguments;
      fault := PushCall(functionIndex);
      found := true;
      if fault.None? && start {
        fault := Continue(fuel);
      }
    }

    method SetBreakHandler()
      modifies this
      ensures State() == old(State()).(breakHandler := true) && vmModule == old(vmModule)
    {
      breakHandler := true;
    }

    /** Subscribe to the `Finished` event. */
    method SubscribeFinished()
      modifies this
      ensures State() == old(State()).(finishedHandler := true) && vmModule == old(vmModule)
    {
      finishedHandler := true;
    }

    method SetStepping(stepping: bool)
      modifies this
      ensures State() == old(State()).(isStepping := stepping) && vmModule == old(vmModule)
    {
      isStepping := stepping;
    }

    /** The string with the given id, or the empty string for an id outside the table. */
    method GetString(id: int32) returns (s: string)
      ensures 0 <= id as int < |vmModule.ilModule.strings| ==> s == vmModule.ilModule.strings[id]
      ensures !(0 <= id as int < |vmModule.ilModule.strings|) ==> s == ""
    {
      var strings := vmModule.ilModule.strings;
      if id < 0 || id as int >= |strings| {
        return "";
      }
      return strings[id];
    }

    /** The function index of the first exported entry with the name, or -1. */
    method LookupFunction(functionName: string) returns (index: int32)
      ensures index == FindExport(vmModule.ilModule.exportedFunctions, functionName, 0)
    {
      var exported := vmModule.ilModule.exportedFunctions;
      var i := 0;
      while i < |exported|
        invariant 0 <= i <= |exported|
        invariant FindExport(exported, functionName, i) == FindExport(exported, functionName, 0)
      {
        if exported[i].key == functionName {
          return exported[i].value;
        }
        i := i + 1;
      }
      return -1;
    }

    /** Run cycles until the run flag drops, an exception is raised, or `fuel` cycles have run;
        a no-op when the loop is already running. */
    method Continue(fuel: nat) returns (fault: Option<VMError>)
      modifies this
      ensures Exec(State(), fault) == VMSemantics.Continue(vmModule, old(State()), fuel)
      ensures vmModule == old(vmModule)
    {
      if canContinue {
        return None;
      }
      canContinue := true;
      ghost var start := State();
      var remaining := fuel;
      while canContinue && remaining > 0
        invariant vmModule == old(vmModule)
        invariant Run(vmModule, State(), remaining) == Run(vmModule, start, fuel)
        decreases remaining
      {
        fault := InterpretCurrentInstruction();
        if fault.Some? {
          return;
        }
        remaining := remaining - 1;
      }
      fault := None;
    }

    /** The registered completion callback of a yield token that finishes after its `Start`
        has returned: it resumes the run loop. */
    method YieldTokenFinished(token: YieldToken, fuel: nat) returns (fault: Option<VMError>)
      modifies this
      ensures Exec(State(), fault)
              == VMSemantics.Continue(vmModule, old(State()).(yieldLog := old(yieldLog) + [Resumed(token)]), fuel)
      ensures vmModule == old(vmModule)
    {
      yieldLog := yieldLog + [Resumed(token)];
      fault := Continue(fuel);
    }

    /** The frame `depth` levels below the top of the call stack, or a new frame when the
        stack is not that deep. */
    method GetInternalStackFrame(depth: int32) returns (r: Result<StackFrame, VMError>)
      ensures r == FrameAt(State(), depth)
    {
      if depth as int >= |callStack| {
        return Success(NewFrame());
      }
      if depth < 0 {
        return Failure(IndexOutOfRange);
      }
      return Success(callStack[|callStack| - 1 - depth as int]);
    }

    method GetStackFrame(depth: int32) returns (r: Result<StackFrameInfo, VMError>)
      ensures FrameAt(State(), depth).Success? <==> r.Success?
      ensures r.Success? ==> r.value.functionIndex == FrameAt(State(), depth).value.functionIndex
      ensures r.Success? ==> r.value.pc == FrameAt(State(), depth).value.pc
    {
      var frame := GetInternalStackFrame(depth);
      if frame.Failure? {
        return Failure(frame.error);
      }
      return Success(StackFrameInfo(frame.value.functionIndex, frame.value.pc));
    }

    method GetStackFrameMemory(depth: int32) returns (r: Result<map<int, int32>, VMError>)
      ensures FrameAt(State(), depth).Success? <==> r.Success?
      ensures r.Success? ==> r.value == FrameAt(State(), depth).value.memory
    {
      var frame := GetInternalStackFrame(depth);
      if frame.Failure? {
        return Failure(frame.error);
      }
      return Success(frame.value.memory);
    }

    method Break()
      modifies this
      ensures State() == VMSemantics.Break(old(State())) && vmModule == old(vmModule)
    {
      canContinue := false;
      if breakHandler {
        breaks := breaks + 1;
      }
    }

    /** One cycle of the run loop. */
    method InterpretCurrentInstruction() returns (fault: Option<VMError>)
      modifies this
      ensures Exec(State(), fault) == Cycle(vmModule, old(State()))
      ensures vmModule == old(vmModule)
    {
      if |callStack| == 0 {
        canContinue := false;
        if finishedHandler {
          finishes := finishes + 1;
        }
        return None;
      }
      var top := callStack[|callStack| - 1];
      if top.binding.Some? {
        fault := InterpretBoundFunctionCall();
        return;
      }
      var defined := vmModule.ilModule.definedFunctions;
      if !(0 <= top.functionIndex as int < |defined|) {
        return Some(IndexOutOfRange);
      }
      var code := defined[top.functionIndex].code;
      if !(0 <= top.pc as int < |code|) {
        return Some(IndexOutOfRange);
      }
      var ins := code[top.pc];
      callStack := callStack[..|callStack| - 1] + [top.(pc := Add(top.pc, 1))];
      fault := InterpretInstruction(ins);
      if fault.None? && isStepping {
        Break();
      }
    }

    /** One step of the bound function whose enumerator the top frame holds. */
    method InterpretBoundFunctionCall() returns (fault: Option<VMError>)
      requires |callStack| > 0 && callStack[|callStack| - 1].binding.Some?
      modifies this
      ensures Exec(State(), fault) == BoundStep(vmModule, old(State()))
      ensures vmModule == old(vmModule)
    {
      var frame := callStack[|callStack| - 1];
      var steps := frame.binding.value;
      if |steps| == 0 {
        PopFrame();
        return None;
      }
      var continuation := steps[0];
      callStack := callStack[..|callStack| - 1] + [frame.(binding := Some(steps[1..]))];
      match continuation.action {
        case CALL => fault := ContinueWithCall(continuation);
        case RETURN =>
          aRegister := continuation.returnValue;
          PopFrame();
          fault := None;
        case YIELD => fault := ContinueWithYield(continuation);
        case UNWRAP => fault := ContinueWithUnwrap(continuation);
        case UndefinedAction(_) => fault := Some(NotImplemented);
      }
    }

    method ContinueWithCall(continuation: Continuation) returns (fault: Option<VMError>)
      modifies this
      ensures Exec(State(), fault) == VMSemantics.ContinueWithCall(vmModule, old(State()), continuation)
      ensures vmModule == old(vmModule)
    {
      if continuation.arguments.None? {
        return Some(ArgumentNull);
      }
      argumentStack := argumentStack + continuation.arguments.value;
      fault := PushCall(continuation.functionIndex);
    }

    method ContinueWithYield(continuation: Continuation) returns (fault: Option<VMError>)
      modifies this
      ensures Exec(State(), fault) == VMSemantics.ContinueWithYield(old(State()), continuation)
      ensures vmModule == old(vmModule)
    {
      canContinue := false;
      if continuation.yieldToken.None? {
        return Some(NullReference);
      }
      var token := continuation.yieldToken.value;
      yieldLog := yieldLog + [Registered(token)];
      yieldLog := yieldLog + [Started(token)];
      if token.completesSynchronously {
        // Start invokes the registered callback, Continue, whose loop is the caller's loop.
        yieldLog := yieldLog + [Resumed(token)];
        canContinue := true;
      }
      fault := None;
    }

    method ContinueWithUnwrap(continuation: Continuation) returns (fault: Option<VMError>)
      requires |callStack| > 0
      modifies this
      ensures Exec(State(), fault) == VMSemantics.ContinueWithUnwrap(old(State()), continuation)
      ensures vmModule == old(vmModule)
    {
      var caller := callStack[|callStack| - 1].functionIndex;
      var unwrapFrame := AcquireFrame();
      unwrapFrame := unwrapFrame.(functionIndex := caller, binding := continuation.toUnwrap);
      callStack := callStack + [unwrapFrame];
      fault := None;
    }

    /** Execute one fetched instruction against the accumulator and the top frame. */
    method InterpretInstruction(ins: Instruction) returns (fault: Option<VMError>)
      requires |callStack| > 0
      modifies this
      ensures Exec(State(), fault) == Execute(vmModule, old(State()), ins)
      ensures vmModule == old(vmModule)
    {
      fault := None;
      var top := callStack[|callStack| - 1];
      var operand := Read(top.memory, ins.immediate as int);
      match ins.op {
        case NOOP =>
        case BREAK =>
          callStack := callStack[..|callStack| - 1] + [top.(pc := Sub(top.pc, 1))];
          Break();
        case LOAD => aRegister := ins.immediate;
        case READ => aRegister := operand;
        case WRITE =>
          callStack := callStack[..|callStack| - 1] + [top.(memory := top.memory[ins.immediate as int := aRegister])];
        case PUSHARG => argumentStack := argumentStack + [aRegister];
        case CALL => fault := PushCall(ins.immediate);
        case RETURN => PopFrame();
        case CMPE => aRegister := if aRegister == operand then 1 else 0;
        case CMPLT => aRegister := if aRegister < operand then 1 else 0;
        case CMPLTE => aRegister := if aRegister <= operand then 1 else 0;
        case JUMP => Jump(ins.immediate);
        case JUMPZ =>
          if aRegister == 0 {
            Jump(ins.immediate);
          }
        case JUMPNZ =>
          if aRegister != 0 {
            Jump(ins.immediate);
          }
        case BOOL => aRegister := if aRegister == 0 then 0 else 1;
        case LNOT => aRegister := if aRegister == 0 then 1 else 0;
        case ADD => aRegister := Add(aRegister, operand);
        case SUB => aRegister := Sub(aRegister, operand);
        case AND => aRegister := And(aRegister, operand);
        case OR => aRegister := Or(aRegister, operand);
        case MUL => aRegister := Mul(aRegister, operand);
        case DIV => fault := DivideAccumulator(operand, true);
        case MOD => fault := DivideAccumulator(operand, false);
        case Undefined(_) => fault := Some(NotImplemented);
      }
    }

    method DivideAccumulator(divisor: int32, quotient: bool) returns (fault: Option<VMError>)
      modifies this
      ensures Exec(State(), fault) == Divide(old(State()), divisor, quotient)
      ensures vmModule == old(vmModule)
    {
      if divisor == 0 {
        return Some(DivideByZero);
      }
      if aRegister as int == MinValue && divisor == -1 {
        return Some(Overflow);
      }
      QuotInRange(aRegister, divisor);
      QuotRemSpec(aRegister as int, divisor as int);
      if quotient {
        aRegister := Quot(aRegister as int, divisor as int) as int32;
      } else {
        aRegister := Rem(aRegister as int, divisor as int) as int32;
      }
      fault := None;
    }

    method Jump(offset: int32)
      requires |callStack| > 0
      modifies this
      ensures State() == VMSemantics.Jump(old(State()), offset) && vmModule == old(vmModule)
    {
      var top := callStack[|callStack| - 1];
      callStack := callStack[..|callStack| - 1] + [top.(pc := Add(top.pc, offset))];
    }

    /** Start a call of the function with the given index, consuming the staged arguments. */
    method PushCall(functionIndex: int32) returns (fault: Option<VMError>)
      modifies this
      ensures Exec(State(), fault) == VMSemantics.PushCall(vmModule, old(State()), functionIndex)
      ensures vmModule == old(vmModule)
    {
      var newFrame := AcquireFrame();
      newFrame := newFrame.(functionIndex := functionIndex);
      if functionIndex as int >= |vmModule.ilModule.definedFunctions| {
        if functionIndex !in vmModule.vmFunctions {
          return Some(IndexOutOfRange);
        }
        var enumerable := vmModule.vmFunctions[functionIndex];
        var args := argumentStack;
        argumentStack := [];
        newFrame := newFrame.(binding := Some(enumerable(vmModule.ilModule.strings, args)));
        callStack := callStack + [newFrame];
      } else {
        var memory := WriteArguments(newFrame.memory, argumentStack);
        argumentStack := [];
        callStack := callStack + [newFrame.(memory := memory)];
      }
      fault := None;
    }

    /** Take the most recently pooled frame off the pool, or make a new one. */
    method AcquireFrame() returns (frame: StackFrame)
      modifies this
      ensures (frame, State()) == VMSemantics.AcquireFrame(old(State())) && vmModule == old(vmModule)
    {
      if |framePool| > 0 {
        frame := framePool[|framePool| - 1];
        framePool := framePool[..|framePool| - 1];
        return;
      }
      return NewFrame();
    }

    /** Pop the top frame and return it to the pool with its program counter and binding reset. */
    method PopFrame()
      requires |callStack| > 0
      modifies this
      ensures State() == VMSemantics.PopFrame(old(State())) && vmModule == old(vmModule)
    {
      var frame := callStack[|callStack| - 1];
      callStack := callStack[..|callStack| - 1];
      frame := frame.(binding := None);
      frame := frame.(pc := 0);
      framePool := framePool + [frame];
    }
  }

  /** The loop of `PushCall` that writes argument i into memory slot i, for every i in order. */
  method WriteArguments(memory: map<int, int32>, args: seq<int32>) returns (written: map<int, int32>)
    ensures written == WithArguments(memory, args)
  {
    written := memory;
    for i := 0 to |args|
      invariant written == WithArguments(memory, args[..i])
    {
      assert args[..i + 1][..i] == args[..i];
      written := written[i := args[i]];
    }
    assert args[..|args|] == args;
  }
}
