/** Properties of the interpreter functions in `VMSemantics`: the call protocol, the opcode
    semantics, the steps of a bound function, the frame pool and the run loop. */
module VMProperties {
  import opened Int32
  import opened Wrappers
  import opened ILModules
  import opened Continuations
  import opened VMSemantics

  // ---------------------------------------------------------------- calling by name

  /** A name with no entry in the exported-function table: `Call` reports false and changes
      nothing: no frame is pushed, the staging buffer and the pool are untouched. */
  lemma CallUnknownName(mod: VMModule, m: Machine, name: string, args: seq<int32>, start: bool, fuel: nat)
    requires !IsRunning(m)
    requires forall j :: 0 <= j < |mod.ilModule.exportedFunctions| ==> mod.ilModule.exportedFunctions[j].key != name
    ensures Call(mod, m, name, args, start, fuel) == (false, Ok(m))
  {
  }

  /** `Call` is refused while a call is in progress, and the state is left as it was. */
  lemma CallWhileRunning(mod: VMModule, m: Machine, name: string, args: seq<int32>, start: bool, fuel: nat)
    requires IsRunning(m)
    ensures Call(mod, m, name, args, start, fuel) == (false, Throw(m, InvalidOperation))
  {
  }

  /** A name the table exports: the staged arguments are followed by the given ones and the
      function of the first entry with that name is pushed above an empty stack. */
  lemma CallKnownName(mod: VMModule, m: Machine, name: string, args: seq<int32>, k: nat)
    requires !IsRunning(m) && PoolReset(m)
    requires k < |mod.ilModule.exportedFunctions| && mod.ilModule.exportedFunctions[k].key == name
    requires forall j :: 0 <= j < k ==> mod.ilModule.exportedFunctions[j].key != name
    requires mod.ilModule.exportedFunctions[k].value != -1
    requires !IsBound(mod, mod.ilModule.exportedFunctions[k].value)
    ensures var (found, e) := Call(mod, m, name, args, false, 0);
            && found && e.fault.None? && |e.m.callStack| == 1
            && e.m.callStack[0].functionIndex == mod.ilModule.exportedFunctions[k].value
            && e.m.callStack[0].pc == 0 && e.m.callStack[0].binding.None?
            && (forall i :: 0 <= i < |m.argumentStack + args| ==>
                  Read(e.m.callStack[0].memory, i) == (m.argumentStack + args)[i])
            && e.m.argumentStack == []
  {
    var index := mod.ilModule.exportedFunctions[k].value;
    assert FindExport(mod.ilModule.exportedFunctions, name, 0) == index;
    PushCallDefined(mod, m.(argumentStack := m.argumentStack + args), index);
  }

  // ---------------------------------------------------------------- pushing and popping frames

  /** Every pooled frame was reset by `PopFrame`: program counter 0 and no binding. */
  predicate PoolReset(m: Machine)
  {
    forall i :: 0 <= i < |m.framePool| ==> m.framePool[i].pc == 0 && m.framePool[i].binding.None?
  }

  /** Frames in use or ready for reuse. */
  function Frames(m: Machine): nat
  {
    |m.callStack| + |m.framePool|
  }

  /** Pushing a bytecode function: staged argument i lands in memory slot i, the other slots keep
      what the acquired frame held, the staging buffer is cleared, and the stack grows by
      exactly one frame, a frame of that function starting at instruction 0. */
  lemma PushCallDefined(mod: VMModule, m: Machine, functionIndex: int32)
    requires !IsBound(mod, functionIndex) && PoolReset(m)
    ensures var e := PushCall(mod, m, functionIndex);
            && e.fault.None? && e.m.argumentStack == []
            && |e.m.callStack| == |m.callStack| + 1 && e.m.callStack[..|m.callStack|] == m.callStack
            && Top(e.m).functionIndex == functionIndex && Top(e.m).pc == 0 && Top(e.m).binding.None?
            && (forall i :: 0 <= i < |m.argumentStack| ==> Read(Top(e.m).memory, i) == m.argumentStack[i])
            && (forall slot :: !(0 <= slot < |m.argumentStack|) ==>
                  Read(Top(e.m).memory, slot) == Read(AcquireFrame(m).0.memory, slot))
  {
    WithArgumentsReads(AcquireFrame(m).0.memory, m.argumentStack);
  }

  /** Pushing a bound function hands it the string table and a snapshot of the staged
      arguments, clears the staging buffer, and pushes one frame holding its enumerator. */
  lemma PushCallBound(mod: VMModule, m: Machine, functionIndex: int32)
    requires IsBound(mod, functionIndex) && functionIndex in mod.vmFunctions
    ensures var e := PushCall(mod, m, functionIndex);
            && e.fault.None? && e.m.argumentStack == []
            && |e.m.callStack| == |m.callStack| + 1 && e.m.callStack[..|m.callStack|] == m.callStack
            && Top(e.m).functionIndex == functionIndex
            && Top(e.m).binding == Some(mod.vmFunctions[functionIndex](mod.ilModule.strings, m.argumentStack))
  {
  }

  /** A bound index with no bound function raises, and the staged arguments stay staged. */
  lemma PushCallMissing(mod: VMModule, m: Machine, functionIndex: int32)
    requires IsBound(mod, functionIndex) && functionIndex !in mod.vmFunctions
    ensures var e := PushCall(mod, m, functionIndex);
            e.fault == Some(IndexOutOfRange) && e.m.callStack == m.callStack && e.m.argumentStack == m.argumentStack
  {
  }

  /** A popped frame is the next one acquired, with program counter 0, no binding, and the
      memory it had when it was popped. */
  lemma PopThenAcquire(m: Machine)
    requires IsRunning(m)
    ensures var (frame, m') := AcquireFrame(PopFrame(m));
            && frame == Top(m).(pc := 0, binding := None)
            && frame.memory == Top(m).memory
            && m' == m.(callStack := m.callStack[..|m.callStack| - 1])
  {
  }

  /** One cycle without an exception moves the stack by at most one frame, never loses a
      frame, and allocates a new frame only when the pool is empty; every pooled frame stays
      reset. */
  lemma CycleFrames(mod: VMModule, m: Machine)
    requires PoolReset(m)
    ensures var e := Cycle(mod, m);
            && PoolReset(e.m)
            && (e.fault.None? ==>
                  && |m.callStack| - 1 <= |e.m.callStack| <= |m.callStack| + 1
                  && Frames(m) <= Frames(e.m) <= Frames(m) + 1
                  && (Frames(e.m) == Frames(m) + 1 ==> |m.framePool| == 0))
  {
    if IsRunning(m) && Top(m).binding.Some? {
      BoundStepFrames(mod, m);
    } else if IsRunning(m) && 0 <= Top(m).functionIndex as int < |mod.ilModule.definedFunctions| {
      var top := Top(m);
      var code := mod.ilModule.definedFunctions[top.functionIndex].code;
      if 0 <= top.pc as int < |code| {
        var m1 := SetTop(m, top.(pc := Add(top.pc, 1)));
        assert PoolReset(m1);
        ExecuteFrames(mod, m1, code[top.pc]);
      }
    }
  }

  /** The instructions fall in three groups as to frames: CALL pushes, RETURN pops, and every
      other one keeps the stack size, the frames below the top and the pool. */
  lemma ExecuteShape(mod: VMModule, m: Machine, ins: Instruction)
    requires IsRunning(m)
    ensures var e := Execute(mod, m, ins);
            && (ins.op == OpCode.CALL ==> e == PushCall(mod, m, ins.immediate))
            && (ins.op == OpCode.RETURN ==> e == Ok(PopFrame(m)))
            && (ins.op != OpCode.CALL && ins.op != OpCode.RETURN ==>
                  && e.m.framePool == m.framePool && |e.m.callStack| == |m.callStack|
                  && e.m.callStack[..|m.callStack| - 1] == m.callStack[..|m.callStack| - 1]
                  && Top(e.m).functionIndex == Top(m).functionIndex && Top(e.m).binding == Top(m).binding)
  {
    match ins.op
    case CALL =>
    case RETURN =>
    case BREAK =>
      var m1 := SetTop(m, Top(m).(pc := Sub(Top(m).pc, 1)));
      assert Execute(mod, m, ins) == Ok(Break(m1));
    case WRITE =>
    case JUMP =>
    case JUMPZ =>
    case JUMPNZ =>
    case _ =>
  }

  /** Only the control-flow instructions move the program counter of the executing frame. */
  lemma ExecuteKeepsPc(mod: VMModule, m: Machine, ins: Instruction)
    requires IsRunning(m)
    requires ins.op !in {BREAK, OpCode.CALL, OpCode.RETURN, JUMP, JUMPZ, JUMPNZ}
    ensures Top(Execute(mod, m, ins).m).pc == Top(m).pc
  {
    match ins.op
    case WRITE =>
    case _ =>
  }

  /** No instruction changes the stepping flag or the handlers. */
  lemma ExecuteKeepsFlags(mod: VMModule, m: Machine, ins: Instruction)
    requires IsRunning(m)
    ensures KeepsFlags(m, Execute(mod, m, ins).m)
  {
    if ins.op in {BREAK, WRITE, PUSHARG, OpCode.CALL, OpCode.RETURN, JUMP} {
      FrameOpsKeepFlags(mod, m, ins);
    } else if ins.op in {JUMPZ, JUMPNZ, DIV, MOD} {
      assert KeepsFlags(m, Execute(mod, m, ins).m);
    }
  }

  predicate KeepsFlags(m: Machine, m': Machine)
  {
    m'.isStepping == m.isStepping && m'.breakHandler == m.breakHandler
  }

  lemma FrameOpsKeepFlags(mod: VMModule, m: Machine, ins: Instruction)
    requires IsRunning(m) && ins.op in {BREAK, WRITE, PUSHARG, OpCode.CALL, OpCode.RETURN, JUMP}
    ensures KeepsFlags(m, Execute(mod, m, ins).m)
  {
  }

  lemma ExecuteFrames(mod: VMModule, m: Machine, ins: Instruction)
    requires IsRunning(m) && PoolReset(m)
    ensures var e := Execute(mod, m, ins);
            && PoolReset(e.m) && PoolReset(Break(e.m))
            && (e.fault.None? ==>
                  && |m.callStack| - 1 <= |e.m.callStack| <= |m.callStack| + 1
                  && Frames(m) <= Frames(e.m) <= Frames(m) + 1
                  && (Frames(e.m) == Frames(m) + 1 ==> |m.framePool| == 0))
  {
    ExecuteShape(mod, m, ins);
    if ins.op == OpCode.CALL {
      PushCallFrames(mod, m, ins.immediate);
      PushCallResets(mod, m, ins.immediate);
    }
  }

  /** A push without an exception adds exactly one frame above the others, taking it from the
      pool when the pool has one. */
  lemma PushCallFrames(mod: VMModule, m: Machine, functionIndex: int32)
    ensures var e := PushCall(mod, m, functionIndex);
            e.fault.None? ==>
              && |e.m.callStack| == |m.callStack| + 1 && e.m.callStack[..|m.callStack|] == m.callStack
              && Frames(e.m) == Frames(m) + (if |m.framePool| == 0 then 1 else 0)
  {
  }

  lemma PushCallResets(mod: VMModule, m: Machine, functionIndex: int32)
    requires PoolReset(m)
    ensures PoolReset(PushCall(mod, m, functionIndex).m)
  {
  }

  lemma BoundStepFrames(mod: VMModule, m: Machine)
    requires IsRunning(m) && Top(m).binding.Some? && PoolReset(m)
    ensures var e := BoundStep(mod, m);
            && PoolReset(e.m)
            && (e.fault.None? ==>
                  && |m.callStack| - 1 <= |e.m.callStack| <= |m.callStack| + 1
                  && Frames(m) <= Frames(e.m) <= Frames(m) + 1
                  && (Frames(e.m) == Frames(m) + 1 ==> |m.framePool| == 0))
  {
    var steps := Top(m).binding.value;
    if |steps| == 0 {
      ExhaustedStepFrames(mod, m);
    } else {
      var m1 := Advanced(m);
      AdvancedFrames(m);
      match steps[0].action
      case CALL => CallStepFrames(mod, m, m1);
      case RETURN => ReturnStepFrames(mod, m, m1);
      case YIELD => YieldStepFrames(mod, m, m1);
      case UNWRAP => UnwrapStepFrames(mod, m, m1);
      case UndefinedAction(_) =>
    }
  }

  lemma ExhaustedStepFrames(mod: VMModule, m: Machine)
    requires IsRunning(m) && Top(m).binding.Some? && |Top(m).binding.value| == 0 && PoolReset(m)
    ensures var e := BoundStep(mod, m);
            && PoolReset(e.m) && e.fault.None?
            && |e.m.callStack| == |m.callStack| - 1 && Frames(e.m) == Frames(m)
  {
  }

  lemma AdvancedFrames(m: Machine)
    requires IsRunning(m) && Top(m).binding.Some? && |Top(m).binding.value| > 0 && PoolReset(m)
    ensures PoolReset(Advanced(m)) && Frames(Advanced(m)) == Frames(m)
  {
  }

  lemma ReturnStepFrames(mod: VMModule, m0: Machine, m: Machine)
    requires IsRunning(m0) && Top(m0).binding.Some? && |Top(m0).binding.value| > 0
    requires Top(m0).binding.value[0].action == ContinuationAction.RETURN
    requires m == Advanced(m0) && PoolReset(m)
    ensures var e := BoundStep(mod, m0);
            && PoolReset(e.m) && e.fault.None?
            && |e.m.callStack| == |m.callStack| - 1 && Frames(e.m) == Frames(m)
  {
  }

  lemma YieldStepFrames(mod: VMModule, m0: Machine, m: Machine)
    requires IsRunning(m0) && Top(m0).binding.Some? && |Top(m0).binding.value| > 0
    requires Top(m0).binding.value[0].action == ContinuationAction.YIELD
    requires m == Advanced(m0) && PoolReset(m)
    ensures var e := BoundStep(mod, m0);
            && PoolReset(e.m) && e.m.callStack == m.callStack && e.m.framePool == m.framePool
  {
    assert BoundStep(mod, m0) == ContinueWithYield(m, Top(m0).binding.value[0]);
  }

  lemma UnwrapStepFrames(mod: VMModule, m0: Machine, m: Machine)
    requires IsRunning(m0) && Top(m0).binding.Some? && |Top(m0).binding.value| > 0
    requires Top(m0).binding.value[0].action == ContinuationAction.UNWRAP
    requires m == Advanced(m0) && PoolReset(m)
    ensures var e := BoundStep(mod, m0);
            && PoolReset(e.m) && e.fault.None? && |e.m.callStack| == |m.callStack| + 1
            && Frames(e.m) == Frames(m) + (if |m.framePool| == 0 then 1 else 0)
  {
    assert BoundStep(mod, m0) == ContinueWithUnwrap(m, Top(m0).binding.value[0]);
  }

  lemma CallStepFrames(mod: VMModule, m0: Machine, m: Machine)
    requires IsRunning(m0) && Top(m0).binding.Some? && |Top(m0).binding.value| > 0
    requires Top(m0).binding.value[0].action == ContinuationAction.CALL
    requires m == Advanced(m0) && PoolReset(m)
    ensures var e := BoundStep(mod, m0);
            && PoolReset(e.m)
            && (e.fault.None? ==> |e.m.callStack| == |m.callStack| + 1
                                  && Frames(e.m) == Frames(m) + (if |m.framePool| == 0 then 1 else 0))
  {
    var c := Top(m0).binding.value[0];
    assert BoundStep(mod, m0) == ContinueWithCall(mod, m, c);
    if c.arguments.Some? {
      var staged := m.(argumentStack := m.argumentStack + c.arguments.value);
      PushCallFrames(mod, staged, c.functionIndex);
      PushCallResets(mod, staged, c.functionIndex);
    }
  }

  // ---------------------------------------------------------------- fetching and executing

  /** The top frame is a bytecode frame whose program counter addresses `ins`. */
  predicate Fetches(mod: VMModule, m: Machine, ins: Instruction)
  {
    && IsRunning(m) && Top(m).binding.None?
    && 0 <= Top(m).functionIndex as int < |mod.ilModule.definedFunctions|
    && 0 <= Top(m).pc as int < |mod.ilModule.definedFunctions[Top(m).functionIndex].code|
    && mod.ilModule.definedFunctions[Top(m).functionIndex].code[Top(m).pc] == ins
  }

  /** The top frame with its program counter advanced past the fetched instruction. */
  function Fetched(m: Machine): Machine
    requires IsRunning(m)
  {
    SetTop(m, Top(m).(pc := Add(Top(m).pc, 1)))
  }

  /** A fetched instruction is executed after the advance, then the loop stops if stepping. */
  lemma CycleFetch(mod: VMModule, m: Machine, ins: Instruction)
    requires Fetches(mod, m, ins)
    ensures var e := Execute(mod, Fetched(m), ins);
            Cycle(mod, m) == if e.fault.None? && m.isStepping then Ok(Break(e.m)) else e
  {
    ExecuteKeepsFlags(mod, Fetched(m), ins);
  }

  /** Every instruction except the control-flow ones leaves the caller's program counter one
      past the instruction; a CALL leaves it there under the new frame. */
  lemma FetchAdvancesPc(mod: VMModule, m: Machine, ins: Instruction)
    requires Fetches(mod, m, ins)
    requires ins.op !in {BREAK, OpCode.RETURN, JUMP, JUMPZ, JUMPNZ}
    ensures var e := Cycle(mod, m);
            e.fault.None? ==>
              && |e.m.callStack| >= |m.callStack|
              && e.m.callStack[|m.callStack| - 1].pc == Add(Top(m).pc, 1)
              && e.m.callStack[..|m.callStack| - 1] == m.callStack[..|m.callStack| - 1]
  {
    var m1 := Fetched(m);
    CycleFetch(mod, m, ins);
    ExecuteShape(mod, m1, ins);
    var e := Execute(mod, m1, ins);
    if ins.op == OpCode.CALL {
      PushCallFrames(mod, m1, ins.immediate);
      if e.fault.None? {
        assert e.m.callStack[..|m.callStack|] == m1.callStack;
        assert e.m.callStack[|m.callStack| - 1] == m1.callStack[|m.callStack| - 1];
        assert e.m.callStack[..|m.callStack| - 1] == m1.callStack[..|m.callStack| - 1];
      }
    } else {
      ExecuteKeepsPc(mod, m1, ins);
    }
  }

  /** JUMP, and JUMPZ/JUMPNZ when taken, add the offset to the program counter as already
      advanced past the jump; not taken, they fall through to the next instruction. Nothing
      else changes. */
  lemma JumpTargets(mod: VMModule, m: Machine, ins: Instruction)
    requires Fetches(mod, m, ins) && !m.isStepping
    requires ins.op in {JUMP, JUMPZ, JUMPNZ}
    ensures var e := Cycle(mod, m);
            var taken := ins.op == JUMP || (ins.op == JUMPZ && m.aRegister == 0)
                         || (ins.op == JUMPNZ && m.aRegister != 0);
            && e.fault.None?
            && e.m == SetTop(m, Top(m).(pc := if taken then Add(Add(Top(m).pc, 1), ins.immediate)
                                              else Add(Top(m).pc, 1)))
  {
    CycleFetch(mod, m, ins);
  }

  /** BREAK leaves the program counter at the BREAK itself, so resuming runs it again; the run
      loop stops and the break handler is notified (a second time in stepping mode). */
  lemma BreakStaysPut(mod: VMModule, m: Machine, ins: Instruction)
    requires Fetches(mod, m, ins) && ins.op == BREAK
    ensures var e := Cycle(mod, m);
            && e.fault.None? && !e.m.canContinue
            && e.m.callStack == m.callStack
            && e.m.breaks == m.breaks + (if !m.breakHandler then 0 else if m.isStepping then 2 else 1)
  {
    CycleFetch(mod, m, ins);
    SubAddCancel(Top(m).pc, 1);
    assert Top(m).(pc := Sub(Add(Top(m).pc, 1), 1)) == Top(m);
    assert m.callStack[..|m.callStack| - 1] + [Top(m)] == m.callStack;
  }

  /** In stepping mode the run loop stops after every bytecode instruction that completes. */
  lemma SteppingStops(mod: VMModule, m: Machine, ins: Instruction)
    requires Fetches(mod, m, ins) && m.isStepping
    ensures var e := Cycle(mod, m);
            e.fault.None? ==> !e.m.canContinue
  {
    CycleFetch(mod, m, ins);
  }

  /** Comparisons, BOOL and LNOT leave exactly 1 or 0 in the accumulator, 1 exactly when
      their condition holds. */
  lemma TestsAreBoolean(mod: VMModule, m: Machine, ins: Instruction)
    requires IsRunning(m) && ins.op in {CMPE, CMPLT, CMPLTE, BOOL, LNOT}
    ensures var e := Execute(mod, m, ins);
            && e.fault.None? && e.m.callStack == m.callStack
            && (e.m.aRegister == 0 || e.m.aRegister == 1)
    ensures ins.op == CMPE ==> (Execute(mod, m, ins).m.aRegister == 1 <==> m.aRegister == Operand(m, ins))
    ensures ins.op == CMPLT ==> (Execute(mod, m, ins).m.aRegister == 1 <==> m.aRegister < Operand(m, ins))
    ensures ins.op == CMPLTE ==> (Execute(mod, m, ins).m.aRegister == 1 <==> m.aRegister <= Operand(m, ins))
    ensures ins.op == BOOL ==> (Execute(mod, m, ins).m.aRegister == 1 <==> m.aRegister != 0)
    ensures ins.op == LNOT ==> (Execute(mod, m, ins).m.aRegister == 1 <==> m.aRegister == 0)
  {
  }

  /** LOAD puts the immediate value in the accumulator; READ the top frame's slot, 0 if that
      slot was never written; WRITE puts the accumulator in the slot, leaving the rest. */
  lemma LoadReadWrite(mod: VMModule, m: Machine, ins: Instruction)
    requires IsRunning(m)
    ensures ins.op == LOAD ==> Execute(mod, m, ins) == Ok(m.(aRegister := ins.immediate))
    ensures ins.op == READ ==>
              && Execute(mod, m, ins).m.aRegister
                 == (if ins.immediate as int in Top(m).memory then Top(m).memory[ins.immediate as int] else 0)
              && Execute(mod, m, ins).m.callStack == m.callStack
    ensures ins.op == WRITE ==>
              var e := Execute(mod, m, ins);
              && e.fault.None? && |e.m.callStack| == |m.callStack|
              && Read(Top(e.m).memory, ins.immediate as int) == m.aRegister
              && (forall slot :: slot != ins.immediate as int ==> Read(Top(e.m).memory, slot) == Read(Top(m).memory, slot))
  {
  }

  /** The arithmetic and bitwise opcodes use the accumulator as the left operand and the top
      frame's slot as the right one. ADD, SUB and MUL leave the int32 congruent to the exact
      result modulo 2^32 (the exact result itself when it fits); AND and OR leave a value whose
      sign and bounds are those of the bitwise operations. */
  lemma ArithmeticOperands(mod: VMModule, m: Machine, ins: Instruction)
    requires IsRunning(m) && ins.op in {ADD, SUB, MUL, AND, OR}
    ensures Execute(mod, m, ins).fault.None? && Execute(mod, m, ins).m.callStack == m.callStack
    ensures var a, b, r := m.aRegister as int, Operand(m, ins) as int, Execute(mod, m, ins).m.aRegister as int;
            && (ins.op == ADD ==> (r - (a + b)) % Modulus == 0 && (MinValue <= a + b < -MinValue ==> r == a + b))
            && (ins.op == SUB ==> (r - (a - b)) % Modulus == 0 && (MinValue <= a - b < -MinValue ==> r == a - b))
            && (ins.op == MUL ==> (r - a * b) % Modulus == 0 && (MinValue <= a * b < -MinValue ==> r == a * b))
    ensures var a, b, r := m.aRegister as int, Operand(m, ins) as int, Execute(mod, m, ins).m.aRegister as int;
            ins.op == AND ==> (r < 0 <==> a < 0 && b < 0) && (0 <= a ==> 0 <= r <= a) && (0 <= b ==> 0 <= r <= b)
    ensures var a, b, r := m.aRegister as int, Operand(m, ins) as int, Execute(mod, m, ins).m.aRegister as int;
            ins.op == OR ==> (r < 0 <==> a < 0 || b < 0) && (0 <= a && 0 <= b ==> a <= r && b <= r)
  {
  }

  /** DIV and MOD by a slot holding 0 raise and change nothing; int.MinValue by -1 raises an
      overflow. */
  lemma DivisionFaults(mod: VMModule, m: Machine, ins: Instruction)
    requires IsRunning(m) && ins.op in {DIV, MOD}
    ensures Read(Top(m).memory, ins.immediate as int) == 0 ==> Execute(mod, m, ins) == Throw(m, DivideByZero)
    ensures Read(Top(m).memory, ins.immediate as int) == -1 && m.aRegister as int == MinValue ==>
              Execute(mod, m, ins) == Throw(m, Overflow)
  {
  }

  /** What DIV and MOD leave in the accumulator agree with each other as truncating division
      does: quotient times divisor plus remainder is the old accumulator, and the remainder is
      smaller than the divisor and has the dividend's sign. */
  lemma DivModAgree(mod: VMModule, m: Machine, slot: int32)
    requires IsRunning(m)
    requires Read(Top(m).memory, slot as int) != 0
    requires !(m.aRegister as int == MinValue && Read(Top(m).memory, slot as int) == -1)
    ensures var q := Execute(mod, m, Instruction(DIV, slot));
            var r := Execute(mod, m, Instruction(MOD, slot));
            var d := Read(Top(m).memory, slot as int) as int;
            && q.fault.None? && r.fault.None?
            && q.m.aRegister as int * d + r.m.aRegister as int == m.aRegister as int
            && Abs(r.m.aRegister as int) < Abs(d)
            && (r.m.aRegister == 0 || (r.m.aRegister < 0 <==> m.aRegister < 0))
  {
    QuotRemSpec(m.aRegister as int, Read(Top(m).memory, slot as int) as int);
  }

  /** An opcode outside the known 23 raises NotImplemented and changes nothing. */
  lemma UnknownOpcode(mod: VMModule, m: Machine, value: int, immediate: int32)
    requires IsRunning(m)
    ensures Execute(mod, m, Instruction(Undefined(value), immediate)) == Throw(m, NotImplemented)
  {
  }

  /** A frame whose function index or program counter is outside the code raises. */
  lemma FetchOutOfRange(mod: VMModule, m: Machine)
    requires IsRunning(m) && Top(m).binding.None?
    requires !(0 <= Top(m).functionIndex as int < |mod.ilModule.definedFunctions|)
             || !(0 <= Top(m).pc as int < |mod.ilModule.definedFunctions[Top(m).functionIndex].code|)
    ensures Cycle(mod, m) == Throw(m, IndexOutOfRange)
  {
  }

  // ---------------------------------------------------------------- bound functions

  /** The top frame is bound and its enumerator will produce `steps`. */
  predicate BoundTop(m: Machine, steps: seq<Continuation>)
  {
    IsRunning(m) && Top(m).binding == Some(steps)
  }

  /** The caller's frame with its enumerator advanced past its first continuation. */
  function Advanced(m: Machine): Machine
    requires IsRunning(m) && Top(m).binding.Some? && |Top(m).binding.value| > 0
  {
    SetTop(m, Top(m).(binding := Some(Top(m).binding.value[1..])))
  }

  /** An exhausted enumerator: the frame is popped and the accumulator keeps its value. */
  lemma BoundExhausted(mod: VMModule, m: Machine)
    requires BoundTop(m, [])
    ensures var e := Cycle(mod, m);
            && e.fault.None? && e.m.aRegister == m.aRegister
            && e.m.callStack == m.callStack[..|m.callStack| - 1]
            && e.m.framePool == m.framePool + [Top(m).(pc := 0, binding := None)]
  {
  }

  /** `Return(v)`: the accumulator becomes v and the bound frame is popped. */
  lemma BoundReturn(mod: VMModule, m: Machine, v: int32, rest: seq<Continuation>)
    requires BoundTop(m, [Continuation.Return(v)] + rest)
    ensures var e := Cycle(mod, m);
            && e.fault.None? && e.m.aRegister == v
            && e.m.callStack == m.callStack[..|m.callStack| - 1]
  {
  }

  /** A continuation whose action is none of the four declared ones raises NotImplemented;
      the enumerator has already moved past it, and nothing else changes. */
  lemma BoundUnknownAction(mod: VMModule, m: Machine, c: Continuation, rest: seq<Continuation>)
    requires BoundTop(m, [c] + rest) && c.action.UndefinedAction?
    ensures Cycle(mod, m) == Throw(SetTop(m, Top(m).(binding := Some(rest))), NotImplemented)
  {
    assert ([c] + rest)[1..] == rest;
  }

  /** `Call(i, args)`: the continuation's arguments are staged after any already staged and
      the callee is pushed above the caller, whose enumerator has moved past the call. A bound
      callee's enumerator receives every staged argument; a bytecode callee gets them in its
      memory slots; a bound index with no function raises with the arguments still staged. */
  lemma BoundCall(mod: VMModule, m: Machine, i: int32, args: seq<int32>, rest: seq<Continuation>)
    requires BoundTop(m, [Continuation.Call(i, args)] + rest)
    ensures var caller := SetTop(m, Top(m).(binding := Some(rest)));
            Cycle(mod, m) == PushCall(mod, caller.(argumentStack := m.argumentStack + args), i)
    ensures var e := Cycle(mod, m);
            e.fault.None? ==>
              && |e.m.callStack| == |m.callStack| + 1 && e.m.argumentStack == []
              && e.m.callStack[|m.callStack| - 1] == Top(m).(binding := Some(rest))
              && e.m.callStack[..|m.callStack| - 1] == m.callStack[..|m.callStack| - 1]
              && Top(e.m).functionIndex == i
    ensures var e := Cycle(mod, m);
            IsBound(mod, i) && i in mod.vmFunctions ==>
              && e.fault.None?
              && Top(e.m).binding == Some(mod.vmFunctions[i](mod.ilModule.strings, m.argumentStack + args))
    ensures var e := Cycle(mod, m);
            IsBound(mod, i) && i !in mod.vmFunctions ==>
              e.fault == Some(IndexOutOfRange) && e.m.argumentStack == m.argumentStack + args
    ensures var e := Cycle(mod, m);
            !IsBound(mod, i) ==> e.fault.None?
    ensures var e := Cycle(mod, m);
            !IsBound(mod, i) && PoolReset(m) ==>
              && e.fault.None? && Top(e.m).pc == 0 && Top(e.m).binding.None?
              && (forall k :: 0 <= k < |m.argumentStack + args| ==>
                    Read(Top(e.m).memory, k) == (m.argumentStack + args)[k])
  {
    var caller := SetTop(m, Top(m).(binding := Some(rest)));
    assert Top(m).binding.value[1..] == rest;
    var staged := caller.(argumentStack := m.argumentStack + args);
    PushCallFrames(mod, staged, i);
    if IsBound(mod, i) {
      if i in mod.vmFunctions {
        PushCallBound(mod, staged, i);
      } else {
        PushCallMissing(mod, staged, i);
      }
    } else if PoolReset(m) {
      PushCallDefined(mod, staged, i);
    }
  }

  /** `Yield(t)`: the run loop stops and the resume callback is registered before the token is
      started; a token that completes during `Start` has resumed the loop by the time the step
      ends. */
  lemma BoundYield(mod: VMModule, m: Machine, t: YieldToken, rest: seq<Continuation>)
    requires BoundTop(m, [Continuation.Yield(t)] + rest)
    ensures var e := Cycle(mod, m);
            && e.fault.None? && e.m.canContinue == t.completesSynchronously
            && e.m.yieldLog == m.yieldLog + [Registered(t), Started(t)]
                               + (if t.completesSynchronously then [Resumed(t)] else [])
            && e.m.callStack == Advanced(m).callStack
  {
  }

  /** `Unwrap(s)`: one new frame of the same function is pushed, holding the inner enumerator;
      the outer frame stays below it with its enumerator advanced. */
  lemma BoundUnwrap(mod: VMModule, m: Machine, inner: seq<Continuation>, rest: seq<Continuation>)
    requires BoundTop(m, [Continuation.Unwrap(inner)] + rest)
    ensures var e := Cycle(mod, m);
            && e.fault.None? && |e.m.callStack| == |m.callStack| + 1
            && e.m.callStack[..|m.callStack|] == Advanced(m).callStack
            && Top(e.m).functionIndex == Top(m).functionIndex
            && Top(e.m).binding == Some(inner)
  {
    assert Advanced(m).callStack == SetTop(m, Top(m).(binding := Some(rest))).callStack;
  }

  /** An unwrapped enumerator whose first step returns v is transparent to the outer one,
      whatever steps it would have produced afterwards: two cycles later the accumulator holds
      v, the inner frame has gone back to the pool (which gains a frame only if it was empty),
      and the outer frame is back on top with its enumerator advanced past the UNWRAP. */
  lemma UnwrapReturnTransparent(mod: VMModule, m: Machine, v: int32, inner: seq<Continuation>, rest: seq<Continuation>)
    requires BoundTop(m, [Continuation.Unwrap([Continuation.Return(v)] + inner)] + rest) && m.canContinue
    ensures var e := Run(mod, m, 2);
            && e.fault.None? && e.m.aRegister == v
            && e.m.callStack == SetTop(m, Top(m).(binding := Some(rest))).callStack
            && |e.m.framePool| == if |m.framePool| == 0 then 1 else |m.framePool|
  {
    var steps := [Continuation.Return(v)] + inner;
    var e1 := Cycle(mod, m);
    BoundUnwrap(mod, m, steps, rest);
    assert e1.m.canContinue;
    BoundReturn(mod, e1.m, v, inner);
    RunStep(mod, m, 2);
    RunStep(mod, e1.m, 1);
    assert Top(m).binding.value[1..] == rest;
  }

  // ---------------------------------------------------------------- the run loop

  /** `Continue` while the loop is already running returns at once. */
  lemma ContinueWhileRunning(mod: VMModule, m: Machine, fuel: nat)
    requires m.canContinue
    ensures Continue(mod, m, fuel) == Ok(m)
  {
  }

  /** Running for a + b cycles is running for a cycles and then, unless that raised, for b
      more: a run that stopped stays stopped. */
  lemma RunSplit(mod: VMModule, m: Machine, a: nat, b: nat)
    ensures Run(mod, m, a + b)
            == (var e := Run(mod, m, a); if e.fault.Some? then e else Run(mod, e.m, b))
  {
    IterateSplit(s => Cycle(mod, s), m, a, b);
  }

  lemma {:induction false} IterateSplit(step: Machine -> Exec, m: Machine, a: nat, b: nat)
    ensures Iterate(step, m, a + b)
            == (var e := Iterate(step, m, a); if e.fault.Some? then e else Iterate(step, e.m, b))
    decreases a
  {
    if a != 0 && m.canContinue {
      var e := step(m);
      if e.fault.None? {
        IterateSplit(step, e.m, a - 1, b);
      }
    }
  }

  /** One cycle that raises nothing, then the rest of the run. */
  lemma RunStep(mod: VMModule, m: Machine, fuel: nat)
    requires m.canContinue && fuel > 0 && Cycle(mod, m).fault.None?
    ensures Run(mod, m, fuel) == Run(mod, Cycle(mod, m).m, fuel - 1)
  {
    assert (s => Cycle(mod, s))(m) == Cycle(mod, m);
  }

  /** The finish cycle: on an empty stack the loop stops and the `Finished` subscriber, if
      any, is notified once. */
  lemma FinishCycle(mod: VMModule, m: Machine)
    requires !IsRunning(m)
    ensures var e := Cycle(mod, m);
            && e.fault.None? && !e.m.canContinue
            && e.m.finishes == m.finishes + (if m.finishedHandler then 1 else 0)
            && e.m.callStack == m.callStack
  {
  }

  // ---------------------------------------------------------------- introspection

  /** Depth 0 is the top frame, depth size-1 the bottom one; past the bottom a default frame is
      returned; a negative depth raises. */
  lemma FrameAtDepths(m: Machine, depth: int32)
    ensures IsRunning(m) && depth == 0 ==> FrameAt(m, depth) == Success(Top(m))
    ensures 0 <= depth as int < |m.callStack| ==> FrameAt(m, depth) == Success(m.callStack[|m.callStack| - 1 - depth as int])
    ensures depth as int >= |m.callStack| ==> FrameAt(m, depth) == Success(StackFrame(0, 0, map[], None))
    ensures depth < 0 && IsRunning(m) ==> FrameAt(m, depth) == Failure(IndexOutOfRange)
  {
  }

  // ---------------------------------------------------------------- an end-to-end run

  /** `int add(int a, int b) { return a + b; }` as the compiler lays it out. */
  function AddModule(): VMModule
  {
    VMModule(
      ILModule([ILFunction([Instruction(READ, 0), Instruction(ADD, 1), Instruction(OpCode.RETURN, 0)], map[], [])],
               [], [KeyValuePair("add", 0)], [], []),
      map[])
  }

  /** The `add` frame with its arguments written, at a given program counter. */
  function AddFrame(pc: int32): StackFrame
  {
    StackFrame(0, pc, map[0 := 3, 1 := 4], None)
  }

  lemma AddPush()
    ensures PushCall(AddModule(), NewMachine().(argumentStack := [3, 4]), 0)
            == Ok(NewMachine().(callStack := [AddFrame(0)]))
  {
    assert [3, 4][..1] == [3 as int32];
    assert WithArguments(map[], [3, 4]) == map[0 := 3, 1 := 4];
  }

  lemma AddCycles(m: Machine)
    requires m == NewMachine().(callStack := [AddFrame(0)], canContinue := true)
    ensures Cycle(AddModule(), m) == Ok(m.(callStack := [AddFrame(1)], aRegister := 3))
    ensures Cycle(AddModule(), m.(callStack := [AddFrame(1)], aRegister := 3))
            == Ok(m.(callStack := [AddFrame(2)], aRegister := 7))
    ensures Cycle(AddModule(), m.(callStack := [AddFrame(2)], aRegister := 7))
            == Ok(m.(callStack := [], aRegister := 7, framePool := [AddFrame(0)]))
    ensures Cycle(AddModule(), m.(callStack := [], aRegister := 7, framePool := [AddFrame(0)]))
            == Ok(m.(callStack := [], aRegister := 7, framePool := [AddFrame(0)], canContinue := false))
  {
    var mod := AddModule();
    assert mod.ilModule.definedFunctions[0].code[0] == Instruction(READ, 0);
    assert mod.ilModule.definedFunctions[0].code[1] == Instruction(ADD, 1);
    assert mod.ilModule.definedFunctions[0].code[2] == Instruction(OpCode.RETURN, 0);
  }

  /** Calling `add` with 3 and 4 on a fresh VM returns true, leaves 7 in the accumulator and
      ends with an empty stack and the finished frame in the pool. */
  lemma AddReturnsSeven()
    ensures var (found, e) := Call(AddModule(), NewMachine(), "add", [3, 4], true, 10);
            && found && e.fault.None? && e.m.aRegister == 7
            && e.m.callStack == [] && !e.m.canContinue && |e.m.framePool| == 1
  {
    var mod := AddModule();
    assert FindExport(mod.ilModule.exportedFunctions, "add", 0) == 0;
    AddPush();
    var m0 := NewMachine().(callStack := [AddFrame(0)], canContinue := true);
    AddCycles(m0);
    var m1 := m0.(callStack := [AddFrame(1)], aRegister := 3);
    var m2 := m0.(callStack := [AddFrame(2)], aRegister := 7);
    var m3 := m0.(callStack := [], aRegister := 7, framePool := [AddFrame(0)]);
    RunStep(mod, m0, 10);
    RunStep(mod, m1, 9);
    RunStep(mod, m2, 8);
    RunStep(mod, m3, 7);
    assert Run(mod, m3.(canContinue := false), 6) == Ok(m3.(canContinue := false));
    var pushed := NewMachine().(callStack := [AddFrame(0)]);
    assert NewMachine().(argumentStack := NewMachine().argumentStack + [3, 4]) == NewMachine().(argumentStack := [3, 4]);
    assert Continue(mod, pushed, 10) == Run(mod, m0, 10);
    assert Call(mod, NewMachine(), "add", [3, 4], true, 10) == (true, Continue(mod, pushed, 10));
  }
}
