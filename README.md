# MonC virtual machine and front-end scope passes, modelled in Dafny

This project models the core of MonC, a small compiled language. The model has two parts.

**The bytecode virtual machine** (`src/MonC/VM/VirtualMachine.cs`) is a single-threaded accumulator machine. Its state is:
- a call stack of frames;
- a buffer of staged arguments;
- a LIFO pool of reusable frames;
- a run flag.

Each cycle either fetches and executes one of 23 opcodes, or drives one step of a host-bound function. A host-bound function hands the interpreter `Continuation` values (`src/MonC/VM/Continuation.cs`) to:
- return a value;
- call another function;
- yield to an asynchronous token;
- unwrap a nested step sequence.

The VM reads a compiled module (`src/MonC/Codegen/ILModule.cs`).

**The front-end passes** are modelled on an abstract syntax tree:
- the pre-order children traversal (`VisitChildrenVisitor.cs`);
- assignment resolution (`ProcessAssignmentsVisitor.cs`);
- the scope walker, which keeps a stack of copied scopes (`WalkScopeVisitor.cs`);
- the node-to-scope cache, which drives the walker (`ScopeManager.cs`);
- the semantic analyzer's driver (`SemanticAnalyzer.cs`): module registration with duplicate detection, enum numbering, one-time preparation, and the buffering of diagnostics.

**How the stateful classes are modelled.** Each C# class that changes its fields is a Dafny `class` with the same fields. Its methods use `modifies this`:
- `VM.VirtualMachine`;
- `Scoping.ScopeManager` and `Scoping.WalkScopeVisitor`;
- `Semantics.SemanticAnalyzer`;
- `ProcessAssignments.ProcessAssignmentsVisitor`;
- `VisitChildren.VisitChildrenVisitor`.

Each method is proved equal to a pure function of the old state. The functions live in `VMSemantics`, `ScopeSemantics` and `AnalyzerSemantics`. What the source promises is then proved as lemmas about those functions, in `VMProperties`, `ScopeProperties` and `AnalyzerProperties`. The continuation and module records are plain datatypes.

Files:

| file | module | contents |
|---|---|---|
| wrappers.dfy | `Wrappers` | `Option`, `Result` |
| int32.dfy | `Int32` | C# `int` arithmetic: wrap-around, truncating division, bitwise and/or |
| ilmodule.dfy | `ILModules` | opcodes, instructions, `ILFunction`, `ILModule` |
| continuation.dfy | `Continuations` | the continuation struct and its four constructors |
| vm_semantics.dfy | `VMSemantics` | the interpreter as functions on a `Machine` value |
| vm.dfy | `VM` | class `VirtualMachine` |
| vm_properties.dfy | `VMProperties` | lemmas about the interpreter |
| parsing.dfy | `Parsing` | node ids, diagnostics, scopes, `Find` |
| leaves.dfy | `Leaves` | the leaf tree used by traversal and assignment resolution |
| visit_children.dfy | `VisitChildren` | the traversal and its pre-order lemmas |
| process_assignments.dfy | `ProcessAssignments` | assignment resolution |
| statements.dfy | `Statements` | the statement/expression nodes used by the scope passes |
| scope_semantics.dfy | `ScopeSemantics` | the walker and the cache as functions |
| scoping.dfy | `Scoping` | classes `ScopeManager` and `WalkScopeVisitor` |
| scope_properties.dfy | `ScopeProperties` | lemmas about scope walking and the cache |
| registration.dfy | `Registration` | first-definition-wins registration, shared by functions, enums and structs |
| analyzer_semantics.dfy | `AnalyzerSemantics` | the analyzer's driver as functions |
| semantic_analyzer.dfy | `Semantics` | class `SemanticAnalyzer` |
| analyzer_properties.dfy | `AnalyzerProperties` | lemmas about the analyzer |

Where the code departs from what its names and comments suggest, the model follows the code:
- UNWRAP pushes a new frame of the same function, rather than replacing the current frame's step sequence.
- `PopFrame` resets only the program counter and the binding. The frame memory is kept, so a reused frame still holds its old values.
- The bound-function table is indexed by the full function index (`_module.VMFunctions[functionIndex]`), not by `index - definedCount`.
- A fault leaves the run flag as it was, so after an exception `Continue` on a running VM returns at once.

## Model

| member | source | states |
|---|---|---|
| `Continuations.Continuation.Default` | src/MonC/VM/Continuation.cs:13-20 | `default(Continuation)`: action RETURN and every payload field 0 or null |
| `Continuations.Continuation.Return` | src/MonC/VM/Continuation.cs:22-28 | action RETURN with the given return value; the result is canonical (no other payload set) |
| `Continuations.Continuation.Call` | src/MonC/VM/Continuation.cs:30-36 | action CALL with the given function index and arguments; canonical |
| `Continuations.Continuation.Yield` | src/MonC/VM/Continuation.cs:39-45 | action YIELD with the given token; canonical |
| `Continuations.Continuation.Unwrap` | src/MonC/VM/Continuation.cs:47-53 | action UNWRAP with the given enumerator; canonical |
| `Continuations.CanonicalIsConstructed` | src/MonC/VM/Continuation.cs:22-53 | every canonical continuation is rebuilt by the constructor of its own action from its own payload |
| `Continuations.DefaultIsReturnZero` | src/MonC/VM/Continuation.cs:13-28 | the default struct equals `Return(0)` |
| `ILModules.ILFunction.Empty` | src/MonC/Codegen/ILModule.cs:17-22 | no code, no symbols, no string instructions |
| `ILModules.ILModule.New` | src/MonC/Codegen/ILModule.cs:29-33 | every table of a new module is empty |
| `Int32.Add` | src/MonC/VM/VirtualMachine.cs:396-399 | the 32-bit wrap-around sum: congruent to the exact sum modulo 2^32 always, and equal to it whenever it fits in 32 bits |
| `Int32.Sub` | src/MonC/VM/VirtualMachine.cs:401-404 | the 32-bit wrap-around difference: congruent to the exact difference modulo 2^32 always, and equal to it whenever it fits |
| `Int32.Mul` | src/MonC/VM/VirtualMachine.cs:416-419 | the 32-bit wrap-around product: congruent to the exact product modulo 2^32 always, and equal to it whenever it fits |
| `Int32.And` | src/MonC/VM/VirtualMachine.cs:406-409 | bitwise and of the two's complement bits: negative exactly when both operands are; between 0 and any non-negative operand |
| `Int32.Or` | src/MonC/VM/VirtualMachine.cs:411-414 | bitwise or of the two's complement bits: negative exactly when either operand is; at least both operands when both are non-negative |
| `Int32.BitAndBounds` | src/MonC/VM/VirtualMachine.cs:406-409 | on n-bit unsigned operands, `and` is at most each operand and has the top bit exactly when both have it |
| `Int32.BitOrBounds` | src/MonC/VM/VirtualMachine.cs:411-414 | on n-bit unsigned operands, `or` stays below 2^n, is at least each operand, and has the top bit exactly when either has it |
| `Int32.QuotRemSpec` | src/MonC/VM/VirtualMachine.cs:421-429 | truncating quotient and remainder: `q*d + r == n`, the remainder has the sign of the dividend and is smaller than the divisor in magnitude |
| `Int32.QuotInRange` | src/MonC/VM/VirtualMachine.cs:421-424 | the quotient fits in 32 bits except for `int.MinValue / -1` |
| `Int32.SubAddCancel` | src/MonC/VM/VirtualMachine.cs:396-404 | wrap-around subtraction undoes wrap-around addition |
| `VMSemantics.SetTop` | src/MonC/VM/VirtualMachine.cs:125-128 | replacing the top frame keeps the depth and every frame below it |
| `VMSemantics.WithArgumentsReads` | src/MonC/VM/VirtualMachine.cs:448-450 | after writing the staged arguments, slot i holds argument i and other slots keep their value |
| `VMSemantics.FindExport` | src/MonC/VM/VirtualMachine.cs:70-79 | the index of the first exported entry with the name, or -1 when none has it |
| `VM.VirtualMachine.constructor` | src/MonC/VM/VirtualMachine.cs:9-23 | empty stack, buffer and pool; accumulator 0; not running; empty module |
| `VM.VirtualMachine.IsRunning` | src/MonC/VM/VirtualMachine.cs:18 | running exactly when the call stack is non-empty |
| `VM.VirtualMachine.LoadModule` | src/MonC/VM/VirtualMachine.cs:25-31 | InvalidOperation and no change while running; otherwise the module is replaced |
| `VM.VirtualMachine.Call` | src/MonC/VM/VirtualMachine.cs:33-54 | the new state and the result are those of `VMSemantics.Call` |
| `VM.VirtualMachine.SetBreakHandler` | src/MonC/VM/VirtualMachine.cs:56-59 | only the break handler changes |
| `VM.VirtualMachine.SubscribeFinished` | src/MonC/VM/VirtualMachine.cs:23 | only the `Finished` subscription changes |
| `VM.VirtualMachine.SetStepping` | src/MonC/VM/VirtualMachine.cs:94-97 | only the stepping flag changes |
| `VM.VirtualMachine.GetString` | src/MonC/VM/VirtualMachine.cs:61-68 | the string with that id, or "" for an id outside the table |
| `VM.VirtualMachine.LookupFunction` | src/MonC/VM/VirtualMachine.cs:70-79 | the first exported entry's index, or -1 (via `FindExport`) |
| `VM.VirtualMachine.Continue` | src/MonC/VM/VirtualMachine.cs:81-92 | the run loop, as `VMSemantics.Continue` with a cycle bound |
| `VM.VirtualMachine.YieldTokenFinished` | src/MonC/VM/VirtualMachine.cs:214-219 | the completion callback resumes the run loop |
| `VM.VirtualMachine.GetInternalStackFrame` | src/MonC/VM/VirtualMachine.cs:117-123 | the frame at that depth, a new frame past the bottom, an error for a negative depth |
| `VM.VirtualMachine.GetStackFrame` | src/MonC/VM/VirtualMachine.cs:100-108 | function index and program counter of that frame |
| `VM.VirtualMachine.GetStackFrameMemory` | src/MonC/VM/VirtualMachine.cs:110-114 | the memory of that frame |
| `VM.VirtualMachine.Break` | src/MonC/VM/VirtualMachine.cs:152-158 | clears the run flag and notifies the break handler if one is set |
| `VM.VirtualMachine.InterpretCurrentInstruction` | src/MonC/VM/VirtualMachine.cs:160-187 | one cycle, as `VMSemantics.Cycle` |
| `VM.VirtualMachine.InterpretBoundFunctionCall` | src/MonC/VM/VirtualMachine.cs:189-233 | one bound-function step, as `VMSemantics.BoundStep`: an exhausted enumerator pops; CALL, RETURN, YIELD and UNWRAP are handled as the source does; any other action value raises NotImplemented after the enumerator has advanced |
| `VM.VirtualMachine.ContinueWithCall` | src/MonC/VM/VirtualMachine.cs:202-206 | stage the continuation's arguments, then push the call |
| `VM.VirtualMachine.ContinueWithYield` | src/MonC/VM/VirtualMachine.cs:214-222 | clear the run flag, register the resume callback, then start the token |
| `VM.VirtualMachine.ContinueWithUnwrap` | src/MonC/VM/VirtualMachine.cs:224-230 | push a frame of the same function holding the inner enumerator |
| `VM.VirtualMachine.InterpretInstruction` | src/MonC/VM/VirtualMachine.cs:235-310 | one opcode, as `VMSemantics.Execute` |
| `VM.VirtualMachine.DivideAccumulator` | src/MonC/VM/VirtualMachine.cs:421-429 | DIV and MOD, with the divide-by-zero and overflow faults |
| `VM.VirtualMachine.Jump` | src/MonC/VM/VirtualMachine.cs:431-434 | adds the offset to the top frame's program counter |
| `VM.VirtualMachine.PushCall` | src/MonC/VM/VirtualMachine.cs:436-454 | as `VMSemantics.PushCall` |
| `VM.VirtualMachine.AcquireFrame` | src/MonC/VM/VirtualMachine.cs:457-463 | the most recently pooled frame, or a new one |
| `VM.VirtualMachine.PopFrame` | src/MonC/VM/VirtualMachine.cs:465-471 | pops the top frame into the pool with program counter 0 and no binding |
| `VM.WriteArguments` | src/MonC/VM/VirtualMachine.cs:448-450 | the loop that writes staged argument i into slot i, for every i in order |
| `VMProperties.CallUnknownName` | src/MonC/VM/VirtualMachine.cs:39-43 | a name that is not exported: `Call` returns false and nothing changes |
| `VMProperties.CallWhileRunning` | src/MonC/VM/VirtualMachine.cs:35-37 | `Call` while running raises InvalidOperation and nothing changes |
| `VMProperties.CallKnownName` | src/MonC/VM/VirtualMachine.cs:39-53 | an exported name of a defined function, called without starting: returns true; one frame of the first matching function at program counter 0; slot i holds staged-then-passed argument i; the buffer is cleared |
| `VMProperties.PushCallDefined` | src/MonC/VM/VirtualMachine.cs:447-453 | staged argument i lands in slot i, the buffer is cleared, and exactly one frame of that function is pushed |
| `VMProperties.PushCallBound` | src/MonC/VM/VirtualMachine.cs:441-446 | the bound function gets a snapshot of the staged arguments, the buffer is cleared, and one frame holding its enumerator is pushed |
| `VMProperties.PushCallMissing` | src/MonC/VM/VirtualMachine.cs:441-442 | a bound index with no function raises and the staged arguments stay staged |
| `VMProperties.PopThenAcquire` | src/MonC/VM/VirtualMachine.cs:457-471 | a popped frame is the next one acquired, with program counter 0, no binding and its memory kept; the rest of the machine is the state before the push |
| `VMProperties.CycleFrames` | src/MonC/VM/VirtualMachine.cs:160-233 | a cycle without a fault moves the stack by at most one frame and never loses a frame: in use plus pooled grows by at most one |
| `VMProperties.ExecuteShape` | src/MonC/VM/VirtualMachine.cs:235-310 | CALL is `PushCall`, RETURN is `PopFrame`; every other opcode keeps the pool, the depth, the frames below the top and the top frame's function and binding |
| `VMProperties.ExecuteKeepsPc` | src/MonC/VM/VirtualMachine.cs:235-310 | every opcode other than the jumps, BREAK, CALL and RETURN leaves the executing frame's program counter as it was |
| `VMProperties.ExecuteKeepsFlags` | src/MonC/VM/VirtualMachine.cs:235-310 | no instruction changes the stepping flag or the handlers |
| `VMProperties.ExecuteFrames` | src/MonC/VM/VirtualMachine.cs:235-310 | an instruction without a fault moves the stack by at most one frame; frames in use plus pooled grow by at most one, and only when the pool was empty; pooled frames stay reset |
| `VMProperties.PushCallFrames` | src/MonC/VM/VirtualMachine.cs:436-463 | a successful push adds one frame above the unchanged stack, and allocates a new frame only when the pool is empty |
| `VMProperties.PushCallResets` | src/MonC/VM/VirtualMachine.cs:457-471 | every pooled frame has program counter 0 and no binding, before and after a push |
| `VMProperties.BoundStepFrames` | src/MonC/VM/VirtualMachine.cs:189-233 | a bound-function step moves the stack by at most one frame and allocates at most one frame |
| `VMProperties.CycleFetch` | src/MonC/VM/VirtualMachine.cs:180-186 | a fetched instruction executes after the program counter is advanced, then the loop stops if stepping |
| `VMProperties.FetchAdvancesPc` | src/MonC/VM/VirtualMachine.cs:180-182 | every non-control instruction leaves the program counter one past where it was |
| `VMProperties.JumpTargets` | src/MonC/VM/VirtualMachine.cs:367-384 | JUMP, and JUMPZ/JUMPNZ exactly when taken, add the offset to the already advanced program counter |
| `VMProperties.BreakStaysPut` | src/MonC/VM/VirtualMachine.cs:316-320 | BREAK leaves the call stack, and so the program counter at the BREAK, as it was; clears the run flag; notifies the break handler once, or twice in stepping mode |
| `VMProperties.SteppingStops` | src/MonC/VM/VirtualMachine.cs:184-186 | in stepping mode the run flag is cleared after every completed instruction |
| `VMProperties.TestsAreBoolean` | src/MonC/VM/VirtualMachine.cs:352-394 | CMPE/CMPLT/CMPLTE/BOOL/LNOT leave exactly 1 or 0, 1 exactly when the test holds |
| `VMProperties.LoadReadWrite` | src/MonC/VM/VirtualMachine.cs:322-335 | LOAD sets the immediate; READ reads the slot (0 if unwritten); WRITE stores the accumulator |
| `VMProperties.ArithmeticOperands` | src/MonC/VM/VirtualMachine.cs:396-419 | for `ADD`, `SUB`, `MUL`, `AND` and `OR` the accumulator is the left operand and the top frame's slot the right; `+`, `-`, `*` agree with the exact result modulo 2^32 and equal it when it fits; `AND` and `OR` give the sign and bounds of the bitwise operation; no fault and the call stack is unchanged |
| `VMProperties.DivisionFaults` | src/MonC/VM/VirtualMachine.cs:421-429 | DIV/MOD by 0, and `int.MinValue` by -1, raise and change nothing |
| `VMProperties.DivModAgree` | src/MonC/VM/VirtualMachine.cs:421-429 | DIV and MOD agree as truncating division |
| `VMProperties.UnknownOpcode` | src/MonC/VM/VirtualMachine.cs:306-309 | an opcode outside the 23 raises NotImplemented and changes nothing |
| `VMProperties.FetchOutOfRange` | src/MonC/VM/VirtualMachine.cs:180 | a function index or program counter outside the code raises |
| `VMProperties.BoundExhausted` | src/MonC/VM/VirtualMachine.cs:194-198 | an exhausted enumerator pops the frame and leaves the accumulator unchanged |
| `VMProperties.BoundReturn` | src/MonC/VM/VirtualMachine.cs:208-212 | `Return(v)` sets the accumulator to v and pops |
| `VMProperties.BoundCall` | src/MonC/VM/VirtualMachine.cs:202-206 | `Call` appends the continuation's arguments to the staging buffer and pushes the callee above the caller, which stays with its enumerator advanced; a bound callee gets the enumerator its binding returns for those arguments, a missing binding faults, and a bytecode callee never faults and, when the pool holds only reset frames, starts at instruction 0 with the arguments in its memory |
| `VMProperties.BoundYield` | src/MonC/VM/VirtualMachine.cs:214-222 | `Yield` clears the run flag and registers the resume callback before `Start` |
| `VMProperties.BoundUnknownAction` | src/MonC/VM/VirtualMachine.cs:200-232 | a continuation whose action is none of the four declared ones raises NotImplemented; the enumerator has moved past it, and nothing else changes |
| `VMProperties.BoundUnwrap` | src/MonC/VM/VirtualMachine.cs:224-230 | `Unwrap` pushes one frame of the same function holding the inner enumerator |
| `VMProperties.UnwrapReturnTransparent` | src/MonC/VM/VirtualMachine.cs:208-230 | an unwrapped enumerator whose first step returns v, whatever follows it, leaves v in the accumulator and pops only itself, leaving the caller with its enumerator advanced |
| `VMProperties.ContinueWhileRunning` | src/MonC/VM/VirtualMachine.cs:81-85 | `Continue` while the run flag is set returns at once and changes nothing |
| `VMProperties.RunSplit` | src/MonC/VM/VirtualMachine.cs:86-91 | running a + b cycles is running a, then b unless the first part raised |
| `VMProperties.RunStep` | src/MonC/VM/VirtualMachine.cs:86-91 | one cycle without a fault, then the rest of the run |
| `VMProperties.FinishCycle` | src/MonC/VM/VirtualMachine.cs:162-171 | on an empty stack the loop stops and the `Finished` subscriber is notified if present |
| `VMProperties.FrameAtDepths` | src/MonC/VM/VirtualMachine.cs:117-123 | depth 0 is the top frame; past the bottom a default frame is returned |
| `VMProperties.AddReturnsSeven` | src/MonC/VM/VirtualMachine.cs:33-54 | a two-argument `add` called with 3 and 4 returns true and leaves 7 in the accumulator, with the stack empty |
| `Parsing.FirstIndex` | src/MonC/Parsing/Semantics/ProcessAssignmentsVisitor.cs:35 | the position of the first variable with the name, or -1 exactly when there is none |
| `Parsing.Find` | src/MonC/Parsing/Semantics/ProcessAssignmentsVisitor.cs:35 | null exactly when no variable has the name; otherwise a variable of the scope with that name |
| `Parsing.FindAppend` | src/MonC/Parsing/Semantics/ProcessAssignmentsVisitor.cs:35 | declaring a variable later never hides an earlier one of the same name from `Find` |
| `VisitChildren.Visits` | src/MonC/SyntaxTree/Util/VisitChildrenVisitor.cs:23-216 | the leaf itself is handed over first, unless it is a parse-tree leaf the visitor does not take |
| `VisitChildren.PreOrder` | src/MonC/SyntaxTree/Util/VisitChildrenVisitor.cs:23-216 | a traversal hands over the leaf itself, then each child left to right, in full: operands left then right; for: declaration, condition, update, body; if/else: condition, if-body, else-body if present |
| `VisitChildren.IndexOrder` | src/MonC/SyntaxTree/Util/VisitChildrenVisitor.cs:114-121 | statements, parameters and arguments are traversed by index |
| `VisitChildren.ParseLeavesFiltered` | src/MonC/SyntaxTree/Util/VisitChildrenVisitor.cs:204-216 | a visitor that does not take parse-tree leaves gets exactly the other leaves, in the same order; the arguments of a parse-tree call are still traversed |
| `VisitChildren.VisitChildrenVisitor.constructor` | src/MonC/SyntaxTree/Util/VisitChildrenVisitor.cs:12-15 | a null visitor installs the do-nothing visitor |
| `VisitChildren.VisitChildrenVisitor.SetVisitor` | src/MonC/SyntaxTree/Util/VisitChildrenVisitor.cs:17-21 | installs the visitor, or the do-nothing visitor for null, and returns the traversal object itself |
| `VisitChildren.NoOpTraversal` | src/MonC/SyntaxTree/Util/VisitChildrenVisitor.cs:17-21 | after `SetVisitor(null)` the traversal still runs over every leaf except the parse-tree ones |
| `ProcessAssignments.Resolve` | src/MonC/Parsing/Semantics/ProcessAssignmentsVisitor.cs:24-44 | not `=`: no verdict; `=` over a non-identifier: expecting identifier; over an undeclared name: undeclared with that name; otherwise the first declaration of the name in the scope |
| `ProcessAssignments.Diagnostic` | src/MonC/Parsing/Semantics/ProcessAssignmentsVisitor.cs:29-37 | exactly one diagnostic for each failed verdict, with the source's message text and no span |
| `ProcessAssignments.ResolveAfterDeclaration` | src/MonC/Parsing/Semantics/ProcessAssignmentsVisitor.cs:33-35 | declaring a name after the first declaration of that name never changes what an `=` resolves to |
| `ProcessAssignments.ProcessAssignmentsVisitor.constructor` | src/MonC/Parsing/Semantics/ProcessAssignmentsVisitor.cs:15-19 | keeps the scope cache and error list; no replacement yet |
| `ProcessAssignments.ProcessAssignmentsVisitor.VisitBinaryOperation` | src/MonC/Parsing/Semantics/ProcessAssignmentsVisitor.cs:24-44 | when resolved: `ShouldReplace` is set and `NewLeaf` is an assignment to that declaration with the original right side; otherwise the replacement fields are untouched; one error is added exactly for a failed verdict |
| `ProcessAssignments.ProcessAssignmentsVisitor.VisitOther` | src/MonC/Parsing/Semantics/ProcessAssignmentsVisitor.cs:46-129 | every other leaf kind clears `ShouldReplace` and changes nothing else |
| `Statements.SubExpressions` | src/MonC/Parsing/Scoping/WalkScopeVisitor.cs:103-107 | the nodes of an expression in pre-order; the expression itself comes first |
| `ScopeSemantics.WalkDeclaration` | src/MonC/Parsing/Scoping/WalkScopeVisitor.cs:36-42 | the stack keeps its depth and every scope below the top |
| `ScopeSemantics.WalkStmt` | src/MonC/Parsing/Scoping/WalkScopeVisitor.cs:36-101 | pushes and pops are balanced: same depth, same scopes below the top |
| `ScopeSemantics.WalkBody` | src/MonC/Parsing/Scoping/WalkScopeVisitor.cs:109-114 | balanced as well |
| `ScopeSemantics.ApplyScope` | src/MonC/Semantics/Scoping/ScopeManager.cs:91-94 | records the current scope for the node, overwriting any earlier entry; the current scope is kept |
| `ScopeSemantics.Handle` | src/MonC/Parsing/Scoping/WalkScopeVisitor.cs:103-121 | before a node is handed on, the handler's current scope is the scope handed with it |
| `ScopeSemantics.HandleAllAppend` | src/MonC/Parsing/Scoping/WalkScopeVisitor.cs:109-114 | handling hand-offs in two parts is handling them all in order |
| `Scoping.ScopeManager.constructor` | src/MonC/Semantics/Scoping/ScopeManager.cs:12-20 | no scopes recorded and no current scope |
| `Scoping.ScopeManager.GetScope` | src/MonC/Semantics/Scoping/ScopeManager.cs:28-34 | the recorded scope, or a new empty scope |
| `Scoping.ScopeManager.ReplaceNode` | src/MonC/Semantics/Scoping/ScopeManager.cs:22-26 | the new node gets what `GetScope` gives for the old one |
| `Scoping.ScopeManager.SetCurrentScope` | src/MonC/Semantics/Scoping/ScopeManager.cs:20 | only the current scope changes |
| `Scoping.ScopeManager.ApplyScope` | src/MonC/Semantics/Scoping/ScopeManager.cs:91-94 | as `ScopeSemantics.ApplyScope` |
| `Scoping.ScopeManager.VisitStatement` | src/MonC/Semantics/Scoping/ScopeManager.cs:41-63 | the statement reaches `VisitDefaultStatement` and gets the current scope |
| `Scoping.ScopeManager.VisitExpression` | src/MonC/Semantics/Scoping/ScopeManager.cs:46-53 | as `ScopeSemantics.VisitExpression`: a parse-tree node goes to its own handler, any other node gets the current scope |
| `Scoping.ScopeManager.VisitAssignment` | src/MonC/Semantics/Scoping/ScopeManager.cs:65-70 | the assignment, its left side and its right side get the current scope |
| `Scoping.ScopeManager.VisitIdentifier` | src/MonC/Semantics/Scoping/ScopeManager.cs:72-75 | the identifier gets the current scope |
| `Scoping.ScopeManager.VisitFunctionCall` | src/MonC/Semantics/Scoping/ScopeManager.cs:77-84 | the call gets the current scope, then its arguments are visited by index |
| `Scoping.ScopeManager.ProcessFunction` | src/MonC/Semantics/Scoping/ScopeManager.cs:14-18 | walks the body from `Scope.New(function)`, this manager handling every hand-off |
| `Scoping.WalkScopeVisitor.constructor` | src/MonC/Parsing/Scoping/WalkScopeVisitor.cs:22-34 | the stack holds the initial scope only |
| `Scoping.WalkScopeVisitor.VisitStatement` | src/MonC/Parsing/Scoping/WalkScopeVisitor.cs:116-121 | sets the handler's current scope to the top, then hands the statement on |
| `Scoping.WalkScopeVisitor.VisitExpression` | src/MonC/Parsing/Scoping/WalkScopeVisitor.cs:103-107 | sets the handler's current scope to the top, then hands every node of the expression on |
| `Scoping.WalkScopeVisitor.VisitDeclaration` | src/MonC/Parsing/Scoping/WalkScopeVisitor.cs:36-42 | as `WalkDeclaration`: statement, initializer, then the declaration joins the top scope |
| `Scoping.WalkScopeVisitor.Accept` | src/MonC/Parsing/Scoping/WalkScopeVisitor.cs:44-101 | break, continue, return and expression statements, as `WalkStmt` |
| `Scoping.WalkScopeVisitor.VisitWithExpression` | src/MonC/Parsing/Scoping/WalkScopeVisitor.cs:54-58 | the statement, then its expression |
| `Scoping.WalkScopeVisitor.VisitIfElse` | src/MonC/Parsing/Scoping/WalkScopeVisitor.cs:60-72 | as `WalkStmt` for if/else |
| `Scoping.WalkScopeVisitor.VisitFor` | src/MonC/Parsing/Scoping/WalkScopeVisitor.cs:74-85 | as `WalkStmt` for a for loop |
| `Scoping.WalkScopeVisitor.VisitWhile` | src/MonC/Parsing/Scoping/WalkScopeVisitor.cs:87-95 | as `WalkStmt` for a while loop |
| `Scoping.WalkScopeVisitor.VisitBody` | src/MonC/Parsing/Scoping/WalkScopeVisitor.cs:109-114 | the statements by index, as `WalkBody` |
| `ScopeProperties.WalkStmtStack` | src/MonC/Parsing/Scoping/WalkScopeVisitor.cs:36-101 | a statement changes only the top scope, and only by appending what it declares itself; nothing declared inside an if/else, for or while leaks out |
| `ScopeProperties.WalkBodyStack` | src/MonC/Parsing/Scoping/WalkScopeVisitor.cs:109-114 | after a body, the top scope holds what it held before plus the body's own top-level declarations, in order |
| `ScopeProperties.WalkStmtLocal` | src/MonC/Parsing/Scoping/WalkScopeVisitor.cs:36-101 | what is handed on depends on the top scope only, never on the scopes below it |
| `ScopeProperties.WalkBodyLocal` | src/MonC/Parsing/Scoping/WalkScopeVisitor.cs:109-114 | the same for a body |
| `ScopeProperties.IfElseBranches` | src/MonC/Parsing/Scoping/WalkScopeVisitor.cs:60-72 | statement and condition in the base scope; each branch walked alone from a copy of the base scope, so neither branch sees the other's declarations; the stack is unchanged |
| `ScopeProperties.ForScope` | src/MonC/Parsing/Scoping/WalkScopeVisitor.cs:74-85 | the loop's declaration lives in a copy of the base scope, seen by the condition, update and body and popped afterwards |
| `ScopeProperties.WhileScope` | src/MonC/Parsing/Scoping/WalkScopeVisitor.cs:87-95 | statement and condition in the base scope, the body from a copy; the stack is unchanged |
| `ScopeProperties.DeclarationAfterInitializer` | src/MonC/Parsing/Scoping/WalkScopeVisitor.cs:36-42 | a declaration and its initializer are handed on in a scope that does not hold it yet; it is added afterwards |
| `ScopeProperties.WalkStmtExtends` | src/MonC/Parsing/Scoping/WalkScopeVisitor.cs:36-101 | every scope handed on extends the top scope: same function, its variables first |
| `ScopeProperties.WalkBodyExtends` | src/MonC/Parsing/Scoping/WalkScopeVisitor.cs:109-114 | the same for a body |
| `ScopeProperties.StatementSeesEarlierDeclarations` | src/MonC/Parsing/Scoping/WalkScopeVisitor.cs:109-121 | statement i of a body is handed on with the starting scope plus exactly the declarations of statements 0..i-1 |
| `ScopeProperties.VisitExpressionRecords` | src/MonC/Semantics/Scoping/ScopeManager.cs:46-84 | the manager records the current scope for exactly the nodes it touches and nothing else |
| `ScopeProperties.ParseNodesGetCurrentScope` | src/MonC/Semantics/Scoping/ScopeManager.cs:65-84 | an assignment, its left and right sides get the current scope; a call and each argument get it |
| `ScopeProperties.ReplaceNodeScope` | src/MonC/Semantics/Scoping/ScopeManager.cs:22-34 | after `ReplaceNode(old, new)`, `GetScope(new)` is what `GetScope(old)` was and every other node is unchanged |
| `ScopeProperties.VisitNodesRecords` | src/MonC/Parsing/Scoping/WalkScopeVisitor.cs:103-107 | every node of an expression gets the current scope |
| `ScopeProperties.HandleAllRecords` | src/MonC/Semantics/Scoping/ScopeManager.cs:91-94 | hand-offs whose scopes extend a base record only such scopes, and record every statement handed on |
| `ScopeProperties.ProcessFunctionScopes` | src/MonC/Semantics/Scoping/ScopeManager.cs:14-18 | processing a function records only scopes of that function (every other entry is unchanged), and records every statement of its body |
| `Registration.RegisterAll` | src/MonC/Semantics/SemanticAnalyzer.cs:113-156 | every entry is either added or counted as a duplicate |
| `Registration.FirstDefinitionKept` | src/MonC/Semantics/SemanticAnalyzer.cs:113-156 | the table holds the old names and the offered ones; an old name keeps its item; a new name gets its first entry |
| `Registration.RegisteredEntries` | src/MonC/Semantics/SemanticAnalyzer.cs:113-156 | the same, stated on entry positions |
| `Registration.DuplicatesCounted` | src/MonC/Semantics/SemanticAnalyzer.cs:113-156 | the table grows by exactly the number of entries added |
| `Registration.DuplicateIgnored` | src/MonC/Semantics/SemanticAnalyzer.cs:116-118 | a name already present changes nothing but the duplicate count |
| `AnalyzerSemantics.NewAnalyzer` | src/MonC/Semantics/SemanticAnalyzer.cs:37-44 | `void` then `int` registered; not processing; no buffered errors |
| `AnalyzerSemantics.AddSymbols` | src/MonC/Semantics/SemanticAnalyzer.cs:106-111 | the only fault is a duplicate key |
| `AnalyzerSemantics.NumberEnum` | src/MonC/Semantics/SemanticAnalyzer.cs:158-166 | the set of enum names is unchanged; the only fault is a missing key |
| `AnalyzerSemantics.Process` | src/MonC/Semantics/SemanticAnalyzer.cs:65-96 | afterwards processing has started; the preparation ran once more exactly when this was the first call; the only fault is a missing enum key |
| `AnalyzerSemantics.Flushed` | src/MonC/Semantics/SemanticAnalyzer.cs:88-92 | one reported error per buffered one |
| `AnalyzerSemantics.AddSymbolsStops` | src/MonC/Semantics/SemanticAnalyzer.cs:108-110 | after a duplicate key throws, no later mapping is added |
| `AnalyzerSemantics.NumberEnumStops` | src/MonC/Semantics/SemanticAnalyzer.cs:161-165 | after a lookup throws, no later declaration is numbered |
| `AnalyzerSemantics.NumberEnumsStops` | src/MonC/Semantics/SemanticAnalyzer.cs:76-78 | after one enum throws, no later enum is numbered |
| `Semantics.SemanticAnalyzer.constructor` | src/MonC/Semantics/SemanticAnalyzer.cs:37-44 | as `NewAnalyzer` |
| `Semantics.SemanticAnalyzer.Register` | src/MonC/Semantics/SemanticAnalyzer.cs:48-104 | as `AnalyzerSemantics.Register`: refused once processing has started; otherwise symbols, functions, enums, structs |
| `Semantics.SemanticAnalyzer.AddSymbols` | src/MonC/Semantics/SemanticAnalyzer.cs:106-111 | as `AnalyzerSemantics.AddSymbols` |
| `Semantics.SemanticAnalyzer.RegisterFunctions` | src/MonC/Semantics/SemanticAnalyzer.cs:113-123 | as `AnalyzerSemantics.RegisterFunctions` |
| `Semantics.SemanticAnalyzer.RegisterEnums` | src/MonC/Semantics/SemanticAnalyzer.cs:125-142 | as `AnalyzerSemantics.RegisterEnums` |
| `Semantics.SemanticAnalyzer.RegisterDeclarations` | src/MonC/Semantics/SemanticAnalyzer.cs:128-140 | the inner loop over one enum's declarations |
| `Semantics.SemanticAnalyzer.RegisterStructs` | src/MonC/Semantics/SemanticAnalyzer.cs:144-156 | as `AnalyzerSemantics.RegisterStructs` |
| `Semantics.SemanticAnalyzer.AddError` | src/MonC/Semantics/SemanticAnalyzer.cs:207-210 | buffers the diagnostic; nothing is reported yet |
| `Semantics.SemanticAnalyzer.ReportAll` | src/MonC/Semantics/SemanticAnalyzer.cs:168-191 | the passes for one node buffer what they report, in order |
| `Semantics.SemanticAnalyzer.PrepareForProcessing` | src/MonC/Semantics/SemanticAnalyzer.cs:193-205 | counts one preparation and buffers what it reports |
| `Semantics.SemanticAnalyzer.AnalyzeEnum` | src/MonC/Semantics/SemanticAnalyzer.cs:158-166 | as `NumberEnum` |
| `Semantics.SemanticAnalyzer.Process` | src/MonC/Semantics/SemanticAnalyzer.cs:65-96 | as `AnalyzerSemantics.Process`, keeping the preparation count equal to the started flag |
| `Semantics.SemanticAnalyzer.AnalyzeEnums` | src/MonC/Semantics/SemanticAnalyzer.cs:76-78 | as `NumberEnums` |
| `Semantics.SemanticAnalyzer.AnalyzeStructs` | src/MonC/Semantics/SemanticAnalyzer.cs:80-82 | buffers the struct passes' reports, struct by struct |
| `Semantics.SemanticAnalyzer.AnalyzeFunctions` | src/MonC/Semantics/SemanticAnalyzer.cs:84-86 | buffers the function passes' reports, function by function |
| `Semantics.SemanticAnalyzer.AnalyzeNodes` | src/MonC/Semantics/SemanticAnalyzer.cs:80-86 | the loop shared by both: each node's reports are buffered after those of the nodes before it |
| `Semantics.SemanticAnalyzer.FlushErrors` | src/MonC/Semantics/SemanticAnalyzer.cs:88-93 | reports every buffered diagnostic in order with its node's span, then empties the buffer |
| `AnalyzerProperties.FunctionsFirstDefinitionWins` | src/MonC/Semantics/SemanticAnalyzer.cs:113-123 | the first definition of a name is kept; each later one adds exactly one "Duplicate function" error; nothing else changes |
| `AnalyzerProperties.StructsFirstDefinitionWins` | src/MonC/Semantics/SemanticAnalyzer.cs:144-156 | the same for structs, plus one struct type registered per struct added |
| `AnalyzerProperties.EnumsFirstDefinitionWins` | src/MonC/Semantics/SemanticAnalyzer.cs:125-142 | every declaration name is registered; an old name keeps its entry; a name new to the table keeps its first declaration, enum by enum and in order within an enum, numbered 0 until the enums are analyzed; each declaration either adds one `int` type or exactly one "Duplicate enum" error |
| `AnalyzerProperties.FirstEnumDeclarationKept` | src/MonC/Semantics/SemanticAnalyzer.cs:125-142 | a declaration whose name is new to the table and not declared at any earlier position of the module is the one registered under that name |
| `AnalyzerProperties.EnumEntriesAt` | src/MonC/Semantics/SemanticAnalyzer.cs:125-142 | the registration loop offers declaration i of enum k after every declaration of the earlier enums and the earlier declarations of enum k |
| `AnalyzerProperties.EnumDeclarationNamesAt` | src/MonC/Semantics/SemanticAnalyzer.cs:125-142 | a name is declared by the module's enums exactly when some declaration of some enum carries it |
| `AnalyzerProperties.SymbolsAddedOnce` | src/MonC/Semantics/SemanticAnalyzer.cs:106-111 | adding symbols succeeds exactly when no key is present or repeated, and then the map holds the old and the new mappings |
| `AnalyzerProperties.EnumNumberingFails` | src/MonC/Semantics/SemanticAnalyzer.cs:158-166 | numbering an enum throws exactly when one of its declarations was never registered |
| `AnalyzerProperties.EnumsNumberingFails` | src/MonC/Semantics/SemanticAnalyzer.cs:76-78 | the same over a module's enums |
| `AnalyzerProperties.EnumValuesInOrder` | src/MonC/Semantics/SemanticAnalyzer.cs:158-166 | declarations with distinct registered names get the values 0, 1, 2, ... in order; the rest of each entry, and every other entry, are kept |
| `AnalyzerProperties.NumberEnumKeepsOthers` | src/MonC/Semantics/SemanticAnalyzer.cs:158-166 | numbering an enum leaves every entry its declarations do not name unchanged |
| `AnalyzerProperties.FlushedAt` | src/MonC/Semantics/SemanticAnalyzer.cs:88-92 | reported error i carries buffered message i and its node's span, or 0..0 when the node has no symbol |
| `AnalyzerProperties.ProcessReportsInOrder` | src/MonC/Semantics/SemanticAnalyzer.cs:65-96 | a completed `Process` appends every buffered diagnostic after the existing errors, in order, and empties the buffer |
| `AnalyzerProperties.ProcessFailsOnUnregisteredEnum` | src/MonC/Semantics/SemanticAnalyzer.cs:76-78 | `Process` throws exactly when a declaration of the module was never registered; it then reports nothing and the buffer stays filled |
| `AnalyzerProperties.RegisteredModuleProcesses` | src/MonC/Semantics/SemanticAnalyzer.cs:48-96 | a module that registered without error is then processed without error |
| `AnalyzerProperties.NoRegistrationAfterProcess` | src/MonC/Semantics/SemanticAnalyzer.cs:50-70 | once `Process` has run, `Register` is refused and changes nothing |

## Left out

- Host callbacks are modelled as counters and flags:
  - the break handler and the `Finished` event each count how often they are notified;
  - a yield token's `Start` and `OnFinished` are logged events;
  - a host-bound function is a function of the string table and the arguments that gives a finite sequence of continuations.
- Bound functions are treated as pure:
  - they cannot reach into the VM beyond the string table;
  - an enumerator's laziness, and any side effects of `MoveNext`, are not modelled.
- A yield token that completes synchronously re-enters `Continue` from inside `Start`. The model flattens this into the same run loop. This gives the same outcome because the outer loop exits right after the inner one.
- `VM.VirtualMachine.Continue`: the `while (_canContinue)` loop is run for at most `fuel` cycles. A program that runs longer than that is not followed to its end.
- Int32.And: the contract gives the sign and the bounds of the result. The exact bit pattern is its definition, bit by bit on the unsigned representation (`BitAnd`), and is not restated as an ensures.
- Int32.Or: likewise, the sign and the bounds of the result; the bit pattern is the definition `BitOr`.
- VMProperties.ArithmeticOperands: for `AND` and `OR` it states the sign and the bounds of the new accumulator, not its bit pattern, as for `Int32.And` and `Int32.Or`.
- Frames are values inside the call stack and the pool. Object identity and aliasing between a frame in the pool and a frame still referenced elsewhere are not modelled.
- `StackFrameMemory` is a map from slot to value; its growth policy is not modelled. `VMModule` is a record of the compiled module and the bound-function table.
- `Scope`, `ScopeCache`, `TypeManager`, `ExpressionChildrenVisitor` and `SemanticModule` are not part of this model.
  - A scope is a value; `Copy()` is value semantics.
  - The scope cache the assignment pass reads is a map from node id to scope. For a node it holds no entry for, `ProcessAssignments.ScopeOf` gives an empty scope. This mirrors `ScopeManager.GetScope` (src/MonC/Semantics/Scoping/ScopeManager.cs:28-34) and is an assumption about `ScopeCache.GetScope`.
  - The expression children visitor is taken to hand over every node of an expression in pre-order.
  - The type manager is a list of registered types.
  - The expression-result-type table that `Process` returns is left out.
- The analysis passes that `Process` runs are not modelled: `PrepareForProcessing`'s type resolution, and the struct and function analyzers and validators. What each reports through `AddError` is an input (`PassReports`).
- The scope walker and the scope manager come from two revisions of the source:
  - the walker uses `*Leaf` types with a four-argument constructor;
  - the manager uses `*Node` types and a three-argument constructor.
  The statement kinds and the walk are modelled once (`Statements`). The walker's separate statement and expression visitors are the manager itself, as `ProcessFunction` passes it.
- The traversal and assignment resolution use the leaf tree (`Leaves`), whose declaration, return, function body and else-body are optional. The scope passes use a tree without optional parts, plus `continue` and expression statements.
- `Scoping.ScopeManager.VisitStatement` sends every statement to `VisitDefaultStatement`. The routing of `NoOpStatementVisitor` is not part of this model.
- `VisitTopLevelStatement`, `VisitSpecifier` and `VisitTypeSpecifier` each apply the current scope to the node, the same way `ApplyScope` does. They are not modelled separately.
- `Scoping.ScopeManager.ApplyScope` requires a current scope. In the source, a null `CurrentScope` would throw; the walker always sets it first.
- `ProcessAssignments.ProcessAssignmentsVisitor.VisitOther` excludes unary operations, because the visitor in this revision has no unary handler.
- Diagnostic spans that the source never sets are modelled as 0, the C# default.
- Object identity is modelled by a natural-number node id. Every node the passes use as a dictionary key carries one: declarations, binary operations, and struct, function and enum nodes. The dictionaries are keyed by that id, as the source's are keyed by object reference. Two structurally equal nodes with different ids are therefore kept apart.
