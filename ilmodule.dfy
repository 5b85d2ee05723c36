/** The compiled module format handed from the bytecode compiler to the virtual machine:
    instructions, per-function code with debug symbols, and the module's tables
    (src/MonC/Codegen/ILModule.cs). */
module ILModules {
  import opened Int32

  /** The closed set of 23 opcodes the interpreter dispatches on. A C# enum can also hold
      a value outside its declared members; `Undefined` stands for such a value. */
  datatype OpCode =
    | NOOP | BREAK | LOAD | READ | WRITE | PUSHARG | CALL | RETURN
    | CMPE | CMPLT | CMPLTE | JUMP | JUMPZ | JUMPNZ | BOOL | LNOT
    | ADD | SUB | AND | OR | MUL | DIV | MOD
    | Undefined(value: int)

  datatype Instruction = Instruction(op: OpCode, immediate: int32)

  /** A debug symbol: the source span an instruction or syntax node came from. */
  datatype Symbol = Symbol(start: int, end: int)

  datatype KeyValuePair = KeyValuePair(key: string, value: int32)

  /** One defined (bytecode) function. */
  datatype ILFunction = ILFunction(
    code: seq<Instruction>,
    symbols: map<int, Symbol>,
    /** Indices of the instructions whose immediate value is a string id. */
    stringInstructions: seq<int>)
  {
    /** `ILFunction.Empty()`: a function with no code, no symbols and no string instructions. */
    static function Empty(): (f: ILFunction)
      ensures |f.code| == 0
      ensures f.symbols == map[]
      ensures |f.stringInstructions| == 0
    {
      ILFunction([], map[], [])
    }
  }

  datatype ILModule = ILModule(
    definedFunctions: seq<ILFunction>,
    undefinedFunctionNames: seq<string>,
    exportedFunctions: seq<KeyValuePair>,
    exportedEnumValues: seq<KeyValuePair>,
    strings: seq<string>)
  {
    /** `new ILModule()`: every table starts out empty. */
    static function New(): (m: ILModule)
      ensures |m.definedFunctions| == 0 && |m.undefinedFunctionNames| == 0
      ensures |m.exportedFunctions| == 0 && |m.exportedEnumValues| == 0
      ensures |m.strings| == 0
    {
      ILModule([], [], [], [], [])
    }
  }
}
