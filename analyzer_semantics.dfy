/** What the semantic analyzer's driver (src/MonC/Semantics/SemanticAnalyzer.cs) does to its
    state: module registration with duplicate detection, enum numbering, the one-time
    preparation and the buffering of diagnostics until the end of `Process`. The analysis
    passes it runs on structs and functions are not part of this model; what they report is
    an input. */
module AnalyzerSemantics {
  import opened Wrappers
  import opened Parsing
  import opened ILModules
  import opened Registration

  datatype Primitive = Void | Int

  /** A type handed to the type manager, in registration order. */
  datatype TypeEntry = PrimitiveType(primitive: Primitive, name: string) | StructType(structNode: StructNode)

  datatype FunctionNode = FunctionNode(id: NodeId, name: string)
  datatype EnumDeclarationNode = EnumDeclarationNode(id: NodeId, name: string)
  datatype EnumNode = EnumNode(id: NodeId, name: string, declarations: seq<EnumDeclarationNode>)
  datatype StructNode = StructNode(id: NodeId, name: string)

  /** A parsed module; its symbol map is listed in the dictionary's enumeration order. */
  datatype ParseModule = ParseModule(
    symbolMap: seq<(NodeId, Symbol)>,
    functions: seq<FunctionNode>,
    enums: seq<EnumNode>,
    structs: seq<StructNode>)

  /** A struct value: `Value` is 0 until the enum is analyzed. */
  datatype EnumDeclarationInfo = EnumDeclarationInfo(enumNode: EnumNode, declaration: EnumDeclarationNode, value: int)

  /** The tables shared by every registered module. */
  datatype Context = Context(
    symbolMap: map<NodeId, Symbol>,
    functions: map<string, FunctionNode>,
    enumInfo: map<string, EnumDeclarationInfo>,
    structs: map<string, StructNode>)

  /** A diagnostic reported through `AddError`, waiting for the end of `Process`. */
  datatype PendingError = PendingError(message: string, node: NodeId)

  /** The exceptions the driver can raise: registering after processing started, a node
      already in the symbol map (`Dictionary.Add`), an enum declaration never registered
      (the dictionary indexer). */
  datatype AnalyzerError = InvalidOperation | DuplicateKey | KeyNotFound

  /** What the passes not modelled here report: the one-time preparation, and the passes run
      for each struct and each function, keyed by node (a node absent reports nothing). */
  datatype PassReports = PassReports(
    preparation: seq<PendingError>,
    structs: map<NodeId, seq<PendingError>>,
    functions: map<NodeId, seq<PendingError>>)

  datatype Analyzer = Analyzer(
    errors: seq<ParseError>,
    context: Context,
    types: seq<TypeEntry>,
    hasStartedProcessing: bool,
    errorsToProcess: seq<PendingError>,
    preparations: nat)

  /** An analyzer appending to `errors`, with the two built-in types registered. */
  function NewAnalyzer(errors: seq<ParseError>): (a: Analyzer)
    ensures a.types == [PrimitiveType(Void, "void"), PrimitiveType(Int, "int")]
    ensures !a.hasStartedProcessing && a.preparations == 0 && a.errorsToProcess == []
    ensures a.errors == errors
  {
    Analyzer(errors, Context(map[], map[], map[], map[]),
             [PrimitiveType(Void, "void"), PrimitiveType(Int, "int")], false, [], 0)
  }

  /** `AddSymbols`: add each mapping in order; the first key already present throws, leaving
      the mappings added before it in place. */
  function AddSymbols(symbols: map<NodeId, Symbol>, entries: seq<(NodeId, Symbol)>)
    : (r: (map<NodeId, Symbol>, Option<AnalyzerError>))
    ensures r.1 == None || r.1 == Some(DuplicateKey)
  {
    if |entries| == 0 then (symbols, None)
    else
      var before := AddSymbols(symbols, entries[..|entries| - 1]);
      var entry := entries[|entries| - 1];
      if before.1.Some? then before
      else if entry.0 in before.0 then (before.0, Some(DuplicateKey))
      else (before.0[entry.0 := entry.1], None)
  }

  function FunctionName(f: FunctionNode): string { f.name }
  function StructName(s: StructNode): string { s.name }
  function FunctionId(f: FunctionNode): NodeId { f.id }
  function StructId(s: StructNode): NodeId { s.id }

  /** The nodes, in order, each offered under the name `name` gives it. */
  function Entries<T>(nodes: seq<T>, name: T -> string): (r: seq<Named<T>>)
    ensures |r| == |nodes|
  {
    if |nodes| == 0 then []
    else Entries(nodes[..|nodes| - 1], name) + [Named(name(nodes[|nodes| - 1]), nodes[|nodes| - 1])]
  }

  /** The declarations of one enum, each offered under its own name. */
  function DeclarationEntries(enumNode: EnumNode, declarations: seq<EnumDeclarationNode>)
    : (r: seq<Named<EnumDeclarationInfo>>)
    ensures |r| == |declarations|
  {
    if |declarations| == 0 then []
    else
      var d := declarations[|declarations| - 1];
      DeclarationEntries(enumNode, declarations[..|declarations| - 1])
      + [Named(d.name, EnumDeclarationInfo(enumNode, d, 0))]
  }

  /** How many declarations the enums hold together. */
  function DeclarationCount(enums: seq<EnumNode>): nat
  {
    if |enums| == 0 then 0 else DeclarationCount(enums[..|enums| - 1]) + |enums[|enums| - 1].declarations|
  }

  /** The declarations of every enum, enum by enum. */
  function EnumEntries(enums: seq<EnumNode>): (r: seq<Named<EnumDeclarationInfo>>)
    ensures |r| == DeclarationCount(enums)
  {
    if |enums| == 0 then []
    else EnumEntries(enums[..|enums| - 1])
         + DeclarationEntries(enums[|enums| - 1], enums[|enums| - 1].declarations)
  }

  /** The type registered for each enum declaration added: an int named after its enum. */
  function EnumTypes(added: seq<EnumDeclarationInfo>): (r: seq<TypeEntry>)
    ensures |r| == |added|
  {
    if |added| == 0 then []
    else EnumTypes(added[..|added| - 1]) + [PrimitiveType(Int, added[|added| - 1].enumNode.name)]
  }

  function StructTypes(added: seq<StructNode>): (r: seq<TypeEntry>)
    ensures |r| == |added|
  {
    if |added| == 0 then [] else StructTypes(added[..|added| - 1]) + [StructType(added[|added| - 1])]
  }

  function RegisterFunctions(a: Analyzer, functions: seq<FunctionNode>): Analyzer
  {
    var r := RegisterAll(a.context.functions, Entries(functions, FunctionName));
    a.(context := a.context.(functions := r.table),
       errors := a.errors + Repeat(ParseError("Duplicate function", 0, 0), r.duplicates))
  }

  function RegisterEnums(a: Analyzer, enums: seq<EnumNode>): Analyzer
  {
    RegisterEnumEntries(a, EnumEntries(enums))
  }

  function RegisterEnumEntries(a: Analyzer, entries: seq<Named<EnumDeclarationInfo>>): Analyzer
  {
    var r := RegisterAll(a.context.enumInfo, entries);
    a.(context := a.context.(enumInfo := r.table),
       errors := a.errors + Repeat(ParseError("Duplicate enum", 0, 0), r.duplicates),
       types := a.types + EnumTypes(r.added))
  }

  function RegisterStructs(a: Analyzer, structs: seq<StructNode>): Analyzer
  {
    var r := RegisterAll(a.context.structs, Entries(structs, StructName));
    a.(context := a.context.(structs := r.table),
       errors := a.errors + Repeat(ParseError("Duplicate struct", 0, 0), r.duplicates),
       types := a.types + StructTypes(r.added))
  }

  /** `Register`: refused once processing has started; otherwise the symbols, then functions,
      enums and structs, stopping at a duplicate symbol key. */
  function Register(a: Analyzer, parsed: ParseModule): (r: (Analyzer, Option<AnalyzerError>))
  {
    if a.hasStartedProcessing then (a, Some(InvalidOperation))
    else
      var symbols := AddSymbols(a.context.symbolMap, parsed.symbolMap);
      var a1 := a.(context := a.context.(symbolMap := symbols.0));
      if symbols.1.Some? then (a1, symbols.1)
      else (RegisterStructs(RegisterEnums(RegisterFunctions(a1, parsed.functions), parsed.enums),
                            parsed.structs), None)
  }

  /** `AnalyzeEnum`: the declarations, in order, get the values 0, 1, 2, ...; a declaration
      whose name was never registered throws. */
  function NumberEnum(info: map<string, EnumDeclarationInfo>, declarations: seq<EnumDeclarationNode>)
    : (r: (map<string, EnumDeclarationInfo>, Option<AnalyzerError>))
    ensures r.0.Keys == info.Keys
    ensures r.1 == None || r.1 == Some(KeyNotFound)
  {
    if |declarations| == 0 then (info, None)
    else
      var before := NumberEnum(info, declarations[..|declarations| - 1]);
      var name := declarations[|declarations| - 1].name;
      if before.1.Some? then before
      else if name !in before.0 then (before.0, Some(KeyNotFound))
      else (before.0[name := before.0[name].(value := |declarations| - 1)], None)
  }

  /** `AnalyzeEnum` for each enum of the module, in order, stopping at the first throw. */
  function NumberEnums(info: map<string, EnumDeclarationInfo>, enums: seq<EnumNode>)
    : (r: (map<string, EnumDeclarationInfo>, Option<AnalyzerError>))
    ensures r.0.Keys == info.Keys
    ensures r.1 == None || r.1 == Some(KeyNotFound)
  {
    if |enums| == 0 then (info, None)
    else
      var before := NumberEnums(info, enums[..|enums| - 1]);
      if before.1.Some? then before else NumberEnum(before.0, enums[|enums| - 1].declarations)
  }

  /** What the passes report for one node. */
  function Reported(reports: map<NodeId, seq<PendingError>>, node: NodeId): seq<PendingError>
  {
    if node in reports then reports[node] else []
  }

  /** What the passes report for each node, concatenated in order. */
  function Collect(reports: map<NodeId, seq<PendingError>>, nodes: seq<NodeId>): seq<PendingError>
  {
    if |nodes| == 0 then [] else Collect(reports, nodes[..|nodes| - 1]) + Reported(reports, nodes[|nodes| - 1])
  }

  /** The identities of the nodes, in order. */
  function Ids<T>(nodes: seq<T>, id: T -> NodeId): (r: seq<NodeId>)
    ensures |r| == |nodes|
  {
    if |nodes| == 0 then [] else Ids(nodes[..|nodes| - 1], id) + [id(nodes[|nodes| - 1])]
  }

  /** The symbol recorded for a node, or `default(Symbol)` when there is none. */
  function SymbolOf(symbols: map<NodeId, Symbol>, node: NodeId): Symbol
  {
    if node in symbols then symbols[node] else Symbol(0, 0)
  }

  /** The buffered diagnostics as reported: each with the source span of its node. */
  function Flushed(symbols: map<NodeId, Symbol>, pending: seq<PendingError>): (r: seq<ParseError>)
    ensures |r| == |pending|
  {
    if |pending| == 0 then []
    else
      var e := pending[|pending| - 1];
      Flushed(symbols, pending[..|pending| - 1])
      + [ParseError(e.message, SymbolOf(symbols, e.node).start, SymbolOf(symbols, e.node).end)]
  }

  /** `PrepareForProcessing` and the flag, on the first `Process` call only. */
  function StartProcessing(a: Analyzer, reports: PassReports): (r: Analyzer)
    ensures r.hasStartedProcessing
  {
    if a.hasStartedProcessing then a
    else a.(preparations := a.preparations + 1,
            errorsToProcess := a.errorsToProcess + reports.preparation,
            hasStartedProcessing := true)
  }

  /** `Process`: prepare if this is the first call, number the enums, run the struct and
      function passes, then move the buffered diagnostics, in order, to the error list. */
  function Process(a: Analyzer, parsed: ParseModule, reports: PassReports): (r: (Analyzer, Option<AnalyzerError>))
    ensures r.0.hasStartedProcessing
    ensures r.0.preparations == a.preparations + (if a.hasStartedProcessing then 0 else 1)
    ensures r.1 == None || r.1 == Some(KeyNotFound)
  {
    var a1 := StartProcessing(a, reports);
    var numbered := NumberEnums(a1.context.enumInfo, parsed.enums);
    var a2 := a1.(context := a1.context.(enumInfo := numbered.0));
    if numbered.1.Some? then (a2, numbered.1)
    else
      (a2.(errors := a2.errors + Flushed(a2.context.symbolMap, Pending(a, parsed, reports)),
           errorsToProcess := []), None)
  }

  /** The diagnostics `Process` reports when it completes: those buffered before it, then the
      preparation's (on the first call only), then the struct passes', then the function
      passes'. */
  function Pending(a: Analyzer, parsed: ParseModule, reports: PassReports): seq<PendingError>
  {
    StartProcessing(a, reports).errorsToProcess
    + Collect(reports.structs, Ids(parsed.structs, StructId))
    + Collect(reports.functions, Ids(parsed.functions, FunctionId))
  }

  /** Once adding a symbol throws, the mappings after it are not attempted. */
  lemma {:induction false} AddSymbolsStops(symbols: map<NodeId, Symbol>, entries: seq<(NodeId, Symbol)>, n: nat)
    requires n <= |entries| && AddSymbols(symbols, entries[..n]).1.Some?
    ensures AddSymbols(symbols, entries) == AddSymbols(symbols, entries[..n])
    decreases |entries| - n
  {
    if n < |entries| {
      assert entries[..n + 1][..n] == entries[..n];
      AddSymbolsStops(symbols, entries, n + 1);
    } else {
      assert entries[..n] == entries;
    }
  }

  /** Once a declaration's lookup throws, the declarations after it are not numbered. */
  lemma {:induction false} NumberEnumStops(info: map<string, EnumDeclarationInfo>, declarations: seq<EnumDeclarationNode>, n: nat)
    requires n <= |declarations| && NumberEnum(info, declarations[..n]).1.Some?
    ensures NumberEnum(info, declarations) == NumberEnum(info, declarations[..n])
    decreases |declarations| - n
  {
    if n < |declarations| {
      assert declarations[..n + 1][..n] == declarations[..n];
      NumberEnumStops(info, declarations, n + 1);
    } else {
      assert declarations[..n] == declarations;
    }
  }

  /** Once one enum throws, numbering the enums after it is not attempted. */
  lemma {:induction false} NumberEnumsStops(info: map<string, EnumDeclarationInfo>, enums: seq<EnumNode>, n: nat)
    requires n <= |enums| && NumberEnums(info, enums[..n]).1.Some?
    ensures NumberEnums(info, enums) == NumberEnums(info, enums[..n])
    decreases |enums| - n
  {
    if n < |enums| {
      assert enums[..n + 1][..n] == enums[..n];
      NumberEnumsStops(info, enums, n + 1);
    } else {
      assert enums[..n] == enums;
    }
  }

  /** Registering one more function: a name already taken reports a duplicate, any other
      is added. */
  lemma {:induction false} RegisterFunctionsStep(a: Analyzer, functions: seq<FunctionNode>, f: FunctionNode)
    ensures var b := RegisterFunctions(a, functions);
            RegisterFunctions(a, functions + [f])
            == if f.name in b.context.functions then b.(errors := b.errors + [ParseError("Duplicate function", 0, 0)])
               else b.(context := b.context.(functions := b.context.functions[f.name := f]))
  {
    assert (functions + [f])[..|functions|] == functions;
    var entries := Entries(functions, FunctionName);
    assert Entries(functions + [f], FunctionName) == entries + [Named(f.name, f)];
    RegisterAllStep(a.context.functions, entries, Named(f.name, f));
    RepeatStep(a.errors, ParseError("Duplicate function", 0, 0), RegisterAll(a.context.functions, entries).duplicates);
  }

  lemma {:induction false} RegisterStructsStep(a: Analyzer, structs: seq<StructNode>, s: StructNode)
    ensures var b := RegisterStructs(a, structs);
            RegisterStructs(a, structs + [s])
            == if s.name in b.context.structs then b.(errors := b.errors + [ParseError("Duplicate struct", 0, 0)])
               else b.(context := b.context.(structs := b.context.structs[s.name := s]), types := b.types + [StructType(s)])
  {
    assert (structs + [s])[..|structs|] == structs;
    var entries := Entries(structs, StructName);
    assert Entries(structs + [s], StructName) == entries + [Named(s.name, s)];
    RegisterAllStep(a.context.structs, entries, Named(s.name, s));
    var r := RegisterAll(a.context.structs, entries);
    RepeatStep(a.errors, ParseError("Duplicate struct", 0, 0), r.duplicates);
    assert (r.added + [s])[..|r.added|] == r.added;
    assert a.types + StructTypes(r.added + [s]) == a.types + StructTypes(r.added) + [StructType(s)];
  }

  lemma {:induction false} RegisterEnumEntriesStep(a: Analyzer, entries: seq<Named<EnumDeclarationInfo>>, e: Named<EnumDeclarationInfo>)
    ensures var b := RegisterEnumEntries(a, entries);
            RegisterEnumEntries(a, entries + [e])
            == if e.name in b.context.enumInfo then b.(errors := b.errors + [ParseError("Duplicate enum", 0, 0)])
               else b.(context := b.context.(enumInfo := b.context.enumInfo[e.name := e.item]),
                       types := b.types + [PrimitiveType(Int, e.item.enumNode.name)])
  {
    RegisterAllStep(a.context.enumInfo, entries, e);
    var r := RegisterAll(a.context.enumInfo, entries);
    RepeatStep(a.errors, ParseError("Duplicate enum", 0, 0), r.duplicates);
    assert (r.added + [e.item])[..|r.added|] == r.added;
    assert a.types + EnumTypes(r.added + [e.item]) == a.types + EnumTypes(r.added) + [PrimitiveType(Int, e.item.enumNode.name)];
  }

  lemma {:induction false} CollectStep(reports: map<NodeId, seq<PendingError>>, nodes: seq<NodeId>, node: NodeId)
    ensures Collect(reports, nodes + [node]) == Collect(reports, nodes) + Reported(reports, node)
  {
    assert (nodes + [node])[..|nodes|] == nodes;
  }

  lemma {:induction false} FlushedStep(symbols: map<NodeId, Symbol>, pending: seq<PendingError>, e: PendingError)
    ensures Flushed(symbols, pending + [e])
            == Flushed(symbols, pending) + [ParseError(e.message, SymbolOf(symbols, e.node).start, SymbolOf(symbols, e.node).end)]
  {
    assert (pending + [e])[..|pending|] == pending;
  }
}
