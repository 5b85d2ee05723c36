/** The semantic analyzer's driver, src/MonC/Semantics/SemanticAnalyzer.cs, as a class whose
    methods update its fields in place; each is proved to do what the function of the same
    name in `AnalyzerSemantics` says. */
module Semantics {
  import opened Wrappers
  import opened Parsing
  import opened ILModules
  import opened Registration
  import opened AnalyzerSemantics

  class SemanticAnalyzer {
    var errors: seq<ParseError>
    var symbolMap: map<NodeId, Symbol>
    var functions: map<string, FunctionNode>
    var enumInfo: map<string, EnumDeclarationInfo>
    var structs: map<string, StructNode>
    var types: seq<TypeEntry>
    var hasStartedProcessing: bool
    var errorsToProcess: seq<PendingError>
    var preparations: nat

    function State(): Analyzer
      reads this
    {
      Analyzer(errors, Context(symbolMap, functions, enumInfo, structs), types,
               hasStartedProcessing, errorsToProcess, preparations)
    }

    /** The preparation has run exactly when processing has started, and at most once. */
    predicate Valid()
      reads this
    {
      preparations == if hasStartedProcessing then 1 else 0
    }

    constructor (errors: seq<ParseError>)
      ensures State() == NewAnalyzer(errors) && Valid()
    {
      this.errors := errors;
      symbolMap, functions, enumInfo, structs := map[], map[], map[], map[];
      types := [PrimitiveType(Void, "void")];
      hasStartedProcessing, errorsToProcess, preparations := false, [], 0;
      new;
      types := types + [PrimitiveType(Int, "int")];
    }

    method Register(parsed: ParseModule) returns (fault: Option<AnalyzerError>)
      requires Valid()
      modifies this
      ensures (State(), fault) == AnalyzerSemantics.Register(old(State()), parsed) && Valid()
    {
      if hasStartedProcessing {
        return Some(InvalidOperation);
      }
      fault := AddSymbols(parsed.symbolMap);
      if fault.Some? {
        return;
      }
      RegisterFunctions(parsed.functions);
      RegisterEnums(parsed.enums);
      RegisterStructs(parsed.structs);
    }

    method AddSymbols(entries: seq<(NodeId, Symbol)>) returns (fault: Option<AnalyzerError>)
      modifies this
      ensures (symbolMap, fault) == AnalyzerSemantics.AddSymbols(old(symbolMap), entries)
      ensures State() == old(State()).(context := old(State()).context.(symbolMap := symbolMap))
    {
      ghost var start := State();
      for i := 0 to |entries|
        invariant (symbolMap, None) == AnalyzerSemantics.AddSymbols(start.context.symbolMap, entries[..i])
        invariant State() == start.(context := start.context.(symbolMap := symbolMap))
      {
        assert entries[..i + 1][..i] == entries[..i];
        if entries[i].0 in symbolMap {
          AddSymbolsStops(start.context.symbolMap, entries, i + 1);
          return Some(DuplicateKey);
        }
        symbolMap := symbolMap[entries[i].0 := entries[i].1];
      }
      assert entries[..|entries|] == entries;
      fault := None;
    }

    method RegisterFunctions(parsed: seq<FunctionNode>)
      modifies this
      ensures State() == AnalyzerSemantics.RegisterFunctions(old(State()), parsed)
    {
      ghost var start := State();
      for i := 0 to |parsed|
        invariant State() == AnalyzerSemantics.RegisterFunctions(start, parsed[..i])
      {
        assert parsed[..i + 1] == parsed[..i] + [parsed[i]];
        RegisterFunctionsStep(start, parsed[..i], parsed[i]);
        var definition := parsed[i];
        if definition.name in functions {
          errors := errors + [ParseError("Duplicate function", 0, 0)];
        } else {
          functions := functions[definition.name := definition];
        }
      }
      assert parsed[..|parsed|] == parsed;
    }

    method RegisterEnums(parsed: seq<EnumNode>)
      modifies this
      ensures State() == AnalyzerSemantics.RegisterEnums(old(State()), parsed)
    {
      ghost var start := State();
      for i := 0 to |parsed|
        invariant State() == RegisterEnumEntries(start, EnumEntries(parsed[..i]))
      {
        assert parsed[..i + 1][..i] == parsed[..i];
        RegisterDeclarations(parsed[i], start, EnumEntries(parsed[..i]));
      }
      assert parsed[..|parsed|] == parsed;
    }

    /** The inner loop of `RegisterEnums`: the declarations of one enum, continuing a
        registration that has offered the entries `done` so far. */
    method RegisterDeclarations(enumNode: EnumNode, ghost start: Analyzer, ghost done: seq<Named<EnumDeclarationInfo>>)
      requires State() == RegisterEnumEntries(start, done)
      modifies this
      ensures State() == RegisterEnumEntries(start, done + DeclarationEntries(enumNode, enumNode.declarations))
    {
      assert done + DeclarationEntries(enumNode, enumNode.declarations[..0]) == done;
      for j := 0 to |enumNode.declarations|
        invariant State() == RegisterEnumEntries(start, done + DeclarationEntries(enumNode, enumNode.declarations[..j]))
      {
        var declaration := enumNode.declarations[j];
        assert enumNode.declarations[..j + 1][..j] == enumNode.declarations[..j];
        ghost var before := done + DeclarationEntries(enumNode, enumNode.declarations[..j]);
        ghost var entry := Named(declaration.name, EnumDeclarationInfo(enumNode, declaration, 0));
        assert done + DeclarationEntries(enumNode, enumNode.declarations[..j + 1]) == before + [entry];
        RegisterEnumEntriesStep(start, before, entry);
        if declaration.name in enumInfo {
          errors := errors + [ParseError("Duplicate enum", 0, 0)];
        } else {
          enumInfo := enumInfo[declaration.name := EnumDeclarationInfo(enumNode, declaration, 0)];
          types := types + [PrimitiveType(Int, enumNode.name)];
        }
      }
      assert enumNode.declarations[..|enumNode.declarations|] == enumNode.declarations;
    }

    method RegisterStructs(parsed: seq<StructNode>)
      modifies this
      ensures State() == AnalyzerSemantics.RegisterStructs(old(State()), parsed)
    {
      ghost var start := State();
      for i := 0 to |parsed|
        invariant State() == AnalyzerSemantics.RegisterStructs(start, parsed[..i])
      {
        assert parsed[..i + 1] == parsed[..i] + [parsed[i]];
        RegisterStructsStep(start, parsed[..i], parsed[i]);
        var structNode := parsed[i];
        if structNode.name in structs {
          errors := errors + [ParseError("Duplicate struct", 0, 0)];
        } else {
          structs := structs[structNode.name := structNode];
          types := types + [StructType(structNode)];
        }
      }
      assert parsed[..|parsed|] == parsed;
    }

    /** `AddError`: buffer a diagnostic until the end of `Process`. */
    method AddError(message: string, node: NodeId)
      modifies this
      ensures State() == old(State()).(errorsToProcess := old(errorsToProcess) + [PendingError(message, node)])
    {
      errorsToProcess := errorsToProcess + [PendingError(message, node)];
    }

    /** The passes run for one node, which report through `AddError`. */
    method ReportAll(reported: seq<PendingError>)
      modifies this
      ensures State() == old(State()).(errorsToProcess := old(errorsToProcess) + reported)
    {
      for i := 0 to |reported|
        invariant State() == old(State()).(errorsToProcess := old(errorsToProcess) + reported[..i])
      {
        assert reported[..i + 1] == reported[..i] + [reported[i]];
        AddError(reported[i].message, reported[i].node);
      }
      assert reported[..|reported|] == reported;
    }

    method PrepareForProcessing(reports: PassReports)
      modifies this
      ensures State() == old(State()).(preparations := old(preparations) + 1,
                                       errorsToProcess := old(errorsToProcess) + reports.preparation)
    {
      preparations := preparations + 1;
      ReportAll(reports.preparation);
    }

    method AnalyzeEnum(enumNode: EnumNode) returns (fault: Option<AnalyzerError>)
      modifies this
      ensures (enumInfo, fault) == NumberEnum(old(enumInfo), enumNode.declarations)
      ensures State() == old(State()).(context := old(State()).context.(enumInfo := enumInfo))
    {
      ghost var start := State();
      var value := 0;
      for i := 0 to |enumNode.declarations|
        invariant value == i
        invariant (enumInfo, None) == NumberEnum(start.context.enumInfo, enumNode.declarations[..i])
        invariant State() == start.(context := start.context.(enumInfo := enumInfo))
      {
        var declaration := enumNode.declarations[i];
        assert enumNode.declarations[..i + 1][..i] == enumNode.declarations[..i];
        if declaration.name !in enumInfo {
          NumberEnumStops(start.context.enumInfo, enumNode.declarations, i + 1);
          return Some(KeyNotFound);
        }
        var declarationInfo := enumInfo[declaration.name];
        declarationInfo := declarationInfo.(value := value);
        value := value + 1;
        enumInfo := enumInfo[declaration.name := declarationInfo];
      }
      assert enumNode.declarations[..|enumNode.declarations|] == enumNode.declarations;
      fault := None;
    }

    method Process(parsed: ParseModule, reports: PassReports) returns (fault: Option<AnalyzerError>)
      requires Valid()
      modifies this
      ensures (State(), fault) == AnalyzerSemantics.Process(old(State()), parsed, reports) && Valid()
    {
      if !hasStartedProcessing {
        PrepareForProcessing(reports);
        hasStartedProcessing := true;
      }
      fault := AnalyzeEnums(parsed.enums);
      if fault.Some? {
        return;
      }
      AnalyzeStructs(parsed.structs, reports);
      AnalyzeFunctions(parsed.functions, reports);
      FlushErrors();
    }

    method AnalyzeEnums(enums: seq<EnumNode>) returns (fault: Option<AnalyzerError>)
      modifies this
      ensures (enumInfo, fault) == NumberEnums(old(enumInfo), enums)
      ensures State() == old(State()).(context := old(State()).context.(enumInfo := enumInfo))
    {
      ghost var start := State();
      for i := 0 to |enums|
        invariant (enumInfo, None) == NumberEnums(start.context.enumInfo, enums[..i])
        invariant State() == start.(context := start.context.(enumInfo := enumInfo))
      {
        assert enums[..i + 1][..i] == enums[..i];
        fault := AnalyzeEnum(enums[i]);
        if fault.Some? {
          NumberEnumsStops(start.context.enumInfo, enums, i + 1);
          return;
        }
      }
      assert enums[..|enums|] == enums;
      fault := None;
    }

    method AnalyzeStructs(parsed: seq<StructNode>, reports: PassReports)
      modifies this
      ensures State() == old(State()).(errorsToProcess := old(errorsToProcess)
                                         + Collect(reports.structs, Ids(parsed, StructId)))
    {
      AnalyzeNodes(reports.structs, Ids(parsed, StructId));
    }

    method AnalyzeFunctions(parsed: seq<FunctionNode>, reports: PassReports)
      modifies this
      ensures State() == old(State()).(errorsToProcess := old(errorsToProcess)
                                         + Collect(reports.functions, Ids(parsed, FunctionId)))
    {
      AnalyzeNodes(reports.functions, Ids(parsed, FunctionId));
    }

    /** Run the passes over each node in turn; each buffers what it reports for that node. */
    method AnalyzeNodes(reports: map<NodeId, seq<PendingError>>, ids: seq<NodeId>)
      modifies this
      ensures State() == old(State()).(errorsToProcess := old(errorsToProcess) + Collect(reports, ids))
    {
      for i := 0 to |ids|
        invariant State() == old(State()).(errorsToProcess := old(errorsToProcess) + Collect(reports, ids[..i]))
      {
        assert ids[..i + 1] == ids[..i] + [ids[i]];
        CollectStep(reports, ids[..i], ids[i]);
        ReportAll(Reported(reports, ids[i]));
      }
      assert ids[..|ids|] == ids;
    }

    /** Report every buffered diagnostic, in order, with its node's source span, then clear
        the buffer. */
    method FlushErrors()
      modifies this
      ensures State() == old(State()).(errors := old(errors) + Flushed(symbolMap, old(errorsToProcess)),
                                       errorsToProcess := [])
    {
      var pending := errorsToProcess;
      for i := 0 to |pending|
        invariant errors == old(errors) + Flushed(symbolMap, pending[..i])
        invariant State() == old(State()).(errors := errors)
      {
        assert pending[..i + 1] == pending[..i] + [pending[i]];
        FlushedStep(symbolMap, pending[..i], pending[i]);
        var symbol := if pending[i].node in symbolMap then symbolMap[pending[i].node] else Symbol(0, 0);
        errors := errors + [ParseError(pending[i].message, symbol.start, symbol.end)];
      }
      assert pending[..|pending|] == pending;
      errorsToProcess := [];
    }
  }
}
