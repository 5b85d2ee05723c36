/** What the semantic analyzer's driver promises, proved about the functions of
    `AnalyzerSemantics`: the first definition of a name wins and every later one is reported,
    symbols are added only under fresh keys, enum declarations are numbered 0, 1, 2, ... in
    order, `Process` fails exactly on an enum declaration that was never registered, and the
    buffered diagnostics are reported in order with their source spans. */
module AnalyzerProperties {
  import opened Wrappers
  import opened Parsing
  import opened ILModules
  import opened Registration
  import opened AnalyzerSemantics

  /** The names one enum declares. */
  function DeclarationNames(declarations: seq<EnumDeclarationNode>): set<string>
  {
    if |declarations| == 0 then {}
    else DeclarationNames(declarations[..|declarations| - 1]) + {declarations[|declarations| - 1].name}
  }

  /** The names every enum of a module declares. */
  function EnumDeclarationNames(enums: seq<EnumNode>): set<string>
  {
    if |enums| == 0 then {}
    else EnumDeclarationNames(enums[..|enums| - 1]) + DeclarationNames(enums[|enums| - 1].declarations)
  }

  lemma {:induction false} DeclarationNamesAt(declarations: seq<EnumDeclarationNode>)
    ensures forall name :: name in DeclarationNames(declarations)
              <==> exists i :: 0 <= i < |declarations| && declarations[i].name == name
    decreases |declarations|
  {
    if |declarations| != 0 {
      var front := declarations[..|declarations| - 1];
      DeclarationNamesAt(front);
      forall name
        ensures name in DeclarationNames(declarations)
                <==> exists i :: 0 <= i < |declarations| && declarations[i].name == name
      {
        if name in DeclarationNames(front) {
          var i :| 0 <= i < |front| && front[i].name == name;
          assert declarations[i].name == name;
        }
        if exists i :: 0 <= i < |declarations| && declarations[i].name == name {
          var i :| 0 <= i < |declarations| && declarations[i].name == name;
          if i < |front| {
            assert front[i].name == name;
          }
        }
      }
    }
  }

  /** Entry `i` offers node `i` under its own name. */
  lemma {:induction false} EntriesAt<T>(nodes: seq<T>, name: T -> string, i: nat)
    requires i < |nodes|
    ensures Entries(nodes, name)[i] == Named(name(nodes[i]), nodes[i])
    decreases |nodes|
  {
    if i < |nodes| - 1 {
      EntriesAt(nodes[..|nodes| - 1], name, i);
    }
  }

  lemma {:induction false} DeclarationEntriesNames(enumNode: EnumNode, declarations: seq<EnumDeclarationNode>)
    ensures Names(DeclarationEntries(enumNode, declarations)) == DeclarationNames(declarations)
    decreases |declarations|
  {
    if |declarations| != 0 {
      var front := declarations[..|declarations| - 1];
      var d := declarations[|declarations| - 1];
      DeclarationEntriesNames(enumNode, front);
      var last := [Named(d.name, EnumDeclarationInfo(enumNode, d, 0))];
      NamesAppend(DeclarationEntries(enumNode, front), last);
      assert last[0].name == d.name;
      assert Names(last) == {d.name};
    }
  }

  lemma {:induction false} EnumEntriesNames(enums: seq<EnumNode>)
    ensures Names(EnumEntries(enums)) == EnumDeclarationNames(enums)
    decreases |enums|
  {
    if |enums| != 0 {
      var front := enums[..|enums| - 1];
      var e := enums[|enums| - 1];
      EnumEntriesNames(front);
      DeclarationEntriesNames(e, e.declarations);
      NamesAppend(EnumEntries(front), DeclarationEntries(e, e.declarations));
    }
  }

  /** Registering functions: the table holds the old names and the module's; an old name
      keeps its definition; a new name gets its first definition; every other definition is
      reported as "Duplicate function", with no span, and nothing else changes. */
  lemma FunctionsFirstDefinitionWins(a: Analyzer, functions: seq<FunctionNode>)
    ensures var r := RegisterFunctions(a, functions);
            && (forall name :: name in r.context.functions <==>
                  name in a.context.functions || exists i :: 0 <= i < |functions| && functions[i].name == name)
            && (forall name :: name in a.context.functions ==> r.context.functions[name] == a.context.functions[name])
            && (forall i :: 0 <= i < |functions| && functions[i].name !in a.context.functions
                  && (forall j :: 0 <= j < i ==> functions[j].name != functions[i].name)
                  ==> r.context.functions[functions[i].name] == functions[i])
            && |r.errors| == |a.errors| + |functions| - (|r.context.functions.Keys| - |a.context.functions.Keys|)
            && r.errors[..|a.errors|] == a.errors
            && (forall k :: |a.errors| <= k < |r.errors| ==> r.errors[k] == ParseError("Duplicate function", 0, 0))
            && r.types == a.types && r.errorsToProcess == a.errorsToProcess
  {
    var entries := Entries(functions, FunctionName);
    forall i | 0 <= i < |functions|
      ensures entries[i] == Named(functions[i].name, functions[i])
    {
      EntriesAt(functions, FunctionName, i);
    }
    RegisteredEntries(a.context.functions, entries);
    DuplicatesCounted(a.context.functions, entries);
  }

  /** Registering structs: as for functions, and one struct type is registered per struct
      added, in order. */
  lemma StructsFirstDefinitionWins(a: Analyzer, structs: seq<StructNode>)
    ensures var r := RegisterStructs(a, structs);
            && (forall name :: name in r.context.structs <==>
                  name in a.context.structs || exists i :: 0 <= i < |structs| && structs[i].name == name)
            && (forall name :: name in a.context.structs ==> r.context.structs[name] == a.context.structs[name])
            && (forall i :: 0 <= i < |structs| && structs[i].name !in a.context.structs
                  && (forall j :: 0 <= j < i ==> structs[j].name != structs[i].name)
                  ==> r.context.structs[structs[i].name] == structs[i])
            && |r.errors| == |a.errors| + |structs| - (|r.context.structs.Keys| - |a.context.structs.Keys|)
            && r.errors[..|a.errors|] == a.errors
            && (forall k :: |a.errors| <= k < |r.errors| ==> r.errors[k] == ParseError("Duplicate struct", 0, 0))
            && |r.types| == |a.types| + |r.context.structs.Keys| - |a.context.structs.Keys|
            && r.types[..|a.types|] == a.types
  {
    var entries := Entries(structs, StructName);
    forall i | 0 <= i < |structs|
      ensures entries[i] == Named(structs[i].name, structs[i])
    {
      EntriesAt(structs, StructName, i);
    }
    RegisteredEntries(a.context.structs, entries);
    DuplicatesCounted(a.context.structs, entries);
  }

  /** Registering enums: the enum table holds the old names and every declaration's name; an
      old name keeps its entry; each declaration is either added, with one `int` type named
      after its enum, or reported as "Duplicate enum"; a name new to the table keeps the first
      declaration of it, enum by enum and in order within an enum. */
  lemma EnumsFirstDefinitionWins(a: Analyzer, enums: seq<EnumNode>)
    ensures var r := RegisterEnums(a, enums);
            && (forall name :: name in r.context.enumInfo <==>
                  name in a.context.enumInfo || name in EnumDeclarationNames(enums))
            && (forall name :: name in a.context.enumInfo ==> r.context.enumInfo[name] == a.context.enumInfo[name])
            && |r.errors| == |a.errors| + DeclarationCount(enums) - (|r.context.enumInfo.Keys| - |a.context.enumInfo.Keys|)
            && r.errors[..|a.errors|] == a.errors
            && (forall k :: |a.errors| <= k < |r.errors| ==> r.errors[k] == ParseError("Duplicate enum", 0, 0))
            && |r.types| == |a.types| + |r.context.enumInfo.Keys| - |a.context.enumInfo.Keys|
            && r.types[..|a.types|] == a.types
            && (forall k, i :: 0 <= k < |enums| && 0 <= i < |enums[k].declarations|
                  && enums[k].declarations[i].name !in a.context.enumInfo
                  && (forall k', i' :: 0 <= k' <= k && 0 <= i' < |enums[k'].declarations| && (k' < k || i' < i)
                        ==> enums[k'].declarations[i'].name != enums[k].declarations[i].name)
                  ==> && enums[k].declarations[i].name in r.context.enumInfo
                      && r.context.enumInfo[enums[k].declarations[i].name]
                         == EnumDeclarationInfo(enums[k], enums[k].declarations[i], 0))
  {
    var entries := EnumEntries(enums);
    RegisteredEntries(a.context.enumInfo, entries);
    DuplicatesCounted(a.context.enumInfo, entries);
    EnumEntriesNames(enums);
    forall k, i | 0 <= k < |enums| && 0 <= i < |enums[k].declarations|
                  && enums[k].declarations[i].name !in a.context.enumInfo
                  && (forall k', i' :: 0 <= k' <= k && 0 <= i' < |enums[k'].declarations| && (k' < k || i' < i)
                        ==> enums[k'].declarations[i'].name != enums[k].declarations[i].name)
      ensures && enums[k].declarations[i].name in RegisterEnums(a, enums).context.enumInfo
              && RegisterEnums(a, enums).context.enumInfo[enums[k].declarations[i].name]
                 == EnumDeclarationInfo(enums[k], enums[k].declarations[i], 0)
    {
      FirstEnumDeclarationKept(a, enums, k, i);
    }
  }

  /** A declaration whose name is new to the table and not declared at any earlier position
      of the module is the one registered under that name. */
  lemma FirstEnumDeclarationKept(a: Analyzer, enums: seq<EnumNode>, k: nat, i: nat)
    requires k < |enums| && i < |enums[k].declarations|
    requires enums[k].declarations[i].name !in a.context.enumInfo
    requires forall k', i' :: 0 <= k' <= k && 0 <= i' < |enums[k'].declarations| && (k' < k || i' < i)
               ==> enums[k'].declarations[i'].name != enums[k].declarations[i].name
    ensures && enums[k].declarations[i].name in RegisterEnums(a, enums).context.enumInfo
            && RegisterEnums(a, enums).context.enumInfo[enums[k].declarations[i].name]
               == EnumDeclarationInfo(enums[k], enums[k].declarations[i], 0)
  {
    var entries := EnumEntries(enums);
    var d := enums[k].declarations[i];
    var base := DeclarationCount(enums[..k]);
    EnumEntriesAt(enums, k, i);
    EnumEntriesPrefix(enums, k);
    EnumEntriesNames(enums[..k]);
    EnumDeclarationNamesAt(enums[..k]);
    forall j | 0 <= j < base + i
      ensures entries[j].name != d.name
    {
      if j < base {
        assert entries[j] == EnumEntries(enums[..k])[j];
        assert entries[j].name in Names(EnumEntries(enums[..k]));
        var k', i' :| 0 <= k' < |enums[..k]| && 0 <= i' < |enums[..k][k'].declarations|
                      && enums[..k][k'].declarations[i'].name == entries[j].name;
        assert enums[..k][k'] == enums[k'];
      } else {
        EnumEntriesAt(enums, k, j - base);
      }
    }
    RegisteredEntries(a.context.enumInfo, entries);
  }

  /** Declaration i of an enum is offered as entry i, under its own name, with value 0. */
  lemma {:induction false} DeclarationEntriesAt(enumNode: EnumNode, declarations: seq<EnumDeclarationNode>, i: nat)
    requires i < |declarations|
    ensures DeclarationEntries(enumNode, declarations)[i]
            == Named(declarations[i].name, EnumDeclarationInfo(enumNode, declarations[i], 0))
    decreases |declarations|
  {
    if i < |declarations| - 1 {
      DeclarationEntriesAt(enumNode, declarations[..|declarations| - 1], i);
    }
  }

  /** The entries of the first k enums are the start of the entries of all of them. */
  lemma {:induction false} EnumEntriesPrefix(enums: seq<EnumNode>, k: nat)
    requires k <= |enums|
    ensures DeclarationCount(enums[..k]) <= |EnumEntries(enums)|
    ensures EnumEntries(enums)[..DeclarationCount(enums[..k])] == EnumEntries(enums[..k])
    decreases |enums|
  {
    if k < |enums| {
      var front := enums[..|enums| - 1];
      assert front[..k] == enums[..k];
      EnumEntriesPrefix(front, k);
    } else {
      assert enums[..k] == enums;
    }
  }

  /** Declaration i of enum k is offered at position DeclarationCount(enums[..k]) + i. */
  lemma EnumEntriesAt(enums: seq<EnumNode>, k: nat, i: nat)
    requires k < |enums| && i < |enums[k].declarations|
    ensures DeclarationCount(enums[..k]) + i < |EnumEntries(enums)|
    ensures EnumEntries(enums)[DeclarationCount(enums[..k]) + i]
            == Named(enums[k].declarations[i].name, EnumDeclarationInfo(enums[k], enums[k].declarations[i], 0))
  {
    assert enums[..k + 1][..k] == enums[..k];
    EnumEntriesPrefix(enums, k + 1);
    DeclarationEntriesAt(enums[k], enums[k].declarations, i);
  }

  lemma {:induction false} EnumDeclarationNamesAt(enums: seq<EnumNode>)
    ensures forall name :: name in EnumDeclarationNames(enums) <==>
              exists k, i :: 0 <= k < |enums| && 0 <= i < |enums[k].declarations|
                             && enums[k].declarations[i].name == name
    decreases |enums|
  {
    if |enums| != 0 {
      var front := enums[..|enums| - 1];
      var last := enums[|enums| - 1];
      EnumDeclarationNamesAt(front);
      DeclarationNamesAt(last.declarations);
      forall name
        ensures name in EnumDeclarationNames(enums) <==>
                  exists k, i :: 0 <= k < |enums| && 0 <= i < |enums[k].declarations|
                                 && enums[k].declarations[i].name == name
      {
        if name in EnumDeclarationNames(front) {
          var k, i :| 0 <= k < |front| && 0 <= i < |front[k].declarations| && front[k].declarations[i].name == name;
          assert enums[k].declarations[i].name == name;
        }
        if name in DeclarationNames(last.declarations) {
          var i :| 0 <= i < |last.declarations| && last.declarations[i].name == name;
          assert enums[|enums| - 1].declarations[i].name == name;
        }
        if exists k, i :: 0 <= k < |enums| && 0 <= i < |enums[k].declarations| && enums[k].declarations[i].name == name {
          var k, i :| 0 <= k < |enums| && 0 <= i < |enums[k].declarations| && enums[k].declarations[i].name == name;
          if k < |front| {
            assert front[k].declarations[i].name == name;
          } else {
            assert last.declarations[i].name == name;
          }
        }
      }
    }
  }

  /** Adding symbols succeeds exactly when no key is already present and no key repeats;
      then the map holds the old mappings and every new one. */
  lemma {:induction false} SymbolsAddedOnce(symbols: map<NodeId, Symbol>, entries: seq<(NodeId, Symbol)>)
    ensures var r := AddSymbols(symbols, entries);
            && (r.1 == None <==>
                  (forall i :: 0 <= i < |entries| ==> entries[i].0 !in symbols)
                  && (forall i, j :: 0 <= i < j < |entries| ==> entries[i].0 != entries[j].0))
            && (r.1 == None ==>
                  && (forall k :: k in r.0 <==> k in symbols || exists i :: 0 <= i < |entries| && entries[i].0 == k)
                  && (forall k :: k in symbols ==> r.0[k] == symbols[k])
                  && (forall i :: 0 <= i < |entries| ==> r.0[entries[i].0] == entries[i].1))
    decreases |entries|
  {
    if |entries| != 0 {
      var front := entries[..|entries| - 1];
      var last := entries[|entries| - 1];
      SymbolsAddedOnce(symbols, front);
      var before := AddSymbols(symbols, front);
      if before.1 == None && last.0 in before.0 {
        if last.0 !in symbols {
          var i :| 0 <= i < |front| && front[i].0 == last.0;
          assert entries[i].0 == entries[|entries| - 1].0;
        }
      }
      if before.1 != None {
        if (forall i, j :: 0 <= i < j < |entries| ==> entries[i].0 != entries[j].0) {
          assert forall i, j :: 0 <= i < j < |front| ==> front[i].0 != front[j].0 by {
            forall i, j | 0 <= i < j < |front| ensures front[i].0 != front[j].0 {
              assert front[i] == entries[i] && front[j] == entries[j];
            }
          }
        }
      }
    }
  }

  /** Numbering one enum fails exactly when one of its declarations was never registered. */
  lemma {:induction false} EnumNumberingFails(info: map<string, EnumDeclarationInfo>, declarations: seq<EnumDeclarationNode>)
    ensures NumberEnum(info, declarations).1 == None <==> DeclarationNames(declarations) <= info.Keys
    decreases |declarations|
  {
    if |declarations| != 0 {
      EnumNumberingFails(info, declarations[..|declarations| - 1]);
    }
  }

  /** Numbering a module's enums fails exactly when one of their declarations was never
      registered. */
  lemma {:induction false} EnumsNumberingFails(info: map<string, EnumDeclarationInfo>, enums: seq<EnumNode>)
    ensures NumberEnums(info, enums).1 == None <==> EnumDeclarationNames(enums) <= info.Keys
    decreases |enums|
  {
    if |enums| != 0 {
      var front := enums[..|enums| - 1];
      EnumsNumberingFails(info, front);
      EnumNumberingFails(NumberEnums(info, front).0, enums[|enums| - 1].declarations);
    }
  }

  /** An enum whose declarations are registered under distinct names: declaration `i` gets
      the value `i`, the rest of its entry is kept, and no other entry changes. */
  lemma {:induction false} EnumValuesInOrder(info: map<string, EnumDeclarationInfo>, declarations: seq<EnumDeclarationNode>)
    requires forall i :: 0 <= i < |declarations| ==> declarations[i].name in info
    requires forall i, j :: 0 <= i < j < |declarations| ==> declarations[i].name != declarations[j].name
    ensures var r := NumberEnum(info, declarations);
            && r.1 == None
            && (forall i :: 0 <= i < |declarations| ==>
                  r.0[declarations[i].name] == info[declarations[i].name].(value := i))
            && (forall name :: name in info && name !in DeclarationNames(declarations) ==> r.0[name] == info[name])
    decreases |declarations|
  {
    NumberEnumKeepsOthers(info, declarations);
    if |declarations| != 0 {
      var front := declarations[..|declarations| - 1];
      var last := declarations[|declarations| - 1];
      EnumValuesInOrder(info, front);
      DeclarationNamesAt(front);
      assert forall i :: 0 <= i < |front| ==> front[i].name != last.name;
      assert last.name !in DeclarationNames(front);
      var before := NumberEnum(info, front).0;
      var after := NumberEnum(info, declarations).0;
      assert after == before[last.name := before[last.name].(value := |front|)];
      forall i | 0 <= i < |declarations|
        ensures after[declarations[i].name] == info[declarations[i].name].(value := i)
      {
        if i < |front| {
          assert declarations[i] == front[i];
        }
      }
    }
  }

  /** Numbering an enum changes only the entries its declarations name. */
  lemma {:induction false} NumberEnumKeepsOthers(info: map<string, EnumDeclarationInfo>, declarations: seq<EnumDeclarationNode>)
    ensures forall name :: name in info && name !in DeclarationNames(declarations) ==>
              NumberEnum(info, declarations).0[name] == info[name]
    decreases |declarations|
  {
    if |declarations| != 0 {
      NumberEnumKeepsOthers(info, declarations[..|declarations| - 1]);
    }
  }

  /** The diagnostics are reported in order, each with its message and its node's span. */
  lemma {:induction false} FlushedAt(symbols: map<NodeId, Symbol>, pending: seq<PendingError>)
    ensures forall i :: 0 <= i < |pending| ==>
              Flushed(symbols, pending)[i]
              == ParseError(pending[i].message, SymbolOf(symbols, pending[i].node).start, SymbolOf(symbols, pending[i].node).end)
    decreases |pending|
  {
    if |pending| != 0 {
      FlushedAt(symbols, pending[..|pending| - 1]);
    }
  }

  /** A `Process` call that completes reports every pending diagnostic after the errors
      already reported, in order and with its node's span, and empties the buffer; apart from
      the enum values and the processing flags, nothing else changes. */
  lemma ProcessReportsInOrder(a: Analyzer, parsed: ParseModule, reports: PassReports)
    requires Process(a, parsed, reports).1 == None
    ensures var r := Process(a, parsed, reports).0;
            var pending := Pending(a, parsed, reports);
            && r.errorsToProcess == []
            && |r.errors| == |a.errors| + |pending|
            && r.errors[..|a.errors|] == a.errors
            && (forall i :: 0 <= i < |pending| ==>
                  r.errors[|a.errors| + i]
                  == ParseError(pending[i].message, SymbolOf(a.context.symbolMap, pending[i].node).start,
                                SymbolOf(a.context.symbolMap, pending[i].node).end))
            && r.context.(enumInfo := a.context.enumInfo) == a.context
            && r.types == a.types
  {
    FlushedAt(a.context.symbolMap, Pending(a, parsed, reports));
  }

  /** `Process` throws exactly when one of the module's enum declarations was never
      registered; it then reports nothing and the buffered diagnostics stay buffered. */
  lemma ProcessFailsOnUnregisteredEnum(a: Analyzer, parsed: ParseModule, reports: PassReports)
    ensures var r := Process(a, parsed, reports);
            && (r.1 == Some(KeyNotFound) <==> !(EnumDeclarationNames(parsed.enums) <= a.context.enumInfo.Keys))
            && (r.1 != None ==> r.0.errors == a.errors
                                && r.0.errorsToProcess == StartProcessing(a, reports).errorsToProcess)
  {
    EnumsNumberingFails(a.context.enumInfo, parsed.enums);
  }

  /** A module that registered without error is then processed without error. */
  lemma RegisteredModuleProcesses(a: Analyzer, parsed: ParseModule, reports: PassReports)
    requires Register(a, parsed).1 == None
    ensures Process(Register(a, parsed).0, parsed, reports).1 == None
  {
    var a1 := a.(context := a.context.(symbolMap := AddSymbols(a.context.symbolMap, parsed.symbolMap).0));
    var a2 := RegisterFunctions(a1, parsed.functions);
    EnumsFirstDefinitionWins(a2, parsed.enums);
    ProcessFailsOnUnregisteredEnum(Register(a, parsed).0, parsed, reports);
  }

  /** Once processing has started, registering is refused and changes nothing. */
  lemma NoRegistrationAfterProcess(a: Analyzer, parsed: ParseModule, reports: PassReports, other: ParseModule)
    ensures var processed := Process(a, parsed, reports).0;
            Register(processed, other) == (processed, Some(InvalidOperation))
  {
  }
}
