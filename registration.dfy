/** Registration of named entities where the first definition of a name wins and every later
    one is a duplicate (the duplicate checks of src/MonC/Semantics/SemanticAnalyzer.cs). */
module Registration {
  /** An entity offered for registration under a name. */
  datatype Named<T> = Named(name: string, item: T)

  /** The table afterwards, how many entries were duplicates, and the items added, in order. */
  datatype Registered<T> = Registered(table: map<string, T>, duplicates: nat, added: seq<T>)

  /** Offer the entries in order: an entry whose name the table already holds is a duplicate
      and changes nothing else; any other is added. */
  function RegisterAll<T>(table: map<string, T>, entries: seq<Named<T>>): (r: Registered<T>)
    ensures r.duplicates + |r.added| == |entries|
  {
    if |entries| == 0 then Registered(table, 0, [])
    else
      var before := RegisterAll(table, entries[..|entries| - 1]);
      var entry := entries[|entries| - 1];
      if entry.name in before.table then before.(duplicates := before.duplicates + 1)
      else Registered(before.table[entry.name := entry.item], before.duplicates, before.added + [entry.item])
  }

  /** Offering one more entry. */
  lemma RegisterAllStep<T>(table: map<string, T>, entries: seq<Named<T>>, entry: Named<T>)
    ensures var before := RegisterAll(table, entries);
            RegisterAll(table, entries + [entry])
            == if entry.name in before.table then before.(duplicates := before.duplicates + 1)
               else Registered(before.table[entry.name := entry.item], before.duplicates, before.added + [entry.item])
  {
    assert (entries + [entry])[..|entries|] == entries;
  }

  /** The position of the first entry with the name, or -1. */
  function FirstNamed<T>(entries: seq<Named<T>>, name: string): (i: int)
    ensures -1 <= i < |entries|
    ensures i == -1 <==> forall j :: 0 <= j < |entries| ==> entries[j].name != name
    ensures i != -1 ==> entries[i].name == name && forall j :: 0 <= j < i ==> entries[j].name != name
  {
    if |entries| == 0 then -1
    else
      var i := FirstNamed(entries[..|entries| - 1], name);
      if i != -1 then i
      else if entries[|entries| - 1].name == name then |entries| - 1
      else -1
  }

  /** First definition wins: a name the table held keeps its entity; a new name gets the
      entity of its first entry; the table holds exactly the old names and the entries'. */
  lemma {:induction false} FirstDefinitionKept<T>(table: map<string, T>, entries: seq<Named<T>>)
    ensures var r := RegisterAll(table, entries);
            && (forall name :: name in r.table <==> name in table || FirstNamed(entries, name) != -1)
            && (forall name :: name in table ==> r.table[name] == table[name])
            && (forall name :: name !in table && FirstNamed(entries, name) != -1 ==>
                  r.table[name] == entries[FirstNamed(entries, name)].item)
    decreases |entries|
  {
    if |entries| != 0 {
      FirstDefinitionKept(table, entries[..|entries| - 1]);
    }
  }

  /** The names the entries offer. */
  function Names<T>(entries: seq<Named<T>>): set<string>
  {
    set i | 0 <= i < |entries| :: entries[i].name
  }

  lemma NamesAppend<T>(x: seq<Named<T>>, y: seq<Named<T>>)
    ensures Names(x + y) == Names(x) + Names(y)
  {
    forall name | name in Names(x + y)
      ensures name in Names(x) + Names(y)
    {
      var i :| 0 <= i < |x + y| && (x + y)[i].name == name;
      if i < |x| {
        assert x[i].name == name;
      } else {
        assert y[i - |x|].name == name;
      }
    }
    forall name | name in Names(x) + Names(y)
      ensures name in Names(x + y)
    {
      if name in Names(x) {
        var i :| 0 <= i < |x| && x[i].name == name;
        assert (x + y)[i].name == name;
      } else {
        var i :| 0 <= i < |y| && y[i].name == name;
        assert (x + y)[|x| + i].name == name;
      }
    }
  }

  /** The same, stated on positions: the table afterwards holds the old names and the
      offered ones; an old name keeps its item; an entry whose name is new and not offered
      earlier is the one registered. */
  lemma RegisteredEntries<T>(table: map<string, T>, entries: seq<Named<T>>)
    ensures var r := RegisterAll(table, entries);
            && (forall name :: name in r.table <==> name in table || name in Names(entries))
            && (forall name :: name in table ==> r.table[name] == table[name])
            && (forall i :: 0 <= i < |entries| && entries[i].name !in table
                  && (forall j :: 0 <= j < i ==> entries[j].name != entries[i].name)
                  ==> r.table[entries[i].name] == entries[i].item)
  {
    FirstDefinitionKept(table, entries);
    forall name
      ensures name in Names(entries) <==> FirstNamed(entries, name) != -1
    {
      if FirstNamed(entries, name) != -1 {
        assert entries[FirstNamed(entries, name)].name == name;
      }
    }
    forall i | 0 <= i < |entries| && (forall j :: 0 <= j < i ==> entries[j].name != entries[i].name)
      ensures FirstNamed(entries, entries[i].name) == i
    {
    }
  }

  /** Every duplicate is counted once, and every added item is a new name: the table grows by
      exactly the number of items added. */
  lemma {:induction false} DuplicatesCounted<T>(table: map<string, T>, entries: seq<Named<T>>)
    ensures var r := RegisterAll(table, entries);
            |r.table.Keys| == |table.Keys| + |r.added| && |r.added| + r.duplicates == |entries|
    decreases |entries|
  {
    if |entries| != 0 {
      var before := RegisterAll(table, entries[..|entries| - 1]);
      DuplicatesCounted(table, entries[..|entries| - 1]);
      var entry := entries[|entries| - 1];
      if entry.name !in before.table {
        assert before.table[entry.name := entry.item].Keys == before.table.Keys + {entry.name};
      }
    }
  }

  /** Offering an entry whose name is already registered changes nothing but the duplicate
      count, which grows by one. */
  lemma DuplicateIgnored<T>(table: map<string, T>, entries: seq<Named<T>>, entry: Named<T>)
    requires entry.name in RegisterAll(table, entries).table
    ensures RegisterAll(table, entries + [entry])
            == RegisterAll(table, entries).(duplicates := RegisterAll(table, entries).duplicates + 1)
  {
    assert (entries + [entry])[..|entries|] == entries;
  }

  /** `n` copies of `x`. */
  function Repeat<T>(x: T, n: nat): (r: seq<T>)
    ensures |r| == n && forall i :: 0 <= i < n ==> r[i] == x
  {
    if n == 0 then [] else Repeat(x, n - 1) + [x]
  }

  /** Appending to a report of `n` copies gives `n + 1` copies. */
  lemma RepeatStep<T>(prefix: seq<T>, x: T, n: nat)
    ensures prefix + Repeat(x, n + 1) == prefix + Repeat(x, n) + [x]
  {
  }
}
