/**
 * The compaction loop: one pass over the decoded file that groups the recognised rules into
 * the table of explicit jobs, appends an exclude per recognised rule to the default command,
 * and emits a diagnostic for every rule or section it skips.
 */
module Compaction {
  import opened Text
  import opened Policy
  import opened Commands

  /** The accumulators agree with the specification of the items seen so far. */
  ghost predicate Accumulated(items: seq<Item>, table: map<Key, seq<string>>, defaultCommand: string,
                              diagnostics: seq<Diagnostic>, defaultHeader: string) {
    && table == Table(items)
    && diagnostics == Diagnostics(items)
    && defaultCommand == defaultHeader + ExcludeClauses(Excludes(items))
  }

  /** Walks project -> operation -> unit -> value, starting from the default command
      `defaultHeader`, and returns the grouping table, the finished default command and
      the diagnostics in emission order. */
  method Compact(entries: seq<ProjectRules>, defaultHeader: string)
    returns (table: map<Key, seq<string>>, defaultCommand: string, diagnostics: seq<Diagnostic>)
    ensures table == Table(Items(entries))
    ensures defaultCommand == defaultHeader + ExcludeClauses(Excludes(Items(entries)))
    ensures diagnostics == Diagnostics(Items(entries))
  {
    table, defaultCommand, diagnostics := map[], defaultHeader, [];
    ghost var items: seq<Item> := [];
    var i := 0;
    while i < |entries|
      invariant 0 <= i <= |entries|
      invariant items == Items(entries[..i])
      invariant Accumulated(items, table, defaultCommand, diagnostics, defaultHeader)
    {
      if entries[i].project != DefaultsKey {
        table, defaultCommand, diagnostics :=
          CompactOperations(entries[i].project, entries[i].operations, items, table, defaultCommand, diagnostics, defaultHeader);
      } else {
        assert items + ProjectItems(entries[i]) == items;
      }
      ItemsStep(entries, i);
      items := items + ProjectItems(entries[i]);
      i := i + 1;
    }
    assert entries[..i] == entries;
  }

  /** The middle loop: every operation section of one project other than `.defaults`. A section
      under an allowed operation is walked unit by unit; any other is reported and skipped. */
  method CompactOperations(project: string, operations: seq<OperationRules>, ghost before: seq<Item>,
                           table0: map<Key, seq<string>>, defaultCommand0: string, diagnostics0: seq<Diagnostic>,
                           ghost defaultHeader: string)
    returns (table: map<Key, seq<string>>, defaultCommand: string, diagnostics: seq<Diagnostic>)
    requires Accumulated(before, table0, defaultCommand0, diagnostics0, defaultHeader)
    ensures Accumulated(before + OperationItems(project, operations), table, defaultCommand, diagnostics, defaultHeader)
  {
    table, defaultCommand, diagnostics := table0, defaultCommand0, diagnostics0;
    ghost var items := before;
    var j := 0;
    assert OperationItems(project, operations[..0]) == [];
    assert items == before + [];
    while j < |operations|
      invariant 0 <= j <= |operations|
      invariant items == before + OperationItems(project, operations[..j])
      invariant Accumulated(items, table, defaultCommand, diagnostics, defaultHeader)
    {
      var operation := operations[j].operation;
      if AllowedOperation(operation) {
        table, defaultCommand, diagnostics :=
          CompactUnits(project, operation, operations[j].units, items, table, defaultCommand, diagnostics, defaultHeader);
      } else {
        diagnostics := diagnostics + [UnsupportedOperation(operation)];
        ItemStep(items, BadOperation(project, operation));
        assert Excludes(items + [BadOperation(project, operation)]) == Excludes(items);
      }
      OperationItemsStep(project, operations, j);
      ConcatAssoc(before, OperationItems(project, operations[..j]), SectionItems(project, operations[j]));
      items := items + SectionItems(project, operations[j]);
      j := j + 1;
    }
    assert operations[..j] == operations;
  }

  /** The innermost loop: every `unit: value` pair of an allowed operation section of `project`.
      A recognised unit appends an exclude and records the project under the normalised key;
      any other unit emits a diagnostic. */
  method CompactUnits(project: string, operation: string, units: seq<UnitValue>, ghost before: seq<Item>,
                      table0: map<Key, seq<string>>, defaultCommand0: string, diagnostics0: seq<Diagnostic>,
                      ghost defaultHeader: string)
    returns (table: map<Key, seq<string>>, defaultCommand: string, diagnostics: seq<Diagnostic>)
    requires Accumulated(before, table0, defaultCommand0, diagnostics0, defaultHeader)
    ensures Accumulated(before + UnitItems(project, operation, units), table, defaultCommand, diagnostics, defaultHeader)
  {
    table, defaultCommand, diagnostics := table0, defaultCommand0, diagnostics0;
    ghost var items := before;
    var l := 0;
    assert UnitItems(project, operation, units[..0]) == [];
    assert items == before + [];
    while l < |units|
      invariant 0 <= l <= |units|
      invariant items == before + UnitItems(project, operation, units[..l])
      invariant Accumulated(items, table, defaultCommand, diagnostics, defaultHeader)
    {
      var unit, value := units[l].unit, units[l].value;
      ghost var it := RuleItem(Rule(project, operation, unit, value));
      ItemStep(items, it);
      DefaultCommandStep(defaultHeader, items, it);
      UnitItemsStep(project, operation, units, l);
      ConcatAssoc(before, UnitItems(project, operation, units[..l]), [it]);
      ghost var next := items + [it];
      assert next == before + UnitItems(project, operation, units[..l + 1]);
      if AllowedUnit(unit) {
        defaultCommand := defaultCommand + ExcludeClause(project);
        if Lower(unit) == "weeks" {
          unit, value := "days", value * 7;
        }
        var k := Key(operation, unit, value);
        table := table[k := (if k in table then table[k] else []) + [project]];
      } else if IsHours(unit) {
        diagnostics := diagnostics + [HoursUnsupported];
      } else {
        diagnostics := diagnostics + [UnknownUnit(unit)];
      }
      items := next;
      l := l + 1;
    }
    assert units[..l] == units;
  }
}
