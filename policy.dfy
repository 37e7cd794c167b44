/**
 * The retention policy as decoded from the configuration file, and the specification of
 * its compaction: which rules are recorded, under which (operation, unit, value) key,
 * which projects the default job excludes, and which diagnostics are emitted.
 */
module Policy {
  import opened Text

  /** The top-level configuration key that holds global settings rather than a project. */
  const DefaultsKey: string := ".defaults"

  /** Units the cleanup tool accepts for our day-granular index names ('hours' is not among them). */
  predicate AllowedUnit(unit: string) {
    unit == "days" || unit == "weeks" || unit == "months"
  }

  /** Operations the script accepts; only deletion. */
  predicate AllowedOperation(operation: string) {
    operation == "delete"
  }

  /** The 'hours' unit, compared after lower-casing. */
  predicate IsHours(unit: string) {
    Lower(unit) == "hours"
  }

  /** One `unit: value` pair of an operation section. */
  datatype UnitValue = UnitValue(unit: string, value: int)
  /** One `operation: {unit: value, ...}` section of a project. */
  datatype OperationRules = OperationRules(operation: string, units: seq<UnitValue>)
  /** One top-level `project: {operation: ..., ...}` entry, in the decoded file's iteration order. */
  datatype ProjectRules = ProjectRules(project: string, operations: seq<OperationRules>)

  /** A single retention rule (project, operation, unit, value). */
  datatype Rule = Rule(project: string, operation: string, unit: string, value: int)

  /** The compaction key: rules with equal keys share one explicit job. */
  datatype Key = Key(operation: string, unit: string, value: int)

  /** What one step of the compaction loop looks at: a rule under an allowed operation, or a whole disallowed operation section. */
  datatype Item = RuleItem(rule: Rule) | BadOperation(project: string, operation: string)

  datatype Diagnostic =
    | UnsupportedOperation(operation: string)
    | HoursUnsupported
    | UnknownUnit(unit: string)
    | UnknownDefaultUnit(unit: string)

  /** Weeks rewritten as seven times as many days; the index names carry no week. */
  function NormalUnit(unit: string, value: int): UnitValue {
    if Lower(unit) == "weeks" then UnitValue("days", value * 7) else UnitValue(unit, value)
  }

  /** The key a rule is recorded under. */
  function NormalKey(r: Rule): Key {
    var n := NormalUnit(r.unit, r.value);
    Key(r.operation, n.unit, n.value)
  }

  /** Normalisation of an allowed unit: weeks become days x 7, days and months are unchanged. */
  lemma NormalUnitOfAllowedUnit(unit: string, value: int)
    requires AllowedUnit(unit)
    ensures unit == "weeks" ==> NormalUnit(unit, value) == UnitValue("days", 7 * value)
    ensures unit != "weeks" ==> NormalUnit(unit, value) == UnitValue(unit, value)
    ensures NormalUnit(unit, value).unit == "days" || NormalUnit(unit, value).unit == "months"
  {
    LowerOfLowerCase(unit);
  }

  /** No recorded key is ever in weeks. */
  lemma NormalKeyOfAllowedUnit(r: Rule)
    requires AllowedUnit(r.unit)
    ensures r.unit == "weeks" ==> NormalKey(r) == Key(r.operation, "days", 7 * r.value)
    ensures r.unit != "weeks" ==> NormalKey(r) == Key(r.operation, r.unit, r.value)
    ensures NormalKey(r).unit == "days" || NormalKey(r).unit == "months"
    ensures NormalKey(r).operation == r.operation
  {
    NormalUnitOfAllowedUnit(r.unit, r.value);
  }

  /** An item that adds its project to the table and to the default job's excludes. */
  predicate Recorded(it: Item) {
    it.RuleItem? && AllowedUnit(it.rule.unit)
  }

  // ----- From the decoded file to the sequence of items, in iteration order -----

  function UnitItems(project: string, operation: string, units: seq<UnitValue>): seq<Item>
    decreases |units|
  {
    if units == [] then []
    else
      var uv := units[|units| - 1];
      UnitItems(project, operation, units[..|units| - 1]) + [RuleItem(Rule(project, operation, uv.unit, uv.value))]
  }

  function SectionItems(project: string, section: OperationRules): seq<Item> {
    if AllowedOperation(section.operation) then UnitItems(project, section.operation, section.units)
    else [BadOperation(project, section.operation)]
  }

  function OperationItems(project: string, operations: seq<OperationRules>): seq<Item>
    decreases |operations|
  {
    if operations == [] then []
    else OperationItems(project, operations[..|operations| - 1]) + SectionItems(project, operations[|operations| - 1])
  }

  function ProjectItems(entry: ProjectRules): seq<Item> {
    if entry.project == DefaultsKey then [] else OperationItems(entry.project, entry.operations)
  }

  function Items(entries: seq<ProjectRules>): seq<Item>
    decreases |entries|
  {
    if entries == [] then []
    else Items(entries[..|entries| - 1]) + ProjectItems(entries[|entries| - 1])
  }

  // ----- What the loop accumulates -----

  /** `table.setdefault(key, []).append(project)` */
  function Append(table: map<Key, seq<string>>, k: Key, project: string): map<Key, seq<string>> {
    table[k := (if k in table then table[k] else []) + [project]]
  }

  /** The grouping table (`curator_settings`) after the given items. */
  function Table(items: seq<Item>): map<Key, seq<string>>
    decreases |items|
  {
    if items == [] then map[]
    else
      var table := Table(items[..|items| - 1]);
      var it := items[|items| - 1];
      if Recorded(it) then Append(table, NormalKey(it.rule), it.rule.project) else table
  }

  /** The projects the default job excludes, one per recorded rule. */
  function Excludes(items: seq<Item>): seq<string>
    decreases |items|
  {
    if items == [] then []
    else
      var it := items[|items| - 1];
      Excludes(items[..|items| - 1]) + (if Recorded(it) then [it.rule.project] else [])
  }

  /** The diagnostic an item emits, if any. */
  function ItemDiagnostics(it: Item): seq<Diagnostic> {
    match it
    case BadOperation(_, operation) => [UnsupportedOperation(operation)]
    case RuleItem(r) =>
      if AllowedUnit(r.unit) then []
      else if IsHours(r.unit) then [HoursUnsupported]
      else [UnknownUnit(r.unit)]
  }

  function Diagnostics(items: seq<Item>): seq<Diagnostic>
    decreases |items|
  {
    if items == [] then [] else Diagnostics(items[..|items| - 1]) + ItemDiagnostics(items[|items| - 1])
  }

  // ----- Reference definitions of the grouping, independent of the table updates -----

  /** The projects of the recorded items whose key is k, in order. */
  function ProjectsUnder(items: seq<Item>, k: Key): seq<string>
    decreases |items|
  {
    if items == [] then []
    else
      var it := items[|items| - 1];
      ProjectsUnder(items[..|items| - 1], k) + (if Recorded(it) && NormalKey(it.rule) == k then [it.rule.project] else [])
  }

  /** The number of recorded items. */
  function RecordedCount(items: seq<Item>): nat
    decreases |items|
  {
    if items == [] then 0
    else RecordedCount(items[..|items| - 1]) + (if Recorded(items[|items| - 1]) then 1 else 0)
  }

  function RecordedKeys(items: seq<Item>): set<Key> {
    set it | it in items && Recorded(it) :: NormalKey(it.rule)
  }

  function RecordedProjects(items: seq<Item>): set<string> {
    set it | it in items && Recorded(it) :: it.rule.project
  }

  lemma UnitItemsStep(project: string, operation: string, units: seq<UnitValue>, l: int)
    requires 0 <= l < |units|
    ensures UnitItems(project, operation, units[..l + 1]) ==
      UnitItems(project, operation, units[..l]) + [RuleItem(Rule(project, operation, units[l].unit, units[l].value))]
  {
    assert units[..l + 1][..l] == units[..l];
  }

  lemma OperationItemsStep(project: string, operations: seq<OperationRules>, j: int)
    requires 0 <= j < |operations|
    ensures OperationItems(project, operations[..j + 1]) ==
      OperationItems(project, operations[..j]) + SectionItems(project, operations[j])
  {
    assert operations[..j + 1][..j] == operations[..j];
  }

  lemma ItemsStep(entries: seq<ProjectRules>, i: int)
    requires 0 <= i < |entries|
    ensures Items(entries[..i + 1]) == Items(entries[..i]) + ProjectItems(entries[i])
  {
    assert entries[..i + 1][..i] == entries[..i];
  }

  /** One more item: what each accumulator becomes. */
  lemma ItemStep(items: seq<Item>, it: Item)
    ensures Table(items + [it]) ==
      if Recorded(it) then Append(Table(items), NormalKey(it.rule), it.rule.project) else Table(items)
    ensures Excludes(items + [it]) == Excludes(items) + (if Recorded(it) then [it.rule.project] else [])
    ensures Diagnostics(items + [it]) == Diagnostics(items) + ItemDiagnostics(it)
  {
    assert (items + [it])[..|items|] == items;
  }

  /** The table is exactly the grouping of recorded items by key: it has one entry per distinct
      key, and each entry lists, in order, every project that has a rule normalising to that key. */
  lemma {:induction false} TableIsGrouping(items: seq<Item>)
    ensures Table(items).Keys == RecordedKeys(items)
    ensures forall k :: k in Table(items) ==> Table(items)[k] == ProjectsUnder(items, k)
    ensures forall k :: k !in Table(items) ==> ProjectsUnder(items, k) == []
    decreases |items|
  {
    if items != [] {
      var front, it := items[..|items| - 1], items[|items| - 1];
      assert items == front + [it];
      TableIsGrouping(front);
      assert RecordedKeys(items) == RecordedKeys(front) + (if Recorded(it) then {NormalKey(it.rule)} else {});
    }
  }

  /** Every list in the table is non-empty. */
  lemma TableListsNonEmpty(items: seq<Item>)
    ensures forall k :: k in Table(items) ==> |Table(items)[k]| > 0
  {
    TableIsGrouping(items);
    forall k | k in Table(items) ensures |Table(items)[k]| > 0 {
      assert k in RecordedKeys(items);
      var it :| it in items && Recorded(it) && NormalKey(it.rule) == k;
      ProjectsUnderHas(items, it);
    }
  }

  lemma {:induction false} ProjectsUnderHas(items: seq<Item>, it: Item)
    requires it in items && Recorded(it)
    ensures it.rule.project in ProjectsUnder(items, NormalKey(it.rule))
    decreases |items|
  {
    var front, last := items[..|items| - 1], items[|items| - 1];
    assert items == front + [last];
    if it != last {
      ProjectsUnderHas(front, it);
    }
  }

  /** A project is listed under key k exactly when some recorded rule of that project normalises to k. */
  lemma {:induction false} ProjectsUnderMembership(items: seq<Item>, k: Key, project: string)
    ensures project in ProjectsUnder(items, k) <==>
      exists it :: it in items && Recorded(it) && NormalKey(it.rule) == k && it.rule.project == project
    decreases |items|
  {
    if items != [] {
      var front, last := items[..|items| - 1], items[|items| - 1];
      assert items == front + [last];
      ProjectsUnderMembership(front, k, project);
    }
  }

  /** The default job excludes exactly the projects with at least one recorded rule,
      and one exclude is emitted per recorded rule, not per project. */
  lemma {:induction false} ExcludesAreRecordedProjects(items: seq<Item>)
    ensures (set p | p in Excludes(items)) == RecordedProjects(items)
    ensures |Excludes(items)| == RecordedCount(items)
    decreases |items|
  {
    if items != [] {
      var front, it := items[..|items| - 1], items[|items| - 1];
      assert items == front + [it];
      ExcludesAreRecordedProjects(front);
      assert RecordedProjects(items) == RecordedProjects(front) + (if Recorded(it) then {it.rule.project} else {});
    }
  }

  /** Every item yields exactly one of: an exclude (it was recorded) or a diagnostic (it was skipped). */
  lemma {:induction false} EachItemExcludedOrDiagnosed(items: seq<Item>)
    ensures |Excludes(items)| + |Diagnostics(items)| == |items|
    decreases |items|
  {
    if items != [] {
      EachItemExcludedOrDiagnosed(items[..|items| - 1]);
    }
  }

  /** Every diagnostic of every item is emitted. */
  lemma {:induction false} DiagnosticsOfItem(items: seq<Item>, it: Item)
    requires it in items
    ensures forall d :: d in ItemDiagnostics(it) ==> d in Diagnostics(items)
    decreases |items|
  {
    var front, last := items[..|items| - 1], items[|items| - 1];
    assert items == front + [last];
    if it != last {
      DiagnosticsOfItem(front, it);
    }
  }

  // ----- Items and the decoded file -----

  /** The rule at position (i, j, l) of the decoded file. */
  ghost predicate RuleAt(entries: seq<ProjectRules>, i: int, j: int, l: int, r: Rule) {
    && 0 <= i < |entries| && 0 <= j < |entries[i].operations| && 0 <= l < |entries[i].operations[j].units|
    && entries[i].project == r.project
    && entries[i].operations[j].operation == r.operation
    && entries[i].operations[j].units[l] == UnitValue(r.unit, r.value)
  }

  /** The file holds rule r for a project other than `.defaults`, under an allowed operation. */
  ghost predicate Configured(entries: seq<ProjectRules>, r: Rule) {
    r.project != DefaultsKey && AllowedOperation(r.operation) &&
    exists i, j, l :: RuleAt(entries, i, j, l, r)
  }

  /** The file holds an operation section `operation` under a project other than `.defaults`. */
  ghost predicate SectionAt(entries: seq<ProjectRules>, i: int, j: int, project: string, operation: string) {
    && 0 <= i < |entries| && 0 <= j < |entries[i].operations|
    && entries[i].project == project && entries[i].operations[j].operation == operation
  }

  lemma {:induction false} UnitItemsMembership(project: string, operation: string, units: seq<UnitValue>, it: Item)
    ensures it in UnitItems(project, operation, units) <==>
      it.RuleItem? && it.rule.project == project && it.rule.operation == operation &&
      UnitValue(it.rule.unit, it.rule.value) in units
    decreases |units|
  {
    if units != [] {
      var front := units[..|units| - 1];
      assert units == front + [units[|units| - 1]];
      UnitItemsMembership(project, operation, front, it);
    }
  }

  lemma {:induction false} OperationItemsMembership(project: string, operations: seq<OperationRules>, it: Item)
    ensures it in OperationItems(project, operations) ==>
      && (it.RuleItem? ==>
            && it.rule.project == project && AllowedOperation(it.rule.operation)
            && exists j, l :: 0 <= j < |operations| && 0 <= l < |operations[j].units| &&
                 operations[j].operation == it.rule.operation && operations[j].units[l] == UnitValue(it.rule.unit, it.rule.value))
      && (it.BadOperation? ==>
            && it.project == project && !AllowedOperation(it.operation)
            && exists j :: 0 <= j < |operations| && operations[j].operation == it.operation)
    decreases |operations|
  {
    if operations != [] {
      var front, last := operations[..|operations| - 1], operations[|operations| - 1];
      OperationItemsMembership(project, front, it);
      if it in SectionItems(project, last) {
        if AllowedOperation(last.operation) {
          UnitItemsMembership(project, last.operation, last.units, it);
          var l :| 0 <= l < |last.units| && last.units[l] == UnitValue(it.rule.unit, it.rule.value);
          assert operations[|operations| - 1] == last;
        } else {
          assert operations[|operations| - 1] == last;
        }
      }
    }
  }

  lemma {:induction false} ItemsMembership(entries: seq<ProjectRules>, it: Item)
    ensures it in Items(entries) ==>
      && (it.RuleItem? ==> Configured(entries, it.rule))
      && (it.BadOperation? ==>
            && it.project != DefaultsKey && !AllowedOperation(it.operation)
            && exists i, j :: SectionAt(entries, i, j, it.project, it.operation))
    decreases |entries|
  {
    if entries != [] {
      var front, last := entries[..|entries| - 1], entries[|entries| - 1];
      ItemsMembership(front, it);
      var n := |entries| - 1;
      if it in Items(front) {
        if it.RuleItem? {
          var i, j, l :| RuleAt(front, i, j, l, it.rule);
          assert RuleAt(entries, i, j, l, it.rule);
        } else {
          var i, j :| SectionAt(front, i, j, it.project, it.operation);
          assert SectionAt(entries, i, j, it.project, it.operation);
        }
      } else if it in ProjectItems(last) {
        OperationItemsMembership(last.project, last.operations, it);
        if it.RuleItem? {
          var j, l :| 0 <= j < |last.operations| && 0 <= l < |last.operations[j].units| &&
            last.operations[j].operation == it.rule.operation && last.operations[j].units[l] == UnitValue(it.rule.unit, it.rule.value);
          assert RuleAt(entries, n, j, l, it.rule);
        } else {
          var j :| 0 <= j < |last.operations| && last.operations[j].operation == it.operation;
          assert SectionAt(entries, n, j, it.project, it.operation);
        }
      }
    }
  }

  lemma {:induction false} OperationItemsHasRule(project: string, operations: seq<OperationRules>, j: int, l: int)
    requires 0 <= j < |operations| && 0 <= l < |operations[j].units|
    requires AllowedOperation(operations[j].operation)
    ensures RuleItem(Rule(project, operations[j].operation, operations[j].units[l].unit, operations[j].units[l].value))
      in OperationItems(project, operations)
    decreases |operations|
  {
    var front := operations[..|operations| - 1];
    if j < |operations| - 1 {
      assert operations[j] == front[j];
      OperationItemsHasRule(project, front, j, l);
    } else {
      var s := operations[j];
      UnitItemsMembership(project, s.operation, s.units,
        RuleItem(Rule(project, s.operation, s.units[l].unit, s.units[l].value)));
    }
  }

  lemma {:induction false} OperationItemsHasBadOperation(project: string, operations: seq<OperationRules>, j: int)
    requires 0 <= j < |operations| && !AllowedOperation(operations[j].operation)
    ensures BadOperation(project, operations[j].operation) in OperationItems(project, operations)
    decreases |operations|
  {
    var front := operations[..|operations| - 1];
    if j < |operations| - 1 {
      assert operations[j] == front[j];
      OperationItemsHasBadOperation(project, front, j);
    }
  }

  /** Every rule of a project other than `.defaults` under an allowed operation is looked at. */
  lemma {:induction false} ConfiguredRuleIsItem(entries: seq<ProjectRules>, i: int, j: int, l: int, r: Rule)
    requires RuleAt(entries, i, j, l, r) && r.project != DefaultsKey && AllowedOperation(r.operation)
    ensures RuleItem(r) in Items(entries)
    decreases |entries|
  {
    var front := entries[..|entries| - 1];
    if i < |entries| - 1 {
      assert RuleAt(front, i, j, l, r);
      ConfiguredRuleIsItem(front, i, j, l, r);
    } else {
      OperationItemsHasRule(r.project, entries[i].operations, j, l);
    }
  }

  /** Every disallowed operation section of a project other than `.defaults` is looked at once. */
  lemma {:induction false} BadSectionIsItem(entries: seq<ProjectRules>, i: int, j: int)
    requires 0 <= i < |entries| && 0 <= j < |entries[i].operations|
    requires entries[i].project != DefaultsKey && !AllowedOperation(entries[i].operations[j].operation)
    ensures BadOperation(entries[i].project, entries[i].operations[j].operation) in Items(entries)
    decreases |entries|
  {
    var front := entries[..|entries| - 1];
    if i < |entries| - 1 {
      assert entries[i] == front[i];
      BadSectionIsItem(front, i, j);
    } else {
      OperationItemsHasBadOperation(entries[i].project, entries[i].operations, j);
    }
  }

  /** Items of concatenated files are the concatenated items. */
  lemma {:induction false} ItemsOfConcat(a: seq<ProjectRules>, b: seq<ProjectRules>)
    ensures Items(a + b) == Items(a) + Items(b)
    decreases |b|
  {
    if b == [] {
      assert a + b == a;
    } else {
      var front, last := b[..|b| - 1], b[|b| - 1];
      var ab := a + b;
      assert ab[..|ab| - 1] == a + front;
      assert ab[|ab| - 1] == last;
      assert Items(ab) == Items(a + front) + ProjectItems(last);
      assert Items(b) == Items(front) + ProjectItems(last);
      ItemsOfConcat(a, front);
      ConcatAssoc(Items(a), Items(front), ProjectItems(last));
    }
  }

  /** A `.defaults` entry, wherever it sits in the file and whatever it holds, contributes nothing. */
  lemma DefaultsEntryIgnored(a: seq<ProjectRules>, d: ProjectRules, b: seq<ProjectRules>)
    requires d.project == DefaultsKey
    ensures Items(a + [d] + b) == Items(a + b)
  {
    ItemsOfConcat(a + [d], b);
    ItemsOfConcat(a, [d]);
    ItemsOfConcat(a, b);
    assert [d][..0] == [];
    assert Items([d]) == [];
    assert Items(a + [d]) == Items(a);
  }

  // ----- Properties of the compaction of a whole decoded file -----

  /** A rule of a project other than `.defaults`, under `delete`, in days, weeks or months, is
      recorded: its project is listed under the normalised key (weeks as seven times as many
      days, days and months as given) and excluded from the default job. */
  lemma RecognisedRuleRecorded(entries: seq<ProjectRules>, i: int, j: int, l: int, r: Rule)
    requires RuleAt(entries, i, j, l, r) && r.project != DefaultsKey
    requires AllowedOperation(r.operation) && AllowedUnit(r.unit)
    ensures var table := Table(Items(entries));
      && (r.unit == "weeks" ==>
            Key(r.operation, "days", 7 * r.value) in table && r.project in table[Key(r.operation, "days", 7 * r.value)])
      && (r.unit != "weeks" ==>
            Key(r.operation, r.unit, r.value) in table && r.project in table[Key(r.operation, r.unit, r.value)])
    ensures r.project in Excludes(Items(entries))
  {
    var items := Items(entries);
    ConfiguredRuleIsItem(entries, i, j, l, r);
    NormalKeyOfAllowedUnit(r);
    TableIsGrouping(items);
    ProjectsUnderHas(items, RuleItem(r));
    assert NormalKey(r) in RecordedKeys(items);
    ExcludesAreRecordedProjects(items);
    assert r.project in RecordedProjects(items);
  }

  /** Two projects whose rules normalise to the same key share one table entry. */
  lemma SameKeySameEntry(entries: seq<ProjectRules>, i1: int, j1: int, l1: int, r1: Rule, i2: int, j2: int, l2: int, r2: Rule)
    requires RuleAt(entries, i1, j1, l1, r1) && r1.project != DefaultsKey && AllowedOperation(r1.operation) && AllowedUnit(r1.unit)
    requires RuleAt(entries, i2, j2, l2, r2) && r2.project != DefaultsKey && AllowedOperation(r2.operation) && AllowedUnit(r2.unit)
    requires NormalKey(r1) == NormalKey(r2)
    ensures var table := Table(Items(entries));
      NormalKey(r1) in table && r1.project in table[NormalKey(r1)] && r2.project in table[NormalKey(r1)]
  {
    var items := Items(entries);
    ConfiguredRuleIsItem(entries, i1, j1, l1, r1);
    ConfiguredRuleIsItem(entries, i2, j2, l2, r2);
    TableIsGrouping(items);
    ProjectsUnderHas(items, RuleItem(r1));
    ProjectsUnderHas(items, RuleItem(r2));
    assert NormalKey(r1) in RecordedKeys(items);
  }

  /** Conversely, every table entry comes from such a rule: its key is a `delete` key in days or
      months, and each listed project has a recognised rule that normalises to it. */
  lemma TableEntryHasRule(entries: seq<ProjectRules>, k: Key, project: string)
    requires k in Table(Items(entries)) && project in Table(Items(entries))[k]
    ensures k.operation == "delete" && (k.unit == "days" || k.unit == "months")
    ensures exists r :: Configured(entries, r) && AllowedUnit(r.unit) && NormalKey(r) == k && r.project == project
  {
    var items := Items(entries);
    TableIsGrouping(items);
    ProjectsUnderMembership(items, k, project);
    var it :| it in items && Recorded(it) && NormalKey(it.rule) == k && it.rule.project == project;
    ItemsMembership(entries, it);
    NormalKeyOfAllowedUnit(it.rule);
  }

  /** The default job excludes a project exactly when the project (other than `.defaults`) has at
      least one rule under `delete` in a recognised unit; projects whose rules all have an unknown
      unit or an unsupported operation stay in the default sweep. */
  lemma ExcludedIffRecognisedRule(entries: seq<ProjectRules>, project: string)
    ensures project in Excludes(Items(entries)) <==>
      exists r :: Configured(entries, r) && AllowedUnit(r.unit) && r.project == project
  {
    var items := Items(entries);
    ExcludesAreRecordedProjects(items);
    if project in Excludes(items) {
      assert project in RecordedProjects(items);
      var it :| it in items && Recorded(it) && it.rule.project == project;
      ItemsMembership(entries, it);
    }
    if exists r :: Configured(entries, r) && AllowedUnit(r.unit) && r.project == project {
      var r :| Configured(entries, r) && AllowedUnit(r.unit) && r.project == project;
      var i, j, l :| RuleAt(entries, i, j, l, r);
      ConfiguredRuleIsItem(entries, i, j, l, r);
      assert project in RecordedProjects(items);
    }
  }

  /** A rule in an unknown unit is skipped with a diagnostic: the dedicated one for 'hours'
      (in any letter case), the generic one otherwise. */
  lemma SkippedUnitDiagnosed(entries: seq<ProjectRules>, i: int, j: int, l: int, r: Rule)
    requires RuleAt(entries, i, j, l, r) && r.project != DefaultsKey
    requires AllowedOperation(r.operation) && !AllowedUnit(r.unit)
    ensures IsHours(r.unit) ==> HoursUnsupported in Diagnostics(Items(entries))
    ensures !IsHours(r.unit) ==> UnknownUnit(r.unit) in Diagnostics(Items(entries))
  {
    ConfiguredRuleIsItem(entries, i, j, l, r);
    DiagnosticsOfItem(Items(entries), RuleItem(r));
  }

  /** An operation section other than `delete` is skipped as a whole with one diagnostic. */
  lemma UnsupportedOperationDiagnosed(entries: seq<ProjectRules>, i: int, j: int)
    requires 0 <= i < |entries| && 0 <= j < |entries[i].operations|
    requires entries[i].project != DefaultsKey && !AllowedOperation(entries[i].operations[j].operation)
    ensures UnsupportedOperation(entries[i].operations[j].operation) in Diagnostics(Items(entries))
  {
    BadSectionIsItem(entries, i, j);
    DiagnosticsOfItem(Items(entries), BadOperation(entries[i].project, entries[i].operations[j].operation));
  }

  /** The worked example's file: `.defaults` keeps 30 days, 'logs' two weeks, 'audit' five hours. */
  const ExampleFile: seq<ProjectRules> := [
    ProjectRules(DefaultsKey, [OperationRules("delete", [UnitValue("days", 30)])]),
    ProjectRules("logs", [OperationRules("delete", [UnitValue("weeks", 2)])]),
    ProjectRules("audit", [OperationRules("delete", [UnitValue("hours", 5)])])]

  lemma ExampleItems()
    ensures Items(ExampleFile) == [RuleItem(Rule("logs", "delete", "weeks", 2)), RuleItem(Rule("audit", "delete", "hours", 5))]
  {
    var d, logs, audit := ExampleFile[0], ExampleFile[1], ExampleFile[2];
    assert ExampleFile[..2] == [d, logs];
    assert [d, logs][..1] == [d];
    assert [d][..0] == [];
    assert logs.operations[..0] == [] && logs.operations[0].units[..0] == [];
    assert audit.operations[..0] == [] && audit.operations[0].units[..0] == [];
    var weekly := RuleItem(Rule("logs", "delete", "weeks", 2));
    var hourly := RuleItem(Rule("audit", "delete", "hours", 5));
    assert Items([d]) == [];
    assert UnitItems("logs", "delete", logs.operations[0].units) == [weekly];
    assert ProjectItems(logs) == [weekly];
    assert Items([d, logs]) == [weekly];
    assert UnitItems("audit", "delete", audit.operations[0].units) == [hourly];
    assert ProjectItems(audit) == [hourly];
    assert Items(ExampleFile) == Items([d, logs]) + ProjectItems(audit);
  }

  /** The worked example: a two-week rule for 'logs' and an hourly rule for 'audit' give one
      explicit entry (delete, days, 14) listing 'logs', exclude only 'logs', and report 'hours' once. */
  lemma WorkedExample()
    ensures Table(Items(ExampleFile)) == map[Key("delete", "days", 14) := ["logs"]]
    ensures Excludes(Items(ExampleFile)) == ["logs"]
    ensures Diagnostics(Items(ExampleFile)) == [HoursUnsupported]
  {
    ExampleItems();
    var weekly := RuleItem(Rule("logs", "delete", "weeks", 2));
    var hourly := RuleItem(Rule("audit", "delete", "hours", 5));
    ExampleTable(weekly, hourly);
    ExampleExcludes(weekly, hourly);
    ExampleDiagnostics(weekly, hourly);
  }

  lemma ExampleTable(weekly: Item, hourly: Item)
    requires weekly == RuleItem(Rule("logs", "delete", "weeks", 2))
    requires hourly == RuleItem(Rule("audit", "delete", "hours", 5))
    ensures Table([weekly, hourly]) == map[Key("delete", "days", 14) := ["logs"]]
  {
    assert [weekly, hourly][..1] == [weekly];
    assert [weekly][..0] == [];
    assert Recorded(weekly) && !Recorded(hourly);
    NormalUnitOfAllowedUnit("weeks", 2);
    var m: map<Key, seq<string>> := map[];
    var k := Key("delete", "days", 14);
    assert Table([weekly]) == Append(m, k, "logs");
    assert [] + ["logs"] == ["logs"];
    assert Append(m, k, "logs") == m[k := ["logs"]];
    assert m[k := ["logs"]] == map[k := ["logs"]];
  }

  lemma ExampleExcludes(weekly: Item, hourly: Item)
    requires weekly == RuleItem(Rule("logs", "delete", "weeks", 2))
    requires hourly == RuleItem(Rule("audit", "delete", "hours", 5))
    ensures Excludes([weekly, hourly]) == ["logs"]
  {
    assert [weekly, hourly][..1] == [weekly];
    assert [weekly][..0] == [];
    assert Recorded(weekly) && !Recorded(hourly);
    assert Excludes([weekly]) == ["logs"];
  }

  lemma ExampleDiagnostics(weekly: Item, hourly: Item)
    requires weekly == RuleItem(Rule("logs", "delete", "weeks", 2))
    requires hourly == RuleItem(Rule("audit", "delete", "hours", 5))
    ensures Diagnostics([weekly, hourly]) == [HoursUnsupported]
  {
    assert [weekly, hourly][..1] == [weekly];
    assert [weekly][..0] == [];
    LowerOfLowerCase("hours");
    assert IsHours("hours");
    assert Diagnostics([weekly]) == [];
    assert ItemDiagnostics(hourly) == [HoursUnsupported];
  }
}
