/**
 * The cleanup command lines: the default job's command, with its reserved and per-project
 * excludes, and one explicit command per grouping key, with one prefix clause per project.
 */
module Commands {
  import opened Text
  import opened Policy

  /** Index families that the default sweep must never delete. */
  const SearchGuardExclude: string := " --exclude .searchguard*"
  const KibanaExclude: string := " --exclude .kibana*"
  const ApimanExclude: string := " --exclude .apiman_*"

  /** `/usr/bin/curator --loglevel ERROR <connection> <operation> indices --timestring %Y.%m.%d` */
  function CommandHead(connection: string, operation: string): string {
    "/usr/bin/curator --loglevel ERROR " + connection + " " + operation + " indices --timestring %Y.%m.%d"
  }

  /** ` --older-than <value> --time-unit <unit>` */
  function RetentionClause(unit: string, value: int): string {
    " --older-than " + IntToString(value) + " --time-unit " + unit
  }

  function BaseCommand(connection: string, operation: string, unit: string, value: int): string {
    CommandHead(connection, operation) + RetentionClause(unit, value)
  }

  /** `<option><project><suffix>` */
  function Clause(option: string, project: string, suffix: string): string {
    option + project + suffix
  }

  /** One clause per project, in order. */
  function Clauses(option: string, projects: seq<string>, suffix: string): string
    decreases |projects|
  {
    if projects == [] then ""
    else Clauses(option, projects[..|projects| - 1], suffix) + Clause(option, projects[|projects| - 1], suffix)
  }

  /** ` --exclude <project>.*` */
  function ExcludeClause(project: string): string {
    Clause(" --exclude ", project, ".*")
  }

  function ExcludeClauses(projects: seq<string>): string {
    Clauses(" --exclude ", projects, ".*")
  }

  function PrefixClauses(projects: seq<string>): string {
    Clauses(" --prefix ", projects, ".")
  }

  /** The default command before any per-project exclude is appended. */
  function DefaultHeader(connection: string, unit: string, value: int): string {
    BaseCommand(connection, "delete", unit, value) + (SearchGuardExclude + KibanaExclude + ApimanExclude)
  }

  /** The default command once the given projects are excluded. */
  function DefaultCommand(connection: string, unit: string, value: int, excludes: seq<string>): string {
    DefaultHeader(connection, unit, value) + ExcludeClauses(excludes)
  }

  /** The explicit command for one grouping key and its projects. */
  function ExplicitCommand(connection: string, k: Key, projects: seq<string>): string {
    BaseCommand(connection, k.operation, k.unit, k.value) + PrefixClauses(projects)
  }

  lemma ClausesStep(option: string, projects: seq<string>, project: string, suffix: string)
    ensures Clauses(option, projects + [project], suffix) == Clauses(option, projects, suffix) + Clause(option, project, suffix)
  {
    assert (projects + [project])[..|projects|] == projects;
  }

  /** What one more item does to a default command built from an exclude list. */
  lemma DefaultCommandStep(header: string, items: seq<Item>, it: Item)
    ensures header + ExcludeClauses(Excludes(items + [it])) ==
      header + ExcludeClauses(Excludes(items)) + (if Recorded(it) then ExcludeClause(it.rule.project) else "")
  {
    ItemStep(items, it);
    if Recorded(it) {
      ClausesStep(" --exclude ", Excludes(items), it.rule.project, ".*");
      ConcatAssoc(header, ExcludeClauses(Excludes(items)), ExcludeClause(it.rule.project));
    } else {
      assert Excludes(items + [it]) == Excludes(items);
    }
  }

  /** Each project's clause occurs in the clause list. */
  lemma {:induction false} ClauseOccurs(option: string, projects: seq<string>, suffix: string, i: int)
    requires 0 <= i < |projects|
    ensures IsInfix(Clause(option, projects[i], suffix), Clauses(option, projects, suffix))
    decreases |projects|
  {
    var front, last := projects[..|projects| - 1], projects[|projects| - 1];
    if i == |projects| - 1 {
      InfixOfSelf(Clause(option, last, suffix));
      InfixOfPrepend(Clause(option, last, suffix), Clauses(option, front, suffix), Clause(option, last, suffix));
    } else {
      assert projects[i] == front[i];
      ClauseOccurs(option, front, suffix, i);
      InfixOfAppend(Clause(option, projects[i], suffix), Clauses(option, front, suffix), Clause(option, last, suffix));
    }
  }

  /** The default command names its retention, always keeps the three reserved excludes,
      and carries an `--exclude <project>.*` clause for every excluded project. */
  lemma DefaultCommandExcludes(connection: string, unit: string, value: int, excludes: seq<string>)
    ensures var command := DefaultCommand(connection, unit, value, excludes);
      && IsInfix(RetentionClause(unit, value), command)
      && IsInfix(SearchGuardExclude, command)
      && IsInfix(KibanaExclude, command)
      && IsInfix(ApimanExclude, command)
      && forall p :: p in excludes ==> IsInfix(" --exclude " + p + ".*", command)
  {
    var head, retention := CommandHead(connection, "delete"), RetentionClause(unit, value);
    var reserved := SearchGuardExclude + KibanaExclude + ApimanExclude;
    var rest := ExcludeClauses(excludes);
    // the retention clause
    InfixOfSelf(retention);
    InfixOfPrepend(retention, head, retention);
    InfixOfAppend(retention, head + retention, reserved);
    InfixOfAppend(retention, head + retention + reserved, rest);
    // the reserved excludes
    InfixOfSelf(SearchGuardExclude);
    InfixOfAppend(SearchGuardExclude, SearchGuardExclude, KibanaExclude);
    InfixOfAppend(SearchGuardExclude, SearchGuardExclude + KibanaExclude, ApimanExclude);
    InfixOfSelf(KibanaExclude);
    InfixOfPrepend(KibanaExclude, SearchGuardExclude, KibanaExclude);
    InfixOfAppend(KibanaExclude, SearchGuardExclude + KibanaExclude, ApimanExclude);
    InfixOfSelf(ApimanExclude);
    InfixOfPrepend(ApimanExclude, SearchGuardExclude + KibanaExclude, ApimanExclude);
    ReservedInHeader(SearchGuardExclude, head + retention, reserved, rest);
    ReservedInHeader(KibanaExclude, head + retention, reserved, rest);
    ReservedInHeader(ApimanExclude, head + retention, reserved, rest);
    // the per-project excludes
    forall p | p in excludes
      ensures IsInfix(" --exclude " + p + ".*", DefaultCommand(connection, unit, value, excludes))
    {
      var i :| 0 <= i < |excludes| && excludes[i] == p;
      ClauseOccurs(" --exclude ", excludes, ".*", i);
      InfixOfPrepend(Clause(" --exclude ", p, ".*"), DefaultHeader(connection, unit, value), rest);
    }
  }

  lemma ReservedInHeader(t: string, base: string, reserved: string, rest: string)
    requires IsInfix(t, reserved)
    ensures IsInfix(t, base + reserved + rest)
  {
    InfixOfPrepend(t, base, reserved);
    InfixOfAppend(t, base + reserved, rest);
  }

  /** An explicit command names its key's retention value and unit, and carries
      a `--prefix <project>.` clause for every project of its list. */
  lemma ExplicitCommandPrefixes(connection: string, k: Key, projects: seq<string>)
    ensures var command := ExplicitCommand(connection, k, projects);
      && IsInfix(RetentionClause(k.unit, k.value), command)
      && forall p :: p in projects ==> IsInfix(" --prefix " + p + ".", command)
  {
    var head, retention := CommandHead(connection, k.operation), RetentionClause(k.unit, k.value);
    var rest := PrefixClauses(projects);
    InfixOfSelf(retention);
    InfixOfPrepend(retention, head, retention);
    InfixOfAppend(retention, head + retention, rest);
    forall p | p in projects
      ensures IsInfix(" --prefix " + p + ".", ExplicitCommand(connection, k, projects))
    {
      var i :| 0 <= i < |projects| && projects[i] == p;
      ClauseOccurs(" --prefix ", projects, ".", i);
      InfixOfPrepend(Clause(" --prefix ", p, "."), head + retention, rest);
    }
  }

  /** Builds the command for one key by appending a prefix clause per project. */
  method AssembleCommand(connection: string, k: Key, projects: seq<string>) returns (command: string)
    ensures command == ExplicitCommand(connection, k, projects)
  {
    command := BaseCommand(connection, k.operation, k.unit, k.value);
    var i := 0;
    while i < |projects|
      invariant 0 <= i <= |projects|
      invariant command == BaseCommand(connection, k.operation, k.unit, k.value) + PrefixClauses(projects[..i])
    {
      assert projects[..i + 1][..i] == projects[..i];
      command := command + Clause(" --prefix ", projects[i], ".");
      i := i + 1;
    }
    assert projects[..i] == projects;
  }

  /** `commands[i]` is the explicit command of `keys[i]`, a key of `table`, for every i. */
  ghost predicate CommandsOf(connection: string, table: map<Key, seq<string>>, keys: seq<Key>, commands: seq<string>) {
    && |keys| == |commands|
    && forall i :: 0 <= i < |keys| ==> keys[i] in table && commands[i] == ExplicitCommand(connection, keys[i], table[keys[i]])
  }

  lemma CommandsOfStep(connection: string, table: map<Key, seq<string>>, keys: seq<Key>, commands: seq<string>,
                       k: Key, command: string)
    requires CommandsOf(connection, table, keys, commands)
    requires k in table && command == ExplicitCommand(connection, k, table[k])
    ensures CommandsOf(connection, table, keys + [k], commands + [command])
  {
    forall i | 0 <= i < |keys| + 1
      ensures (keys + [k])[i] in table
      ensures (commands + [command])[i] == ExplicitCommand(connection, (keys + [k])[i], table[(keys + [k])[i]])
    {
      if i < |keys| {
        assert (keys + [k])[i] == keys[i] && (commands + [command])[i] == commands[i];
      }
    }
  }

  /** One command per key of the grouping table, in the table's iteration order. */
  method ExplicitCommands(connection: string, table: map<Key, seq<string>>) returns (keys: seq<Key>, commands: seq<string>)
    ensures |keys| == |commands| == |table.Keys|
    ensures forall k :: k in keys <==> k in table
    ensures forall i, j :: 0 <= i < j < |keys| ==> keys[i] != keys[j]
    ensures forall i :: 0 <= i < |keys| ==> keys[i] in table && commands[i] == ExplicitCommand(connection, keys[i], table[keys[i]])
  {
    keys, commands := [], [];
    var remaining := table.Keys;
    while remaining != {}
      invariant remaining <= table.Keys
      invariant forall k :: k in keys <==> k in table && k !in remaining
      invariant forall i, j :: 0 <= i < j < |keys| ==> keys[i] != keys[j]
      invariant |keys| + |remaining| == |table.Keys|
      invariant CommandsOf(connection, table, keys, commands)
      decreases |remaining|
    {
      var k :| k in remaining;
      var command := AssembleCommand(connection, k, table[k]);
      CommandsOfStep(connection, table, keys, commands, k, command);
      keys, commands := keys + [k], commands + [command];
      remaining := remaining - {k};
    }
  }
}
