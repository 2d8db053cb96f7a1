/**
 * The virtual `ON DELETE SET NULL` run before every save.
 *
 * For every entry the change tracker holds in state Deleted, and for every
 * dependent record the dependency map files under that entry's exact type,
 * the pass nulls the marked property of each dependent whose foreign key
 * matches the deleted principal's key, position by position, and marks that
 * dependent Modified: first among the tracked entries, then among all rows of
 * the dependent type's table, loaded with tracking.
 *
 * The functions below say what each step computes; the methods at the end do
 * it in place on a DbContext's change tracker and are proved to agree.
 */
module SetNullInterceptor {
  import opened Wrappers
  import opened EfCore
  import opened DependencyMap

  /** Principal-key values by column name. */
  type KeyValues = map<Column, Option<Value>>

  /** The values of the given columns, by name. */
  function KeyValuesOf(fields: Fields, columns: seq<Column>): (r: KeyValues)
    ensures r.Keys == set c | c in columns
    ensures forall c :: c in r ==> r[c] == Get(fields, c)
  {
    if columns == [] then map[]
    else KeyValuesOf(fields, columns[..|columns| - 1])[columns[|columns| - 1] := Get(fields, columns[|columns| - 1])]
  }

  /** The deleted principal's values for the columns the foreign key refers to. */
  function GetPrincipalKeyValues(principalEntry: Entry, foreignKey: ForeignKey): (r: KeyValues)
    ensures forall i :: 0 <= i < |foreignKey.principalKey| ==>
      foreignKey.principalKey[i] in r && r[foreignKey.principalKey[i]] == Get(principalEntry.fields, foreignKey.principalKey[i])
    ensures forall c :: c in r ==> c in foreignKey.principalKey
  {
    KeyValuesOf(principalEntry.fields, foreignKey.principalKey)
  }

  /** Position i of the foreign key: the principal has a value for its key column and the dependent's column equals it. */
  predicate ColumnMatches(dependent: Entry, foreignKey: ForeignKey, principalKeyValues: KeyValues, i: nat)
    requires i < |foreignKey.properties|
  {
    && foreignKey.principalKey[i] in principalKeyValues
    && Get(dependent.fields, foreignKey.properties[i]) == principalKeyValues[foreignKey.principalKey[i]]
  }

  /** The comparison loop from position i on: the first mismatch, or a missing key value, answers false. */
  function MatchesFrom(dependent: Entry, foreignKey: ForeignKey, principalKeyValues: KeyValues, i: nat): (b: bool)
    requires i <= |foreignKey.properties|
    ensures b <==> forall k :: i <= k < |foreignKey.properties| ==> ColumnMatches(dependent, foreignKey, principalKeyValues, k)
    decreases |foreignKey.properties| - i
  {
    if i == |foreignKey.properties| then true
    else if foreignKey.principalKey[i] !in principalKeyValues then
      assert !ColumnMatches(dependent, foreignKey, principalKeyValues, i); false
    else if Get(dependent.fields, foreignKey.properties[i]) != principalKeyValues[foreignKey.principalKey[i]] then
      assert !ColumnMatches(dependent, foreignKey, principalKeyValues, i); false
    else MatchesFrom(dependent, foreignKey, principalKeyValues, i + 1)
  }

  /** A full positional composite match: every foreign-key column equals the principal's value of the key column at the same position. */
  function MatchesForeignKey(dependent: Entry, foreignKey: ForeignKey, principalKeyValues: KeyValues): (b: bool)
    ensures b <==> forall i :: 0 <= i < |foreignKey.properties| ==> ColumnMatches(dependent, foreignKey, principalKeyValues, i)
  {
    MatchesFrom(dependent, foreignKey, principalKeyValues, 0)
  }

  /** Setting the marked property to null and the entry's state to Modified; nothing else changes. */
  function NullOut(e: Entry, column: Column): (r: Entry)
    ensures r.entityType == e.entityType && r.state == Modified
    ensures Get(r.fields, column) == None
    ensures forall c :: c != column ==> Get(r.fields, c) == Get(e.fields, c)
  {
    e.(fields := e.fields[column := None], state := Modified)
  }

  /** The null guard: only a dependent whose marked property holds a value is touched. */
  function NullIfSet(e: Entry, column: Column): (r: Entry)
    ensures r.entityType == e.entityType && Get(r.fields, column) == None
    ensures Get(e.fields, column) == None ==> r == e
    ensures Get(e.fields, column).Some? ==> r.state == Modified && forall c :: c != column ==> Get(r.fields, c) == Get(e.fields, c)
  {
    if Get(e.fields, column).Some? then NullOut(e, column) else e
  }

  /** The tracked-entry filter: exactly the dependent type, not Deleted, and matching the principal. */
  predicate IsTrackedDependent(e: Entry, info: DependentEntityInfo, principalKeyValues: KeyValues)
  {
    && e.entityType == info.dependentClrType
    && e.state != Deleted
    && MatchesForeignKey(e, info.foreignKey, principalKeyValues)
  }

  /** The indexes of the tracked dependents, in tracker order. */
  function TrackedDependents(entries: seq<Entry>, info: DependentEntityInfo, principalKeyValues: KeyValues): (r: seq<nat>)
    ensures forall i :: 0 <= i < |r| ==> r[i] < |entries|
    ensures forall k :: k in r <==> 0 <= k < |entries| && IsTrackedDependent(entries[k], info, principalKeyValues)
  {
    if entries == [] then []
    else
      var n := |entries| - 1;
      TrackedDependents(entries[..n], info, principalKeyValues) + (if IsTrackedDependent(entries[n], info, principalKeyValues) then [n] else [])
  }

  /** The tracker after the tracked scan. */
  function NullTracked(entries: seq<Entry>, info: DependentEntityInfo, principalKeyValues: KeyValues): (r: seq<Entry>)
    ensures |r| == |entries|
    ensures forall k :: 0 <= k < |entries| ==> r[k].entityType == entries[k].entityType
    ensures forall k :: 0 <= k < |entries| && IsTrackedDependent(entries[k], info, principalKeyValues) ==> Get(r[k].fields, info.propertyToNull) == None
    ensures forall k :: 0 <= k < |entries| && !IsTrackedDependent(entries[k], info, principalKeyValues) ==> r[k] == entries[k]
  {
    seq(|entries|, k requires 0 <= k < |entries| =>
      if IsTrackedDependent(entries[k], info, principalKeyValues) then NullIfSet(entries[k], info.propertyToNull) else entries[k])
  }

  /** What the table scan does with the entry one loaded row resolved to. */
  function UntrackedStep(e: Entry, info: DependentEntityInfo, principalKeyValues: KeyValues): (r: Entry)
    ensures r.entityType == e.entityType
    ensures e.state == Modified || e.state == Deleted || !MatchesForeignKey(e, info.foreignKey, principalKeyValues) ==> r == e
    ensures (e.state == Unchanged || e.state == Added) && MatchesForeignKey(e, info.foreignKey, principalKeyValues) ==> r == NullIfSet(e, info.propertyToNull)
  {
    if e.state == Modified || e.state == Deleted then e
    else if MatchesForeignKey(e, info.foreignKey, principalKeyValues) then NullIfSet(e, info.propertyToNull)
    else e
  }

  /** The tracker after the table scan over the entries the loaded rows resolved to. */
  function NullUntracked(entries: seq<Entry>, loaded: seq<nat>, info: DependentEntityInfo, principalKeyValues: KeyValues): (r: seq<Entry>)
    ensures |r| == |entries|
    ensures forall k :: 0 <= k < |entries| ==> r[k].entityType == entries[k].entityType
    ensures forall k :: 0 <= k < |entries| && k !in loaded ==> r[k] == entries[k]
    ensures forall k :: 0 <= k < |entries| && k in loaded ==> r[k] == UntrackedStep(entries[k], info, principalKeyValues)
    ensures forall k :: 0 <= k < |entries| && (entries[k].state == Modified || entries[k].state == Deleted) ==> r[k] == entries[k]
    ensures forall k ::
      (0 <= k < |entries| && k in loaded && (entries[k].state == Unchanged || entries[k].state == Added)
        && MatchesForeignKey(entries[k], info.foreignKey, principalKeyValues))
      ==> Get(r[k].fields, info.propertyToNull) == None
  {
    seq(|entries|, k requires 0 <= k < |entries| =>
      if k in loaded then UntrackedStep(entries[k], info, principalKeyValues) else entries[k])
  }

  /** One (deleted entry, dependent record) pair: key values, tracked scan, then the table scan. */
  function ProcessDependents(entries: seq<Entry>, database: seq<Row>, deletedEntry: nat, info: DependentEntityInfo): (r: seq<Entry>)
    requires deletedEntry < |entries|
    ensures |entries| <= |r|
  {
    var principalKeyValues := GetPrincipalKeyValues(entries[deletedEntry], info.foreignKey);
    var afterTracked := NullTracked(entries, info, principalKeyValues);
    var query := TrackingQuery(afterTracked, database, info.dependentClrType, info.dependentKey);
    NullUntracked(query.0, query.1, info, principalKeyValues)
  }

  /** One deleted entry against its dependent records, in map order. */
  function ProcessInfos(entries: seq<Entry>, database: seq<Row>, deletedEntry: nat, infos: seq<DependentEntityInfo>): (r: seq<Entry>)
    requires deletedEntry < |entries|
    ensures |entries| <= |r|
    decreases |infos|
  {
    if infos == [] then entries
    else ProcessInfos(ProcessDependents(entries, database, deletedEntry, infos[0]), database, deletedEntry, infos[1..])
  }

  /** The deleted entries one after another; a type with no map entry is skipped. */
  function ProcessDeleted(entries: seq<Entry>, database: seq<Row>, dependencyMap: map<TypeName, seq<DependentEntityInfo>>, deleted: seq<nat>): (r: seq<Entry>)
    requires forall i :: 0 <= i < |deleted| ==> deleted[i] < |entries|
    ensures |entries| <= |r|
    decreases |deleted|
  {
    if deleted == [] then entries
    else
      var principalType := entries[deleted[0]].entityType;
      var next := if principalType in dependencyMap then ProcessInfos(entries, database, deleted[0], dependencyMap[principalType]) else entries;
      ProcessDeleted(next, database, dependencyMap, deleted[1..])
  }

  /** The snapshot of the Deleted entries, in tracker order, taken before any work. */
  function DeletedEntries(entries: seq<Entry>): (r: seq<nat>)
    ensures forall i :: 0 <= i < |r| ==> r[i] < |entries|
    ensures forall k :: k in r <==> 0 <= k < |entries| && entries[k].state == Deleted
    ensures forall i, j :: 0 <= i < j < |r| ==> r[i] < r[j]
  {
    if entries == [] then []
    else
      var n := |entries| - 1;
      DeletedEntries(entries[..n]) + (if entries[n].state == Deleted then [n] else [])
  }

  /** The whole pass: nothing when nothing is Deleted, else every deleted entry with a freshly built map. */
  function SetNullPass(model: Model, entries: seq<Entry>, database: seq<Row>): (r: seq<Entry>)
    ensures |entries| <= |r|
  {
    var deleted := DeletedEntries(entries);
    if |deleted| == 0 then entries
    else ProcessDeleted(entries, database, DependencyMapOf(model), deleted)
  }

  lemma ProcessDeletedStep(entries: seq<Entry>, database: seq<Row>, dependencyMap: map<TypeName, seq<DependentEntityInfo>>, deleted: seq<nat>, i: nat)
    requires i < |deleted| && deleted[i] < |entries|
    requires forall k :: i < k < |deleted| ==> deleted[k] < |entries|
    ensures forall k :: 0 <= k < |deleted[i..]| ==> deleted[i..][k] < |entries|
    ensures var principalType := entries[deleted[i]].entityType;
      var next := if principalType in dependencyMap then ProcessInfos(entries, database, deleted[i], dependencyMap[principalType]) else entries;
      ProcessDeleted(entries, database, dependencyMap, deleted[i..]) == ProcessDeleted(next, database, dependencyMap, deleted[i + 1..])
  {
    assert deleted[i..][0] == deleted[i] && deleted[i..][1..] == deleted[i + 1..];
  }

  lemma ProcessInfosStep(entries: seq<Entry>, database: seq<Row>, deletedEntry: nat, infos: seq<DependentEntityInfo>, j: nat)
    requires j < |infos| && deletedEntry < |entries|
    ensures ProcessInfos(entries, database, deletedEntry, infos[j..])
      == ProcessInfos(ProcessDependents(entries, database, deletedEntry, infos[j]), database, deletedEntry, infos[j + 1..])
  {
    assert infos[j..][0] == infos[j] && infos[j..][1..] == infos[j + 1..];
  }

  /** The context the interceptor is handed: its model, its database and its change tracker. */
  class DbContext {
    const model: Model
    const database: seq<Row>
    var entries: seq<Entry>

    constructor (model: Model, database: seq<Row>, entries: seq<Entry>)
      ensures this.model == model && this.database == database && this.entries == entries
    {
      this.model := model;
      this.database := database;
      this.entries := entries;
    }
  }

  /** The synchronous save hook: run the pass when there is a context, then hand the result on unchanged. */
  method SavingChanges<T>(context: DbContext?, result: InterceptionResult<T>) returns (r: InterceptionResult<T>)
    modifies context
    ensures r == result
    ensures context != null ==> context.entries == SetNullPass(context.model, old(context.entries), context.database)
  {
    if context != null {
      ProcessDeletedEntities(context);
    }
    r := result;
  }

  /** The asynchronous save hook: as SavingChanges. */
  method SavingChangesAsync<T>(context: DbContext?, result: InterceptionResult<T>) returns (r: InterceptionResult<T>)
    modifies context
    ensures r == result
    ensures context != null ==> context.entries == SetNullPass(context.model, old(context.entries), context.database)
  {
    if context != null {
      ProcessDeletedEntities(context);
    }
    r := result;
  }

  /** The pass over the change tracker; the map is rebuilt from the model on every call. */
  method ProcessDeletedEntities(context: DbContext)
    modifies context
    ensures context.entries == SetNullPass(context.model, old(context.entries), context.database)
  {
    var deletedEntries := DeletedEntries(context.entries);
    if |deletedEntries| == 0 {
      return;
    }
    var dependencyMap := BuildDependencyMap(context.model);
    ghost var target := ProcessDeleted(context.entries, context.database, dependencyMap, deletedEntries);
    for i := 0 to |deletedEntries|
      invariant forall k :: 0 <= k < |deletedEntries| ==> deletedEntries[k] < |context.entries|
      invariant forall k :: 0 <= k < |deletedEntries[i..]| ==> deletedEntries[i..][k] < |context.entries|
      invariant ProcessDeleted(context.entries, context.database, dependencyMap, deletedEntries[i..]) == target
    {
      var deletedEntry := deletedEntries[i];
      ProcessDeletedStep(context.entries, context.database, dependencyMap, deletedEntries, i);
      var principalType := context.entries[deletedEntry].entityType;
      if principalType !in dependencyMap {
        continue;
      }
      var dependentInfos := dependencyMap[principalType];
      ghost var start := context.entries;
      for j := 0 to |dependentInfos|
        invariant |start| <= |context.entries|
        invariant ProcessInfos(context.entries, context.database, deletedEntry, dependentInfos[j..])
          == ProcessInfos(start, context.database, deletedEntry, dependentInfos)
      {
        ProcessInfosStep(context.entries, context.database, deletedEntry, dependentInfos, j);
        ProcessDependentEntities(context, deletedEntry, dependentInfos[j]);
      }
    }
  }

  /** One (deleted entry, dependent record) pair: null the tracked dependents, then scan the table. */
  method ProcessDependentEntities(context: DbContext, deletedEntry: nat, dependentInfo: DependentEntityInfo)
    requires deletedEntry < |context.entries|
    modifies context
    ensures context.entries == ProcessDependents(old(context.entries), context.database, deletedEntry, dependentInfo)
  {
    var principalKeyValues := GetPrincipalKeyValues(context.entries[deletedEntry], dependentInfo.foreignKey);
    var trackedDependents := TrackedDependents(context.entries, dependentInfo, principalKeyValues);
    var propertyToNull := dependentInfo.propertyToNull;
    ghost var before := context.entries;
    for j := 0 to |trackedDependents|
      invariant |context.entries| == |before|
      invariant forall k :: 0 <= k < |before| ==>
        context.entries[k] == if k in trackedDependents[..j] then NullIfSet(before[k], propertyToNull) else before[k]
    {
      var dependentEntry := trackedDependents[j];
      assert trackedDependents[..j + 1] == trackedDependents[..j] + [dependentEntry];
      var currentValue := Get(context.entries[dependentEntry].fields, propertyToNull);
      if currentValue.Some? {
        context.entries := context.entries[dependentEntry := NullOut(context.entries[dependentEntry], propertyToNull)];
      }
    }
    assert trackedDependents[..|trackedDependents|] == trackedDependents;
    assert context.entries == NullTracked(before, dependentInfo, principalKeyValues);
    LoadAndUpdateUntrackedDependents(context, deletedEntry, dependentInfo, principalKeyValues);
  }

  /**
   * The table scan: load every row of the dependent type with tracking, skip
   * entries already Modified or Deleted, compare the rest column by column and
   * null the marked property of each match that still holds a value.
   */
  method LoadAndUpdateUntrackedDependents(context: DbContext, deletedEntry: nat, dependentInfo: DependentEntityInfo, principalKeyValues: KeyValues)
    modifies context
    ensures var query := TrackingQuery(old(context.entries), context.database, dependentInfo.dependentClrType, dependentInfo.dependentKey);
      context.entries == NullUntracked(query.0, query.1, dependentInfo, principalKeyValues)
  {
    var query := TrackingQuery(context.entries, context.database, dependentInfo.dependentClrType, dependentInfo.dependentKey);
    context.entries := query.0;
    UpdateLoadedDependents(context, query.1, dependentInfo, principalKeyValues);
  }

  /** The loop of the table scan over the entries the loaded rows resolved to, in load order. */
  method UpdateLoadedDependents(context: DbContext, allDependents: seq<nat>, dependentInfo: DependentEntityInfo, principalKeyValues: KeyValues)
    requires forall i :: 0 <= i < |allDependents| ==> allDependents[i] < |context.entries|
    modifies context
    ensures context.entries == NullUntracked(old(context.entries), allDependents, dependentInfo, principalKeyValues)
  {
    var fkProperties := dependentInfo.foreignKey.properties;
    var pkProperties := dependentInfo.foreignKey.principalKey;
    ghost var before := context.entries;
    for i := 0 to |allDependents|
      invariant |context.entries| == |before|
      invariant forall k :: 0 <= k < |before| ==>
        context.entries[k] == if k in allDependents[..i] then UntrackedStep(before[k], dependentInfo, principalKeyValues) else before[k]
    {
      var dependent := allDependents[i];
      assert allDependents[..i + 1] == allDependents[..i] + [dependent];
      var entry := context.entries[dependent];
      if entry.state == Modified || entry.state == Deleted {
        continue;
      }
      var matches := true;
      var m := 0;
      while m < |fkProperties|
        invariant 0 <= m <= |fkProperties|
        invariant matches
        invariant forall k :: 0 <= k < m ==> ColumnMatches(entry, dependentInfo.foreignKey, principalKeyValues, k)
      {
        var fkValue := Get(entry.fields, fkProperties[m]);
        var pkPropertyName := pkProperties[m];
        if pkPropertyName !in principalKeyValues || fkValue != principalKeyValues[pkPropertyName] {
          assert !ColumnMatches(entry, dependentInfo.foreignKey, principalKeyValues, m);
          matches := false;
          break;
        }
        m := m + 1;
      }
      assert matches == MatchesForeignKey(entry, dependentInfo.foreignKey, principalKeyValues);
      if matches {
        var currentValue := Get(entry.fields, dependentInfo.propertyToNull);
        if currentValue.Some? {
          context.entries := context.entries[dependent := NullOut(entry, dependentInfo.propertyToNull)];
        }
      }
    }
    assert allDependents[..|allDependents|] == allDependents;
  }
}
