/**
 * What the set-null pass promises, proved about its specification.
 *
 * For one (deleted entry, dependent record) pair: a tracked entry ends up
 * nulled exactly when it is a non-Deleted entry of the dependent type whose
 * foreign key matches and whose marked property holds a value; the table scan
 * never undoes or redoes that; untracked rows are loaded and nulled by the same
 * rule; and each scan, run again, changes nothing.
 *
 * For the whole pass: with nothing Deleted nothing changes; no entry ever
 * becomes Deleted and Deleted entries never change; every other tracked entry
 * can only have marked columns set to null and its state set to Modified; an
 * entry that matches no deleted principal is left exactly as it was. Assuming
 * one entity type per CLR type, no marked column inside a primary key, and
 * deleted principals whose key values are set (as tracked entities' keys
 * always are), the pass settles every (deleted entry, record) pair, and
 * running it a second time before the save changes nothing.
 */
module SetNullProperties {
  import opened Wrappers
  import opened EfCore
  import opened DependencyMap
  import opened SetNullInterceptor

  /** A full positional composite match, stated directly on the dependent and the deleted principal. */
  lemma MatchIsPositionalComposite(dependent: Entry, principal: Entry, foreignKey: ForeignKey)
    ensures MatchesForeignKey(dependent, foreignKey, GetPrincipalKeyValues(principal, foreignKey)) <==>
      forall i :: 0 <= i < |foreignKey.properties| ==>
        Get(dependent.fields, foreignKey.properties[i]) == Get(principal.fields, foreignKey.principalKey[i])
  {
    var pkv := GetPrincipalKeyValues(principal, foreignKey);
    forall i | 0 <= i < |foreignKey.properties|
      ensures ColumnMatches(dependent, foreignKey, pkv, i) <==>
        Get(dependent.fields, foreignKey.properties[i]) == Get(principal.fields, foreignKey.principalKey[i])
    {
    }
  }

  /** The null guard leaves a nulled entry as it is. */
  lemma NullIfSetIdempotent(e: Entry, column: Column)
    ensures NullIfSet(NullIfSet(e, column), column) == NullIfSet(e, column)
  {
  }

  /** Running the tracked scan a second time changes nothing. */
  lemma TrackedScanIdempotent(entries: seq<Entry>, info: DependentEntityInfo, principalKeyValues: KeyValues)
    ensures NullTracked(NullTracked(entries, info, principalKeyValues), info, principalKeyValues) == NullTracked(entries, info, principalKeyValues)
  {
    var once := NullTracked(entries, info, principalKeyValues);
    var twice := NullTracked(once, info, principalKeyValues);
    forall k | 0 <= k < |entries|
      ensures twice[k] == once[k]
    {
      if IsTrackedDependent(once[k], info, principalKeyValues) {
        NullIfSetIdempotent(entries[k], info.propertyToNull);
      }
    }
  }

  /** Running the table scan a second time over the same loaded entries changes nothing. */
  lemma TableScanIdempotent(entries: seq<Entry>, loaded: seq<nat>, info: DependentEntityInfo, principalKeyValues: KeyValues)
    ensures NullUntracked(NullUntracked(entries, loaded, info, principalKeyValues), loaded, info, principalKeyValues)
      == NullUntracked(entries, loaded, info, principalKeyValues)
  {
    var once := NullUntracked(entries, loaded, info, principalKeyValues);
    var twice := NullUntracked(once, loaded, info, principalKeyValues);
    forall k | 0 <= k < |entries|
      ensures twice[k] == once[k]
    {
    }
  }

  /**
   * On the entries tracked before the pair is processed, the pair does exactly
   * what the tracked scan does: a non-Deleted entry of exactly the dependent
   * type whose foreign key matches has its marked property nulled and becomes
   * Modified if the property held a value, and is left entirely alone if it was
   * already null; every other tracked entry is left entirely alone. The table
   * scan that follows changes none of them.
   */
  lemma PairOnTrackedEntries(entries: seq<Entry>, database: seq<Row>, deletedEntry: nat, info: DependentEntityInfo, k: nat)
    requires deletedEntry < |entries| && k < |entries|
    ensures var principalKeyValues := GetPrincipalKeyValues(entries[deletedEntry], info.foreignKey);
      ProcessDependents(entries, database, deletedEntry, info)[k] ==
        if IsTrackedDependent(entries[k], info, principalKeyValues) then NullIfSet(entries[k], info.propertyToNull) else entries[k]
  {
    var principalKeyValues := GetPrincipalKeyValues(entries[deletedEntry], info.foreignKey);
    var afterTracked := NullTracked(entries, info, principalKeyValues);
    var query := TrackingQuery(afterTracked, database, info.dependentClrType, info.dependentKey);
    assert query.0[k] == query.0[..|afterTracked|][k] == afterTracked[k];
    if k in query.1 {
      var i :| 0 <= i < |query.1| && query.1[i] == k;
      assert afterTracked[k].entityType == info.dependentClrType;
      assert UntrackedStep(afterTracked[k], info, principalKeyValues) == afterTracked[k];
    }
  }

  /** With no entry of the dependent type tracked, the tracked scan has nothing to do. */
  lemma TrackedScanWithoutDependents(entries: seq<Entry>, info: DependentEntityInfo, principalKeyValues: KeyValues)
    requires forall k :: 0 <= k < |entries| ==> entries[k].entityType != info.dependentClrType
    ensures NullTracked(entries, info, principalKeyValues) == entries
  {
    var r := NullTracked(entries, info, principalKeyValues);
    forall k | 0 <= k < |entries|
      ensures r[k] == entries[k]
    {
    }
  }

  /** The table scan over freshly appended entries applies the step to each of them and to nothing before them. */
  lemma TableScanOverAppended(entries: seq<Entry>, attached: seq<Entry>, info: DependentEntityInfo, principalKeyValues: KeyValues)
    ensures var r := NullUntracked(entries + attached, Indexes(|entries|, |attached|), info, principalKeyValues);
      && r[..|entries|] == entries
      && forall i :: 0 <= i < |attached| ==> r[|entries| + i] == UntrackedStep(attached[i], info, principalKeyValues)
  {
    var loaded := Indexes(|entries|, |attached|);
    var r := NullUntracked(entries + attached, loaded, info, principalKeyValues);
    forall k | 0 <= k < |entries|
      ensures r[k] == entries[k]
    {
      assert k !in loaded;
    }
    forall i | 0 <= i < |attached|
      ensures r[|entries| + i] == UntrackedStep(attached[i], info, principalKeyValues)
    {
      assert loaded[i] == |entries| + i;
    }
  }

  /** No tracked entry is of the row's type, so none identifies it. */
  lemma OtherTypesTrackNoRow(entries: seq<Entry>, database: seq<Row>, entityType: TypeName, key: seq<Column>)
    requires forall k :: 0 <= k < |entries| ==> entries[k].entityType != entityType
    ensures NoneTracked(entries, RowsOf(database, entityType), key)
  {
    var rows := RowsOf(database, entityType);
    forall k, i | 0 <= k < |entries| && 0 <= i < |rows|
      ensures !Identifies(entries[k], rows[i].entityType, key, KeyOf(rows[i].fields, key))
    {
      assert rows[i] in rows;
    }
  }

  /** A loaded row as the table scan leaves it: attached Unchanged, nulled if it matches and holds a value. */
  function LoadedRowResult(row: Row, info: DependentEntityInfo, principalKeyValues: KeyValues): Entry
  {
    var loaded := Entry(info.dependentClrType, Unchanged, row.fields);
    if MatchesForeignKey(loaded, info.foreignKey, principalKeyValues) then NullIfSet(loaded, info.propertyToNull) else loaded
  }

  /**
   * When no entry of the dependent type is tracked, the table scan loads every
   * row of that type after the tracked entries, in table order, and nulls the
   * marked property of each row that matches the deleted principal and holds a
   * value; the tracked entries are left as they were.
   */
  lemma PairOnUntrackedRows(entries: seq<Entry>, database: seq<Row>, deletedEntry: nat, info: DependentEntityInfo)
    requires deletedEntry < |entries|
    requires forall k :: 0 <= k < |entries| ==> entries[k].entityType != info.dependentClrType
    requires DistinctKeys(RowsOf(database, info.dependentClrType), info.dependentKey)
    ensures var rows := RowsOf(database, info.dependentClrType);
      var principalKeyValues := GetPrincipalKeyValues(entries[deletedEntry], info.foreignKey);
      var r := ProcessDependents(entries, database, deletedEntry, info);
      && |r| == |entries| + |rows|
      && r[..|entries|] == entries
      && forall i :: 0 <= i < |rows| ==> r[|entries| + i] == LoadedRowResult(rows[i], info, principalKeyValues)
  {
    var rows := RowsOf(database, info.dependentClrType);
    var principalKeyValues := GetPrincipalKeyValues(entries[deletedEntry], info.foreignKey);
    TrackedScanWithoutDependents(entries, info, principalKeyValues);
    OtherTypesTrackNoRow(entries, database, info.dependentClrType, info.dependentKey);
    QueryAttachesUntrackedRows(entries, database, info.dependentClrType, info.dependentKey);
    var attached := AttachedEntries(rows);
    TableScanOverAppended(entries, attached, info, principalKeyValues);
    forall i | 0 <= i < |rows|
      ensures attached[i] == Entry(info.dependentClrType, Unchanged, rows[i].fields)
    {
      assert rows[i] in rows;
    }
  }

  /**
   * Whatever the tracker held before: each entry a pair appends is a row of
   * the dependent type attached as Unchanged, with its marked property nulled
   * when it matches the deleted principal and holds a value.
   */
  lemma PairOnLoadedRows(entries: seq<Entry>, database: seq<Row>, deletedEntry: nat, info: DependentEntityInfo, k: nat)
    requires deletedEntry < |entries|
    requires |entries| <= k < |ProcessDependents(entries, database, deletedEntry, info)|
    ensures exists i ::
              && 0 <= i < |RowsOf(database, info.dependentClrType)|
              && ProcessDependents(entries, database, deletedEntry, info)[k] ==
                   LoadedRowResult(RowsOf(database, info.dependentClrType)[i], info, GetPrincipalKeyValues(entries[deletedEntry], info.foreignKey))
  {
    var rows := RowsOf(database, info.dependentClrType);
    var principalKeyValues := GetPrincipalKeyValues(entries[deletedEntry], info.foreignKey);
    var afterTracked := NullTracked(entries, info, principalKeyValues);
    var query := TrackingQuery(afterTracked, database, info.dependentClrType, info.dependentKey);
    assert AttachedFromRow(query, rows, info.dependentClrType, k);
    var i :| 0 <= i < |query.1| && i < |rows| && query.1[i] == k && 0 <= k < |query.0| &&
      query.0[k] == Entry(info.dependentClrType, Unchanged, rows[i].fields);
    TableScanOnLoadedRow(query.0, query.1, info, principalKeyValues, k, i, rows[i]);
  }

  /** The table scan on an entry a row was freshly attached as. */
  lemma TableScanOnLoadedRow(entries: seq<Entry>, loaded: seq<nat>, info: DependentEntityInfo, principalKeyValues: KeyValues, k: nat, i: nat, row: Row)
    requires i < |loaded| && loaded[i] == k && k < |entries|
    requires entries[k] == Entry(info.dependentClrType, Unchanged, row.fields)
    ensures NullUntracked(entries, loaded, info, principalKeyValues)[k] == LoadedRowResult(row, info, principalKeyValues)
  {
    assert k in loaded;
  }

  /** Every non-Deleted entry of the dependent type that matches already has its marked property null. */
  ghost predicate Settled(entries: seq<Entry>, info: DependentEntityInfo, principalKeyValues: KeyValues)
  {
    forall k :: 0 <= k < |entries| && IsTrackedDependent(entries[k], info, principalKeyValues) ==>
      Get(entries[k].fields, info.propertyToNull) == None
  }

  /** After one pair, every matching dependent (tracked before or loaded by the scan) has the marked property null. */
  lemma PairSettles(entries: seq<Entry>, database: seq<Row>, deletedEntry: nat, info: DependentEntityInfo)
    requires deletedEntry < |entries|
    ensures Settled(ProcessDependents(entries, database, deletedEntry, info), info, GetPrincipalKeyValues(entries[deletedEntry], info.foreignKey))
  {
    var principalKeyValues := GetPrincipalKeyValues(entries[deletedEntry], info.foreignKey);
    var afterTracked := NullTracked(entries, info, principalKeyValues);
    var query := TrackingQuery(afterTracked, database, info.dependentClrType, info.dependentKey);
    var r := ProcessDependents(entries, database, deletedEntry, info);
    QueryResolvesToType(afterTracked, database, info.dependentClrType, info.dependentKey);
    forall k | 0 <= k < |r| && IsTrackedDependent(r[k], info, principalKeyValues)
      ensures Get(r[k].fields, info.propertyToNull) == None
    {
      if k < |entries| {
        PairOnTrackedEntries(entries, database, deletedEntry, info, k);
      } else {
        assert k in query.1 && query.0[k].state == Unchanged;
      }
    }
  }

  /** On a settled tracker the tracked scan does nothing. */
  lemma SettledTrackedScan(entries: seq<Entry>, info: DependentEntityInfo, principalKeyValues: KeyValues)
    requires Settled(entries, info, principalKeyValues)
    ensures NullTracked(entries, info, principalKeyValues) == entries
  {
    var r := NullTracked(entries, info, principalKeyValues);
    forall k | 0 <= k < |entries|
      ensures r[k] == entries[k]
    {
    }
  }

  /** On a settled tracker the table scan does nothing, whichever entries of the dependent type the rows resolved to. */
  lemma SettledTableScan(entries: seq<Entry>, loaded: seq<nat>, info: DependentEntityInfo, principalKeyValues: KeyValues)
    requires Settled(entries, info, principalKeyValues)
    requires forall i :: 0 <= i < |loaded| ==> loaded[i] < |entries| && entries[loaded[i]].entityType == info.dependentClrType
    ensures NullUntracked(entries, loaded, info, principalKeyValues) == entries
  {
    var r := NullUntracked(entries, loaded, info, principalKeyValues);
    forall k | 0 <= k < |entries|
      ensures r[k] == entries[k]
    {
      if k in loaded {
        var i :| 0 <= i < |loaded| && loaded[i] == k;
      }
    }
  }

  /** Nulling a column outside the key leaves every entry's type and key values as they were. */
  lemma PairKeepsKeys(entries: seq<Entry>, database: seq<Row>, deletedEntry: nat, info: DependentEntityInfo)
    requires deletedEntry < |entries| && info.propertyToNull !in info.dependentKey
    ensures var principalKeyValues := GetPrincipalKeyValues(entries[deletedEntry], info.foreignKey);
      var query := TrackingQuery(NullTracked(entries, info, principalKeyValues), database, info.dependentClrType, info.dependentKey);
      var r := ProcessDependents(entries, database, deletedEntry, info);
      |r| == |query.0| &&
      forall k :: 0 <= k < |r| ==> r[k].entityType == query.0[k].entityType && KeyOf(r[k].fields, info.dependentKey) == KeyOf(query.0[k].fields, info.dependentKey)
  {
    var principalKeyValues := GetPrincipalKeyValues(entries[deletedEntry], info.foreignKey);
    var query := TrackingQuery(NullTracked(entries, info, principalKeyValues), database, info.dependentClrType, info.dependentKey);
    var r := ProcessDependents(entries, database, deletedEntry, info);
    forall k | 0 <= k < |r|
      ensures KeyOf(r[k].fields, info.dependentKey) == KeyOf(query.0[k].fields, info.dependentKey)
    {
      forall i | 0 <= i < |info.dependentKey|
        ensures Get(r[k].fields, info.dependentKey[i]) == Get(query.0[k].fields, info.dependentKey[i])
      {
        assert info.dependentKey[i] != info.propertyToNull;
      }
    }
  }

  /**
   * The pair (deletedEntry, info) has nothing left to do: every matching
   * dependent already has its marked property null, and every row of the
   * dependent type's table is tracked.
   */
  ghost predicate Stable(entries: seq<Entry>, database: seq<Row>, deletedEntry: nat, info: DependentEntityInfo)
  {
    && deletedEntry < |entries|
    && Settled(entries, info, GetPrincipalKeyValues(entries[deletedEntry], info.foreignKey))
    && AllTracked(entries, database, info.dependentClrType, info.dependentKey)
  }

  /** After one pair, that pair has nothing left to do, and the deleted entry is as it was. */
  lemma PairStabilizes(entries: seq<Entry>, database: seq<Row>, deletedEntry: nat, info: DependentEntityInfo)
    requires deletedEntry < |entries| && entries[deletedEntry].state == Deleted
    requires info.propertyToNull !in info.dependentKey
    ensures ProcessDependents(entries, database, deletedEntry, info)[deletedEntry] == entries[deletedEntry]
    ensures Stable(ProcessDependents(entries, database, deletedEntry, info), database, deletedEntry, info)
  {
    var principalKeyValues := GetPrincipalKeyValues(entries[deletedEntry], info.foreignKey);
    var afterTracked := NullTracked(entries, info, principalKeyValues);
    var query := TrackingQuery(afterTracked, database, info.dependentClrType, info.dependentKey);
    var once := ProcessDependents(entries, database, deletedEntry, info);
    PairOnTrackedEntries(entries, database, deletedEntry, info, deletedEntry);
    PairSettles(entries, database, deletedEntry, info);
    QueryTracksEveryRow(afterTracked, database, info.dependentClrType, info.dependentKey);
    PairKeepsKeys(entries, database, deletedEntry, info);
    AllTrackedSameKeys(query.0, once, database, info.dependentClrType, info.dependentKey);
  }

  /** A pair with nothing left to do changes nothing and attaches nothing. */
  lemma PairIdentity(entries: seq<Entry>, database: seq<Row>, deletedEntry: nat, info: DependentEntityInfo)
    requires Stable(entries, database, deletedEntry, info)
    ensures ProcessDependents(entries, database, deletedEntry, info) == entries
  {
    var principalKeyValues := GetPrincipalKeyValues(entries[deletedEntry], info.foreignKey);
    SettledTrackedScan(entries, info, principalKeyValues);
    QueryOverTrackedRows(entries, database, info.dependentClrType, info.dependentKey);
    var query := TrackingQuery(entries, database, info.dependentClrType, info.dependentKey);
    SettledTableScan(entries, query.1, info, principalKeyValues);
  }

  /**
   * Processing the same (deleted entry, dependent record) pair a second time
   * changes nothing: no state, no value, and no further entry is attached,
   * provided the deleted entry is Deleted (as every trigger is) and the marked
   * column is not part of the dependent's primary key.
   */
  lemma PairIdempotent(entries: seq<Entry>, database: seq<Row>, deletedEntry: nat, info: DependentEntityInfo)
    requires deletedEntry < |entries| && entries[deletedEntry].state == Deleted
    requires info.propertyToNull !in info.dependentKey
    ensures var once := ProcessDependents(entries, database, deletedEntry, info);
      ProcessDependents(once, database, deletedEntry, info) == once
  {
    PairStabilizes(entries, database, deletedEntry, info);
    PairIdentity(ProcessDependents(entries, database, deletedEntry, info), database, deletedEntry, info);
  }

  /** The columns the model marks on entity type t. */
  ghost function MarkedColumns(model: Model, t: TypeName): set<Column>
  {
    set info | info in MarkedDependents(model) && info.dependentClrType == t :: info.propertyToNull
  }

  /**
   * b is a: same type; unchanged if a is Deleted; otherwise at most marked
   * columns set to null and the state set to Modified.
   */
  ghost predicate OnlyNulled(a: Entry, b: Entry, columns: set<Column>)
  {
    && b.entityType == a.entityType
    && (a.state == Deleted ==> b == a)
    && (b.state == a.state || b.state == Modified)
    && forall c :: Get(b.fields, c) == Get(a.fields, c) || (c in columns && Get(b.fields, c) == None)
  }

  /** How the tracker may have changed since orig: tracked entries only as OnlyNulled says, new entries never Deleted or Added. */
  ghost predicate Evolved(model: Model, orig: seq<Entry>, cur: seq<Entry>)
  {
    && |orig| <= |cur|
    && (forall k :: 0 <= k < |orig| ==> OnlyNulled(orig[k], cur[k], MarkedColumns(model, orig[k].entityType)))
    && (forall k :: |orig| <= k < |cur| ==> cur[k].state == Unchanged || cur[k].state == Modified)
  }

  lemma EvolvedTransitive(model: Model, a: seq<Entry>, b: seq<Entry>, c: seq<Entry>)
    requires Evolved(model, a, b) && Evolved(model, b, c)
    ensures Evolved(model, a, c)
  {
    forall k | 0 <= k < |a|
      ensures OnlyNulled(a[k], c[k], MarkedColumns(model, a[k].entityType))
    {
      assert OnlyNulled(b[k], c[k], MarkedColumns(model, b[k].entityType));
    }
    forall k | |a| <= k < |c|
      ensures c[k].state == Unchanged || c[k].state == Modified
    {
      if k < |b| {
        assert OnlyNulled(b[k], c[k], MarkedColumns(model, b[k].entityType));
      }
    }
  }

  lemma NullIfSetOnlyNulls(model: Model, e: Entry, info: DependentEntityInfo)
    requires info in MarkedDependents(model) && e.entityType == info.dependentClrType && e.state != Deleted
    ensures OnlyNulled(e, NullIfSet(e, info.propertyToNull), MarkedColumns(model, e.entityType))
  {
    assert info.propertyToNull in MarkedColumns(model, e.entityType);
  }

  /** One pair changes the tracker only as Evolved allows. */
  lemma PairEvolves(model: Model, entries: seq<Entry>, database: seq<Row>, deletedEntry: nat, info: DependentEntityInfo)
    requires deletedEntry < |entries| && info in MarkedDependents(model)
    ensures Evolved(model, entries, ProcessDependents(entries, database, deletedEntry, info))
  {
    var principalKeyValues := GetPrincipalKeyValues(entries[deletedEntry], info.foreignKey);
    var r := ProcessDependents(entries, database, deletedEntry, info);
    forall k | 0 <= k < |entries|
      ensures OnlyNulled(entries[k], r[k], MarkedColumns(model, entries[k].entityType))
    {
      PairOnTrackedEntries(entries, database, deletedEntry, info, k);
      if IsTrackedDependent(entries[k], info, principalKeyValues) {
        NullIfSetOnlyNulls(model, entries[k], info);
      }
    }
    var afterTracked := NullTracked(entries, info, principalKeyValues);
    var query := TrackingQuery(afterTracked, database, info.dependentClrType, info.dependentKey);
    QueryResolvesToType(afterTracked, database, info.dependentClrType, info.dependentKey);
    forall k | |entries| <= k < |r|
      ensures r[k].state == Unchanged || r[k].state == Modified
    {
      assert query.0[k].state == Unchanged;
    }
  }

  lemma {:induction false} InfosEvolve(model: Model, entries: seq<Entry>, database: seq<Row>, deletedEntry: nat, infos: seq<DependentEntityInfo>)
    requires deletedEntry < |entries|
    requires forall info :: info in infos ==> info in MarkedDependents(model)
    ensures Evolved(model, entries, ProcessInfos(entries, database, deletedEntry, infos))
    decreases |infos|
  {
    if infos != [] {
      var next := ProcessDependents(entries, database, deletedEntry, infos[0]);
      PairEvolves(model, entries, database, deletedEntry, infos[0]);
      InfosEvolve(model, next, database, deletedEntry, infos[1..]);
      EvolvedTransitive(model, entries, next, ProcessInfos(next, database, deletedEntry, infos[1..]));
    }
  }

  lemma {:induction false} DeletedEvolve(model: Model, entries: seq<Entry>, database: seq<Row>, deleted: seq<nat>)
    requires forall i :: 0 <= i < |deleted| ==> deleted[i] < |entries|
    ensures Evolved(model, entries, ProcessDeleted(entries, database, DependencyMapOf(model), deleted))
    decreases |deleted|
  {
    if deleted != [] {
      var dependencyMap := DependencyMapOf(model);
      var principalType := entries[deleted[0]].entityType;
      var next := if principalType in dependencyMap then ProcessInfos(entries, database, deleted[0], dependencyMap[principalType]) else entries;
      if principalType in dependencyMap {
        DependencyMapLookup(model, principalType);
        InfosEvolve(model, entries, database, deleted[0], dependencyMap[principalType]);
      }
      DeletedEvolve(model, next, database, deleted[1..]);
      EvolvedTransitive(model, entries, next, ProcessDeleted(next, database, dependencyMap, deleted[1..]));
    }
  }

  /**
   * The whole pass keeps every tracked entry in place and of the same type; a
   * Deleted entry is left exactly as it is; no entry becomes Deleted; any other
   * entry can only have columns its type marks set to null and its state set to
   * Modified; entries the pass adds (rows loaded from the database) are
   * Unchanged or Modified.
   */
  lemma PassOnlyNullsMarkedColumns(model: Model, entries: seq<Entry>, database: seq<Row>)
    ensures Evolved(model, entries, SetNullPass(model, entries, database))
  {
    var deleted := DeletedEntries(entries);
    if |deleted| != 0 {
      DeletedEvolve(model, entries, database, deleted);
    }
  }

  /** With no entry in state Deleted, the pass changes nothing at all. */
  lemma PassWithoutDeletesChangesNothing(model: Model, entries: seq<Entry>, database: seq<Row>)
    requires forall k :: 0 <= k < |entries| ==> entries[k].state != Deleted
    ensures SetNullPass(model, entries, database) == entries
  {
    NoDeletedEntries(entries);
  }

  lemma {:induction false} NoDeletedEntries(entries: seq<Entry>)
    requires forall k :: 0 <= k < |entries| ==> entries[k].state != Deleted
    ensures DeletedEntries(entries) == []
    decreases |entries|
  {
    if entries != [] {
      NoDeletedEntries(entries[..|entries| - 1]);
    }
  }

  /** Deleted entries whose types no resolvable marker points at trigger no work at all. */
  lemma {:induction false} UnmappedDeletesDoNothing(entries: seq<Entry>, database: seq<Row>, dependencyMap: map<TypeName, seq<DependentEntityInfo>>, deleted: seq<nat>)
    requires forall i :: 0 <= i < |deleted| ==> deleted[i] < |entries| && entries[deleted[i]].entityType !in dependencyMap
    ensures ProcessDeleted(entries, database, dependencyMap, deleted) == entries
    decreases |deleted|
  {
    if deleted != [] {
      UnmappedDeletesDoNothing(entries, database, dependencyMap, deleted[1..]);
    }
  }

  /** If no Deleted entry's exact type is a marked navigation's target, the pass changes nothing. */
  lemma PassIgnoresUnmappedPrincipals(model: Model, entries: seq<Entry>, database: seq<Row>)
    requires forall k :: 0 <= k < |entries| && entries[k].state == Deleted ==> OfPrincipal(MarkedDependents(model), entries[k].entityType) == []
    ensures SetNullPass(model, entries, database) == entries
  {
    var deleted := DeletedEntries(entries);
    if |deleted| != 0 {
      forall i | 0 <= i < |deleted|
        ensures entries[deleted[i]].entityType !in DependencyMapOf(model)
      {
        assert deleted[i] in deleted;
        DependencyMapLookup(model, entries[deleted[i]].entityType);
      }
      UnmappedDeletesDoNothing(entries, database, DependencyMapOf(model), deleted);
    }
  }

  /**
   * Entry k matches no Deleted entry under any marker of k's exact type whose
   * navigation targets that Deleted entry's exact type.
   */
  ghost predicate Unaffected(model: Model, entries: seq<Entry>, k: nat)
    requires k < |entries|
  {
    forall d, info :: 0 <= d < |entries| && entries[d].state == Deleted && info in MarkedDependents(model)
      && info.PrincipalType() == entries[d].entityType && info.dependentClrType == entries[k].entityType
      ==> !MatchesForeignKey(entries[k], info.foreignKey, GetPrincipalKeyValues(entries[d], info.foreignKey))
  }

  lemma {:induction false} InfosLeaveUnaffected(model: Model, orig: seq<Entry>, cur: seq<Entry>, database: seq<Row>, d: nat, infos: seq<DependentEntityInfo>, k: nat)
    requires Evolved(model, orig, cur) && d < |orig| && k < |orig| && orig[d].state == Deleted
    requires cur[k] == orig[k] && Unaffected(model, orig, k)
    requires forall info :: info in infos ==> info in MarkedDependents(model) && info.PrincipalType() == orig[d].entityType
    ensures Evolved(model, orig, ProcessInfos(cur, database, d, infos))
    ensures ProcessInfos(cur, database, d, infos)[k] == orig[k]
    decreases |infos|
  {
    if infos != [] {
      var info := infos[0];
      var next := ProcessDependents(cur, database, d, info);
      assert cur[d] == orig[d];
      PairOnTrackedEntries(cur, database, d, info, k);
      PairEvolves(model, cur, database, d, info);
      EvolvedTransitive(model, orig, cur, next);
      InfosLeaveUnaffected(model, orig, next, database, d, infos[1..], k);
    }
  }

  lemma {:induction false} DeletedLeaveUnaffected(model: Model, orig: seq<Entry>, cur: seq<Entry>, database: seq<Row>, deleted: seq<nat>, k: nat)
    requires Evolved(model, orig, cur) && k < |orig| && cur[k] == orig[k] && Unaffected(model, orig, k)
    requires forall i :: 0 <= i < |deleted| ==> deleted[i] < |orig| && orig[deleted[i]].state == Deleted
    ensures ProcessDeleted(cur, database, DependencyMapOf(model), deleted)[k] == orig[k]
    decreases |deleted|
  {
    if deleted != [] {
      var dependencyMap := DependencyMapOf(model);
      var d := deleted[0];
      assert cur[d] == orig[d];
      var principalType := cur[d].entityType;
      var next := if principalType in dependencyMap then ProcessInfos(cur, database, d, dependencyMap[principalType]) else cur;
      if principalType in dependencyMap {
        DependencyMapLookup(model, principalType);
        InfosLeaveUnaffected(model, orig, cur, database, d, dependencyMap[principalType], k);
      }
      DeletedLeaveUnaffected(model, orig, next, database, deleted[1..], k);
    }
  }

  /**
   * A tracked entry that matches no deleted principal, under any marker of its
   * exact type pointing at that principal's exact type, comes out of the pass
   * exactly as it went in: cascades are one level deep and never reach it.
   */
  lemma PassLeavesUnmatchedEntries(model: Model, entries: seq<Entry>, database: seq<Row>, k: nat)
    requires k < |entries| && Unaffected(model, entries, k)
    ensures SetNullPass(model, entries, database)[k] == entries[k]
  {
    var deleted := DeletedEntries(entries);
    if |deleted| != 0 {
      assert Evolved(model, entries, entries);
      DeletedLeaveUnaffected(model, entries, entries, database, deleted, k);
    }
  }

  /** An entry of a type that carries no resolvable marker is never touched. */
  lemma PassLeavesUnmarkedTypes(model: Model, entries: seq<Entry>, database: seq<Row>, k: nat)
    requires k < |entries|
    requires forall info :: info in MarkedDependents(model) ==> info.dependentClrType != entries[k].entityType
    ensures SetNullPass(model, entries, database)[k] == entries[k]
  {
    PassLeavesUnmatchedEntries(model, entries, database, k);
  }

  /**
   * What the model assumes of the schema: one entity type per CLR type (owned
   * and shared-type entity types break this), and no marked property inside its
   * type's primary key (EF would refuse to save a change to one).
   */
  ghost predicate ValidModel(model: Model)
  {
    && (forall i, j :: 0 <= i < j < |model| ==> model[i].clrType != model[j].clrType)
    && (forall t, property :: t in model && property in t.properties && property.setNullOnDelete.Some? ==> property.name !in t.primaryKey)
  }

  /** In a valid model, two records of one dependent type share its key, and neither marked column is in it. */
  lemma MarkersShareKey(model: Model, info: DependentEntityInfo, other: DependentEntityInfo)
    requires ValidModel(model) && info in MarkedDependents(model) && other in MarkedDependents(model)
    requires other.dependentClrType == info.dependentClrType
    ensures other.dependentKey == info.dependentKey && other.propertyToNull !in info.dependentKey
  {
    MarkedDependentsExactly(model, info);
    MarkedDependentsExactly(model, other);
    var t, property :| t in model && property in t.properties && MarkedProperty(t, property) == Some(info);
    var u, otherProperty :| u in model && otherProperty in u.properties && MarkedProperty(u, otherProperty) == Some(other);
    var i :| 0 <= i < |model| && model[i] == t;
    var j :| 0 <= j < |model| && model[j] == u;
    assert i == j;
  }

  /** In a valid model, no column a marker of the type names is part of that type's key. */
  lemma KeyOutsideMarkedColumns(model: Model, info: DependentEntityInfo)
    requires ValidModel(model) && info in MarkedDependents(model)
    ensures forall c :: c in info.dependentKey ==> c !in MarkedColumns(model, info.dependentClrType)
  {
    forall other | other in MarkedDependents(model) && other.dependentClrType == info.dependentClrType
      ensures other.propertyToNull !in info.dependentKey
    {
      MarkersShareKey(model, info, other);
    }
  }

  /**
   * Every Deleted entry holds a value in each principal-key column a marker
   * pointing at its type refers to: EF never tracks an entity with a null key.
   */
  ghost predicate KeysPresent(model: Model, entries: seq<Entry>)
  {
    forall d, info, i :: 0 <= d < |entries| && entries[d].state == Deleted && info in MarkedDependents(model)
      && info.PrincipalType() == entries[d].entityType && 0 <= i < |info.foreignKey.principalKey|
      ==> Get(entries[d].fields, info.foreignKey.principalKey[i]).Some?
  }

  /** No extracted principal-key value is null. */
  predicate NoNullKey(principalKeyValues: KeyValues)
  {
    forall c :: c in principalKeyValues ==> principalKeyValues[c].Some?
  }

  lemma PresentKeysAreNotNull(model: Model, entries: seq<Entry>, d: nat, info: DependentEntityInfo)
    requires KeysPresent(model, entries) && d < |entries| && entries[d].state == Deleted
    requires info in MarkedDependents(model) && info.PrincipalType() == entries[d].entityType
    ensures NoNullKey(GetPrincipalKeyValues(entries[d], info.foreignKey))
  {
    var principalKeyValues := GetPrincipalKeyValues(entries[d], info.foreignKey);
    forall c | c in principalKeyValues
      ensures principalKeyValues[c].Some?
    {
      var i :| 0 <= i < |info.foreignKey.principalKey| && info.foreignKey.principalKey[i] == c;
    }
  }

  /** Nulling columns can only break a match against a principal whose key values are all set, never make one. */
  lemma NullingOnlyBreaksMatches(a: Entry, b: Entry, columns: set<Column>, foreignKey: ForeignKey, principalKeyValues: KeyValues)
    requires OnlyNulled(a, b, columns) && NoNullKey(principalKeyValues)
    requires MatchesForeignKey(b, foreignKey, principalKeyValues)
    ensures MatchesForeignKey(a, foreignKey, principalKeyValues)
  {
    forall i | 0 <= i < |foreignKey.properties|
      ensures ColumnMatches(a, foreignKey, principalKeyValues, i)
    {
      assert ColumnMatches(b, foreignKey, principalKeyValues, i);
    }
  }

  /** A settled pair stays settled under any change Evolved allows that adds no dependent, when its key values are set. */
  lemma EvolvedKeepsSettled(model: Model, cur: seq<Entry>, next: seq<Entry>, info: DependentEntityInfo, principalKeyValues: KeyValues)
    requires Evolved(model, cur, next) && NoNullKey(principalKeyValues) && Settled(cur, info, principalKeyValues)
    requires forall k :: |cur| <= k < |next| ==> next[k].entityType != info.dependentClrType
    ensures Settled(next, info, principalKeyValues)
  {
    forall k | 0 <= k < |next| && IsTrackedDependent(next[k], info, principalKeyValues)
      ensures Get(next[k].fields, info.propertyToNull) == None
    {
      assert OnlyNulled(cur[k], next[k], MarkedColumns(model, cur[k].entityType));
      NullingOnlyBreaksMatches(cur[k], next[k], MarkedColumns(model, cur[k].entityType), info.foreignKey, principalKeyValues);
    }
  }

  /** Tracking of a dependent type's rows survives any change Evolved allows, since no marked column is in the key. */
  lemma EvolvedKeepsTracked(model: Model, cur: seq<Entry>, next: seq<Entry>, database: seq<Row>, info: DependentEntityInfo)
    requires ValidModel(model) && info in MarkedDependents(model)
    requires Evolved(model, cur, next) && AllTracked(cur, database, info.dependentClrType, info.dependentKey)
    ensures AllTracked(next, database, info.dependentClrType, info.dependentKey)
  {
    var key := info.dependentKey;
    KeyOutsideMarkedColumns(model, info);
    forall row | row in database && row.entityType == info.dependentClrType
      ensures FindTracked(next, info.dependentClrType, key, KeyOf(row.fields, key), 0).Some?
    {
      var k := FindTracked(cur, info.dependentClrType, key, KeyOf(row.fields, key), 0).value;
      assert OnlyNulled(cur[k], next[k], MarkedColumns(model, info.dependentClrType));
      forall i | 0 <= i < |key|
        ensures Get(next[k].fields, key[i]) == Get(cur[k].fields, key[i])
      {
        assert key[i] in key;
      }
      assert Identifies(next[k], info.dependentClrType, key, KeyOf(row.fields, key));
    }
  }

  /** A pair whose dependent rows are all tracked attaches no entry. */
  lemma TrackedPairAttachesNothing(entries: seq<Entry>, database: seq<Row>, deletedEntry: nat, info: DependentEntityInfo)
    requires deletedEntry < |entries| && info.propertyToNull !in info.dependentKey
    requires AllTracked(entries, database, info.dependentClrType, info.dependentKey)
    ensures |ProcessDependents(entries, database, deletedEntry, info)| == |entries|
  {
    var key := info.dependentKey;
    var principalKeyValues := GetPrincipalKeyValues(entries[deletedEntry], info.foreignKey);
    var afterTracked := NullTracked(entries, info, principalKeyValues);
    forall k | 0 <= k < |entries|
      ensures KeyOf(afterTracked[k].fields, key) == KeyOf(entries[k].fields, key)
    {
      forall i | 0 <= i < |key|
        ensures Get(afterTracked[k].fields, key[i]) == Get(entries[k].fields, key[i])
      {
        assert key[i] != info.propertyToNull;
      }
    }
    AllTrackedSameKeys(entries, afterTracked, database, info.dependentClrType, key);
    QueryOverTrackedRows(afterTracked, database, info.dependentClrType, key);
  }

  /** Entries a pair attaches are of its dependent type. */
  lemma PairAttachesDependents(entries: seq<Entry>, database: seq<Row>, deletedEntry: nat, info: DependentEntityInfo)
    requires deletedEntry < |entries|
    ensures var r := ProcessDependents(entries, database, deletedEntry, info);
      forall k :: |entries| <= k < |r| ==> r[k].entityType == info.dependentClrType
  {
    var afterTracked := NullTracked(entries, info, GetPrincipalKeyValues(entries[deletedEntry], info.foreignKey));
    QueryResolvesToType(afterTracked, database, info.dependentClrType, info.dependentKey);
  }

  /**
   * Processing any other pair keeps a pair with nothing left to do in that
   * state, in a valid model whose deleted principals have their keys.
   */
  lemma PairKeepsStable(model: Model, orig: seq<Entry>, cur: seq<Entry>, database: seq<Row>, d: nat, info: DependentEntityInfo, d2: nat, info2: DependentEntityInfo)
    requires ValidModel(model) && KeysPresent(model, orig) && Evolved(model, orig, cur)
    requires d < |orig| && orig[d].state == Deleted && info in MarkedDependents(model) && info.PrincipalType() == orig[d].entityType
    requires Stable(cur, database, d, info)
    requires d2 < |cur| && info2 in MarkedDependents(model)
    ensures Stable(ProcessDependents(cur, database, d2, info2), database, d, info)
  {
    var next := ProcessDependents(cur, database, d2, info2);
    PairEvolves(model, cur, database, d2, info2);
    assert OnlyNulled(orig[d], cur[d], MarkedColumns(model, orig[d].entityType));
    assert OnlyNulled(cur[d], next[d], MarkedColumns(model, cur[d].entityType));
    PresentKeysAreNotNull(model, orig, d, info);
    if info2.dependentClrType == info.dependentClrType {
      MarkersShareKey(model, info, info2);
      MarkersShareKey(model, info2, info2);
      TrackedPairAttachesNothing(cur, database, d2, info2);
    } else {
      PairAttachesDependents(cur, database, d2, info2);
    }
    EvolvedKeepsSettled(model, cur, next, info, GetPrincipalKeyValues(orig[d], info.foreignKey));
    EvolvedKeepsTracked(model, cur, next, database, info);
  }

  /** Processing one deleted entry's records keeps every pair with nothing left to do in that state. */
  lemma {:induction false} InfosKeepStable(model: Model, orig: seq<Entry>, cur: seq<Entry>, database: seq<Row>, d2: nat, infos: seq<DependentEntityInfo>, d: nat, info: DependentEntityInfo)
    requires ValidModel(model) && KeysPresent(model, orig) && Evolved(model, orig, cur)
    requires d < |orig| && orig[d].state == Deleted && info in MarkedDependents(model) && info.PrincipalType() == orig[d].entityType
    requires Stable(cur, database, d, info)
    requires d2 < |cur| && forall other :: other in infos ==> other in MarkedDependents(model)
    ensures Stable(ProcessInfos(cur, database, d2, infos), database, d, info)
    decreases |infos|
  {
    if infos != [] {
      var next := ProcessDependents(cur, database, d2, infos[0]);
      PairKeepsStable(model, orig, cur, database, d, info, d2, infos[0]);
      PairEvolves(model, cur, database, d2, infos[0]);
      EvolvedTransitive(model, orig, cur, next);
      InfosKeepStable(model, orig, next, database, d2, infos[1..], d, info);
    }
  }

  /** Processing deleted entries keeps every pair with nothing left to do in that state. */
  lemma {:induction false} DeletedKeepStable(model: Model, orig: seq<Entry>, cur: seq<Entry>, database: seq<Row>, deleted: seq<nat>, d: nat, info: DependentEntityInfo)
    requires ValidModel(model) && KeysPresent(model, orig) && Evolved(model, orig, cur)
    requires d < |orig| && orig[d].state == Deleted && info in MarkedDependents(model) && info.PrincipalType() == orig[d].entityType
    requires Stable(cur, database, d, info)
    requires forall i :: 0 <= i < |deleted| ==> deleted[i] < |cur|
    ensures Stable(ProcessDeleted(cur, database, DependencyMapOf(model), deleted), database, d, info)
    decreases |deleted|
  {
    if deleted != [] {
      var dependencyMap := DependencyMapOf(model);
      var principalType := cur[deleted[0]].entityType;
      var next := if principalType in dependencyMap then ProcessInfos(cur, database, deleted[0], dependencyMap[principalType]) else cur;
      if principalType in dependencyMap {
        DependencyMapLookup(model, principalType);
        InfosKeepStable(model, orig, cur, database, deleted[0], dependencyMap[principalType], d, info);
        InfosEvolve(model, cur, database, deleted[0], dependencyMap[principalType]);
        EvolvedTransitive(model, orig, cur, next);
      }
      DeletedKeepStable(model, orig, next, database, deleted[1..], d, info);
    }
  }

  /** Processing a deleted entry's records leaves each of those pairs with nothing left to do. */
  lemma {:induction false} InfosStabilize(model: Model, orig: seq<Entry>, cur: seq<Entry>, database: seq<Row>, d: nat, infos: seq<DependentEntityInfo>, info: DependentEntityInfo)
    requires ValidModel(model) && KeysPresent(model, orig) && Evolved(model, orig, cur)
    requires d < |orig| && orig[d].state == Deleted && info in infos
    requires forall other :: other in infos ==> other in MarkedDependents(model) && other.PrincipalType() == orig[d].entityType
    ensures Stable(ProcessInfos(cur, database, d, infos), database, d, info)
    decreases |infos|
  {
    var next := ProcessDependents(cur, database, d, infos[0]);
    assert OnlyNulled(orig[d], cur[d], MarkedColumns(model, orig[d].entityType));
    PairEvolves(model, cur, database, d, infos[0]);
    EvolvedTransitive(model, orig, cur, next);
    if infos[0] == info {
      MarkersShareKey(model, info, info);
      PairStabilizes(cur, database, d, info);
      InfosKeepStable(model, orig, next, database, d, infos[1..], d, info);
    } else {
      InfosStabilize(model, orig, next, database, d, infos[1..], info);
    }
  }

  /** Processing the deleted entries leaves every (deleted entry, record of its type) pair with nothing left to do. */
  lemma {:induction false} DeletedStabilize(model: Model, orig: seq<Entry>, cur: seq<Entry>, database: seq<Row>, deleted: seq<nat>, d: nat, info: DependentEntityInfo)
    requires ValidModel(model) && KeysPresent(model, orig) && Evolved(model, orig, cur)
    requires forall i :: 0 <= i < |deleted| ==> deleted[i] < |orig| && orig[deleted[i]].state == Deleted
    requires d in deleted && info in MarkedDependents(model) && info.PrincipalType() == orig[d].entityType
    ensures Stable(ProcessDeleted(cur, database, DependencyMapOf(model), deleted), database, d, info)
    decreases |deleted|
  {
    var dependencyMap := DependencyMapOf(model);
    var d0 := deleted[0];
    assert OnlyNulled(orig[d0], cur[d0], MarkedColumns(model, orig[d0].entityType));
    var principalType := cur[d0].entityType;
    var next := if principalType in dependencyMap then ProcessInfos(cur, database, d0, dependencyMap[principalType]) else cur;
    DependencyMapLookup(model, principalType);
    if principalType in dependencyMap {
      InfosEvolve(model, cur, database, d0, dependencyMap[principalType]);
      EvolvedTransitive(model, orig, cur, next);
    }
    if d0 == d {
      assert info in OfPrincipal(MarkedDependents(model), principalType);
      InfosStabilize(model, orig, cur, database, d, dependencyMap[principalType], info);
      DeletedKeepStable(model, orig, next, database, deleted[1..], d, info);
    } else {
      assert d in deleted[1..];
      DeletedStabilize(model, orig, next, database, deleted[1..], d, info);
    }
  }

  /** Processing pairs with nothing left to do changes nothing. */
  lemma {:induction false} InfosIdentity(entries: seq<Entry>, database: seq<Row>, d: nat, infos: seq<DependentEntityInfo>)
    requires d < |entries| && forall info :: info in infos ==> Stable(entries, database, d, info)
    ensures ProcessInfos(entries, database, d, infos) == entries
    decreases |infos|
  {
    if infos != [] {
      PairIdentity(entries, database, d, infos[0]);
      InfosIdentity(entries, database, d, infos[1..]);
    }
  }

  lemma {:induction false} DeletedIdentity(entries: seq<Entry>, database: seq<Row>, dependencyMap: map<TypeName, seq<DependentEntityInfo>>, deleted: seq<nat>)
    requires forall i :: 0 <= i < |deleted| ==> deleted[i] < |entries|
    requires forall i, info ::
      (0 <= i < |deleted| && entries[deleted[i]].entityType in dependencyMap && info in dependencyMap[entries[deleted[i]].entityType])
      ==> Stable(entries, database, deleted[i], info)
    ensures ProcessDeleted(entries, database, dependencyMap, deleted) == entries
    decreases |deleted|
  {
    if deleted != [] {
      var principalType := entries[deleted[0]].entityType;
      if principalType in dependencyMap {
        InfosIdentity(entries, database, deleted[0], dependencyMap[principalType]);
      }
      DeletedIdentity(entries, database, dependencyMap, deleted[1..]);
    }
  }

  /** Trackers whose entries agree on being Deleted, with no Deleted entry added, have the same Deleted snapshot. */
  lemma {:induction false} SameDeletedEntries(a: seq<Entry>, b: seq<Entry>)
    requires |a| <= |b|
    requires forall k :: 0 <= k < |a| ==> (a[k].state == Deleted <==> b[k].state == Deleted)
    requires forall k :: |a| <= k < |b| ==> b[k].state != Deleted
    ensures DeletedEntries(b) == DeletedEntries(a)
    decreases |b|
  {
    if b != [] {
      var n := |b| - 1;
      if |a| == |b| {
        SameDeletedEntries(a[..n], b[..n]);
      } else {
        SameDeletedEntries(a, b[..n]);
      }
    }
  }

  /**
   * After the pass, for every Deleted entry and every record of its exact
   * type, no non-Deleted entry of the dependent type that matches the deleted
   * principal still holds a value in the marked property, and every row of the
   * dependent type's table is tracked -- in a valid model whose deleted
   * principals have their keys.
   */
  lemma PassSettles(model: Model, entries: seq<Entry>, database: seq<Row>, d: nat, info: DependentEntityInfo)
    requires ValidModel(model) && KeysPresent(model, entries)
    requires d < |entries| && entries[d].state == Deleted
    requires info in MarkedDependents(model) && info.PrincipalType() == entries[d].entityType
    ensures var r := SetNullPass(model, entries, database);
      && Settled(r, info, GetPrincipalKeyValues(entries[d], info.foreignKey))
      && AllTracked(r, database, info.dependentClrType, info.dependentKey)
  {
    var deleted := DeletedEntries(entries);
    assert d in deleted;
    assert Evolved(model, entries, entries);
    DeletedStabilize(model, entries, entries, database, deleted, d, info);
    PassOnlyNullsMarkedColumns(model, entries, database);
    assert OnlyNulled(entries[d], SetNullPass(model, entries, database)[d], MarkedColumns(model, entries[d].entityType));
  }

  /**
   * Running the pass a second time changes nothing: no value, no state, and no
   * further entry is attached -- in a valid model whose deleted principals have
   * their keys.
   */
  lemma PassIdempotent(model: Model, entries: seq<Entry>, database: seq<Row>)
    requires ValidModel(model) && KeysPresent(model, entries)
    ensures SetNullPass(model, SetNullPass(model, entries, database), database) == SetNullPass(model, entries, database)
  {
    var once := SetNullPass(model, entries, database);
    PassOnlyNullsMarkedColumns(model, entries, database);
    forall k | 0 <= k < |entries|
      ensures entries[k].state == Deleted <==> once[k].state == Deleted
    {
      assert OnlyNulled(entries[k], once[k], MarkedColumns(model, entries[k].entityType));
    }
    SameDeletedEntries(entries, once);
    var deleted := DeletedEntries(entries);
    var dependencyMap := DependencyMapOf(model);
    forall i, info | 0 <= i < |deleted| && once[deleted[i]].entityType in dependencyMap && info in dependencyMap[once[deleted[i]].entityType]
      ensures Stable(once, database, deleted[i], info)
    {
      var d := deleted[i];
      assert OnlyNulled(entries[d], once[d], MarkedColumns(model, entries[d].entityType));
      DependencyMapLookup(model, entries[d].entityType);
      PassSettles(model, entries, database, d, info);
    }
    if |deleted| != 0 {
      DeletedIdentity(once, database, dependencyMap, deleted);
    }
  }
}
