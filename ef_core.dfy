/**
 * The parts of EF Core that the two interceptors rely on, made explicit.
 *
 * The change tracker is a sequence of entries, each with its entity type, its
 * lifecycle state and its column values (None is SQL NULL). The model metadata
 * is a table of entity-type descriptors listing primary keys, properties (with
 * the CitusSetNullOnDelete marker, if any) and navigations with their foreign
 * keys. A tracking query over one entity type's table is modelled with EF's
 * identity resolution: a row whose key is already tracked yields that entry,
 * any other row is attached as a new Unchanged entry.
 */
module EfCore {
  import opened Wrappers
  import opened Guids

  type TypeName = string
  type Column = string

  datatype Value = Uuid(id: Guid) | Int(n: int) | Text(s: string) | Bool(b: bool)

  /** Column values of one entity; a column with no value reads as NULL. */
  type Fields = map<Column, Option<Value>>

  /** The current value of a column. */
  function Get(fields: Fields, column: Column): Option<Value>
  {
    if column in fields then fields[column] else None
  }

  datatype EntityState = Unchanged | Added | Modified | Deleted

  /** One change-tracker entry: the entity's exact runtime type, state and values. */
  datatype Entry = Entry(entityType: TypeName, state: EntityState, fields: Fields)

  /** One persisted row of an entity type's table. */
  datatype Row = Row(entityType: TypeName, fields: Fields)

  /** A foreign key: dependent columns and the principal-key columns they refer to, position by position. */
  datatype ForeignKeyColumns = ForeignKeyColumns(properties: seq<Column>, principalKey: seq<Column>)

  /** EF only builds foreign keys whose two column lists have the same length. */
  type ForeignKey = fk: ForeignKeyColumns | |fk.properties| == |fk.principalKey|
    witness ForeignKeyColumns([], [])

  /** A navigation: its name, the entity type it leads to, and the foreign key behind it. */
  datatype Navigation = Navigation(name: string, targetType: TypeName, foreignKey: ForeignKey)

  /** A CLR property; setNullOnDelete holds the navigation name of a [CitusSetNullOnDelete(...)] marker. */
  datatype PropertyDecl = PropertyDecl(name: Column, setNullOnDelete: Option<string>)

  datatype EntityTypeDecl = EntityTypeDecl(
    clrType: TypeName,
    primaryKey: seq<Column>,
    properties: seq<PropertyDecl>,
    navigations: seq<Navigation>)

  /** The entity types of a model, in the order the model enumerates them. */
  type Model = seq<EntityTypeDecl>

  /** The first navigation of that name, if there is one. */
  function FindNavigation(navigations: seq<Navigation>, name: string): (r: Option<Navigation>)
    ensures r.None? <==> forall n :: n in navigations ==> n.name != name
    ensures r.Some? ==> r.value in navigations && r.value.name == name
  {
    if navigations == [] then None
    else if navigations[0].name == name then Some(navigations[0])
    else FindNavigation(navigations[1..], name)
  }

  /** The values of the given key columns, in order. */
  function KeyOf(fields: Fields, key: seq<Column>): (r: seq<Option<Value>>)
    ensures |r| == |key| && forall i :: 0 <= i < |key| ==> r[i] == Get(fields, key[i])
  {
    seq(|key|, i requires 0 <= i < |key| => Get(fields, key[i]))
  }

  /** Whether an entry is the tracked instance of the given type and key values. */
  predicate Identifies(e: Entry, entityType: TypeName, key: seq<Column>, keyValues: seq<Option<Value>>)
  {
    e.entityType == entityType && KeyOf(e.fields, key) == keyValues
  }

  /** Identity resolution: the first tracked entry with this type and key, from index `from` on. */
  function FindTracked(entries: seq<Entry>, entityType: TypeName, key: seq<Column>, keyValues: seq<Option<Value>>, from: nat): (r: Option<nat>)
    requires from <= |entries|
    ensures r.Some? ==> from <= r.value < |entries| && Identifies(entries[r.value], entityType, key, keyValues)
    ensures r.Some? ==> forall k :: from <= k < r.value ==> !Identifies(entries[k], entityType, key, keyValues)
    ensures r.None? <==> forall k :: from <= k < |entries| ==> !Identifies(entries[k], entityType, key, keyValues)
    decreases |entries| - from
  {
    if from == |entries| then None
    else if Identifies(entries[from], entityType, key, keyValues) then Some(from)
    else FindTracked(entries, entityType, key, keyValues, from + 1)
  }

  /** Materialising one row with tracking: the entry it resolves to, attaching it if untracked. */
  function Attach(entries: seq<Entry>, row: Row, key: seq<Column>): (r: (seq<Entry>, nat))
    ensures |entries| <= |r.0| <= |entries| + 1 && r.1 <= |entries| && r.1 < |r.0|
    ensures r.0[..|entries|] == entries
    ensures r.0[r.1].entityType == row.entityType
    ensures KeyOf(r.0[r.1].fields, key) == KeyOf(row.fields, key)
    // the entry resolved to is the first one with the row's type and key ...
    ensures forall k :: 0 <= k < r.1 ==> !Identifies(r.0[k], row.entityType, key, KeyOf(row.fields, key))
    // ... a tracked one when there is one, otherwise the row itself, attached as Unchanged
    ensures r.1 < |entries| ==> r.0 == entries
    ensures r.1 == |entries| ==> r.0 == entries + [Entry(row.entityType, Unchanged, row.fields)]
  {
    match FindTracked(entries, row.entityType, key, KeyOf(row.fields, key), 0)
    case Some(k) => (entries, k)
    case None => (entries + [Entry(row.entityType, Unchanged, row.fields)], |entries|)
  }

  /** The rows of one entity type, in table order. */
  function RowsOf(rows: seq<Row>, entityType: TypeName): (r: seq<Row>)
    ensures forall row :: row in r <==> row in rows && row.entityType == entityType
  {
    if rows == [] then []
    else if rows[0].entityType == entityType then [rows[0]] + RowsOf(rows[1..], entityType)
    else RowsOf(rows[1..], entityType)
  }

  /**
   * `Set<T>().ToList()` with tracking on: every row of the table of entityType,
   * in order, resolved to a tracker entry. Returns the grown tracker and the
   * index of the entry each row resolved to. Tracked entries are left as they are.
   */
  function TrackingQuery(entries: seq<Entry>, rows: seq<Row>, entityType: TypeName, key: seq<Column>): (r: (seq<Entry>, seq<nat>))
    ensures |entries| <= |r.0| && r.0[..|entries|] == entries
    // one resolved entry per row of the type: the first entry with that row's key ...
    ensures |r.1| == |RowsOf(rows, entityType)| && forall i :: 0 <= i < |r.1| ==> r.1[i] < |r.0|
    ensures forall i :: 0 <= i < |r.1| ==> Identifies(r.0[r.1[i]], entityType, key, KeyOf(RowsOf(rows, entityType)[i].fields, key))
    ensures forall i, k :: 0 <= i < |r.1| && 0 <= k < r.1[i] ==> !Identifies(r.0[k], entityType, key, KeyOf(RowsOf(rows, entityType)[i].fields, key))
    // ... and every appended entry is a row of the type, attached as Unchanged, that resolved to it
    ensures forall k :: |entries| <= k < |r.0| ==> AttachedFromRow(r, RowsOf(rows, entityType), entityType, k)
    decreases |rows|
  {
    if rows == [] then (entries, [])
    else if rows[0].entityType != entityType then TrackingQuery(entries, rows[1..], entityType, key)
    else
      var attached := Attach(entries, rows[0], key);
      var rest := TrackingQuery(attached.0, rows[1..], entityType, key);
      assert RowsOf(rows, entityType) == [rows[0]] + RowsOf(rows[1..], entityType);
      ResolveStepIdentifies(entries, rows[0], key, RowsOf(rows[1..], entityType), rest);
      ResolveStepFirst(entries, rows[0], key, RowsOf(rows[1..], entityType), rest);
      ResolveStepAppended(entries, rows[0], key, RowsOf(rows[1..], entityType), rest);
      (rest.0, [attached.1] + rest.1)
  }

  /** What a query's resolution implies for its callers: resolved and appended entries are of the queried type, appended ones Unchanged. */
  lemma QueryResolvesToType(entries: seq<Entry>, rows: seq<Row>, entityType: TypeName, key: seq<Column>)
    ensures forall i :: 0 <= i < |TrackingQuery(entries, rows, entityType, key).1| ==>
      TrackingQuery(entries, rows, entityType, key).0[TrackingQuery(entries, rows, entityType, key).1[i]].entityType == entityType
    ensures forall k :: |entries| <= k < |TrackingQuery(entries, rows, entityType, key).0| ==>
      TrackingQuery(entries, rows, entityType, key).0[k].state == Unchanged &&
      TrackingQuery(entries, rows, entityType, key).0[k].entityType == entityType &&
      k in TrackingQuery(entries, rows, entityType, key).1
  {
    var r := TrackingQuery(entries, rows, entityType, key);
    forall k | |entries| <= k < |r.0|
      ensures r.0[k].state == Unchanged && r.0[k].entityType == entityType && k in r.1
    {
      assert AttachedFromRow(r, RowsOf(rows, entityType), entityType, k);
      var i :| 0 <= i < |r.1| && i < |RowsOf(rows, entityType)| && r.1[i] == k && 0 <= k < |r.0| &&
        r.0[k] == Entry(entityType, Unchanged, RowsOf(rows, entityType)[i].fields);
      assert r.1[i] == k;
    }
  }

  /** Resolving one more row in front of a query's later rows: every row resolves to an entry with its key. */
  lemma ResolveStepIdentifies(entries: seq<Entry>, row: Row, key: seq<Column>, later: seq<Row>, rest: (seq<Entry>, seq<nat>))
    requires |Attach(entries, row, key).0| <= |rest.0| && rest.0[..|Attach(entries, row, key).0|] == Attach(entries, row, key).0
    requires |rest.1| == |later|
    requires forall i :: 0 <= i < |rest.1| ==> rest.1[i] < |rest.0| && Identifies(rest.0[rest.1[i]], row.entityType, key, KeyOf(later[i].fields, key))
    ensures forall i :: 0 <= i < 1 + |rest.1| ==>
              ([Attach(entries, row, key).1] + rest.1)[i] < |rest.0| &&
              Identifies(rest.0[([Attach(entries, row, key).1] + rest.1)[i]], row.entityType, key, KeyOf(([row] + later)[i].fields, key))
  {
    var attached := Attach(entries, row, key);
    var s := [attached.1] + rest.1;
    forall i | 0 <= i < 1 + |rest.1|
      ensures s[i] < |rest.0| && Identifies(rest.0[s[i]], row.entityType, key, KeyOf(([row] + later)[i].fields, key))
    {
      if i == 0 {
        assert rest.0[s[0]] == attached.0[attached.1];
      } else {
        assert s[i] == rest.1[i - 1] && ([row] + later)[i] == later[i - 1];
      }
    }
  }

  /** Resolving one more row in front of a query's later rows: every row resolves to the first entry with its key. */
  lemma ResolveStepFirst(entries: seq<Entry>, row: Row, key: seq<Column>, later: seq<Row>, rest: (seq<Entry>, seq<nat>))
    requires |Attach(entries, row, key).0| <= |rest.0| && rest.0[..|Attach(entries, row, key).0|] == Attach(entries, row, key).0
    requires |rest.1| == |later|
    requires forall i :: 0 <= i < |rest.1| ==> rest.1[i] < |rest.0|
    requires forall i, k :: 0 <= i < |rest.1| && 0 <= k < rest.1[i] ==> !Identifies(rest.0[k], row.entityType, key, KeyOf(later[i].fields, key))
    ensures forall i, k :: 0 <= i < 1 + |rest.1| && 0 <= k < ([Attach(entries, row, key).1] + rest.1)[i] && k < |rest.0| ==>
              !Identifies(rest.0[k], row.entityType, key, KeyOf(([row] + later)[i].fields, key))
  {
    var attached := Attach(entries, row, key);
    var s := [attached.1] + rest.1;
    forall i, k | 0 <= i < 1 + |rest.1| && 0 <= k < s[i] && k < |rest.0|
      ensures !Identifies(rest.0[k], row.entityType, key, KeyOf(([row] + later)[i].fields, key))
    {
      if i == 0 {
        assert rest.0[k] == attached.0[k];
      } else {
        assert s[i] == rest.1[i - 1] && ([row] + later)[i] == later[i - 1];
      }
    }
  }

  /** Entry k of a query's grown tracker is one of the rows, attached as Unchanged, that resolved to it. */
  predicate AttachedFromRow(r: (seq<Entry>, seq<nat>), rows: seq<Row>, entityType: TypeName, k: int)
  {
    exists i :: 0 <= i < |r.1| && i < |rows| && r.1[i] == k && 0 <= k < |r.0| && r.0[k] == Entry(entityType, Unchanged, rows[i].fields)
  }

  /** Resolving one more row in front of a query's later rows: each appended entry is a row that resolved to it. */
  lemma ResolveStepAppended(entries: seq<Entry>, row: Row, key: seq<Column>, later: seq<Row>, rest: (seq<Entry>, seq<nat>))
    requires |Attach(entries, row, key).0| <= |rest.0| && rest.0[..|Attach(entries, row, key).0|] == Attach(entries, row, key).0
    requires |rest.1| == |later|
    requires forall k :: |Attach(entries, row, key).0| <= k < |rest.0| ==> AttachedFromRow(rest, later, row.entityType, k)
    ensures forall k :: |entries| <= k < |rest.0| ==>
              AttachedFromRow((rest.0, [Attach(entries, row, key).1] + rest.1), [row] + later, row.entityType, k)
  {
    var attached := Attach(entries, row, key);
    var r := (rest.0, [attached.1] + rest.1);
    forall k | |entries| <= k < |rest.0|
      ensures AttachedFromRow(r, [row] + later, row.entityType, k)
    {
      if k < |attached.0| {
        assert attached.1 == |entries| == k;
        assert rest.0[k] == attached.0[k] == Entry(row.entityType, Unchanged, row.fields);
        assert r.1[0] == k && ([row] + later)[0] == row;
      } else {
        assert AttachedFromRow(rest, later, row.entityType, k);
        var i :| 0 <= i < |rest.1| && i < |later| && rest.1[i] == k && rest.0[k] == Entry(row.entityType, Unchanged, later[i].fields);
        assert r.1[i + 1] == k && ([row] + later)[i + 1] == later[i];
      }
    }
  }

  /** Whether the rows have pairwise distinct key values, as a primary key guarantees. */
  predicate DistinctKeys(rows: seq<Row>, key: seq<Column>)
  {
    forall i, j :: 0 <= i < j < |rows| ==> KeyOf(rows[i].fields, key) != KeyOf(rows[j].fields, key)
  }

  /** Entries freshly attached for rows, in order. */
  function AttachedEntries(rows: seq<Row>): (r: seq<Entry>)
    ensures |r| == |rows|
    ensures forall i :: 0 <= i < |rows| ==> r[i] == Entry(rows[i].entityType, Unchanged, rows[i].fields)
  {
    seq(|rows|, i requires 0 <= i < |rows| => Entry(rows[i].entityType, Unchanged, rows[i].fields))
  }

  /** The indexes from, from + 1, ..., from + n - 1. */
  function Indexes(from: nat, n: nat): (r: seq<nat>)
    ensures |r| == n && forall i :: 0 <= i < n ==> r[i] == from + i
  {
    seq(n, i requires 0 <= i < n => from + i)
  }

  /** Whether none of the rows is tracked yet. */
  predicate NoneTracked(entries: seq<Entry>, rows: seq<Row>, key: seq<Column>)
  {
    forall k, i :: 0 <= k < |entries| && 0 <= i < |rows| ==>
      !Identifies(entries[k], rows[i].entityType, key, KeyOf(rows[i].fields, key))
  }

  /** Attaching the first of a run of rows with distinct keys leaves the rest untracked. */
  lemma AttachFirstKeepsRestUntracked(entries: seq<Entry>, rows: seq<Row>, key: seq<Column>)
    requires rows != [] && DistinctKeys(rows, key) && NoneTracked(entries, rows, key)
    ensures DistinctKeys(rows[1..], key)
    ensures NoneTracked(entries + [Entry(rows[0].entityType, Unchanged, rows[0].fields)], rows[1..], key)
  {
    var tail := rows[1..];
    forall i, j | 0 <= i < j < |tail|
      ensures KeyOf(tail[i].fields, key) != KeyOf(tail[j].fields, key)
    {
      assert tail[i] == rows[i + 1] && tail[j] == rows[j + 1];
    }
    var grown := entries + [Entry(rows[0].entityType, Unchanged, rows[0].fields)];
    forall k, i | 0 <= k < |grown| && 0 <= i < |tail|
      ensures !Identifies(grown[k], tail[i].entityType, key, KeyOf(tail[i].fields, key))
    {
      assert tail[i] == rows[i + 1];
      if k < |entries| {
        assert grown[k] == entries[k];
      } else {
        assert KeyOf(rows[0].fields, key) != KeyOf(rows[i + 1].fields, key);
      }
    }
  }

  /** One step of the query when the first row is of the queried type and untracked. */
  lemma QueryStepAttaches(entries: seq<Entry>, rows: seq<Row>, entityType: TypeName, key: seq<Column>)
    requires rows != [] && rows[0].entityType == entityType
    requires FindTracked(entries, entityType, key, KeyOf(rows[0].fields, key), 0).None?
    ensures var grown := entries + [Entry(entityType, Unchanged, rows[0].fields)];
      var rest := TrackingQuery(grown, rows[1..], entityType, key);
      TrackingQuery(entries, rows, entityType, key) == (rest.0, [|entries|] + rest.1)
  {
  }

  lemma AppendAttached(entries: seq<Entry>, row: Row, tail: seq<Row>)
    ensures entries + [Entry(row.entityType, Unchanged, row.fields)] + AttachedEntries(tail) == entries + AttachedEntries([row] + tail)
  {
    assert [Entry(row.entityType, Unchanged, row.fields)] + AttachedEntries(tail) == AttachedEntries([row] + tail);
  }

  lemma PrependIndex(from: nat, n: nat)
    ensures [from] + Indexes(from + 1, n) == Indexes(from, n + 1)
  {
  }

  /**
   * When none of a table's rows is tracked yet (and its keys are distinct), the
   * query attaches every row of that type, in table order, after the tracked entries.
   */
  lemma {:induction false} QueryAttachesUntrackedRows(entries: seq<Entry>, rows: seq<Row>, entityType: TypeName, key: seq<Column>)
    requires DistinctKeys(RowsOf(rows, entityType), key)
    requires NoneTracked(entries, RowsOf(rows, entityType), key)
    ensures TrackingQuery(entries, rows, entityType, key).0 == entries + AttachedEntries(RowsOf(rows, entityType))
    ensures TrackingQuery(entries, rows, entityType, key).1 == Indexes(|entries|, |RowsOf(rows, entityType)|)
    decreases |rows|
  {
    if rows == [] {
    } else if rows[0].entityType != entityType {
      QueryAttachesUntrackedRows(entries, rows[1..], entityType, key);
    } else {
      var row := rows[0];
      var mine := RowsOf(rows, entityType);
      var tail := RowsOf(rows[1..], entityType);
      assert mine == [row] + tail;
      assert mine[1..] == tail;
      AttachFirstKeepsRestUntracked(entries, mine, key);
      assert FindTracked(entries, row.entityType, key, KeyOf(row.fields, key), 0).None? by {
        forall k | 0 <= k < |entries|
          ensures !Identifies(entries[k], row.entityType, key, KeyOf(row.fields, key))
        {
          assert mine[0] == row;
        }
      }
      QueryStepAttaches(entries, rows, entityType, key);
      var grown := entries + [Entry(row.entityType, Unchanged, row.fields)];
      QueryAttachesUntrackedRows(grown, rows[1..], entityType, key);
      AppendAttached(entries, row, tail);
      PrependIndex(|entries|, |tail|);
    }
  }

  /** Whether every row of the type already has a tracked entry with its key. */
  predicate AllTracked(entries: seq<Entry>, rows: seq<Row>, entityType: TypeName, key: seq<Column>)
  {
    forall row :: row in rows && row.entityType == entityType ==>
      FindTracked(entries, entityType, key, KeyOf(row.fields, key), 0).Some?
  }

  /** After the query, every row of the queried type is tracked. */
  lemma {:induction false} QueryTracksEveryRow(entries: seq<Entry>, rows: seq<Row>, entityType: TypeName, key: seq<Column>)
    ensures AllTracked(TrackingQuery(entries, rows, entityType, key).0, rows, entityType, key)
    decreases |rows|
  {
    if rows != [] {
      var r := TrackingQuery(entries, rows, entityType, key);
      if rows[0].entityType != entityType {
        QueryTracksEveryRow(entries, rows[1..], entityType, key);
      } else {
        var attached := Attach(entries, rows[0], key);
        QueryTracksEveryRow(attached.0, rows[1..], entityType, key);
        var rest := TrackingQuery(attached.0, rows[1..], entityType, key);
        assert r.0 == rest.0;
        assert rest.0[attached.1] == rest.0[..|attached.0|][attached.1] == attached.0[attached.1];
        assert Identifies(r.0[attached.1], entityType, key, KeyOf(rows[0].fields, key));
      }
    }
  }

  /** A query over rows that are all tracked already attaches nothing. */
  lemma {:induction false} QueryOverTrackedRows(entries: seq<Entry>, rows: seq<Row>, entityType: TypeName, key: seq<Column>)
    requires AllTracked(entries, rows, entityType, key)
    ensures TrackingQuery(entries, rows, entityType, key).0 == entries
    decreases |rows|
  {
    if rows != [] {
      assert rows[0] in rows;
      QueryOverTrackedRows(entries, rows[1..], entityType, key);
    }
  }

  /** Tracking depends only on each entry's type and key values. */
  lemma AllTrackedSameKeys(a: seq<Entry>, b: seq<Entry>, rows: seq<Row>, entityType: TypeName, key: seq<Column>)
    requires |a| == |b|
    requires forall k :: 0 <= k < |a| ==> b[k].entityType == a[k].entityType && KeyOf(b[k].fields, key) == KeyOf(a[k].fields, key)
    requires AllTracked(a, rows, entityType, key)
    ensures AllTracked(b, rows, entityType, key)
  {
    forall row | row in rows && row.entityType == entityType
      ensures FindTracked(b, entityType, key, KeyOf(row.fields, key), 0).Some?
    {
      var k := FindTracked(a, entityType, key, KeyOf(row.fields, key), 0).value;
      assert Identifies(b[k], entityType, key, KeyOf(row.fields, key));
    }
  }

  /** The result an interceptor hands back to EF: whether to suppress execution, and with what. */
  datatype InterceptionResult<T> = InterceptionResult(hasResult: bool, result: Option<T>)
}
