# Citus tenancy and virtual ON DELETE SET NULL, modelled in Dafny

This project models three pieces of the application layer of a multi-tenant
EF Core application running on Citus (distributed PostgreSQL):

- **The virtual `ON DELETE SET NULL` interceptor** (`SetNullInterceptor`).
  Citus cannot null only part of a composite foreign key that includes the
  distribution column, so before every save this interceptor does the work
  itself. It finds the entries the change tracker holds in state Deleted. It
  builds a map from principal type to the dependents that carry a
  `[CitusSetNullOnDelete(navigation)]` marker. Then, for each deleted
  principal and each of its dependent records, it nulls the marked property
  of every dependent whose composite foreign key matches the principal's key,
  and marks that dependent Modified. The tracked entries are scanned first,
  then every row of the dependent type's table, loaded with tracking.
- **The tenant-command rewrite** (`TenancyCommandInterceptor`). Before every
  reader, scalar or non-query command, the command text gets
  `DO $$ BEGIN PERFORM set_tenant('<id>'); END $$;\n` in front of it when an
  ambient dealership id is set. Otherwise the text is left as it was.
- **The ambient tenant scope** (`TenancyScope`). This is a one-slot store of
  the current dealership id, with `SetDealershipId`, `Clear`, a `Current`
  that throws when the slot is empty, a `CurrentOrDefault` that cannot fail,
  and a `Begin` handle whose first `Dispose` clears the slot.

Files and modules:

| file | module | contents |
|---|---|---|
| `wrappers.dfy` | `Wrappers` | `Option`, `Result` |
| `guids.dfy` | `Guids` | 128-bit `Guid`; its lower-case 8-4-4-4-12 hexadecimal text, proved injective |
| `ef_core.dfy` | `EfCore` | the EF Core parts both interceptors rely on: column values, tracker entries and states, entity-type descriptors with markers and navigations, and a tracking query with identity resolution |
| `dependency_map.dfy` | `DependencyMap` | `DependentEntityInfo`, the specification of the map, and `BuildDependencyMap` |
| `set_null_interceptor.dfy` | `SetNullInterceptor` | the specification of the pass as functions; a `DbContext` class whose tracker the methods update in place |
| `set_null_properties.dfy` | `SetNullProperties` | what the pass promises, proved about its specification, up to a second pass changing nothing |
| `dealership_example.dfy` | `DealershipExample` | the dealership schema (Vehicle, Customer, ServiceRecord, PartsOrder) and a deletion scenario over it |
| `tenancy_scope.dfy` | `Tenancy` | `TenancyScope` and `TenancyScopeDisposable` classes |
| `tenancy_command_interceptor.dfy` | `TenancyCommandInterceptor` | `Rewrite`, a `DbCommand` class, `SetTenantContext` and the six hooks |

How the model represents the source:

- **The change tracker** is a `seq<Entry>` field of `DbContext`. Each entry
  holds its exact runtime type, its state and its column values. A value of
  `None` is SQL NULL, and a column with no value reads as NULL. Entries are
  never removed. The tracking query appends an Unchanged entry for each row
  whose (type, primary key) is not tracked yet. It resolves any other row to
  the first tracked entry with that type and key.
- **The database** is an input sequence of rows.
- **The model metadata** is an explicit table of entity-type descriptors.
  Each lists its primary key, its properties with the marker's navigation
  name, and its navigations with their foreign keys.
- **The static `TenancyScope`** is an object, passed explicitly to the hooks.

Where a reader might expect otherwise, the model follows the code:

- A marker naming a navigation that does not exist is skipped silently
  (`SetNullInterceptor.cs:106-108`). It is not rejected.
- Nothing checks that the marked column lies outside the primary key.
- The map is rebuilt on every save (`SetNullInterceptor.cs:70`). It is not
  cached.

Two further behaviours are modelled as the code has them:

- An Added entry that matches is set to Modified, as line 166 does.
- Disposing a `Begin` handle clears the slot rather than restoring an outer
  value (`TenancyScope.cs:72`).

## Model

| member | source | states |
|---|---|---|
| Guids.Format | dotnet-app/TenancyCommandInterceptor.cs:92 | the interpolated id is 36 characters, with hyphens at positions 8, 13, 18 and 23 |
| Guids.FormatInjective | dotnet-app/TenancyCommandInterceptor.cs:92 | distinct ids give distinct texts |
| TenancyCommandInterceptor.SetTenantStatement | dotnet-app/TenancyCommandInterceptor.cs:91-92 | the prepended statement has a fixed length: the DO-block text around a 36-character id |
| TenancyCommandInterceptor.Rewrite | dotnet-app/TenancyCommandInterceptor.cs:80-94 | the old text is always a suffix; the text is unchanged exactly when no id is set; otherwise the prefix is the statement for that id, which depends on nothing else |
| TenancyCommandInterceptor.SetTenantStatementInjective | dotnet-app/TenancyCommandInterceptor.cs:92 | the statement determines the id |
| TenancyCommandInterceptor.RewriteInjective | dotnet-app/TenancyCommandInterceptor.cs:91-92 | a rewritten text determines both the tenant and the original text |
| TenancyCommandInterceptor.RewriteTwiceStacksStatements | dotnet-app/TenancyCommandInterceptor.cs:91-92 | rewriting twice puts two statements in front; the rewrite is not idempotent |
| TenancyCommandInterceptor.SetTenantContext | dotnet-app/TenancyCommandInterceptor.cs:80-94 | the command text becomes the rewrite of the old text under `CurrentOrDefault`; `Current` is never called |
| TenancyCommandInterceptor.ReaderExecuting | dotnet-app/TenancyCommandInterceptor.cs:11-19 | applies the rewrite once and returns the incoming result unchanged |
| TenancyCommandInterceptor.ReaderExecutingAsync | dotnet-app/TenancyCommandInterceptor.cs:21-30 | applies the rewrite once and returns the incoming result unchanged |
| TenancyCommandInterceptor.ScalarExecuting | dotnet-app/TenancyCommandInterceptor.cs:32-40 | applies the rewrite once and returns the incoming result unchanged |
| TenancyCommandInterceptor.ScalarExecutingAsync | dotnet-app/TenancyCommandInterceptor.cs:42-51 | applies the rewrite once and returns the incoming result unchanged |
| TenancyCommandInterceptor.NonQueryExecuting | dotnet-app/TenancyCommandInterceptor.cs:53-61 | applies the rewrite once and returns the incoming result unchanged |
| TenancyCommandInterceptor.NonQueryExecutingAsync | dotnet-app/TenancyCommandInterceptor.cs:63-72 | applies the rewrite once and returns the incoming result unchanged |
| TenancyCommandInterceptor.CommandInScopeAndOutside | dotnet-app/TenancyCommandInterceptor.cs:80-94 | inside a `Begin` scope, a command goes out as one statement plus its text; after `Dispose` it goes out untouched, with no exception |
| TenancyCommandInterceptor.TwoHooksTwoStatements | dotnet-app/TenancyCommandInterceptor.cs:32-51 | two hook calls on one command stack two statements |
| Tenancy.TenancyScope.constructor | dotnet-app/TenancyScope.cs:10 | a fresh flow's slot is empty |
| Tenancy.TenancyScope.CurrentOrDefault | dotnet-app/TenancyScope.cs:34 | reads the slot as it is, absent or set, with no precondition and no failure path |
| Tenancy.TenancyScope.Current | dotnet-app/TenancyScope.cs:16-29 | succeeds exactly when a value is set, returning it; otherwise fails with InvalidOperationException and the source's message |
| Tenancy.TenancyScope.SetDealershipId | dotnet-app/TenancyScope.cs:40-43 | afterwards `CurrentOrDefault` is the id |
| Tenancy.TenancyScope.Clear | dotnet-app/TenancyScope.cs:48-51 | afterwards `CurrentOrDefault` is absent |
| Tenancy.TenancyScope.Begin | dotnet-app/TenancyScope.cs:58-62 | sets the id and returns a fresh, undisposed handle on this scope |
| Tenancy.TenancyScopeDisposable.Dispose | dotnet-app/TenancyScope.cs:68-75 | the first call clears the slot; a later call leaves it as it is; afterwards the handle is disposed |
| Tenancy.LaterSetWins | dotnet-app/TenancyScope.cs:16-43 | a later set overwrites an earlier one, and `Current` returns it |
| Tenancy.ClearEmptiesSlot | dotnet-app/TenancyScope.cs:16-51 | after `Clear`, `CurrentOrDefault` is absent and `Current` fails |
| Tenancy.NestedScopeLosesOuterValue | dotnet-app/TenancyScope.cs:58-75 | disposing a nested scope leaves the slot empty; the outer value is not restored |
| Tenancy.SecondDisposeKeepsLaterValue | dotnet-app/TenancyScope.cs:68-75 | a value set after the first `Dispose` survives a second `Dispose` |
| EfCore.FindNavigation | dotnet-app/SetNullInterceptor.cs:106-108 | absent exactly when no navigation has that name; otherwise a navigation of that name |
| EfCore.FindTracked | dotnet-app/SetNullInterceptor.cs:253-257 | identity resolution: a tracked entry of that type and key, or none exactly when none is tracked |
| EfCore.Attach | dotnet-app/SetNullInterceptor.cs:253-257 | identity resolution of one row: the result is the first entry with the row's type and key; when a tracked entry has them the tracker is unchanged, otherwise the row is appended as an Unchanged entry and is the one resolved to |
| EfCore.RowsOf | dotnet-app/SetNullInterceptor.cs:253 | exactly the rows of the queried type |
| EfCore.TrackingQuery | dotnet-app/SetNullInterceptor.cs:253-257 | keeps the tracker as a prefix; resolves each row of the queried type, in table order, to the first entry with that row's type and key; every appended entry is a row of that type, attached as Unchanged, that resolved to it |
| EfCore.QueryResolvesToType | dotnet-app/SetNullInterceptor.cs:253 | every resolved entry is of the queried type; every appended entry is Unchanged, of that type, and among the resolved ones |
| EfCore.QueryAttachesUntrackedRows | dotnet-app/SetNullInterceptor.cs:253-257 | with no row tracked and keys distinct, the query appends one Unchanged entry per row, in table order |
| EfCore.QueryTracksEveryRow | dotnet-app/SetNullInterceptor.cs:253-257 | after the query, every row of the type is tracked |
| EfCore.QueryOverTrackedRows | dotnet-app/SetNullInterceptor.cs:253-257 | a query over rows that are all tracked attaches nothing |
| DependencyMap.OfPrincipal | dotnet-app/SetNullInterceptor.cs:110-121 | exactly the records whose navigation targets that principal type |
| DependencyMap.GroupLookup | dotnet-app/SetNullInterceptor.cs:115-130 | filing records gives a key exactly for principals with records, each holding its records in order |
| DependencyMap.DependencyMapLookup | dotnet-app/SetNullInterceptor.cs:90-135 | the map has a key exactly for principal types some resolvable marker targets; under it are that type's records in declaration order; no list is empty |
| DependencyMap.MarkedInSound | dotnet-app/SetNullInterceptor.cs:99-108 | every record of an entity type comes from one of its marked properties whose navigation exists |
| DependencyMap.MarkedInComplete | dotnet-app/SetNullInterceptor.cs:99-130 | every marked property whose navigation exists yields its record |
| DependencyMap.MarkedDependentsExactly | dotnet-app/SetNullInterceptor.cs:94-131 | a record is in the map's source list exactly when some entity type has a marked property that resolves to it |
| DependencyMap.MarkedProperty | dotnet-app/SetNullInterceptor.cs:99-130 | a property yields a record exactly when it carries the marker and its navigation exists; the record holds the entity type, its key, the marked column, the named navigation and that navigation's foreign key |
| DependencyMap.Group | dotnet-app/SetNullInterceptor.cs:115-121 | every record is filed under its principal type; every list is non-empty and holds only records of its key's principal type |
| DependencyMap.UnknownNavigationSkipped | dotnet-app/SetNullInterceptor.cs:106-108 | a marker naming no existing navigation is skipped without error: the map equals the one without that marker |
| DependencyMap.BuildDependencyMap | dotnet-app/SetNullInterceptor.cs:90-135 | the nested loops build exactly the specified map |
| SetNullInterceptor.KeyValuesOf | dotnet-app/SetNullInterceptor.cs:183-192 | keys are exactly the given columns, each holding its current value |
| SetNullInterceptor.GetPrincipalKeyValues | dotnet-app/SetNullInterceptor.cs:178-193 | holds every principal-key column of the foreign key with the deleted entry's current value, and no other column |
| SetNullInterceptor.MatchesFrom | dotnet-app/SetNullInterceptor.cs:207-219 | the comparison loop from a position on answers true exactly when every later position has a principal value that the dependent's column equals |
| SetNullInterceptor.MatchesForeignKey | dotnet-app/SetNullInterceptor.cs:198-220 | true exactly when, at every position, the principal column has an extracted value and the dependent's column equals it |
| SetNullInterceptor.NullOut | dotnet-app/SetNullInterceptor.cs:165-166 | same type; state Modified; the column is null; every other column unchanged |
| SetNullInterceptor.NullIfSet | dotnet-app/SetNullInterceptor.cs:160-168 | afterwards the column is null and the type unchanged; an entry whose column was already null is returned as it is; otherwise it becomes Modified with every other column unchanged |
| SetNullInterceptor.TrackedDependents | dotnet-app/SetNullInterceptor.cs:150-157 | exactly the tracked entries of the exact dependent type, not Deleted, that match |
| SetNullInterceptor.NullTracked | dotnet-app/SetNullInterceptor.cs:150-168 | every entry keeps its place and type; each tracked dependent ends with the marked column null; every other entry is untouched |
| SetNullInterceptor.UntrackedStep | dotnet-app/SetNullInterceptor.cs:257-288 | a Modified, Deleted or non-matching entry is untouched; a matching Unchanged or Added entry gets the null-if-set update (column null, and Modified if it held a value); the type never changes |
| SetNullInterceptor.NullUntracked | dotnet-app/SetNullInterceptor.cs:255-289 | each entry some row resolved to gets the per-entry step, every other entry is untouched; so Modified or Deleted entries stay as they are and a resolved, matching Unchanged or Added entry ends with the marked column null; types never change |
| SetNullInterceptor.ProcessDependents | dotnet-app/SetNullInterceptor.cs:140-173 | the tracker only grows; the result at each index is stated by `PairOnTrackedEntries` (entries tracked before) and `PairOnLoadedRows` (entries it appends) |
| SetNullInterceptor.ProcessInfos | dotnet-app/SetNullInterceptor.cs:79-82 | the tracker only grows; `InfosEvolve` states how each entry may change |
| SetNullInterceptor.ProcessDeleted | dotnet-app/SetNullInterceptor.cs:72-83 | the tracker only grows; `DeletedEvolve` states how each entry may change |
| SetNullInterceptor.DeletedEntries | dotnet-app/SetNullInterceptor.cs:61-64 | exactly the indexes of the Deleted entries, in increasing tracker order |
| SetNullInterceptor.SetNullPass | dotnet-app/SetNullInterceptor.cs:58-84 | the tracker only grows; the lemmas of `SetNullProperties` state what the pass does to it |
| SetNullInterceptor.SavingChanges | dotnet-app/SetNullInterceptor.cs:27-38 | runs the pass when a context is present and returns the result unchanged |
| SetNullInterceptor.SavingChangesAsync | dotnet-app/SetNullInterceptor.cs:40-52 | runs the pass when a context is present and returns the result unchanged |
| SetNullInterceptor.ProcessDeletedEntities | dotnet-app/SetNullInterceptor.cs:58-84 | the tracker becomes the specified pass: the Deleted entries snapshotted first, then each one's records from a freshly built map |
| SetNullInterceptor.ProcessDependentEntities | dotnet-app/SetNullInterceptor.cs:140-173 | the tracker becomes the tracked scan followed by the table scan for that pair |
| SetNullInterceptor.LoadAndUpdateUntrackedDependents | dotnet-app/SetNullInterceptor.cs:225-290 | the tracker becomes the table scan over the entries the query resolved |
| SetNullInterceptor.UpdateLoadedDependents | dotnet-app/SetNullInterceptor.cs:255-289 | the loop over the loaded entries, in load order, leaves the tracker as the table scan over them |
| SetNullProperties.MatchIsPositionalComposite | dotnet-app/SetNullInterceptor.cs:178-220 | a match holds exactly when every dependent foreign-key column equals the deleted principal's column at the same position |
| SetNullProperties.TrackedScanIdempotent | dotnet-app/SetNullInterceptor.cs:160-168 | running the tracked scan again changes nothing |
| SetNullProperties.TableScanIdempotent | dotnet-app/SetNullInterceptor.cs:255-289 | running the table scan again over the same loaded entries changes nothing |
| SetNullProperties.PairOnTrackedEntries | dotnet-app/SetNullInterceptor.cs:150-173 | a tracked, non-Deleted, matching entry of the exact type has its marked property nulled and becomes Modified if the property held a value, and is untouched if it was null; every other tracked entry is untouched, and the table scan changes none of them |
| SetNullProperties.PairOnLoadedRows | dotnet-app/SetNullInterceptor.cs:253-289 | whatever was tracked before, each entry a pair appends is some row of the dependent type attached as Unchanged, nulled and Modified if it matches the deleted principal and holds a value |
| SetNullProperties.TableScanOnLoadedRow | dotnet-app/SetNullInterceptor.cs:255-289 | the table scan leaves a freshly attached row's entry as the loaded-row result |
| SetNullProperties.PairOnUntrackedRows | dotnet-app/SetNullInterceptor.cs:253-289 | with no dependent tracked, every row is loaded in table order after the tracker; a matching row with a value is nulled and Modified; the rest stay Unchanged |
| SetNullProperties.PairSettles | dotnet-app/SetNullInterceptor.cs:160-168 | after a pair, every non-Deleted matching dependent has its marked property null |
| SetNullProperties.PairStabilizes | dotnet-app/SetNullInterceptor.cs:140-173 | after a pair, its matching dependents have the marked column null and every row of the dependent table is tracked, when the marked column is outside the key |
| SetNullProperties.PairIdentity | dotnet-app/SetNullInterceptor.cs:140-173 | a pair whose matching dependents are already null and whose table is fully tracked changes nothing and attaches nothing |
| SetNullProperties.PairIdempotent | dotnet-app/SetNullInterceptor.cs:140-173 | processing the same pair again changes nothing and attaches nothing, when the marked column is outside the key |
| SetNullProperties.PassOnlyNullsMarkedColumns | dotnet-app/SetNullInterceptor.cs:58-84 | the pass keeps every entry in place with its type; Deleted entries are unchanged; no entry becomes Deleted; other entries can only have marked columns nulled and become Modified; added entries are Unchanged or Modified |
| SetNullProperties.InfosEvolve | dotnet-app/SetNullInterceptor.cs:79-82 | one deleted entry's records change the tracker only as the whole-pass lemma allows |
| SetNullProperties.DeletedEvolve | dotnet-app/SetNullInterceptor.cs:72-83 | the loop over deleted entries changes the tracker only as the whole-pass lemma allows |
| SetNullProperties.PassWithoutDeletesChangesNothing | dotnet-app/SetNullInterceptor.cs:61-67 | with nothing Deleted, the tracker is left exactly as it was |
| SetNullProperties.UnmappedDeletesDoNothing | dotnet-app/SetNullInterceptor.cs:74-77 | deleted entries whose type has no map entry trigger no work |
| SetNullProperties.PassIgnoresUnmappedPrincipals | dotnet-app/SetNullInterceptor.cs:74-77 | if no marker targets a deleted entry's exact type, the pass changes nothing |
| SetNullProperties.PassLeavesUnmatchedEntries | dotnet-app/SetNullInterceptor.cs:152-155 | an entry that matches no deleted principal under a marker of its exact type comes out unchanged; cascades go one level deep |
| SetNullProperties.PassLeavesUnmarkedTypes | dotnet-app/SetNullInterceptor.cs:153 | an entry of a type with no resolvable marker is never touched |
| SetNullProperties.MarkersShareKey | dotnet-app/SetNullInterceptor.cs:121-129 | in a model with one entity type per CLR type and no marked key column, two records of one dependent type share its key, and neither marked column is in it |
| SetNullProperties.KeyOutsideMarkedColumns | dotnet-app/SetNullInterceptor.cs:121-129 | in such a model, no key column of a dependent type is a column its markers null |
| SetNullProperties.PresentKeysAreNotNull | dotnet-app/SetNullInterceptor.cs:178-193 | a Deleted entry whose key columns hold values gives key values none of which is null |
| SetNullProperties.NullingOnlyBreaksMatches | dotnet-app/SetNullInterceptor.cs:207-219 | against non-null key values, nulling columns can break a match but never make one |
| SetNullProperties.EvolvedKeepsSettled | dotnet-app/SetNullInterceptor.cs:150-168 | a pair whose matching dependents are null stays so under any later nulling that adds no dependent of its type |
| SetNullProperties.EvolvedKeepsTracked | dotnet-app/SetNullInterceptor.cs:253-257 | every row of a dependent table stays tracked under any later nulling, as no marked column is in the key |
| SetNullProperties.TrackedPairAttachesNothing | dotnet-app/SetNullInterceptor.cs:253 | a pair whose dependent table is fully tracked attaches no entry |
| SetNullProperties.PairAttachesDependents | dotnet-app/SetNullInterceptor.cs:253 | every entry a pair attaches is of its dependent type |
| SetNullProperties.PairKeepsStable | dotnet-app/SetNullInterceptor.cs:79-82 | processing any other pair keeps a settled, fully tracked pair in that state |
| SetNullProperties.InfosKeepStable | dotnet-app/SetNullInterceptor.cs:79-82 | processing one deleted entry's records keeps every settled, fully tracked pair in that state |
| SetNullProperties.DeletedKeepStable | dotnet-app/SetNullInterceptor.cs:72-83 | processing deleted entries keeps every settled, fully tracked pair in that state |
| SetNullProperties.InfosStabilize | dotnet-app/SetNullInterceptor.cs:79-82 | after a deleted entry's records, each of those pairs is settled and its table fully tracked |
| SetNullProperties.DeletedStabilize | dotnet-app/SetNullInterceptor.cs:72-83 | after the loop, every (deleted entry, record of its type) pair is settled and its table fully tracked |
| SetNullProperties.InfosIdentity | dotnet-app/SetNullInterceptor.cs:79-82 | a deleted entry whose pairs are all settled and fully tracked triggers no change |
| SetNullProperties.DeletedIdentity | dotnet-app/SetNullInterceptor.cs:72-83 | deleted entries whose pairs are all settled and fully tracked trigger no change |
| SetNullProperties.SameDeletedEntries | dotnet-app/SetNullInterceptor.cs:61-64 | trackers that agree on which entries are Deleted, with no Deleted entry added, give the same snapshot |
| SetNullProperties.PassSettles | dotnet-app/SetNullInterceptor.cs:58-84 | after the pass, no non-Deleted dependent of a deleted principal's record still holds a value in the marked column, and every row of its table is tracked; for a valid model and deleted entries with keys |
| SetNullProperties.PassIdempotent | dotnet-app/SetNullInterceptor.cs:58-84 | a second pass changes nothing and attaches nothing; for a valid model and deleted entries with keys |
| DealershipExample.DealershipMarkedDependents | dotnet-app/DealershipContext.cs:117-153 | the schema's only resolvable marker is the one on PartsOrder.VehicleId |
| DealershipExample.DealershipDependencyMap | dotnet-app/DealershipContext.cs:117-153 | in the dealership schema, only Vehicle is a key, and its one record is PartsOrder.VehicleId over (DealershipId, VehicleId) to (DealershipId, Id) |
| DealershipExample.DealershipModelValid | dotnet-app/DealershipContext.cs:117-153 | the schema has one entity type per CLR type, and its marked column is outside PartsOrder's key |
| DealershipExample.DeletedVehicleHasKey | dotnet-app/DealershipContext.cs:123-131 | the deleted vehicle holds both columns of the key the PartsOrder foreign key refers to |
| DealershipExample.DeletingVehicleNullsItsPartsOrders | dotnet-app/DealershipContext.cs:123-131 | deleting a vehicle nulls VehicleId of its parts order, keeping DealershipId, and marks it Modified; another vehicle's order stays Unchanged |
| DealershipExample.RerunBeforeSaveChangesNothing | dotnet-app/DealershipContext.cs:123-131 | running the interceptor a second time before the save (as a retried `SaveChanges` would) changes nothing |

## Left out

- `AsyncLocal` flow: how the slot propagates across awaits, threads and child tasks is not modelled. The model has one flow's slot, as an object passed to the hooks.
- `CancellationToken` pass-through: not modelled. The asynchronous hooks are modelled as the same synchronous logic, because they do nothing else.
- Reflection: `GetCustomAttribute`, `FindNavigation`, and `MakeGenericMethod`/`Invoke` for `DbSet` are replaced by an explicit descriptor table. The early returns for a null `DbSet` or a non-queryable set (`SetNullInterceptor.cs:238-245`) cannot happen for a mapped type and are not modelled.
- Inheritance: each descriptor lists all of its type's properties and navigations, inherited ones included. The dependency map and the tracked scan compare exact runtime types, as the code does (`SetNullInterceptor.cs:74`, `152`).
- EfCore.RowsOf: keeps only the rows whose type is exactly the queried one. `Set<T>()` (`SetNullInterceptor.cs:233-237`, `253`) also returns rows of types derived from T, and the table scan then matches and nulls those rows too. The model has no subtype relation, so derived-type rows are neither loaded nor nulled.
- EfCore.TrackingQuery: loads and attaches only exact-type rows, for the same reason. A derived-type dependent that is not tracked keeps its value in the model, where the code would null it.
- The database query: it is an input sequence of rows. SQL generation, the connection and server errors are not modelled.
- Unknown property names: `entry.Property(name)` throws for a name the model does not know. The model reads a missing column as null. Foreign-key and key columns always exist in a valid EF model.
- `object.Equals` on boxed values is modelled as equality of `Option<Value>`, with null equal to null.
- SetNullProperties.PairIdempotent: requires the marked column to lie outside the dependent's primary key. Without that, nulling a key column makes the second query attach the row again. The code does not check this.
- SetNullProperties.PassIdempotent: assumes a valid model (one entity type per CLR type, no marked column inside a primary key) and Deleted entries whose referenced key columns hold values. These are assumptions of the model, not checks of the code. Owned and shared-type entity types let several entity types share one CLR type; the dependency map then keys them together and the lemma says nothing about them. A marked key column is nulled by the model, where EF throws when the save modifies a key property. EF never tracks an entity with a null key, so the key values do hold for tracked principals. Without the key values the model can fail the property: nulling one marker's column can make an entry match a null key under a record processed earlier.
- SetNullProperties.PassSettles: makes the same two assumptions, for the same reason.
- SetNullInterceptor.ProcessDependents: its own contract states only that the tracker grows. The result at every index is stated by two lemmas beside it: `PairOnTrackedEntries` for the entries tracked before and `PairOnLoadedRows` for the entries it appends.
- SetNullInterceptor.NullOut: assumes the marked property is nullable, as the attribute's documentation shows (`Guid?`). On a non-nullable value-type property, `SetValue(null)` stores the type's default value instead of null. The null guards (`SetNullInterceptor.cs:163`, `283`) then never skip the entry, and every pass marks it Modified again. The model writes null.
- The save itself: `base.SavingChanges` and the UPDATE/DELETE statements EF then issues are not modelled.
- The `deletedEntry` argument of `LoadAndUpdateUntrackedDependents` is unused in the code. It is kept as a parameter.
- Guids: the 16-byte memory layout of `System.Guid` is not modelled. A Guid is the 128-bit number that its lower-case 8-4-4-4-12 text spells.
- The PL/pgSQL `set_tenant`, `get_tenant` and `unset_tenant` functions, the migrations, and the hosting and test fixtures are not part of this model.
