/**
 * The dealership schema the interceptor was written for: Vehicle rows keyed by
 * (DealershipId, Id); PartsOrder rows whose VehicleId carries
 * [CitusSetNullOnDelete("Vehicle")] behind the composite foreign key
 * (DealershipId, VehicleId) -> (DealershipId, Id); Customer and ServiceRecord
 * refer to Vehicle through the same composite key without the marker.
 */
module DealershipExample {
  import opened Wrappers
  import opened Guids
  import opened EfCore
  import opened DependencyMap
  import opened SetNullInterceptor
  import opened SetNullProperties

  const VehicleKey: seq<Column> := ["DealershipId", "Id"]

  const VehicleForeignKey: ForeignKey := ForeignKeyColumns(["DealershipId", "VehicleId"], VehicleKey)

  const VehicleNavigation := Navigation("Vehicle", "Vehicle", VehicleForeignKey)

  const DealershipDecl := EntityTypeDecl("Dealership", ["Id"],
    [PropertyDecl("Id", None), PropertyDecl("Name", None), PropertyDecl("Brand", None)], [])

  const VehicleDecl := EntityTypeDecl("Vehicle", VehicleKey,
    [PropertyDecl("Id", None), PropertyDecl("DealershipId", None), PropertyDecl("Vin", None)], [])

  const CustomerDecl := EntityTypeDecl("Customer", VehicleKey,
    [PropertyDecl("Id", None), PropertyDecl("DealershipId", None), PropertyDecl("VehicleId", None)],
    [VehicleNavigation])

  const ServiceRecordDecl := EntityTypeDecl("ServiceRecord", VehicleKey,
    [PropertyDecl("Id", None), PropertyDecl("DealershipId", None), PropertyDecl("VehicleId", None)],
    [Navigation("Dealership", "Dealership", ForeignKeyColumns(["DealershipId"], ["Id"])), VehicleNavigation])

  const PartsOrderDecl := EntityTypeDecl("PartsOrder", VehicleKey,
    [PropertyDecl("Id", None), PropertyDecl("DealershipId", None), PropertyDecl("VehicleId", Some("Vehicle")),
     PropertyDecl("PartNumber", None)],
    [VehicleNavigation])

  const DealershipModel: Model := [DealershipDecl, VehicleDecl, CustomerDecl, ServiceRecordDecl, PartsOrderDecl]

  /** The one dependent record the marker on PartsOrder.VehicleId yields. */
  const PartsOrderVehicle := DependentEntityInfo("PartsOrder", VehicleKey, "VehicleId", VehicleForeignKey, VehicleNavigation)

  /** A type none of whose properties carries the marker contributes no record. */
  lemma {:induction false} UnmarkedTypeYieldsNothing(entityType: EntityTypeDecl, properties: seq<PropertyDecl>)
    requires forall i :: 0 <= i < |properties| ==> properties[i].setNullOnDelete.None?
    ensures MarkedIn(entityType, properties) == []
  {
    if properties != [] {
      UnmarkedTypeYieldsNothing(entityType, properties[..|properties| - 1]);
    }
  }

  lemma PartsOrderRecord()
    ensures MarkedIn(PartsOrderDecl, PartsOrderDecl.properties) == [PartsOrderVehicle]
  {
    var properties := PartsOrderDecl.properties;
    assert properties[..3][..2] == properties[..2];
    UnmarkedTypeYieldsNothing(PartsOrderDecl, properties[..2]);
    assert MarkedProperty(PartsOrderDecl, properties[2]) == Some(PartsOrderVehicle);
    assert MarkedIn(PartsOrderDecl, properties[..3]) == [PartsOrderVehicle];
  }

  /** Only deleting a Vehicle triggers work, and then only PartsOrder.VehicleId is nulled. */
  lemma DealershipDependencyMap()
    ensures DependencyMapOf(DealershipModel) == map["Vehicle" := [PartsOrderVehicle]]
  {
    DealershipMarkedDependents();
    assert [PartsOrderVehicle][..0] == [];
    var empty: map<TypeName, seq<DependentEntityInfo>> := map[];
    assert Group([PartsOrderVehicle]) == empty["Vehicle" := [] + [PartsOrderVehicle]];
    assert [] + [PartsOrderVehicle] == [PartsOrderVehicle];
    assert empty["Vehicle" := [PartsOrderVehicle]] == map["Vehicle" := [PartsOrderVehicle]];
  }

  /** The schema's only resolvable marker is the one on PartsOrder.VehicleId. */
  lemma DealershipMarkedDependents()
    ensures MarkedDependents(DealershipModel) == [PartsOrderVehicle]
  {
    var model := DealershipModel;
    forall n | 1 <= n <= 4
      ensures MarkedDependents(model[..n]) == MarkedDependents(model[..n - 1])
    {
      assert model[..n][..n - 1] == model[..n - 1];
      UnmarkedTypeYieldsNothing(model[n - 1], model[n - 1].properties);
    }
    assert MarkedDependents(model[..0]) == [];
    assert MarkedDependents(model[..1]) == [];
    assert MarkedDependents(model[..2]) == [];
    assert MarkedDependents(model[..3]) == [];
    assert MarkedDependents(model[..4]) == [];
    assert model[..5] == model;
    PartsOrderRecord();
    assert MarkedDependents(model) == [PartsOrderVehicle];
  }

  /** The schema has one entity type per CLR type, and its one marked column, PartsOrder.VehicleId, is outside PartsOrder's key. */
  lemma DealershipModelValid()
    ensures ValidModel(DealershipModel)
  {
    var model := DealershipModel;
    forall t, property | t in model && property in t.properties && property.setNullOnDelete.Some?
      ensures property.name !in t.primaryKey
    {
      assert t == PartsOrderDecl && property == PartsOrderDecl.properties[2];
    }
  }

  const Acme: Guid := 1
  const VehicleOne: Guid := 10
  const VehicleTwo: Guid := 11

  const VehicleOneFields: Fields := map["Id" := Some(Uuid(VehicleOne)), "DealershipId" := Some(Uuid(Acme)), "Vin" := Some(Text("1HGCM82633A004352"))]

  /** A parts order of dealership Acme for the given vehicle. */
  function PartsOrderFields(id: Guid, vehicle: Guid): Fields
  {
    map["Id" := Some(Uuid(id)), "DealershipId" := Some(Uuid(Acme)), "VehicleId" := Some(Uuid(vehicle)), "PartNumber" := Some(Text("BRK-1"))]
  }

  const OrderForOne := Row("PartsOrder", PartsOrderFields(20, VehicleOne))
  const OrderForTwo := Row("PartsOrder", PartsOrderFields(21, VehicleTwo))

  const DeletedVehicle := Entry("Vehicle", Deleted, VehicleOneFields)
  const Database := [Row("Vehicle", VehicleOneFields), OrderForOne, OrderForTwo]

  /** With one Deleted vehicle, the pass over any database is the one (vehicle, PartsOrder record) pair. */
  lemma PassIsOnePair(database: seq<Row>)
    ensures SetNullPass(DealershipModel, [DeletedVehicle], database) == ProcessDependents([DeletedVehicle], database, 0, PartsOrderVehicle)
  {
    var entries := [DeletedVehicle];
    assert entries[..0] == [];
    assert DeletedEntries(entries) == [0];
    DealershipDependencyMap();
    var processed := ProcessDependents(entries, database, 0, PartsOrderVehicle);
    assert [PartsOrderVehicle][1..] == [] && [0][1..] == [];
    assert ProcessInfos(entries, database, 0, [PartsOrderVehicle]) == ProcessInfos(processed, database, 0, []) == processed;
  }

  /** The PartsOrder table holds the two orders, with distinct keys. */
  lemma PartsOrderRows()
    ensures RowsOf(Database, "PartsOrder") == [OrderForOne, OrderForTwo]
    ensures DistinctKeys(RowsOf(Database, "PartsOrder"), VehicleKey)
  {
    assert Database[1..] == [OrderForOne, OrderForTwo];
    assert Database[1..][1..] == [OrderForTwo];
    assert RowsOf([OrderForTwo], "PartsOrder") == [OrderForTwo] + RowsOf([OrderForTwo][1..], "PartsOrder");
    assert RowsOf(Database[1..], "PartsOrder") == [OrderForOne, OrderForTwo];
    assert KeyOf(OrderForOne.fields, VehicleKey)[1] != KeyOf(OrderForTwo.fields, VehicleKey)[1];
  }

  /** The order for vehicle one matches the deleted vehicle's key; the order for vehicle two does not. */
  lemma OnlyOrderForOneMatches()
    ensures var principalKeyValues := GetPrincipalKeyValues(DeletedVehicle, VehicleForeignKey);
      && MatchesForeignKey(Entry("PartsOrder", Unchanged, OrderForOne.fields), VehicleForeignKey, principalKeyValues)
      && !MatchesForeignKey(Entry("PartsOrder", Unchanged, OrderForTwo.fields), VehicleForeignKey, principalKeyValues)
  {
    var one := Entry("PartsOrder", Unchanged, OrderForOne.fields);
    var two := Entry("PartsOrder", Unchanged, OrderForTwo.fields);
    MatchIsPositionalComposite(one, DeletedVehicle, VehicleForeignKey);
    MatchIsPositionalComposite(two, DeletedVehicle, VehicleForeignKey);
    assert Get(two.fields, "VehicleId") != Get(VehicleOneFields, "Id");
  }

  /** The one pair loads both orders and nulls only the order for vehicle one. */
  lemma PairResult()
    ensures ProcessDependents([DeletedVehicle], Database, 0, PartsOrderVehicle) == [
        DeletedVehicle,
        Entry("PartsOrder", Modified, OrderForOne.fields["VehicleId" := None]),
        Entry("PartsOrder", Unchanged, OrderForTwo.fields)]
  {
    PartsOrderRows();
    PairOnUntrackedRows([DeletedVehicle], Database, 0, PartsOrderVehicle);
    OnlyOrderForOneMatches();
    var r := ProcessDependents([DeletedVehicle], Database, 0, PartsOrderVehicle);
    assert |r| == 3;
  }

  /**
   * Deleting vehicle one of Acme while neither parts order is tracked: the pass
   * loads both orders, nulls VehicleId of the order for vehicle one (keeping
   * its DealershipId, which is also part of the foreign key) and marks it
   * Modified, and leaves the order for vehicle two Unchanged. The deleted
   * vehicle stays Deleted.
   */
  lemma DeletingVehicleNullsItsPartsOrders()
    ensures SetNullPass(DealershipModel, [DeletedVehicle], Database) == [
        DeletedVehicle,
        Entry("PartsOrder", Modified, OrderForOne.fields["VehicleId" := None]),
        Entry("PartsOrder", Unchanged, OrderForTwo.fields)]
  {
    PassIsOnePair(Database);
    PairResult();
  }

  /** The deleted vehicle holds both columns of the key its PartsOrder foreign key refers to. */
  lemma DeletedVehicleHasKey()
    ensures KeysPresent(DealershipModel, [DeletedVehicle])
  {
    DealershipMarkedDependents();
  }

  /**
   * Running the interceptor a second time before the save (as a retried
   * `SaveChanges` would) changes nothing: the schema is valid and the deleted
   * vehicle has its key.
   */
  lemma RerunBeforeSaveChangesNothing()
    ensures var once := SetNullPass(DealershipModel, [DeletedVehicle], Database);
      SetNullPass(DealershipModel, once, Database) == once
  {
    DealershipModelValid();
    DeletedVehicleHasKey();
    PassIdempotent(DealershipModel, [DeletedVehicle], Database);
  }
}
