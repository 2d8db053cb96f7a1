/**
 * The dependency map of the set-null interceptor: for every principal entity
 * type, the dependents that carry a [CitusSetNullOnDelete(navigation)] marker
 * pointing at it, in the order the model lists entity types and properties.
 *
 * A marker whose navigation name is unknown on its entity type is skipped. No
 * check is made that the marked column lies outside the primary key.
 */
module DependencyMap {
  import opened Wrappers
  import opened EfCore

  /** What the interceptor records about one marked property. */
  datatype DependentEntityInfo = DependentEntityInfo(
    dependentClrType: TypeName,
    dependentKey: seq<Column>,
    propertyToNull: Column,
    foreignKey: ForeignKey,
    navigation: Navigation)
  {
    /** The principal type the map files this record under: the navigation's target. */
    function PrincipalType(): TypeName
    {
      navigation.targetType
    }
  }

  /** What one property of an entity type contributes: a record if it is marked and its navigation exists. */
  function MarkedProperty(entityType: EntityTypeDecl, property: PropertyDecl): (r: Option<DependentEntityInfo>)
    ensures r.Some? <==> property.setNullOnDelete.Some? && FindNavigation(entityType.navigations, property.setNullOnDelete.value).Some?
    ensures r.Some? ==>
      && r.value.dependentClrType == entityType.clrType
      && r.value.dependentKey == entityType.primaryKey
      && r.value.propertyToNull == property.name
      && r.value.navigation in entityType.navigations
      && r.value.navigation.name == property.setNullOnDelete.value
      && r.value.foreignKey == r.value.navigation.foreignKey
  {
    match property.setNullOnDelete
    case None => None
    case Some(navigationName) =>
      match FindNavigation(entityType.navigations, navigationName)
      case None => None
      case Some(navigation) =>
        Some(DependentEntityInfo(entityType.clrType, entityType.primaryKey, property.name, navigation.foreignKey, navigation))
  }

  function AsSeq(o: Option<DependentEntityInfo>): seq<DependentEntityInfo>
  {
    match o
    case None => []
    case Some(info) => [info]
  }

  /** The records of one entity type's properties, in declaration order. */
  function MarkedIn(entityType: EntityTypeDecl, properties: seq<PropertyDecl>): seq<DependentEntityInfo>
  {
    if properties == [] then []
    else MarkedIn(entityType, properties[..|properties| - 1]) + AsSeq(MarkedProperty(entityType, properties[|properties| - 1]))
  }

  /** The records of the whole model, entity type by entity type. */
  function MarkedDependents(model: Model): seq<DependentEntityInfo>
  {
    if model == [] then []
    else MarkedDependents(model[..|model| - 1]) + MarkedIn(model[|model| - 1], model[|model| - 1].properties)
  }

  /** The records filed under principal type p, in their original order. */
  function OfPrincipal(infos: seq<DependentEntityInfo>, p: TypeName): (r: seq<DependentEntityInfo>)
    ensures forall info :: info in r <==> info in infos && info.PrincipalType() == p
  {
    if infos == [] then []
    else OfPrincipal(infos[..|infos| - 1], p) + (if infos[|infos| - 1].PrincipalType() == p then [infos[|infos| - 1]] else [])
  }

  /** Filing records one after another: append to the principal's list, creating it on first use. */
  function Group(infos: seq<DependentEntityInfo>): (r: map<TypeName, seq<DependentEntityInfo>>)
    ensures forall info :: info in infos ==> info.PrincipalType() in r && info in r[info.PrincipalType()]
    ensures forall p :: p in r ==> r[p] != [] && forall info :: info in r[p] ==> info in infos && info.PrincipalType() == p
  {
    if infos == [] then map[]
    else
      var m := Group(infos[..|infos| - 1]);
      var info := infos[|infos| - 1];
      var p := info.PrincipalType();
      m[p := (if p in m then m[p] else []) + [info]]
  }

  /** The map a model gives. */
  function DependencyMapOf(model: Model): map<TypeName, seq<DependentEntityInfo>>
  {
    Group(MarkedDependents(model))
  }

  /** Filing keeps, under each principal type, exactly that type's records in order; no type has an empty list. */
  lemma {:induction false} GroupLookup(infos: seq<DependentEntityInfo>, p: TypeName)
    ensures p in Group(infos) <==> OfPrincipal(infos, p) != []
    ensures p in Group(infos) ==> Group(infos)[p] == OfPrincipal(infos, p)
  {
    if infos != [] {
      GroupLookup(infos[..|infos| - 1], p);
    }
  }

  /**
   * The map has a key exactly for the principal types some resolvable marker
   * points at, and under it that type's records in declaration order.
   */
  lemma DependencyMapLookup(model: Model, p: TypeName)
    ensures p in DependencyMapOf(model) <==> OfPrincipal(MarkedDependents(model), p) != []
    ensures p in DependencyMapOf(model) ==> DependencyMapOf(model)[p] == OfPrincipal(MarkedDependents(model), p)
    ensures p in DependencyMapOf(model) ==> forall info :: info in DependencyMapOf(model)[p] ==> info in MarkedDependents(model) && info.PrincipalType() == p
  {
    GroupLookup(MarkedDependents(model), p);
  }

  /** Every record of an entity type comes from one of its marked properties with a resolvable navigation. */
  lemma {:induction false} MarkedInSound(entityType: EntityTypeDecl, properties: seq<PropertyDecl>, info: DependentEntityInfo)
    requires info in MarkedIn(entityType, properties)
    ensures exists property :: property in properties && MarkedProperty(entityType, property) == Some(info)
  {
    var n := |properties|;
    var last := properties[n - 1];
    if info in MarkedIn(entityType, properties[..n - 1]) {
      MarkedInSound(entityType, properties[..n - 1], info);
      var property :| property in properties[..n - 1] && MarkedProperty(entityType, property) == Some(info);
      assert property in properties;
    } else {
      assert last in properties && MarkedProperty(entityType, last) == Some(info);
    }
  }

  /** Every marked property with a resolvable navigation yields its record. */
  lemma {:induction false} MarkedInComplete(entityType: EntityTypeDecl, properties: seq<PropertyDecl>, property: PropertyDecl)
    requires property in properties && MarkedProperty(entityType, property).Some?
    ensures MarkedProperty(entityType, property).value in MarkedIn(entityType, properties)
  {
    var n := |properties|;
    if property != properties[n - 1] {
      assert property in properties[..n - 1];
      MarkedInComplete(entityType, properties[..n - 1], property);
    }
  }

  /**
   * A record is in the model's list exactly when some entity type of the model
   * has a marked property whose navigation resolves, and the record is built
   * from that type, that property and that navigation's foreign key.
   */
  lemma {:induction false} MarkedDependentsExactly(model: Model, info: DependentEntityInfo)
    ensures info in MarkedDependents(model) <==>
      exists t, property :: t in model && property in t.properties && MarkedProperty(t, property) == Some(info)
  {
    if model != [] {
      var n := |model|;
      var last := model[n - 1];
      MarkedDependentsExactly(model[..n - 1], info);
      if info in MarkedDependents(model) {
        if info in MarkedIn(last, last.properties) {
          MarkedInSound(last, last.properties, info);
        } else {
          var t, property :| t in model[..n - 1] && property in t.properties && MarkedProperty(t, property) == Some(info);
          assert t in model;
        }
      } else {
        forall t, property | t in model && property in t.properties
          ensures MarkedProperty(t, property) != Some(info)
        {
          if MarkedProperty(t, property) == Some(info) && t == last {
            MarkedInComplete(last, last.properties, property);
          }
        }
      }
    }
  }

  /** The model with the marker on property j of entity type i taken off. */
  function WithoutMarker(model: Model, i: nat, j: nat): (r: Model)
    requires i < |model| && j < |model[i].properties|
    ensures |r| == |model|
  {
    var t := model[i];
    model[i := t.(properties := t.properties[j := t.properties[j].(setNullOnDelete := None)])]
  }

  lemma {:induction false} MarkedInPointwise(t: EntityTypeDecl, properties: seq<PropertyDecl>, u: EntityTypeDecl, others: seq<PropertyDecl>)
    requires |properties| == |others|
    requires forall j :: 0 <= j < |properties| ==> MarkedProperty(t, properties[j]) == MarkedProperty(u, others[j])
    ensures MarkedIn(t, properties) == MarkedIn(u, others)
  {
    if properties != [] {
      var n := |properties|;
      MarkedInPointwise(t, properties[..n - 1], u, others[..n - 1]);
    }
  }

  lemma {:induction false} MarkedDependentsPointwise(model: Model, other: Model)
    requires |model| == |other|
    requires forall i :: 0 <= i < |model| ==> MarkedIn(model[i], model[i].properties) == MarkedIn(other[i], other[i].properties)
    ensures MarkedDependents(model) == MarkedDependents(other)
  {
    if model != [] {
      var n := |model|;
      MarkedDependentsPointwise(model[..n - 1], other[..n - 1]);
    }
  }

  /**
   * A marker that names no navigation of its entity type is skipped without
   * error: the map is the one the model would give without that marker.
   */
  lemma UnknownNavigationSkipped(model: Model, i: nat, j: nat)
    requires i < |model| && j < |model[i].properties|
    requires model[i].properties[j].setNullOnDelete.Some?
    requires FindNavigation(model[i].navigations, model[i].properties[j].setNullOnDelete.value).None?
    ensures DependencyMapOf(WithoutMarker(model, i, j)) == DependencyMapOf(model)
  {
    var other := WithoutMarker(model, i, j);
    forall k | 0 <= k < |model|
      ensures MarkedIn(model[k], model[k].properties) == MarkedIn(other[k], other[k].properties)
    {
      if k == i {
        var t := model[i];
        assert other[i].navigations == t.navigations;
        forall m | 0 <= m < |t.properties|
          ensures MarkedProperty(t, t.properties[m]) == MarkedProperty(other[i], other[i].properties[m])
        {
        }
        MarkedInPointwise(t, t.properties, other[i], other[i].properties);
      }
    }
    MarkedDependentsPointwise(model, other);
  }

  lemma MarkedInStep(entityType: EntityTypeDecl, properties: seq<PropertyDecl>, j: nat)
    requires j < |properties|
    ensures MarkedIn(entityType, properties[..j + 1]) == MarkedIn(entityType, properties[..j]) + AsSeq(MarkedProperty(entityType, properties[j]))
  {
    assert properties[..j + 1][..j] == properties[..j];
  }

  lemma MarkedDependentsStep(model: Model, i: nat)
    requires i < |model|
    ensures MarkedDependents(model[..i + 1]) == MarkedDependents(model[..i]) + MarkedIn(model[i], model[i].properties)
  {
    assert model[..i + 1][..i] == model[..i];
  }

  /** Filing one more record appends it to its principal type's list. */
  lemma GroupAppend(infos: seq<DependentEntityInfo>, info: DependentEntityInfo)
    ensures var m := Group(infos); var p := info.PrincipalType();
      Group(infos + [info]) == m[p := (if p in m then m[p] else []) + [info]]
  {
    assert (infos + [info])[..|infos|] == infos;
  }

  lemma FileMarkedProperty(done: seq<DependentEntityInfo>, earlier: seq<DependentEntityInfo>, entityType: EntityTypeDecl, property: PropertyDecl)
    ensures MarkedProperty(entityType, property).None? ==> Group(done + (earlier + AsSeq(MarkedProperty(entityType, property)))) == Group(done + earlier)
    ensures MarkedProperty(entityType, property).Some? ==>
      var info := MarkedProperty(entityType, property).value;
      Group(done + (earlier + AsSeq(MarkedProperty(entityType, property)))) == Group(done + earlier + [info])
  {
    match MarkedProperty(entityType, property)
    case None =>
      assert done + (earlier + []) == done + earlier;
    case Some(info) =>
      assert done + (earlier + [info]) == done + earlier + [info];
  }

  /**
   * Builds the map by walking entity types and their properties in order,
   * appending each resolvable marker's record to its principal type's list.
   */
  method BuildDependencyMap(model: Model) returns (m: map<TypeName, seq<DependentEntityInfo>>)
    ensures m == DependencyMapOf(model)
    ensures forall p :: p in m <==> OfPrincipal(MarkedDependents(model), p) != []
    ensures forall p :: p in m ==> m[p] == OfPrincipal(MarkedDependents(model), p)
  {
    m := map[];
    for i := 0 to |model|
      invariant m == Group(MarkedDependents(model[..i]))
    {
      var entityType := model[i];
      var properties := entityType.properties;
      ghost var done := MarkedDependents(model[..i]);
      assert done + MarkedIn(entityType, properties[..0]) == done;
      for j := 0 to |properties|
        invariant m == Group(done + MarkedIn(entityType, properties[..j]))
      {
        var property := properties[j];
        MarkedInStep(entityType, properties, j);
        FileMarkedProperty(done, MarkedIn(entityType, properties[..j]), entityType, property);
        if property.setNullOnDelete.None? {
          continue;
        }
        var navigation := FindNavigation(entityType.navigations, property.setNullOnDelete.value);
        if navigation.None? {
          continue;
        }
        var principalType := navigation.value.targetType;
        var foreignKey := navigation.value.foreignKey;
        var info := DependentEntityInfo(entityType.clrType, entityType.primaryKey, property.name, foreignKey, navigation.value);
        var list := if principalType in m then m[principalType] else [];
        m := m[principalType := list + [info]];
        GroupAppend(done + MarkedIn(entityType, properties[..j]), info);
      }
      assert properties[..|properties|] == properties;
      MarkedDependentsStep(model, i);
    }
    assert model[..|model|] == model;
    forall p {
      GroupLookup(MarkedDependents(model), p);
    }
  }
}
