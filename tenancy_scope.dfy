/**
 * The ambient tenant scope: a one-slot holder of the current dealership id.
 *
 * The source keeps the slot in a static AsyncLocal<Guid?>; this model gives one
 * logical flow's slot as an object, and the operations act on that object.
 * How the slot flows across awaits and into child tasks is not modelled.
 */
module Tenancy {
  import opened Wrappers
  import opened Guids

  /** The exception Current throws when no dealership is set. */
  datatype TenancyError = InvalidOperationException(message: string)

  const NoDealershipMessage: string :=
    "No DealershipId is set in the current context. Use TenancyScope.SetDealershipId() or TenancyScope.Begin() to set a dealership context."

  class TenancyScope {
    /** The slot: absent unless a dealership id has been set. */
    var currentDealershipId: Option<Guid>

    /** A fresh flow starts with nothing set. */
    constructor ()
      ensures currentDealershipId == None
    {
      currentDealershipId := None;
    }

    /** The stored value, absent or not; reading it never fails. */
    function CurrentOrDefault(): (r: Option<Guid>)
      reads this
      ensures r == currentDealershipId
    {
      currentDealershipId
    }

    /** The stored value, or the InvalidOperationException when the slot is empty. */
    method Current() returns (r: Result<Guid, TenancyError>)
      ensures r.Success? <==> CurrentOrDefault().Some?
      ensures r.Success? ==> r.value == CurrentOrDefault().value
      ensures r.Failure? ==> r.error == InvalidOperationException(NoDealershipMessage)
    {
      var value := currentDealershipId;
      if value.None? {
        return Failure(InvalidOperationException(NoDealershipMessage));
      }
      return Success(value.value);
    }

    /** Stores the id, replacing whatever was there. */
    method SetDealershipId(dealershipId: Guid)
      modifies this
      ensures CurrentOrDefault() == Some(dealershipId)
    {
      currentDealershipId := Some(dealershipId);
    }

    /** Empties the slot. */
    method Clear()
      modifies this
      ensures CurrentOrDefault() == None
    {
      currentDealershipId := None;
    }

    /** Stores the id and hands back a fresh, not yet disposed handle on this scope. */
    method Begin(dealershipId: Guid) returns (handle: TenancyScopeDisposable)
      modifies this
      ensures CurrentOrDefault() == Some(dealershipId)
      ensures fresh(handle) && handle.scope == this && !handle.disposed
    {
      SetDealershipId(dealershipId);
      handle := new TenancyScopeDisposable(this);
    }
  }

  /** The handle Begin returns; its first Dispose empties the slot. */
  class TenancyScopeDisposable {
    const scope: TenancyScope
    var disposed: bool

    constructor (scope: TenancyScope)
      ensures this.scope == scope && !disposed
    {
      this.scope := scope;
      disposed := false;
    }

    /**
     * The first call clears the slot, whatever it holds then (an outer value is
     * not restored); every later call leaves the slot as it is.
     */
    method Dispose()
      modifies this, scope
      ensures disposed
      ensures !old(disposed) ==> scope.CurrentOrDefault() == None
      ensures old(disposed) ==> scope.CurrentOrDefault() == old(scope.CurrentOrDefault())
    {
      if !disposed {
        scope.Clear();
        disposed := true;
      }
    }
  }

  /** A later SetDealershipId overwrites an earlier one, and Current then returns it. */
  method LaterSetWins(scope: TenancyScope, first: Guid, second: Guid) returns (r: Result<Guid, TenancyError>)
    modifies scope
    ensures r == Success(second) && scope.CurrentOrDefault() == Some(second)
  {
    scope.SetDealershipId(first);
    scope.SetDealershipId(second);
    r := scope.Current();
  }

  /** After Clear, CurrentOrDefault is absent and Current throws. */
  method ClearEmptiesSlot(scope: TenancyScope, id: Guid) returns (r: Result<Guid, TenancyError>)
    modifies scope
    ensures scope.CurrentOrDefault() == None
    ensures r == Failure(InvalidOperationException(NoDealershipMessage))
  {
    scope.SetDealershipId(id);
    scope.Clear();
    r := scope.Current();
  }

  /**
   * Disposing an inner scope empties the slot instead of restoring the outer
   * value, so code still inside the outer scope finds no dealership.
   */
  method NestedScopeLosesOuterValue(scope: TenancyScope, outer: Guid, inner: Guid) returns (r: Result<Guid, TenancyError>)
    modifies scope
    ensures r.Failure? && scope.CurrentOrDefault() == None
  {
    var outerHandle := scope.Begin(outer);
    var innerHandle := scope.Begin(inner);
    innerHandle.Dispose();
    r := scope.Current();
    outerHandle.Dispose();
  }

  /** A value set after a handle's first Dispose survives a second Dispose of that handle. */
  method SecondDisposeKeepsLaterValue(scope: TenancyScope, first: Guid, later: Guid)
    modifies scope
    ensures scope.CurrentOrDefault() == Some(later)
  {
    var handle := scope.Begin(first);
    handle.Dispose();
    scope.SetDealershipId(later);
    handle.Dispose();
  }
}
