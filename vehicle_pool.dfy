/**
  The pending-vehicle pool (api/vehicles/add.ts and api/vehicles/clear.ts): a
  process-wide list of manually added vehicles that the next planning run can use.
  Adding merges the new vehicles in, replacing earlier entries that share an id;
  clearing empties the list. A pool that was never written reads as empty (`|| []`),
  so the model starts empty.
 */
module VehiclePool {
  import opened Text
  import opened Fleet

  /** `body?.vehicles ?? []` as received: missing (or null), something other than an array, or a list. */
  datatype VehiclesField = Missing | NotAList | List(vehicles: seq<Vehicle>)

  datatype AddReply =
    | AddMethodNotAllowed
    | NoVehiclesProvided
    | Added(message: string, totalAvailable: nat, vehicles: seq<Vehicle>)

  datatype ClearReply =
    | ClearMethodNotAllowed
    | Cleared(message: string, totalRemaining: nat)

  /** `newVehicles.some((nv) => nv.id === id)` */
  predicate HasId(vs: seq<Vehicle>, id: string) {
    exists k :: 0 <= k < |vs| && vs[k].id == id
  }

  /** `existing.filter((v) => !newVehicles.some((nv) => nv.id === v.id))` */
  function Survivors(existing: seq<Vehicle>, newVehicles: seq<Vehicle>): (r: seq<Vehicle>)
    ensures forall v :: v in r <==> v in existing && !HasId(newVehicles, v.id)
    ensures |r| <= |existing|
    decreases |existing|
  {
    if existing == [] then []
    else
      var n := |existing| - 1;
      assert existing == existing[..n] + [existing[n]];
      Survivors(existing[..n], newVehicles)
        + (if HasId(newVehicles, existing[n].id) then [] else [existing[n]])
  }

  /** The new pool: the surviving old vehicles in their order, then every new vehicle in its given order. */
  function Merge(existing: seq<Vehicle>, newVehicles: seq<Vehicle>): seq<Vehicle> {
    Survivors(existing, newVehicles) + newVehicles
  }

  /** The filter keeps order: it distributes over concatenation. */
  lemma {:induction false} SurvivorsAppend(a: seq<Vehicle>, b: seq<Vehicle>, newVehicles: seq<Vehicle>)
    ensures Survivors(a + b, newVehicles) == Survivors(a, newVehicles) + Survivors(b, newVehicles)
    decreases |b|
  {
    if b == [] {
      assert a + b == a;
    } else {
      var n := |b| - 1;
      assert (a + b)[..|a + b| - 1] == a + b[..n];
      SurvivorsAppend(a, b[..n], newVehicles);
    }
  }

  /**
    After a merge every new vehicle is in the pool, in order at its end; an old
    vehicle stays exactly when no new vehicle has its id; nothing else is in the pool;
    and no surviving old vehicle shares an id with a new one. Duplicates within the
    new list stay.
   */
  lemma MergeSpec(existing: seq<Vehicle>, newVehicles: seq<Vehicle>)
    ensures var r := Merge(existing, newVehicles);
      && |r| >= |newVehicles|
      && r[|r| - |newVehicles|..] == newVehicles
      && (forall v :: v in existing && !HasId(newVehicles, v.id) ==> v in r)
      && (forall v :: v in r ==> v in newVehicles || (v in existing && !HasId(newVehicles, v.id)))
      && (forall i :: 0 <= i < |r| - |newVehicles| ==> !HasId(newVehicles, r[i].id) && r[i] in existing)
  {
    var s := Survivors(existing, newVehicles);
    var r := Merge(existing, newVehicles);
    assert r[|r| - |newVehicles|..] == newVehicles;
    forall i | 0 <= i < |r| - |newVehicles|
      ensures !HasId(newVehicles, r[i].id) && r[i] in existing
    {
      assert r[i] == s[i] && s[i] in s;
    }
  }

  /** Old vehicles never outnumber themselves: the pool grows by at most the new list's length. */
  lemma MergeSize(existing: seq<Vehicle>, newVehicles: seq<Vehicle>)
    ensures |newVehicles| <= |Merge(existing, newVehicles)| <= |existing| + |newVehicles|
  {
  }

  /** A list's vehicles all have ids in the list, so the filter removes every one of them. */
  lemma {:induction false} SurvivorsOfSelf(a: seq<Vehicle>, newVehicles: seq<Vehicle>)
    requires forall i :: 0 <= i < |a| ==> HasId(newVehicles, a[i].id)
    ensures Survivors(a, newVehicles) == []
    decreases |a|
  {
    if a != [] {
      SurvivorsOfSelf(a[..|a| - 1], newVehicles);
    }
  }

  /** Filtering twice by the same new list removes nothing more. */
  lemma {:induction false} SurvivorsTwice(a: seq<Vehicle>, newVehicles: seq<Vehicle>)
    ensures Survivors(Survivors(a, newVehicles), newVehicles) == Survivors(a, newVehicles)
    decreases |a|
  {
    if a != [] {
      var n := |a| - 1;
      SurvivorsTwice(a[..n], newVehicles);
      var last := if HasId(newVehicles, a[n].id) then [] else [a[n]];
      SurvivorsAppend(Survivors(a[..n], newVehicles), last, newVehicles);
      if last != [] {
        assert [a[n]][..0] == [];
      }
    }
  }

  /** Adding the same list again leaves the pool as it is. */
  lemma MergeIdempotent(existing: seq<Vehicle>, newVehicles: seq<Vehicle>)
    ensures Merge(Merge(existing, newVehicles), newVehicles) == Merge(existing, newVehicles)
  {
    var s := Survivors(existing, newVehicles);
    SurvivorsAppend(s, newVehicles, newVehicles);
    SurvivorsTwice(existing, newVehicles);
    forall i | 0 <= i < |newVehicles|
      ensures HasId(newVehicles, newVehicles[i].id)
    {
      assert newVehicles[i].id == newVehicles[i].id;
    }
    SurvivorsOfSelf(newVehicles, newVehicles);
    assert Survivors(s + newVehicles, newVehicles) == s + [];
    assert s + [] == s;
  }

  /** `${n} new vehicle${n > 1 ? "s" : ""} added.` */
  function AddMessage(n: nat): string {
    NatToString(n) + " new vehicle" + (if n > 1 then "s" else "") + " added."
  }

  /** `Cleared ${n} pending vehicle${n !== 1 ? "s" : ""}.` */
  function ClearMessage(n: nat): string {
    "Cleared " + NatToString(n) + " pending vehicle" + (if n != 1 then "s" else "") + "."
  }

  /**
    The add message has the plural only for more than one vehicle, the clear message
    for every count but one (so "Cleared 0 pending vehicles.").
   */
  lemma MessagePlurals(n: nat)
    ensures AddMessage(n) == NatToString(n) + (if n > 1 then " new vehicles added." else " new vehicle added.")
    ensures ClearMessage(n) == "Cleared " + NatToString(n) + (if n != 1 then " pending vehicles." else " pending vehicle.")
  {
  }

  /** The process-wide `pendingVehicles` list. */
  class Pool {
    var vehicles: seq<Vehicle>

    constructor()
      ensures vehicles == []
    {
      vehicles := [];
    }

    /** The add handler. Refused requests leave the pool as it was. */
    method Add(httpMethod: string, field: VehiclesField) returns (reply: AddReply)
      modifies this
      ensures httpMethod != "POST" ==> reply == AddMethodNotAllowed && vehicles == old(vehicles)
      ensures httpMethod == "POST" && !(field.List? && |field.vehicles| > 0) ==>
        reply == NoVehiclesProvided && vehicles == old(vehicles)
      ensures httpMethod == "POST" && field.List? && |field.vehicles| > 0 ==>
        && vehicles == Merge(old(vehicles), field.vehicles)
        && reply == Added(AddMessage(|field.vehicles|), |vehicles|, vehicles)
    {
      if httpMethod != "POST" {
        return AddMethodNotAllowed;
      }
      if !field.List? || |field.vehicles| == 0 {
        return NoVehiclesProvided;
      }
      var newVehicles := field.vehicles;
      var existing := vehicles;
      var updated := Survivors(existing, newVehicles) + newVehicles;
      vehicles := updated;
      reply := Added(AddMessage(|newVehicles|), |updated|, updated);
    }

    /** The clear handler: it reports how many vehicles it dropped. */
    method Clear(httpMethod: string) returns (reply: ClearReply)
      modifies this
      ensures httpMethod != "POST" ==> reply == ClearMethodNotAllowed && vehicles == old(vehicles)
      ensures httpMethod == "POST" ==> vehicles == [] && reply == Cleared(ClearMessage(|old(vehicles)|), 0)
    {
      if httpMethod != "POST" {
        return ClearMethodNotAllowed;
      }
      var clearedCount := |vehicles|;
      vehicles := [];
      reply := Cleared(ClearMessage(clearedCount), 0);
    }
  }
}
