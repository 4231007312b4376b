/**
 * `updateAvailability` inside `startAutoAvailabilityUpdates` (server.js):
 * one background pass at the wall-clock minute it is given.
 */
module AutoAvailability {
  import opened Wrappers
  import opened Store
  import opened TimeSlots
  import opened Availability

  /**
   * Reads every row whose override is FALSE or NULL, then writes the window
   * decision for each one with a known slot. A throwing read or write is
   * caught and logged (`errorLogged`); writes made before it stay.
   */
  method UpdateAvailability(db: Database, hours: int, minutes: int, fault: StoreFault)
    returns (fetched: seq<FetchedRow>, completed: nat, errorLogged: bool)
    requires 0 <= hours < 24 && 0 <= minutes < 60
    modifies db`foods
    ensures fault.ReadFails? ==> fetched == [] && db.foods == old(db.foods)
    ensures !fault.ReadFails? ==>
      && Ids(fetched) == Selected(old(db.foods), FalseOrNull)
      && DistinctIds(fetched)
      && completed == StopIndex(fetched, fault)
      && db.foods == PassResult(old(db.foods), CurrentMinute(hours, minutes), Ids(fetched[..completed]))
    ensures errorLogged <==> fault.ReadFails? || completed < |fetched|
    ensures fault == NoFault ==>
      db.foods == FullPass(old(db.foods), CurrentMinute(hours, minutes), FalseOrNull)
  {
    var currentTime := CurrentMinute(hours, minutes);
    if fault.ReadFails? {
      return [], 0, true;
    }
    fetched := SelectRows(db.foods, FalseOrNull);
    completed := EvaluateRows(db, currentTime, fetched, fault);
    errorLogged := completed < |fetched|;
    assert fetched[..|fetched|] == fetched;
  }

  /**
   * What the background pass guarantees whatever fault cuts it short:
   * overridden rows are untouched and only `is_available` ever changes.
   */
  lemma BackgroundPassFreezesOverrides(
    before: map<int, FoodItem>, after: map<int, FoodItem>, t: int, fetched: seq<FetchedRow>, completed: nat)
    requires completed <= |fetched|
    requires Ids(fetched) == Selected(before, FalseOrNull)
    requires after == PassResult(before, t, Ids(fetched[..completed]))
    ensures after.Keys == before.Keys
    ensures forall id :: id in before && before[id].manualOverride == Some(true) ==> after[id] == before[id]
    ensures forall id :: id in before ==>
      after[id].timeSlot == before[id].timeSlot && after[id].manualOverride == before[id].manualOverride
  {
    IdsPrefix(fetched, completed);
    OverriddenRowsFrozen(before, t, FalseOrNull, Ids(fetched[..completed]));
    forall id | id in before
      ensures after[id].timeSlot == before[id].timeSlot && after[id].manualOverride == before[id].manualOverride
    {
      assert after[id].(isAvailable := before[id].isAvailable) == before[id];
    }
  }
}
