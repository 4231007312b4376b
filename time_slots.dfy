/**
 * The fixed table of serving windows shared by the background availability
 * pass (server.js) and `POST /api/food/update-availability` (routes/food.js),
 * and the per-item decision both of them make.
 */
module TimeSlots {
  import opened Wrappers

  /** Minutes since local midnight, both ends inclusive. */
  datatype Window = Window(start: int, end: int)

  const SLOTS: map<string, Window> := map[
    "breakfast" := Window(360, 690),
    "lunch" := Window(720, 930),
    "evening" := Window(960, 1140),
    "dinner" := Window(1140, 1380),
    "beverage" := Window(0, 1440)]

  /** `now.getHours() * 60 + now.getMinutes()`. */
  function CurrentMinute(hours: int, minutes: int): (t: int)
    requires 0 <= hours < 24 && 0 <= minutes < 60
    ensures 0 <= t < 1440
    ensures t / 60 == hours && t % 60 == minutes
  {
    hours * 60 + minutes
  }

  predicate InWindow(w: Window, t: int) {
    w.start <= t && t <= w.end
  }

  /**
   * The value written to `is_available` for an item of `slot` at minute `t`,
   * or `None` when `timeSlots[slot]` is undefined and the item is skipped.
   */
  function Decide(slot: string, t: int): Option<bool> {
    if slot in SLOTS then Some(InWindow(SLOTS[slot], t)) else None
  }

  /** The five windows, and nothing else is a known slot. */
  lemma SlotTable(t: int)
    ensures Decide("breakfast", t) == Some(360 <= t <= 690)
    ensures Decide("lunch", t) == Some(720 <= t <= 930)
    ensures Decide("evening", t) == Some(960 <= t <= 1140)
    ensures Decide("dinner", t) == Some(1140 <= t <= 1380)
    ensures Decide("beverage", t) == Some(0 <= t <= 1440)
    ensures forall slot :: Decide(slot, t).Some? <==>
      slot in {"breakfast", "lunch", "evening", "dinner", "beverage"}
  {
  }

  /** A beverage is available at every minute of the day. */
  lemma BeverageAlways(t: int)
    requires 0 <= t < 1440
    ensures Decide("beverage", t) == Some(true)
  {
  }

  /** 19:00 belongs to both the evening and the dinner window; the minutes beside it to one each. */
  lemma EveningDinnerOverlap()
    ensures Decide("evening", 1140) == Some(true) && Decide("dinner", 1140) == Some(true)
    ensures Decide("evening", 1139) == Some(true) && Decide("dinner", 1139) == Some(false)
    ensures Decide("evening", 1141) == Some(false) && Decide("dinner", 1141) == Some(true)
  {
  }

  /** Between the meal windows (and at night) only beverages are available. */
  lemma GapsOnlyBeverage(t: int)
    requires 0 <= t < 1440
    requires t < 360 || 690 < t < 720 || 930 < t < 960 || 1380 < t
    ensures forall slot :: Decide(slot, t) == Some(true) <==> slot == "beverage"
  {
    SlotTable(t);
  }

  /** Every meal slot is available at some minute of the day and unavailable at another. */
  lemma {:induction false} MealSlotToggles(slot: string)
    requires slot in SLOTS && slot != "beverage"
    ensures exists t :: 0 <= t < 1440 && Decide(slot, t) == Some(true)
    ensures exists t :: 0 <= t < 1440 && Decide(slot, t) == Some(false)
  {
    var w := SLOTS[slot];
    assert Decide(slot, w.start) == Some(true);
    assert Decide(slot, 0) == Some(false);
  }

  /** An unknown slot name yields no decision. */
  lemma UnknownSlotSkipped(t: int)
    ensures Decide("midnight-snack", t) == None
    ensures Decide("", t) == None
  {
  }
}
