/**
 * The availability evaluator behind both the background pass (server.js) and
 * `POST /api/food/update-availability` (routes/food.js): which rows each copy
 * selects, what one pass writes, and the admin writes that set and clear
 * `manual_override`.
 */
module Availability {
  import opened Wrappers
  import opened Store
  import opened TimeSlots

  /**
   * The WHERE clause of the read. The background pass selects
   * `manual_override = FALSE OR manual_override IS NULL`; the route selects
   * `manual_override = FALSE`, which is not true of a NULL.
   */
  datatype Filter = FalseOrNull | FalseOnly

  predicate Selects(filter: Filter, f: FoodItem) {
    match filter
    case FalseOrNull => f.manualOverride != Some(true)
    case FalseOnly => f.manualOverride == Some(false)
  }

  function Selected(rows: map<int, FoodItem>, filter: Filter): (ids: set<int>)
    ensures ids <= rows.Keys
    ensures forall id :: id in rows && rows[id].manualOverride == Some(true) ==> id !in ids
  {
    set id | id in rows && Selects(filter, rows[id])
  }

  /** One row after the evaluator has visited it at minute `t`. */
  function Evaluated(f: FoodItem, t: int): (g: FoodItem)
    ensures g.(isAvailable := f.isAvailable) == f
    ensures f.timeSlot !in SLOTS ==> g == f
    ensures f.timeSlot in SLOTS ==> g.isAvailable == InWindow(SLOTS[f.timeSlot], t)
  {
    match Decide(f.timeSlot, t)
    case None => f
    case Some(available) => f.(isAvailable := available)
  }

  /** The table after the evaluator has visited the rows in `done` at minute `t`. */
  function PassResult(rows: map<int, FoodItem>, t: int, done: set<int>): (r: map<int, FoodItem>)
    ensures r.Keys == rows.Keys
    ensures forall id :: id in rows && id !in done ==> r[id] == rows[id]
    ensures forall id :: id in rows ==> r[id].(isAvailable := rows[id].isAvailable) == rows[id]
  {
    map id | id in rows :: if id in done then Evaluated(rows[id], t) else rows[id]
  }

  /** A complete pass: every selected row visited. */
  function FullPass(rows: map<int, FoodItem>, t: int, filter: Filter): map<int, FoodItem> {
    PassResult(rows, t, Selected(rows, filter))
  }

  // ---------------------------------------------------------------------------
  // The read and the write loop shared by both copies

  /** The `id, time_slot` columns of one fetched row. */
  datatype FetchedRow = FetchedRow(id: int, timeSlot: string)

  function Ids(rows: seq<FetchedRow>): set<int> {
    set r | r in rows :: r.id
  }

  ghost predicate DistinctIds(rows: seq<FetchedRow>) {
    forall i, j :: 0 <= i < j < |rows| ==> rows[i].id != rows[j].id
  }

  /** Each fetched row agrees with the table it was read from. */
  ghost predicate ReadFrom(rows: seq<FetchedRow>, table: map<int, FoodItem>) {
    forall r :: r in rows ==> r.id in table && table[r.id].timeSlot == r.timeSlot
  }

  /**
   * The SELECT: every row the filter admits, once each, in an order the
   * model leaves open (the query has no ORDER BY).
   */
  method SelectRows(table: map<int, FoodItem>, filter: Filter) returns (rows: seq<FetchedRow>)
    ensures Ids(rows) == Selected(table, filter)
    ensures DistinctIds(rows)
    ensures ReadFrom(rows, table)
  {
    var selected := Selected(table, filter);
    var pending := selected;
    rows := [];
    while pending != {}
      invariant pending <= selected
      invariant Ids(rows) == selected - pending
      invariant DistinctIds(rows)
      invariant ReadFrom(rows, table)
      decreases |pending|
    {
      if forall x :: x !in pending {
        assert false;
      }
      var id :| id in pending;
      var row := FetchedRow(id, table[id].timeSlot);
      IdsPush(rows, row);
      DistinctPush(rows, row);
      rows := rows + [row];
      pending := pending - {id};
    }
  }

  /** What can go wrong with the store during a pass. */
  datatype StoreFault =
    | NoFault
    | ReadFails           // the SELECT (or getting the pool) throws
    | WriteFailsAt(k: nat) // the UPDATE for the k-th fetched row throws

  /** How many fetched rows the write loop gets through before a fault ends it. */
  function StopIndex(rows: seq<FetchedRow>, fault: StoreFault): nat {
    if fault.WriteFailsAt? && fault.k < |rows| && rows[fault.k].timeSlot in SLOTS then fault.k
    else |rows|
  }

  /** A pass is cut short exactly when the write for a fetched row with a known slot throws. */
  lemma StopIndexBounds(rows: seq<FetchedRow>, fault: StoreFault)
    ensures StopIndex(rows, fault) <= |rows|
    ensures StopIndex(rows, fault) < |rows| <==>
      fault.WriteFailsAt? && fault.k < |rows| && rows[fault.k].timeSlot in SLOTS
  {
  }

  /**
   * The `for (const food of foods)` loop: for each fetched row with a known
   * slot, write `is_available` for minute `t`; skip the others. A throwing
   * UPDATE ends the loop, and the rows before it keep their writes.
   */
  method EvaluateRows(db: Database, t: int, rows: seq<FetchedRow>, fault: StoreFault)
    returns (completed: nat)
    requires ReadFrom(rows, db.foods)
    modifies db`foods
    ensures completed == StopIndex(rows, fault)
    ensures db.foods == PassResult(old(db.foods), t, Ids(rows[..completed]))
  {
    completed := 0;
    assert rows[..0] == [];
    while completed < |rows|
      invariant completed <= |rows|
      invariant fault.WriteFailsAt? && fault.k < |rows| && rows[fault.k].timeSlot in SLOTS ==> completed <= fault.k
      invariant db.foods == PassResult(old(db.foods), t, Ids(rows[..completed]))
    {
      var row := rows[completed];
      PassAdvance(old(db.foods), t, rows, completed);
      if row.timeSlot in SLOTS {
        if fault == WriteFailsAt(completed) {
          return;
        }
        var isAvailable := InWindow(SLOTS[row.timeSlot], t);
        db.foods := db.foods[row.id := db.foods[row.id].(isAvailable := isAvailable)];
      }
      completed := completed + 1;
    }
  }

  /** Visiting one more fetched row: its window decision if its slot is known, nothing otherwise. */
  lemma PassAdvance(table: map<int, FoodItem>, t: int, rows: seq<FetchedRow>, n: nat)
    requires ReadFrom(rows, table) && n < |rows|
    ensures var before := PassResult(table, t, Ids(rows[..n]));
      var row := rows[n];
      && row.id in before
      && PassResult(table, t, Ids(rows[..n + 1]))
        == if row.timeSlot in SLOTS
           then before[row.id := before[row.id].(isAvailable := InWindow(SLOTS[row.timeSlot], t))]
           else before
  {
    var row := rows[n];
    assert row in rows;
    IdsSnoc(rows, n);
    if row.timeSlot in SLOTS {
      PassStep(table, t, Ids(rows[..n]), row.id);
    } else {
      PassSkip(table, t, Ids(rows[..n]), row.id);
    }
  }

  /** Appending a row adds its id. */
  lemma IdsPush(rows: seq<FetchedRow>, row: FetchedRow)
    ensures Ids(rows + [row]) == Ids(rows) + {row.id}
  {
    assert forall r :: r in rows + [row] <==> r in rows || r == row;
  }

  /** Appending a row with a new id keeps the ids distinct. */
  lemma DistinctPush(rows: seq<FetchedRow>, row: FetchedRow)
    requires DistinctIds(rows) && row.id !in Ids(rows)
    ensures DistinctIds(rows + [row])
  {
    var r := rows + [row];
    forall i, j | 0 <= i < j < |r| ensures r[i].id != r[j].id {
      if j == |rows| {
        assert r[i] == rows[i] && rows[i] in rows;
      } else {
        assert r[i] == rows[i] && r[j] == rows[j];
      }
    }
  }

  /** One more fetched row adds its id to the ids visited so far. */
  lemma IdsSnoc(rows: seq<FetchedRow>, n: nat)
    requires n < |rows|
    ensures Ids(rows[..n + 1]) == Ids(rows[..n]) + {rows[n].id}
  {
    assert rows[..n + 1] == rows[..n] + [rows[n]];
    IdsPush(rows[..n], rows[n]);
  }

  /** Visiting a row with a known slot writes its window decision over whatever it held. */
  lemma PassStep(rows: map<int, FoodItem>, t: int, done: set<int>, id: int)
    requires id in rows && rows[id].timeSlot in SLOTS
    ensures var before := PassResult(rows, t, done);
      PassResult(rows, t, done + {id})
        == before[id := before[id].(isAvailable := InWindow(SLOTS[rows[id].timeSlot], t))]
  {
  }

  /** Visiting a row with an unknown slot changes nothing. */
  lemma PassSkip(rows: map<int, FoodItem>, t: int, done: set<int>, id: int)
    requires id in rows ==> rows[id].timeSlot !in SLOTS
    ensures PassResult(rows, t, done + {id}) == PassResult(rows, t, done)
  {
  }

  lemma {:induction false} IdsPrefix(rows: seq<FetchedRow>, n: nat)
    requires n <= |rows|
    ensures Ids(rows[..n]) <= Ids(rows)
  {
    forall id | id in Ids(rows[..n]) ensures id in Ids(rows) {
      var r :| r in rows[..n] && r.id == id;
      assert r in rows;
    }
  }

  /** A fetch without repeated ids has as many rows as ids. */
  lemma {:induction false} DistinctIdsCount(rows: seq<FetchedRow>)
    requires DistinctIds(rows)
    ensures |Ids(rows)| == |rows|
  {
    if rows != [] {
      var n := |rows| - 1;
      DistinctPrefix(rows, n);
      DistinctIdsCount(rows[..n]);
      LastIdFresh(rows);
      assert rows == rows[..n] + [rows[n]];
      IdsPush(rows[..n], rows[n]);
    }
  }

  lemma DistinctPrefix(rows: seq<FetchedRow>, n: nat)
    requires DistinctIds(rows) && n <= |rows|
    ensures DistinctIds(rows[..n])
  {
    var p := rows[..n];
    forall i, j | 0 <= i < j < |p| ensures p[i].id != p[j].id {
      assert p[i] == rows[i] && p[j] == rows[j];
    }
  }

  /** The last row's id does not occur before it. */
  lemma LastIdFresh(rows: seq<FetchedRow>)
    requires DistinctIds(rows) && rows != []
    ensures rows[|rows| - 1].id !in Ids(rows[..|rows| - 1])
  {
    var n := |rows| - 1;
    forall r | r in rows[..n] ensures r.id != rows[n].id {
      var i :| 0 <= i < n && rows[..n][i] == r;
      assert rows[i] == r;
    }
  }

  // ---------------------------------------------------------------------------
  // Properties of passes

  /** Rows whose override is TRUE are never written, however far a pass got. */
  lemma OverriddenRowsFrozen(rows: map<int, FoodItem>, t: int, filter: Filter, done: set<int>)
    requires done <= Selected(rows, filter)
    ensures forall id :: id in rows && rows[id].manualOverride == Some(true) ==>
      PassResult(rows, t, done)[id] == rows[id]
  {
  }

  /** A selected row with a known slot ends a complete pass holding its window decision. */
  lemma FullPassDecides(rows: map<int, FoodItem>, t: int, filter: Filter, id: int)
    requires id in rows
    ensures Selects(filter, rows[id]) && rows[id].timeSlot in SLOTS ==>
      FullPass(rows, t, filter)[id].isAvailable == InWindow(SLOTS[rows[id].timeSlot], t)
    ensures !Selects(filter, rows[id]) || rows[id].timeSlot !in SLOTS ==>
      FullPass(rows, t, filter)[id] == rows[id]
  {
  }

  /** A pass changes neither slots nor overrides, so the next pass selects the same rows. */
  lemma PassKeepsSelection(rows: map<int, FoodItem>, t: int, done: set<int>, filter: Filter)
    ensures Selected(PassResult(rows, t, done), filter) == Selected(rows, filter)
  {
    var r := PassResult(rows, t, done);
    forall id | id in rows ensures Selects(filter, r[id]) == Selects(filter, rows[id]) {
      assert r[id].manualOverride == rows[id].manualOverride;
    }
  }

  /**
   * Self-healing: after any pass, even one a failing write cut short, a
   * complete pass at minute `t2` leaves the table as if only it had run.
   */
  lemma CompletePassRepairs(rows: map<int, FoodItem>, t: int, done: set<int>, t2: int, filter: Filter)
    requires done <= Selected(rows, filter)
    ensures FullPass(PassResult(rows, t, done), t2, filter) == FullPass(rows, t2, filter)
  {
    var mid := PassResult(rows, t, done);
    PassKeepsSelection(rows, t, done, filter);
    var a := FullPass(mid, t2, filter);
    var b := FullPass(rows, t2, filter);
    forall id | id in rows ensures a[id] == b[id] {
      assert mid[id].timeSlot == rows[id].timeSlot;
    }
  }

  /** Idempotence: a second complete pass at the same minute changes nothing. */
  lemma FullPassIdempotent(rows: map<int, FoodItem>, t: int, filter: Filter)
    ensures FullPass(FullPass(rows, t, filter), t, filter) == FullPass(rows, t, filter)
  {
    var once := FullPass(rows, t, filter);
    CompletePassRepairs(rows, t, Selected(rows, filter), t, filter);
  }

  /**
   * The two copies agree on a row exactly when its override is not NULL or
   * the evaluator would leave it as it is; on a table without NULL overrides
   * they agree everywhere.
   */
  lemma CopiesAgree(rows: map<int, FoodItem>, t: int)
    ensures forall id :: id in rows ==>
      ((FullPass(rows, t, FalseOrNull)[id] == FullPass(rows, t, FalseOnly)[id])
        <==> (rows[id].manualOverride.Some? || Evaluated(rows[id], t) == rows[id]))
    ensures (forall id :: id in rows ==> rows[id].manualOverride.Some?) ==>
      FullPass(rows, t, FalseOrNull) == FullPass(rows, t, FalseOnly)
  {
    var server := FullPass(rows, t, FalseOrNull);
    var route := FullPass(rows, t, FalseOnly);
    forall id | id in rows
      ensures (server[id] == route[id]) <==> (rows[id].manualOverride.Some? || Evaluated(rows[id], t) == rows[id])
    {
      assert id in Selected(rows, FalseOrNull) <==> rows[id].manualOverride != Some(true);
      assert id in Selected(rows, FalseOnly) <==> rows[id].manualOverride == Some(false);
      match rows[id].manualOverride
      case None =>
        assert server[id] == Evaluated(rows[id], t) && route[id] == rows[id];
      case Some(b) =>
        assert server[id] == route[id];
    }
    if forall id :: id in rows ==> rows[id].manualOverride.Some? {
      forall id | id in rows ensures server[id] == route[id] {
        assert rows[id].manualOverride.Some?;
      }
    }
  }

  /** A row with a NULL override is evaluated by the background pass and never by the route. */
  lemma NullOverrideOnlyInBackground(rows: map<int, FoodItem>, t: int, id: int)
    requires id in rows && rows[id].manualOverride == None
    ensures FullPass(rows, t, FalseOrNull)[id] == Evaluated(rows[id], t)
    ensures FullPass(rows, t, FalseOnly)[id] == rows[id]
  {
  }

  // ---------------------------------------------------------------------------
  // The admin writes to the override (routes/admin.js)

  /** `UPDATE food_items SET is_available = ?, manual_override = TRUE WHERE id = ?`. */
  function Toggled(rows: map<int, FoodItem>, id: int, available: bool): (r: map<int, FoodItem>)
    ensures r.Keys == rows.Keys
    ensures id in rows ==> r[id] == rows[id].(isAvailable := available, manualOverride := Some(true))
    ensures forall other :: other in rows && other != id ==> r[other] == rows[other]
  {
    if id in rows then rows[id := rows[id].(isAvailable := available, manualOverride := Some(true))]
    else rows
  }

  /** `UPDATE food_items SET manual_override = FALSE WHERE id = ?`. */
  function OverrideReset(rows: map<int, FoodItem>, id: int): (r: map<int, FoodItem>)
    ensures r.Keys == rows.Keys
    ensures id in rows ==> r[id] == rows[id].(manualOverride := Some(false))
    ensures forall other :: other in rows && other != id ==> r[other] == rows[other]
  {
    if id in rows then rows[id := rows[id].(manualOverride := Some(false))] else rows
  }

  /** After a toggle, no pass by either copy moves the toggled value. */
  lemma ToggleHonoured(rows: map<int, FoodItem>, id: int, available: bool, t: int, filter: Filter, done: set<int>)
    requires id in rows
    requires done <= Selected(Toggled(rows, id, available), filter)
    ensures PassResult(Toggled(rows, id, available), t, done)[id].isAvailable == available
  {
  }

  /**
   * Clearing the override keeps the stored value; the next complete pass of
   * either copy hands the row back to its window.
   */
  lemma ResetHandsBack(rows: map<int, FoodItem>, id: int, t: int, filter: Filter)
    requires id in rows && rows[id].timeSlot in SLOTS
    ensures OverrideReset(rows, id)[id].isAvailable == rows[id].isAvailable
    ensures FullPass(OverrideReset(rows, id), t, filter)[id].isAvailable
      == InWindow(SLOTS[rows[id].timeSlot], t)
  {
    FullPassDecides(OverrideReset(rows, id), t, filter, id);
  }

  /**
   * A lunch item, evaluated at 13:20, toggled off by an admin, evaluated
   * again, reset, and evaluated once more.
   */
  lemma LunchOverrideScenario(item: FoodItem, filter: Filter)
    requires item.timeSlot == "lunch" && item.manualOverride == Some(false) && !item.isAvailable
    ensures var t0 := map[1 := item];
      var t1 := FullPass(t0, 800, filter);
      var t2 := Toggled(t1, 1, false);
      var t3 := FullPass(t2, 800, filter);
      var t4 := OverrideReset(t3, 1);
      var t5 := FullPass(t4, 800, filter);
      t1[1].isAvailable && !t2[1].isAvailable && !t3[1].isAvailable
        && !t4[1].isAvailable && t5[1].isAvailable
  {
    var t0 := map[1 := item];
    FullPassDecides(t0, 800, filter, 1);
    var t1 := FullPass(t0, 800, filter);
    var t2 := Toggled(t1, 1, false);
    OverriddenRowsFrozen(t2, 800, filter, Selected(t2, filter));
    var t3 := FullPass(t2, 800, filter);
    ResetHandsBack(t3, 1, 800, filter);
  }
}
