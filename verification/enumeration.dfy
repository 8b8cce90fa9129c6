/**
 * Solution collection (backend/scheduler/solver.py:93-120): `AllSolutionsCallback` records, for
 * every solution CP-SAT reports, one slot per selected candidate; `Solve` reports every solution
 * of the model once each, in an order the model leaves open.
 *
 * The enumeration CP-SAT produces is a parameter: `EnumeratesAll` says it holds exactly the
 * solutions of the model. The lemmas at the end say which slots the callback then holds.
 */
module SolutionEnumerator {
  import opened Clock
  import opened SlotGrid
  import opened FeasibilityModel

  /** One collected slot: vet, room and the `HH:MM` start and end, kept as minutes of the day. */
  datatype Slot = Slot(vetId: int, roomId: int, start: Minute, end: Minute)

  /** Every candidate start is a minute of the day, so `time(hour=start // 60, ...)` is defined. */
  predicate StartsInDay(cands: seq<Cell<int, int>>) {
    forall k | 0 <= k < |cands| :: 0 <= cands[k].start < MinutesPerDay
  }

  /**
   * The slot recorded for a selected candidate (solver.py:106-116): the start as a time of day and
   * the end 30 minutes later, through `datetime` arithmetic that keeps only the time.
   */
  function SlotOf(c: Cell<int, int>): Slot
    requires 0 <= c.start < MinutesPerDay
  {
    Slot(c.vet, c.room, c.start, AddMinutes(c.start, AppointmentDuration))
  }

  /** The slots one `on_solution_callback` appends: the selected candidates, in candidate order. */
  function Picked(cands: seq<Cell<int, int>>, values: seq<bool>): (slots: seq<Slot>)
    requires |values| == |cands| && StartsInDay(cands)
    ensures |slots| <= |cands|
  {
    if cands == [] then []
    else
      var k := |cands| - 1;
      Picked(cands[..k], values[..k]) + (if values[k] then [SlotOf(cands[k])] else [])
  }

  /** A slot is appended exactly when some selected candidate yields it. */
  lemma {:induction false} PickedMembership(cands: seq<Cell<int, int>>, values: seq<bool>, s: Slot)
    requires |values| == |cands| && StartsInDay(cands)
    ensures s in Picked(cands, values) <==> exists k | 0 <= k < |cands| :: values[k] && s == SlotOf(cands[k])
  {
    if cands != [] {
      var k := |cands| - 1;
      PickedMembership(cands[..k], values[..k], s);
      if s in Picked(cands[..k], values[..k]) {
        var i :| 0 <= i < k && values[..k][i] && s == SlotOf(cands[..k][i]);
        assert values[i] && s == SlotOf(cands[i]);
      }
      if exists i | 0 <= i < |cands| :: values[i] && s == SlotOf(cands[i]) {
        var i :| 0 <= i < |cands| && values[i] && s == SlotOf(cands[i]);
        if i < k {
          assert values[..k][i] && s == SlotOf(cands[..k][i]);
        }
      }
    }
  }

  predicate Shaped(cands: seq<Cell<int, int>>, sols: seq<seq<bool>>) {
    forall j | 0 <= j < |sols| :: |sols[j]| == |cands|
  }

  /** `solution_callback.solutions` after the given solutions were reported, in report order. */
  function Collected(cands: seq<Cell<int, int>>, sols: seq<seq<bool>>): (slots: seq<Slot>)
    requires Shaped(cands, sols) && StartsInDay(cands)
    ensures sols == [] ==> slots == []
  {
    if sols == [] then []
    else
      var j := |sols| - 1;
      Collected(cands, sols[..j]) + Picked(cands, sols[j])
  }

  /** A slot is collected exactly when one of the reported solutions appends it. */
  lemma {:induction false} CollectedMembership(cands: seq<Cell<int, int>>, sols: seq<seq<bool>>, s: Slot)
    requires Shaped(cands, sols) && StartsInDay(cands)
    ensures s in Collected(cands, sols) <==> exists j | 0 <= j < |sols| :: s in Picked(cands, sols[j])
  {
    if s in Collected(cands, sols) {
      var j := CollectedSource(cands, sols, s);
    }
    if exists j | 0 <= j < |sols| :: s in Picked(cands, sols[j]) {
      var j :| 0 <= j < |sols| && s in Picked(cands, sols[j]);
      CollectedIncludes(cands, sols, j, s);
    }
  }

  /** The solution a collected slot was reported by. */
  lemma {:induction false} CollectedSource(cands: seq<Cell<int, int>>, sols: seq<seq<bool>>, s: Slot) returns (j: int)
    requires Shaped(cands, sols) && StartsInDay(cands)
    requires s in Collected(cands, sols)
    ensures 0 <= j < |sols| && s in Picked(cands, sols[j])
  {
    var n := |sols| - 1;
    var init := sols[..n];
    var prev := Collected(cands, init);
    assert Collected(cands, sols) == prev + Picked(cands, sols[n]);
    if s in prev {
      j := CollectedSource(cands, init, s);
      assert init[j] == sols[j];
    } else {
      j := n;
    }
  }

  /** Every slot of every reported solution is collected. */
  lemma {:induction false} CollectedIncludes(cands: seq<Cell<int, int>>, sols: seq<seq<bool>>, j: int, s: Slot)
    requires Shaped(cands, sols) && StartsInDay(cands)
    requires 0 <= j < |sols| && s in Picked(cands, sols[j])
    ensures s in Collected(cands, sols)
  {
    var n := |sols| - 1;
    var init := sols[..n];
    var prev := Collected(cands, init);
    assert Collected(cands, sols) == prev + Picked(cands, sols[n]);
    if j < n {
      assert init[j] == sols[j];
      CollectedIncludes(cands, init, j, s);
    }
  }

  /** `class AllSolutionsCallback(cp_model.CpSolverSolutionCallback)` (solver.py:97-116). */
  class AllSolutionsCallback {
    /** `self.__variables`: `potential_slots`, one entry per candidate literal. */
    const variables: seq<Cell<int, int>>
    var solutions: seq<Slot>

    constructor (variables: seq<Cell<int, int>>)
      requires StartsInDay(variables)
      ensures this.variables == variables && solutions == []
    {
      this.variables := variables;
      solutions := [];
    }

    /** One reported solution, `values[k]` being `self.Value(var)` of candidate `k`. */
    method OnSolutionCallback(values: seq<bool>)
      requires |values| == |variables| && StartsInDay(variables)
      modifies this
      ensures solutions == old(solutions) + Picked(variables, values)
    {
      for i := 0 to |variables|
        invariant solutions == old(solutions) + Picked(variables[..i], values[..i])
      {
        assert variables[..i + 1][..i] == variables[..i] && values[..i + 1][..i] == values[..i];
        if values[i] {
          var c := variables[i];
          var startTime := TimeOf(c.start);
          var endTime := AddMinutes(MinuteOf(startTime), AppointmentDuration);
          solutions := solutions + [Slot(c.vet, c.room, MinuteOf(startTime), endTime)];
        }
      }
      assert variables[..|variables|] == variables && values[..|values|] == values;
    }
  }

  /** Every reported assignment is a solution of the model and every solution is reported, in an order left open. */
  ghost predicate EnumeratesAll(m: CpModel, enumeration: seq<seq<bool>>) {
    && (forall j | 0 <= j < |enumeration| :: Solution(m, enumeration[j]))
    && (forall sel :: Solution(m, sel) ==> sel in enumeration)
  }

  /** `solver.Solve(model, solution_callback)` with `enumerate_all_solutions = True`. */
  method Solve(m: CpModel, enumeration: seq<seq<bool>>, callback: AllSolutionsCallback)
    requires EnumeratesAll(m, enumeration)
    requires callback.variables == m.candidates && StartsInDay(m.candidates)
    modifies callback
    ensures callback.solutions == old(callback.solutions) + Collected(m.candidates, enumeration)
  {
    ReportSolutions(m.candidates, enumeration, callback);
  }

  /** Hands every reported assignment to the callback, in report order. */
  method ReportSolutions(cands: seq<Cell<int, int>>, enumeration: seq<seq<bool>>, callback: AllSolutionsCallback)
    requires Shaped(cands, enumeration)
    requires callback.variables == cands && StartsInDay(cands)
    modifies callback
    ensures callback.solutions == old(callback.solutions) + Collected(cands, enumeration)
  {
    for j := 0 to |enumeration|
      invariant callback.solutions == old(callback.solutions) + Collected(cands, enumeration[..j])
    {
      assert enumeration[..j + 1][..j] == enumeration[..j];
      callback.OnSolutionCallback(enumeration[j]);
    }
    assert enumeration[..|enumeration|] == enumeration;
  }

  // ---------------------------------------------------------------------------
  // What the callback holds for the solver's model
  // ---------------------------------------------------------------------------

  /** A slot the clinic can offer: a grid start, a known vet and room, 30 minutes, and clear of bookings. */
  predicate Offered(vetIds: seq<int>, roomIds: seq<int>, bookings: seq<Booking>, s: Slot) {
    && s.start in CandidateStarts()
    && s.vetId in vetIds
    && s.roomId in roomIds
    && s.end == s.start + AppointmentDuration
    && CellFree(bookings, Cell(s.start, s.vetId, s.roomId))
  }

  /** Every candidate of the model starts on the 15-minute grid of 30-minute slots, between 09:00 and 16:30. */
  lemma ModelStartsInDay(vetIds: seq<int>, roomIds: seq<int>, bookings: seq<Booking>)
    ensures var cands := ModelOf(vetIds, roomIds, bookings).candidates;
            StartsInDay(cands) && forall k | 0 <= k < |cands| :: cands[k].start in CandidateStarts()
  {
    var cands := ModelOf(vetIds, roomIds, bookings).candidates;
    forall k | 0 <= k < |cands|
      ensures cands[k].start in CandidateStarts() && 0 <= cands[k].start < MinutesPerDay
    {
      GridMembership(CandidateStarts(), vetIds, roomIds, cands[k]);
      DayStartsMembership(AppointmentDuration, cands[k].start);
    }
  }

  /** The slot recorded for candidate `k` of the model is an offered slot exactly when the cell is free. */
  lemma SlotOfCandidate(vetIds: seq<int>, roomIds: seq<int>, bookings: seq<Booking>, k: int)
    requires 0 <= k < |ModelOf(vetIds, roomIds, bookings).candidates|
    ensures var c := ModelOf(vetIds, roomIds, bookings).candidates[k];
            0 <= c.start < MinutesPerDay &&
            (Offered(vetIds, roomIds, bookings, SlotOf(c)) <==> CellFree(bookings, c))
  {
    var c := ModelOf(vetIds, roomIds, bookings).candidates[k];
    ModelStartsInDay(vetIds, roomIds, bookings);
    GridMembership(CandidateStarts(), vetIds, roomIds, c);
    DayStartsMembership(AppointmentDuration, c.start);
    AddMinutesWithinDay(c.start, AppointmentDuration);
  }

  /**
   * The callback ends up holding exactly the offered slots when the bookings are consistent, and
   * nothing when they are not (the model then has no solution at all).
   */
  lemma CollectedExactly(vetIds: seq<int>, roomIds: seq<int>, bookings: seq<Booking>,
                         enumeration: seq<seq<bool>>, s: Slot)
    requires AllKnown(vetIds, roomIds, bookings)
    requires EnumeratesAll(ModelOf(vetIds, roomIds, bookings), enumeration)
    ensures StartsInDay(ModelOf(vetIds, roomIds, bookings).candidates)
    ensures Shaped(ModelOf(vetIds, roomIds, bookings).candidates, enumeration)
    ensures s in Collected(ModelOf(vetIds, roomIds, bookings).candidates, enumeration) <==>
              BookingsConsistent(bookings) && Offered(vetIds, roomIds, bookings, s)
  {
    ModelStartsInDay(vetIds, roomIds, bookings);
    if s in Collected(ModelOf(vetIds, roomIds, bookings).candidates, enumeration) {
      CollectedIsOffered(vetIds, roomIds, bookings, enumeration, s);
    }
    if BookingsConsistent(bookings) && Offered(vetIds, roomIds, bookings, s) {
      OfferedIsCollected(vetIds, roomIds, bookings, enumeration, s);
    }
  }

  /** A collected slot comes from a solution, so the bookings are consistent and the slot is free. */
  lemma CollectedIsOffered(vetIds: seq<int>, roomIds: seq<int>, bookings: seq<Booking>,
                           enumeration: seq<seq<bool>>, s: Slot)
    requires AllKnown(vetIds, roomIds, bookings)
    requires EnumeratesAll(ModelOf(vetIds, roomIds, bookings), enumeration)
    requires StartsInDay(ModelOf(vetIds, roomIds, bookings).candidates)
    requires s in Collected(ModelOf(vetIds, roomIds, bookings).candidates, enumeration)
    ensures BookingsConsistent(bookings) && Offered(vetIds, roomIds, bookings, s)
  {
    var m := ModelOf(vetIds, roomIds, bookings);
    var j := CollectedSource(m.candidates, enumeration, s);
    PickedMembership(m.candidates, enumeration[j], s);
    var k :| 0 <= k < |m.candidates| && enumeration[j][k] && s == SlotOf(m.candidates[k]);
    SolutionImpliesConsistent(vetIds, roomIds, bookings, enumeration[j]);
    SelectedCandidateIsFree(vetIds, roomIds, bookings, enumeration[j], k);
    SlotOfCandidate(vetIds, roomIds, bookings, k);
  }

  /** A free slot is the only selected candidate of some reported solution, so it is collected. */
  lemma OfferedIsCollected(vetIds: seq<int>, roomIds: seq<int>, bookings: seq<Booking>,
                           enumeration: seq<seq<bool>>, s: Slot)
    requires AllKnown(vetIds, roomIds, bookings)
    requires EnumeratesAll(ModelOf(vetIds, roomIds, bookings), enumeration)
    requires StartsInDay(ModelOf(vetIds, roomIds, bookings).candidates)
    requires BookingsConsistent(bookings) && Offered(vetIds, roomIds, bookings, s)
    ensures s in Collected(ModelOf(vetIds, roomIds, bookings).candidates, enumeration)
  {
    var m := ModelOf(vetIds, roomIds, bookings);
    var c := Cell(s.start, s.vetId, s.roomId);
    GridMembership(CandidateStarts(), vetIds, roomIds, c);
    var k :| 0 <= k < |m.candidates| && m.candidates[k] == c;
    SlotOfCandidate(vetIds, roomIds, bookings, k);
    AddMinutesWithinDay(s.start, AppointmentDuration);
    assert SlotOf(c) == s;
    SingleCandidateSolution(vetIds, roomIds, bookings, k);
    var sel := Only(|m.candidates|, k);
    assert sel in enumeration;
    var j :| 0 <= j < |enumeration| && enumeration[j] == sel;
    assert enumeration[j][k];
    PickedMembership(m.candidates, enumeration[j], s);
    CollectedIncludes(m.candidates, enumeration, j, s);
  }
}
