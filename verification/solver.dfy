/**
 * `find_available_slots` (backend/scheduler/solver.py:5-134) end to end: build the model, let
 * CP-SAT report every solution to the callback, drop repeated start/end pairs and sort by start.
 *
 * What CP-SAT reports is the `enumeration` parameter; `EnumeratesAll` pins it down to the set of
 * solutions of the model, in an order left open. The result is characterised by `SolverContract`,
 * and the lemmas below show that its start times do not depend on that order.
 */
module Solver {
  import opened Common
  import opened Clock
  import opened Clinic
  import opened SlotGrid
  import opened FeasibilityModel
  import opened SolutionEnumerator
  import opened ResultAssembler

  /** The collected slots are exactly the offered slots when the bookings are consistent, and none otherwise. */
  ghost predicate CollectsOffered(vetIds: seq<int>, roomIds: seq<int>, bookings: seq<Booking>, raw: seq<Slot>) {
    forall s :: s in raw <==> BookingsConsistent(bookings) && Offered(vetIds, roomIds, bookings, s)
  }

  /**
   * What the returned list is, given the list `raw` the callback collected: the first collected
   * slot of every start/end pair, and nothing else, in strictly increasing start order.
   */
  ghost predicate SolverContract(vetIds: seq<int>, roomIds: seq<int>, bookings: seq<Booking>,
                                 raw: seq<Slot>, slots: seq<Slot>) {
    && CollectsOffered(vetIds, roomIds, bookings, raw)
    && (forall u :: u in slots <==> exists i | 0 <= i < |raw| :: raw[i] == u && FirstOfSpan(raw, i))
    && (forall i, j | 0 <= i < j < |slots| :: slots[i].start < slots[j].start)
  }

  /**
   * `find_available_slots(appointment_date, vets, rooms, existing_appointments)`. It fails with
   * the `KeyError` of the first booking whose vet or room is not in `vets` or `rooms`.
   */
  method FindAvailableSlots(vets: seq<Vet>, rooms: seq<Room>, bookings: seq<Booking>, enumeration: seq<seq<bool>>)
    returns (r: Result<seq<Slot>, ModelError>, ghost raw: seq<Slot>)
    requires AllKnown(VetIds(vets), RoomIds(rooms), bookings) ==>
               EnumeratesAll(ModelOf(VetIds(vets), RoomIds(rooms), bookings), enumeration)
    ensures r.Success? <==> AllKnown(VetIds(vets), RoomIds(rooms), bookings)
    ensures r.Failure? ==> exists i | 0 <= i < |bookings| ::
              && !Known(VetIds(vets), RoomIds(rooms), bookings[i])
              && (forall j | 0 <= j < i :: Known(VetIds(vets), RoomIds(rooms), bookings[j]))
              && r.error == KeyErrorFor(VetIds(vets), bookings[i])
    ensures r.Success? ==> SolverContract(VetIds(vets), RoomIds(rooms), bookings, raw, r.value)
  {
    var vetIds := VetIds(vets);
    var roomIds := RoomIds(rooms);
    var model := BuildModel(vetIds, roomIds, bookings);
    if model.Failure? {
      return Failure(model.error), [];
    }
    ModelStartsInDay(vetIds, roomIds, bookings);
    var callback := new AllSolutionsCallback(model.value.candidates);
    Solve(model.value, enumeration, callback);
    raw := callback.solutions;
    forall s
      ensures s in raw <==> BookingsConsistent(bookings) && Offered(vetIds, roomIds, bookings, s)
    {
      CollectedExactly(vetIds, roomIds, bookings, enumeration, s);
    }
    var unique := DedupBySpan(callback.solutions);
    var a := new Slot[|unique|](i requires 0 <= i < |unique| => unique[i]);
    assert a[..] == unique;
    SortByStart(a);
    SortedSurvivorsMeetContract(vetIds, roomIds, bookings, raw, a[..]);
    return Success(a[..]), raw;
  }

  /** Any ordering of the filter's survivors by start is what the contract describes. */
  lemma SortedSurvivorsMeetContract(vetIds: seq<int>, roomIds: seq<int>, bookings: seq<Booking>, raw: seq<Slot>,
                                    sorted: seq<Slot>)
    requires CollectsOffered(vetIds, roomIds, bookings, raw)
    requires multiset(sorted) == multiset(Dedup(raw))
    requires SortedByStart(sorted)
    ensures SolverContract(vetIds, roomIds, bookings, raw, sorted)
  {
    UniqueStartsDistinct(vetIds, roomIds, bookings, raw);
    PermutationKeepsDistinctStarts(Dedup(raw), sorted);
    forall u
      ensures u in sorted <==> exists i | 0 <= i < |raw| :: raw[i] == u && FirstOfSpan(raw, i)
    {
      assert u in sorted <==> u in multiset(sorted);
      assert u in Dedup(raw) <==> u in multiset(Dedup(raw));
      DedupKeepsFirsts(raw, u);
    }
  }

  /** Collected slots all end 30 minutes after they start, so the survivors of the filter have distinct starts. */
  lemma UniqueStartsDistinct(vetIds: seq<int>, roomIds: seq<int>, bookings: seq<Booking>, raw: seq<Slot>)
    requires CollectsOffered(vetIds, roomIds, bookings, raw)
    ensures forall i, j | 0 <= i < j < |Dedup(raw)| :: Dedup(raw)[i].start != Dedup(raw)[j].start
  {
    var d := Dedup(raw);
    DedupSpansDistinct(raw);
    forall i, j | 0 <= i < j < |d|
      ensures d[i].start != d[j].start
    {
      var p := DedupSurvivorFirst(raw, d[i]);
      var q := DedupSurvivorFirst(raw, d[j]);
      CollectedLastsHalfHour(vetIds, roomIds, bookings, raw, p);
      CollectedLastsHalfHour(vetIds, roomIds, bookings, raw, q);
      HalfHourSpansDiffer(d[i], d[j]);
    }
  }

  /** Two half-hour slots with different spans start at different times. */
  lemma HalfHourSpansDiffer(x: Slot, y: Slot)
    requires x.end == x.start + AppointmentDuration && y.end == y.start + AppointmentDuration
    requires Span(x) != Span(y)
    ensures x.start != y.start
  {
  }

  /** Every collected slot ends 30 minutes after it starts. */
  lemma CollectedLastsHalfHour(vetIds: seq<int>, roomIds: seq<int>, bookings: seq<Booking>, raw: seq<Slot>, k: int)
    requires CollectsOffered(vetIds, roomIds, bookings, raw)
    requires 0 <= k < |raw|
    ensures raw[k].end == raw[k].start + AppointmentDuration
  {
    assert raw[k] in raw;
  }

  // ---------------------------------------------------------------------------
  // What the contract says about the returned list
  // ---------------------------------------------------------------------------

  /** Every returned slot can be offered: grid start, known vet and room, 30 minutes, no clash. */
  lemma ResultOffered(vetIds: seq<int>, roomIds: seq<int>, bookings: seq<Booking>, raw: seq<Slot>, slots: seq<Slot>, u: Slot)
    requires SolverContract(vetIds, roomIds, bookings, raw, slots)
    requires u in slots
    ensures BookingsConsistent(bookings) && Offered(vetIds, roomIds, bookings, u)
    ensures DayStartMinute <= u.start && u.end == u.start + AppointmentDuration <= DayEndMinute
  {
    var i :| 0 <= i < |raw| && raw[i] == u && FirstOfSpan(raw, i);
    assert raw[i] in raw;
    DayStartsMembership(AppointmentDuration, u.start);
  }

  /** Every time of day at which some vet and room are free is returned once, with its end. */
  lemma ResultCoversFreeTimes(vetIds: seq<int>, roomIds: seq<int>, bookings: seq<Booking>, raw: seq<Slot>,
                              slots: seq<Slot>, s: Slot)
    requires SolverContract(vetIds, roomIds, bookings, raw, slots)
    requires BookingsConsistent(bookings) && Offered(vetIds, roomIds, bookings, s)
    ensures exists u | u in slots :: u.start == s.start && u.end == s.end
  {
    assert s in raw;
    var k :| 0 <= k < |raw| && raw[k] == s;
    var i := FirstWithSpan(raw, k);
    assert raw[i] in slots;
    FormatInjective(raw[i].start, s.start);
    FormatInjective(raw[i].end, s.end);
  }

  /** The first position of `raw[k]`'s span. */
  lemma {:induction false} FirstWithSpan(raw: seq<Slot>, k: int) returns (i: int)
    requires 0 <= k < |raw|
    ensures 0 <= i <= k && Span(raw[i]) == Span(raw[k]) && FirstOfSpan(raw, i)
    decreases k
  {
    if FirstOfSpan(raw, k) {
      i := k;
    } else {
      var p :| 0 <= p < k && Span(raw[p]) == Span(raw[k]);
      i := FirstWithSpan(raw, p);
    }
  }

  /** Overlapping bookings, or one with negative length, make the model infeasible: nothing is returned. */
  lemma ResultEmptyWhenInconsistent(vetIds: seq<int>, roomIds: seq<int>, bookings: seq<Booking>, raw: seq<Slot>,
                                    slots: seq<Slot>)
    requires SolverContract(vetIds, roomIds, bookings, raw, slots)
    requires !BookingsConsistent(bookings)
    ensures slots == []
  {
    if slots != [] {
      ResultOffered(vetIds, roomIds, bookings, raw, slots, slots[0]);
    }
  }

  /**
   * A booking stored with an end time before its start time — one that runs past midnight —
   * empties the whole day, whatever vet and room it uses.
   */
  lemma PastMidnightBookingEmptiesDay(vetIds: seq<int>, roomIds: seq<int>, bookings: seq<Booking>, raw: seq<Slot>,
                                      slots: seq<Slot>, i: int)
    requires SolverContract(vetIds, roomIds, bookings, raw, slots)
    requires 0 <= i < |bookings| && EndMin(bookings[i]) < StartMin(bookings[i])
    ensures slots == []
  {
    ResultEmptyWhenInconsistent(vetIds, roomIds, bookings, raw, slots);
  }

  // ---------------------------------------------------------------------------
  // The start times are determined by the inputs
  // ---------------------------------------------------------------------------

  /** Some vet and some room are both free for the 30 minutes from `t`. */
  predicate TimeFree(vetIds: seq<int>, roomIds: seq<int>, bookings: seq<Booking>, t: int) {
    exists v, rm | v in vetIds && rm in roomIds :: CellFree(bookings, Cell(t, v, rm))
  }

  /** The grid starts at which some pair is free, in order. */
  function FreeAmong(starts: seq<int>, vetIds: seq<int>, roomIds: seq<int>, bookings: seq<Booking>): seq<int> {
    if starts == [] then []
    else
      var t := starts[|starts| - 1];
      FreeAmong(starts[..|starts| - 1], vetIds, roomIds, bookings)
        + (if TimeFree(vetIds, roomIds, bookings, t) then [t] else [])
  }

  /** The start times the solver returns, as a function of the inputs alone. */
  function FreeStarts(vetIds: seq<int>, roomIds: seq<int>, bookings: seq<Booking>): seq<int> {
    if BookingsConsistent(bookings) then FreeAmong(CandidateStarts(), vetIds, roomIds, bookings) else []
  }

  lemma {:induction false} FreeAmongMembership(starts: seq<int>, vetIds: seq<int>, roomIds: seq<int>,
                                               bookings: seq<Booking>, t: int)
    ensures t in FreeAmong(starts, vetIds, roomIds, bookings) <==> t in starts && TimeFree(vetIds, roomIds, bookings, t)
  {
    if starts != [] {
      var init := starts[..|starts| - 1];
      FreeAmongMembership(init, vetIds, roomIds, bookings, t);
      assert starts == init + [starts[|starts| - 1]];
    }
  }

  predicate Increasing(ts: seq<int>) {
    forall i, j | 0 <= i < j < |ts| :: ts[i] < ts[j]
  }

  lemma {:induction false} FreeAmongIncreasing(starts: seq<int>, vetIds: seq<int>, roomIds: seq<int>,
                                               bookings: seq<Booking>)
    requires Increasing(starts)
    ensures Increasing(FreeAmong(starts, vetIds, roomIds, bookings))
  {
    if starts != [] {
      var init, last := starts[..|starts| - 1], starts[|starts| - 1];
      var f := FreeAmong(init, vetIds, roomIds, bookings);
      FreeAmongIncreasing(init, vetIds, roomIds, bookings);
      forall x | x in f
        ensures x < last
      {
        FreeAmongMembership(init, vetIds, roomIds, bookings, x);
        var p :| 0 <= p < |init| && init[p] == x;
        assert starts[p] == x;
      }
      var r := FreeAmong(starts, vetIds, roomIds, bookings);
      if TimeFree(vetIds, roomIds, bookings, last) {
        forall i, j | 0 <= i < j < |r|
          ensures r[i] < r[j]
        {
          assert r[i] == f[i] && f[i] in f;
        }
      }
    }
  }

  /** Two strictly increasing lists with the same elements are the same list. */
  lemma {:induction false} IncreasingWithSameElements(xs: seq<int>, ys: seq<int>)
    requires Increasing(xs) && Increasing(ys)
    requires forall t :: t in xs <==> t in ys
    ensures xs == ys
  {
    assert xs != [] ==> xs[0] in xs && xs[0] in ys;
    assert ys != [] ==> ys[0] in ys && ys[0] in xs;
    if xs != [] && ys != [] {
      assert xs[0] == ys[0] by {
        assert xs[0] in ys && ys[0] in xs;
      }
      forall t
        ensures t in xs[1..] <==> t in ys[1..]
      {
        assert t in xs[1..] <==> t in xs && t != xs[0];
        assert t in ys[1..] <==> t in ys && t != ys[0];
      }
      IncreasingWithSameElements(xs[1..], ys[1..]);
      assert xs == [xs[0]] + xs[1..] && ys == [ys[0]] + ys[1..];
    }
  }

  function StartsOf(slots: seq<Slot>): (ts: seq<int>)
    ensures |ts| == |slots| && forall i | 0 <= i < |slots| :: ts[i] == slots[i].start
  {
    seq(|slots|, i requires 0 <= i < |slots| => slots[i].start)
  }

  /**
   * The returned start times are exactly the grid starts at which some vet and some room are free,
   * in order — whatever order CP-SAT reports its solutions in.
   */
  lemma StartsDetermined(vetIds: seq<int>, roomIds: seq<int>, bookings: seq<Booking>, raw: seq<Slot>, slots: seq<Slot>)
    requires SolverContract(vetIds, roomIds, bookings, raw, slots)
    ensures StartsOf(slots) == FreeStarts(vetIds, roomIds, bookings)
  {
    var ts, fs := StartsOf(slots), FreeStarts(vetIds, roomIds, bookings);
    if !BookingsConsistent(bookings) {
      ResultEmptyWhenInconsistent(vetIds, roomIds, bookings, raw, slots);
      return;
    }
    GridRangeIncreasing(DayStartMinute, DayEndMinute - AppointmentDuration + 1);
    FreeAmongIncreasing(CandidateStarts(), vetIds, roomIds, bookings);
    forall t
      ensures t in ts <==> t in fs
    {
      FreeAmongMembership(CandidateStarts(), vetIds, roomIds, bookings, t);
      if t in ts {
        var i :| 0 <= i < |ts| && ts[i] == t;
        ResultOffered(vetIds, roomIds, bookings, raw, slots, slots[i]);
      }
      if t in fs {
        var v, rm :| v in vetIds && rm in roomIds && CellFree(bookings, Cell(t, v, rm));
        DayStartsMembership(AppointmentDuration, t);
        var s := Slot(v, rm, t, t + AppointmentDuration);
        ResultCoversFreeTimes(vetIds, roomIds, bookings, raw, slots, s);
        var u :| u in slots && u.start == t && u.end == s.end;
        var i :| 0 <= i < |slots| && slots[i] == u;
        assert ts[i] == t;
      }
    }
    IncreasingWithSameElements(ts, fs);
  }

  /** Two runs on the same inputs return the same start times, whatever order each enumerated in. */
  lemma StartsIndependentOfEnumeration(vetIds: seq<int>, roomIds: seq<int>, bookings: seq<Booking>,
                                       raw1: seq<Slot>, slots1: seq<Slot>, raw2: seq<Slot>, slots2: seq<Slot>)
    requires SolverContract(vetIds, roomIds, bookings, raw1, slots1)
    requires SolverContract(vetIds, roomIds, bookings, raw2, slots2)
    ensures StartsOf(slots1) == StartsOf(slots2)
  {
    StartsDetermined(vetIds, roomIds, bookings, raw1, slots1);
    StartsDetermined(vetIds, roomIds, bookings, raw2, slots2);
  }

  /** With no vet or no room, no start time is free. */
  lemma {:induction false} NoneFreeWithoutResources(starts: seq<int>, vetIds: seq<int>, roomIds: seq<int>,
                                                    bookings: seq<Booking>)
    requires vetIds == [] || roomIds == []
    ensures FreeAmong(starts, vetIds, roomIds, bookings) == []
  {
    if starts != [] {
      NoneFreeWithoutResources(starts[..|starts| - 1], vetIds, roomIds, bookings);
      assert !TimeFree(vetIds, roomIds, bookings, starts[|starts| - 1]);
    }
  }

  /** A clinic without vets or without rooms gets an empty list. */
  lemma NoResourcesNoSlots(vetIds: seq<int>, roomIds: seq<int>, bookings: seq<Booking>, raw: seq<Slot>, slots: seq<Slot>)
    requires SolverContract(vetIds, roomIds, bookings, raw, slots)
    requires vetIds == [] || roomIds == []
    ensures slots == []
  {
    StartsDetermined(vetIds, roomIds, bookings, raw, slots);
    NoneFreeWithoutResources(CandidateStarts(), vetIds, roomIds, bookings);
    assert |StartsOf(slots)| == 0;
  }
}
