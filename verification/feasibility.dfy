/**
 * The solver's constraint model (backend/scheduler/solver.py): the fixed interval of every
 * existing booking and the optional 30-minute interval of every candidate, filed under each
 * vet and each room, and the meaning of one no-overlap constraint per vet and per room.
 *
 * CP-SAT itself is not modelled. A `Solution` is an assignment of the candidate literals under
 * which every constraint holds; the lemmas at the end characterise which candidates can be
 * selected at all.
 */
module FeasibilityModel {
  import opened Common
  import opened Clock
  import opened SlotGrid

  /** `appointment_duration`: the solver only looks for 30-minute slots. */
  const AppointmentDuration := 30

  /** An existing appointment of the day: ids and its `datetime.time` bounds. */
  datatype Booking = Booking(id: int, vetId: int, roomId: int, startTime: Time, endTime: Time)

  function StartMin(b: Booking): int {
    MinuteOf(b.startTime)
  }

  function EndMin(b: Booking): int {
    MinuteOf(b.endTime)
  }

  /** Which of the two resource kinds a constraint is about. */
  datatype Axis = ByVet | ByRoom

  function BookingResource(b: Booking, axis: Axis): int {
    if axis == ByVet then b.vetId else b.roomId
  }

  function CellResource(c: Cell<int, int>, axis: Axis): int {
    if axis == ByVet then c.vet else c.room
  }

  /**
   * A CP-SAT interval: start, size and end, and for an optional interval the index of the
   * Boolean literal that makes it present.
   */
  datatype Interval = Interval(start: int, size: int, end: int, literal: Option<nat>)

  /** `NewIntervalVar(start_min, duration, start_min + duration, ...)` for a booking. */
  function FixedInterval(b: Booking): (iv: Interval)
    ensures iv.literal == None && iv.start == StartMin(b) && iv.end == EndMin(b)
  {
    var s := StartMin(b);
    var d := EndMin(b) - s;
    Interval(s, d, s + d, None)
  }

  /** `NewOptionalIntervalVar(start_min, 30, start_min + 30, literal, ...)` for candidate number `k`. */
  function OptionalInterval(c: Cell<int, int>, k: nat): Interval {
    Interval(c.start, AppointmentDuration, c.start + AppointmentDuration, Some(k))
  }

  /** `range(day_start_min, day_end_min - appointment_duration + 1, 15)` */
  function CandidateStarts(): seq<int> {
    DayStarts(AppointmentDuration)
  }

  /** The built model: `potential_slots` in creation order and the two interval dictionaries. */
  datatype CpModel = CpModel(
    candidates: seq<Cell<int, int>>,
    vetIntervals: map<int, seq<Interval>>,
    roomIntervals: map<int, seq<Interval>>)

  function IntervalsOf(m: CpModel, axis: Axis): map<int, seq<Interval>> {
    if axis == ByVet then m.vetIntervals else m.roomIntervals
  }

  /** The fixed intervals appended to one resource's list, in booking order. */
  function FixedOn(bookings: seq<Booking>, id: int, axis: Axis): (ivs: seq<Interval>)
    ensures |ivs| <= |bookings|
    ensures forall p | 0 <= p < |ivs| :: ivs[p].literal == None
  {
    if bookings == [] then []
    else
      var last := bookings[|bookings| - 1];
      FixedOn(bookings[..|bookings| - 1], id, axis)
        + (if BookingResource(last, axis) == id then [FixedInterval(last)] else [])
  }

  /** The optional intervals appended to one resource's list, in candidate order. */
  function OptionalOn(cands: seq<Cell<int, int>>, id: int, axis: Axis): (ivs: seq<Interval>)
    ensures |ivs| <= |cands|
    ensures forall p | 0 <= p < |ivs| :: ivs[p].literal.Some? && ivs[p].literal.value < |cands|
  {
    if cands == [] then []
    else
      var k := |cands| - 1;
      OptionalOn(cands[..k], id, axis)
        + (if CellResource(cands[k], axis) == id then [OptionalInterval(cands[k], k)] else [])
  }

  /** `{id: [] for id in ids}` after the booking loop and the candidate loop. */
  function IntervalsOn(ids: seq<int>, bookings: seq<Booking>, cands: seq<Cell<int, int>>, axis: Axis)
    : map<int, seq<Interval>>
  {
    map id | id in ids :: FixedOn(bookings, id, axis) + OptionalOn(cands, id, axis)
  }

  /** The model the solver builds for the given vet ids, room ids and bookings. */
  function ModelOf(vetIds: seq<int>, roomIds: seq<int>, bookings: seq<Booking>): CpModel {
    var cands := Grid(CandidateStarts(), vetIds, roomIds);
    CpModel(cands, IntervalsOn(vetIds, bookings, cands, ByVet), IntervalsOn(roomIds, bookings, cands, ByRoom))
  }

  /** The vet and the room of a booking are among the keys of the two dictionaries. */
  predicate Known(vetIds: seq<int>, roomIds: seq<int>, b: Booking) {
    b.vetId in vetIds && b.roomId in roomIds
  }

  predicate AllKnown(vetIds: seq<int>, roomIds: seq<int>, bookings: seq<Booking>) {
    forall i | 0 <= i < |bookings| :: Known(vetIds, roomIds, bookings[i])
  }

  /** The `KeyError` raised by `vet_intervals[appt.vet_id]` or `room_intervals[appt.room_id]`. */
  datatype ModelError = UnknownVet(vetId: int) | UnknownRoom(roomId: int)

  function KeyErrorFor(vetIds: seq<int>, b: Booking): ModelError {
    if b.vetId !in vetIds then UnknownVet(b.vetId) else UnknownRoom(b.roomId)
  }

  // ---------------------------------------------------------------------------
  // Building the model (solver.py:30-82)
  // ---------------------------------------------------------------------------

  /** Appending a booking's fixed interval to its resource's list extends the booking prefix by one. */
  lemma IntervalsOnBooking(ids: seq<int>, bookings: seq<Booking>, i: int, axis: Axis, before: map<int, seq<Interval>>)
    requires 0 <= i < |bookings|
    requires before == IntervalsOn(ids, bookings[..i], [], axis)
    requires BookingResource(bookings[i], axis) in before
    ensures BookingResource(bookings[i], axis) in ids
    ensures var id := BookingResource(bookings[i], axis);
            IntervalsOn(ids, bookings[..i + 1], [], axis) == before[id := before[id] + [FixedInterval(bookings[i])]]
  {
    var id := BookingResource(bookings[i], axis);
    var after := IntervalsOn(ids, bookings[..i + 1], [], axis);
    var updated := before[id := before[id] + [FixedInterval(bookings[i])]];
    forall x | x in ids
      ensures after[x] == updated[x]
    {
      IntervalsOnBookingKey(ids, bookings, i, axis, x);
    }
    assert after.Keys == updated.Keys;
  }

  /** The booking step for one key of the dictionary. */
  lemma IntervalsOnBookingKey(ids: seq<int>, bookings: seq<Booking>, i: int, axis: Axis, x: int)
    requires 0 <= i < |bookings| && x in ids
    ensures IntervalsOn(ids, bookings[..i + 1], [], axis)[x]
         == IntervalsOn(ids, bookings[..i], [], axis)[x]
            + (if BookingResource(bookings[i], axis) == x then [FixedInterval(bookings[i])] else [])
  {
    assert bookings[..i + 1][..i] == bookings[..i];
  }

  /** Appending candidate number `|cands|` to its resource's list extends the candidate list by one. */
  lemma IntervalsOnCandidate(ids: seq<int>, bookings: seq<Booking>, cands: seq<Cell<int, int>>, c: Cell<int, int>,
                             axis: Axis, before: map<int, seq<Interval>>)
    requires before == IntervalsOn(ids, bookings, cands, axis)
    requires CellResource(c, axis) in ids
    ensures var id := CellResource(c, axis);
            IntervalsOn(ids, bookings, cands + [c], axis) == before[id := before[id] + [OptionalInterval(c, |cands|)]]
  {
    var id := CellResource(c, axis);
    var after := IntervalsOn(ids, bookings, cands + [c], axis);
    var updated := before[id := before[id] + [OptionalInterval(c, |cands|)]];
    forall x | x in ids
      ensures after[x] == updated[x]
    {
      IntervalsOnCandidateKey(ids, bookings, cands, c, axis, x);
    }
    assert after.Keys == updated.Keys;
  }

  /** The candidate step for one key of the dictionary. */
  lemma IntervalsOnCandidateKey(ids: seq<int>, bookings: seq<Booking>, cands: seq<Cell<int, int>>, c: Cell<int, int>,
                                axis: Axis, x: int)
    requires x in ids
    ensures IntervalsOn(ids, bookings, cands + [c], axis)[x]
         == IntervalsOn(ids, bookings, cands, axis)[x]
            + (if CellResource(c, axis) == x then [OptionalInterval(c, |cands|)] else [])
  {
    OptionalOnAppend(cands, c, x, axis);
  }

  /** A new candidate adds its optional interval to its own resource's list only. */
  lemma OptionalOnAppend(cands: seq<Cell<int, int>>, c: Cell<int, int>, id: int, axis: Axis)
    ensures OptionalOn(cands + [c], id, axis)
         == OptionalOn(cands, id, axis) + (if CellResource(c, axis) == id then [OptionalInterval(c, |cands|)] else [])
  {
    assert (cands + [c])[..|cands|] == cands;
  }

  /**
   * `intervals[key].append(interval)` for booking `i` (solver.py:42-51): `None` is the `KeyError`
   * raised when the booking's vet or room is not a key of the dictionary.
   */
  method AppendBookingInterval(ids: seq<int>, bookings: seq<Booking>, i: int, axis: Axis,
                               intervals: map<int, seq<Interval>>)
    returns (r: Option<map<int, seq<Interval>>>)
    requires 0 <= i < |bookings|
    requires intervals == IntervalsOn(ids, bookings[..i], [], axis)
    ensures r.Some? <==> BookingResource(bookings[i], axis) in ids
    ensures r.Some? ==> r.value == IntervalsOn(ids, bookings[..i + 1], [], axis)
  {
    var appt := bookings[i];
    var startMin: int := MinuteOf(appt.startTime);
    var endMin: int := MinuteOf(appt.endTime);
    var duration := endMin - startMin;
    var interval := Interval(startMin, duration, startMin + duration, None);
    assert interval == FixedInterval(appt);
    var key := BookingResource(appt, axis);
    if key !in intervals {
      return None;
    }
    IntervalsOnBooking(ids, bookings, i, axis, intervals);
    return Some(intervals[key := intervals[key] + [interval]]);
  }

  /**
   * The booking loop (solver.py:35-51): starting from an empty list per vet and per room, each
   * booking's fixed interval is appended to its vet's list and then to its room's list; a vet or
   * room missing from the dictionaries raises `KeyError`.
   */
  method AddBookingIntervals(vetIds: seq<int>, roomIds: seq<int>, bookings: seq<Booking>)
    returns (r: Result<(map<int, seq<Interval>>, map<int, seq<Interval>>), ModelError>)
    ensures r.Success? <==> AllKnown(vetIds, roomIds, bookings)
    ensures r.Success? ==> r.value == (IntervalsOn(vetIds, bookings, [], ByVet), IntervalsOn(roomIds, bookings, [], ByRoom))
    ensures r.Failure? ==> exists i | 0 <= i < |bookings| ::
              && !Known(vetIds, roomIds, bookings[i])
              && (forall j | 0 <= j < i :: Known(vetIds, roomIds, bookings[j]))
              && r.error == KeyErrorFor(vetIds, bookings[i])
  {
    var vetIntervals: map<int, seq<Interval>> := map v | v in vetIds :: [];
    var roomIntervals: map<int, seq<Interval>> := map rm | rm in roomIds :: [];
    assert vetIntervals == IntervalsOn(vetIds, bookings[..0], [], ByVet);
    assert roomIntervals == IntervalsOn(roomIds, bookings[..0], [], ByRoom);
    for i := 0 to |bookings|
      invariant forall j | 0 <= j < i :: Known(vetIds, roomIds, bookings[j])
      invariant vetIntervals == IntervalsOn(vetIds, bookings[..i], [], ByVet)
      invariant roomIntervals == IntervalsOn(roomIds, bookings[..i], [], ByRoom)
    {
      var byVet := AppendBookingInterval(vetIds, bookings, i, ByVet, vetIntervals);
      if byVet.None? {
        return Failure(UnknownVet(bookings[i].vetId));
      }
      var byRoom := AppendBookingInterval(roomIds, bookings, i, ByRoom, roomIntervals);
      if byRoom.None? {
        return Failure(UnknownRoom(bookings[i].roomId));
      }
      vetIntervals, roomIntervals := byVet.value, byRoom.value;
    }
    assert bookings[..|bookings|] == bookings;
    return Success((vetIntervals, roomIntervals));
  }

  /**
   * `intervals[key].append(interval)` for a new candidate (solver.py:79-80): its optional
   * interval, whose literal is the candidate's index, joins its vet's or its room's list.
   */
  method AppendCandidateInterval(ids: seq<int>, bookings: seq<Booking>, slots: seq<Cell<int, int>>,
                                 cell: Cell<int, int>, axis: Axis, intervals: map<int, seq<Interval>>)
    returns (intervals': map<int, seq<Interval>>)
    requires CellResource(cell, axis) in ids
    requires intervals == IntervalsOn(ids, bookings, slots, axis)
    ensures intervals' == IntervalsOn(ids, bookings, slots + [cell], axis)
  {
    var interval := Interval(cell.start, AppointmentDuration, cell.start + AppointmentDuration, Some(|slots|));
    assert interval == OptionalInterval(cell, |slots|);
    var key := CellResource(cell, axis);
    IntervalsOnCandidate(ids, bookings, slots, cell, axis, intervals);
    intervals' := intervals[key := intervals[key] + [interval]];
  }

  /**
   * One pass of the candidate loop (solver.py:63-82) for one start minute: vet by vet, room by
   * room, a candidate is appended to `potential_slots` and its optional interval to its vet's and
   * its room's list.
   */
  method AddCandidatesAt(startMin: int, vetIds: seq<int>, roomIds: seq<int>, bookings: seq<Booking>,
                         slots: seq<Cell<int, int>>, vetIntervals: map<int, seq<Interval>>,
                         roomIntervals: map<int, seq<Interval>>)
    returns (slots': seq<Cell<int, int>>, vetIntervals': map<int, seq<Interval>>, roomIntervals': map<int, seq<Interval>>)
    requires vetIntervals == IntervalsOn(vetIds, bookings, slots, ByVet)
    requires roomIntervals == IntervalsOn(roomIds, bookings, slots, ByRoom)
    ensures slots' == slots + Row(startMin, vetIds, roomIds)
    ensures vetIntervals' == IntervalsOn(vetIds, bookings, slots', ByVet)
    ensures roomIntervals' == IntervalsOn(roomIds, bookings, slots', ByRoom)
  {
    slots', vetIntervals', roomIntervals' := slots, vetIntervals, roomIntervals;
    for b := 0 to |vetIds|
      invariant slots' == slots + Row(startMin, vetIds[..b], roomIds)
      invariant vetIntervals' == IntervalsOn(vetIds, bookings, slots', ByVet)
      invariant roomIntervals' == IntervalsOn(roomIds, bookings, slots', ByRoom)
    {
      var vId := vetIds[b];
      assert vetIds[..b + 1][..b] == vetIds[..b];
      for c := 0 to |roomIds|
        invariant slots' == slots + Row(startMin, vetIds[..b], roomIds) + Column(startMin, vId, roomIds[..c])
        invariant vetIntervals' == IntervalsOn(vetIds, bookings, slots', ByVet)
        invariant roomIntervals' == IntervalsOn(roomIds, bookings, slots', ByRoom)
      {
        var cell := Cell(startMin, vId, roomIds[c]);
        vetIntervals' := AppendCandidateInterval(vetIds, bookings, slots', cell, ByVet, vetIntervals');
        roomIntervals' := AppendCandidateInterval(roomIds, bookings, slots', cell, ByRoom, roomIntervals');
        assert roomIds[..c + 1][..c] == roomIds[..c];
        slots' := slots' + [cell];
      }
      assert roomIds[..|roomIds|] == roomIds;
    }
    assert vetIds[..|vetIds|] == vetIds;
  }

  /**
   * The model as the solver builds it (solver.py:30-82): the booking intervals, then every
   * candidate of the grid start by start. It fails with the `KeyError` of the first booking
   * whose vet or room is not among the given ones.
   */
  method BuildModel(vetIds: seq<int>, roomIds: seq<int>, bookings: seq<Booking>) returns (r: Result<CpModel, ModelError>)
    ensures r.Success? <==> AllKnown(vetIds, roomIds, bookings)
    ensures r.Success? ==> r.value == ModelOf(vetIds, roomIds, bookings)
    ensures r.Failure? ==> exists i | 0 <= i < |bookings| ::
              && !Known(vetIds, roomIds, bookings[i])
              && (forall j | 0 <= j < i :: Known(vetIds, roomIds, bookings[j]))
              && r.error == KeyErrorFor(vetIds, bookings[i])
  {
    var fixed := AddBookingIntervals(vetIds, roomIds, bookings);
    if fixed.Failure? {
      return Failure(fixed.error);
    }
    var (vetIntervals, roomIntervals) := fixed.value;
    var possibleStarts := CandidateStarts();
    var potentialSlots: seq<Cell<int, int>> := [];
    for a := 0 to |possibleStarts|
      invariant potentialSlots == Grid(possibleStarts[..a], vetIds, roomIds)
      invariant vetIntervals == IntervalsOn(vetIds, bookings, potentialSlots, ByVet)
      invariant roomIntervals == IntervalsOn(roomIds, bookings, potentialSlots, ByRoom)
    {
      assert possibleStarts[..a + 1][..a] == possibleStarts[..a];
      potentialSlots, vetIntervals, roomIntervals :=
        AddCandidatesAt(possibleStarts[a], vetIds, roomIds, bookings, potentialSlots, vetIntervals, roomIntervals);
    }
    assert possibleStarts[..|possibleStarts|] == possibleStarts;
    return Success(CpModel(potentialSlots, vetIntervals, roomIntervals));
  }

  // ---------------------------------------------------------------------------
  // What CP-SAT accepts
  // ---------------------------------------------------------------------------

  /** A fixed interval is always present; an optional one when its literal is true. */
  predicate Present(iv: Interval, sel: seq<bool>) {
    match iv.literal
    case None => true
    case Some(k) => k < |sel| && sel[k]
  }

  predicate IntervalsOverlap(a: Interval, b: Interval) {
    Overlaps(a.start, a.end, b.start, b.end)
  }

  /** `AddNoOverlap(intervals)` under assignment `sel`: present intervals have a non-negative size and are pairwise disjoint. */
  predicate NoOverlap(ivs: seq<Interval>, sel: seq<bool>) {
    && (forall p | 0 <= p < |ivs| && Present(ivs[p], sel) :: ivs[p].size >= 0)
    && (forall p, q | 0 <= p < q < |ivs| && Present(ivs[p], sel) && Present(ivs[q], sel) ::
          !IntervalsOverlap(ivs[p], ivs[q]))
  }

  /** `sel` assigns every candidate literal and satisfies every per-vet and per-room constraint. */
  predicate Solution(m: CpModel, sel: seq<bool>) {
    && |sel| == |m.candidates|
    && (forall v | v in m.vetIntervals :: NoOverlap(m.vetIntervals[v], sel))
    && (forall r | r in m.roomIntervals :: NoOverlap(m.roomIntervals[r], sel))
  }

  /** The assignment that selects candidate `k` and nothing else. */
  function Only(n: nat, k: int): (sel: seq<bool>)
    ensures |sel| == n
  {
    seq(n, i => i == k)
  }

  // ---------------------------------------------------------------------------
  // The same conditions in terms of the bookings
  // ---------------------------------------------------------------------------

  predicate BookingsOverlap(a: Booking, b: Booking) {
    Overlaps(StartMin(a), EndMin(a), StartMin(b), EndMin(b))
  }

  /**
   * The day's bookings can coexist: none ends before it starts, and no two on the same vet
   * or the same room overlap.
   */
  predicate BookingsConsistent(bookings: seq<Booking>) {
    && (forall i | 0 <= i < |bookings| :: StartMin(bookings[i]) <= EndMin(bookings[i]))
    && (forall i, j | 0 <= i < j < |bookings| &&
          (bookings[i].vetId == bookings[j].vetId || bookings[i].roomId == bookings[j].roomId) ::
          !BookingsOverlap(bookings[i], bookings[j]))
  }

  /** A 30-minute appointment at `c` overlaps no booking of its vet and none of its room. */
  predicate CellFree(bookings: seq<Booking>, c: Cell<int, int>) {
    forall i | 0 <= i < |bookings| && (bookings[i].vetId == c.vet || bookings[i].roomId == c.room) ::
      !Overlaps(StartMin(bookings[i]), EndMin(bookings[i]), c.start, c.start + AppointmentDuration)
  }

  // ---------------------------------------------------------------------------
  // Positions in the interval lists
  // ---------------------------------------------------------------------------

  /** Booking `i` of resource `id` sits in that resource's list after the earlier bookings of `id`. */
  lemma {:induction false} FixedOnAt(bookings: seq<Booking>, id: int, axis: Axis, i: int)
    requires 0 <= i < |bookings| && BookingResource(bookings[i], axis) == id
    ensures |FixedOn(bookings[..i], id, axis)| < |FixedOn(bookings, id, axis)|
    ensures FixedOn(bookings, id, axis)[|FixedOn(bookings[..i], id, axis)|] == FixedInterval(bookings[i])
  {
    var n := |bookings|;
    var init := bookings[..n - 1];
    if i < n - 1 {
      FixedOnAt(init, id, axis, i);
      assert init[..i] == bookings[..i];
    }
  }

  /** Every entry of a resource's fixed list comes from a booking of that resource. */
  lemma {:induction false} FixedOnSource(bookings: seq<Booking>, id: int, axis: Axis, p: int) returns (i: int)
    requires 0 <= p < |FixedOn(bookings, id, axis)|
    ensures 0 <= i < |bookings|
    ensures BookingResource(bookings[i], axis) == id
    ensures |FixedOn(bookings[..i], id, axis)| == p
    ensures FixedOn(bookings, id, axis)[p] == FixedInterval(bookings[i])
  {
    var n := |bookings|;
    var init := bookings[..n - 1];
    if p < |FixedOn(init, id, axis)| {
      i := FixedOnSource(init, id, axis, p);
      assert init[..i] == bookings[..i];
    } else {
      i := n - 1;
      assert init == bookings[..n - 1];
    }
  }

  /** Later bookings of a resource come later in its list. */
  lemma {:induction false} FixedCountGrows(bookings: seq<Booking>, id: int, axis: Axis, a: int, b: int)
    requires 0 <= a < b <= |bookings|
    ensures |FixedOn(bookings[..a], id, axis)| + (if BookingResource(bookings[a], axis) == id then 1 else 0)
            <= |FixedOn(bookings[..b], id, axis)|
  {
    if b == a + 1 {
      assert bookings[..a + 1][..a] == bookings[..a];
    } else {
      FixedCountGrows(bookings, id, axis, a, b - 1);
      assert bookings[..b][..b - 1] == bookings[..b - 1];
    }
  }

  lemma {:induction false} OptionalOnAt(cands: seq<Cell<int, int>>, id: int, axis: Axis, k: int)
    requires 0 <= k < |cands| && CellResource(cands[k], axis) == id
    ensures |OptionalOn(cands[..k], id, axis)| < |OptionalOn(cands, id, axis)|
    ensures OptionalOn(cands, id, axis)[|OptionalOn(cands[..k], id, axis)|] == OptionalInterval(cands[k], k)
  {
    var n := |cands|;
    var init := cands[..n - 1];
    if k < n - 1 {
      OptionalOnAt(init, id, axis, k);
      assert init[..k] == cands[..k];
    }
  }

  lemma {:induction false} OptionalOnSource(cands: seq<Cell<int, int>>, id: int, axis: Axis, p: int) returns (k: int)
    requires 0 <= p < |OptionalOn(cands, id, axis)|
    ensures 0 <= k < |cands|
    ensures CellResource(cands[k], axis) == id
    ensures |OptionalOn(cands[..k], id, axis)| == p
    ensures OptionalOn(cands, id, axis)[p] == OptionalInterval(cands[k], k)
  {
    var n := |cands|;
    var init := cands[..n - 1];
    if p < |OptionalOn(init, id, axis)| {
      k := OptionalOnSource(init, id, axis, p);
      assert init[..k] == cands[..k];
    } else {
      k := n - 1;
      assert init == cands[..n - 1];
    }
  }


  // ---------------------------------------------------------------------------
  // Which candidates CP-SAT can select
  // ---------------------------------------------------------------------------

  function IdsOf(vetIds: seq<int>, roomIds: seq<int>, axis: Axis): seq<int> {
    if axis == ByVet then vetIds else roomIds
  }

  /** The list of resource `id` in the built model: its bookings first, then its candidates. */
  lemma ListOf(vetIds: seq<int>, roomIds: seq<int>, bookings: seq<Booking>, axis: Axis, id: int)
    requires id in IdsOf(vetIds, roomIds, axis)
    ensures var m := ModelOf(vetIds, roomIds, bookings);
            id in IntervalsOf(m, axis) &&
            IntervalsOf(m, axis)[id] == FixedOn(bookings, id, axis) + OptionalOn(m.candidates, id, axis)
  {
  }

  /** Every candidate's vet and room are keys of the two dictionaries. */
  lemma CandidateResourceKnown(vetIds: seq<int>, roomIds: seq<int>, bookings: seq<Booking>, k: int, axis: Axis)
    requires 0 <= k < |ModelOf(vetIds, roomIds, bookings).candidates|
    ensures CellResource(ModelOf(vetIds, roomIds, bookings).candidates[k], axis) in IdsOf(vetIds, roomIds, axis)
  {
    var cands := ModelOf(vetIds, roomIds, bookings).candidates;
    assert cands[k] in cands;
    GridMembership(CandidateStarts(), vetIds, roomIds, cands[k]);
  }

  /** In any solution, two bookings of the same resource do not overlap and neither runs backwards. */
  lemma SolutionSeparatesBookings(vetIds: seq<int>, roomIds: seq<int>, bookings: seq<Booking>, sel: seq<bool>,
                                  axis: Axis, i: int, j: int)
    requires AllKnown(vetIds, roomIds, bookings)
    requires Solution(ModelOf(vetIds, roomIds, bookings), sel)
    requires 0 <= i < j < |bookings| && BookingResource(bookings[i], axis) == BookingResource(bookings[j], axis)
    ensures !BookingsOverlap(bookings[i], bookings[j])
    ensures StartMin(bookings[i]) <= EndMin(bookings[i])
  {
    var m := ModelOf(vetIds, roomIds, bookings);
    var id := BookingResource(bookings[i], axis);
    assert Known(vetIds, roomIds, bookings[i]);
    ListOf(vetIds, roomIds, bookings, axis, id);
    var list := IntervalsOf(m, axis)[id];
    var fixed := FixedOn(bookings, id, axis);
    FixedOnAt(bookings, id, axis, i);
    FixedOnAt(bookings, id, axis, j);
    FixedCountGrows(bookings, id, axis, i, j);
    var p, q := |FixedOn(bookings[..i], id, axis)|, |FixedOn(bookings[..j], id, axis)|;
    assert list[p] == FixedInterval(bookings[i]) && list[q] == FixedInterval(bookings[j]);
    assert NoOverlap(list, sel);
    assert Present(list[p], sel) && Present(list[q], sel);
  }

  /** A model that has a solution at all was built from consistent bookings. */
  lemma SolutionImpliesConsistent(vetIds: seq<int>, roomIds: seq<int>, bookings: seq<Booking>, sel: seq<bool>)
    requires AllKnown(vetIds, roomIds, bookings)
    requires Solution(ModelOf(vetIds, roomIds, bookings), sel)
    ensures BookingsConsistent(bookings)
  {
    var m := ModelOf(vetIds, roomIds, bookings);
    forall i | 0 <= i < |bookings|
      ensures StartMin(bookings[i]) <= EndMin(bookings[i])
    {
      var id := bookings[i].vetId;
      assert Known(vetIds, roomIds, bookings[i]);
      ListOf(vetIds, roomIds, bookings, ByVet, id);
      FixedOnAt(bookings, id, ByVet, i);
      var list := m.vetIntervals[id];
      var p := |FixedOn(bookings[..i], id, ByVet)|;
      assert list[p] == FixedInterval(bookings[i]);
      assert NoOverlap(list, sel) && Present(list[p], sel);
    }
    forall i, j | 0 <= i < j < |bookings| &&
                  (bookings[i].vetId == bookings[j].vetId || bookings[i].roomId == bookings[j].roomId)
      ensures !BookingsOverlap(bookings[i], bookings[j])
    {
      if bookings[i].vetId == bookings[j].vetId {
        SolutionSeparatesBookings(vetIds, roomIds, bookings, sel, ByVet, i, j);
      } else {
        SolutionSeparatesBookings(vetIds, roomIds, bookings, sel, ByRoom, i, j);
      }
    }
  }

  lemma SelectedClearsBooking(vetIds: seq<int>, roomIds: seq<int>, bookings: seq<Booking>, sel: seq<bool>,
                              k: int, axis: Axis, i: int)
    requires AllKnown(vetIds, roomIds, bookings)
    requires Solution(ModelOf(vetIds, roomIds, bookings), sel)
    requires 0 <= k < |sel| && sel[k]
    requires 0 <= i < |bookings|
    requires BookingResource(bookings[i], axis) == CellResource(ModelOf(vetIds, roomIds, bookings).candidates[k], axis)
    ensures var c := ModelOf(vetIds, roomIds, bookings).candidates[k];
            !Overlaps(StartMin(bookings[i]), EndMin(bookings[i]), c.start, c.start + AppointmentDuration)
  {
    var m := ModelOf(vetIds, roomIds, bookings);
    var c := m.candidates[k];
    var id := CellResource(c, axis);
    CandidateResourceKnown(vetIds, roomIds, bookings, k, axis);
    ListOf(vetIds, roomIds, bookings, axis, id);
    var list := IntervalsOf(m, axis)[id];
    var fixed := FixedOn(bookings, id, axis);
    FixedOnAt(bookings, id, axis, i);
    OptionalOnAt(m.candidates, id, axis, k);
    var p := |FixedOn(bookings[..i], id, axis)|;
    var q := |fixed| + |OptionalOn(m.candidates[..k], id, axis)|;
    assert list[p] == FixedInterval(bookings[i]);
    assert list[q] == OptionalInterval(c, k);
    assert NoOverlap(list, sel) && Present(list[p], sel) && Present(list[q], sel);
  }

  /** A candidate selected in some solution clears every booking of its vet and of its room. */
  lemma SelectedCandidateIsFree(vetIds: seq<int>, roomIds: seq<int>, bookings: seq<Booking>, sel: seq<bool>, k: int)
    requires AllKnown(vetIds, roomIds, bookings)
    requires Solution(ModelOf(vetIds, roomIds, bookings), sel)
    requires 0 <= k < |sel| && sel[k]
    ensures CellFree(bookings, ModelOf(vetIds, roomIds, bookings).candidates[k])
  {
    var c := ModelOf(vetIds, roomIds, bookings).candidates[k];
    forall i | 0 <= i < |bookings| && (bookings[i].vetId == c.vet || bookings[i].roomId == c.room)
      ensures !Overlaps(StartMin(bookings[i]), EndMin(bookings[i]), c.start, c.start + AppointmentDuration)
    {
      if bookings[i].vetId == c.vet {
        SelectedClearsBooking(vetIds, roomIds, bookings, sel, k, ByVet, i);
      } else {
        SelectedClearsBooking(vetIds, roomIds, bookings, sel, k, ByRoom, i);
      }
    }
  }

  /** Two bookings of one resource appear in its list in booking order, so consistency keeps them apart. */
  lemma FixedEntriesDisjoint(bookings: seq<Booking>, id: int, axis: Axis, p: int, q: int)
    requires BookingsConsistent(bookings)
    requires 0 <= p < q < |FixedOn(bookings, id, axis)|
    ensures !IntervalsOverlap(FixedOn(bookings, id, axis)[p], FixedOn(bookings, id, axis)[q])
  {
    var fixed := FixedOn(bookings, id, axis);
    var i := FixedOnSource(bookings, id, axis, p);
    var j := FixedOnSource(bookings, id, axis, q);
    if j < i {
      FixedCountGrows(bookings, id, axis, j, i);
    }
    assert i < j;
    assert !BookingsOverlap(bookings[i], bookings[j]) by {
      assert bookings[i].vetId == bookings[j].vetId || bookings[i].roomId == bookings[j].roomId;
    }
  }

  lemma FixedEntryNonNegative(bookings: seq<Booking>, id: int, axis: Axis, p: int)
    requires BookingsConsistent(bookings)
    requires 0 <= p < |FixedOn(bookings, id, axis)|
    ensures FixedOn(bookings, id, axis)[p].size >= 0
  {
    var i := FixedOnSource(bookings, id, axis, p);
  }

  /** The optional entry of candidate `k` clears every fixed entry of its list when the candidate is free. */
  lemma FixedAndOptionalDisjoint(bookings: seq<Booking>, cands: seq<Cell<int, int>>, id: int, axis: Axis,
                                 k: int, p: int, q: int)
    requires 0 <= k < |cands| && CellFree(bookings, cands[k])
    requires 0 <= p < |FixedOn(bookings, id, axis)|
    requires 0 <= q < |OptionalOn(cands, id, axis)| && OptionalOn(cands, id, axis)[q].literal == Some(k)
    ensures !IntervalsOverlap(FixedOn(bookings, id, axis)[p], OptionalOn(cands, id, axis)[q])
  {
    var fixed, opts := FixedOn(bookings, id, axis), OptionalOn(cands, id, axis);
    var i := FixedOnSource(bookings, id, axis, p);
    var k' := OptionalOnSource(cands, id, axis, q);
    assert k' == k;
    assert bookings[i].vetId == cands[k].vet || bookings[i].roomId == cands[k].room;
  }

  /** Each literal guards at most one entry of a list. */
  lemma OptionalLiteralsDistinct(cands: seq<Cell<int, int>>, id: int, axis: Axis, p: int, q: int)
    requires 0 <= p < q < |OptionalOn(cands, id, axis)|
    ensures OptionalOn(cands, id, axis)[p].literal != OptionalOn(cands, id, axis)[q].literal
  {
    var opts := OptionalOn(cands, id, axis);
    var k1 := OptionalOnSource(cands, id, axis, p);
    var k2 := OptionalOnSource(cands, id, axis, q);
  }

  /** Two present entries of a resource's list are disjoint when only the free candidate `k` is selected. */
  lemma PresentPairUnderOnly(bookings: seq<Booking>, cands: seq<Cell<int, int>>, id: int, axis: Axis, k: int,
                             p: int, q: int)
    requires BookingsConsistent(bookings)
    requires 0 <= k < |cands| && CellFree(bookings, cands[k])
    requires 0 <= p < q < |FixedOn(bookings, id, axis) + OptionalOn(cands, id, axis)|
    requires (FixedOn(bookings, id, axis) + OptionalOn(cands, id, axis))[p].literal in {None, Some(k)}
    requires (FixedOn(bookings, id, axis) + OptionalOn(cands, id, axis))[q].literal in {None, Some(k)}
    ensures !IntervalsOverlap((FixedOn(bookings, id, axis) + OptionalOn(cands, id, axis))[p],
                              (FixedOn(bookings, id, axis) + OptionalOn(cands, id, axis))[q])
  {
    var fixed, opts := FixedOn(bookings, id, axis), OptionalOn(cands, id, axis);
    var list := fixed + opts;
    if q < |fixed| {
      assert list[p] == fixed[p] && list[q] == fixed[q];
      FixedEntriesDisjoint(bookings, id, axis, p, q);
    } else if p < |fixed| {
      assert list[p] == fixed[p] && list[q] == opts[q - |fixed|];
      FixedAndOptionalDisjoint(bookings, cands, id, axis, k, p, q - |fixed|);
    } else {
      assert list[p] == opts[p - |fixed|] && list[q] == opts[q - |fixed|];
      OptionalLiteralsDistinct(cands, id, axis, p - |fixed|, q - |fixed|);
    }
  }

  lemma PresentUnderOnly(iv: Interval, n: nat, k: int)
    requires Present(iv, Only(n, k))
    ensures iv.literal in {None, Some(k)}
  {
  }

  lemma SizesUnderOnly(bookings: seq<Booking>, cands: seq<Cell<int, int>>, id: int, axis: Axis, k: int)
    requires BookingsConsistent(bookings)
    ensures var list := FixedOn(bookings, id, axis) + OptionalOn(cands, id, axis);
            forall p | 0 <= p < |list| && Present(list[p], Only(|cands|, k)) :: list[p].size >= 0
  {
    var fixed, opts := FixedOn(bookings, id, axis), OptionalOn(cands, id, axis);
    var list := fixed + opts;
    forall p | 0 <= p < |list| && Present(list[p], Only(|cands|, k))
      ensures list[p].size >= 0
    {
      if p < |fixed| {
        assert list[p] == fixed[p];
        FixedEntryNonNegative(bookings, id, axis, p);
      } else {
        assert list[p] == opts[p - |fixed|];
        var source := OptionalOnSource(cands, id, axis, p - |fixed|);
      }
    }
  }

  lemma PairsUnderOnly(bookings: seq<Booking>, cands: seq<Cell<int, int>>, id: int, axis: Axis, k: int)
    requires BookingsConsistent(bookings)
    requires 0 <= k < |cands| && CellFree(bookings, cands[k])
    ensures var list := FixedOn(bookings, id, axis) + OptionalOn(cands, id, axis);
            forall p, q | 0 <= p < q < |list| && Present(list[p], Only(|cands|, k)) && Present(list[q], Only(|cands|, k)) ::
              !IntervalsOverlap(list[p], list[q])
  {
    var list := FixedOn(bookings, id, axis) + OptionalOn(cands, id, axis);
    forall p, q | 0 <= p < q < |list| && Present(list[p], Only(|cands|, k)) && Present(list[q], Only(|cands|, k))
      ensures !IntervalsOverlap(list[p], list[q])
    {
      PresentUnderOnly(list[p], |cands|, k);
      PresentUnderOnly(list[q], |cands|, k);
      PresentPairUnderOnly(bookings, cands, id, axis, k, p, q);
    }
  }

  /** A resource's list satisfies its constraint when only the free candidate `k` is selected. */
  lemma NoOverlapUnderOnly(bookings: seq<Booking>, cands: seq<Cell<int, int>>, id: int, axis: Axis, k: int)
    requires BookingsConsistent(bookings)
    requires 0 <= k < |cands| && CellFree(bookings, cands[k])
    ensures NoOverlap(FixedOn(bookings, id, axis) + OptionalOn(cands, id, axis), Only(|cands|, k))
  {
    SizesUnderOnly(bookings, cands, id, axis, k);
    PairsUnderOnly(bookings, cands, id, axis, k);
  }

  /** With consistent bookings, a candidate that clears its vet's and its room's bookings may be selected alone. */
  lemma FreeCandidateIsSolution(vetIds: seq<int>, roomIds: seq<int>, bookings: seq<Booking>, k: int)
    requires AllKnown(vetIds, roomIds, bookings)
    requires BookingsConsistent(bookings)
    requires 0 <= k < |ModelOf(vetIds, roomIds, bookings).candidates|
    requires CellFree(bookings, ModelOf(vetIds, roomIds, bookings).candidates[k])
    ensures var m := ModelOf(vetIds, roomIds, bookings);
            Solution(m, Only(|m.candidates|, k))
  {
    var m := ModelOf(vetIds, roomIds, bookings);
    forall v | v in m.vetIntervals
      ensures NoOverlap(m.vetIntervals[v], Only(|m.candidates|, k))
    {
      NoOverlapUnderOnly(bookings, m.candidates, v, ByVet, k);
    }
    forall r | r in m.roomIntervals
      ensures NoOverlap(m.roomIntervals[r], Only(|m.candidates|, k))
    {
      NoOverlapUnderOnly(bookings, m.candidates, r, ByRoom, k);
    }
  }

  /**
   * Selecting a single candidate is a solution exactly when the bookings are consistent and the
   * candidate clears every booking of its vet and of its room.
   */
  lemma SingleCandidateSolution(vetIds: seq<int>, roomIds: seq<int>, bookings: seq<Booking>, k: int)
    requires AllKnown(vetIds, roomIds, bookings)
    requires 0 <= k < |ModelOf(vetIds, roomIds, bookings).candidates|
    ensures var m := ModelOf(vetIds, roomIds, bookings);
            Solution(m, Only(|m.candidates|, k)) <==> BookingsConsistent(bookings) && CellFree(bookings, m.candidates[k])
  {
    var m := ModelOf(vetIds, roomIds, bookings);
    var sel := Only(|m.candidates|, k);
    if Solution(m, sel) {
      SolutionImpliesConsistent(vetIds, roomIds, bookings, sel);
      SelectedCandidateIsFree(vetIds, roomIds, bookings, sel, k);
    }
    if BookingsConsistent(bookings) && CellFree(bookings, m.candidates[k]) {
      FreeCandidateIsSolution(vetIds, roomIds, bookings, k);
    }
  }
}
