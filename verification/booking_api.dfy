/**
 * The pieces of the Flask routes in backend/api.py that compute rather than render: the duration
 * lookup, the `/find-appointment` flow from solver to ranker to the top three, and the end time
 * written by `/book-appointment`.
 */
module BookingApi {
  import opened Common
  import opened Clock
  import opened Clinic
  import opened SlotGrid
  import opened FeasibilityModel
  import opened SolutionEnumerator
  import opened Solver
  import opened Ranker

  /** An entry of `appointment_types.json`: `{"type": ..., "duration_minutes": ...}`. */
  datatype AppointmentTypeConfig = AppointmentTypeConfig(typeName: string, durationMinutes: int)

  /** The duration used when no configured type matches. */
  const DefaultDuration := 30

  /** How many ranked slots the results page shows. */
  const ShownSlots := 3

  /**
   * `next((t['duration_minutes'] for t in types if t['type'] == appointment_type), 30)`: the
   * duration of the first entry with the requested name, else 30.
   */
  function DurationFor(types: seq<AppointmentTypeConfig>, requested: string): (d: int)
    ensures (exists i | 0 <= i < |types| :: types[i].typeName == requested) ==>
              exists i | 0 <= i < |types| ::
                && types[i].typeName == requested
                && (forall j | 0 <= j < i :: types[j].typeName != requested)
                && d == types[i].durationMinutes
    ensures (forall i | 0 <= i < |types| :: types[i].typeName != requested) ==> d == DefaultDuration
  {
    if types == [] then DefaultDuration
    else if types[0].typeName == requested then types[0].durationMinutes
    else
      var d := DurationFor(types[1..], requested);
      assert forall i | 1 <= i < |types| :: types[i] == types[1..][i - 1];
      d
  }

  /** `ranked_slots[:3]`: the first three slots, or all of them when there are fewer. */
  function TopSlots<T>(ranked: seq<T>): (top: seq<T>)
    ensures top <= ranked
    ensures |top| == if |ranked| < ShownSlots then |ranked| else ShownSlots
  {
    if |ranked| <= ShownSlots then ranked else ranked[..ShownSlots]
  }

  /**
   * `(datetime.combine(appointment_date, start_time_obj) + timedelta(minutes=duration)).time()`:
   * the end time stored with a new booking.
   */
  function BookedEndTime(start: Time, duration: int): (end: Time)
    ensures exists days: int :: MinuteOf(start) + duration == days * MinutesPerDay + MinuteOf(end)
  {
    TimeOf(AddMinutes(MinuteOf(start), duration))
  }

  /** A booking that ends on its own day ends `duration` minutes after it starts. */
  lemma BookedEndSameDay(start: Time, duration: int)
    requires 0 <= MinuteOf(start) + duration < MinutesPerDay
    ensures MinuteOf(BookedEndTime(start, duration)) == MinuteOf(start) + duration
  {
    AddMinutesWithinDay(MinuteOf(start), duration);
  }

  /**
   * A booking that runs past midnight is stored with an end time earlier than its start, so
   * later overlap tests treat it as an empty interval.
   */
  lemma BookedEndPastMidnight(start: Time, duration: int)
    requires MinutesPerDay <= MinuteOf(start) + duration && duration < MinutesPerDay
    ensures MinuteOf(BookedEndTime(start, duration)) < MinuteOf(start)
  {
    AddMinutesPastMidnight(MinuteOf(start), duration);
  }

  /** Booking a slot the solver offered, for 30 minutes, stores exactly that slot's end time. */
  lemma BookingOfferedSlot(vetIds: seq<int>, roomIds: seq<int>, bookings: seq<Booking>, u: Slot)
    requires Offered(vetIds, roomIds, bookings, u)
    ensures MinuteOf(BookedEndTime(TimeOf(u.start), AppointmentDuration)) == u.end
  {
    ModelStartsInDay(vetIds, roomIds, bookings);
    BookedEndSameDay(TimeOf(u.start), AppointmentDuration);
  }

  // ---------------------------------------------------------------------------
  // /find-appointment
  // ---------------------------------------------------------------------------

  datatype ApiError =
    | SolverArgumentCount(given: nat, accepted: nat)  // the `TypeError` of a call with too many arguments
    | SolverKeyError(cause: ModelError)               // a booking naming an unknown vet or room

  /** What the route returns: the "no slots" message, the results page, or an error message. */
  datatype Page =
    | NoSlotsFound
    | Results(slots: seq<Slot>, durationMinutes: int)
    | ErrorMessage(error: ApiError)

  /** `find_available_slots(date, vets, rooms, existing_appointments)` takes four arguments. */
  const SolverParameters := 4

  /** The route passes the duration as a fifth. */
  const SolverArgumentsPassed := 5

  /**
   * The route as written: the call to the solver raises `TypeError` before any slot is found,
   * and the route's `except Exception` turns it into an error message.
   */
  function FindAppointmentAsWritten(types: seq<AppointmentTypeConfig>, requested: string,
                                    vets: seq<Vet>, rooms: seq<Room>, bookings: seq<Booking>): (page: Page)
    ensures !page.Results? && !page.NoSlotsFound?
  {
    var duration := DurationFor(types, requested);
    ErrorMessage(SolverArgumentCount(SolverArgumentsPassed, SolverParameters))
  }

  /**
   * An empty clinic day with one vet and one room offers 09:00-09:30, and the route as written
   * still shows only an error; `FindAppointment` returns results for the same input.
   */
  lemma AsWrittenHidesFreeDay()
    ensures var vets, rooms := [Vet(1, "Vet")], [Room(1, "Room")];
            && FindAppointmentAsWritten([], "checkup", vets, rooms, []).ErrorMessage?
            && AllKnown(VetIds(vets), RoomIds(rooms), [])
            && FreeStarts(VetIds(vets), RoomIds(rooms), []) != []
  {
    var vetIds, roomIds := VetIds([Vet(1, "Vet")]), RoomIds([Room(1, "Room")]);
    assert vetIds == [1] && roomIds == [1];
    assert BookingsConsistent([]);
    assert CandidateStarts()[0] == 540;
    assert CellFree([], Cell(540, 1, 1));
    assert TimeFree(vetIds, roomIds, [], 540);
    FreeAmongMembership(CandidateStarts(), vetIds, roomIds, [], 540);
  }

  /**
   * The route with the solver called on its four parameters: an unknown vet or room in a
   * booking is an error message, a day with no free pair is the "no slots" message, and
   * otherwise at most three ranked slots are shown, every one of them free. When the ranker
   * falls back, the three shown are the earliest free start times; otherwise they are the first
   * three free start times picked by the model's in-range indices, in the order it gave.
   */
  method FindAppointment(types: seq<AppointmentTypeConfig>, requested: string, vets: seq<Vet>, rooms: seq<Room>,
                         bookings: seq<Booking>, enumeration: seq<seq<bool>>, reply: LlmReply)
    returns (page: Page)
    requires AllKnown(VetIds(vets), RoomIds(rooms), bookings) ==>
               EnumeratesAll(ModelOf(VetIds(vets), RoomIds(rooms), bookings), enumeration)
    ensures page.ErrorMessage? <==> !AllKnown(VetIds(vets), RoomIds(rooms), bookings)
    ensures page.ErrorMessage? ==> exists i | 0 <= i < |bookings| ::
              && !Known(VetIds(vets), RoomIds(rooms), bookings[i])
              && (forall j | 0 <= j < i :: Known(VetIds(vets), RoomIds(rooms), bookings[j]))
              && page.error == SolverKeyError(KeyErrorFor(VetIds(vets), bookings[i]))
    ensures page.NoSlotsFound? <==>
              AllKnown(VetIds(vets), RoomIds(rooms), bookings) && FreeStarts(VetIds(vets), RoomIds(rooms), bookings) == []
    ensures page.Results? ==>
              && page.durationMinutes == DurationFor(types, requested)
              && |page.slots| <= ShownSlots
              && forall u | u in page.slots :: BookingsConsistent(bookings) && Offered(VetIds(vets), RoomIds(rooms), bookings, u)
    ensures page.Results? && FallsBack(reply) ==>
              var free := FreeStarts(VetIds(vets), RoomIds(rooms), bookings);
              && |page.slots| == (if |free| < ShownSlots then |free| else ShownSlots)
              && StartsOf(page.slots) == free[..|page.slots|]
    ensures page.Results? && !FallsBack(reply) ==>
              StartsOf(page.slots)
              == TopSlots(PickByIndex(FreeStarts(VetIds(vets), RoomIds(rooms), bookings), reply.topIndices.items))
  {
    var vetIds, roomIds := VetIds(vets), RoomIds(rooms);
    var duration := DurationFor(types, requested);
    var found;
    ghost var raw;
    found, raw := FindAvailableSlots(vets, rooms, bookings, enumeration);
    if found.Failure? {
      return ErrorMessage(SolverKeyError(found.error));
    }
    var feasible := found.value;
    StartsDetermined(vetIds, roomIds, bookings, raw, feasible);
    if feasible == [] {
      return NoSlotsFound;
    }
    var ranked := RankSlots(feasible, reply);
    var top := TopSlots(ranked);
    forall u | u in top
      ensures BookingsConsistent(bookings) && Offered(vetIds, roomIds, bookings, u)
    {
      ResultOffered(vetIds, roomIds, bookings, raw, feasible, u);
    }
    if FallsBack(reply) {
      assert StartsOf(top) == StartsOf(feasible)[..|top|];
    } else {
      StartsOfPicked(feasible, reply.topIndices.items);
      StartsOfTop(ranked);
    }
    page := Results(top, duration);
  }

  /** Picking slots by index and then taking their starts is picking starts by the same indices. */
  lemma {:induction false} StartsOfPicked(feasible: seq<Slot>, indices: seq<int>)
    ensures StartsOf(PickByIndex(feasible, indices)) == PickByIndex(StartsOf(feasible), indices)
  {
    if indices != [] {
      var init, i := indices[..|indices| - 1], indices[|indices| - 1];
      StartsOfPicked(feasible, init);
      var before := PickByIndex(feasible, init);
      var added := if InRange(i, |feasible|) then [feasible[i - 1]] else [];
      assert PickByIndex(feasible, indices) == before + added;
      assert StartsOf(before + added) == StartsOf(before) + StartsOf(added);
    }
  }

  /** The starts of the first three slots are the first three starts. */
  lemma StartsOfTop(ranked: seq<Slot>)
    ensures StartsOf(TopSlots(ranked)) == TopSlots(StartsOf(ranked))
  {
  }
}
