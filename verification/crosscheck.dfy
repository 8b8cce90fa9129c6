/**
 * The two slot finders side by side: for 30-minute services and bookings that can coexist, the
 * solver (backend/scheduler/solver.py) returns one slot for exactly the start times at which the
 * route's direct search (backend/app/main.py:48-78) lists at least one free pair.
 */
module CrossCheck {
  import opened Clock
  import opened Clinic
  import opened SlotGrid
  import opened FeasibilityModel
  import opened SolutionEnumerator
  import opened Solver
  import opened SlotSearch

  /** A solver booking as the route sees it: the same ids and the same minute bounds. */
  function AsAppointment(b: Booking): Appointment {
    Appointment(b.vetId, b.roomId, StartMin(b), EndMin(b))
  }

  function AsAppointments(bookings: seq<Booking>): (appts: seq<Appointment>)
    ensures |appts| == |bookings| && forall i | 0 <= i < |bookings| :: appts[i] == AsAppointment(bookings[i])
  {
    seq(|bookings|, i requires 0 <= i < |bookings| => AsAppointment(bookings[i]))
  }

  /** The solver's free cell and the route's free pair are the same test. */
  lemma FreeTestsAgree(bookings: seq<Booking>, t: int, v: Vet, rm: Room)
    ensures CellFree(bookings, Cell(t, v.id, rm.id)) <==> PairFree(AsAppointments(bookings), Cell(t, v, rm), AppointmentDuration)
  {
    var appts := AsAppointments(bookings);
    if CellFree(bookings, Cell(t, v.id, rm.id)) {
      forall i | 0 <= i < |appts|
        ensures !(appts[i].vetId == v.id && Blocks(appts[i], t, t + AppointmentDuration))
        ensures !(appts[i].roomId == rm.id && Blocks(appts[i], t, t + AppointmentDuration))
      {
      }
    }
    if PairFree(appts, Cell(t, v, rm), AppointmentDuration) {
      forall i | 0 <= i < |bookings| && (bookings[i].vetId == v.id || bookings[i].roomId == rm.id)
        ensures !Overlaps(StartMin(bookings[i]), EndMin(bookings[i]), t, t + AppointmentDuration)
      {
        assert appts[i] == AsAppointment(bookings[i]);
      }
    }
  }

  /**
   * With consistent bookings, a start time is returned by the solver exactly when the direct
   * search lists some (vet, room) pair at that time for a 30-minute service.
   */
  lemma SolverMatchesDirectSearch(vets: seq<Vet>, rooms: seq<Room>, bookings: seq<Booking>, raw: seq<Slot>,
                                  slots: seq<Slot>, t: int)
    requires SolverContract(VetIds(vets), RoomIds(rooms), bookings, raw, slots)
    requires BookingsConsistent(bookings)
    ensures t in StartsOf(slots) <==>
              exists s | s in Listed(Grid(DayStarts(AppointmentDuration), vets, rooms), AppointmentDuration,
                                     AsAppointments(bookings)) :: s.start == t
  {
    var vetIds, roomIds := VetIds(vets), RoomIds(rooms);
    var appts := AsAppointments(bookings);
    var listed := Listed(Grid(DayStarts(AppointmentDuration), vets, rooms), AppointmentDuration, appts);
    StartsDetermined(vetIds, roomIds, bookings, raw, slots);
    FreeAmongMembership(CandidateStarts(), vetIds, roomIds, bookings, t);
    DayStartsMembership(AppointmentDuration, t);
    if t in StartsOf(slots) {
      var v, rm :| v in vetIds && rm in roomIds && CellFree(bookings, Cell(t, v, rm));
      var p :| 0 <= p < |vets| && vetIds[p] == v;
      var q :| 0 <= q < |rooms| && roomIds[q] == rm;
      FreeTestsAgree(bookings, t, vets[p], rooms[q]);
      ListedIff(AppointmentDuration, vets, rooms, appts, t, vets[p], rooms[q]);
      assert SlotFor(Cell(t, vets[p], rooms[q]), AppointmentDuration) in listed;
    }
    if exists s | s in listed :: s.start == t {
      var s :| s in listed && s.start == t;
      var c := ListedSource(Grid(DayStarts(AppointmentDuration), vets, rooms), AppointmentDuration, appts, s);
      GridMembership(DayStarts(AppointmentDuration), vets, rooms, c);
      FreeTestsAgree(bookings, t, c.vet, c.room);
      var p :| 0 <= p < |vets| && vets[p] == c.vet;
      var q :| 0 <= q < |rooms| && rooms[q] == c.room;
      assert vetIds[p] == c.vet.id && roomIds[q] == c.room.id;
      assert TimeFree(vetIds, roomIds, bookings, t);
    }
  }
}
