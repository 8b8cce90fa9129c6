/**
 * The direct slot search of the `find_slots` route (backend/app/main.py:34-78): walk the day from
 * 09:00 in 15-minute steps while the service still ends by 17:00, and list every (vet, room)
 * pair for which neither the vet nor the room has an appointment intersecting the slot.
 *
 * Times are minutes from midnight of the searched day; an appointment that ends on a later day
 * simply has an end beyond 1440.
 */
module SlotSearch {
  import opened Common
  import opened Clock
  import opened Clinic
  import opened SlotGrid

  /** `models.AppointmentType`: the service and its length in minutes. */
  datatype AppointmentType = AppointmentType(id: int, name: string, durationMinutes: int)

  /** An existing appointment of the day: its vet, its room and its `DateTime` bounds in minutes. */
  datatype Appointment = Appointment(vetId: int, roomId: int, start: int, end: int)

  /** One entry of `available_slots`. */
  datatype FreeSlot = FreeSlot(start: int, end: int, vetId: int, vetName: string, roomId: int, roomName: string)

  /** `HTTPException(status_code=404, detail="Appointment type not found")`. */
  datatype SearchError = AppointmentTypeNotFound

  /** `crud.get_appointment_type`: the first stored type with the id, if any. */
  function LookupType(types: seq<AppointmentType>, id: int): (r: Option<AppointmentType>)
    ensures r.Some? <==> exists i | 0 <= i < |types| :: types[i].id == id
    ensures r.Some? ==> r.value.id == id && r.value in types
  {
    if types == [] then None
    else if types[0].id == id then Some(types[0])
    else LookupType(types[1..], id)
  }

  /** `not (slot_end_time <= apt.start_time or current_time >= apt.end_time)` */
  predicate Blocks(a: Appointment, start: int, end: int) {
    !(end <= a.start || start >= a.end)
  }

  /** `is_vet_busy`: some appointment of the vet intersects the slot. */
  predicate VetBusy(appts: seq<Appointment>, vetId: int, start: int, end: int) {
    exists i | 0 <= i < |appts| :: appts[i].vetId == vetId && Blocks(appts[i], start, end)
  }

  /** `is_room_busy`: some appointment in the room intersects the slot. */
  predicate RoomBusy(appts: seq<Appointment>, roomId: int, start: int, end: int) {
    exists i | 0 <= i < |appts| :: appts[i].roomId == roomId && Blocks(appts[i], start, end)
  }

  /** Neither the vet nor the room of `c` is busy for `duration` minutes from `c.start`. */
  predicate PairFree(appts: seq<Appointment>, c: Cell<Vet, Room>, duration: int) {
    && !VetBusy(appts, c.vet.id, c.start, c.start + duration)
    && !RoomBusy(appts, c.room.id, c.start, c.start + duration)
  }

  function SlotFor(c: Cell<Vet, Room>, duration: int): FreeSlot {
    FreeSlot(c.start, c.start + duration, c.vet.id, c.vet.name, c.room.id, c.room.name)
  }

  /** The listed slots: the free cells, in the order they are visited. */
  function Listed(cells: seq<Cell<Vet, Room>>, duration: int, appts: seq<Appointment>): (slots: seq<FreeSlot>)
    ensures |slots| <= |cells|
  {
    if cells == [] then []
    else
      var c := cells[|cells| - 1];
      Listed(cells[..|cells| - 1], duration, appts) + (if PairFree(appts, c, duration) then [SlotFor(c, duration)] else [])
  }

  /** Listing a concatenation lists each part in turn. */
  lemma {:induction false} ListedAppend(xs: seq<Cell<Vet, Room>>, ys: seq<Cell<Vet, Room>>, duration: int,
                                        appts: seq<Appointment>)
    ensures Listed(xs + ys, duration, appts) == Listed(xs, duration, appts) + Listed(ys, duration, appts)
  {
    if ys == [] {
      assert xs + ys == xs;
    } else {
      var init := ys[..|ys| - 1];
      ListedAppend(xs, init, duration, appts);
      assert (xs + ys)[..|xs + ys| - 1] == xs + init;
    }
  }

  /**
   * `find_slots` from the type lookup to the end of the slot loop (main.py:38-78). A missing
   * appointment type is the 404; otherwise the listed slots are the free cells of the grid of
   * starts 09:00 + 15k (while start + duration <= 17:00) x vets x rooms, in that nesting order.
   */
  method FindSlots(types: seq<AppointmentType>, typeId: int, vets: seq<Vet>, rooms: seq<Room>,
                   appts: seq<Appointment>)
    returns (r: Result<seq<FreeSlot>, SearchError>)
    ensures r.Failure? <==> LookupType(types, typeId).None?
    ensures r.Success? ==>
              var d := LookupType(types, typeId).value.durationMinutes;
              r.value == Listed(Grid(DayStarts(d), vets, rooms), d, appts)
  {
    var appointmentType := LookupType(types, typeId);
    if appointmentType.None? {
      return Failure(AppointmentTypeNotFound);
    }
    var duration := appointmentType.value.durationMinutes;
    ghost var starts := DayStarts(duration);
    var availableSlots: seq<FreeSlot> := [];
    var currentTime := DayStartMinute;
    ghost var k := 0;
    GridRangeIndex(DayStartMinute, DayEndMinute - duration + 1, 0);
    while currentTime + duration <= DayEndMinute
      invariant 0 <= k <= |starts| && currentTime == DayStartMinute + GridStep * k
      invariant k < |starts| <==> currentTime + duration <= DayEndMinute
      invariant availableSlots == Listed(Grid(starts[..k], vets, rooms), duration, appts)
      decreases |starts| - k
    {
      GridRangeIndex(DayStartMinute, DayEndMinute - duration + 1, k);
      assert starts[..k + 1] == starts[..k] + [currentTime];
      ListedAppend(Grid(starts[..k], vets, rooms), Row(currentTime, vets, rooms), duration, appts);
      availableSlots := ListFreePairs(currentTime, duration, vets, rooms, appts, availableSlots);
      currentTime := currentTime + 15;
      k := k + 1;
      GridRangeIndex(DayStartMinute, DayEndMinute - duration + 1, k);
    }
    assert starts[..k] == starts;
    return Success(availableSlots);
  }

  /** One pass of the slot loop (main.py:52-76): every free (vet, room) pair at `currentTime` is appended. */
  method ListFreePairs(currentTime: int, duration: int, vets: seq<Vet>, rooms: seq<Room>, appts: seq<Appointment>,
                       availableSlots: seq<FreeSlot>)
    returns (slots: seq<FreeSlot>)
    ensures slots == availableSlots + Listed(Row(currentTime, vets, rooms), duration, appts)
  {
    slots := availableSlots;
    for b := 0 to |vets|
      invariant slots == availableSlots + Listed(Row(currentTime, vets[..b], rooms), duration, appts)
    {
      ListedRowStep(currentTime, vets, rooms, b, duration, appts, availableSlots);
      slots := ListFreeRooms(currentTime, duration, vets[b], rooms, appts, slots);
    }
    assert vets[..|vets|] == vets;
  }

  /** The listing for the first `b + 1` vets extends that for the first `b` by vet `b`'s column. */
  lemma ListedRowStep(currentTime: int, vets: seq<Vet>, rooms: seq<Room>, b: int, duration: int, appts: seq<Appointment>,
                      prefix: seq<FreeSlot>)
    requires 0 <= b < |vets|
    ensures prefix + Listed(Row(currentTime, vets[..b + 1], rooms), duration, appts)
         == prefix + Listed(Row(currentTime, vets[..b], rooms), duration, appts)
              + Listed(Column(currentTime, vets[b], rooms), duration, appts)
  {
    var before, column := Row(currentTime, vets[..b], rooms), Column(currentTime, vets[b], rooms);
    assert vets[..b + 1][..b] == vets[..b];
    assert Row(currentTime, vets[..b + 1], rooms) == before + column;
    ListedAppend(before, column, duration, appts);
  }

  /** `for room in rooms` for one vet (main.py:55-76). */
  method ListFreeRooms(currentTime: int, duration: int, vet: Vet, rooms: seq<Room>, appts: seq<Appointment>,
                       availableSlots: seq<FreeSlot>)
    returns (slots: seq<FreeSlot>)
    ensures slots == availableSlots + Listed(Column(currentTime, vet, rooms), duration, appts)
  {
    var slotEndTime := currentTime + duration;
    slots := availableSlots;
    for c := 0 to |rooms|
      invariant slots == availableSlots + Listed(Column(currentTime, vet, rooms[..c]), duration, appts)
    {
      var room := rooms[c];
      ListedColumnStep(currentTime, vet, rooms, c, duration, appts, availableSlots);
      var isVetBusy := VetBusy(appts, vet.id, currentTime, slotEndTime);
      var isRoomBusy := RoomBusy(appts, room.id, currentTime, slotEndTime);
      if !isVetBusy && !isRoomBusy {
        slots := slots + [FreeSlot(currentTime, slotEndTime, vet.id, vet.name, room.id, room.name)];
      }
    }
    assert rooms[..|rooms|] == rooms;
  }

  /** The listing for the first `c + 1` rooms extends that for the first `c` by room `c`, when it is free. */
  lemma ListedColumnStep(currentTime: int, vet: Vet, rooms: seq<Room>, c: int, duration: int, appts: seq<Appointment>,
                         prefix: seq<FreeSlot>)
    requires 0 <= c < |rooms|
    ensures var cell := Cell(currentTime, vet, rooms[c]);
            prefix + Listed(Column(currentTime, vet, rooms[..c + 1]), duration, appts)
            == prefix + Listed(Column(currentTime, vet, rooms[..c]), duration, appts)
               + (if PairFree(appts, cell, duration) then [SlotFor(cell, duration)] else [])
  {
    var cell := Cell(currentTime, vet, rooms[c]);
    assert rooms[..c + 1][..c] == rooms[..c];
    assert Column(currentTime, vet, rooms[..c + 1]) == Column(currentTime, vet, rooms[..c]) + [cell];
    ListedAppend(Column(currentTime, vet, rooms[..c]), [cell], duration, appts);
    assert Listed([cell], duration, appts) == if PairFree(appts, cell, duration) then [SlotFor(cell, duration)] else [];
  }

  // ---------------------------------------------------------------------------
  // Properties of the listing
  // ---------------------------------------------------------------------------

  /** The route's test is the half-open overlap test: an appointment blocks exactly the slots it overlaps. */
  lemma BlocksIsOverlap(a: Appointment, start: int, end: int)
    ensures Blocks(a, start, end) <==> Overlaps(a.start, a.end, start, end)
  {
  }

  /** An appointment that ends when the slot starts, or starts when it ends, does not make anyone busy. */
  lemma TouchingDoesNotBlock(a: Appointment, start: int, end: int)
    requires a.end == start || a.start == end
    ensures !Blocks(a, start, end)
  {
  }

  lemma {:induction false} ListedMembership(cells: seq<Cell<Vet, Room>>, duration: int, appts: seq<Appointment>,
                                            s: FreeSlot)
    ensures s in Listed(cells, duration, appts) <==>
              exists c | c in cells :: PairFree(appts, c, duration) && s == SlotFor(c, duration)
  {
    if cells != [] {
      var init, last := cells[..|cells| - 1], cells[|cells| - 1];
      ListedMembership(init, duration, appts, s);
      assert cells == init + [last];
    }
  }

  /**
   * (vet, room, start) is listed exactly when start is a grid start for the duration, the vet and
   * the room are among those searched, and neither has an intersecting appointment.
   */
  lemma ListedIff(duration: int, vets: seq<Vet>, rooms: seq<Room>, appts: seq<Appointment>, start: int, v: Vet, rm: Room)
    ensures SlotFor(Cell(start, v, rm), duration) in Listed(Grid(DayStarts(duration), vets, rooms), duration, appts) <==>
              && DayStartMinute <= start && start + duration <= DayEndMinute
              && (start - DayStartMinute) % GridStep == 0
              && v in vets && rm in rooms
              && !VetBusy(appts, v.id, start, start + duration)
              && !RoomBusy(appts, rm.id, start, start + duration)
  {
    var cells := Grid(DayStarts(duration), vets, rooms);
    var c := Cell(start, v, rm);
    ListedMembership(cells, duration, appts, SlotFor(c, duration));
    GridMembership(DayStarts(duration), vets, rooms, c);
    DayStartsMembership(duration, start);
    if SlotFor(c, duration) in Listed(cells, duration, appts) {
      var c' :| c' in cells && PairFree(appts, c', duration) && SlotFor(c, duration) == SlotFor(c', duration);
      assert c'.start == start;
      GridMembership(DayStarts(duration), vets, rooms, c');
    }
  }

  /** Every listed slot lasts the service's duration and lies inside business hours on the grid. */
  lemma ListedSlotShape(duration: int, vets: seq<Vet>, rooms: seq<Room>, appts: seq<Appointment>, s: FreeSlot)
    requires s in Listed(Grid(DayStarts(duration), vets, rooms), duration, appts)
    ensures s.end == s.start + duration
    ensures DayStartMinute <= s.start && s.end <= DayEndMinute && (s.start - DayStartMinute) % GridStep == 0
  {
    var cells := Grid(DayStarts(duration), vets, rooms);
    ListedMembership(cells, duration, appts, s);
    var c := ListedSource(cells, duration, appts, s);
    GridMembership(DayStarts(duration), vets, rooms, c);
    DayStartsMembership(duration, c.start);
  }

  /** The free cell a listed slot comes from. */
  lemma {:induction false} ListedSource(cells: seq<Cell<Vet, Room>>, duration: int, appts: seq<Appointment>,
                                        s: FreeSlot) returns (c: Cell<Vet, Room>)
    requires s in Listed(cells, duration, appts)
    ensures c in cells && PairFree(appts, c, duration) && s == SlotFor(c, duration)
  {
    var init, last := cells[..|cells| - 1], cells[|cells| - 1];
    if s in Listed(init, duration, appts) {
      c := ListedSource(init, duration, appts, s);
      assert init <= cells;
    } else {
      c := last;
    }
  }

  predicate StartsAscending(slots: seq<FreeSlot>) {
    forall i, j | 0 <= i < j < |slots| :: slots[i].start <= slots[j].start
  }

  lemma {:induction false} ListedOrder(cells: seq<Cell<Vet, Room>>, duration: int, appts: seq<Appointment>)
    requires forall i, j | 0 <= i < j < |cells| :: cells[i].start <= cells[j].start
    ensures StartsAscending(Listed(cells, duration, appts))
  {
    if cells != [] {
      var init, last := cells[..|cells| - 1], cells[|cells| - 1];
      ListedOrder(init, duration, appts);
      var prefix := Listed(init, duration, appts);
      forall x | x in prefix
        ensures x.start <= last.start
      {
        ListedMembership(init, duration, appts, x);
        var c :| c in init && PairFree(appts, c, duration) && x == SlotFor(c, duration);
        var k :| 0 <= k < |init| && init[k] == c;
        assert cells[k] == c;
      }
      var slots := Listed(cells, duration, appts);
      var added := if PairFree(appts, last, duration) then [SlotFor(last, duration)] else [];
      assert slots == prefix + added;
      forall i, j | 0 <= i < j < |slots|
        ensures slots[i].start <= slots[j].start
      {
        assert slots[i] == prefix[i];
        if j < |prefix| {
          assert slots[j] == prefix[j];
          assert prefix[i].start <= prefix[j].start;
        } else {
          assert slots[j] == SlotFor(last, duration);
          assert prefix[i] in prefix;
        }
      }
    }
  }

  /** Slots come out in ascending start order (vet order, then room order, within one start). */
  lemma ListedAscending(duration: int, vets: seq<Vet>, rooms: seq<Room>, appts: seq<Appointment>)
    ensures StartsAscending(Listed(Grid(DayStarts(duration), vets, rooms), duration, appts))
  {
    var starts := DayStarts(duration);
    GridRangeIncreasing(DayStartMinute, DayEndMinute - duration + 1);
    forall i, j | 0 <= i < j < |Grid(starts, vets, rooms)|
      ensures Grid(starts, vets, rooms)[i].start <= Grid(starts, vets, rooms)[j].start
    {
      GridStartsOrdered(starts, vets, rooms, i, j);
    }
    ListedOrder(Grid(starts, vets, rooms), duration, appts);
  }

  /** A service longer than the business day, or a clinic without vets or rooms, yields no slot. */
  lemma NothingListed(duration: int, vets: seq<Vet>, rooms: seq<Room>, appts: seq<Appointment>)
    requires duration > DayEndMinute - DayStartMinute || vets == [] || rooms == []
    ensures Listed(Grid(DayStarts(duration), vets, rooms), duration, appts) == []
  {
    var cells := Grid(DayStarts(duration), vets, rooms);
    GridLength(DayStarts(duration), vets, rooms);
    if duration > DayEndMinute - DayStartMinute {
      NoStartsForLongServices(duration);
    }
    assert |cells| == 0;
  }
}
