# Vet appointment slot finding, modelled in Dafny

This project models how the clinic back end finds bookable appointment slots. A slot is bookable when a vet
and a room are both free for the length of the service. It must lie inside business hours (09:00 to 17:00)
and start on a 15-minute grid. The model covers four parts of the back end:

- `find_available_slots` (backend/scheduler/solver.py).
  - It builds a CP-SAT model with one optional 30-minute interval per (start, vet, room).
  - Each existing booking becomes a fixed interval on its vet's list and on its room's list.
  - Every vet list and every room list gets a no-overlap constraint.
  - Every solution is enumerated through a callback. The selected candidates become slot records.
  - The records are deduplicated by `(start_time, end_time)`, keeping the first, and sorted in place by start.
- The slot loop of the `find_slots` route (backend/app/main.py:34-78). It walks the day in 15-minute steps
  and lists every free (vet, room) pair.
- The index mapping of `rank_slots_with_llm` (backend/scheduler/ranker.py). The language model names
  1-based indices, which are mapped back to slots. Any failure falls back to the unranked list.
- The computing parts of the Flask routes in backend/api.py: the duration lookup, the `/find-appointment`
  flow (solver, then ranker, then the first three) and the end time stored by `/book-appointment`.

Times are minutes from midnight (`Clock`). Python's `datetime.time` is `Clock.Time`, a valid hour and
minute.

CP-SAT itself is not modelled as a search. It is modelled by what it must return.
`FeasibilityModel.Solution(m, sel)` states when an assignment of the candidate literals satisfies every
no-overlap constraint. The solver's report is a parameter `enumeration`, and
`SolutionEnumerator.EnumeratesAll` requires that it holds exactly the solutions, in an order left open.
Everything after that is modelled as the code runs it:

- the callback class appends to `solutions`;
- the dedup loop grows the `seen` set;
- the sort works in place on an array.

The solver's whole result is described by `Solver.SolverContract`. Three lemmas show what it pins down:

- `Solver.StartsDetermined`: the returned start times are exactly the free grid times, in increasing order,
  whatever the enumeration order.
- `Solver.ResultEmptyWhenInconsistent`: if two existing bookings of one vet or one room overlap, the model
  has no solution and the list is empty.
- `CrossCheck.SolverMatchesDirectSearch`: for consistent bookings, the solver's start times are exactly the
  start times at which the route's direct search lists some pair.

Three facts about the code shape the model:

- The solver takes no duration and always searches 30-minute slots (solver.py:5, 28).
- A booking whose end precedes its start gets a fixed interval of negative size. The model then has no
  solution, so the solver returns an empty list.
- The solver runs with no time limit: solver.py:117-119 set only `enumerate_all_solutions`. Its only
  outcomes are a list of slots or an exception.

## Model

| member | source | states |
|---|---|---|
| Clinic.VetIds | backend/scheduler/solver.py:30 | the vet id list has one entry per vet, the i-th vet's id at position i |
| Clinic.RoomIds | backend/scheduler/solver.py:31 | the room id list has one entry per room, the i-th room's id at position i |
| Clock.MinuteOf | backend/scheduler/solver.py:39-40 | the minute offset of a time has the time's hour as quotient by 60 and its minute as remainder |
| Clock.TimeOf | backend/scheduler/solver.py:106 | `time(hour=m // 60, minute=m % 60)` is a valid time whose minute offset is `m` again |
| Clock.TimeRoundTrip | backend/scheduler/solver.py:39-40 | converting a time to minutes and back gives the same time |
| Clock.OverlapsIffSharedMinute | backend/scheduler/solver.py:86-91 | for non-empty half-open intervals, the overlap test holds exactly when some minute lies in both |
| Clock.TouchingDoesNotOverlap | backend/scheduler/solver.py:86-91 | an interval ending where the other starts, or starting where it ends, does not overlap it |
| Clock.Overlaps | backend/scheduler/solver.py:86-91 | defines when two half-open intervals intersect: each starts before the other ends; its meaning is proved in `Clock.OverlapsIffSharedMinute` |
| Clock.AddMinutes | backend/scheduler/solver.py:107 | adding minutes and keeping only the time of day lands on a minute congruent to start + d modulo 1440 |
| Clock.AddMinutesWithinDay | backend/api.py:184 | when start + d stays within the day, the time reached is exactly start + d |
| Clock.AddMinutesPastMidnight | backend/api.py:184 | crossing midnight once lands 1440 minutes back, and before the start when d is under a day |
| Clock.FormatHHMM | backend/scheduler/solver.py:114-115 | `strftime('%H:%M')` is five characters with a colon in the middle |
| Clock.LexLess | backend/scheduler/solver.py:132 | defines Python's string `<`: code-point order, a proper prefix first; related to minutes by `Clock.FormatOrder` |
| Clock.FormatOrder | backend/scheduler/solver.py:132 | comparing zero-padded `HH:MM` strings orders them exactly as the minutes they show |
| Clock.FormatInjective | backend/scheduler/solver.py:126 | two minutes have the same `HH:MM` string only when they are equal, so the dedup key is a key of minutes |
| SlotGrid.GridRange | backend/scheduler/solver.py:57 | `range(lo, hi, 15)`: the increasing steps lo, lo + 15, ... below hi; membership is `SlotGrid.GridRangeMembership` |
| SlotGrid.GridRangeMembership | backend/scheduler/solver.py:57 | `range(lo, hi, 15)` holds x exactly when lo <= x < hi and x - lo is a multiple of 15 |
| SlotGrid.GridRangeIndex | backend/app/main.py:50-51 | the k-th step from the first start exists exactly while lo + 15k < hi, and equals lo + 15k |
| SlotGrid.DayStarts | backend/app/main.py:50-51 | the start minutes walked for a service: 09:00 + 15k while start + duration <= 17:00; membership is `SlotGrid.DayStartsMembership` |
| SlotGrid.DayStartsMembership | backend/app/main.py:50-51 | a start is walked exactly when it is 09:00 + 15k and start + duration <= 17:00 |
| SlotGrid.ThirtyMinuteStarts | backend/scheduler/solver.py:26-57 | for 30 minutes the candidate starts are 540 + 15k for k < 31, the last being 16:30, which ends by 17:00 |
| SlotGrid.NoStartsForLongServices | backend/app/main.py:51 | a service longer than 480 minutes has no start time |
| SlotGrid.Column | backend/app/main.py:55 | `for room in rooms` at one start for one vet: one cell per room, in room order |
| SlotGrid.Row | backend/scheduler/solver.py:63-64 | `for vet ...: for room ...` at one start: the vets' columns in vet order; membership is `SlotGrid.RowMembership` |
| SlotGrid.Grid | backend/scheduler/solver.py:62-64 | the triple loop over starts, vets and rooms, in that nesting order; membership is `SlotGrid.GridMembership` |
| SlotGrid.RowMembership | backend/scheduler/solver.py:63-64 | one start's cells are exactly that start with every vet and every room |
| SlotGrid.GridMembership | backend/scheduler/solver.py:62-64 | the nested loops visit exactly the cells whose start, vet and room come from the three lists |
| SlotGrid.RowLength | backend/scheduler/solver.py:63-64 | one start has vets x rooms cells |
| SlotGrid.GridLength | backend/scheduler/solver.py:62-64 | the grid has starts x vets x rooms cells |
| SlotGrid.GridStartsOrdered | backend/app/main.py:50-55 | for increasing starts, cells come in non-decreasing start order |
| FeasibilityModel.FixedInterval | backend/scheduler/solver.py:39-45 | a booking's fixed interval runs from its start offset to its end offset and has no literal |
| FeasibilityModel.FixedOn | backend/scheduler/solver.py:38-51 | a resource's fixed intervals come from bookings, at most one each, none optional |
| FeasibilityModel.OptionalOn | backend/scheduler/solver.py:62-80 | a resource's optional intervals come from candidates, each guarded by a candidate's literal |
| FeasibilityModel.OptionalInterval | backend/scheduler/solver.py:70-76 | the candidate's interval: its start, 30 minutes, start + 30, guarded by the candidate's own literal |
| FeasibilityModel.IntervalsOn | backend/scheduler/solver.py:35-80 | defines each resource's list: its bookings' fixed intervals, then its candidates' optional intervals |
| FeasibilityModel.ModelOf | backend/scheduler/solver.py:30-91 | defines the built model: the candidate grid and the vet and room interval lists |
| FeasibilityModel.CandidateStarts | backend/scheduler/solver.py:57 | `possible_starts`: the 15-minute grid of 30-minute slots, 09:00 to 16:30 (`range(540, 991, 15)`, pinned down by `SlotGrid.ThirtyMinuteStarts`) |
| FeasibilityModel.KeyErrorFor | backend/scheduler/solver.py:46-51 | the KeyError an unknown booking raises: the vet lookup at line 46 comes first, so an unknown vet is reported even when the room is also unknown; the room at line 51 otherwise |
| FeasibilityModel.NoOverlap | backend/scheduler/solver.py:85-91 | `AddNoOverlap`: every present interval has non-negative size and no two present intervals overlap |
| FeasibilityModel.Solution | backend/scheduler/solver.py:85-96 | an assignment of every candidate literal that meets each vet's and each room's no-overlap constraint |
| FeasibilityModel.IntervalsOnBooking | backend/scheduler/solver.py:46-51 | appending booking i to its resource's list turns the lists for the first i bookings into those for i + 1 |
| FeasibilityModel.IntervalsOnCandidate | backend/scheduler/solver.py:79-80 | appending a candidate to its resource's list extends the lists by that candidate |
| FeasibilityModel.AppendBookingInterval | backend/scheduler/solver.py:39-51 | succeeds exactly when the booking's resource is a key, and then yields the lists with the booking added |
| FeasibilityModel.AddBookingIntervals | backend/scheduler/solver.py:35-51 | succeeds exactly when every booking's vet and room are known, with the specified lists; otherwise the KeyError of the first unknown booking |
| FeasibilityModel.AppendCandidateInterval | backend/scheduler/solver.py:70-80 | adds one candidate's optional interval to its resource's list |
| FeasibilityModel.AddCandidatesAt | backend/scheduler/solver.py:63-82 | one start's pass adds that start's row of candidates, in vet-then-room order, with their intervals |
| FeasibilityModel.BuildModel | backend/scheduler/solver.py:30-91 | builds exactly the specified model when every booking is known; otherwise the first booking's KeyError |
| FeasibilityModel.SolutionSeparatesBookings | backend/scheduler/solver.py:86-91 | in any solution, two bookings of one resource do not overlap and neither runs backwards |
| FeasibilityModel.SolutionImpliesConsistent | backend/scheduler/solver.py:86-91 | a model with any solution was built from consistent bookings |
| FeasibilityModel.SelectedCandidateIsFree | backend/scheduler/solver.py:86-91 | a candidate selected in a solution clears every booking of its vet and of its room |
| FeasibilityModel.FreeCandidateIsSolution | backend/scheduler/solver.py:86-91 | with consistent bookings, selecting one free candidate alone is a solution |
| FeasibilityModel.SingleCandidateSolution | backend/scheduler/solver.py:86-91 | selecting one candidate alone is a solution exactly when the bookings are consistent and the candidate is free |
| SolutionEnumerator.SlotOf | backend/scheduler/solver.py:106-116 | the slot recorded for a candidate: its vet, room and start, and the end 30 minutes later modulo a day; `SolutionEnumerator.SlotOfCandidate` states when it is offerable |
| SolutionEnumerator.Picked | backend/scheduler/solver.py:104-116 | one solution yields at most one slot per candidate |
| SolutionEnumerator.PickedMembership | backend/scheduler/solver.py:104-116 | a slot is recorded for a solution exactly when it is the slot of a candidate the solution selects |
| SolutionEnumerator.Collected | backend/scheduler/solver.py:96-120 | the callback's list: each reported solution's recorded slots in turn; membership is `SolutionEnumerator.CollectedMembership` |
| SolutionEnumerator.EnumeratesAll | backend/scheduler/solver.py:117-119 | `enumerate_all_solutions = True`: every reported assignment is a solution and every solution is reported |
| SolutionEnumerator.CollectedMembership | backend/scheduler/solver.py:96-120 | the callback holds a slot exactly when some reported solution records it |
| SolutionEnumerator.CollectedSource | backend/scheduler/solver.py:96-120 | every slot in the callback was recorded for some reported solution |
| SolutionEnumerator.CollectedIncludes | backend/scheduler/solver.py:96-120 | every slot recorded for a reported solution is in the callback |
| SolutionEnumerator.AllSolutionsCallback.constructor | backend/scheduler/solver.py:98-101 | the callback starts with the candidate list and no solutions |
| SolutionEnumerator.AllSolutionsCallback.OnSolutionCallback | backend/scheduler/solver.py:103-116 | appends the slot of every selected candidate, in candidate order, with end = start + 30 |
| SolutionEnumerator.Solve | backend/scheduler/solver.py:118-120 | the callback ends up holding the slots of every reported solution in turn |
| SolutionEnumerator.ReportSolutions | backend/scheduler/solver.py:118-120 | reporting the solutions one by one appends, for each in turn, its recorded slots to the callback |
| SolutionEnumerator.ModelStartsInDay | backend/scheduler/solver.py:57-82 | every candidate starts on the 15-minute grid of 30-minute slots, between 09:00 and 16:30, and ends within the day |
| SolutionEnumerator.SlotOfCandidate | backend/scheduler/solver.py:106-107 | a candidate's recorded slot is offerable exactly when the candidate is free |
| SolutionEnumerator.CollectedExactly | backend/scheduler/solver.py:96-120 | the callback holds exactly the offerable slots when the bookings are consistent, and none otherwise |
| SolutionEnumerator.CollectedIsOffered | backend/scheduler/solver.py:86-116 | a collected slot means the bookings are consistent and the slot is offerable |
| SolutionEnumerator.OfferedIsCollected | backend/scheduler/solver.py:86-120 | with consistent bookings every offerable slot is collected, since selecting it alone is a solution |
| ResultAssembler.Span | backend/scheduler/solver.py:126 | the dedup key: the `HH:MM` start and end strings |
| ResultAssembler.Dedup | backend/scheduler/solver.py:122-129 | the survivors of the filter, first with each key wins; meaning proved in `ResultAssembler.DedupKeepsFirsts` |
| ResultAssembler.DedupBySpan | backend/scheduler/solver.py:122-129 | the `seen_slots` loop computes the first-wins filter |
| ResultAssembler.DedupKeepsSpans | backend/scheduler/solver.py:122-129 | every collected (start, end) pair is still represented after the filter |
| ResultAssembler.DedupSpansDistinct | backend/scheduler/solver.py:122-129 | no two survivors share a (start, end) pair |
| ResultAssembler.DedupKeepsFirsts | backend/scheduler/solver.py:122-129 | a slot survives exactly when it is the first collected slot with its pair |
| ResultAssembler.DedupSurvivorFirst | backend/scheduler/solver.py:122-129 | every survivor sits in the collected list at a position where it is the first with its pair |
| ResultAssembler.DedupKeepsFirst | backend/scheduler/solver.py:122-129 | the first collected slot with a pair survives |
| ResultAssembler.SortedByStartText | backend/scheduler/solver.py:132 | ordered by start minute is the same as ordered by `start_time` string |
| ResultAssembler.KeyBefore | backend/scheduler/solver.py:132 | the string comparison of two start keys is the comparison of their minutes |
| ResultAssembler.SortByStart | backend/scheduler/solver.py:132 | the in-place sort leaves the list ordered by start and a permutation of what it was |
| ResultAssembler.InsertLast | backend/scheduler/solver.py:132 | one insertion step orders the prefix up to slot i, permutes the array and leaves every slot after i where it was |
| ResultAssembler.InsertingStep | backend/scheduler/solver.py:132 | swapping the moving slot with a later-starting left neighbour keeps the rest of the prefix ordered |
| ResultAssembler.InsertingDone | backend/scheduler/solver.py:132 | once the moving slot's left neighbour starts no later, the prefix is ordered |
| ResultAssembler.SwapKeepsSuffix | backend/scheduler/solver.py:132 | an adjacent swap at or before position i leaves the slots after i unchanged |
| ResultAssembler.PermutationKeepsDistinctStarts | backend/scheduler/solver.py:132 | sorting keeps pairwise different starts pairwise different |
| Solver.FindAvailableSlots | backend/scheduler/solver.py:5-134 | fails exactly on an unknown vet or room, with the first such booking's KeyError; otherwise returns first-wins survivors of the offerable slots with strictly increasing starts |
| Solver.SolverContract | backend/scheduler/solver.py:96-134 | the specification of the result that `FindAvailableSlots` ensures: the callback collected exactly the offered slots, the result holds exactly the first slot of each `(start_time, end_time)` span, and its starts strictly increase |
| Solver.SortedSurvivorsMeetContract | backend/scheduler/solver.py:122-134 | any start-ordered permutation of the survivors is the first slot of each pair, in strictly increasing start order |
| Solver.UniqueStartsDistinct | backend/scheduler/solver.py:122-129 | after the filter, no two slots share a start time |
| Solver.HalfHourSpansDiffer | backend/scheduler/solver.py:126 | two 30-minute slots with different (start, end) strings start at different minutes |
| Solver.ResultOffered | backend/scheduler/solver.py:57-107 | every returned slot is on the grid, lasts 30 minutes, ends by 17:00 and clears its vet's and room's bookings |
| Solver.ResultCoversFreeTimes | backend/scheduler/solver.py:96-129 | every time at which some vet and room are free is returned, with its end |
| Solver.FirstWithSpan | backend/scheduler/solver.py:122-129 | every collected slot has a first slot with the same pair at or before it |
| Solver.ResultEmptyWhenInconsistent | backend/scheduler/solver.py:86-91 | overlapping bookings on one vet or one room make the result empty |
| Solver.PastMidnightBookingEmptiesDay | backend/scheduler/solver.py:39-45 | a booking whose end time is earlier than its start time makes the result empty |
| Solver.FreeAmongMembership | backend/scheduler/solver.py:57-64 | the free starts among a list are exactly its starts at which some pair is free |
| Solver.FreeAmongIncreasing | backend/scheduler/solver.py:57 | filtering an increasing list of starts keeps it increasing |
| Solver.FreeStarts | backend/scheduler/solver.py:57-134 | the start times the solver returns as a function of the inputs: the free grid starts in order when the bookings are consistent, none otherwise; tied to the code by `Solver.StartsDetermined` |
| Solver.IncreasingWithSameElements | backend/scheduler/solver.py:132 | two increasing lists with the same elements are equal |
| Solver.StartsDetermined | backend/scheduler/solver.py:96-134 | the returned starts are exactly the free grid starts in increasing order, whatever the enumeration order |
| Solver.StartsIndependentOfEnumeration | backend/scheduler/solver.py:119-134 | two enumeration orders give the same start times |
| Solver.NoneFreeWithoutResources | backend/scheduler/solver.py:62-64 | without vets or without rooms no start is free |
| Solver.NoResourcesNoSlots | backend/scheduler/solver.py:30-31 | a clinic with no vets or no rooms gets an empty list |
| SlotSearch.LookupType | backend/app/crud.py:74-75 | finds a type exactly when one has the id, and returns a stored type with that id |
| SlotSearch.Listed | backend/app/main.py:54-76 | at most one listed slot per visited pair |
| SlotSearch.SlotFor | backend/app/main.py:69-76 | the dict appended for a free pair: start, start plus the duration, and the vet's and room's ids and names |
| SlotSearch.ListedAppend | backend/app/main.py:54-76 | listing two runs of pairs lists each run in turn |
| SlotSearch.FindSlots | backend/app/main.py:38-78 | an unknown type id is the 404; otherwise the result is the free pairs of the whole walk, in visiting order |
| SlotSearch.ListFreePairs | backend/app/main.py:52-76 | one step of the walk appends the free pairs at that start, vet by vet, room by room |
| SlotSearch.ListedRowStep | backend/app/main.py:54-76 | one more vet appends that vet's free rooms |
| SlotSearch.ListFreeRooms | backend/app/main.py:55-76 | the room loop appends, in room order, the rooms free together with the vet |
| SlotSearch.ListedColumnStep | backend/app/main.py:55-76 | one more room appends that room's slot exactly when vet and room are both free |
| SlotSearch.BlocksIsOverlap | backend/app/main.py:56-66 | the route's busy test is the half-open overlap test |
| SlotSearch.TouchingDoesNotBlock | backend/app/main.py:58 | an appointment that only touches the slot does not make anyone busy |
| SlotSearch.Blocks | backend/app/main.py:56-66 | `not (slot_end_time <= apt.start_time or current_time >= apt.end_time)`: the appointment intersects the slot |
| SlotSearch.VetBusy | backend/app/main.py:56-60 | `is_vet_busy`: some appointment of the vet blocks the slot |
| SlotSearch.RoomBusy | backend/app/main.py:62-66 | `is_room_busy`: some appointment in the room blocks the slot |
| SlotSearch.PairFree | backend/app/main.py:68 | neither the vet nor the room is busy for the slot |
| SlotSearch.ListedMembership | backend/app/main.py:54-76 | a slot is listed exactly when it is the slot of a visited pair that is free |
| SlotSearch.ListedSource | backend/app/main.py:54-76 | every listed slot is the slot of some visited pair that is free |
| SlotSearch.ListedIff | backend/app/main.py:50-76 | (vet, room, start) is listed exactly when the start is walked, the vet and room are searched, and neither is busy |
| SlotSearch.ListedSlotShape | backend/app/main.py:44-71 | every listed slot lasts the service's duration, starts on the grid and ends by 17:00 |
| SlotSearch.ListedOrder | backend/app/main.py:50-69 | pairs visited in start order are listed in start order |
| SlotSearch.ListedAscending | backend/app/main.py:50-78 | the listed slots are in ascending start order |
| SlotSearch.NothingListed | backend/app/main.py:51-55 | a service over 480 minutes, or a clinic without vets or rooms, lists nothing |
| CrossCheck.FreeTestsAgree | backend/app/main.py:56-66 | the solver's notion of a free cell and the route's notion of a free pair coincide |
| CrossCheck.SolverMatchesDirectSearch | backend/app/main.py:48-78 | for 30 minutes and consistent bookings, the solver returns a start exactly when the route lists some pair at it |
| Ranker.UnusableIndices | backend/scheduler/ranker.py:80 | `not top_indices or not isinstance(top_indices, list)`: a missing or falsy entry, a non-list, or an empty list |
| Ranker.FallsBack | backend/scheduler/ranker.py:80-95 | the reply leads to returning the slots unchanged: a failed request, a malformed reply, or unusable indices |
| Ranker.PickByIndex | backend/scheduler/ranker.py:85 | picks at most one slot per index, each one of the input slots |
| Ranker.RankSlots | backend/scheduler/ranker.py:27-95 | an empty input gives an empty list; every fallback gives the input back; a usable index list gives the slots picked by `PickByIndex`; only input slots are returned |
| Ranker.ValidIndices | backend/scheduler/ranker.py:85 | the surviving indices all satisfy 0 < i <= len |
| Ranker.PickMatchesValidIndices | backend/scheduler/ranker.py:85 | the picked slots are, position by position, the slots at the in-range indices minus one, in the given order |
| Ranker.PickAllInRange | backend/scheduler/ranker.py:85 | with every index in range, one slot per index, slot k being the one at index k minus one |
| Ranker.PickNoneInRange | backend/scheduler/ranker.py:85 | indices all out of range give an empty ranking, not the fallback |
| Ranker.PickRepeats | backend/scheduler/ranker.py:85 | a repeated index repeats the slot |
| Ranker.PickIdentity | backend/scheduler/ranker.py:85 | indices 1..n return the slots unchanged |
| BookingApi.DurationFor | backend/api.py:126 | the duration of the first configured type with the requested name, and 30 when none matches |
| BookingApi.TopSlots | backend/api.py:147 | the first min(3, n) ranked slots, in order |
| BookingApi.BookedEndTime | backend/api.py:184 | the stored end time is congruent to start + duration modulo one day |
| BookingApi.BookedEndSameDay | backend/api.py:184 | a booking ending on its own day ends exactly duration minutes after it starts |
| BookingApi.BookedEndPastMidnight | backend/api.py:184 | a booking running past midnight is stored with an end earlier than its start |
| BookingApi.BookingOfferedSlot | backend/api.py:181-184 | booking an offered slot for 30 minutes stores exactly the slot's end |
| BookingApi.FindAppointmentAsWritten | backend/api.py:135-137 | the route as written never shows slots nor the "no slots" message |
| BookingApi.AsWrittenHidesFreeDay | backend/api.py:135-137 | for one vet, one room and no bookings, the route as written shows an error while slots are free |
| BookingApi.FindAppointment | backend/api.py:126-147 | errors exactly on an unknown vet or room; "no slots" exactly when no start is free; otherwise at most three free slots: the three earliest starts when the ranker falls back, else the first three starts picked by the model's in-range indices, in its order |
| BookingApi.StartsOfPicked | backend/scheduler/ranker.py:85 | picking slots by index and taking their starts equals picking the starts by the same indices |
| BookingApi.StartsOfTop | backend/api.py:147 | the starts of the first three slots are the first three starts |

## Left out

- Flask and FastAPI routing, HTML rendering, SQLAlchemy sessions and queries. Vets, rooms, bookings and
  appointment types are inputs.
- The `date` field and the demo `vet_name`/`room_name` strings of a solver slot. The date is the same for
  every slot of one call. The names are fixed by `vet_id` and `room_id`, which the model keeps. Neither
  plays a part in dedup or sorting.
- CP-SAT's search. The enumeration is an input constrained by `EnumeratesAll`, so its order, its cost and
  which vet/room pair survives the dedup are left open.
- `datetime.now()` and `strptime`/`strftime`. Times are given as minutes or as hour/minute pairs;
  `Clock.FormatHHMM` models the `HH:MM` text only where the solver sorts and dedups on it.
- Ranker.RankSlots: the HTTP call to the language model, the prompt and the JSON decoding are left out. The
  reply is an input that is already classified as failed, malformed or parsed.
- Ranker.RankSlots: list elements that are not integers are not modelled. In the code they behave as follows.
  - A float f with f <= 0 or f > n, or `false`, fails the range test at ranker.py:85 and is dropped.
  - `true` passes the range test as 1 and picks the first slot.
  - A float f with 0 < f <= n, a string, `null` or a nested list raises a `TypeError`, which
    `rank_slots_with_llm` does not catch.
- Ranker.RankSlots: a reply that is valid JSON but not an object is not modelled. It raises an
  `AttributeError` at `ranked_data.get` (ranker.py:78), which is not caught.
- BookingApi.DurationFor: configuration entries without a `type` or `duration_minutes` key are not modelled.
  Such an entry raises a KeyError when the lookup reaches it, which the route turns into an error message. The
  lookup reaches a missing `type` when the entry comes before the first match or nothing matches, and a
  missing `duration_minutes` only when the entry is the first match.
- BookingApi.FindAppointment: the solver still looks for 30-minute slots. The configured duration only
  reaches the results page, as in the code.
- The `except Exception` handlers of the routes, other than the solver call in the finding below.
- The LLM tail of `find_slots` (backend/app/main.py:80-123) and the persisting of ranked slots.
- Reminders, the reminder job and the seed scripts.

## Findings

| source | as written | input that shows it | evidently intended | confidence | as-written member | corrected member |
|---|---|---|---|---|---|---|
| backend/api.py:135-137 | the route passes five arguments, the last being the duration, to `find_available_slots`, which takes four (backend/scheduler/solver.py:5); the `TypeError` is caught by `except Exception` and every search ends in an error message | one vet, one room, no bookings: 09:00-09:30 is free, yet the route answers with an error | call the solver with its four parameters, then rank and show up to three free slots | high; not executed | BookingApi.FindAppointmentAsWritten | BookingApi.FindAppointment |
