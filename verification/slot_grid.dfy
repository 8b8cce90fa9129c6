/**
 * The candidate grid: start minutes on a 15-minute step inside business hours,
 * crossed with every vet and every room, in the order of the nested loops
 * start -> vet -> room that both slot finders use.
 */
module SlotGrid {

  const DayStartMinute := 9 * 60
  const DayEndMinute := 17 * 60
  const GridStep := 15

  /** Python's `range(lo, hi, 15)`, the grid both slot finders step along. */
  function GridRange(lo: int, hi: int): (r: seq<int>)
  {
    var count := if hi <= lo then 0 else (hi - lo + GridStep - 1) / GridStep;
    seq(count, k => lo + GridStep * k)
  }

  /** `x` is produced by `range(lo, hi, 15)` exactly when it lies in [lo, hi) on the 15-minute grid from `lo`. */
  lemma GridRangeMembership(lo: int, hi: int, x: int)
    ensures x in GridRange(lo, hi) <==> lo <= x < hi && (x - lo) % GridStep == 0
  {
    var r := GridRange(lo, hi);
    if lo <= x < hi && (x - lo) % GridStep == 0 {
      var k := (x - lo) / GridStep;
      assert x == lo + GridStep * k;
      assert r[k] == x;
    }
  }

  /** Position `k` of the range exists exactly while `lo + 15k` is below `hi`, and holds that value. */
  lemma GridRangeIndex(lo: int, hi: int, k: int)
    requires k >= 0
    ensures k < |GridRange(lo, hi)| <==> lo + GridStep * k < hi
    ensures k < |GridRange(lo, hi)| ==> GridRange(lo, hi)[k] == lo + GridStep * k
  {
    if lo < hi {
      var n := hi - lo + GridStep - 1;
      assert n == GridStep * (n / GridStep) + n % GridStep;
    }
  }

  /** The range is strictly increasing. */
  lemma GridRangeIncreasing(lo: int, hi: int)
    ensures forall i, j | 0 <= i < j < |GridRange(lo, hi)| :: GridRange(lo, hi)[i] < GridRange(lo, hi)[j]
  {
  }

  /** Start minutes for a service of `duration` minutes: 09:00 + 15k while start + duration <= 17:00. */
  function DayStarts(duration: int): (starts: seq<int>)
  {
    GridRange(DayStartMinute, DayEndMinute - duration + 1)
  }

  /** A start is offered exactly when it is on the 15-minute grid from 09:00 and the service ends by 17:00. */
  lemma DayStartsMembership(duration: int, t: int)
    ensures t in DayStarts(duration) <==>
              DayStartMinute <= t && t + duration <= DayEndMinute && (t - DayStartMinute) % GridStep == 0
  {
    GridRangeMembership(DayStartMinute, DayEndMinute - duration + 1, t);
  }

  /** For 30-minute appointments the starts are 09:00, 09:15, ..., 16:30: 31 of them. */
  lemma ThirtyMinuteStarts()
    ensures |DayStarts(30)| == 31
    ensures forall k | 0 <= k < 31 :: DayStarts(30)[k] == 540 + 15 * k
    ensures DayStarts(30)[30] == 990 && 990 + 30 <= DayEndMinute
  {
  }

  /** No start fits when the service is longer than the eight-hour business day. */
  lemma NoStartsForLongServices(duration: int)
    requires duration > DayEndMinute - DayStartMinute
    ensures DayStarts(duration) == []
  {
  }

  /** One candidate: a start minute, a vet and a room. */
  datatype Cell<V, R> = Cell(start: int, vet: V, room: R)

  /** `for room in rooms`: one start, one vet. */
  function Column<V, R>(start: int, vet: V, rooms: seq<R>): (cells: seq<Cell<V, R>>)
    ensures |cells| == |rooms|
    ensures forall j | 0 <= j < |rooms| :: cells[j] == Cell(start, vet, rooms[j])
  {
    if rooms == [] then [] else Column(start, vet, rooms[..|rooms| - 1]) + [Cell(start, vet, rooms[|rooms| - 1])]
  }

  /** `for vet in vets: for room in rooms`: one start. */
  function Row<V, R>(start: int, vets: seq<V>, rooms: seq<R>): seq<Cell<V, R>>
  {
    if vets == [] then [] else Row(start, vets[..|vets| - 1], rooms) + Column(start, vets[|vets| - 1], rooms)
  }

  /** `for start in starts: for vet in vets: for room in rooms`. */
  function Grid<V, R>(starts: seq<int>, vets: seq<V>, rooms: seq<R>): seq<Cell<V, R>>
  {
    if starts == [] then [] else Grid(starts[..|starts| - 1], vets, rooms) + Row(starts[|starts| - 1], vets, rooms)
  }

  lemma {:induction false} RowMembership<V, R>(start: int, vets: seq<V>, rooms: seq<R>, c: Cell<V, R>)
    ensures c in Row(start, vets, rooms) <==> c.start == start && c.vet in vets && c.room in rooms
  {
    if vets != [] {
      var init, last := vets[..|vets| - 1], vets[|vets| - 1];
      RowMembership(start, init, rooms, c);
      assert vets == init + [last];
      if c.vet == last && c.start == start && c.room in rooms {
        var j :| 0 <= j < |rooms| && rooms[j] == c.room;
        assert Column(start, last, rooms)[j] == c;
      }
    }
  }

  /** The grid holds exactly the (start, vet, room) triples drawn from the three lists. */
  lemma {:induction false} GridMembership<V, R>(starts: seq<int>, vets: seq<V>, rooms: seq<R>, c: Cell<V, R>)
    ensures c in Grid(starts, vets, rooms) <==> c.start in starts && c.vet in vets && c.room in rooms
  {
    if starts != [] {
      var init, last := starts[..|starts| - 1], starts[|starts| - 1];
      GridMembership(init, vets, rooms, c);
      RowMembership(last, vets, rooms, c);
      assert starts == init + [last];
    }
  }

  lemma MultiplySuccessor(a: int, n: int)
    ensures a * n + n == (a + 1) * n
  {
  }

  lemma {:induction false} RowLength<V, R>(start: int, vets: seq<V>, rooms: seq<R>)
    ensures |Row(start, vets, rooms)| == |vets| * |rooms|
  {
    if vets != [] {
      RowLength(start, vets[..|vets| - 1], rooms);
      MultiplySuccessor(|vets| - 1, |rooms|);
    }
  }

  /** One candidate per (start, vet, room): with no vets or no rooms there are none. */
  lemma {:induction false} GridLength<V, R>(starts: seq<int>, vets: seq<V>, rooms: seq<R>)
    ensures |Grid(starts, vets, rooms)| == |starts| * (|vets| * |rooms|)
  {
    if starts != [] {
      GridLength(starts[..|starts| - 1], vets, rooms);
      RowLength(starts[|starts| - 1], vets, rooms);
      MultiplySuccessor(|starts| - 1, |vets| * |rooms|);
    }
  }

  /** Cells come start by start: an earlier position never has a later start. */
  lemma {:induction false} GridStartsOrdered<V, R>(starts: seq<int>, vets: seq<V>, rooms: seq<R>, i: int, j: int)
    requires forall a, b | 0 <= a < b < |starts| :: starts[a] < starts[b]
    requires 0 <= i < j < |Grid(starts, vets, rooms)|
    ensures Grid(starts, vets, rooms)[i].start <= Grid(starts, vets, rooms)[j].start
  {
    var init, last := starts[..|starts| - 1], starts[|starts| - 1];
    var g := Grid(init, vets, rooms);
    var row := Row(last, vets, rooms);
    assert Grid(starts, vets, rooms) == g + row;
    forall c | c in row ensures c.start == last {
      RowMembership(last, vets, rooms, c);
    }
    if j < |g| {
      GridStartsOrdered(init, vets, rooms, i, j);
    } else if i < |g| {
      assert g[i] in g;
      GridMembership(init, vets, rooms, g[i]);
      assert row[j - |g|] in row;
    } else {
      assert row[i - |g|] in row && row[j - |g|] in row;
    }
  }
}
