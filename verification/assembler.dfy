/**
 * The last two steps of the solver (backend/scheduler/solver.py:122-134): keep the first slot of
 * every `(start_time, end_time)` pair, then sort the survivors in place by their `start_time`
 * string.
 */
module ResultAssembler {
  import opened Clock
  import opened SolutionEnumerator

  /** `(sol['start_time'], sol['end_time'])`: the key duplicates are recognised by. */
  function Span(s: Slot): (string, string) {
    (FormatHHMM(s.start), FormatHHMM(s.end))
  }

  function Spans(xs: seq<Slot>): set<(string, string)> {
    set x | x in xs :: Span(x)
  }

  /** Slot `i` of `raw` is the first with its span. */
  predicate FirstOfSpan(raw: seq<Slot>, i: int)
    requires 0 <= i < |raw|
  {
    forall p | 0 <= p < i :: Span(raw[p]) != Span(raw[i])
  }

  /** The survivors of the duplicate filter, in the order they were collected. */
  function Dedup(raw: seq<Slot>): seq<Slot> {
    if raw == [] then []
    else
      var kept := Dedup(raw[..|raw| - 1]);
      if Span(raw[|raw| - 1]) in Spans(kept) then kept else kept + [raw[|raw| - 1]]
  }

  /** The duplicate filter as the solver runs it, with the `seen_slots` set (solver.py:122-129). */
  method DedupBySpan(raw: seq<Slot>) returns (unique: seq<Slot>)
    ensures unique == Dedup(raw)
  {
    unique := [];
    var seen: set<(string, string)> := {};
    for i := 0 to |raw|
      invariant unique == Dedup(raw[..i])
      invariant seen == Spans(unique)
    {
      assert raw[..i + 1][..i] == raw[..i];
      var sol := raw[i];
      var key := (FormatHHMM(sol.start), FormatHHMM(sol.end));
      if key !in seen {
        unique := unique + [sol];
        seen := seen + {key};
      }
    }
    assert raw[..|raw|] == raw;
  }

  /** Filtering loses no span: every collected start/end pair is still represented. */
  lemma {:induction false} DedupKeepsSpans(raw: seq<Slot>)
    ensures Spans(Dedup(raw)) == Spans(raw)
  {
    if raw != [] {
      var init, last := raw[..|raw| - 1], raw[|raw| - 1];
      DedupKeepsSpans(init);
      assert raw == init + [last];
      assert Spans(raw) == Spans(init) + {Span(last)};
      var kept := Dedup(init);
      if Span(last) !in Spans(kept) {
        assert Spans(kept + [last]) == Spans(kept) + {Span(last)};
      }
    }
  }

  /** No two survivors share a span. */
  lemma {:induction false} DedupSpansDistinct(raw: seq<Slot>)
    ensures forall i, j | 0 <= i < j < |Dedup(raw)| :: Span(Dedup(raw)[i]) != Span(Dedup(raw)[j])
  {
    if raw != [] {
      var init, last := raw[..|raw| - 1], raw[|raw| - 1];
      DedupSpansDistinct(init);
      var kept := Dedup(init);
      if Span(last) !in Spans(kept) {
        var d := kept + [last];
        forall i, j | 0 <= i < j < |d|
          ensures Span(d[i]) != Span(d[j])
        {
          if j == |kept| {
            assert d[i] in kept;
          }
        }
      }
    }
  }

  /** A slot survives exactly when it is, somewhere in the collected list, the first with its span. */
  lemma {:induction false} DedupKeepsFirsts(raw: seq<Slot>, u: Slot)
    ensures u in Dedup(raw) <==> exists i | 0 <= i < |raw| :: raw[i] == u && FirstOfSpan(raw, i)
  {
    if u in Dedup(raw) {
      var i := DedupSurvivorFirst(raw, u);
    }
    if exists i | 0 <= i < |raw| :: raw[i] == u && FirstOfSpan(raw, i) {
      var i :| 0 <= i < |raw| && raw[i] == u && FirstOfSpan(raw, i);
      DedupKeepsFirst(raw, i);
    }
  }

  /** Every survivor is the first slot of the collected list with its span. */
  lemma {:induction false} DedupSurvivorFirst(raw: seq<Slot>, u: Slot) returns (i: int)
    requires u in Dedup(raw)
    ensures 0 <= i < |raw| && raw[i] == u && FirstOfSpan(raw, i)
  {
    var n := |raw| - 1;
    var init, last := raw[..n], raw[n];
    var kept := Dedup(init);
    if u in kept {
      i := DedupSurvivorFirst(init, u);
      FirstOfSpanInPrefix(raw, n, i);
    } else {
      assert Dedup(raw) == kept + [last];
      DedupKeepsSpans(init);
      FirstOfSpanLast(raw);
      i := n;
    }
  }

  /** The first slot with its span survives. */
  lemma {:induction false} DedupKeepsFirst(raw: seq<Slot>, i: int)
    requires 0 <= i < |raw| && FirstOfSpan(raw, i)
    ensures raw[i] in Dedup(raw)
  {
    var n := |raw| - 1;
    var init, last := raw[..n], raw[n];
    var kept := Dedup(init);
    assert kept <= Dedup(raw);
    if i < n {
      FirstOfSpanInPrefix(raw, n, i);
      DedupKeepsFirst(init, i);
      assert init[i] == raw[i];
    } else {
      DedupKeepsSpans(init);
      FirstOfSpanLast(raw);
      assert Dedup(raw) == kept + [last];
    }
  }

  /** Being first with one's span depends only on the slots before. */
  lemma FirstOfSpanInPrefix(raw: seq<Slot>, n: int, i: int)
    requires 0 <= i < n <= |raw|
    ensures FirstOfSpan(raw, i) <==> FirstOfSpan(raw[..n], i)
  {
    assert forall p | 0 <= p <= i :: raw[p] == raw[..n][p];
  }

  /** The last slot is first with its span exactly when no earlier slot has that span. */
  lemma FirstOfSpanLast(raw: seq<Slot>)
    requires raw != []
    ensures FirstOfSpan(raw, |raw| - 1) <==> Span(raw[|raw| - 1]) !in Spans(raw[..|raw| - 1])
  {
    var n := |raw| - 1;
    if Span(raw[n]) in Spans(raw[..n]) {
      var x :| x in raw[..n] && Span(x) == Span(raw[n]);
      var p :| 0 <= p < n && raw[..n][p] == x;
      assert raw[p] == x;
    }
  }

  // ---------------------------------------------------------------------------
  // unique_solutions.sort(key=lambda x: x['start_time'])
  // ---------------------------------------------------------------------------

  predicate SortedByStart(xs: seq<Slot>) {
    forall i, j | 0 <= i < j < |xs| :: xs[i].start <= xs[j].start
  }

  /** Ordering by minute is ordering by the `HH:MM` text the source sorts on. */
  lemma SortedByStartText(xs: seq<Slot>)
    ensures SortedByStart(xs) <==>
              forall i, j | 0 <= i < j < |xs| :: !LexLess(FormatHHMM(xs[j].start), FormatHHMM(xs[i].start))
  {
    forall i, j | 0 <= i < j < |xs|
      ensures xs[i].start <= xs[j].start <==> !LexLess(FormatHHMM(xs[j].start), FormatHHMM(xs[i].start))
    {
      FormatOrder(xs[j].start, xs[i].start);
    }
  }

  /** `x['start_time'] < y['start_time']`: the text comparison agrees with the clock. */
  function KeyBefore(x: Slot, y: Slot): (b: bool)
    ensures b <==> x.start < y.start
  {
    FormatOrder(x.start, y.start);
    LexLess(FormatHHMM(x.start), FormatHHMM(y.start))
  }

  /**
   * The in-place sort: insertion by adjacent swaps, each slot moved left past every slot whose
   * `start_time` text is greater. Equal keys are never swapped.
   */
  method SortByStart(a: array<Slot>)
    modifies a
    ensures SortedByStart(a[..])
    ensures multiset(a[..]) == multiset(old(a[..]))
  {
    for i := 0 to a.Length
      invariant SortedByStart(a[..i])
      invariant multiset(a[..]) == multiset(old(a[..]))
    {
      InsertLast(a, i);
    }
    assert a[..a.Length] == a[..];
  }

  /** Moves `a[i]` left into the sorted prefix `a[..i]`. */
  method InsertLast(a: array<Slot>, i: int)
    requires 0 <= i < a.Length && SortedByStart(a[..i])
    modifies a
    ensures SortedByStart(a[..i + 1])
    ensures multiset(a[..]) == multiset(old(a[..]))
    ensures a[i + 1..] == old(a[i + 1..])
  {
    var j := i;
    assert Inserting(a[..], i, j);
    while j > 0 && KeyBefore(a[j], a[j - 1])
      invariant 0 <= j <= i
      invariant Inserting(a[..], i, j)
      invariant multiset(a[..]) == multiset(old(a[..]))
      invariant a[i + 1..] == old(a[i + 1..])
    {
      ghost var before := a[..];
      a[j - 1], a[j] := a[j], a[j - 1];
      assert a[..] == before[j - 1 := before[j]][j := before[j - 1]];
      InsertingStep(before, a[..], i, j);
      SwapKeepsSuffix(before, a[..], i, j);
      j := j - 1;
    }
    InsertingDone(a[..], i, j);
  }

  /**
   * The state of the insertion: `xs[..i + 1]` is ordered by start except that the slot at `j`
   * may be out of place with respect to those before it.
   */
  predicate Inserting(xs: seq<Slot>, i: int, j: int)
    requires 0 <= j <= i < |xs|
  {
    && (forall p, q | 0 <= p < q <= i && q != j :: xs[p].start <= xs[q].start)
    && (forall p, q | 0 <= p < j < q <= i :: xs[p].start <= xs[q].start)
  }

  /** Swapping the moving slot with a later-starting left neighbour moves the gap one place left. */
  lemma InsertingStep(xs: seq<Slot>, ys: seq<Slot>, i: int, j: int)
    requires 0 < j <= i < |xs| && Inserting(xs, i, j)
    requires xs[j].start < xs[j - 1].start
    requires ys == xs[j - 1 := xs[j]][j := xs[j - 1]]
    ensures Inserting(ys, i, j - 1)
  {
    forall p, q | 0 <= p < q <= i && q != j - 1
      ensures ys[p].start <= ys[q].start
    {
      if q == j {
        if p < j - 1 {
          assert xs[p].start <= xs[j - 1].start;
        }
      } else if p == j - 1 {
        assert xs[j].start <= xs[q].start;
      } else if p == j {
        assert xs[j - 1].start <= xs[q].start;
      }
    }
    forall p, q | 0 <= p < j - 1 < q <= i
      ensures ys[p].start <= ys[q].start
    {
      if q == j {
        assert xs[p].start <= xs[j - 1].start;
      } else if q == j - 1 {
      } else {
        assert xs[p].start <= xs[q].start;
      }
    }
  }

  /** Swapping positions `j - 1` and `j` leaves everything after `i >= j` alone. */
  lemma SwapKeepsSuffix(xs: seq<Slot>, ys: seq<Slot>, i: int, j: int)
    requires 0 < j <= i < |xs|
    requires ys == xs[j - 1 := xs[j]][j := xs[j - 1]]
    ensures ys[i + 1..] == xs[i + 1..]
  {
  }

  /** The insertion is finished when the slot is first or its left neighbour starts no later. */
  lemma InsertingDone(xs: seq<Slot>, i: int, j: int)
    requires 0 <= j <= i < |xs| && Inserting(xs, i, j)
    requires j == 0 || xs[j - 1].start <= xs[j].start
    ensures SortedByStart(xs[..i + 1])
  {
    forall p, q | 0 <= p < q <= i
      ensures xs[p].start <= xs[q].start
    {
      if q == j && p < j - 1 {
        assert xs[p].start <= xs[j - 1].start;
      }
    }
  }

  /** Reordering keeps the slots' starts pairwise different when they were before. */
  lemma PermutationKeepsDistinctStarts(xs: seq<Slot>, ys: seq<Slot>)
    requires multiset(xs) == multiset(ys)
    requires forall i, j | 0 <= i < j < |xs| :: xs[i].start != xs[j].start
    ensures forall i, j | 0 <= i < j < |ys| :: ys[i].start != ys[j].start
  {
    forall i, j | 0 <= i < j < |ys|
      ensures ys[i].start != ys[j].start
    {
      if ys[i] == ys[j] {
        // the same slot twice in ys would sit twice in xs, with one start
        TwiceCounted(ys, i, j);
        TwiceFound(xs, ys[i]);
        assert false;
      }
      assert ys[i] in multiset(xs) && ys[j] in multiset(xs);
      var p :| 0 <= p < |xs| && xs[p] == ys[i];
      var q :| 0 <= q < |xs| && xs[q] == ys[j];
      assert p != q;
      assert xs[p].start != xs[q].start by {
        if p > q {
          assert xs[q].start != xs[p].start;
        }
      }
    }
  }

  /** Two positions holding the same slot make it count twice. */
  lemma {:induction false} TwiceCounted(ys: seq<Slot>, i: int, j: int)
    requires 0 <= i < j < |ys| && ys[i] == ys[j]
    ensures multiset(ys)[ys[i]] >= 2
  {
    var a, b, c := ys[..i], ys[i + 1..j], ys[j + 1..];
    assert ys == a + [ys[i]] + b + [ys[j]] + c;
  }

  /** A slot counted twice sits at two positions. */
  lemma {:induction false} TwiceFound(xs: seq<Slot>, v: Slot)
    requires multiset(xs)[v] >= 2
    ensures exists p, q | 0 <= p < q < |xs| :: xs[p] == v && xs[q] == v
  {
    var n := |xs| - 1;
    assert xs == xs[..n] + [xs[n]];
    if xs[n] == v {
      assert multiset(xs[..n])[v] >= 1;
      var p :| 0 <= p < n && xs[..n][p] == v;
      assert xs[p] == v;
    } else {
      TwiceFound(xs[..n], v);
      var p, q :| 0 <= p < q < n && xs[..n][p] == v && xs[..n][q] == v;
      assert xs[p] == v && xs[q] == v;
    }
  }
}
