/**
 * `rank_slots_with_llm` (backend/scheduler/ranker.py:15-95) without the model call: given what
 * came back from the language model, either pick the slots at the 1-based indices it named or
 * fall back to the slots as they were.
 */
module Ranker {

  /** The `top_3_indices` entry of the parsed reply. */
  datatype IndicesField =
    | NoIndices                 // key missing, or a falsy value such as null, 0 or []
    | NonList                   // a truthy value that is not a list
    | Indices(items: seq<int>)  // a list of integers

  /** The outcome of the request to the model. */
  datatype LlmReply =
    | RequestFailed             // `requests.exceptions.RequestException`: no connection, HTTP error, timeout
    | Malformed                 // `json.JSONDecodeError` or `KeyError` while reading the reply
    | Parsed(topIndices: IndicesField)

  /** `not top_indices or not isinstance(top_indices, list)` (ranker.py:80). */
  predicate UnusableIndices(f: IndicesField) {
    f.NoIndices? || f.NonList? || (f.Indices? && f.items == [])
  }

  /** The reply leads to the fallback of returning the slots unchanged (ranker.py:80-82, 88-95). */
  predicate FallsBack(reply: LlmReply) {
    reply.RequestFailed? || reply.Malformed? || (reply.Parsed? && UnusableIndices(reply.topIndices))
  }

  /** `0 < i <= len(feasible_slots)` */
  predicate InRange(i: int, n: int) {
    0 < i <= n
  }

  /** `[feasible_slots[i-1] for i in top_indices if 0 < i <= len(feasible_slots)]` (ranker.py:85). */
  function PickByIndex<T>(feasible: seq<T>, indices: seq<int>): (picked: seq<T>)
    ensures |picked| <= |indices|
    ensures forall x | x in picked :: x in feasible
  {
    if indices == [] then []
    else
      var i := indices[|indices| - 1];
      PickByIndex(feasible, indices[..|indices| - 1]) + (if InRange(i, |feasible|) then [feasible[i - 1]] else [])
  }

  /** `rank_slots_with_llm(feasible_slots, reason_for_visit)` once the reply is known. */
  function RankSlots<T>(feasible: seq<T>, reply: LlmReply): (ranked: seq<T>)
    ensures feasible == [] ==> ranked == []
    ensures feasible != [] && FallsBack(reply) ==> ranked == feasible
    ensures feasible != [] && !FallsBack(reply) ==> ranked == PickByIndex(feasible, reply.topIndices.items)
    ensures forall x | x in ranked :: x in feasible
  {
    if feasible == [] then []
    else if FallsBack(reply) then feasible
    else PickByIndex(feasible, reply.topIndices.items)
  }

  // ---------------------------------------------------------------------------
  // The index mapping against a reference definition
  // ---------------------------------------------------------------------------

  /** The indices that survive the range filter, in the order given. */
  function ValidIndices(indices: seq<int>, n: int): (valid: seq<int>)
    ensures forall k | 0 <= k < |valid| :: InRange(valid[k], n)
  {
    if indices == [] then []
    else
      var i := indices[|indices| - 1];
      ValidIndices(indices[..|indices| - 1], n) + (if InRange(i, n) then [i] else [])
  }

  /** The picked slots are, position by position, the slots named by the surviving indices. */
  lemma {:induction false} PickMatchesValidIndices<T>(feasible: seq<T>, indices: seq<int>)
    ensures |PickByIndex(feasible, indices)| == |ValidIndices(indices, |feasible|)|
    ensures forall k | 0 <= k < |ValidIndices(indices, |feasible|)| ::
              PickByIndex(feasible, indices)[k] == feasible[ValidIndices(indices, |feasible|)[k] - 1]
  {
    if indices != [] {
      var init, i := indices[..|indices| - 1], indices[|indices| - 1];
      PickMatchesValidIndices(feasible, init);
      if InRange(i, |feasible|) {
        assert PickByIndex(feasible, indices) == PickByIndex(feasible, init) + [feasible[i - 1]];
        assert ValidIndices(indices, |feasible|) == ValidIndices(init, |feasible|) + [i];
      } else {
        assert PickByIndex(feasible, indices) == PickByIndex(feasible, init);
        assert ValidIndices(indices, |feasible|) == ValidIndices(init, |feasible|);
      }
    }
  }

  /** With every index in range, one slot is picked per index, in the order the indices are given. */
  lemma {:induction false} PickAllInRange<T>(feasible: seq<T>, indices: seq<int>)
    requires forall k | 0 <= k < |indices| :: 0 < indices[k] <= |feasible|
    ensures |PickByIndex(feasible, indices)| == |indices|
    ensures forall k | 0 <= k < |indices| :: PickByIndex(feasible, indices)[k] == feasible[indices[k] - 1]
  {
    if indices != [] {
      var init, i := indices[..|indices| - 1], indices[|indices| - 1];
      PickAllInRange(feasible, init);
      assert PickByIndex(feasible, indices) == PickByIndex(feasible, init) + [feasible[i - 1]];
    }
  }

  /** An index list naming no slot in range yields an empty ranking, not the fallback. */
  lemma {:induction false} PickNoneInRange<T>(feasible: seq<T>, indices: seq<int>)
    requires forall k | 0 <= k < |indices| :: !InRange(indices[k], |feasible|)
    ensures PickByIndex(feasible, indices) == []
  {
    if indices != [] {
      PickNoneInRange(feasible, indices[..|indices| - 1]);
    }
  }

  /** Naming the same index twice repeats the slot. */
  lemma PickRepeats<T>(feasible: seq<T>, i: int)
    requires InRange(i, |feasible|)
    ensures PickByIndex(feasible, [i, i]) == [feasible[i - 1], feasible[i - 1]]
  {
    PickAllInRange(feasible, [i, i]);
  }

  /** The indices 1, 2, ..., n give the slots back in their original order. */
  lemma PickIdentity<T>(feasible: seq<T>)
    ensures PickByIndex(feasible, seq(|feasible|, k => k + 1)) == feasible
  {
    var indices := seq(|feasible|, k => k + 1);
    PickAllInRange(feasible, indices);
  }
}
