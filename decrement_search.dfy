/** The decrement-on-404 search shared by the download loop of the
    orchestrator and the per-version loop of the revisions script: try
    revision R, then R-1, R-2, ... until an attempt does not answer 404 or
    the attempt budget is spent. */
module DecrementSearch {
  import opened Types

  datatype SearchResult<T> =
    | Hit(revision: int, value: T)   // the attempt at `revision` succeeded
    | Exhausted                      // every attempt answered 404
    | Aborted(revision: int)         // the attempt at `revision` failed otherwise

  /** Result of at most `budget` attempts starting at `revision`. */
  function Search<T>(outcome: int -> Attempt<T>, revision: int, budget: nat): SearchResult<T>
    decreases budget
  {
    if budget == 0 then Exhausted
    else match outcome(revision)
      case Found(v) => Hit(revision, v)
      case NotFound => Search(outcome, revision - 1, budget - 1)
      case Failed => Aborted(revision)
  }

  /** Every attempt at revision, revision - 1, ..., revision - n + 1 answered 404. */
  ghost predicate AllNotFound<T>(outcome: int -> Attempt<T>, revision: int, n: int) {
    forall r :: revision - n < r <= revision ==> outcome(r).NotFound?
  }

  /** A hit is the first attempt, within the budget, that did not answer
      404, and it succeeded; every attempt before it answered 404. */
  lemma {:induction false} SearchHit<T>(outcome: int -> Attempt<T>, revision: int, budget: nat)
    requires Search(outcome, revision, budget).Hit?
    ensures var h := Search(outcome, revision, budget);
      && revision - budget < h.revision <= revision
      && outcome(h.revision) == Found(h.value)
      && AllNotFound(outcome, revision, revision - h.revision)
    decreases budget
  {
    if outcome(revision).NotFound? {
      SearchHit(outcome, revision - 1, budget - 1);
    }
  }

  /** An abort is the first attempt that answered neither success nor 404. */
  lemma {:induction false} SearchAborted<T>(outcome: int -> Attempt<T>, revision: int, budget: nat)
    requires Search(outcome, revision, budget).Aborted?
    ensures var h := Search(outcome, revision, budget);
      && revision - budget < h.revision <= revision
      && outcome(h.revision) == Failed
      && AllNotFound(outcome, revision, revision - h.revision)
    decreases budget
  {
    if outcome(revision).NotFound? {
      SearchAborted(outcome, revision - 1, budget - 1);
    }
  }

  /** The search is exhausted exactly when all `budget` attempts answer 404. */
  lemma {:induction false} SearchExhaustedIff<T>(outcome: int -> Attempt<T>, revision: int, budget: nat)
    ensures Search(outcome, revision, budget).Exhausted? <==> AllNotFound(outcome, revision, budget)
    decreases budget
  {
    if budget > 0 {
      SearchExhaustedIff(outcome, revision - 1, budget - 1);
    }
  }

  /** More retries never change an answer that fewer retries already gave. */
  lemma {:induction false} SearchBudgetMonotone<T>(outcome: int -> Attempt<T>, revision: int, budget: nat, more: nat)
    requires budget <= more
    requires !Search(outcome, revision, budget).Exhausted?
    ensures Search(outcome, revision, more) == Search(outcome, revision, budget)
    decreases budget
  {
    if outcome(revision).NotFound? {
      SearchBudgetMonotone(outcome, revision - 1, budget - 1, more - 1);
    }
  }

  /** Skipping k leading 404s: the search from `revision` equals the search
      from `revision - k` with k fewer attempts. */
  lemma {:induction false} SearchSkip<T>(outcome: int -> Attempt<T>, revision: int, budget: nat, k: nat)
    requires k <= budget
    requires AllNotFound(outcome, revision, k)
    ensures Search(outcome, revision, budget) == Search(outcome, revision - k, budget - k)
    decreases k
  {
    if k > 0 {
      SearchSkip(outcome, revision - 1, budget - 1, k - 1);
    }
  }

  /** The revisions the search attempts, in order. */
  function Tried<T>(outcome: int -> Attempt<T>, revision: int, budget: nat): (t: seq<int>)
    ensures |t| <= budget
    decreases budget
  {
    if budget == 0 then []
    else if outcome(revision).NotFound? then [revision] + Tried(outcome, revision - 1, budget - 1)
    else [revision]
  }

  /** Attempt k is made at revision - k. */
  lemma {:induction false} TriedCountsDown<T>(outcome: int -> Attempt<T>, revision: int, budget: nat)
    ensures forall k :: 0 <= k < |Tried(outcome, revision, budget)| ==> Tried(outcome, revision, budget)[k] == revision - k
    decreases budget
  {
    if budget > 0 && outcome(revision).NotFound? {
      var rest := Tried(outcome, revision - 1, budget - 1);
      TriedCountsDown(outcome, revision - 1, budget - 1);
      var t := Tried(outcome, revision, budget);
      assert t == [revision] + rest;
      forall k | 1 <= k < |t|
        ensures t[k] == revision - k
      {
        assert t[k] == rest[k - 1];
      }
    }
  }

  /** The attempts stop exactly at the revision that ended the search, and
      an exhausted search spent its whole budget. */
  lemma {:induction false} TriedStopsAtResult<T>(outcome: int -> Attempt<T>, revision: int, budget: nat)
    ensures var s, t := Search(outcome, revision, budget), Tried(outcome, revision, budget);
      && (s.Exhausted? ==> |t| == budget)
      && (s.Hit? ==> |t| == revision - s.revision + 1)
      && (s.Aborted? ==> |t| == revision - s.revision + 1)
    decreases budget
  {
    if budget > 0 && outcome(revision).NotFound? {
      TriedStopsAtResult(outcome, revision - 1, budget - 1);
    }
  }
}
