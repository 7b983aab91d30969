/**
 Querying every provider at once (`_fan_out` in app/services/aggregation.py and
 app/services/hotel_aggregation.py), over any offer type.
 */
module FanOuts {

  import opened Wrappers

  /** What one provider comes back with: a list of offers or any exception. */
  datatype Answer<+O> = Offers(offers: seq<O>) | Failed

  function Merge<O>(answers: seq<Answer<O>>): seq<O> {
    if answers == [] then []
    else
      var before, last := Merge(answers[..|answers| - 1]), answers[|answers| - 1];
      if last.Offers? then before + last.offers else before
  }

  function Succeeding<O>(answers: seq<Answer<O>>): seq<Answer<O>> {
    if answers == [] then []
    else
      var before, last := Succeeding(answers[..|answers| - 1]), answers[|answers| - 1];
      if last.Offers? then before + [last] else before
  }

  /** The merging loop. */
  method FanOut<O>(answers: seq<Answer<O>>) returns (offers: seq<O>, ok: nat, failed: nat)
    ensures offers == Merge(answers)
    ensures ok == |Succeeding(answers)| && ok + failed == |answers|
  {
    offers, ok, failed := [], 0, 0;
    for n := 0 to |answers|
      invariant offers == Merge(answers[..n])
      invariant ok == |Succeeding(answers[..n])| && ok + failed == n
    {
      assert answers[..n + 1][..n] == answers[..n];
      match answers[n]
      case Failed =>
        failed := failed + 1;
      case Offers(list) =>
        ok := ok + 1;
        offers := offers + list;
    }
    assert answers[..|answers|] == answers;
  }

  /** Failed providers are simply absent: merging only those that succeed gives the same list. */
  lemma {:induction false} FailuresAreAbsent<O>(answers: seq<Answer<O>>)
    ensures Merge(Succeeding(answers)) == Merge(answers)
    ensures forall i :: 0 <= i < |Succeeding(answers)| ==> Succeeding(answers)[i].Offers?
  {
    if answers != [] {
      var prefix, last := answers[..|answers| - 1], answers[|answers| - 1];
      FailuresAreAbsent(prefix);
      if last.Offers? {
        assert (Succeeding(prefix) + [last])[..|Succeeding(prefix) + [last]| - 1] == Succeeding(prefix);
      }
    }
  }

  /** The answers are put together in provider order, each as it came, failures giving nothing. */
  lemma {:induction false} MergeKeepsOrder<O>(a: seq<Answer<O>>, b: seq<Answer<O>>, list: seq<O>)
    ensures Merge(a + b) == Merge(a) + Merge(b)
    ensures Merge([Offers(list)]) == list && Merge<O>([Failed]) == []
  {
    assert Merge([Offers(list)][..0]) == [] && Merge<O>([Failed][..0]) == [];
    if b == [] {
      assert a + b == a;
    } else {
      MergeKeepsOrder(a, b[..|b| - 1], list);
      assert (a + b)[..|a + b| - 1] == a + b[..|b| - 1];
    }
  }

  // Places in the merged list.

  predicate IsPlace<O>(answers: seq<Answer<O>>, i: int, p: int) {
    0 <= i < |answers| && answers[i].Offers? && 0 <= p < |answers[i].offers|
  }

  /** How many offers the providers before the `i`-th one contribute. */
  function Ahead<O>(answers: seq<Answer<O>>, i: nat): nat
    requires i <= |answers|
  {
    |Merge(answers[..i])|
  }

  lemma SplitAt<O>(answers: seq<Answer<O>>, i: nat)
    requires i < |answers|
    ensures
      var mine := if answers[i].Offers? then answers[i].offers else [];
      && Merge(answers) == Merge(answers[..i]) + mine + Merge(answers[i + 1..])
      && Ahead(answers, i + 1) == Ahead(answers, i) + |mine|
  {
    var mine := if answers[i].Offers? then answers[i].offers else [];
    assert answers == answers[..i] + [answers[i]] + answers[i + 1..];
    assert answers[..i + 1] == answers[..i] + [answers[i]];
    MergeKeepsOrder(answers[..i], [answers[i]], mine);
    MergeKeepsOrder(answers[..i + 1], answers[i + 1..], mine);
  }

  lemma PlaceInMerge<O>(answers: seq<Answer<O>>, i: nat, p: nat)
    requires IsPlace(answers, i, p)
    ensures Ahead(answers, i) + p < |Merge(answers)| && Merge(answers)[Ahead(answers, i) + p] == answers[i].offers[p]
  {
    SplitAt(answers, i);
  }

  lemma {:induction false} PlaceFromMerge<O>(answers: seq<Answer<O>>, n: nat) returns (i: nat, p: nat)
    requires n < |Merge(answers)|
    ensures IsPlace(answers, i, p) && n == Ahead(answers, i) + p && Merge(answers)[n] == answers[i].offers[p]
  {
    var prefix := answers[..|answers| - 1];
    if n < |Merge(prefix)| {
      i, p := PlaceFromMerge(prefix, n);
      assert prefix[..i] == answers[..i];
    } else {
      i, p := |answers| - 1, n - |Merge(prefix)|;
    }
  }

  lemma {:induction false} AheadGrows<O>(answers: seq<Answer<O>>, i: nat, j: nat)
    requires i < j <= |answers|
    ensures Ahead(answers, i) + (if answers[i].Offers? then |answers[i].offers| else 0) <= Ahead(answers, j)
  {
    SplitAt(answers, j - 1);
    if i < j - 1 {
      AheadGrows(answers, i, j - 1);
    }
  }

  /** Some provider answered with this offer among its own. */
  ghost predicate Offered<O>(answers: seq<Answer<O>>, x: O) {
    exists i :: 0 <= i < |answers| && answers[i].Offers? && x in answers[i].offers
  }

  /** The merged list holds what the answering providers offer, and nothing else. */
  lemma {:induction false} MergeMembers<O>(answers: seq<Answer<O>>)
    ensures forall x :: x in Merge(answers) <==> Offered(answers, x)
  {
    if answers != [] {
      var prefix, n := answers[..|answers| - 1], |answers| - 1;
      MergeMembers(prefix);
      forall x
        ensures x in Merge(answers) <==> Offered(answers, x)
      {
        if x in Merge(prefix) {
          var i :| 0 <= i < |prefix| && prefix[i].Offers? && x in prefix[i].offers;
          assert answers[i] == prefix[i];
        }
        if i :| 0 <= i < |answers| && answers[i].Offers? && x in answers[i].offers {
          assert i == n || prefix[i] == answers[i];
        }
      }
    }
  }

  // ---------------------------------------------------------------------------------------------
  // Concurrent completion
  // ---------------------------------------------------------------------------------------------

  /** `gather` with one slot per provider; the providers finish in the order given. */
  function Gather<O>(answers: seq<Answer<O>>, finished: seq<nat>): seq<Option<Answer<O>>>
    requires forall k :: 0 <= k < |finished| ==> finished[k] < |answers|
  {
    if finished == [] then seq(|answers|, _ => None)
    else
      var slots, i := Gather(answers, finished[..|finished| - 1]), finished[|finished| - 1];
      if i < |slots| then slots[i := Some(answers[i])] else slots
  }

  lemma {:induction false} GatherFillsSlots<O>(answers: seq<Answer<O>>, finished: seq<nat>)
    requires forall k :: 0 <= k < |finished| ==> finished[k] < |answers|
    ensures |Gather(answers, finished)| == |answers|
    ensures forall i :: 0 <= i < |answers| ==>
              Gather(answers, finished)[i] == if i in finished then Some(answers[i]) else None
  {
    if finished != [] {
      GatherFillsSlots(answers, finished[..|finished| - 1]);
      assert finished == finished[..|finished| - 1] + [finished[|finished| - 1]];
    }
  }

  /** The results that `gather` hands over: the filled slots from the first to the last. */
  function Results<O>(slots: seq<Option<Answer<O>>>): seq<Answer<O>> {
    if slots == [] then []
    else
      var before, last := Results(slots[..|slots| - 1]), slots[|slots| - 1];
      if last.Some? then before + [last.value] else before
  }

  lemma {:induction false} AllSlotsFilled<O>(answers: seq<Answer<O>>, slots: seq<Option<Answer<O>>>)
    requires |slots| == |answers| && forall i :: 0 <= i < |slots| ==> slots[i] == Some(answers[i])
    ensures Results(slots) == answers
  {
    if slots != [] {
      AllSlotsFilled(answers[..|answers| - 1], slots[..|slots| - 1]);
    }
  }

  /** Every provider has finished, in some order. */
  predicate AllFinished<O>(answers: seq<Answer<O>>, finished: seq<nat>) {
    && (forall k :: 0 <= k < |finished| ==> finished[k] < |answers|)
    && (forall i :: 0 <= i < |answers| ==> i in finished)
  }

  /** Whatever the order, the results are handed over in provider order, so the merged list and the
      providers counted as answering are those of `answers`. */
  lemma CompletionOrderIsInvisible<O>(answers: seq<Answer<O>>, finished: seq<nat>)
    requires AllFinished(answers, finished)
    ensures Results(Gather(answers, finished)) == answers
    ensures Merge(Results(Gather(answers, finished))) == Merge(answers)
    ensures Succeeding(Results(Gather(answers, finished))) == Succeeding(answers)
  {
    GatherFillsSlots(answers, finished);
    AllSlotsFilled(answers, Gather(answers, finished));
  }
}
