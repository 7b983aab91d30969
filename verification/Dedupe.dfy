/**
 De-duplication of offers as both aggregators do it (`_dedupe` in app/services/aggregation.py and
 app/services/hotel_aggregation.py), over any offer type with a key and a price.

 A Python dict keeps the position of a key when its value is replaced; `Upsert` does the same.
 */
module Dedupe {

  /** The first position of an offer with key `k`, or the length of the list. */
  ghost function Find<O, K>(offers: seq<O>, key: O -> K, k: K): (i: nat)
    ensures i <= |offers|
    ensures i < |offers| ==> key(offers[i]) == k
    ensures forall j :: 0 <= j < i ==> key(offers[j]) != k
  {
    if offers == [] || key(offers[0]) == k then 0 else 1 + Find(offers[1..], key, k)
  }

  /** A new key goes to the end, a strictly cheaper offer replaces the kept one in place. */
  ghost function Put<O>(kept: seq<O>, price: O -> int, i: nat, x: O): seq<O>
    requires i <= |kept|
  {
    if i == |kept| then kept + [x]
    else if price(x) < price(kept[i]) then kept[i := x]
    else kept
  }

  ghost function Upsert<O, K>(kept: seq<O>, key: O -> K, price: O -> int, x: O): seq<O> {
    Put(kept, price, Find(kept, key, key(x)), x)
  }

  ghost function Fold<O, K>(kept: seq<O>, key: O -> K, price: O -> int, offers: seq<O>): seq<O> {
    if offers == [] then kept
    else Upsert(Fold(kept, key, price, offers[..|offers| - 1]), key, price, offers[|offers| - 1])
  }

  ghost function Deduped<O, K>(offers: seq<O>, key: O -> K, price: O -> int): seq<O> {
    Fold([], key, price, offers)
  }

  ghost predicate DistinctKeys<O, K>(offers: seq<O>, key: O -> K) {
    forall i, j :: 0 <= i < j < |offers| ==> key(offers[i]) != key(offers[j])
  }

  // ---------------------------------------------------------------------------------------------
  // What the result is, without the algorithm
  // ---------------------------------------------------------------------------------------------

  /** `offers[j]` is the earliest among the cheapest offers of its key. */
  ghost predicate BestAt<O, K>(offers: seq<O>, key: O -> K, price: O -> int, j: int) {
    && 0 <= j < |offers|
    && (forall m :: 0 <= m < |offers| && key(offers[m]) == key(offers[j]) ==> price(offers[j]) <= price(offers[m]))
    && (forall m :: 0 <= m < j && key(offers[m]) == key(offers[j]) ==> price(offers[j]) < price(offers[m]))
  }

  /** The keys in order of first appearance. */
  ghost function FirstKeys<O, K>(offers: seq<O>, key: O -> K): seq<K> {
    if offers == [] then []
    else
      var before, k := FirstKeys(offers[..|offers| - 1], key), key(offers[|offers| - 1]);
      if k in before then before else before + [k]
  }

  ghost function Keys<O, K>(offers: seq<O>, key: O -> K): (keys: seq<K>)
    ensures |keys| == |offers| && forall i :: 0 <= i < |offers| ==> keys[i] == key(offers[i])
  {
    seq(|offers|, i requires 0 <= i < |offers| => key(offers[i]))
  }

  ghost predicate Represents<O, K>(o: O, offers: seq<O>, key: O -> K, price: O -> int) {
    exists j :: BestAt(offers, key, price, j) && offers[j] == o
  }

  /** One offer per key, in order of first appearance, each the earliest among the cheapest. */
  ghost predicate IsDedupeOf<O, K>(d: seq<O>, offers: seq<O>, key: O -> K, price: O -> int) {
    && DistinctKeys(d, key)
    && Keys(d, key) == FirstKeys(offers, key)
    && forall i :: 0 <= i < |d| ==> Represents(d[i], offers, key, price)
  }

  lemma RepresentsAfter<O, K>(o: O, offers: seq<O>, key: O -> K, price: O -> int, x: O)
    requires Represents(o, offers, key, price)
    requires key(x) != key(o) || price(o) <= price(x)
    ensures Represents(o, offers + [x], key, price)
  {
    var j :| BestAt(offers, key, price, j) && offers[j] == o;
    assert BestAt(offers + [x], key, price, j) && (offers + [x])[j] == o;
  }

  /** A newcomer represents its key when the key is new or the newcomer beats what did before. */
  lemma NewcomerRepresents<O, K>(d: seq<O>, offers: seq<O>, key: O -> K, price: O -> int, x: O)
    requires IsDedupeOf(d, offers, key, price)
    requires var i := Find(d, key, key(x)); i == |d| || price(x) < price(d[i])
    ensures Represents(x, offers + [x], key, price)
  {
    var i, j := Find(d, key, key(x)), |offers|;
    KeysAppear(offers, key);
    forall m | 0 <= m < |offers| && key(offers[m]) == key(x)
      ensures price(x) < price(offers[m])
    {
      assert key(offers[m]) in Keys(d, key);
      assert i < |d|;
      var b :| BestAt(offers, key, price, b) && offers[b] == d[i];
    }
    assert BestAt(offers + [x], key, price, j) && (offers + [x])[j] == x;
  }

  lemma {:induction false} KeysAppear<O, K>(offers: seq<O>, key: O -> K)
    ensures forall i :: 0 <= i < |offers| ==> key(offers[i]) in FirstKeys(offers, key)
    ensures forall k :: k in FirstKeys(offers, key) ==> exists i :: 0 <= i < |offers| && key(offers[i]) == k
  {
    if offers != [] {
      var prefix, x := offers[..|offers| - 1], offers[|offers| - 1];
      KeysAppear(prefix, key);
      assert offers == prefix + [x];
      forall k | k in FirstKeys(offers, key)
        ensures exists i :: 0 <= i < |offers| && key(offers[i]) == k
      {
        if k in FirstKeys(prefix, key) {
          var i :| 0 <= i < |prefix| && key(prefix[i]) == k;
          assert key(offers[i]) == k;
        } else {
          assert key(offers[|offers| - 1]) == k;
        }
      }
    }
  }

  lemma UpsertKeepsDedupe<O, K>(d: seq<O>, offers: seq<O>, key: O -> K, price: O -> int, x: O)
    requires IsDedupeOf(d, offers, key, price)
    ensures IsDedupeOf(Upsert(d, key, price, x), offers + [x], key, price)
  {
    var i, d', all := Find(d, key, key(x)), Upsert(d, key, price, x), offers + [x];
    assert all[..|all| - 1] == offers;
    assert key(x) in Keys(d, key) <==> i < |d|;
    assert Keys(d', key) == FirstKeys(all, key);
    forall n | 0 <= n < |d'|
      ensures Represents(d'[n], all, key, price)
    {
      if n < |d| && d'[n] == d[n] && (n != i || !(price(x) < price(d[i]))) {
        RepresentsAfter(d[n], offers, key, price, x);
      } else {
        NewcomerRepresents(d, offers, key, price, x);
      }
    }
  }

  lemma {:induction false} DedupedIsDedupe<O, K>(offers: seq<O>, key: O -> K, price: O -> int)
    ensures IsDedupeOf(Deduped(offers, key, price), offers, key, price)
  {
    if offers != [] {
      var prefix, x := offers[..|offers| - 1], offers[|offers| - 1];
      DedupedIsDedupe(prefix, key, price);
      UpsertKeepsDedupe(Deduped(prefix, key, price), prefix, key, price, x);
      assert prefix + [x] == offers;
    }
  }

  /** The description leaves no choice. */
  lemma DedupeIsUnique<O, K>(d: seq<O>, offers: seq<O>, key: O -> K, price: O -> int)
    requires IsDedupeOf(d, offers, key, price)
    ensures d == Deduped(offers, key, price)
  {
    DedupedIsDedupe(offers, key, price);
    var e := Deduped(offers, key, price);
    assert |d| == |Keys(d, key)| == |Keys(e, key)| == |e|;
    forall i | 0 <= i < |d|
      ensures d[i] == e[i]
    {
      assert Keys(d, key)[i] == Keys(e, key)[i];
      var j :| BestAt(offers, key, price, j) && offers[j] == d[i];
      var k :| BestAt(offers, key, price, k) && offers[k] == e[i];
      assert j == k;
    }
  }

  // ---------------------------------------------------------------------------------------------
  // Merging partial results
  // ---------------------------------------------------------------------------------------------

  lemma FindIs<O, K>(offers: seq<O>, key: O -> K, k: K, i: nat)
    requires i <= |offers| && (i < |offers| ==> key(offers[i]) == k)
    requires forall j :: 0 <= j < i ==> key(offers[j]) != k
    ensures Find(offers, key, k) == i
  {
  }

  lemma {:induction false} FoldConcat<O, K>(kept: seq<O>, key: O -> K, price: O -> int, a: seq<O>, b: seq<O>)
    ensures Fold(kept, key, price, a + b) == Fold(Fold(kept, key, price, a), key, price, b)
  {
    if b == [] {
      assert a + b == a;
    } else {
      FoldConcat(kept, key, price, a, b[..|b| - 1]);
      assert (a + b)[..|a + b| - 1] == a + b[..|b| - 1];
    }
  }

  lemma {:induction false} DedupeOfDistinct<O, K>(d: seq<O>, key: O -> K, price: O -> int)
    requires DistinctKeys(d, key)
    ensures Deduped(d, key, price) == d
  {
    if d != [] {
      var prefix := d[..|d| - 1];
      DedupeOfDistinct(prefix, key, price);
      FindIs(prefix, key, key(d[|d| - 1]), |prefix|);
    }
  }

  /** Two offers with one key in a row act like the better of them. */
  lemma UpsertTwice<O, K>(kept: seq<O>, key: O -> K, price: O -> int, y: O, x: O)
    requires key(x) == key(y)
    ensures Upsert(Upsert(kept, key, price, y), key, price, x)
            == Upsert(kept, key, price, if price(x) < price(y) then x else y)
  {
    var i := Find(kept, key, key(y));
    FindIs(Upsert(kept, key, price, y), key, key(x), i);
  }

  /** Where a key is found does not change when an offer with another key, or with a key that has its
      place already, comes in. */
  lemma FindAfterUpsert<O, K>(kept: seq<O>, key: O -> K, price: O -> int, x: O, k: K)
    requires Find(kept, key, k) < |kept| || (key(x) != k && Find(kept, key, key(x)) < |kept|)
    ensures Find(Upsert(kept, key, price, x), key, k) == Find(kept, key, k)
    ensures |Upsert(kept, key, price, x)| >= |kept|
  {
    FindIs(Upsert(kept, key, price, x), key, k, Find(kept, key, k));
  }

  lemma PutCommutes<O>(kept: seq<O>, price: O -> int, i: nat, x: O, j: nat, y: O)
    requires i < |kept| && j <= |kept| && i != j
    ensures Put(Put(kept, price, i, x), price, j, y) == Put(Put(kept, price, j, y), price, i, x)
  {
  }

  /** Offers with different keys commute when the first key already has its place. */
  lemma UpsertCommutes<O, K>(kept: seq<O>, key: O -> K, price: O -> int, x: O, y: O)
    requires key(x) != key(y) && Find(kept, key, key(x)) < |kept|
    ensures Upsert(Upsert(kept, key, price, x), key, price, y) == Upsert(Upsert(kept, key, price, y), key, price, x)
  {
    var i, j := Find(kept, key, key(x)), Find(kept, key, key(y));
    FindAfterUpsert(kept, key, price, x, key(y));
    FindAfterUpsert(kept, key, price, y, key(x));
    PutCommutes(kept, price, i, x, j, y);
  }

  lemma {:induction false} FoldHasKey<O, K>(kept: seq<O>, key: O -> K, price: O -> int, offers: seq<O>, k: K)
    requires Find(offers, key, k) < |offers|
    ensures Find(Fold(kept, key, price, offers), key, k) < |Fold(kept, key, price, offers)|
  {
    var prefix, x := offers[..|offers| - 1], offers[|offers| - 1];
    var before := Fold(kept, key, price, prefix);
    var i := Find(before, key, key(x));
    if key(x) == k {
      FindIs(Upsert(before, key, price, x), key, k, i);
    } else {
      FindIs(prefix, key, k, Find(offers, key, k));
      FoldHasKey(kept, key, price, prefix, k);
      FindIs(Upsert(before, key, price, x), key, k, Find(before, key, k));
    }
  }

  lemma FoldOneMore<O, K>(kept: seq<O>, key: O -> K, price: O -> int, offers: seq<O>, x: O)
    ensures Fold(kept, key, price, offers + [x]) == Upsert(Fold(kept, key, price, offers), key, price, x)
  {
    hide Upsert;
    assert (offers + [x])[..|offers + [x]| - 1] == offers;
  }

  lemma DedupedSmall<O, K>(key: O -> K, price: O -> int, x: O, y: O)
    ensures Deduped([x], key, price) == [x]
    ensures Deduped([x, y], key, price) == Upsert([x], key, price, y)
  {
    assert [] + [x] == [x] && [x] + [y] == [x, y];
    FoldOneMore([], key, price, [], x);
    FoldOneMore([], key, price, [x], y);
  }

  // Where an offer lands, by the place of its key.

  lemma UpsertNew<O, K>(d: seq<O>, key: O -> K, price: O -> int, x: O)
    requires Find(d, key, key(x)) == |d|
    ensures Upsert(d, key, price, x) == d + [x]
  {
  }

  lemma UpsertLast<O, K>(prefix: seq<O>, key: O -> K, price: O -> int, y: O, x: O)
    requires Find(prefix + [y], key, key(x)) == |prefix|
    ensures key(y) == key(x)
    ensures Upsert(prefix + [y], key, price, x) == prefix + [if price(x) < price(y) then x else y]
  {
    hide Find;
    assert (prefix + [y])[|prefix|] == y;
    assert (prefix + [y])[|prefix| := x] == prefix + [x];
  }

  lemma UpsertEarlier<O, K>(prefix: seq<O>, key: O -> K, price: O -> int, y: O, x: O)
    requires Find(prefix + [y], key, key(x)) < |prefix|
    ensures Find(prefix, key, key(x)) == Find(prefix + [y], key, key(x))
    ensures Upsert(prefix + [y], key, price, x) == Upsert(prefix, key, price, x) + [y]
  {
    FindEarlier(prefix, key, y, key(x));
    hide Find, Put;
    PutEarlier(prefix, price, Find(prefix, key, key(x)), y, x);
  }

  lemma FindEarlier<O, K>(prefix: seq<O>, key: O -> K, y: O, k: K)
    requires Find(prefix + [y], key, k) < |prefix|
    ensures Find(prefix, key, k) == Find(prefix + [y], key, k)
  {
    hide Find;
    var i, all := Find(prefix + [y], key, k), prefix + [y];
    assert prefix[i] == all[i];
    forall j | 0 <= j < i
      ensures key(prefix[j]) != k
    {
      assert prefix[j] == all[j];
    }
    FindIs(prefix, key, k, i);
  }

  lemma PutEarlier<O>(prefix: seq<O>, price: O -> int, i: nat, y: O, x: O)
    requires i < |prefix|
    ensures Put(prefix + [y], price, i, x) == Put(prefix, price, i, x) + [y]
  {
    assert (prefix + [y])[i] == prefix[i];
    assert (prefix + [y])[i := x] == prefix[i := x] + [y];
  }

  lemma {:induction false} FoldUpsert<O, K>(kept: seq<O>, key: O -> K, price: O -> int, d: seq<O>, x: O)
    requires DistinctKeys(d, key)
    ensures Fold(kept, key, price, Upsert(d, key, price, x)) == Upsert(Fold(kept, key, price, d), key, price, x)
  {
    hide Upsert, Fold, Find;
    var i := Find(d, key, key(x));
    if i == |d| {
      UpsertNew(d, key, price, x);
      FoldOneMore(kept, key, price, d, x);
    } else {
      var prefix, y := d[..|d| - 1], d[|d| - 1];
      var before := Fold(kept, key, price, prefix);
      assert d == prefix + [y];
      FoldOneMore(kept, key, price, prefix, y);
      if i == |d| - 1 {
        var best := if price(x) < price(y) then x else y;
        UpsertLast(prefix, key, price, y, x);
        FoldOneMore(kept, key, price, prefix, best);
        UpsertTwice(before, key, price, y, x);
      } else {
        UpsertEarlier(prefix, key, price, y, x);
        FoldOneMore(kept, key, price, Upsert(prefix, key, price, x), y);
        FoldUpsert(kept, key, price, prefix, x);
        FoldHasKey(kept, key, price, prefix, key(x));
        UpsertCommutes(before, key, price, x, y);
      }
    }
  }

  lemma {:induction false} FoldOfDeduped<O, K>(kept: seq<O>, key: O -> K, price: O -> int, offers: seq<O>)
    ensures Fold(kept, key, price, Deduped(offers, key, price)) == Fold(kept, key, price, offers)
  {
    if offers != [] {
      var prefix, x := offers[..|offers| - 1], offers[|offers| - 1];
      FoldOfDeduped(kept, key, price, prefix);
      DedupedIsDedupe(prefix, key, price);
      FoldUpsert(kept, key, price, Deduped(prefix, key, price), x);
    }
  }

  /** De-duplicating in parts and merging gives the same list as doing it all at once. */
  lemma DedupeMerges<O, K>(key: O -> K, price: O -> int, a: seq<O>, b: seq<O>)
    ensures Deduped(a + b, key, price) == Deduped(Deduped(a, key, price) + Deduped(b, key, price), key, price)
    ensures Deduped(Deduped(a, key, price), key, price) == Deduped(a, key, price)
  {
    var da, db := Deduped(a, key, price), Deduped(b, key, price);
    DedupedIsDedupe(a, key, price);
    DedupeOfDistinct(da, key, price);
    FoldConcat([], key, price, a, b);
    FoldConcat([], key, price, da, db);
    FoldOfDeduped(da, key, price, b);
  }

  // ---------------------------------------------------------------------------------------------
  // Filtering before or after
  // ---------------------------------------------------------------------------------------------

  function Filter<O>(offers: seq<O>, p: O -> bool): seq<O> {
    if offers == [] then []
    else
      var before := Filter(offers[..|offers| - 1], p);
      if p(offers[|offers| - 1]) then before + [offers[|offers| - 1]] else before
  }

  lemma {:induction false} FilterMembers<O>(offers: seq<O>, p: O -> bool)
    ensures forall x :: x in Filter(offers, p) <==> x in offers && p(x)
  {
    if offers != [] {
      FilterMembers(offers[..|offers| - 1], p);
      assert offers == offers[..|offers| - 1] + [offers[|offers| - 1]];
    }
  }

  lemma {:induction false} FilterIndex<O>(offers: seq<O>, p: O -> bool, m: nat) returns (n: nat)
    requires m < |Filter(offers, p)|
    ensures n < |offers| && Filter(offers, p)[m] == offers[n] && p(offers[n])
  {
    n := |offers| - 1;
    if m < |Filter(offers[..n], p)| {
      n := FilterIndex(offers[..n], p, m);
    }
  }

  /** Every offer has a kept offer of its key that costs no more. */
  lemma CheapestOfKey<O, K>(offers: seq<O>, key: O -> K, price: O -> int, x: O) returns (y: O)
    requires x in offers
    ensures y in Deduped(offers, key, price) && key(y) == key(x) && price(y) <= price(x)
  {
    var d := Deduped(offers, key, price);
    DedupedIsDedupe(offers, key, price);
    KeysAppear(offers, key);
    var m :| 0 <= m < |offers| && offers[m] == x;
    assert key(offers[m]) in Keys(d, key);
    var i :| 0 <= i < |d| && Keys(d, key)[i] == key(x);
    var j :| BestAt(offers, key, price, j) && offers[j] == d[i];
    y := d[i];
    assert price(offers[j]) <= price(offers[m]);
  }

  lemma DedupeSelects<O, K>(offers: seq<O>, key: O -> K, price: O -> int, y: O)
    requires y in Deduped(offers, key, price)
    ensures y in offers
  {
    var d := Deduped(offers, key, price);
    DedupedIsDedupe(offers, key, price);
    var i :| 0 <= i < |d| && d[i] == y;
    var j :| BestAt(offers, key, price, j) && offers[j] == d[i];
  }

  lemma {:induction false} FilterRepresents<O, K>(o: O, offers: seq<O>, key: O -> K, price: O -> int, p: O -> bool)
    requires Represents(o, offers, key, price) && p(o)
    ensures Represents(o, Filter(offers, p), key, price)
  {
    var prefix, z := offers[..|offers| - 1], offers[|offers| - 1];
    var j :| BestAt(offers, key, price, j) && offers[j] == o;
    var kept := Filter(prefix, p);
    if j < |prefix| {
      assert BestAt(prefix, key, price, j) && prefix[j] == o;
      FilterRepresents(o, prefix, key, price, p);
      if p(z) {
        RepresentsAfter(o, kept, key, price, z);
      }
    } else {
      forall m | 0 <= m < |kept| && key(kept[m]) == key(o)
        ensures price(o) < price(kept[m])
      {
        var n := FilterIndex(prefix, p, m);
        assert offers[n] == prefix[n];
      }
      assert BestAt(kept + [o], key, price, |kept|) && (kept + [o])[|kept|] == o;
    }
  }

  /** Being the earliest among the cheapest is enough to be kept. */
  lemma RepresentativeIsKept<O, K>(o: O, offers: seq<O>, key: O -> K, price: O -> int)
    requires Represents(o, offers, key, price)
    ensures o in Deduped(offers, key, price)
  {
    var d := Deduped(offers, key, price);
    DedupedIsDedupe(offers, key, price);
    KeysAppear(offers, key);
    var j :| BestAt(offers, key, price, j) && offers[j] == o;
    assert key(offers[j]) in Keys(d, key);
    var i :| 0 <= i < |d| && Keys(d, key)[i] == key(o);
    var k :| BestAt(offers, key, price, k) && offers[k] == d[i];
    assert j == k;
  }

  /** What is left after de-duplicating and filtering: the accepted offers among the representatives. */
  lemma SurvivesIff<O, K>(offers: seq<O>, key: O -> K, price: O -> int, p: O -> bool, x: O)
    ensures x in Filter(Deduped(offers, key, price), p) <==> Represents(x, offers, key, price) && p(x)
  {
    var d := Deduped(offers, key, price);
    FilterMembers(d, p);
    DedupedIsDedupe(offers, key, price);
    if Represents(x, offers, key, price) {
      RepresentativeIsKept(x, offers, key, price);
    }
  }

  /** The offers stand in the order in which their keys first appear. */
  ghost predicate InOrderOf<O, K>(s: seq<O>, offers: seq<O>, key: O -> K) {
    forall i, j :: 0 <= i < j < |s| ==> Find(offers, key, key(s[i])) < Find(offers, key, key(s[j]))
  }

  ghost predicate KeysInOrder<O, K>(keys: seq<K>, offers: seq<O>, key: O -> K) {
    && (forall i :: 0 <= i < |keys| ==> Find(offers, key, keys[i]) < |offers|)
    && (forall i, j :: 0 <= i < j < |keys| ==> Find(offers, key, keys[i]) < Find(offers, key, keys[j]))
  }

  lemma {:induction false} FirstKeysInOrder<O, K>(offers: seq<O>, key: O -> K)
    ensures KeysInOrder(FirstKeys(offers, key), offers, key)
  {
    hide Find;
    if offers != [] {
      var prefix, x := offers[..|offers| - 1], offers[|offers| - 1];
      var before, keys := FirstKeys(prefix, key), FirstKeys(offers, key);
      FirstKeysInOrder(prefix, key);
      forall i | 0 <= i < |before|
        ensures Find(offers, key, before[i]) == Find(prefix, key, before[i])
      {
        FindIs(offers, key, before[i], Find(prefix, key, before[i]));
      }
      if key(x) in before {
        assert keys == before;
      } else {
        KeysAppear(prefix, key);
        FindIs(offers, key, key(x), |prefix|);
        assert keys == before + [key(x)];
      }
    }
  }

  lemma {:induction false} FilterInOrder<O, K>(s: seq<O>, p: O -> bool, offers: seq<O>, key: O -> K)
    requires InOrderOf(s, offers, key)
    ensures InOrderOf(Filter(s, p), offers, key)
  {
    hide Find;
    if s != [] {
      var prefix, z := s[..|s| - 1], s[|s| - 1];
      FilterInOrder(prefix, p, offers, key);
      var kept := Filter(prefix, p);
      forall i | 0 <= i < |kept|
        ensures Find(offers, key, key(kept[i])) < Find(offers, key, key(z))
      {
        var n := FilterIndex(prefix, p, i);
        assert s[n] == prefix[n];
      }
    }
  }

  /** De-duplicating and filtering keep the order of first appearance. */
  lemma SurvivorsInOrder<O, K>(offers: seq<O>, key: O -> K, price: O -> int, p: O -> bool)
    ensures InOrderOf(Filter(Deduped(offers, key, price), p), offers, key)
  {
    var d := Deduped(offers, key, price);
    DedupedIsDedupe(offers, key, price);
    FirstKeysInOrder(offers, key);
    forall i, j | 0 <= i < j < |d|
      ensures Find(offers, key, key(d[i])) < Find(offers, key, key(d[j]))
    {
      assert FirstKeys(offers, key)[i] == Keys(d, key)[i] && FirstKeys(offers, key)[j] == Keys(d, key)[j];
    }
    FilterInOrder(d, p, offers, key);
  }

  /** For any filter, what survives de-duplicating first also survives filtering first. */
  lemma FilterLastIsIncluded<O, K>(offers: seq<O>, key: O -> K, price: O -> int, p: O -> bool, x: O)
    requires x in Filter(Deduped(offers, key, price), p)
    ensures x in Deduped(Filter(offers, p), key, price)
  {
    var d := Deduped(offers, key, price);
    FilterMembers(d, p);
    DedupedIsDedupe(offers, key, price);
    var i :| 0 <= i < |d| && d[i] == x;
    FilterRepresents(x, offers, key, price, p);
    RepresentativeIsKept(x, Filter(offers, p), key, price);
  }

  /** Within one key, whatever costs no more than an accepted offer is accepted. */
  ghost predicate GroupMonotone<O(!new), K>(key: O -> K, price: O -> int, p: O -> bool) {
    forall x, y :: key(x) == key(y) && price(x) <= price(y) && p(y) ==> p(x)
  }

  lemma SameKeySameOffer<O, K>(d: seq<O>, key: O -> K, x: O, y: O)
    requires DistinctKeys(d, key) && x in d && y in d && key(x) == key(y)
    ensures x == y
  {
  }

  /** A monotone filter lets through nothing that filtering last would lose. */
  lemma MonotoneFilterLosesNothing<O(!new), K>(offers: seq<O>, key: O -> K, price: O -> int, p: O -> bool, y: O)
    requires GroupMonotone(key, price, p) && y in Deduped(Filter(offers, p), key, price)
    ensures y in Filter(Deduped(offers, key, price), p)
  {
    DedupeSelects(Filter(offers, p), key, price, y);
    FilterMembers(offers, p);
    var x := CheapestOfKey(offers, key, price, y);
    FilterMembers(Deduped(offers, key, price), p);
    FilterLastIsIncluded(offers, key, price, p, x);
    DedupedIsDedupe(Filter(offers, p), key, price);
    SameKeySameOffer(Deduped(Filter(offers, p), key, price), key, x, y);
  }

  lemma {:induction false} CountInDistinct<O, K>(s: seq<O>, key: O -> K, x: O)
    requires DistinctKeys(s, key)
    ensures multiset(s)[x] == if x in s then 1 else 0
  {
    if s != [] {
      var prefix, z := s[..|s| - 1], s[|s| - 1];
      CountInDistinct(prefix, key, x);
      assert s == prefix + [z];
      assert forall i :: 0 <= i < |prefix| ==> key(s[i]) != key(s[|s| - 1]) && s[i] == prefix[i];
    }
  }

  lemma {:induction false} FilterKeepsDistinct<O, K>(s: seq<O>, key: O -> K, p: O -> bool)
    requires DistinctKeys(s, key)
    ensures DistinctKeys(Filter(s, p), key)
  {
    if s != [] {
      var prefix, z := s[..|s| - 1], s[|s| - 1];
      FilterKeepsDistinct(prefix, key, p);
      var kept := Filter(prefix, p);
      forall i | 0 <= i < |kept|
        ensures key(kept[i]) != key(z)
      {
        var n := FilterIndex(prefix, p, i);
        assert s[n] == prefix[n];
      }
    }
  }

  /** The two orders of filtering and de-duplicating agree on every list of offers. */
  ghost predicate Interchangeable<O(!new), K>(key: O -> K, price: O -> int, p: O -> bool) {
    forall offers: seq<O> ::
      multiset(Filter(Deduped(offers, key, price), p)) == multiset(Deduped(Filter(offers, p), key, price))
  }

  /** They do so exactly when the filter is monotone within every key. */
  lemma FilterCommutesIffMonotone<O(!new), K>(key: O -> K, price: O -> int, p: O -> bool)
    ensures Interchangeable(key, price, p) <==> GroupMonotone(key, price, p)
  {
    if GroupMonotone(key, price, p) {
      forall offers: seq<O>
        ensures multiset(Filter(Deduped(offers, key, price), p)) == multiset(Deduped(Filter(offers, p), key, price))
      {
        MonotoneFilterCommutes(offers, key, price, p);
      }
    }
    if Interchangeable(key, price, p) {
      forall x, y | key(x) == key(y) && price(x) <= price(y) && p(y)
        ensures p(x)
      {
        TwoOffersTell(key, price, p, x, y);
      }
    }
  }

  lemma MonotoneFilterCommutes<O(!new), K>(offers: seq<O>, key: O -> K, price: O -> int, p: O -> bool)
    requires GroupMonotone(key, price, p)
    ensures multiset(Filter(Deduped(offers, key, price), p)) == multiset(Deduped(Filter(offers, p), key, price))
  {
    var d, e := Filter(Deduped(offers, key, price), p), Deduped(Filter(offers, p), key, price);
    DedupedIsDedupe(offers, key, price);
    DedupedIsDedupe(Filter(offers, p), key, price);
    FilterKeepsDistinct(Deduped(offers, key, price), key, p);
    forall x
      ensures multiset(d)[x] == multiset(e)[x]
    {
      CountInDistinct(d, key, x);
      CountInDistinct(e, key, x);
      if x in d {
        FilterLastIsIncluded(offers, key, price, p, x);
      }
      if x in e {
        MonotoneFilterLosesNothing(offers, key, price, p, x);
      }
    }
  }

  /** A cheaper rejected offer in front of an accepted one of the same key tells the orders apart. */
  lemma TwoOffersTell<O(!new), K>(key: O -> K, price: O -> int, p: O -> bool, x: O, y: O)
    requires key(x) == key(y) && price(x) <= price(y) && p(y)
    requires Interchangeable(key, price, p)
    ensures p(x)
  {
    var offers := [x, y];
    assert offers[..1] == [x] && [x][..0] == [] && [y][..0] == [];
    assert Fold([], key, price, [x]) == [x] && Filter([x], p) == if p(x) then [x] else [];
    assert Deduped(offers, key, price) == [x] && Fold([], key, price, [y]) == [y];
    assert Filter(offers, p) == if p(x) then [x, y] else [y];
    assert multiset(Filter(Deduped(offers, key, price), p)) == multiset(Deduped(Filter(offers, p), key, price));
  }

  // ---------------------------------------------------------------------------------------------
  // The loop
  // ---------------------------------------------------------------------------------------------

  /** The values of a dict, in the order in which its keys were inserted. */
  function Values<O, K(==)>(order: seq<K>, best: map<K, O>): (values: seq<O>)
    requires forall k :: k in order ==> k in best
    ensures |values| == |order| && forall i :: 0 <= i < |order| ==> values[i] == best[order[i]]
  {
    seq(|order|, i requires 0 <= i < |order| => best[order[i]])
  }

  /** The entries of the dict sit under their own keys, and `order` lists each key once. */
  ghost predicate IsDict<O, K>(order: seq<K>, best: map<K, O>, key: O -> K) {
    && (forall k :: k in order ==> k in best)
    && (forall k :: k in best ==> k in order && key(best[k]) == k)
    && (forall i, j :: 0 <= i < j < |order| ==> order[i] != order[j])
  }

  lemma ValuesAfter<O, K>(order: seq<K>, best: map<K, O>, key: O -> K, k: K, x: O)
    requires IsDict(order, best, key)
    ensures k !in order ==> Values(order + [k], best[k := x]) == Values(order, best) + [x]
    ensures forall i :: 0 <= i < |order| && order[i] == k ==> Values(order, best[k := x]) == Values(order, best)[i := x]
  {
  }

  /** An offer whose key is found at `i` competes with the offer kept there. */
  lemma UpsertAt<O, K>(d: seq<O>, key: O -> K, price: O -> int, x: O, i: nat)
    requires i < |d| && key(d[i]) == key(x) && forall j :: 0 <= j < i ==> key(d[j]) != key(x)
    ensures Upsert(d, key, price, x) == if price(x) < price(d[i]) then d[i := x] else d
  {
    FindIs(d, key, key(x), i);
  }

  /** A new key appends its offer, a known one competes in place. */
  lemma DictAfter<O, K>(order: seq<K>, best: map<K, O>, key: O -> K, price: O -> int, x: O)
    requires IsDict(order, best, key)
    ensures
      var k := key(x);
      if k !in best then
        && IsDict(order + [k], best[k := x], key)
        && Values(order + [k], best[k := x]) == Upsert(Values(order, best), key, price, x)
      else
        && IsDict(order, best[k := x], key)
        && Values(order, if price(x) < price(best[k]) then best[k := x] else best)
           == Upsert(Values(order, best), key, price, x)
  {
    var k, values := key(x), Values(order, best);
    ValuesAfter(order, best, key, k, x);
    hide Find, Upsert, Values;
    if k !in best {
      FindIs(values, key, k, |order|);
      UpsertNew(values, key, price, x);
    } else {
      var i :| 0 <= i < |order| && order[i] == k;
      UpsertAt(values, key, price, x, i);
    }
  }

  /** `best` with its insertion order, as a Python dict keeps it. */
  method DedupeOffers<O, K(==)>(offers: seq<O>, key: O -> K, price: O -> int) returns (result: seq<O>)
    ensures result == Deduped(offers, key, price)
  {
    var order: seq<K> := [];
    var best: map<K, O> := map[];
    for n := 0 to |offers|
      invariant IsDict(order, best, key)
      invariant Values(order, best) == Deduped(offers[..n], key, price)
    {
      var offer := offers[n];
      var k := key(offer);
      DictAfter(order, best, key, price, offer);
      FoldOneMore([], key, price, offers[..n], offer);
      assert offers[..n + 1] == offers[..n] + [offer];
      hide Fold, Upsert, Values;
      if k !in best {
        order, best := order + [k], best[k := offer];
      } else if price(offer) < price(best[k]) {
        best := best[k := offer];
      }
    }
    assert offers[..|offers|] == offers;
    result := Values(order, best);
  }
}
