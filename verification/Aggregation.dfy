/**
 Flight search (app/services/aggregation.py): fan-out, de-duplication, filtering, ranking, sorting
 and paging.

 `lower` stands for `str.lower`; nothing is assumed of it.  A time carries its instant, which sorting
 compares, and its ISO text, which the de-duplication key uses.
 */
module Aggregation {

  import opened Wrappers
  import opened Dedupe
  import opened FanOuts
  import opened Ranking
  import Pagination
  import StableSort

  /** Airports and currencies are named by three characters. */
  type Code = s: string | |s| == 3 witness "EUR"

  type Positive = n: nat | n > 0 witness 1

  datatype Money = Money(amountMinor: nat, currency: Code)

  datatype DateTime = DateTime(instant: int, iso: string)

  datatype NormalizedFlight = NormalizedFlight(
    id: string, provider: string, airline: string, origin: Code, destination: Code,
    departure: DateTime, arrival: DateTime, durationMinutes: Positive, stops: nat, cabinClass: string, price: Money)

  datatype FlightKey = FlightKey(airline: string, origin: string, destination: string, departure: string)

  function KeyOf(lower: string -> string): NormalizedFlight -> FlightKey {
    (f: NormalizedFlight) => FlightKey(lower(f.airline), f.origin, f.destination, f.departure.iso)
  }

  function PriceOf(f: NormalizedFlight): int { f.price.amountMinor }

  // ----------------------------------------- filtering ------------------------------------------

  datatype FlightFilters = FlightFilters(
    maxPriceMinor: Option<int>, maxStops: Option<int>, airlines: set<string>, directOnly: bool)

  const NO_FILTERS := FlightFilters(None, None, {}, false)

  predicate Matches(lower: string -> string, filters: FlightFilters, f: NormalizedFlight) {
    if filters.directOnly && f.stops != 0 then false
    else if filters.maxStops.Some? && f.stops > filters.maxStops.value then false
    else if filters.maxPriceMinor.Some? && f.price.amountMinor > filters.maxPriceMinor.value then false
    else !(filters.airlines != {} && lower(f.airline) !in filters.airlines)
  }

  function Accepts(lower: string -> string, filters: FlightFilters): NormalizedFlight -> bool {
    (f: NormalizedFlight) => Matches(lower, filters, f)
  }

  /** Filters that no flight meets: a negative cap, or airlines of which none is a lower-cased name. */
  ghost predicate LetsNothingThrough(lower: string -> string, filters: FlightFilters) {
    || (filters.maxPriceMinor.Some? && filters.maxPriceMinor.value < 0)
    || (filters.maxStops.Some? && filters.maxStops.value < 0)
    || (filters.airlines != {} && forall airline: string :: lower(airline) !in filters.airlines)
  }

  /** Some flight of this airline. */
  function Flight(airline: string, stops: nat, price: nat): NormalizedFlight {
    var at := DateTime(0, "");
    NormalizedFlight("", "", airline, "VIE", "LIS", at, at, 60, stops, "", Money(price, "EUR"))
  }

  lemma NothingMatchesIff(lower: string -> string, filters: FlightFilters)
    ensures LetsNothingThrough(lower, filters) <==> forall f :: !Matches(lower, filters, f)
  {
    if !LetsNothingThrough(lower, filters) {
      var airline := "";
      if filters.airlines != {} {
        airline :| lower(airline) in filters.airlines;
      }
      assert Matches(lower, filters, Flight(airline, 0, 0));
    }
  }

  /** When the filters may be applied before de-duplicating instead of after: exactly when they do
      not look at the number of stops, which is not part of the key, or let nothing through anyway. */
  lemma FlightFiltersCommute(lower: string -> string, filters: FlightFilters)
    ensures Interchangeable(KeyOf(lower), PriceOf, Accepts(lower, filters)) <==>
            (!filters.directOnly && filters.maxStops.None?) || LetsNothingThrough(lower, filters)
  {
    NothingMatchesIff(lower, filters);
    var key, p := KeyOf(lower), Accepts(lower, filters);
    FilterCommutesIffMonotone(key, PriceOf, p);
    if (filters.directOnly || filters.maxStops.Some?) && exists f :: Matches(lower, filters, f) {
      var f :| Matches(lower, filters, f);
      var g := f.(stops := if filters.maxStops.Some? && filters.maxStops.value >= 0
                         then filters.maxStops.value + 1 else 1);
      assert key(g) == key(f) && PriceOf(g) == PriceOf(f) && p(f) && !p(g);
    }
  }

  /** Two flights of one key and price, the first with a stop: asked for direct flights, filtering last
      finds nothing and filtering first finds the second. */
  lemma StopsTellTheOrdersApart(lower: string -> string)
    ensures
      var offers := [Flight("OS", 1, 100), Flight("OS", 0, 100)];
      var direct := Accepts(lower, NO_FILTERS.(directOnly := true));
      && Filter(Deduped(offers, KeyOf(lower), PriceOf), direct) == []
      && Deduped(Filter(offers, direct), KeyOf(lower), PriceOf) == [Flight("OS", 0, 100)]
  {
    var p, key, direct := PriceOf, KeyOf(lower), Accepts(lower, NO_FILTERS.(directOnly := true));
    var f, g := Flight("OS", 1, 100), Flight("OS", 0, 100);
    assert [f, g][..1] == [f];
    DedupedSmall(key, p, f, g);
    DedupedSmall(key, p, g, f);
    UpsertAt([f], key, p, g, 0);
    assert Filter([f], direct) == [];
  }

  // ------------------------------------------ ranking -------------------------------------------

  datatype RankedFlight = RankedFlight(flight: NormalizedFlight, score: real)

  function Prices(fs: seq<NormalizedFlight>): (s: seq<int>)
    ensures |s| == |fs| && forall i :: 0 <= i < |fs| ==> s[i] == fs[i].price.amountMinor
  {
    seq(|fs|, i requires 0 <= i < |fs| => fs[i].price.amountMinor)
  }

  function Durations(fs: seq<NormalizedFlight>): (s: seq<int>)
    ensures |s| == |fs| && forall i :: 0 <= i < |fs| ==> s[i] == fs[i].durationMinutes
  {
    seq(|fs|, i requires 0 <= i < |fs| => fs[i].durationMinutes)
  }

  function Stops(fs: seq<NormalizedFlight>): (s: seq<int>)
    ensures |s| == |fs| && forall i :: 0 <= i < |fs| ==> s[i] == fs[i].stops
  {
    seq(|fs|, i requires 0 <= i < |fs| => fs[i].stops)
  }

  function Penalty(priceNorm: real, durationNorm: real, stopsNorm: real): real {
    0.5 * priceNorm + 0.3 * durationNorm + 0.2 * stopsNorm
  }

  /** The score of one flight before rounding, given the extremes of the list. */
  function ExactWithin(f: NormalizedFlight, minPrice: int, maxPrice: int, minDuration: int, maxDuration: int,
                       maxStops: int): real {
    1.0 - Penalty(Norm(f.price.amountMinor, minPrice, maxPrice),
                  Norm(f.durationMinutes, minDuration, maxDuration),
                  Norm(f.stops, 0, maxStops))
  }

  function Exact(fs: seq<NormalizedFlight>, f: NormalizedFlight): real
    requires fs != []
  {
    ExactWithin(f, MinOf(Prices(fs)), MaxOf(Prices(fs)), MinOf(Durations(fs)), MaxOf(Durations(fs)), MaxOf(Stops(fs)))
  }

  function Ranked(fs: seq<NormalizedFlight>): (r: seq<RankedFlight>)
    ensures |r| == |fs|
    ensures forall i :: 0 <= i < |fs| ==> r[i] == RankedFlight(fs[i], Round3(Exact(fs, fs[i])))
  {
    seq(|fs|, i requires 0 <= i < |fs| => RankedFlight(fs[i], Round3(Exact(fs, fs[i]))))
  }

  method Rank(fs: seq<NormalizedFlight>) returns (ranked: seq<RankedFlight>)
    ensures ranked == Ranked(fs)
  {
    hide ExactWithin, Round3, MinOf, MaxOf;
    if fs == [] {
      return [];
    }
    var prices, durations := Prices(fs), Durations(fs);
    var minPrice, minDuration := MinOf(prices), MinOf(durations);
    var maxStops := MaxOf(Stops(fs));
    var priceSpan, durationSpan := MaxOf(prices) - minPrice, MaxOf(durations) - minDuration;
    ranked := [];
    for n := 0 to |fs|
      invariant |ranked| == n && forall i :: 0 <= i < n ==> ranked[i] == Ranked(fs)[i]
    {
      var score := RoundedScore(fs[n], minPrice, priceSpan, minDuration, durationSpan, maxStops);
      ranked := ranked + [RankedFlight(fs[n], score)];
    }
  }

  /** The body of the ranking loop, on the spans. */
  method RoundedScore(f: NormalizedFlight, minPrice: int, priceSpan: int, minDuration: int, durationSpan: int,
                      maxStops: int)
    returns (score: real)
    ensures score ==
            Round3(ExactWithin(f, minPrice, minPrice + priceSpan, minDuration, minDuration + durationSpan, maxStops))
  {
    var priceNorm := Share(f.price.amountMinor - minPrice, priceSpan);
    var durationNorm := Share(f.durationMinutes - minDuration, durationSpan);
    var stopsNorm := Share(f.stops, maxStops);
    var penalty := 0.5 * priceNorm + 0.3 * durationNorm + 0.2 * stopsNorm;
    score := Round3(1.0 - penalty);
  }

  /** An offer with the lowest price, the shortest duration and no stop scores one. */
  lemma IdealScoresOne(fs: seq<NormalizedFlight>, f: NormalizedFlight)
    requires fs != []
    requires PriceOf(f) == MinOf(Prices(fs)) && f.durationMinutes == MinOf(Durations(fs)) && f.stops == 0
    ensures Exact(fs, f) == 1.0
  {
    hide MinOf, MaxOf, Norm;
    NormDifference(0, 0, MinOf(Prices(fs)), MaxOf(Prices(fs)));
    NormDifference(0, 0, MinOf(Durations(fs)), MaxOf(Durations(fs)));
    NormDifference(0, 0, 0, MaxOf(Stops(fs)));
  }

  lemma PenaltyIsLinear(fs: seq<NormalizedFlight>, f: NormalizedFlight, g: NormalizedFlight)
    requires fs != []
    ensures
      var minPrice, maxPrice := MinOf(Prices(fs)), MaxOf(Prices(fs));
      var minDuration, maxDuration := MinOf(Durations(fs)), MaxOf(Durations(fs));
      Exact(fs, f) - Exact(fs, g)
      == 0.5 * (Norm(PriceOf(g), minPrice, maxPrice) - Norm(PriceOf(f), minPrice, maxPrice))
         + 0.3 * (Norm(g.durationMinutes, minDuration, maxDuration) - Norm(f.durationMinutes, minDuration, maxDuration))
         + 0.2 * (Norm(g.stops, 0, MaxOf(Stops(fs))) - Norm(f.stops, 0, MaxOf(Stops(fs))))
  {
    hide MinOf, MaxOf, Norm;
  }

  /** Other things equal, being dearer costs half of what part of the price span the difference is. */
  lemma PriceWeighsHalf(fs: seq<NormalizedFlight>, f: NormalizedFlight, g: NormalizedFlight)
    requires fs != [] && MinOf(Prices(fs)) < MaxOf(Prices(fs))
    requires f.durationMinutes == g.durationMinutes && f.stops == g.stops
    ensures Exact(fs, f) - Exact(fs, g)
            == 0.5 * Part(PriceOf(g) - PriceOf(f), MaxOf(Prices(fs)) - MinOf(Prices(fs)))
  {
    hide MinOf, MaxOf, Norm, Exact, Part;
    NormDifference(PriceOf(f), PriceOf(g), MinOf(Prices(fs)), MaxOf(Prices(fs)));
    PenaltyIsLinear(fs, f, g);
  }

  /** Being longer costs three tenths of what part of the duration span the difference is. */
  lemma DurationWeighsThreeTenths(fs: seq<NormalizedFlight>, f: NormalizedFlight, g: NormalizedFlight)
    requires fs != [] && MinOf(Durations(fs)) < MaxOf(Durations(fs))
    requires PriceOf(f) == PriceOf(g) && f.stops == g.stops
    ensures Exact(fs, f) - Exact(fs, g)
            == 0.3 * Part(g.durationMinutes - f.durationMinutes, MaxOf(Durations(fs)) - MinOf(Durations(fs)))
  {
    hide MinOf, MaxOf, Norm, Exact, Part;
    NormDifference(f.durationMinutes, g.durationMinutes, MinOf(Durations(fs)), MaxOf(Durations(fs)));
    PenaltyIsLinear(fs, f, g);
  }

  /** And more stops cost two tenths of what part of the most stops the difference is. */
  lemma StopsWeighTwoTenths(fs: seq<NormalizedFlight>, f: NormalizedFlight, g: NormalizedFlight)
    requires fs != [] && MaxOf(Stops(fs)) > 0
    requires PriceOf(f) == PriceOf(g) && f.durationMinutes == g.durationMinutes
    ensures Exact(fs, f) - Exact(fs, g) == 0.2 * Part(g.stops - f.stops, MaxOf(Stops(fs)))
  {
    hide MinOf, MaxOf, Norm, Exact, Part;
    NormDifference(f.stops, g.stops, 0, MaxOf(Stops(fs)));
    PenaltyIsLinear(fs, f, g);
  }

  lemma ExactIsAFraction(fs: seq<NormalizedFlight>, f: NormalizedFlight)
    requires f in fs
    ensures 0.0 <= Exact(fs, f) <= 1.0
  {
    var i :| 0 <= i < |fs| && fs[i] == f;
    NormIsAFraction(Prices(fs)[i], MinOf(Prices(fs)), MaxOf(Prices(fs)));
    NormIsAFraction(Durations(fs)[i], MinOf(Durations(fs)), MaxOf(Durations(fs)));
    NormIsAFraction(Stops(fs)[i], 0, MaxOf(Stops(fs)));
  }

  /** Every score lies between zero and one, and is within half a thousandth of the exact score. */
  lemma ScoresAreFractions(fs: seq<NormalizedFlight>, i: nat)
    requires i < |fs|
    ensures 0.0 <= Ranked(fs)[i].score <= 1.0
    ensures -0.0005 <= Ranked(fs)[i].score - Exact(fs, fs[i]) <= 0.0005
  {
    ExactIsAFraction(fs, fs[i]);
    RoundingKeepsFractions(Exact(fs, fs[i]));
    RoundingIsNearest(Exact(fs, fs[i]));
  }

  /** An offer no worse in price, duration and stops never scores lower. */
  lemma DominanceIsRespected(fs: seq<NormalizedFlight>, i: nat, j: nat)
    requires i < |fs| && j < |fs|
    requires fs[i].price.amountMinor <= fs[j].price.amountMinor
    requires fs[i].durationMinutes <= fs[j].durationMinutes && fs[i].stops <= fs[j].stops
    ensures Ranked(fs)[i].score >= Ranked(fs)[j].score
  {
    assert Prices(fs)[i] <= MaxOf(Prices(fs)) && Durations(fs)[i] <= MaxOf(Durations(fs));
    assert Stops(fs)[i] <= MaxOf(Stops(fs));
    NormIsMonotone(fs[i].price.amountMinor, fs[j].price.amountMinor, MinOf(Prices(fs)), MaxOf(Prices(fs)));
    NormIsMonotone(fs[i].durationMinutes, fs[j].durationMinutes, MinOf(Durations(fs)), MaxOf(Durations(fs)));
    NormIsMonotone(fs[i].stops, fs[j].stops, 0, MaxOf(Stops(fs)));
    RoundingIsMonotone(Exact(fs, fs[j]), Exact(fs, fs[i]));
  }

  /** Quoting all prices in another unit, or adding a fee to all of them, changes no score. */
  lemma ScoresIgnoreUnits(fs: seq<NormalizedFlight>, gs: seq<NormalizedFlight>, k: real, c: real, n: nat)
    requires k > 0.0 && Affine(k, c, Prices(fs), Prices(gs)) && n < |fs|
    requires Durations(fs) == Durations(gs) && Stops(fs) == Stops(gs)
    ensures n < |gs| && Ranked(gs)[n].score == Ranked(fs)[n].score
  {
    assert |gs| == |Prices(gs)|;
    AffineListsHaveEqualNorms(k, c, Prices(fs), Prices(gs), n);
    assert Durations(fs)[n] == Durations(gs)[n] && Stops(fs)[n] == Stops(gs)[n];
  }

  // ------------------------------------------ sorting -------------------------------------------

  datatype SortKey = Best | Price | Duration | Departure | FewestStops

  function SortValue(sort: SortKey): RankedFlight -> real {
    match sort
    case Best => (r: RankedFlight) => -r.score
    case Price => (r: RankedFlight) => r.flight.price.amountMinor as real
    case Duration => (r: RankedFlight) => r.flight.durationMinutes as real
    case Departure => (r: RankedFlight) => r.flight.departure.instant as real
    case FewestStops => (r: RankedFlight) => r.flight.stops as real
  }

  function SortFlights(ranked: seq<RankedFlight>, sort: SortKey): seq<RankedFlight> {
    StableSort.Sort(ranked, SortValue(sort))
  }

  lemma SortKeepsMembers(ranked: seq<RankedFlight>, sort: SortKey)
    ensures |SortFlights(ranked, sort)| == |ranked|
    ensures forall r :: r in SortFlights(ranked, sort) <==> r in ranked
    ensures StableSort.Sorted(SortFlights(ranked, sort), SortValue(sort))
  {
    StableSort.SortIsStable(ranked, SortValue(sort));
    forall r
      ensures r in SortFlights(ranked, sort) <==> r in ranked
    {
      assert r in SortFlights(ranked, sort) <==> r in multiset(SortFlights(ranked, sort));
      assert r in ranked <==> r in multiset(ranked);
    }
  }

  /** Rounding costs the BEST order at most a thousandth: nothing further down is better than what
      stands above it by more than that.  In particular the first item is within it of the optimum. */
  lemma BestOrderIsNearlyExact(fs: seq<NormalizedFlight>, i: nat, j: nat)
    requires i < j < |SortFlights(Ranked(fs), Best)|
    ensures
      var s := SortFlights(Ranked(fs), Best);
      s[i].flight in fs && s[j].flight in fs && Exact(fs, s[j].flight) <= Exact(fs, s[i].flight) + 0.001
  {
    hide Exact, Round3, SortFlights;
    var s := SortFlights(Ranked(fs), Best);
    SortKeepsMembers(Ranked(fs), Best);
    assert s[i] in s && s[j] in s;
    var m :| 0 <= m < |fs| && Ranked(fs)[m] == s[i];
    var n :| 0 <= n < |fs| && Ranked(fs)[n] == s[j];
    ScoresAreFractions(fs, m);
    ScoresAreFractions(fs, n);
    assert SortValue(Best)(s[i]) <= SortValue(Best)(s[j]);
  }

  // ------------------------------------- what a search shows ------------------------------------

  /** The same physical flight, whoever offers it. */
  ghost predicate SameFlight(lower: string -> string, f: NormalizedFlight, g: NormalizedFlight) {
    && lower(f.airline) == lower(g.airline)
    && f.origin == g.origin && f.destination == g.destination && f.departure.iso == g.departure.iso
  }

  /** The `p`-th offer of the `i`-th provider is kept: no offer of the same flight is cheaper, and none that
      comes before it, from an earlier provider or earlier from the same one, is as cheap. */
  ghost predicate IsKeptAt(lower: string -> string, answers: seq<Answer<NormalizedFlight>>, i: int, p: int) {
    && IsPlace(answers, i, p)
    && forall j, q :: IsPlace(answers, j, q) && SameFlight(lower, answers[j].offers[q], answers[i].offers[p]) ==>
         && PriceOf(answers[i].offers[p]) <= PriceOf(answers[j].offers[q])
         && (j < i || (j == i && q < p) ==> PriceOf(answers[i].offers[p]) < PriceOf(answers[j].offers[q]))
  }

  ghost predicate IsKept(lower: string -> string, answers: seq<Answer<NormalizedFlight>>, f: NormalizedFlight) {
    exists i, p :: IsKeptAt(lower, answers, i, p) && answers[i].offers[p] == f
  }

  /** What the filters ask of a flight, one by one. */
  ghost predicate MeetsFilters(lower: string -> string, filters: FlightFilters, f: NormalizedFlight) {
    && (filters.maxPriceMinor.Some? ==> f.price.amountMinor <= filters.maxPriceMinor.value)
    && (filters.maxStops.Some? ==> f.stops <= filters.maxStops.value)
    && (filters.directOnly ==> f.stops == 0)
    && (filters.airlines != {} ==> lower(f.airline) in filters.airlines)
  }

  ghost predicate IsShown(lower: string -> string, answers: seq<Answer<NormalizedFlight>>, filters: FlightFilters,
                          f: NormalizedFlight) {
    IsKept(lower, answers, f) && MeetsFilters(lower, filters, f)
  }

  lemma KeptAtMeans(lower: string -> string, answers: seq<Answer<NormalizedFlight>>, i: nat, p: nat)
    requires IsPlace(answers, i, p)
    ensures Ahead(answers, i) + p < |Merge(answers)|
    ensures BestAt(Merge(answers), KeyOf(lower), PriceOf, Ahead(answers, i) + p) <==> IsKeptAt(lower, answers, i, p)
  {
    hide Merge, Ahead;
    var merged, key, n := Merge(answers), KeyOf(lower), Ahead(answers, i) + p;
    PlaceInMerge(answers, i, p);
    if IsKeptAt(lower, answers, i, p) {
      forall m | 0 <= m < |merged| && key(merged[m]) == key(merged[n])
        ensures PriceOf(merged[n]) <= PriceOf(merged[m]) && (m < n ==> PriceOf(merged[n]) < PriceOf(merged[m]))
      {
        var j, q := PlaceFromMerge(answers, m);
        if i < j {
          AheadGrows(answers, i, j);
        }
        assert SameFlight(lower, answers[j].offers[q], answers[i].offers[p]);
      }
    }
    if BestAt(merged, key, PriceOf, n) {
      forall j, q | IsPlace(answers, j, q) && SameFlight(lower, answers[j].offers[q], answers[i].offers[p])
        ensures PriceOf(merged[n]) <= PriceOf(answers[j].offers[q])
        ensures j < i || (j == i && q < p) ==> PriceOf(merged[n]) < PriceOf(answers[j].offers[q])
      {
        PlaceInMerge(answers, j, q);
        if j < i {
          AheadGrows(answers, j, i);
        }
        assert key(merged[Ahead(answers, j) + q]) == key(merged[n]);
      }
    }
  }

  lemma BestIsKept(lower: string -> string, answers: seq<Answer<NormalizedFlight>>, n: nat)
    requires n < |Merge(answers)| && BestAt(Merge(answers), KeyOf(lower), PriceOf, n)
    ensures IsKept(lower, answers, Merge(answers)[n])
  {
    hide Merge, Ahead, BestAt, IsKeptAt;
    var i, p := PlaceFromMerge(answers, n);
    KeptAtMeans(lower, answers, i, p);
    assert IsKeptAt(lower, answers, i, p) && answers[i].offers[p] == Merge(answers)[n];
  }

  lemma KeptIsBest(lower: string -> string, answers: seq<Answer<NormalizedFlight>>, i: nat, p: nat)
    requires IsPlace(answers, i, p) && IsKeptAt(lower, answers, i, p)
    ensures Represents(answers[i].offers[p], Merge(answers), KeyOf(lower), PriceOf)
  {
    hide Merge, Ahead, BestAt, IsKeptAt;
    PlaceInMerge(answers, i, p);
    KeptAtMeans(lower, answers, i, p);
    assert BestAt(Merge(answers), KeyOf(lower), PriceOf, Ahead(answers, i) + p);
  }

  /** Being kept is being the representative of a key in the merged list. */
  lemma KeptMeans(lower: string -> string, answers: seq<Answer<NormalizedFlight>>, f: NormalizedFlight)
    ensures Represents(f, Merge(answers), KeyOf(lower), PriceOf) <==> IsKept(lower, answers, f)
  {
    hide Merge;
    var merged := Merge(answers);
    if Represents(f, merged, KeyOf(lower), PriceOf) {
      var n :| BestAt(merged, KeyOf(lower), PriceOf, n) && merged[n] == f;
      BestIsKept(lower, answers, n);
    }
    if IsKept(lower, answers, f) {
      var i, p :| IsKeptAt(lower, answers, i, p) && answers[i].offers[p] == f;
      KeptIsBest(lower, answers, i, p);
    }
  }

  lemma MatchesMeans(lower: string -> string, filters: FlightFilters, f: NormalizedFlight)
    ensures Accepts(lower, filters)(f) <==> MeetsFilters(lower, filters, f)
  {
  }

  // ------------------------------------------- search -------------------------------------------

  datatype SearchMeta = SearchMeta(degraded: bool, providersOk: nat, providersFailed: nat, total: nat)

  datatype AggregationResult = AggregationResult(page: Pagination.Page<RankedFlight>, meta: SearchMeta)

  /** The offers that are left after merging, de-duplicating and filtering. */
  ghost function Surviving(lower: string -> string, answers: seq<Answer<NormalizedFlight>>,
                           filters: FlightFilters): seq<NormalizedFlight> {
    Filter(Deduped(Merge(answers), KeyOf(lower), PriceOf), Accepts(lower, filters))
  }

  /** The whole result list, of which `search` returns one page. */
  ghost function Ordered(lower: string -> string, answers: seq<Answer<NormalizedFlight>>, filters: FlightFilters,
                         sort: SortKey): seq<RankedFlight> {
    SortFlights(Ranked(Surviving(lower, answers, filters)), sort)
  }

  /** The flights of a search that are shown on some page. */
  ghost function Shown(lower: string -> string, answers: seq<Answer<NormalizedFlight>>,
                       filters: FlightFilters): set<NormalizedFlight> {
    set f | f in Merge(answers) && IsShown(lower, answers, filters, f)
  }

  lemma SurvivingIff(lower: string -> string, answers: seq<Answer<NormalizedFlight>>, filters: FlightFilters,
                     f: NormalizedFlight)
    ensures f in Surviving(lower, answers, filters) <==> IsShown(lower, answers, filters, f)
    ensures f in Surviving(lower, answers, filters) ==> f in Merge(answers)
  {
    hide Merge, Deduped, Filter, Represents, IsKept, MeetsFilters;
    var merged := Merge(answers);
    SurvivesIff(merged, KeyOf(lower), PriceOf, Accepts(lower, filters), f);
    KeptMeans(lower, answers, f);
    MatchesMeans(lower, filters, f);
    FilterMembers(Deduped(merged, KeyOf(lower), PriceOf), Accepts(lower, filters));
    if f in Deduped(merged, KeyOf(lower), PriceOf) {
      DedupeSelects(merged, KeyOf(lower), PriceOf, f);
    }
  }

  lemma SurvivorsDiffer(lower: string -> string, answers: seq<Answer<NormalizedFlight>>, filters: FlightFilters)
    ensures DistinctKeys(Surviving(lower, answers, filters), KeyOf(lower))
  {
    var d := Deduped(Merge(answers), KeyOf(lower), PriceOf);
    DedupedIsDedupe(Merge(answers), KeyOf(lower), PriceOf);
    FilterKeepsDistinct(d, KeyOf(lower), Accepts(lower, filters));
  }

  lemma {:induction false} SizeOfDistinct<O, K>(s: seq<O>, key: O -> K)
    requires DistinctKeys(s, key)
    ensures |set x | x in s| == |s|
  {
    if s != [] {
      var prefix, z := s[..|s| - 1], s[|s| - 1];
      SizeOfDistinct(prefix, key);
      assert s == prefix + [z];
      assert z !in prefix by {
        assert forall i :: 0 <= i < |prefix| ==> prefix[i] == s[i] && key(s[i]) != key(s[|s| - 1]);
      }
      assert (set x | x in s) == (set x | x in prefix) + {z};
    }
  }

  /** As many offers survive as flights are shown. */
  lemma SurvivorsAreShown(lower: string -> string, answers: seq<Answer<NormalizedFlight>>, filters: FlightFilters)
    ensures |Surviving(lower, answers, filters)| == |Shown(lower, answers, filters)|
  {
    var s := Surviving(lower, answers, filters);
    SurvivorsDiffer(lower, answers, filters);
    SizeOfDistinct(s, KeyOf(lower));
    hide Surviving, IsShown, Merge;
    forall f
      ensures f in s <==> f in Shown(lower, answers, filters)
    {
      SurvivingIff(lower, answers, filters, f);
    }
    assert (set f | f in s) == Shown(lower, answers, filters);
  }

  predicate Lists(result: seq<RankedFlight>, f: NormalizedFlight) {
    exists i :: 0 <= i < |result| && result[i].flight == f
  }

  lemma RankedLists(fs: seq<NormalizedFlight>, sort: SortKey, f: NormalizedFlight)
    ensures Lists(SortFlights(Ranked(fs), sort), f) <==> f in fs
  {
    hide Exact, Round3, SortFlights;
    var ranked, ordered := Ranked(fs), SortFlights(Ranked(fs), sort);
    SortKeepsMembers(ranked, sort);
    if f in fs {
      var n :| 0 <= n < |fs| && fs[n] == f;
      assert ranked[n] in ordered;
    }
    if i :| 0 <= i < |ordered| && ordered[i].flight == f {
      assert ordered[i] in ranked;
    }
  }

  /** What the whole result lists, said of the providers' answers: of every flight the cheapest offer,
      among equally cheap ones the first of the first provider, provided that offer meets the filters;
      nothing else. */
  lemma ResultIsExact(lower: string -> string, answers: seq<Answer<NormalizedFlight>>, filters: FlightFilters,
                      sort: SortKey, f: NormalizedFlight)
    ensures Lists(Ordered(lower, answers, filters, sort), f) <==>
            IsKept(lower, answers, f) && MeetsFilters(lower, filters, f)
  {
    SurvivingIff(lower, answers, filters, f);
    hide Surviving, SortFlights, Ranked;
    RankedLists(Surviving(lower, answers, filters), sort, f);
  }

  /** In the requested order, `a` may stand before `b`. */
  ghost predicate NotAfter(sort: SortKey, a: RankedFlight, b: RankedFlight) {
    match sort
    case Best => a.score >= b.score
    case Price => a.flight.price.amountMinor <= b.flight.price.amountMinor
    case Duration => a.flight.durationMinutes <= b.flight.durationMinutes
    case Departure => a.flight.departure.instant <= b.flight.departure.instant
    case FewestStops => a.flight.stops <= b.flight.stops
  }

  /** Some provider offers the one flight before any provider offers the other. */
  ghost predicate MentionedFirst(lower: string -> string, answers: seq<Answer<NormalizedFlight>>, f: NormalizedFlight,
                                 g: NormalizedFlight) {
    exists i, p :: IsPlace(answers, i, p) && SameFlight(lower, answers[i].offers[p], f)
                   && forall j, q :: IsPlace(answers, j, q) && SameFlight(lower, answers[j].offers[q], g) ==>
                        i < j || (i == j && p < q)
  }

  lemma FoundFirst(lower: string -> string, answers: seq<Answer<NormalizedFlight>>, f: NormalizedFlight,
                   g: NormalizedFlight)
    requires Find(Merge(answers), KeyOf(lower), KeyOf(lower)(f)) < Find(Merge(answers), KeyOf(lower), KeyOf(lower)(g))
    ensures MentionedFirst(lower, answers, f, g)
  {
    hide Merge, Ahead, Find;
    var merged, key := Merge(answers), KeyOf(lower);
    var n := Find(merged, key, key(f));
    var i, p := PlaceFromMerge(answers, n);
    assert SameFlight(lower, answers[i].offers[p], f);
    forall j, q | IsPlace(answers, j, q) && SameFlight(lower, answers[j].offers[q], g)
      ensures i < j || (i == j && p < q)
    {
      PlaceInMerge(answers, j, q);
      assert key(merged[Ahead(answers, j) + q]) == key(g);
      if j < i {
        AheadGrows(answers, j, i);
      }
    }
  }

  lemma RankedInOrder(fs: seq<NormalizedFlight>, offers: seq<NormalizedFlight>, key: NormalizedFlight -> FlightKey)
    requires InOrderOf(fs, offers, key)
    ensures StableSort.Increasing(Ranked(fs), (r: RankedFlight) => Find(offers, key, key(r.flight)))
  {
    hide Find, Exact, Round3;
  }

  lemma SortValueMeans(sort: SortKey, a: RankedFlight, b: RankedFlight)
    ensures SortValue(sort)(a) <= SortValue(sort)(b) <==> NotAfter(sort, a, b)
  {
  }

  /** The order of the whole result, to the last tie: by the requested field, and among offers that agree
      in it by who was mentioned first.  No flight is listed twice. */
  lemma OrderIsExact(lower: string -> string, answers: seq<Answer<NormalizedFlight>>, filters: FlightFilters,
                     sort: SortKey, i: nat, j: nat)
    requires i < j < |Ordered(lower, answers, filters, sort)|
    ensures
      var a, b := Ordered(lower, answers, filters, sort)[i], Ordered(lower, answers, filters, sort)[j];
      && NotAfter(sort, a, b)
      && (NotAfter(sort, b, a) ==> MentionedFirst(lower, answers, a.flight, b.flight))
      && !SameFlight(lower, a.flight, b.flight)
  {
    hide Merge, Find, Exact, Round3, Filter, Deduped, MentionedFirst;
    var merged, key, fs := Merge(answers), KeyOf(lower), Surviving(lower, answers, filters);
    var rank := (r: RankedFlight) => Find(merged, key, key(r.flight));
    SurvivorsInOrder(merged, key, PriceOf, Accepts(lower, filters));
    RankedInOrder(fs, merged, key);
    SortKeepsMembers(Ranked(fs), sort);
    var ordered := SortFlights(Ranked(fs), sort);
    var a, b := ordered[i], ordered[j];
    SortValueMeans(sort, a, b);
    SortValueMeans(sort, b, a);
    if SortValue(sort)(a) == SortValue(sort)(b) {
      StableSort.TiesKeepTheirOrder(Ranked(fs), SortValue(sort), rank, i, j);
      FoundFirst(lower, answers, a.flight, b.flight);
    }
    SurvivorsDiffer(lower, answers, filters);
    assert a in ordered && b in ordered;
    if key(a.flight) == key(b.flight) {
      OneScorePerKey(fs, key, a, b);
    }
  }

  lemma OneScorePerKey(fs: seq<NormalizedFlight>, key: NormalizedFlight -> FlightKey, a: RankedFlight, b: RankedFlight)
    requires DistinctKeys(fs, key) && a in Ranked(fs) && b in Ranked(fs) && key(a.flight) == key(b.flight)
    ensures a == b
  {
    hide Exact, Round3;
    var m :| 0 <= m < |fs| && Ranked(fs)[m] == a;
    var n :| 0 <= n < |fs| && Ranked(fs)[n] == b;
    assert fs[m] == fs[n];
  }

  function FlightsOf(result: seq<RankedFlight>): (fs: seq<NormalizedFlight>)
    ensures |fs| == |result| && forall i :: 0 <= i < |fs| ==> fs[i] == result[i].flight
  {
    seq(|result|, i requires 0 <= i < |result| => result[i].flight)
  }

  lemma SameExtremes(xs: seq<int>, ys: seq<int>)
    requires xs != [] && ys != [] && (forall x :: x in xs ==> x in ys) && (forall y :: y in ys ==> y in xs)
    ensures MinOf(xs) == MinOf(ys) && MaxOf(xs) == MaxOf(ys)
  {
    var lowX, lowY, highX, highY := MinOf(xs), MinOf(ys), MaxOf(xs), MaxOf(ys);
    hide MinOf, MaxOf;
    var i :| 0 <= i < |ys| && ys[i] == lowX;
    var j :| 0 <= j < |xs| && xs[j] == lowY;
    var m :| 0 <= m < |ys| && ys[m] == highX;
    var n :| 0 <= n < |xs| && xs[n] == highY;
  }

  lemma SameFields(fs: seq<NormalizedFlight>, gs: seq<NormalizedFlight>)
    requires forall f :: f in fs ==> f in gs
    ensures forall x :: x in Prices(fs) ==> x in Prices(gs)
    ensures forall x :: x in Durations(fs) ==> x in Durations(gs)
    ensures forall x :: x in Stops(fs) ==> x in Stops(gs)
  {
    forall i | 0 <= i < |fs|
      ensures Prices(fs)[i] in Prices(gs) && Durations(fs)[i] in Durations(gs) && Stops(fs)[i] in Stops(gs)
    {
      assert fs[i] in fs && fs[i] in gs;
      var j :| 0 <= j < |gs| && gs[j] == fs[i];
      assert Prices(gs)[j] == Prices(fs)[i] && Durations(gs)[j] == Durations(fs)[i] && Stops(gs)[j] == Stops(fs)[i];
    }
  }

  /** Scores compare a flight with the flights that are listed, and with no others. */
  lemma ScoresAreOfThisList(lower: string -> string, answers: seq<Answer<NormalizedFlight>>, filters: FlightFilters,
                            sort: SortKey, i: nat)
    requires i < |Ordered(lower, answers, filters, sort)|
    ensures
      var result := Ordered(lower, answers, filters, sort);
      result[i].score == Round3(Exact(FlightsOf(result), result[i].flight))
  {
    var fs := Surviving(lower, answers, filters);
    var result := SortFlights(Ranked(fs), sort);
    var gs := FlightsOf(result);
    hide Surviving, SortFlights, Round3, ExactWithin, MinOf, MaxOf;
    SortKeepsMembers(Ranked(fs), sort);
    assert result[i] in result;
    var n :| 0 <= n < |fs| && Ranked(fs)[n] == result[i];
    forall f
      ensures f in gs <==> f in fs
    {
      RankedLists(fs, sort, f);
    }
    SameFields(fs, gs);
    SameFields(gs, fs);
    SameExtremes(Prices(fs), Prices(gs));
    SameExtremes(Durations(fs), Durations(gs));
    SameExtremes(Stops(fs), Stops(gs));
  }

  method Search(lower: string -> string, lenient: string -> int, answers: seq<Answer<NormalizedFlight>>,
                sort: SortKey, filters: FlightFilters, limit: nat, cursor: Option<string>)
    returns (r: AggregationResult)
    ensures r.page == Pagination.PageOf(Ordered(lower, answers, filters, sort), limit, cursor, lenient)
    ensures forall item :: item in r.page.items ==>
              IsKept(lower, answers, item.flight) && MeetsFilters(lower, filters, item.flight)
    ensures r.meta.total == |Shown(lower, answers, filters)| == |Ordered(lower, answers, filters, sort)|
    ensures r.meta.providersOk == |Succeeding(answers)|
    ensures r.meta.providersFailed == |answers| - |Succeeding(answers)|
    ensures r.meta.degraded <==> exists i :: 0 <= i < |answers| && answers[i].Failed?
  {
    var flights, ok, failed := FanOut(answers);
    var deduped := DedupeOffers(flights, KeyOf(lower), PriceOf);
    var filtered := Filter(deduped, Accepts(lower, filters));
    var ranked := Rank(filtered);
    var ordered := SortFlights(ranked, sort);
    SortKeepsMembers(ranked, sort);
    SomebodyFailed(answers);
    r := AggregationResult(Pagination.PageOf(ordered, limit, cursor, lenient),
                           SearchMeta(failed > 0, ok, failed, |ordered|));
    SurvivorsAreShown(lower, answers, filters);
    PageShowsKept(lower, answers, filters, sort, r.page.items);
  }

  lemma PageShowsKept(lower: string -> string, answers: seq<Answer<NormalizedFlight>>, filters: FlightFilters,
                      sort: SortKey, items: seq<RankedFlight>)
    requires forall item :: item in items ==> item in Ordered(lower, answers, filters, sort)
    ensures forall item :: item in items ==> IsShown(lower, answers, filters, item.flight)
  {
    hide Ordered, IsKept, MeetsFilters;
    forall item | item in items
      ensures IsShown(lower, answers, filters, item.flight)
    {
      ResultIsExact(lower, answers, filters, sort, item.flight);
    }
  }

  lemma {:induction false} SomebodyFailed<O>(answers: seq<Answer<O>>)
    ensures |Succeeding(answers)| <= |answers|
    ensures |Succeeding(answers)| < |answers| <==> exists i :: 0 <= i < |answers| && answers[i].Failed?
  {
    if answers != [] {
      var prefix, n := answers[..|answers| - 1], |answers| - 1;
      SomebodyFailed(prefix);
      if i :| 0 <= i < |prefix| && prefix[i].Failed? {
        assert answers[i].Failed?;
      }
      if i :| 0 <= i < |answers| && answers[i].Failed? {
        assert i == n || prefix[i].Failed?;
      }
      assert answers[n].Failed? ==> exists i :: 0 <= i < |answers| && answers[i].Failed?;
    }
  }

  /** A degraded search returns exactly what the providers that answered would have given alone, for
      every filter and order, whatever order the providers finished in. */
  lemma DegradedSearchIsExact(lower: string -> string, answers: seq<Answer<NormalizedFlight>>, finished: seq<nat>,
                              filters: FlightFilters, sort: SortKey)
    requires AllFinished(answers, finished)
    ensures Ordered(lower, Results(Gather(answers, finished)), filters, sort)
            == Ordered(lower, Succeeding(answers), filters, sort)
  {
    CompletionOrderIsInvisible(answers, finished);
    FailuresAreAbsent(answers);
  }

  /** Following the cursors from the first page shows every surviving offer exactly once, in order. */
  lemma WalkShowsEverySurvivorOnce(lower: string -> string, lenient: string -> int,
                                   answers: seq<Answer<NormalizedFlight>>,
                                   filters: FlightFilters, sort: SortKey, limits: nat -> Pagination.PageSize)
    ensures
      var ordered := Ordered(lower, answers, filters, sort);
      var shown := Pagination.Flatten(Pagination.Walk(ordered, None, limits, 0, lenient));
      && shown == ordered && StableSort.Sorted(shown, SortValue(sort))
      && multiset(shown) == multiset(Ranked(Surviving(lower, answers, filters)))
      && (forall f :: Lists(shown, f) <==> IsKept(lower, answers, f) && MeetsFilters(lower, filters, f))
  {
    forall f
      ensures Lists(Ordered(lower, answers, filters, sort), f) <==>
              IsKept(lower, answers, f) && MeetsFilters(lower, filters, f)
    {
      ResultIsExact(lower, answers, filters, sort, f);
    }
    Pagination.WalkTilesTheResult(Ordered(lower, answers, filters, sort), limits, lenient);
    StableSort.SortIsStable(Ranked(Surviving(lower, answers, filters)), SortValue(sort));
  }

  lemma {:induction false} FilterAll<O>(offers: seq<O>, p: O -> bool)
    requires forall x :: x in offers ==> p(x)
    ensures Filter(offers, p) == offers
  {
    if offers != [] {
      assert offers[|offers| - 1] in offers;
      assert forall x :: x in offers[..|offers| - 1] ==> x in offers;
      FilterAll(offers[..|offers| - 1], p);
    }
  }

  /** `price` is what the cheapest of these offers costs. */
  ghost predicate IsLowest(price: int, offers: seq<NormalizedFlight>) {
    && (exists x :: x in offers && PriceOf(x) == price)
    && (forall x :: x in offers ==> price <= PriceOf(x))
  }

  /** De-duplication keeps the lowest price. */
  lemma LowestSurvives(lower: string -> string, offers: seq<NormalizedFlight>, price: int)
    requires IsLowest(price, Deduped(offers, KeyOf(lower), PriceOf))
    ensures IsLowest(price, offers)
  {
    var d := Deduped(offers, KeyOf(lower), PriceOf);
    var x :| x in d && PriceOf(x) == price;
    DedupeSelects(offers, KeyOf(lower), PriceOf, x);
    forall z | z in offers
      ensures price <= PriceOf(z)
    {
      var y := CheapestOfKey(offers, KeyOf(lower), PriceOf, z);
    }
  }

  /** In a price-sorted list nothing is cheaper than the first item. */
  lemma FirstIsLowest(fs: seq<NormalizedFlight>)
    requires fs != []
    ensures SortFlights(Ranked(fs), Price) != [] && IsLowest(PriceOf(SortFlights(Ranked(fs), Price)[0].flight), fs)
  {
    hide Exact, Round3;
    var ranked := Ranked(fs);
    var ordered := SortFlights(ranked, Price);
    SortKeepsMembers(ranked, Price);
    hide SortFlights, Ranked;
    var first := ordered[0];
    assert first in ordered;
    var n :| 0 <= n < |fs| && ranked[n] == first;
    assert fs[n] in fs;
    forall z | z in fs
      ensures PriceOf(first.flight) <= PriceOf(z)
    {
      var m :| 0 <= m < |fs| && fs[m] == z;
      assert ranked[m] in ordered;
      var i :| 0 <= i < |ordered| && ordered[i] == ranked[m];
      assert i > 0 ==> SortValue(Price)(ordered[0]) <= SortValue(Price)(ordered[i]);
    }
  }

  lemma NoFiltersKeepAll(lower: string -> string, answers: seq<Answer<NormalizedFlight>>)
    ensures Surviving(lower, answers, NO_FILTERS) == Deduped(Merge(answers), KeyOf(lower), PriceOf)
  {
    hide Deduped, Merge;
    FilterAll(Deduped(Merge(answers), KeyOf(lower), PriceOf), Accepts(lower, NO_FILTERS));
  }

  lemma OfferMeansSurvivor(lower: string -> string, offers: seq<NormalizedFlight>)
    ensures Deduped(offers, KeyOf(lower), PriceOf) == [] <==> offers == []
  {
    if offers != [] {
      assert offers[0] in offers;
      var y := CheapestOfKey(offers, KeyOf(lower), PriceOf, offers[0]);
    }
  }

  /** `price` is what the cheapest offer of any answering provider costs. */
  ghost predicate IsLowestFare(price: int, answers: seq<Answer<NormalizedFlight>>) {
    && (exists x :: Offered(answers, x) && PriceOf(x) == price)
    && (forall x :: Offered(answers, x) ==> price <= PriceOf(x))
  }

  lemma LowestOfMerged(price: int, answers: seq<Answer<NormalizedFlight>>)
    requires IsLowest(price, Merge(answers))
    ensures IsLowestFare(price, answers)
  {
    MergeMembers(answers);
    hide Offered, Merge;
    var x :| x in Merge(answers) && PriceOf(x) == price;
    assert Offered(answers, x);
  }

  /** The price-sorted page of one that the price monitor asks for holds the lowest price over all raw
      offers of all providers that answered, and is empty only when none of them offers anything. */
  lemma FirstByPriceIsLowest(lower: string -> string, lenient: string -> int, answers: seq<Answer<NormalizedFlight>>)
    ensures
      var page := Pagination.PageOf(Ordered(lower, answers, NO_FILTERS, Price), 1, None, lenient);
      && (page.items == [] <==> forall x :: !Offered(answers, x))
      && (page.items != [] ==> IsLowestFare(PriceOf(page.items[0].flight), answers))
  {
    var merged := Merge(answers);
    var d := Deduped(merged, KeyOf(lower), PriceOf);
    NoFiltersKeepAll(lower, answers);
    OfferMeansSurvivor(lower, merged);
    SortKeepsMembers(Ranked(d), Price);
    MergeMembers(answers);
    hide Deduped, SortFlights, Ranked, IsLowest, IsLowestFare, Merge, Offered;
    if d != [] {
      var price := PriceOf(SortFlights(Ranked(d), Price)[0].flight);
      FirstIsLowest(d);
      LowestSurvives(lower, merged, price);
      LowestOfMerged(price, answers);
      assert Offered(answers, merged[0]);
    }
  }
}
