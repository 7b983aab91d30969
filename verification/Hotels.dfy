/**
 Hotel search (app/services/hotel_aggregation.py) as a second instance of the theory of
 de-duplication and ranking.  Merging, sorting and paging are those of `FanOuts`, `StableSort` and
 `Pagination`.
 */
module Hotels {

  import opened Wrappers
  import opened Dedupe
  import opened Ranking
  import opened Aggregation

  type Rating = r: real | 0.0 <= r <= 5.0

  datatype NormalizedHotel = NormalizedHotel(
    id: string, provider: string, name: string, city: string, rating: Rating, reviewsCount: nat,
    pricePerNight: Money, amenities: set<string>)

  datatype HotelKey = HotelKey(name: string, city: string)

  function HotelKeyOf(lower: string -> string): NormalizedHotel -> HotelKey {
    (h: NormalizedHotel) => HotelKey(lower(h.name), lower(h.city))
  }

  function NightlyPrice(h: NormalizedHotel): int { h.pricePerNight.amountMinor }

  datatype HotelFilters = HotelFilters(maxPriceMinor: Option<int>, minRating: Option<real>, amenities: set<string>)

  predicate MatchesHotel(filters: HotelFilters, h: NormalizedHotel) {
    if filters.minRating.Some? && h.rating < filters.minRating.value then false
    else if filters.maxPriceMinor.Some? && h.pricePerNight.amountMinor > filters.maxPriceMinor.value then false
    else filters.amenities <= h.amenities
  }

  function AcceptsHotel(filters: HotelFilters): NormalizedHotel -> bool {
    (h: NormalizedHotel) => MatchesHotel(filters, h)
  }

  /** Some hotel with this rating and these amenities. */
  function Hotel(rating: Rating, amenities: set<string>): NormalizedHotel {
    NormalizedHotel("", "", "", "", rating, 0, Money(0, "EUR"), amenities)
  }

  /** No hotel meets a rating above five or a negative cap, and every other demand is met by some. */
  lemma NothingMatchesIff(filters: HotelFilters)
    ensures (forall h :: !MatchesHotel(filters, h)) <==>
            || (filters.minRating.Some? && filters.minRating.value > 5.0)
            || (filters.maxPriceMinor.Some? && filters.maxPriceMinor.value < 0)
  {
    if !(filters.minRating.Some? && filters.minRating.value > 5.0)
       && !(filters.maxPriceMinor.Some? && filters.maxPriceMinor.value < 0) {
      assert MatchesHotel(filters, Hotel(5.0, filters.amenities));
    }
  }

  /** Hotel filters may move in front of de-duplication exactly when they demand neither a rating nor
      an amenity, which are not part of the key, or let nothing through anyway. */
  lemma HotelFiltersCommute(lower: string -> string, filters: HotelFilters)
    ensures Interchangeable(HotelKeyOf(lower), NightlyPrice, AcceptsHotel(filters)) <==>
            || ((filters.minRating.None? || filters.minRating.value <= 0.0) && filters.amenities == {})
            || (filters.minRating.Some? && filters.minRating.value > 5.0)
            || (filters.maxPriceMinor.Some? && filters.maxPriceMinor.value < 0)
  {
    NothingMatchesIff(filters);
    var key, p := HotelKeyOf(lower), AcceptsHotel(filters);
    FilterCommutesIffMonotone(key, NightlyPrice, p);
    if exists h :: MatchesHotel(filters, h) {
      var h :| MatchesHotel(filters, h);
      var g := h.(rating := 0.0, amenities := {});
      assert key(g) == key(h) && NightlyPrice(g) == NightlyPrice(h) && p(h);
      if filters.amenities != {} {
        var a :| a in filters.amenities;
        assert !p(g);
      }
    }
  }

  /** Two entries for one hotel at one price, the first rated lower: asked for a rating of four, filtering
      last finds nothing and filtering first finds the second. */
  lemma RatingsTellTheOrdersApart(lower: string -> string)
    ensures
      var offers, good := [Hotel(3.0, {}), Hotel(5.0, {})], AcceptsHotel(HotelFilters(None, Some(4.0), {}));
      && Filter(Deduped(offers, HotelKeyOf(lower), NightlyPrice), good) == []
      && Deduped(Filter(offers, good), HotelKeyOf(lower), NightlyPrice) == [Hotel(5.0, {})]
  {
    var p, key, good := NightlyPrice, HotelKeyOf(lower), AcceptsHotel(HotelFilters(None, Some(4.0), {}));
    var g, h := Hotel(3.0, {}), Hotel(5.0, {});
    assert [g, h][..1] == [g];
    DedupedSmall(key, p, g, h);
    DedupedSmall(key, p, h, g);
    UpsertAt([g], key, p, h, 0);
    assert Filter([g], good) == [];
  }

  function NightlyPrices(hs: seq<NormalizedHotel>): (s: seq<int>)
    ensures |s| == |hs| && forall i :: 0 <= i < |hs| ==> s[i] == hs[i].pricePerNight.amountMinor
  {
    seq(|hs|, i requires 0 <= i < |hs| => hs[i].pricePerNight.amountMinor)
  }

  function ExactHotelScore(h: NormalizedHotel, minPrice: int, maxPrice: int): real {
    0.6 * (h.rating / 5.0) + 0.4 * (1.0 - Norm(h.pricePerNight.amountMinor, minPrice, maxPrice))
  }

  function HotelScore(hs: seq<NormalizedHotel>, h: NormalizedHotel): real
    requires hs != []
  {
    Round3(ExactHotelScore(h, MinOf(NightlyPrices(hs)), MaxOf(NightlyPrices(hs))))
  }

  datatype RankedHotel = RankedHotel(hotel: NormalizedHotel, score: real)

  method RankHotels(hs: seq<NormalizedHotel>) returns (ranked: seq<RankedHotel>)
    ensures |ranked| == |hs|
    ensures forall i :: 0 <= i < |hs| ==> ranked[i] == RankedHotel(hs[i], HotelScore(hs, hs[i]))
  {
    ranked := [];
    if hs == [] {
      return;
    }
    var prices := NightlyPrices(hs);
    var minPrice, maxPrice := MinOf(prices), MaxOf(prices);
    for n := 0 to |hs|
      invariant |ranked| == n
      invariant forall i :: 0 <= i < n ==> ranked[i] == RankedHotel(hs[i], HotelScore(hs, hs[i]))
    {
      ranked := ranked + [RankedHotel(hs[n], Round3(ExactHotelScore(hs[n], minPrice, maxPrice)))];
    }
  }

  /** What the score is made of: the best rating at the lowest price scores one; a worse rating costs six
      tenths of the missing share of five, a higher price four tenths of the share of the price span. */
  lemma HotelScoreIsWeighted(hs: seq<NormalizedHotel>, g: NormalizedHotel, h: NormalizedHotel)
    requires hs != []
    ensures
      var lo, hi := MinOf(NightlyPrices(hs)), MaxOf(NightlyPrices(hs));
      var difference := ExactHotelScore(g, lo, hi) - ExactHotelScore(h, lo, hi);
      && (g.rating == 5.0 && NightlyPrice(g) == lo ==> ExactHotelScore(g, lo, hi) == 1.0)
      && (NightlyPrice(g) == NightlyPrice(h) ==> difference == 0.6 * (g.rating - h.rating) / 5.0)
      && (g.rating == h.rating && lo < hi ==>
            difference == 0.4 * Part(NightlyPrice(h) - NightlyPrice(g), hi - lo))
  {
    var lo, hi := MinOf(NightlyPrices(hs)), MaxOf(NightlyPrices(hs));
    NormDifference(NightlyPrice(g), NightlyPrice(h), lo, hi);
    hide MinOf, MaxOf, Norm, Part;
  }

  /** The same hotel: name and city agree but for case. */
  ghost predicate SameHotel(lower: string -> string, g: NormalizedHotel, h: NormalizedHotel) {
    lower(g.name) == lower(h.name) && lower(g.city) == lower(h.city)
  }

  /** What is left of the merged entries after de-duplicating and filtering: of every hotel the cheapest
      entry, among equally cheap ones the first, provided it meets the rating, the cap and every amenity. */
  lemma HotelsLeft(lower: string -> string, offers: seq<NormalizedHotel>, filters: HotelFilters, h: NormalizedHotel)
    ensures h in Filter(Deduped(offers, HotelKeyOf(lower), NightlyPrice), AcceptsHotel(filters)) <==>
            && (exists n :: 0 <= n < |offers| && offers[n] == h
                  && forall m :: 0 <= m < |offers| && SameHotel(lower, offers[m], h) ==>
                       && NightlyPrice(h) <= NightlyPrice(offers[m])
                       && (m < n ==> NightlyPrice(h) < NightlyPrice(offers[m])))
            && (filters.minRating.Some? ==> h.rating >= filters.minRating.value)
            && (filters.maxPriceMinor.Some? ==> h.pricePerNight.amountMinor <= filters.maxPriceMinor.value)
            && (forall amenity :: amenity in filters.amenities ==> amenity in h.amenities)
  {
    var key := HotelKeyOf(lower);
    SurvivesIff(offers, key, NightlyPrice, AcceptsHotel(filters), h);
    if Represents(h, offers, key, NightlyPrice) {
      var n :| BestAt(offers, key, NightlyPrice, n) && offers[n] == h;
      assert forall m :: 0 <= m < |offers| ==> (SameHotel(lower, offers[m], h) <==> key(offers[m]) == key(offers[n]));
    }
    if n :| 0 <= n < |offers| && offers[n] == h
            && forall m :: 0 <= m < |offers| && SameHotel(lower, offers[m], h) ==>
                 && NightlyPrice(h) <= NightlyPrice(offers[m])
                 && (m < n ==> NightlyPrice(h) < NightlyPrice(offers[m])) {
      assert forall m :: 0 <= m < |offers| ==> (SameHotel(lower, offers[m], h) <==> key(offers[m]) == key(offers[n]));
      assert BestAt(offers, key, NightlyPrice, n);
    }
  }

  /** Hotel scores are fractions, and a hotel no dearer and no worse rated never scores lower. */
  lemma HotelScoresAreSound(hs: seq<NormalizedHotel>, g: NormalizedHotel, h: NormalizedHotel)
    requires g in hs && h in hs
    ensures 0.0 <= HotelScore(hs, g) <= 1.0
    ensures
      var exact := ExactHotelScore(g, MinOf(NightlyPrices(hs)), MaxOf(NightlyPrices(hs)));
      && -0.0005 <= HotelScore(hs, g) - exact <= 0.0005
      && (1000.0 * HotelScore(hs, g)).Floor as real == 1000.0 * HotelScore(hs, g)
    ensures g.rating >= h.rating && NightlyPrice(g) <= NightlyPrice(h) ==> HotelScore(hs, g) >= HotelScore(hs, h)
  {
    var prices := NightlyPrices(hs);
    var lo, hi := MinOf(prices), MaxOf(prices);
    var i :| 0 <= i < |hs| && hs[i] == g;
    assert lo <= prices[i] <= hi;
    NormIsAFraction(NightlyPrice(g), lo, hi);
    RoundingKeepsFractions(ExactHotelScore(g, lo, hi));
    RoundingIsNearest(ExactHotelScore(g, lo, hi));
    if g.rating >= h.rating && NightlyPrice(g) <= NightlyPrice(h) {
      NormIsMonotone(NightlyPrice(g), NightlyPrice(h), lo, hi);
      RoundingIsMonotone(ExactHotelScore(h, lo, hi), ExactHotelScore(g, lo, hi));
    }
  }
}
