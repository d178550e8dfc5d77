/** The listings page: a fixed sample of listings, narrowed by a search
    on name or address, a property type and a price band, then ordered by
    the chosen sort; and the summary figures of the sample. */
module Listings {
  import opened Wrappers
  import opened Entities
  import Lists
  import Text
  import Money

  datatype Listing = Listing(
    id: string,
    name: string,
    address: string,
    monthlyRate: real,
    status: string,
    kind: string,
    bedrooms: int,
    bathrooms: int,
    area: int,
    rating: Option<real>)

  const SampleListings: seq<Listing> := [
    Listing("1", "Luxury Downtown Apartment", "123 Main St, City Center", 2500.0, "available", "apartment", 2, 2, 1200, Some(4.8)),
    Listing("2", "Seaside Villa", "456 Beach Road, Coastal District", 3500.0, "available", "villa", 4, 3, 2500, Some(4.9)),
    Listing("3", "Modern Studio Loft", "789 Urban Ave, Downtown", 1800.0, "available", "studio", 1, 1, 800, Some(4.7))
  ]

  /** The price drop-down. */
  datatype PriceBand = AnyPrice | Low | Medium | High

  /** low: up to 2000; medium: above 2000 up to 3000; high: above 3000. */
  predicate InBand(rate: real, band: PriceBand) {
    match band
    case AnyPrice => true
    case Low => rate <= 2000.0
    case Medium => rate > 2000.0 && rate <= 3000.0
    case High => rate > 3000.0
  }

  /** Every rate lies in exactly one of the three bands. */
  lemma BandsPartition(rate: real)
    ensures InBand(rate, Low) || InBand(rate, Medium) || InBand(rate, High)
    ensures !(InBand(rate, Low) && InBand(rate, Medium))
    ensures !(InBand(rate, Low) && InBand(rate, High))
    ensures !(InBand(rate, Medium) && InBand(rate, High))
  {
  }

  datatype Filters = Filters(search: string, kind: Choice<string>, band: PriceBand)

  /** Name or address search (case-insensitive), type and price band. */
  predicate Matches(l: Listing, f: Filters) {
    (Text.MatchesSearch(l.name, f.search) || Text.MatchesSearch(l.address, f.search))
    && f.kind.Admits(l.kind) && InBand(l.monthlyRate, f.band)
  }

  function MatchQuery(f: Filters): Listing -> bool {
    (l: Listing) => Matches(l, f)
  }

  /** The sort drop-down; any value other than the three named ones
      compares every pair as equal. */
  datatype SortOrder = PriceAsc | PriceDesc | ByRating | Newest

  /** The comparator as a key: a stable sort on `a - b` is a stable sort
      by increasing key. */
  function SortKey(order: SortOrder): Listing -> real {
    match order
    case PriceAsc => (l: Listing) => l.monthlyRate
    case PriceDesc => (l: Listing) => -l.monthlyRate
    case ByRating => (l: Listing) => -l.rating.GetOr(0.0)
    case Newest => (l: Listing) => 0.0
  }

  /** Puts `x` before the first element whose key is not smaller. */
  function Insert(x: Listing, ys: seq<Listing>, key: Listing -> real): seq<Listing> {
    if ys == [] || key(x) <= key(ys[0]) then [x] + ys
    else [ys[0]] + Insert(x, ys[1..], key)
  }

  /** A stable sort by increasing key, as `Array.prototype.sort` with a
      consistent comparator. */
  function SortBy(xs: seq<Listing>, key: Listing -> real): seq<Listing> {
    if xs == [] then [] else Insert(xs[0], SortBy(xs[1..], key), key)
  }

  predicate SortedBy(xs: seq<Listing>, key: Listing -> real) {
    forall i, j :: 0 <= i < j < |xs| ==> key(xs[i]) <= key(xs[j])
  }

  /** A bound below `x` and every element of `ys` is below every
      element after the insertion. */
  lemma {:induction false} InsertKeepsBound(x: Listing, ys: seq<Listing>, key: Listing -> real, bound: real)
    requires bound <= key(x) && forall i :: 0 <= i < |ys| ==> bound <= key(ys[i])
    ensures forall i :: 0 <= i < |Insert(x, ys, key)| ==> bound <= key(Insert(x, ys, key)[i])
    decreases |ys|
  {
    if ys != [] && key(ys[0]) < key(x) {
      InsertKeepsBound(x, ys[1..], key, bound);
      var r := Insert(x, ys, key);
      forall i | 0 <= i < |r|
        ensures bound <= key(r[i])
      {
        if i > 0 {
          assert r[i] == Insert(x, ys[1..], key)[i - 1];
        }
      }
    }
  }

  /** Inserting into a sorted list keeps it sorted. */
  lemma {:induction false} InsertSorted(x: Listing, ys: seq<Listing>, key: Listing -> real)
    requires SortedBy(ys, key)
    ensures SortedBy(Insert(x, ys, key), key)
    decreases |ys|
  {
    var r := Insert(x, ys, key);
    if ys == [] || key(x) <= key(ys[0]) {
      forall i, j | 0 <= i < j < |r|
        ensures key(r[i]) <= key(r[j])
      {
        assert r[j] == ys[j - 1];
        if i > 0 {
          assert r[i] == ys[i - 1];
        } else {
          assert key(ys[0]) <= key(ys[j - 1]);
        }
      }
    } else {
      var rest := Insert(x, ys[1..], key);
      assert SortedBy(ys[1..], key) by {
        forall i, j | 0 <= i < j < |ys[1..]|
          ensures key(ys[1..][i]) <= key(ys[1..][j])
        {
          assert ys[1..][i] == ys[i + 1] && ys[1..][j] == ys[j + 1];
        }
      }
      InsertSorted(x, ys[1..], key);
      forall i | 0 <= i < |ys[1..]|
        ensures key(ys[0]) <= key(ys[1..][i])
      {
        assert ys[1..][i] == ys[i + 1];
      }
      InsertKeepsBound(x, ys[1..], key, key(ys[0]));
      forall i, j | 0 <= i < j < |r|
        ensures key(r[i]) <= key(r[j])
      {
        assert r[j] == rest[j - 1];
        if i > 0 {
          assert r[i] == rest[i - 1];
        }
      }
    }
  }

  /** Inserting adds `x` and keeps every other listing. */
  lemma {:induction false} InsertPermutes(x: Listing, ys: seq<Listing>, key: Listing -> real)
    ensures multiset(Insert(x, ys, key)) == multiset([x] + ys)
    decreases |ys|
  {
    if ys != [] && key(ys[0]) < key(x) {
      InsertPermutes(x, ys[1..], key);
      assert ys == [ys[0]] + ys[1..];
    }
  }

  /** The sorted list is ordered by key and holds the same listings. */
  lemma {:induction false} SortBySorted(xs: seq<Listing>, key: Listing -> real)
    ensures SortedBy(SortBy(xs, key), key)
    ensures multiset(SortBy(xs, key)) == multiset(xs)
    decreases |xs|
  {
    if xs != [] {
      SortBySorted(xs[1..], key);
      InsertSorted(xs[0], SortBy(xs[1..], key), key);
      InsertPermutes(xs[0], SortBy(xs[1..], key), key);
      assert xs == [xs[0]] + xs[1..];
    }
  }

  /** With every key equal the sort keeps the order it was given. */
  lemma {:induction false} EqualKeysKeepOrder(xs: seq<Listing>, key: Listing -> real)
    requires forall l :: key(l) == 0.0
    ensures SortBy(xs, key) == xs
    decreases |xs|
  {
    if xs != [] {
      EqualKeysKeepOrder(xs[1..], key);
      assert xs == [xs[0]] + xs[1..];
    }
  }

  /** `filterListings()`. */
  function Shown(listings: seq<Listing>, f: Filters, order: SortOrder): seq<Listing> {
    SortBy(Lists.Filter(listings, MatchQuery(f)), SortKey(order))
  }

  /** The page shows exactly the matching listings, each as often as it
      occurs: by increasing rate for 'price-asc', decreasing rate for
      'price-desc', decreasing rating (missing as 0) for 'rating', and in
      sample order for 'newest'. */
  lemma ShownOrder(listings: seq<Listing>, f: Filters, order: SortOrder)
    ensures multiset(Shown(listings, f, order)) == multiset(Lists.Filter(listings, MatchQuery(f)))
    ensures forall l :: l in Shown(listings, f, order) <==> l in listings && Matches(l, f)
    ensures var r := Shown(listings, f, order);
      && (order == PriceAsc ==> forall i, j :: 0 <= i < j < |r| ==> r[i].monthlyRate <= r[j].monthlyRate)
      && (order == PriceDesc ==> forall i, j :: 0 <= i < j < |r| ==> r[i].monthlyRate >= r[j].monthlyRate)
      && (order == ByRating ==> forall i, j :: 0 <= i < j < |r| ==> r[i].rating.GetOr(0.0) >= r[j].rating.GetOr(0.0))
      && (order == Newest ==> r == Lists.Filter(listings, MatchQuery(f)))
  {
    var kept := Lists.Filter(listings, MatchQuery(f));
    var key := SortKey(order);
    assert forall l :: MatchQuery(f)(l) == Matches(l, f);
    SortBySorted(kept, key);
    var r := SortBy(kept, key);
    forall l
      ensures l in r <==> l in kept
    {
      assert l in r <==> l in multiset(r);
      assert l in kept <==> l in multiset(kept);
    }
    if order == Newest {
      EqualKeysKeepOrder(kept, key);
    }
  }

  /** An empty search with every drop-down on 'all' keeps the whole
      sample, and 'newest' leaves it in sample order. */
  lemma NoFilterShowsAll(listings: seq<Listing>)
    ensures Shown(listings, Filters("", All, AnyPrice), Newest) == listings
  {
    var f := Filters("", All, AnyPrice);
    forall i | 0 <= i < |listings|
      ensures MatchQuery(f)(listings[i])
    {
      Text.EmptySearchMatches(listings[i].name);
    }
    Lists.FilterKeepsAll(listings, MatchQuery(f));
    EqualKeysKeepOrder(listings, SortKey(Newest));
  }

  /** `listings.reduce((acc, curr) => acc + curr.monthlyRate, 0)`. */
  function TotalRevenue(listings: seq<Listing>): real {
    if listings == [] then 0.0 else TotalRevenue(listings[..|listings| - 1]) + listings[|listings| - 1].monthlyRate
  }

  /** `Math.round(total / count)`; `None` for the `NaN` of an empty list. */
  function AverageRate(listings: seq<Listing>): Option<int> {
    if listings == [] then None else Some(Money.Round(TotalRevenue(listings) / |listings| as real))
  }

  datatype Stats = Stats(totalListings: int, averageRate: Option<int>, occupancyRate: int, totalRevenue: real)

  function SampleStats(): Stats {
    Stats(|SampleListings|, AverageRate(SampleListings), 85, TotalRevenue(SampleListings))
  }

  /** The sample's figures: three listings, 7800 in total, 2600 on average. */
  lemma SampleStatsValues()
    ensures SampleStats() == Stats(3, Some(2600), 85, 7800.0)
  {
    var s := SampleListings;
    assert s[..2][..1] == [s[0]];
    assert s[..2] == s[..3][..2];
    assert TotalRevenue(s[..1]) == 2500.0;
    assert TotalRevenue(s[..2]) == 6000.0;
    assert s[..3] == s;
    assert TotalRevenue(s) == 7800.0;
    Money.RoundUnique(7800.0 / 3.0, 2600);
  }
}
