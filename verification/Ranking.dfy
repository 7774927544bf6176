// What the fusion pipelines of pkg/search/enhance share: search results, per-engine
// buckets, and sort.SliceStable by descending score. Scores are reals.
module Ranking {
  datatype SearchResult = SearchResult(
    url: string, doi: string, title: string, content: string, date: string, structured: bool,
    citedBy: int, journal: string, pdf: string, score: real, engines: seq<string>)

  datatype Bucket = Bucket(name: string, weight: real, results: seq<SearchResult>)

  const RRF_K := 60.0

  // The RRF contribution of a result at this rank of this bucket.
  function Mass(b: Bucket, rank: nat): real {
    (if b.weight <= 0.0 then 1.0 else b.weight) * (1.0 / (RRF_K + rank as real))
  }

  // A bucket entry with its engine, its rank and its RRF mass.
  datatype Item = Item(engine: string, rank: nat, mass: real, res: SearchResult)

  // The entries in the order the fusion loops visit them.
  function ItemsOf(b: Bucket, n: nat): seq<Item>
    requires n <= |b.results|
  {
    seq(n, rank requires 0 <= rank < n => Item(b.name, rank, Mass(b, rank), b.results[rank]))
  }

  function Items(buckets: seq<Bucket>): seq<Item> {
    if buckets == [] then []
    else Items(buckets[..|buckets| - 1]) + ItemsOf(buckets[|buckets| - 1], |buckets[|buckets| - 1].results|)
  }

  lemma ItemsOfSnoc(b: Bucket, rank: nat)
    requires rank < |b.results|
    ensures ItemsOf(b, rank + 1) == ItemsOf(b, rank) + [Item(b.name, rank, Mass(b, rank), b.results[rank])]
  {
  }

  lemma ItemsSnoc(buckets: seq<Bucket>, n: nat)
    requires n < |buckets|
    ensures Items(buckets[..n + 1]) == Items(buckets[..n]) + ItemsOf(buckets[n], |buckets[n].results|)
  {
    assert buckets[..n + 1][..n] == buckets[..n];
  }

  lemma {:induction false} ItemsPrefix(buckets: seq<Bucket>, n: nat)
    requires n <= |buckets|
    ensures Items(buckets[..n]) <= Items(buckets)
  {
    if n == |buckets| {
      assert buckets[..n] == buckets;
    } else {
      ItemsPrefix(buckets[..|buckets| - 1], n);
      assert buckets[..|buckets| - 1][..n] == buckets[..n];
    }
  }

  lemma MassIsPositive(b: Bucket, rank: nat)
    ensures Mass(b, rank) >= 0.0
  {
    assert 1.0 / (RRF_K + rank as real) >= 0.0;
  }

  // No entry of the buckets weighs less than low.
  predicate MassesAtLeast(buckets: seq<Bucket>, low: real) {
    forall b, rank :: 0 <= b < |buckets| && 0 <= rank < |buckets[b].results| ==> Mass(buckets[b], rank) >= low
  }

  lemma MassesArePositive(buckets: seq<Bucket>)
    ensures MassesAtLeast(buckets, 0.0)
  {
    forall b, rank | 0 <= b < |buckets| && 0 <= rank < |buckets[b].results| ensures Mass(buckets[b], rank) >= 0.0 {
      MassIsPositive(buckets[b], rank);
    }
  }

  lemma {:induction false} ItemsWeigh(buckets: seq<Bucket>, low: real)
    requires MassesAtLeast(buckets, low)
    ensures forall i :: 0 <= i < |Items(buckets)| ==> Items(buckets)[i].mass >= low
  {
    if buckets != [] { ItemsWeigh(buckets[..|buckets| - 1], low); }
  }

  // Where the entries of bucket b begin.
  function FirstOf(buckets: seq<Bucket>, b: nat): nat
    requires b < |buckets|
  {
    |Items(buckets[..b])|
  }

  lemma FirstOfIs(buckets: seq<Bucket>, b: nat)
    requires b < |buckets| && buckets[b].results != []
    ensures FirstOf(buckets, b) < |Items(buckets)|
    ensures Items(buckets)[FirstOf(buckets, b)] == Item(buckets[b].name, 0, Mass(buckets[b], 0), buckets[b].results[0])
  {
    ItemsSnoc(buckets, b);
    ItemsPrefix(buckets, b + 1);
    assert ItemsOf(buckets[b], |buckets[b].results|)[0].rank == 0;
  }

  // Where rank r of bucket b stands in reading order.
  lemma PlaceOf(buckets: seq<Bucket>, b: nat, r: nat)
    requires b < |buckets| && r < |buckets[b].results|
    ensures FirstOf(buckets, b) + r < |Items(buckets)|
    ensures Items(buckets)[FirstOf(buckets, b) + r] ==
      Item(buckets[b].name, r, Mass(buckets[b], r), buckets[b].results[r])
  {
    ItemsSnoc(buckets, b);
    ItemsPrefix(buckets, b + 1);
    assert ItemsOf(buckets[b], |buckets[b].results|)[r].rank == r;
  }

  // ---- The RRF sum spelled out ----

  // Over the first n results of bucket number b that are picked: weight (1 when it is not
  // positive) over 60 plus rank.
  function BucketSum(bucket: Bucket, b: nat, n: nat, pick: (nat, nat) -> bool): real {
    if n == 0 then 0.0
    else
      var w := if bucket.weight > 0.0 then bucket.weight else 1.0;
      BucketSum(bucket, b, n - 1, pick) + (if pick(b, n - 1) then w / (60.0 + (n - 1) as real) else 0.0)
  }

  function RrfSum(buckets: seq<Bucket>, pick: (nat, nat) -> bool): real {
    if buckets == [] then 0.0
    else
      var (init, last) := (buckets[..|buckets| - 1], buckets[|buckets| - 1]);
      RrfSum(init, pick) + BucketSum(last, |init|, |last.results|, pick)
  }

  // The mass of the entries that are picked by their place in reading order.
  function ItemSum(items: seq<Item>, want: nat -> bool): real {
    if items == [] then 0.0
    else ItemSum(items[..|items| - 1], want) + (if want(|items| - 1) then items[|items| - 1].mass else 0.0)
  }

  lemma MassIsQuotient(b: Bucket, rank: nat)
    ensures Mass(b, rank) == (if b.weight > 0.0 then b.weight else 1.0) / (60.0 + rank as real)
  {
    var (w, x) := (if b.weight > 0.0 then b.weight else 1.0, 60.0 + rank as real);
    assert w * (1.0 / x) == w / x;
  }

  lemma {:induction false} ItemSumOfBucket(before: seq<Item>, bucket: Bucket, b: nat, n: nat,
        want: nat -> bool, pick: (nat, nat) -> bool)
    requires n <= |bucket.results| && forall r: nat :: r < n ==> want(|before| + r) == pick(b, r)
    ensures ItemSum(before + ItemsOf(bucket, n), want) == ItemSum(before, want) + BucketSum(bucket, b, n, pick)
  {
    if n == 0 {
      assert before + ItemsOf(bucket, 0) == before;
    } else {
      ItemSumOfBucket(before, bucket, b, n - 1, want, pick);
      MassIsQuotient(bucket, n - 1);
      var items := before + ItemsOf(bucket, n);
      assert items[..|items| - 1] == before + ItemsOf(bucket, n - 1);
    }
  }

  // want picks the entries that pick names by bucket and rank.
  ghost predicate SamePick(buckets: seq<Bucket>, want: nat -> bool, pick: (nat, nat) -> bool) {
    forall b: nat, r: nat :: b < |buckets| && r < |buckets[b].results| ==> want(FirstOf(buckets, b) + r) == pick(b, r)
  }

  lemma SamePickInit(buckets: seq<Bucket>, want: nat -> bool, pick: (nat, nat) -> bool)
    requires buckets != [] && SamePick(buckets, want, pick)
    ensures var (init, last) := (buckets[..|buckets| - 1], buckets[|buckets| - 1]);
      && SamePick(init, want, pick)
      && forall r: nat :: r < |last.results| ==> want(|Items(init)| + r) == pick(|init|, r)
  {
    var (init, last) := (buckets[..|buckets| - 1], buckets[|buckets| - 1]);
    forall b: nat, r: nat | b < |init| && r < |init[b].results| ensures want(FirstOf(init, b) + r) == pick(b, r) {
      assert init[..b] == buckets[..b];
      assert want(FirstOf(buckets, b) + r) == pick(b, r);
    }
    forall r: nat | r < |last.results| ensures want(|Items(init)| + r) == pick(|init|, r) {
      assert want(FirstOf(buckets, |init|) + r) == pick(|init|, r);
    }
  }

  lemma {:induction false} ItemSumIsRrfSum(buckets: seq<Bucket>, want: nat -> bool, pick: (nat, nat) -> bool)
    requires SamePick(buckets, want, pick)
    ensures ItemSum(Items(buckets), want) == RrfSum(buckets, pick)
  {
    if buckets != [] {
      var (init, last) := (buckets[..|buckets| - 1], buckets[|buckets| - 1]);
      SamePickInit(buckets, want, pick);
      ItemSumIsRrfSum(init, want, pick);
      ItemSumOfBucket(Items(init), last, |init|, |last.results|, want, pick);
    }
  }

  // core.PreferDate.
  function PreferDate(a: SearchResult, r: SearchResult): SearchResult {
    if r.date == "" then a
    else if r.structured && !a.structured then a.(date := r.date, structured := r.structured)
    else if a.date == "" then a.(date := r.date, structured := r.structured)
    else a
  }

  // What a merged result's date is, given the first date and the first structured date ("" for
  // none) of what went into it.
  predicate HasDate(a: SearchResult, first: string, firstStructured: string) {
    && a.date == (if firstStructured != "" then firstStructured else first)
    && (a.date != "" ==> (a.structured <==> firstStructured != ""))
    && (firstStructured != "" ==> first != "")
  }

  function OrDate(before: string, r: SearchResult): string { if before == "" then r.date else before }

  function OrStructured(before: string, r: SearchResult): string {
    if before == "" && r.structured then r.date else before
  }

  lemma PreferDateKeeps(a: SearchResult, r: SearchResult, first: string, firstStructured: string)
    requires HasDate(a, first, firstStructured)
    ensures HasDate(PreferDate(a, r), OrDate(first, r), OrStructured(firstStructured, r))
  {
  }

  // a is at least as complete as r: longer text, and no title or date r has that a lacks.
  predicate Fuller(a: SearchResult, r: SearchResult) {
    && |a.content| >= |r.content|
    && (r.title != "" ==> a.title != "")
    && (r.date != "" ==> a.date != "" && (r.structured ==> a.structured))
  }

  predicate Sorted(s: seq<SearchResult>) {
    forall i, j :: 0 <= i < j < |s| ==> s[i].score >= s[j].score
  }

  // x goes behind everything that scores at least as much.
  function Insert(x: SearchResult, s: seq<SearchResult>): (r: seq<SearchResult>)
    ensures |r| == |s| + 1
  {
    if s == [] then [x]
    else
      var (init, y) := (s[..|s| - 1], s[|s| - 1]);
      if y.score >= x.score then s + [x] else Insert(x, init) + [y]
  }

  function SortDesc(s: seq<SearchResult>): (r: seq<SearchResult>)
    ensures |r| == |s|
  {
    if s == [] then []
    else Insert(s[|s| - 1], SortDesc(s[..|s| - 1]))
  }

  function WithScore(s: seq<SearchResult>, v: real): seq<SearchResult> {
    if s == [] then []
    else WithScore(s[..|s| - 1], v) + (if s[|s| - 1].score == v then [s[|s| - 1]] else [])
  }

  lemma WithScoreSnoc(s: seq<SearchResult>, x: SearchResult, v: real)
    ensures WithScore(s + [x], v) == WithScore(s, v) + (if x.score == v then [x] else [])
  {
    assert (s + [x])[..|s|] == s;
  }

  lemma {:induction false} InsertSorted(x: SearchResult, s: seq<SearchResult>)
    requires Sorted(s)
    ensures Sorted(Insert(x, s))
    ensures forall r :: r in Insert(x, s) ==> r == x || r in s
  {
    if s != [] {
      var (init, y) := (s[..|s| - 1], s[|s| - 1]);
      InsertSorted(x, init);
      if y.score < x.score {
        forall i | 0 <= i < |s| ensures Insert(x, init)[i].score >= y.score {
          assert Insert(x, init)[i] in Insert(x, init);
        }
      }
    }
  }

  lemma MultisetSnoc(s: seq<SearchResult>)
    requires s != []
    ensures multiset(s) == multiset(s[..|s| - 1]) + multiset{s[|s| - 1]}
  {
    assert s == s[..|s| - 1] + [s[|s| - 1]];
  }

  lemma {:induction false} InsertPermutes(x: SearchResult, s: seq<SearchResult>)
    ensures multiset(Insert(x, s)) == multiset(s) + multiset{x}
  {
    if s != [] {
      InsertPermutes(x, s[..|s| - 1]);
      MultisetSnoc(s);
      if s[|s| - 1].score < x.score {
        assert Insert(x, s)[..|s|] == Insert(x, s[..|s| - 1]);
        MultisetSnoc(Insert(x, s));
      }
    }
  }

  lemma {:induction false} SortPermutes(s: seq<SearchResult>)
    ensures multiset(SortDesc(s)) == multiset(s)
  {
    if s != [] {
      var (init, x) := (s[..|s| - 1], s[|s| - 1]);
      SortPermutes(init);
      InsertPermutes(x, SortDesc(init));
      MultisetSnoc(s);
    }
  }

  lemma {:induction false} InsertStable(x: SearchResult, s: seq<SearchResult>, v: real)
    requires Sorted(s)
    ensures WithScore(Insert(x, s), v) == WithScore(s, v) + (if x.score == v then [x] else [])
  {
    if s == [] {
      WithScoreSnoc([], x, v);
    } else {
      var (init, y) := (s[..|s| - 1], s[|s| - 1]);
      WithScoreSnoc(s, x, v);
      if y.score < x.score {
        InsertStable(x, init, v);
        WithScoreSnoc(init, y, v);
        WithScoreSnoc(Insert(x, init), y, v);
        assert s == init + [y] && Insert(x, s) == Insert(x, init) + [y];
        if x.score == v { assert y.score != v; }
      }
    }
  }

  // The sort orders by score and keeps the order of equal scores.
  lemma {:induction false} SortDescIsStableSort(s: seq<SearchResult>)
    ensures Sorted(SortDesc(s))
    ensures forall v :: WithScore(SortDesc(s), v) == WithScore(s, v)
  {
    if s != [] {
      var (init, x) := (s[..|s| - 1], s[|s| - 1]);
      SortDescIsStableSort(init);
      InsertSorted(x, SortDesc(init));
      forall v ensures WithScore(SortDesc(s), v) == WithScore(s, v) {
        InsertStable(x, SortDesc(init), v);
      }
    }
  }

  lemma {:induction false} SortOfSorted(s: seq<SearchResult>)
    requires Sorted(s)
    ensures SortDesc(s) == s
  {
    if s != [] {
      SortOfSorted(s[..|s| - 1]);
      assert s == s[..|s| - 1] + [s[|s| - 1]];
    }
  }

  // ---- Score floors: Top-1 always passes ----

  predicate Passes(s: seq<SearchResult>, t: real, i: nat)
    requires i < |s|
  {
    i == 0 || s[i].score >= t
  }

  function Passing(s: seq<SearchResult>, t: real, n: nat): seq<SearchResult>
    requires n <= |s|
  {
    if n == 0 then [] else Passing(s, t, n - 1) + (if Passes(s, t, n - 1) then [s[n - 1]] else [])
  }

  // On sorted input the results that pass are a prefix.
  lemma {:induction false} PassingIsPrefix(s: seq<SearchResult>, t: real, n: nat)
    requires n <= |s| && Sorted(s)
    ensures var p := |Passing(s, t, n)|; p <= n && Passing(s, t, n) == s[..p]
    ensures forall i :: 0 <= i < n ==> (Passes(s, t, i) <==> i < |Passing(s, t, n)|)
  {
    if n > 0 {
      PassingIsPrefix(s, t, n - 1);
      var p := |Passing(s, t, n - 1)|;
      if Passes(s, t, n - 1) { assert s[..n - 1] + [s[n - 1]] == s[..n]; }
    }
  }
}
