// Scoring, the score floor with its per-engine guarantee, and the whole academic
// pipeline (pkg/search/enhance/academic_enhance.go).
module AcademicFloor {
  import opened Ranking
  import opened AcademicMerge

  const PDF_BOOST := 0.03

  // CiteFactor, JournalBoost and AcademicRecencyFactor for one query.
  datatype Signals = Signals(cite: int -> real, journal: string -> real, recency: string -> real)

  // A score before the recency factor.
  function Undated(g: Signals, a: Agg): real {
    a.rrf * g.cite(a.res.citedBy) + g.journal(a.res.journal) + (if a.res.pdf != "" then PDF_BOOST else 0.0)
  }

  function Score(g: Signals, a: Agg): real {
    Undated(g, a) * g.recency(a.res.date)
  }

  function Scored(g: Signals, order: seq<Agg>): seq<SearchResult> {
    seq(|order|, i requires 0 <= i < |order| => order[i].res.(score := Score(g, order[i]), engines := order[i].engines))
  }

  function Threshold(t: real): real { if t <= 0.0 then 0.02 else t }

  function AllKeys(k: Normal, rs: seq<SearchResult>): set<Key> {
    if rs == [] then {} else AllKeys(k, rs[..|rs| - 1]) + KeysOf(k, rs[|rs| - 1])
  }

  // The keys of every engine's first result.
  function TopKeys(k: Normal, buckets: seq<Bucket>): set<Key> {
    if buckets == [] then {}
    else
      var b := buckets[|buckets| - 1];
      TopKeys(k, buckets[..|buckets| - 1]) + (if b.results == [] then {} else KeysOf(k, b.results[0]))
  }

  predicate Missing(k: Normal, top: set<Key>, kept: seq<SearchResult>, r: SearchResult) {
    KeysOf(k, r) * top != {} && KeysOf(k, r) * AllKeys(k, kept) == {}
  }

  function Restored(k: Normal, s: seq<SearchResult>, top: set<Key>, kept: seq<SearchResult>, n: nat): seq<SearchResult>
    requires n <= |s|
  {
    if n == 0 then kept
    else
      var before := Restored(k, s, top, kept, n - 1);
      if Missing(k, top, before, s[n - 1]) then before + [s[n - 1]] else before
  }

  function Floor(k: Normal, s: seq<SearchResult>, buckets: seq<Bucket>, threshold: real): seq<SearchResult> {
    SortDesc(Restored(k, s, TopKeys(k, buckets), Passing(s, Threshold(threshold), |s|), |s|))
  }

  // ---- The Go code ----

  lemma AllKeysSnoc(k: Normal, kept: seq<SearchResult>, r: SearchResult)
    ensures AllKeys(k, kept + [r]) == AllKeys(k, kept) + KeysOf(k, r)
  {
    assert (kept + [r])[..|kept|] == kept;
  }

  method KeepPassing(k: Normal, scored: seq<SearchResult>, t: real)
    returns (kept: seq<SearchResult>, keptKeys: set<Key>)
    ensures kept == Passing(scored, t, |scored|) && keptKeys == AllKeys(k, kept)
  {
    kept, keptKeys := [], {};
    for i := 0 to |scored|
      invariant kept == Passing(scored, t, i) && keptKeys == AllKeys(k, kept)
    {
      if i == 0 || scored[i].score >= t {
        AllKeysSnoc(k, kept, scored[i]);
        kept, keptKeys := kept + [scored[i]], keptKeys + KeysOf(k, scored[i]);
      }
    }
  }

  method CollectTopKeys(k: Normal, buckets: seq<Bucket>) returns (topKeys: set<Key>)
    ensures topKeys == TopKeys(k, buckets)
  {
    topKeys := {};
    for b := 0 to |buckets|
      invariant topKeys == TopKeys(k, buckets[..b])
    {
      assert buckets[..b + 1][..b] == buckets[..b];
      if |buckets[b].results| > 0 {
        topKeys := topKeys + KeysOf(k, buckets[b].results[0]);
      }
    }
    assert buckets[..|buckets|] == buckets;
  }

  method ApplyAcademicScoreFloor(k: Normal, scored: seq<SearchResult>, buckets: seq<Bucket>, threshold: real)
      returns (kept: seq<SearchResult>)
    ensures kept == Floor(k, scored, buckets, threshold)
  {
    var t := if threshold <= 0.0 then 0.02 else threshold;
    var passing, keptKeys := KeepPassing(k, scored, t);
    var topKeys := CollectTopKeys(k, buckets);
    kept := passing;
    for i := 0 to |scored|
      invariant kept == Restored(k, scored, topKeys, passing, i) && keptKeys == AllKeys(k, kept)
    {
      if KeysOf(k, scored[i]) * topKeys != {} && KeysOf(k, scored[i]) * keptKeys == {} {
        AllKeysSnoc(k, kept, scored[i]);
        kept, keptKeys := kept + [scored[i]], keptKeys + KeysOf(k, scored[i]);
      }
    }
    if |kept| > 1 {
      kept := SortDesc(kept);
    } else {
      SortOfSorted(kept);
    }
  }

  function Ranked(k: Normal, g: Signals, buckets: seq<Bucket>): seq<SearchResult> {
    SortDesc(Scored(g, MergeAll(k, Items(buckets)).order))
  }

  function Pipeline(k: Normal, g: Signals, buckets: seq<Bucket>, threshold: real, maxSize: int): seq<SearchResult> {
    var out := Floor(k, Ranked(k, g, buckets), buckets, threshold);
    if maxSize > 0 && |out| > maxSize then out[..maxSize] else out
  }

  method EnhanceAcademicResults(k: Normal, g: Signals, buckets: seq<Bucket>, threshold: real, maxSize: int)
      returns (out: seq<SearchResult>)
    ensures out == Pipeline(k, g, buckets, threshold, maxSize)
  {
    var m := MergeBuckets(k, buckets);
    out := SortDesc(Scored(g, m.order));
    out := ApplyAcademicScoreFloor(k, out, buckets, threshold);
    if maxSize > 0 && |out| > maxSize {
      out := out[..maxSize];
    }
  }

  // ---- What the floor keeps ----

  predicate Keeps(k: Normal, s: seq<SearchResult>, t: real, top: set<Key>, i: nat)
    requires i < |s|
  {
    Passes(s, t, i) || KeysOf(k, s[i]) * top != {}
  }

  // Those of the first n results that are Top-1, at or above the threshold, or share a
  // key with some engine's first result; in their order.
  function Chosen(k: Normal, s: seq<SearchResult>, t: real, top: set<Key>, n: nat): seq<SearchResult>
    requires n <= |s|
  {
    if n == 0 then [] else Chosen(k, s, t, top, n - 1) + (if Keeps(k, s, t, top, n - 1) then [s[n - 1]] else [])
  }

  lemma {:induction false} AllKeysMember(k: Normal, rs: seq<SearchResult>, key: Key)
    ensures key in AllKeys(k, rs) <==> exists i :: 0 <= i < |rs| && key in KeysOf(k, rs[i])
  {
    if rs != [] {
      var n := |rs| - 1;
      AllKeysMember(k, rs[..n], key);
      if key in AllKeys(k, rs[..n]) {
        var i :| 0 <= i < n && key in KeysOf(k, rs[..n][i]);
        assert key in KeysOf(k, rs[i]);
      }
      if key in KeysOf(k, rs[n]) { assert key in KeysOf(k, rs[n]); }
      if i :| 0 <= i < |rs| && key in KeysOf(k, rs[i]) {
        if i < n { assert key in KeysOf(k, rs[..n][i]); }
      }
    }
  }

  lemma {:induction false} ChosenAre(k: Normal, s: seq<SearchResult>, t: real, top: set<Key>, n: nat)
    requires n <= |s|
    ensures forall r :: r in Chosen(k, s, t, top, n) ==> r in s[..n]
  {
    if n > 0 {
      ChosenAre(k, s, t, top, n - 1);
      assert s[..n - 1] + [s[n - 1]] == s[..n];
    }
  }

  lemma {:induction false} ChosenSorted(k: Normal, s: seq<SearchResult>, t: real, top: set<Key>, n: nat)
    requires n <= |s| && Sorted(s)
    ensures Sorted(Chosen(k, s, t, top, n))
  {
    if n > 0 {
      ChosenSorted(k, s, t, top, n - 1);
      ChosenAre(k, s, t, top, n - 1);
      var c := Chosen(k, s, t, top, n - 1);
      forall j | 0 <= j < |c| ensures c[j].score >= s[n - 1].score {
        assert c[j] in s[..n - 1];
      }
    }
  }

  // Keys of an earlier choice never cover a later result.
  lemma LaterIsUncovered(k: Normal, s: seq<SearchResult>, t: real, top: set<Key>, n: nat)
    requires n < |s| && DisjointKeys(k, s)
    ensures KeysOf(k, s[n]) * AllKeys(k, Chosen(k, s, t, top, n)) == {}
  {
    var c := Chosen(k, s, t, top, n);
    ChosenAre(k, s, t, top, n);
    forall i | 0 <= i < |c| ensures KeysOf(k, c[i]) !! KeysOf(k, s[n]) {
      assert c[i] in c;
      var j :| 0 <= j < n && s[..n][j] == c[i];
    }
    forall key | key in KeysOf(k, s[n]) ensures key !in AllKeys(k, c) {
      AllKeysMember(k, c, key);
    }
  }

  lemma LaterIsMissing(k: Normal, s: seq<SearchResult>, t: real, top: set<Key>, n: nat)
    requires n < |s| && DisjointKeys(k, s)
    ensures Missing(k, top, Chosen(k, s, t, top, n), s[n]) <==> KeysOf(k, s[n]) * top != {}
  {
    LaterIsUncovered(k, s, t, top, n);
  }

  lemma {:induction false} ChosenPrefix(k: Normal, s: seq<SearchResult>, t: real, top: set<Key>, n: nat)
    requires n <= |s| && forall i :: 0 <= i < n ==> Passes(s, t, i)
    ensures Chosen(k, s, t, top, n) == s[..n]
  {
    if n > 0 {
      ChosenPrefix(k, s, t, top, n - 1);
      assert s[..n - 1] + [s[n - 1]] == s[..n];
    }
  }

  lemma KeptIsCovered(k: Normal, kept: seq<SearchResult>, i: nat)
    requires i < |kept| && KeysOf(k, kept[i]) != {}
    ensures KeysOf(k, kept[i]) * AllKeys(k, kept) != {}
  {
    var key :| key in KeysOf(k, kept[i]);
    AllKeysMember(k, kept, key);
    assert key in KeysOf(k, kept[i]) * AllKeys(k, kept);
  }

  lemma {:induction false} PassingNeedsNoRestore(k: Normal, s: seq<SearchResult>, top: set<Key>,
        kept: seq<SearchResult>, n: nat)
    requires n <= |kept| <= |s| && kept == s[..|kept|] && DisjointKeys(k, s)
    ensures Restored(k, s, top, kept, n) == kept
  {
    if n > 0 {
      PassingNeedsNoRestore(k, s, top, kept, n - 1);
      assert kept[n - 1] == s[n - 1];
      KeptIsCovered(k, kept, n - 1);
    }
  }

  lemma RestoredStep(k: Normal, s: seq<SearchResult>, t: real, top: set<Key>, kept: seq<SearchResult>, n: nat)
    requires 0 < n <= |s| && !Passes(s, t, n - 1)
    requires Restored(k, s, top, kept, n - 1) == Chosen(k, s, t, top, n - 1)
    requires Missing(k, top, Chosen(k, s, t, top, n - 1), s[n - 1]) <==> KeysOf(k, s[n - 1]) * top != {}
    ensures Restored(k, s, top, kept, n) == Chosen(k, s, t, top, n)
  {
  }

  lemma LaterStep(k: Normal, s: seq<SearchResult>, t: real, top: set<Key>, kept: seq<SearchResult>, n: nat)
    requires 0 < n <= |s| && DisjointKeys(k, s) && !Passes(s, t, n - 1)
    requires Restored(k, s, top, kept, n - 1) == Chosen(k, s, t, top, n - 1)
    ensures Restored(k, s, top, kept, n) == Chosen(k, s, t, top, n)
  {
    LaterIsMissing(k, s, t, top, n - 1);
    RestoredStep(k, s, t, top, kept, n);
  }

  lemma {:induction false} RestoredIsChosen(k: Normal, s: seq<SearchResult>, t: real, top: set<Key>,
        kept: seq<SearchResult>, n: nat)
    requires |kept| <= n <= |s| && DisjointKeys(k, s)
    requires Restored(k, s, top, kept, |kept|) == Chosen(k, s, t, top, |kept|)
    requires forall i :: |kept| <= i < n ==> !Passes(s, t, i)
    ensures Restored(k, s, top, kept, n) == Chosen(k, s, t, top, n)
  {
    if |kept| < n {
      RestoredIsChosen(k, s, t, top, kept, n - 1);
      LaterStep(k, s, t, top, kept, n);
    }
  }

  // With pairwise disjoint keys the floor keeps, of its sorted input and in that order,
  // exactly Top-1, what reaches the threshold, and what shares a key with some engine's first result.
  lemma FloorKeepsExactly(k: Normal, s: seq<SearchResult>, buckets: seq<Bucket>, threshold: real)
    requires Sorted(s) && DisjointKeys(k, s)
    ensures var t := if threshold <= 0.0 then 0.02 else threshold;
      Floor(k, s, buckets, threshold) == Chosen(k, s, t, TopKeys(k, buckets), |s|)
  {
    var (t, top) := (Threshold(threshold), TopKeys(k, buckets));
    var kept := Passing(s, t, |s|);
    PassingIsPrefix(s, t, |s|);
    ChosenPrefix(k, s, t, top, |kept|);
    PassingNeedsNoRestore(k, s, top, kept, |kept|);
    RestoredIsChosen(k, s, t, top, kept, |s|);
    ChosenSorted(k, s, t, top, |s|);
    SortOfSorted(Chosen(k, s, t, top, |s|));
  }

  // ---- The pipeline ----

  lemma DisjointSnoc(k: Normal, s: seq<SearchResult>, x: SearchResult)
    requires DisjointKeys(k, s) && KeysOf(k, x) != {}
    requires forall r :: r in s ==> KeysOf(k, r) !! KeysOf(k, x)
    ensures DisjointKeys(k, s + [x])
  {
    forall i | 0 <= i < |s| ensures KeysOf(k, s[i]) !! KeysOf(k, x) {
      assert s[i] in s;
    }
  }

  lemma DisjointInit(k: Normal, s: seq<SearchResult>)
    requires DisjointKeys(k, s) && s != []
    ensures DisjointKeys(k, s[..|s| - 1])
    ensures forall r :: r in s[..|s| - 1] ==> KeysOf(k, r) !! KeysOf(k, s[|s| - 1])
  {
  }

  lemma SamePermutation(s: seq<SearchResult>, t: seq<SearchResult>)
    requires multiset(s) == multiset(t)
    ensures forall r :: r in s <==> r in t
  {
    forall r ensures r in s <==> r in t {
      assert r in s <==> r in multiset(s);
      assert r in t <==> r in multiset(t);
    }
  }

  lemma {:induction false} InsertKeepsDisjoint(k: Normal, x: SearchResult, s: seq<SearchResult>)
    requires DisjointKeys(k, s) && KeysOf(k, x) != {}
    requires forall r :: r in s ==> KeysOf(k, r) !! KeysOf(k, x)
    ensures DisjointKeys(k, Insert(x, s))
  {
    if s == [] {
      DisjointSnoc(k, s, x);
      assert s + [x] == [x];
    } else {
      var (init, y) := (s[..|s| - 1], s[|s| - 1]);
      if y.score >= x.score {
        DisjointSnoc(k, s, x);
      } else {
        DisjointInit(k, s);
        InsertKeepsDisjoint(k, x, init);
        InsertPermutes(x, init);
        SamePermutation(Insert(x, init), init + [x]);
        DisjointSnoc(k, Insert(x, init), y);
      }
    }
  }

  lemma {:induction false} SortKeepsDisjoint(k: Normal, s: seq<SearchResult>)
    requires DisjointKeys(k, s)
    ensures DisjointKeys(k, SortDesc(s))
  {
    if s != [] {
      var (init, x) := (s[..|s| - 1], s[|s| - 1]);
      DisjointInit(k, s);
      SortKeepsDisjoint(k, init);
      SortPermutes(init);
      SamePermutation(SortDesc(init), init);
      InsertKeepsDisjoint(k, x, SortDesc(init));
    }
  }

  // The merge hands the floor what it needs, so the pipeline's answer is exactly that
  // selection of the ranked results, cut to maxSize; it is sorted and has no repeats.
  lemma PipelineIsSelection(k: Normal, g: Signals, buckets: seq<Bucket>, threshold: real, maxSize: int)
    requires NormalOk(k)
    ensures var ranked := Ranked(k, g, buckets);
      && Sorted(ranked) && DisjointKeys(k, ranked)
      && var t := if threshold <= 0.0 then 0.02 else threshold;
         var chosen := Chosen(k, ranked, t, TopKeys(k, buckets), |ranked|);
         && Sorted(chosen)
         && Pipeline(k, g, buckets, threshold, maxSize) ==
              if maxSize > 0 && |chosen| > maxSize then chosen[..maxSize] else chosen
  {
    var order := MergeAll(k, Items(buckets)).order;
    MergedKeysDisjoint(k, Items(buckets));
    assert forall i :: 0 <= i < |order| ==> KeysOf(k, Scored(g, order)[i]) == KeysOf(k, Results(order)[i]);
    SortKeepsDisjoint(k, Scored(g, order));
    SortDescIsStableSort(Scored(g, order));
    var ranked := Ranked(k, g, buckets);
    FloorKeepsExactly(k, ranked, buckets, threshold);
    ChosenSorted(k, ranked, Threshold(threshold), TopKeys(k, buckets), |ranked|);
  }

  // ---- Each engine's first result ----

  lemma {:induction false} ChosenMembers(k: Normal, s: seq<SearchResult>, t: real, top: set<Key>, n: nat,
        r: SearchResult)
    requires n <= |s|
    ensures r in Chosen(k, s, t, top, n) <==> exists p :: 0 <= p < n && s[p] == r && Keeps(k, s, t, top, p)
  {
    if n > 0 {
      ChosenMembers(k, s, t, top, n - 1, r);
    }
  }

  lemma DisjointDistinct(k: Normal, s: seq<SearchResult>, i: nat, j: nat)
    requires DisjointKeys(k, s) && i < |s| && j < |s| && s[i] == s[j]
    ensures i == j
  {
    assert KeysOf(k, s[i]) * KeysOf(k, s[j]) == KeysOf(k, s[i]);
  }

  // A ranked result survives exactly as Top-1, at the threshold, or by a key of its own
  // among those of the engines' first results.
  predicate Survives(k: Normal, ranked: seq<SearchResult>, buckets: seq<Bucket>, threshold: real, r: SearchResult)
    requires ranked != []
  {
    r == ranked[0] || r.score >= Threshold(threshold) || KeysOf(k, r) * TopKeys(k, buckets) != {}
  }

  lemma FloorMembers(k: Normal, s: seq<SearchResult>, buckets: seq<Bucket>, threshold: real, p: nat)
    requires Sorted(s) && DisjointKeys(k, s) && p < |s|
    ensures s[p] in Floor(k, s, buckets, threshold) <==> Survives(k, s, buckets, threshold, s[p])
  {
    var (t, top) := (Threshold(threshold), TopKeys(k, buckets));
    FloorKeepsExactly(k, s, buckets, threshold);
    ChosenMembers(k, s, t, top, |s|, s[p]);
    if s[p] == s[0] { DisjointDistinct(k, s, p, 0); }
    assert Keeps(k, s, t, top, p) <==> Survives(k, s, buckets, threshold, s[p]);
    if q :| 0 <= q < |s| && s[q] == s[p] && Keeps(k, s, t, top, q) { DisjointDistinct(k, s, p, q); }
  }

  // The scored result of the aggregate that took in an engine's first result.
  function FirstResultOf(k: Normal, g: Signals, buckets: seq<Bucket>, b: nat): SearchResult
    requires NormalOk(k) && b < |buckets| && buckets[b].results != [] && Accepts(k, buckets[b].results[0])
  {
    var items := Items(buckets);
    FirstOfIs(buckets, b);
    HomeExists(k, items, FirstOf(buckets, b));
    Scored(g, MergeAll(k, items).order)[HomeAt(k, items, FirstOf(buckets, b))]
  }

  lemma ScoredIsRanked(k: Normal, g: Signals, buckets: seq<Bucket>, i: nat) returns (p: nat)
    requires i < |MergeAll(k, Items(buckets)).order|
    ensures p < |Ranked(k, g, buckets)|
    ensures Ranked(k, g, buckets)[p] == Scored(g, MergeAll(k, Items(buckets)).order)[i]
  {
    var scored := Scored(g, MergeAll(k, Items(buckets)).order);
    SortPermutes(scored);
    SamePermutation(SortDesc(scored), scored);
    assert scored[i] in SortDesc(scored);
    p :| 0 <= p < |SortDesc(scored)| && SortDesc(scored)[p] == scored[i];
  }

  lemma {:induction false} TopKeysHold(k: Normal, buckets: seq<Bucket>, b: nat)
    requires b < |buckets| && buckets[b].results != []
    ensures KeysOf(k, buckets[b].results[0]) <= TopKeys(k, buckets)
  {
    if b < |buckets| - 1 { TopKeysHold(k, buckets[..|buckets| - 1], b); }
  }

  // The top keys are those of the engines' first results, and no others.
  lemma {:induction false} TopKeysAre(k: Normal, buckets: seq<Bucket>, key: Key)
    ensures key in TopKeys(k, buckets) <==>
      exists b :: 0 <= b < |buckets| && buckets[b].results != [] && key in KeysOf(k, buckets[b].results[0])
  {
    if buckets != [] {
      var (init, last) := (buckets[..|buckets| - 1], buckets[|buckets| - 1]);
      TopKeysAre(k, init, key);
      if b :| 0 <= b < |init| && init[b].results != [] && key in KeysOf(k, init[b].results[0]) {
        assert buckets[b].results != [] && key in KeysOf(k, buckets[b].results[0]);
      }
      if last.results != [] && key in KeysOf(k, last.results[0]) {
        assert buckets[|init|].results != [] && key in KeysOf(k, buckets[|init|].results[0]);
      }
    }
  }

  // An engine's first result survives the floor, in the result it was merged into, if and
  // only if that one is Top-1, reaches the threshold, or has a key of its own among the
  // engines' top keys; sharing a key with the first result itself is enough.
  lemma EngineGuarantee(k: Normal, g: Signals, buckets: seq<Bucket>, threshold: real, b: nat)
    requires NormalOk(k) && b < |buckets| && buckets[b].results != [] && Accepts(k, buckets[b].results[0])
    ensures var (ranked, r) := (Ranked(k, g, buckets), FirstResultOf(k, g, buckets, b));
      && ranked != []
      && (r in Floor(k, ranked, buckets, threshold) <==> Survives(k, ranked, buckets, threshold, r))
      && (Shares(k, r, buckets[b].results[0]) ==> r in Floor(k, ranked, buckets, threshold))
  {
    var items := Items(buckets);
    FirstOfIs(buckets, b);
    HomeExists(k, items, FirstOf(buckets, b));
    var p := ScoredIsRanked(k, g, buckets, HomeAt(k, items, FirstOf(buckets, b)));
    PipelineIsSelection(k, g, buckets, threshold, 0);
    FloorMembers(k, Ranked(k, g, buckets), buckets, threshold, p);
    TopKeysHold(k, buckets, b);
  }

  // ---- The score ----

  // The score of a result of this RRF sum: times the citation factor, plus the journal boost and
  // 0.03 for a PDF, times the recency factor.
  predicate IsValue(g: Signals, r: SearchResult, rrf: real, score: real) {
    score == (rrf * g.cite(r.citedBy) + g.journal(r.journal) + (if r.pdf != "" then 0.03 else 0.0)) * g.recency(r.date)
  }

  lemma ScoreIsValue(g: Signals, a: Agg)
    ensures IsValue(g, a.res, a.rrf, Score(g, a))
  {
  }

  // Every aggregate is scored from the buckets and the signals alone, and keeps the rest.
  lemma AggregateScore(k: Normal, g: Signals, buckets: seq<Bucket>, i: nat)
    requires NormalOk(k) && i < |MergeAll(k, Items(buckets)).order|
    ensures var order := MergeAll(k, Items(buckets)).order;
      && |Scored(g, order)| == |order|
      && Scored(g, order)[i] == order[i].res.(score := Scored(g, order)[i].score, engines := order[i].engines)
      && IsValue(g, order[i].res, RrfSum(buckets, WentInto(k, buckets, i)), Scored(g, order)[i].score)
  {
    AggregateIsRrfSum(k, buckets, i);
    ScoreIsValue(g, MergeAll(k, Items(buckets)).order[i]);
  }

  // Every aggregate is ranked once, under that score.
  lemma RankedIsPermutation(k: Normal, g: Signals, buckets: seq<Bucket>)
    ensures multiset(Ranked(k, g, buckets)) == multiset(Scored(g, MergeAll(k, Items(buckets)).order))
    ensures Sorted(Ranked(k, g, buckets))
  {
    SortPermutes(Scored(g, MergeAll(k, Items(buckets)).order));
    SortDescIsStableSort(Scored(g, MergeAll(k, Items(buckets)).order));
  }

  lemma HigherScoreFirst(s: seq<SearchResult>, p: nat, q: nat)
    requires Sorted(s) && p < |s| && q < |s| && s[p].score > s[q].score
    ensures p < q
  {
  }

  lemma FactorsOrder(x: real, c: real, d: real)
    requires x > 0.0 && c > d
    ensures x * c > x * d
  {
    assert x * (c - d) > 0.0;
  }

  lemma ProductsOrder(x: real, y: real, f: real, h: real)
    requires x >= y > 0.0 && f >= h > 0.0 && (x > y || f > h)
    ensures x * f > y * h
  {
    if f > h { FactorsOrder(x, f, h); }
    if x > y { FactorsOrder(h, x, y); }
  }

  // r has some signal over s and none under it.
  predicate Better(g: Signals, r: SearchResult, s: SearchResult) {
    && g.journal(r.journal) >= g.journal(s.journal) >= 0.0 && g.cite(r.citedBy) >= g.cite(s.citedBy) > 0.0
    && (s.pdf != "" ==> r.pdf != "") && g.recency(r.date) >= g.recency(s.date) > 0.0
    && (g.cite(r.citedBy) > g.cite(s.citedBy) || g.journal(r.journal) > g.journal(s.journal)
        || (r.pdf != "" && s.pdf == "") || g.recency(r.date) > g.recency(s.date))
  }

  lemma SumsOrder(m: real, c: real, d: real, a: real, b: real)
    requires m > 0.0 && c >= d > 0.0 && a >= b >= 0.0
    ensures m * c + a >= m * d + b > 0.0
    ensures c > d || a > b ==> m * c + a > m * d + b
  {
    FactorsOrder(m, d, 0.0);
    if c > d { FactorsOrder(m, c, d); }
  }

  lemma BetterScores(g: Signals, r: SearchResult, s: SearchResult, m: real, u: real, v: real)
    requires m > 0.0 && Better(g, r, s) && IsValue(g, r, m, u) && IsValue(g, s, m, v)
    ensures u > v
  {
    var (a, b) := (g.journal(r.journal) + (if r.pdf != "" then 0.03 else 0.0),
                   g.journal(s.journal) + (if s.pdf != "" then 0.03 else 0.0));
    SumsOrder(m, g.cite(r.citedBy), g.cite(s.citedBy), a, b);
    ProductsOrder(m * g.cite(r.citedBy) + a, m * g.cite(s.citedBy) + b, g.recency(r.date), g.recency(s.date));
  }

  // Of two aggregates of equal mass, the one that is better by citations, journal, PDF or
  // recency, and worse by none of them, has the higher score, and so stands before the other.
  lemma BetterSignalScoresHigher(k: Normal, g: Signals, buckets: seq<Bucket>, i: nat, j: nat)
    requires NormalOk(k)
    requires i < |MergeAll(k, Items(buckets)).order| && j < |MergeAll(k, Items(buckets)).order|
    requires RrfSum(buckets, WentInto(k, buckets, i)) == RrfSum(buckets, WentInto(k, buckets, j)) > 0.0
    requires Better(g, MergeAll(k, Items(buckets)).order[i].res, MergeAll(k, Items(buckets)).order[j].res)
    ensures var scored := Scored(g, MergeAll(k, Items(buckets)).order);
      |scored| == |MergeAll(k, Items(buckets)).order| && scored[i].score > scored[j].score
  {
    var order := MergeAll(k, Items(buckets)).order;
    AggregateScore(k, g, buckets, i);
    AggregateScore(k, g, buckets, j);
    BetterScores(g, order[i].res, order[j].res, RrfSum(buckets, WentInto(k, buckets, i)),
                 Scored(g, order)[i].score, Scored(g, order)[j].score);
  }

  lemma BetterSignalRanksHigher(k: Normal, g: Signals, buckets: seq<Bucket>, r: SearchResult, s: SearchResult,
        p: nat, q: nat)
    requires p < |Ranked(k, g, buckets)| && q < |Ranked(k, g, buckets)| && r.score > s.score
    requires Ranked(k, g, buckets)[p] == r && Ranked(k, g, buckets)[q] == s
    ensures p < q
  {
    RankedIsPermutation(k, g, buckets);
    HigherScoreFirst(Ranked(k, g, buckets), p, q);
  }

  // ---- When the guarantee holds ----

  // The ranges of CiteFactor, JournalBoost and AcademicRecencyFactor.
  ghost predicate InRange(g: Signals) {
    && (forall n :: 1.0 <= g.cite(n) <= 1.7 && (n <= 0 ==> g.cite(n) == 1.0))
    && (forall s :: 0.0 <= g.journal(s) <= 0.08) && g.journal("") == 0.0
    && (forall s :: g.recency(s) in {1.0, 1.03, 1.08, 1.15}) && g.recency("") == 1.0
  }

  lemma FactorRaises(x: real, f: real)
    requires x >= 0.0 && f >= 1.0
    ensures x * f >= x
  {
  }

  // The signals only ever raise a score above the rank mass and the journal boost.
  lemma ScoreAtLeastMass(g: Signals, a: Agg)
    requires InRange(g) && a.rrf >= 0.0
    ensures Score(g, a) >= a.rrf + g.journal(a.res.journal)
  {
    FactorRaises(a.rrf, g.cite(a.res.citedBy));
    assert g.journal(a.res.journal) >= 0.0;
    assert Undated(g, a) >= a.rrf + g.journal(a.res.journal);
    assert g.recency(a.res.date) >= 1.0;
    FactorRaises(Undated(g, a), g.recency(a.res.date));
  }

  lemma MassOverThree(items: seq<Item>, x: nat, y: nat, z: nat)
    requires x < |items| && y < |items| && z < |items|
    ensures MassOver(items, [x, y, z]) == items[x].mass + items[y].mass + items[z].mass
  {
    assert [x, y, z][..2] == [x, y] && [x, y][..1] == [x] && [x][..0] == [];
    assert MassOver(items, [x]) == items[x].mass;
    assert MassOver(items, [x, y]) == items[x].mass + items[y].mass;
  }

  // With the two entries that a stranger to the result needs.
  lemma StrangerWeighs(k: Normal, items: seq<Item>, j: nat, low: real)
    requires NormalOk(k) && low >= 0.0 && forall i :: 0 <= i < |items| ==> items[i].mass >= low
    requires j < |items| && Accepts(k, items[j].res) && HomeAt(k, items, j) < |MergeAll(k, items).order|
    requires !Shares(k, MergeAll(k, items).order[HomeAt(k, items, j)].res, items[j].res)
    ensures MassAt(k, items, HomeAt(k, items, j)) >= items[j].mass + 2.0 * low
  {
    var c, e := StrangerIsThird(k, items, j);
    assert Joined(k, items, j, HomeAt(k, items, j));
    MassAtLeast(k, items, HomeAt(k, items, j), [c, e, j]);
    MassOverThree(items, c, e, j);
  }

  lemma AggregateMass(k: Normal, items: seq<Item>, i: nat)
    requires NormalOk(k) && i < |MergeAll(k, items).order|
    ensures MergeAll(k, items).order[i].rrf == MassAt(k, items, i)
  {
    AggregatesHold(k, items);
    assert Holds(k, items, i, MergeAll(k, items).order[i]);
  }

  lemma FirstResultWeighs(k: Normal, buckets: seq<Bucket>, b: nat, low: real)
    requires NormalOk(k) && low >= 0.0 && MassesAtLeast(buckets, low)
    requires b < |buckets| && buckets[b].results != [] && Accepts(k, buckets[b].results[0])
    ensures var (items, j) := (Items(buckets), FirstOf(buckets, b));
      && j < |items| && HomeAt(k, items, j) < |MergeAll(k, items).order|
      && var a := MergeAll(k, items).order[HomeAt(k, items, j)];
         && a.rrf >= 0.0
         && (!Shares(k, a.res, buckets[b].results[0]) ==> a.rrf >= Mass(buckets[b], 0) + 2.0 * low)
  {
    var (items, j) := (Items(buckets), FirstOf(buckets, b));
    FirstOfIs(buckets, b);
    ItemsWeigh(buckets, low);
    HomeExists(k, items, j);
    var i := HomeAt(k, items, j);
    AggregateMass(k, items, i);
    MassAtLeast(k, items, i, []);
    if !Shares(k, MergeAll(k, items).order[i].res, items[j].res) { StrangerWeighs(k, items, j, low); }
  }

  // What a caller can check: an engine's first result survives whenever the threshold is at
  // most its own rank mass plus twice the least mass of any entry.
  lemma FirstResultKept(k: Normal, g: Signals, buckets: seq<Bucket>, threshold: real, b: nat, low: real)
    requires NormalOk(k) && InRange(g) && low >= 0.0 && MassesAtLeast(buckets, low)
    requires b < |buckets| && buckets[b].results != [] && Accepts(k, buckets[b].results[0])
    requires Threshold(threshold) <= Mass(buckets[b], 0) + 2.0 * low
    ensures FirstResultOf(k, g, buckets, b) in Floor(k, Ranked(k, g, buckets), buckets, threshold)
  {
    FirstResultWeighs(k, buckets, b, low);
    EngineGuarantee(k, g, buckets, threshold, b);
    var items := Items(buckets);
    ScoreAtLeastMass(g, MergeAll(k, items).order[HomeAt(k, items, FirstOf(buckets, b))]);
  }

  // In particular whenever the threshold is at most its own rank mass, 1/60 at weight 1.
  lemma OwnMassSuffices(k: Normal, g: Signals, buckets: seq<Bucket>, threshold: real, b: nat)
    requires NormalOk(k) && InRange(g)
    requires b < |buckets| && buckets[b].results != [] && Accepts(k, buckets[b].results[0])
    requires Threshold(threshold) <= Mass(buckets[b], 0)
    ensures FirstResultOf(k, g, buckets, b) in Floor(k, Ranked(k, g, buckets), buckets, threshold)
  {
    MassesArePositive(buckets);
    FirstResultKept(k, g, buckets, threshold, b, 0.0);
  }

  const MAX_AT_DEFAULT := 541

  lemma MassAtDefault(b: Bucket, rank: nat)
    requires (b.weight <= 0.0 || b.weight >= 1.0) && rank < MAX_AT_DEFAULT
    ensures Mass(b, rank) >= 1.0 / 600.0 && Mass(b, 0) >= 1.0 / 60.0
  {
    var (x, w) := (RRF_K + rank as real, if b.weight <= 0.0 then 1.0 else b.weight);
    assert 0.0 < x <= 600.0;
    assert 1.0 / x >= 1.0 / 600.0;
    FactorRaises(1.0 / x, w);
    FactorRaises(1.0 / 60.0, w);
    assert Mass(b, rank) == (1.0 / x) * w && Mass(b, 0) == (1.0 / 60.0) * w;
  }

  // So at the default threshold, with weights of 1 or more and at most 541 results an engine,
  // every engine's first result survives.
  lemma KeptAtDefault(k: Normal, g: Signals, buckets: seq<Bucket>, threshold: real, b: nat)
    requires NormalOk(k) && InRange(g) && threshold <= 0.02
    requires forall i :: 0 <= i < |buckets| ==>
      (buckets[i].weight <= 0.0 || buckets[i].weight >= 1.0) && |buckets[i].results| <= MAX_AT_DEFAULT
    requires b < |buckets| && buckets[b].results != [] && Accepts(k, buckets[b].results[0])
    ensures FirstResultOf(k, g, buckets, b) in Floor(k, Ranked(k, g, buckets), buckets, threshold)
  {
    forall i, rank | 0 <= i < |buckets| && 0 <= rank < |buckets[i].results|
      ensures Mass(buckets[i], rank) >= 1.0 / 600.0
    {
      MassAtDefault(buckets[i], rank);
    }
    MassAtDefault(buckets[b], 0);
    assert 0.02 <= 1.0 / 60.0 + 2.0 * (1.0 / 600.0);
    FirstResultKept(k, g, buckets, threshold, b, 1.0 / 600.0);
  }

  // ---- When it fails ----

  // Results whose keys let an engine's first result get lost: a and b are one paper under two
  // URLs, c knows it only by the second one, and t is another paper.
  predicate Losing(k: Normal, t: SearchResult, a: SearchResult, b: SearchResult, c: SearchResult) {
    && NormalOk(k)
    && k.doi(t.doi) == "" && k.doi(a.doi) == k.doi(b.doi) != "" && k.doi(c.doi) == ""
    && k.url(t.url) != "" && k.url(a.url) != "" && k.url(b.url) == k.url(c.url) != ""
    && k.url(t.url) != k.url(a.url) && k.url(t.url) != k.url(b.url) && k.url(a.url) != k.url(b.url)
  }

  function TwoEngines(t: SearchResult, a: SearchResult, b: SearchResult, c: SearchResult): seq<Bucket> {
    [Bucket("x", 1.0, [t, a, b]), Bucket("z", 1.0, [c])]
  }

  lemma TwoEnginesItems(t: SearchResult, a: SearchResult, b: SearchResult, c: SearchResult)
    ensures var (bs, x) := (TwoEngines(t, a, b, c), Bucket("x", 1.0, [t, a, b]));
      && Items(bs) == [Item("x", 0, Mass(x, 0), t), Item("x", 1, Mass(x, 1), a), Item("x", 2, Mass(x, 2), b)]
                      + [Item("z", 0, Mass(bs[1], 0), c)]
      && FirstOf(bs, 1) == 3
  {
    var bs := TwoEngines(t, a, b, c);
    ItemsSnoc(bs, 0);
    ItemsSnoc(bs, 1);
    assert bs[..0] == [] && bs[..2] == bs;
  }

  lemma TwoEnginesTop(k: Normal, t: SearchResult, a: SearchResult, b: SearchResult, c: SearchResult)
    requires Losing(k, t, a, b, c)
    ensures TopKeys(k, TwoEngines(t, a, b, c)) == {Url(k.url(t.url)), Url(k.url(c.url))}
  {
    var bs := TwoEngines(t, a, b, c);
    assert bs[..1] == [bs[0]] && bs[..1][..0] == [];
    assert TopKeys(k, bs[..1]) == TopKeys(k, []) + KeysOf(k, t);
  }

  // The merge after t and a: one aggregate each.
  lemma AfterTwo(k: Normal, x: Item, y: Item)
    requires NormalOk(k) && k.doi(x.res.doi) == "" && k.url(x.res.url) != "" && k.doi(y.res.doi) != ""
    requires k.url(y.res.url) != "" && k.url(x.res.url) != k.url(y.res.url)
    ensures var m := MergeAll(k, [x, y]);
      && m.order == [Grow(Agg(x.res, 0.0, []), x), Grow(Agg(y.res, 0.0, []), y)]
      && m.byDoi == map[k.doi(y.res.doi) := 1] && m.byUrl == map[k.url(x.res.url) := 0, k.url(y.res.url) := 1]
  {
    FirstEntry(k, x);
    MergeSnoc(k, [x], y);
    assert [x] + [y] == [x, y];
  }

  lemma AbsorbByDoi(k: Normal, m: Merge, it: Item)
    requires k.doi(it.res.doi) != "" && k.doi(it.res.doi) in m.byDoi && k.url(it.res.url) != ""
    requires m.byDoi[k.doi(it.res.doi)] < |m.order|
    ensures var (doi, url) := (k.doi(it.res.doi), k.url(it.res.url));
      var home := m.byDoi[doi];
      Absorb(k, m, it) == Merge(m.order[home := Grow(m.order[home], it)], m.byDoi[doi := home], m.byUrl[url := home])
  {
  }

  lemma ThirdJoinsSecond(k: Normal, m: Merge, doi: string, z: Item)
    requires |m.order| == 2 && m.byDoi == map[doi := 1] && k.doi(z.res.doi) == doi != "" && k.url(z.res.url) != ""
    ensures var m' := Absorb(k, m, z);
      && m'.order == [m.order[0], Grow(m.order[1], z)] && m'.byDoi == map[doi := 1]
      && k.url(z.res.url) in m'.byUrl && m'.byUrl[k.url(z.res.url)] == 1
  {
    AbsorbByDoi(k, m, z);
    assert m.byDoi[doi := 1] == m.byDoi;
    assert m.order[1 := Grow(m.order[1], z)] == [m.order[0], Grow(m.order[1], z)];
  }

  // b joins a by its DOI and brings a second URL.
  lemma AfterThree(k: Normal, x: Item, y: Item, z: Item)
    requires NormalOk(k) && k.doi(x.res.doi) == "" && k.doi(y.res.doi) == k.doi(z.res.doi) != ""
    requires k.url(x.res.url) != "" && k.url(y.res.url) != "" && k.url(z.res.url) != ""
    requires k.url(x.res.url) != k.url(y.res.url)
    ensures var m := MergeAll(k, [x, y] + [z]);
      && m.order == [Grow(Agg(x.res, 0.0, []), x), Grow(Grow(Agg(y.res, 0.0, []), y), z)]
      && m.byDoi == map[k.doi(y.res.doi) := 1]
      && k.url(z.res.url) in m.byUrl && m.byUrl[k.url(z.res.url)] == 1
  {
    AfterTwo(k, x, y);
    MergeSnoc(k, [x, y], z);
    ThirdJoinsSecond(k, MergeAll(k, [x, y]), k.doi(y.res.doi), z);
  }

  // c joins by that URL.
  lemma AfterFour(k: Normal, x: Item, y: Item, z: Item, w: Item)
    requires Losing(k, x.res, y.res, z.res, w.res)
    ensures var m := MergeAll(k, [x, y, z] + [w]);
      && HomeAt(k, [x, y, z] + [w], 3) == 1
      && m.order == [Grow(Agg(x.res, 0.0, []), x), Grow(Grow(Grow(Agg(y.res, 0.0, []), y), z), w)]
  {
    AfterThree(k, x, y, z);
    assert [x, y] + [z] == [x, y, z];
    assert ([x, y, z] + [w])[..3] == [x, y, z];
    MergeSnoc(k, [x, y, z], w);
  }

  // Growing keeps the URL and a DOI that is there.
  lemma GrowKeeps(k: Normal, a: Agg, it: Item)
    requires NormalOk(k)
    ensures var r := Grow(a, it).res;
      && r.url == a.res.url && (k.doi(a.res.doi) != "" ==> r.doi == a.res.doi)
  {
  }

  // The scored list of such a run: t, and the other paper under a's keys.
  lemma LosingScored(k: Normal, g: Signals, t: SearchResult, a: SearchResult, b: SearchResult, c: SearchResult)
    requires Losing(k, t, a, b, c)
    ensures var bs := TwoEngines(t, a, b, c);
      var (order, items) := (MergeAll(k, Items(bs)).order, Items(bs));
      && |items| == 4 && items[0].res == t && items[1].res == a && items[2].res == b && items[3].res == c
      && order == [Grow(Agg(t, 0.0, []), items[0]), Grow(Grow(Grow(Agg(a, 0.0, []), items[1]), items[2]), items[3])]
      && order[1].res.url == a.url && order[1].res.doi == a.doi && order[0].res.url == t.url
      && Scored(g, order)[1] == FirstResultOf(k, g, bs, 1)
  {
    var bs := TwoEngines(t, a, b, c);
    TwoEnginesItems(t, a, b, c);
    var items := Items(bs);
    var (x, y, z, w) := (items[0], items[1], items[2], items[3]);
    assert items == [x, y, z] + [w];
    AfterFour(k, x, y, z, w);
    GrowKeeps(k, Agg(t, 0.0, []), x);
    GrowKeeps(k, Agg(a, 0.0, []), y);
    GrowKeeps(k, Grow(Agg(a, 0.0, []), y), z);
    GrowKeeps(k, Grow(Grow(Agg(a, 0.0, []), y), z), w);
  }

  lemma LosingKeys(k: Normal, t: SearchResult, a: SearchResult, b: SearchResult, c: SearchResult,
                   s0: SearchResult, s1: SearchResult)
    requires Losing(k, t, a, b, c) && s0.url == t.url && s1.url == a.url && s1.doi == a.doi
    ensures s0 != s1 && KeysOf(k, s1) * TopKeys(k, TwoEngines(t, a, b, c)) == {}
  {
    TwoEnginesTop(k, t, a, b, c);
    assert KeysOf(k, s1) == {Doi(k.doi(a.doi)), Url(k.url(a.url))};
  }

  lemma TwoAreSorted(g: Signals, order: seq<Agg>)
    requires |order| == 2 && Scored(g, order)[0].score >= Scored(g, order)[1].score
    ensures SortDesc(Scored(g, order)) == Scored(g, order)
    ensures forall i :: 0 <= i < 2 ==>
      Scored(g, order)[i].url == order[i].res.url && Scored(g, order)[i].doi == order[i].res.doi
  {
    SortOfSorted(Scored(g, order));
  }

  lemma LosingRanked(k: Normal, g: Signals, t: SearchResult, a: SearchResult, b: SearchResult, c: SearchResult)
    requires Losing(k, t, a, b, c)
    requires var scored := Scored(g, MergeAll(k, Items(TwoEngines(t, a, b, c))).order);
      |scored| == 2 ==> scored[0].score >= scored[1].score
    ensures var (bs, ranked) := (TwoEngines(t, a, b, c), Ranked(k, g, TwoEngines(t, a, b, c)));
      && |ranked| == 2 && ranked[1] == FirstResultOf(k, g, bs, 1)
      && ranked[0].url == t.url && ranked[1].url == a.url && ranked[1].doi == a.doi
  {
    LosingScored(k, g, t, a, b, c);
    var order := MergeAll(k, Items(TwoEngines(t, a, b, c))).order;
    TwoAreSorted(g, order);
  }

  // In such a run, with the other paper behind t, what holds c survives exactly at the threshold.
  lemma FirstResultLost(k: Normal, g: Signals, t: SearchResult, a: SearchResult, b: SearchResult,
        c: SearchResult, threshold: real)
    requires Losing(k, t, a, b, c)
    requires var scored := Scored(g, MergeAll(k, Items(TwoEngines(t, a, b, c))).order);
      |scored| == 2 ==> scored[0].score >= scored[1].score
    ensures var bs := TwoEngines(t, a, b, c);
      var r := FirstResultOf(k, g, bs, 1);
      r in Floor(k, Ranked(k, g, bs), bs, threshold) <==> r.score >= Threshold(threshold)
  {
    var bs := TwoEngines(t, a, b, c);
    LosingRanked(k, g, t, a, b, c);
    EngineGuarantee(k, g, bs, threshold, 1);
    LosingKeys(k, t, a, b, c, Ranked(k, g, bs)[0], FirstResultOf(k, g, bs, 1));
  }

  // Nothing but its ranks speaks for such a result.
  predicate Plain(r: SearchResult) { r.citedBy == 0 && r.journal == "" && r.pdf == "" && r.date == "" }

  lemma GrowPlain(a: Agg, it: Item)
    requires Plain(a.res) && Plain(it.res)
    ensures Plain(Grow(a, it).res) && Grow(a, it).rrf == a.rrf + it.mass
  {
  }

  lemma PlainScore(g: Signals, a: Agg)
    requires InRange(g) && Plain(a.res)
    ensures Score(g, a) == a.rrf
  {
  }

  // What the three entries of the other paper weigh.
  const THREE_RANKS := 1.0 / 61.0 + 1.0 / 62.0 + 1.0 / 60.0

  lemma ThreePlain(a: SearchResult, x: Item, y: Item, z: Item)
    requires Plain(a) && Plain(x.res) && Plain(y.res) && Plain(z.res)
    ensures var g := Grow(Grow(Grow(Agg(a, 0.0, []), x), y), z);
      Plain(g.res) && g.rrf == x.mass + y.mass + z.mass
  {
    var one := Grow(Agg(a, 0.0, []), x);
    GrowPlain(Agg(a, 0.0, []), x);
    GrowPlain(one, y);
    GrowPlain(Grow(one, y), z);
  }

  lemma TwoEnginesMasses(t: SearchResult, a: SearchResult, b: SearchResult, c: SearchResult)
    ensures var items := Items(TwoEngines(t, a, b, c));
      |items| == 4 && items[0].mass > 0.0 && items[1].mass + items[2].mass + items[3].mass == THREE_RANKS
  {
    TwoEnginesItems(t, a, b, c);
  }

  lemma LosingScores(k: Normal, g: Signals, t: SearchResult, a: SearchResult, b: SearchResult, c: SearchResult)
    requires Losing(k, t, a, b, c) && InRange(g) && g.journal(t.journal) == 0.08
    requires Plain(a) && Plain(b) && Plain(c)
    ensures var scored := Scored(g, MergeAll(k, Items(TwoEngines(t, a, b, c))).order);
      |scored| == 2 && scored[0].score >= 0.08 && scored[1].score == THREE_RANKS
  {
    var items := Items(TwoEngines(t, a, b, c));
    LosingScored(k, g, t, a, b, c);
    TwoEnginesMasses(t, a, b, c);
    ThreePlain(a, items[1], items[2], items[3]);
    PlainScore(g, Grow(Grow(Grow(Agg(a, 0.0, []), items[1]), items[2]), items[3]));
    ScoreAtLeastMass(g, Grow(Agg(t, 0.0, []), items[0]));
  }

  // With signals as the source has them, the first result of the second engine is lost in such
  // a run if and only if the threshold is above the merged mass of 1/60 + 1/61 + 1/62, about 0.049.
  lemma LostAboveMergedMass(k: Normal, g: Signals, t: SearchResult, a: SearchResult, b: SearchResult,
        c: SearchResult, threshold: real)
    requires Losing(k, t, a, b, c) && InRange(g) && g.journal(t.journal) == 0.08
    requires Plain(a) && Plain(b) && Plain(c)
    ensures var bs := TwoEngines(t, a, b, c);
      FirstResultOf(k, g, bs, 1) !in Floor(k, Ranked(k, g, bs), bs, threshold) <==> Threshold(threshold) > THREE_RANKS
  {
    LosingScores(k, g, t, a, b, c);
    LosingScored(k, g, t, a, b, c);
    FirstResultLost(k, g, t, a, b, c, threshold);
  }

  // There are such results: a paper in Nature, and another under two URLs, at threshold 0.06.
  lemma FirstResultCanBeLost() returns (k: Normal, g: Signals, bs: seq<Bucket>)
    ensures NormalOk(k) && InRange(g) && |bs| == 2 && |bs[1].results| == 1 && Accepts(k, bs[1].results[0])
    ensures FirstResultOf(k, g, bs, 1) !in Floor(k, Ranked(k, g, bs), bs, 0.06)
  {
    k := Normal(s => s, s => s);
    g := Signals(n => 1.0, s => if s == "nature" then 0.08 else 0.0, s => 1.0);
    var t := SearchResult("t", "", "", "", "", false, 0, "nature", "", 0.0, []);
    var a := t.(url := "u", doi := "d", journal := "");
    var b := a.(url := "v");
    var c := b.(doi := "");
    bs := TwoEngines(t, a, b, c);
    LostAboveMergedMass(k, g, t, a, b, c, 0.06);
  }
}
