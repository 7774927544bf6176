// Greedy MMR re-ranking (pkg/search/enhance/mmr.go). Similarity is the Jaccard index of
// token sets; tokenisation is a parameter.
module Mmr {
  import opened Ranking
  import opened Wrappers

  type Tokenizer = SearchResult -> set<string>

  function Jaccard(a: set<string>, b: set<string>): (r: real)
    ensures 0.0 <= r <= 1.0
  {
    if a == {} || b == {} then 0.0
    else
      assert a * b <= a + b && a <= a + b;
      SubsetSize(a * b, a + b);
      SubsetSize(a, a + b);
      (|a * b| as real) / (|a + b| as real)
  }

  function EffectiveLambda(lam: real): real {
    if lam <= 0.0 then 0.7 else if lam > 1.0 then 1.0 else lam
  }

  function EffectiveTarget(n: int, targetN: int): int {
    if targetN <= 0 || targetN > n then n else targetN
  }

  predicate IndicesOf(s: seq<nat>, n: nat) { forall k :: 0 <= k < |s| ==> s[k] < n }

  // max over the selected of the similarity to result i, and 0.
  function MaxSim(rs: seq<SearchResult>, tok: Tokenizer, i: nat, selected: seq<nat>): real
    requires i < |rs| && IndicesOf(selected, |rs|)
  {
    if selected == [] then 0.0
    else
      var m := MaxSim(rs, tok, i, selected[..|selected| - 1]);
      var sim := Jaccard(tok(rs[i]), tok(rs[selected[|selected| - 1]]));
      if sim > m then sim else m
  }

  function Tradeoff(lam: real, score: real, sim: real): real {
    lam * score - (1.0 - lam) * sim
  }

  function Value(rs: seq<SearchResult>, tok: Tokenizer, lam: real, i: nat, selected: seq<nat>): real
    requires i < |rs| && IndicesOf(selected, |rs|)
  {
    Tradeoff(lam, rs[i].score, MaxSim(rs, tok, i, selected))
  }

  // Position p of `remaining` has the best value among the first n, and is the first that has it.
  ghost predicate IsBest(rs: seq<SearchResult>, tok: Tokenizer, lam: real, selected: seq<nat>,
        remaining: seq<nat>, n: nat, p: nat)
    requires IndicesOf(selected, |rs|) && IndicesOf(remaining, |rs|) && p < n <= |remaining|
  {
    && (forall k :: 0 <= k < n ==>
         Value(rs, tok, lam, remaining[k], selected) <= Value(rs, tok, lam, remaining[p], selected))
    && (forall k :: 0 <= k < p ==>
         Value(rs, tok, lam, remaining[k], selected) < Value(rs, tok, lam, remaining[p], selected))
  }

  function BestPos(rs: seq<SearchResult>, tok: Tokenizer, lam: real, selected: seq<nat>, remaining: seq<nat>,
        n: nat): (p: nat)
    requires IndicesOf(selected, |rs|) && IndicesOf(remaining, |rs|) && 0 < n <= |remaining|
    ensures p < n && IsBest(rs, tok, lam, selected, remaining, n, p)
  {
    if n == 1 then 0
    else
      var p := BestPos(rs, tok, lam, selected, remaining, n - 1);
      if Value(rs, tok, lam, remaining[n - 1], selected) > Value(rs, tok, lam, remaining[p], selected) then n - 1 else p
  }

  function Removed(s: seq<nat>, p: nat): seq<nat>
    requires p < |s|
  {
    s[..p] + s[p + 1..]
  }

  // The selection when it has reached n or nothing remains.
  function Greedy(rs: seq<SearchResult>, tok: Tokenizer, lam: real, selected: seq<nat>, remaining: seq<nat>,
        n: nat): (r: seq<nat>)
    requires IndicesOf(selected, |rs|) && IndicesOf(remaining, |rs|)
    ensures IndicesOf(r, |rs|) && selected <= r
    decreases |remaining|
  {
    if |selected| >= n || remaining == [] then selected
    else
      var p := BestPos(rs, tok, lam, selected, remaining, |remaining|);
      Greedy(rs, tok, lam, selected + [remaining[p]], Removed(remaining, p), n)
  }

  lemma GreedyStep(rs: seq<SearchResult>, tok: Tokenizer, lam: real, selected: seq<nat>, remaining: seq<nat>, n: nat,
        p: nat)
    requires IndicesOf(selected, |rs|) && IndicesOf(remaining, |rs|) && |selected| < n && p < |remaining|
    requires p == BestPos(rs, tok, lam, selected, remaining, |remaining|)
    ensures IndicesOf(selected + [remaining[p]], |rs|) && IndicesOf(Removed(remaining, p), |rs|)
    ensures Greedy(rs, tok, lam, selected, remaining, n) ==
      Greedy(rs, tok, lam, selected + [remaining[p]], Removed(remaining, p), n)
  {
  }

  function Upto(lo: nat, hi: nat): (s: seq<nat>)
    requires lo <= hi
    ensures |s| == hi - lo && forall k :: 0 <= k < |s| ==> s[k] == lo + k
    decreases hi - lo
  {
    if lo == hi then [] else [lo] + Upto(lo + 1, hi)
  }

  function Order(rs: seq<SearchResult>, tok: Tokenizer, lam: real, targetN: int): (r: seq<nat>)
    ensures IndicesOf(r, |rs|)
  {
    if |rs| <= 1 then Upto(0, |rs|)
    else Greedy(rs, tok, EffectiveLambda(lam), [0], Upto(1, |rs|), EffectiveTarget(|rs|, targetN))
  }

  function Pick(rs: seq<SearchResult>, order: seq<nat>): seq<SearchResult>
    requires IndicesOf(order, |rs|)
  {
    seq(|order|, k requires 0 <= k < |order| => rs[order[k]])
  }

  lemma PickUpto(rs: seq<SearchResult>, n: nat)
    requires n <= |rs|
    ensures Pick(rs, Upto(0, n)) == rs[..n]
  {
  }

  // The inputs ApplyMMR answers without a greedy run.
  lemma TrivialOrder(rs: seq<SearchResult>, tok: Tokenizer, lam: real, targetN: int)
    requires |rs| <= 1 || EffectiveTarget(|rs|, targetN) == 1
    ensures Order(rs, tok, lam, targetN) == Upto(0, EffectiveTarget(|rs|, targetN))
  {
    assert Upto(0, 1) == [0];
  }

  // ---- The Go code ----

  method MaxSimilarity(rs: seq<SearchResult>, tok: Tokenizer, i: nat, selected: seq<nat>) returns (maxSim: real)
    requires i < |rs| && IndicesOf(selected, |rs|)
    ensures maxSim == MaxSim(rs, tok, i, selected)
  {
    maxSim := 0.0;
    for k := 0 to |selected|
      invariant maxSim == MaxSim(rs, tok, i, selected[..k])
    {
      assert selected[..k + 1][..k] == selected[..k];
      var sim := Jaccard(tok(rs[i]), tok(rs[selected[k]]));
      if sim > maxSim {
        maxSim := sim;
      }
    }
    assert selected[..|selected|] == selected;
  }

  // The scan over `remaining` for the best MMR value, the first on ties.
  method FindBest(rs: seq<SearchResult>, tok: Tokenizer, l: real, selected: seq<nat>, remaining: seq<nat>)
    returns (bestPos: nat)
    requires IndicesOf(selected, |rs|) && IndicesOf(remaining, |rs|) && remaining != []
    ensures bestPos < |remaining| && bestPos == BestPos(rs, tok, l, selected, remaining, |remaining|)
  {
    bestPos := 0;
    var sim := MaxSimilarity(rs, tok, remaining[0], selected);
    var bestMMR := Tradeoff(l, rs[remaining[0]].score, sim);
    for pos := 1 to |remaining|
      invariant bestPos < pos && bestPos == BestPos(rs, tok, l, selected, remaining, pos)
      invariant bestMMR == Value(rs, tok, l, remaining[bestPos], selected)
    {
      sim := MaxSimilarity(rs, tok, remaining[pos], selected);
      var mmr := Tradeoff(l, rs[remaining[pos]].score, sim);
      if mmr > bestMMR {
        bestMMR, bestPos := mmr, pos;
      }
    }
  }

  // The selection loop, with Top-1 already selected.
  method SelectGreedily(rs: seq<SearchResult>, tok: Tokenizer, l: real, target: nat) returns (selected: seq<nat>)
    requires |rs| > 1
    ensures selected == Greedy(rs, tok, l, [0], Upto(1, |rs|), target) && IndicesOf(selected, |rs|)
  {
    var remaining: seq<nat>;
    selected, remaining := [0], Upto(1, |rs|);
    ghost var goal := Greedy(rs, tok, l, selected, remaining, target);
    while |selected| < target && |remaining| > 0
      invariant IndicesOf(selected, |rs|) && IndicesOf(remaining, |rs|)
      invariant goal == Greedy(rs, tok, l, selected, remaining, target)
      decreases |remaining|
    {
      var bestPos := FindBest(rs, tok, l, selected, remaining);
      GreedyStep(rs, tok, l, selected, remaining, target, bestPos);
      selected, remaining := selected + [remaining[bestPos]], Removed(remaining, bestPos);
    }
  }

  method ApplyMMR(rs: seq<SearchResult>, tok: Tokenizer, lam: real, targetN: int) returns (out: seq<SearchResult>)
    ensures out == Pick(rs, Order(rs, tok, lam, targetN))
  {
    if |rs| <= 1 {
      TrivialOrder(rs, tok, lam, targetN);
      PickUpto(rs, |rs|);
      return rs;
    }
    var l := EffectiveLambda(lam);
    var target := EffectiveTarget(|rs|, targetN);
    if target == 1 {
      TrivialOrder(rs, tok, lam, targetN);
      PickUpto(rs, 1);
      return rs[..1];
    }
    var selected := SelectGreedily(rs, tok, l, target);
    out := Pick(rs, selected);
  }

  // ---- What the order means ----

  ghost predicate Beats(rs: seq<SearchResult>, tok: Tokenizer, lam: real, selected: seq<nat>, best: nat)
    requires IndicesOf(selected, |rs|) && best < |rs|
  {
    forall j: nat :: j < |rs| && j !in selected && j != best ==>
      var (v, vj) := (Value(rs, tok, lam, best, selected), Value(rs, tok, lam, j, selected));
      vj < v || (vj == v && best < j)
  }

  // The i-th pick beats, or ties with and precedes, every result not picked before it.
  ghost predicate GreedyAt(rs: seq<SearchResult>, tok: Tokenizer, lam: real, order: seq<nat>, i: nat)
    requires IndicesOf(order, |rs|) && i < |order|
  {
    Beats(rs, tok, lam, order[..i], order[i])
  }

  predicate Ascending(s: seq<nat>) { forall i, j :: 0 <= i < j < |s| ==> s[i] < s[j] }

  predicate Distinct(s: seq<nat>) { forall i, j :: 0 <= i < j < |s| ==> s[i] != s[j] }

  // selected and remaining split the results, and remaining keeps the input order.
  ghost predicate Splits(rs: seq<SearchResult>, selected: seq<nat>, remaining: seq<nat>) {
    && IndicesOf(selected, |rs|) && IndicesOf(remaining, |rs|) && Ascending(remaining)
    && (forall j: nat :: j < |rs| ==> (j in selected <==> j !in remaining))
    && Distinct(selected) && |selected| + |remaining| == |rs|
  }

  lemma RemovedKeeps(s: seq<nat>, p: nat)
    requires p < |s| && Ascending(s)
    ensures Ascending(Removed(s, p))
    ensures forall j :: j in Removed(s, p) <==> j in s && j != s[p]
  {
    forall j | j in s && j != s[p] ensures j in Removed(s, p) {
      var k :| 0 <= k < |s| && s[k] == j;
      assert Removed(s, p)[if k < p then k else k - 1] == j;
    }
  }

  lemma PickSplits(rs: seq<SearchResult>, selected: seq<nat>, remaining: seq<nat>, p: nat)
    requires Splits(rs, selected, remaining) && p < |remaining|
    ensures Splits(rs, selected + [remaining[p]], Removed(remaining, p))
  {
    RemovedKeeps(remaining, p);
    assert remaining[p] in remaining;
  }

  lemma BestBeats(rs: seq<SearchResult>, tok: Tokenizer, lam: real, selected: seq<nat>, remaining: seq<nat>)
    requires Splits(rs, selected, remaining) && remaining != []
    ensures Beats(rs, tok, lam, selected, remaining[BestPos(rs, tok, lam, selected, remaining, |remaining|)])
  {
    var p := BestPos(rs, tok, lam, selected, remaining, |remaining|);
    forall j: nat | j < |rs| && j !in selected && j != remaining[p]
      ensures var (v, vj) := (Value(rs, tok, lam, remaining[p], selected), Value(rs, tok, lam, j, selected));
        vj < v || (vj == v && remaining[p] < j)
    {
      var k :| 0 <= k < |remaining| && remaining[k] == j;
    }
  }

  lemma StartSplits(rs: seq<SearchResult>)
    requires |rs| > 1
    ensures Splits(rs, [0], Upto(1, |rs|))
  {
    forall j: nat | 0 < j < |rs| ensures j in Upto(1, |rs|) { assert Upto(1, |rs|)[j - 1] == j; }
  }

  // From pick number `first` on, every pick is the greedy choice.
  ghost predicate GreedyFrom(rs: seq<SearchResult>, tok: Tokenizer, lam: real, order: seq<nat>, first: nat)
    requires IndicesOf(order, |rs|)
  {
    forall i :: first <= i < |order| ==> GreedyAt(rs, tok, lam, order, i)
  }

  lemma GreedyFirst(rs: seq<SearchResult>, tok: Tokenizer, lam: real, order: seq<nat>, selected: seq<nat>, best: nat)
    requires IndicesOf(order, |rs|) && selected + [best] <= order
    requires IndicesOf(selected, |rs|) && best < |rs| && Beats(rs, tok, lam, selected, best)
    requires GreedyFrom(rs, tok, lam, order, |selected| + 1)
    ensures GreedyFrom(rs, tok, lam, order, |selected|)
  {
    assert order[..|selected|] == selected && order[|selected|] == best;
  }

  lemma {:induction false} GreedyIsGreedy(rs: seq<SearchResult>, tok: Tokenizer, lam: real, selected: seq<nat>,
        remaining: seq<nat>, n: nat)
    requires Splits(rs, selected, remaining) && |selected| <= n <= |rs|
    ensures var r := Greedy(rs, tok, lam, selected, remaining, n);
      |r| == n && Distinct(r) && GreedyFrom(rs, tok, lam, r, |selected|)
    decreases |remaining|
  {
    if |selected| < n && remaining != [] {
      var p := BestPos(rs, tok, lam, selected, remaining, |remaining|);
      GreedyStep(rs, tok, lam, selected, remaining, n, p);
      PickSplits(rs, selected, remaining, p);
      var (selected', remaining') := (selected + [remaining[p]], Removed(remaining, p));
      GreedyIsGreedy(rs, tok, lam, selected', remaining', n);
      BestBeats(rs, tok, lam, selected, remaining);
      GreedyFirst(rs, tok, lam, Greedy(rs, tok, lam, selected', remaining', n), selected, remaining[p]);
    }
  }

  lemma {:induction false} GreedyPrefix(rs: seq<SearchResult>, tok: Tokenizer, lam: real, selected: seq<nat>,
        remaining: seq<nat>, k: nat, n: nat)
    requires IndicesOf(selected, |rs|) && IndicesOf(remaining, |rs|) && k <= n
    ensures Greedy(rs, tok, lam, selected, remaining, k) <= Greedy(rs, tok, lam, selected, remaining, n)
    decreases |remaining|
  {
    if |selected| < k && remaining != [] {
      var p := BestPos(rs, tok, lam, selected, remaining, |remaining|);
      GreedyPrefix(rs, tok, lam, selected + [remaining[p]], Removed(remaining, p), k, n);
    }
  }

  lemma BestByScore(rs: seq<SearchResult>, tok: Tokenizer, selected: seq<nat>, m: nat)
    requires Sorted(rs) && m < |rs| && IndicesOf(selected, |rs|)
    ensures BestPos(rs, tok, 1.0, selected, Upto(m, |rs|), |rs| - m) == 0
  {
    var remaining := Upto(m, |rs|);
    var p := BestPos(rs, tok, 1.0, selected, remaining, |remaining|);
    assert Value(rs, tok, 1.0, remaining[p], selected) == rs[m + p].score;
    assert Value(rs, tok, 1.0, remaining[0], selected) == rs[m].score;
  }

  lemma UptoShifts(m: nat, n: nat)
    requires m < n
    ensures Upto(0, m) + [Upto(m, n)[0]] == Upto(0, m + 1)
    ensures Removed(Upto(m, n), 0) == Upto(m + 1, n)
  {
  }

  lemma {:induction false} GreedyByScore(rs: seq<SearchResult>, tok: Tokenizer, m: nat, n: nat)
    requires Sorted(rs) && 0 < m <= n <= |rs|
    ensures Greedy(rs, tok, 1.0, Upto(0, m), Upto(m, |rs|), n) == Upto(0, n)
    decreases n - m
  {
    if m < n {
      BestByScore(rs, tok, Upto(0, m), m);
      GreedyStep(rs, tok, 1.0, Upto(0, m), Upto(m, |rs|), n, 0);
      UptoShifts(m, |rs|);
      GreedyByScore(rs, tok, m + 1, n);
    }
  }

  // Top-1 stays first, no result comes twice, the asked number is returned, and every
  // later pick is the greedy choice with ties to the earlier result.
  lemma MmrIsGreedy(rs: seq<SearchResult>, tok: Tokenizer, lam: real, targetN: int)
    requires |rs| > 0
    ensures var order := Order(rs, tok, lam, targetN);
      && |order| == EffectiveTarget(|rs|, targetN) && order[0] == 0
      && Distinct(order) && GreedyFrom(rs, tok, EffectiveLambda(lam), order, 1)
  {
    if |rs| > 1 {
      StartSplits(rs);
      GreedyIsGreedy(rs, tok, EffectiveLambda(lam), [0], Upto(1, |rs|), EffectiveTarget(|rs|, targetN));
    }
  }

  // ---- The trade-off spelled out ----

  // The Jaccard index: common tokens over all tokens, 0 without tokens.
  lemma JaccardMeans(a: set<string>, b: set<string>)
    ensures |a * b| as real == Jaccard(a, b) * ((|a| + |b| - |a * b|) as real)
    ensures a * b == {} ==> Jaccard(a, b) == 0.0
  {
    assert |a + b| == |a| + |b| - |a * b|;
    if a != {} && b != {} {
      SubsetSize(a, a + b);
    } else {
      assert a * b == {};
    }
  }

  // m is the greatest similarity of result i to a selected one, and 0 if there is none.
  ghost predicate IsResemblance(rs: seq<SearchResult>, tok: Tokenizer, i: nat, selected: seq<nat>, m: real)
    requires i < |rs| && IndicesOf(selected, |rs|)
  {
    && m >= 0.0
    && (forall k :: 0 <= k < |selected| ==> m >= Jaccard(tok(rs[i]), tok(rs[selected[k]])))
    && (m == 0.0 || exists k :: 0 <= k < |selected| && m == Jaccard(tok(rs[i]), tok(rs[selected[k]])))
  }

  lemma {:induction false} MaxSimIsResemblance(rs: seq<SearchResult>, tok: Tokenizer, i: nat, selected: seq<nat>)
    requires i < |rs| && IndicesOf(selected, |rs|)
    ensures IsResemblance(rs, tok, i, selected, MaxSim(rs, tok, i, selected))
  {
    if selected != [] {
      var (n, init) := (|selected| - 1, selected[..|selected| - 1]);
      MaxSimIsResemblance(rs, tok, i, init);
      var m := MaxSim(rs, tok, i, selected);
      if m == MaxSim(rs, tok, i, init) && m != 0.0 {
        var k :| 0 <= k < |init| && m == Jaccard(tok(rs[i]), tok(rs[init[k]]));
        assert m == Jaccard(tok(rs[i]), tok(rs[selected[k]]));
      }
      forall k | 0 <= k < n ensures m >= Jaccard(tok(rs[i]), tok(rs[selected[k]])) {
        assert init[k] == selected[k];
      }
    }
  }

  // With these resemblances lambda * score - (1 - lambda) * resemblance is greater for p than for
  // j, or the same and p stands before j; lambda is 0.7 when it is not positive, and at most 1.
  predicate Ahead(rs: seq<SearchResult>, lam: real, p: nat, j: nat, m: real, n: real)
    requires p < |rs| && j < |rs|
  {
    var l := if lam <= 0.0 then 0.7 else if lam > 1.0 then 1.0 else lam;
    var (v, w) := (l * rs[p].score - (1.0 - l) * m, l * rs[j].score - (1.0 - l) * n);
    v > w || (v == w && p < j)
  }

  ghost predicate Prevails(rs: seq<SearchResult>, tok: Tokenizer, lam: real, selected: seq<nat>, p: nat, j: nat)
    requires IndicesOf(selected, |rs|) && p < |rs| && j < |rs|
  {
    exists m, n :: (IsResemblance(rs, tok, p, selected, m) && IsResemblance(rs, tok, j, selected, n)
                    && Ahead(rs, lam, p, j, m, n))
  }

  lemma AheadByTradeoff(rs: seq<SearchResult>, lam: real, p: nat, j: nat, m: real, n: real)
    requires p < |rs| && j < |rs|
    requires var l := EffectiveLambda(lam);
      var (v, w) := (Tradeoff(l, rs[p].score, m), Tradeoff(l, rs[j].score, n));
      w < v || (w == v && p < j)
    ensures Ahead(rs, lam, p, j, m, n)
  {
  }

  lemma BeatsPrevails(rs: seq<SearchResult>, tok: Tokenizer, lam: real, selected: seq<nat>, p: nat, j: nat)
    requires IndicesOf(selected, |rs|) && p < |rs| && j < |rs| && j !in selected && j != p
    requires Beats(rs, tok, EffectiveLambda(lam), selected, p)
    ensures Prevails(rs, tok, lam, selected, p, j)
  {
    MaxSimIsResemblance(rs, tok, p, selected);
    MaxSimIsResemblance(rs, tok, j, selected);
    AheadByTradeoff(rs, lam, p, j, MaxSim(rs, tok, p, selected), MaxSim(rs, tok, j, selected));
  }

  // Every pick prevails over everything not picked by then.
  lemma MmrMaximises(rs: seq<SearchResult>, tok: Tokenizer, lam: real, targetN: int, i: nat, j: nat)
    requires 1 <= i < |Order(rs, tok, lam, targetN)| && j < |rs| && j !in Order(rs, tok, lam, targetN)[..i + 1]
    ensures var order := Order(rs, tok, lam, targetN); Prevails(rs, tok, lam, order[..i], order[i], j)
  {
    var order := Order(rs, tok, lam, targetN);
    MmrIsGreedy(rs, tok, lam, targetN);
    assert GreedyAt(rs, tok, EffectiveLambda(lam), order, i);
    assert order[..i + 1] == order[..i] + [order[i]];
    BeatsPrevails(rs, tok, lam, order[..i], order[i], j);
  }

  // The number of results: the asked one, or all when it is not positive or too large.
  lemma MmrLength(rs: seq<SearchResult>, tok: Tokenizer, lam: real, targetN: int)
    ensures |Order(rs, tok, lam, targetN)| == if 0 < targetN < |rs| then targetN else |rs|
  {
    if |rs| > 0 { MmrIsGreedy(rs, tok, lam, targetN); }
  }

  lemma ResemblanceUnique(rs: seq<SearchResult>, tok: Tokenizer, i: nat, selected: seq<nat>, m: real, n: real)
    requires i < |rs| && IndicesOf(selected, |rs|)
    requires IsResemblance(rs, tok, i, selected, m) && IsResemblance(rs, tok, i, selected, n)
    ensures m == n
  {
  }

  lemma PrevailsWith(rs: seq<SearchResult>, tok: Tokenizer, lam: real, selected: seq<nat>, p: nat, j: nat,
        m: real, n: real)
    requires IndicesOf(selected, |rs|) && p < |rs| && j < |rs| && Prevails(rs, tok, lam, selected, p, j)
    requires IsResemblance(rs, tok, p, selected, m) && IsResemblance(rs, tok, j, selected, n)
    ensures Ahead(rs, lam, p, j, m, n)
  {
    var x, y :| IsResemblance(rs, tok, p, selected, x) && IsResemblance(rs, tok, j, selected, y)
                && Ahead(rs, lam, p, j, x, y);
    ResemblanceUnique(rs, tok, p, selected, m, x);
    ResemblanceUnique(rs, tok, j, selected, n, y);
  }

  // At one and the same score the trade-offs compare as the resemblances do, the other way round.
  lemma TradeoffsCompare(a: real, f: real, m: real, n: real)
    requires f > 0.0
    ensures a - f * m > a - f * n <==> m < n
    ensures a - f * m == a - f * n <==> m == n
  {
    assert f * (m - n) == f * m - f * n;
  }

  lemma AheadIsLessAlike(rs: seq<SearchResult>, lam: real, p: nat, j: nat, m: real, n: real)
    requires p < |rs| && j < |rs| && lam < 1.0 && rs[p].score == rs[j].score && Ahead(rs, lam, p, j, m, n)
    ensures m < n || (m == n && p < j)
  {
    var l := if lam <= 0.0 then 0.7 else if lam > 1.0 then 1.0 else lam;
    TradeoffsCompare(l * rs[p].score, 1.0 - l, m, n);
  }

  // Below lambda 1, of two results of the same score the one that resembles the selected ones
  // less is picked first.
  lemma LessAlikeFirst(rs: seq<SearchResult>, tok: Tokenizer, lam: real, targetN: int, i: nat, j: nat, m: real, n: real)
    requires 1 <= i < |Order(rs, tok, lam, targetN)| && j < |rs| && j !in Order(rs, tok, lam, targetN)[..i + 1]
    requires lam < 1.0 && rs[Order(rs, tok, lam, targetN)[i]].score == rs[j].score
    requires var order := Order(rs, tok, lam, targetN);
      IsResemblance(rs, tok, order[i], order[..i], m) && IsResemblance(rs, tok, j, order[..i], n)
    ensures m < n || (m == n && Order(rs, tok, lam, targetN)[i] < j)
  {
    var order := Order(rs, tok, lam, targetN);
    MmrMaximises(rs, tok, lam, targetN, i, j);
    PrevailsWith(rs, tok, lam, order[..i], order[i], j, m, n);
    AheadIsLessAlike(rs, lam, order[i], j, m, n);
  }

  // The run for k results is the beginning of the run for all.
  lemma MmrPrefix(rs: seq<SearchResult>, tok: Tokenizer, lam: real, k: int)
    requires 1 <= k <= |rs|
    ensures |Order(rs, tok, lam, k)| == k && Order(rs, tok, lam, k) <= Order(rs, tok, lam, 0)
  {
    MmrIsGreedy(rs, tok, lam, k);
    MmrIsGreedy(rs, tok, lam, 0);
    if |rs| > 1 {
      GreedyPrefix(rs, tok, EffectiveLambda(lam), [0], Upto(1, |rs|), k, |rs|);
    }
  }

  // Pure relevance on score-sorted input changes nothing.
  lemma MmrPureRelevance(rs: seq<SearchResult>, tok: Tokenizer, lam: real, targetN: int)
    requires Sorted(rs) && lam >= 1.0
    ensures Pick(rs, Order(rs, tok, lam, targetN)) == if 0 < targetN < |rs| then rs[..targetN] else rs
  {
    var n := EffectiveTarget(|rs|, targetN);
    if |rs| > 1 {
      assert [0] == Upto(0, 1);
      GreedyByScore(rs, tok, 1, n);
    }
    PickUpto(rs, n);
  }
}
