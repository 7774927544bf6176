// Batching a page selection under a per-call budget, and where to resume
// (pkg/fetch/mineru/batch.go, mcp/tool_pdf.go).
module PageBatches {
  import PageRanges

  function Chunks(pages: seq<int>, batch: int): seq<seq<int>>
    requires batch > 0
  {
    if pages == [] then []
    else if |pages| <= batch then [pages]
    else [pages[..batch]] + Chunks(pages[batch..], batch)
  }

  function Split(pages: seq<int>, batch: int): seq<seq<int>> {
    if batch > 0 then Chunks(pages, batch) else if pages == [] then [] else [pages]
  }

  function Flatten(batches: seq<seq<int>>): seq<int> {
    if batches == [] then [] else batches[0] + Flatten(batches[1..])
  }

  // The batches that fit what is left of the budget, up to the first that does not.
  function Keep(all: seq<seq<int>>, left: int): seq<seq<int>> {
    if all == [] || |all[0]| > left then [] else [all[0]] + Keep(all[1..], left - |all[0]|)
  }

  function Plan(pages: seq<int>, batch: int, budget: int): (seq<seq<int>>, bool) {
    var all := Split(pages, batch);
    if budget <= 0 then (all, false)
    else
      var kept := Keep(all, budget);
      (kept, |kept| < |all|)
  }

  // ---- The Go code ----

  function Rest(pages: seq<int>, start: nat, batch: int): seq<seq<int>>
    requires batch > 0
  {
    if start < |pages| then Chunks(pages[start..], batch) else []
  }

  lemma ChunkStep(pages: seq<int>, start: nat, batch: int)
    requires start < |pages| && batch > 0
    ensures Chunks(pages[start..], batch) ==
      if start + batch >= |pages| then [pages[start..]]
      else [pages[start..start + batch]] + Chunks(pages[start + batch..], batch)
  {
    if start + batch < |pages| {
      assert pages[start..][..batch] == pages[start..start + batch];
      assert pages[start..][batch..] == pages[start + batch..];
    }
  }

  lemma RestStep(pages: seq<int>, start: nat, batch: int, before: seq<seq<int>>)
    requires start < |pages| && batch > 0
    ensures var end := if start + batch > |pages| then |pages| else start + batch;
      before + Rest(pages, start, batch) == before + [pages[start..end]] + Rest(pages, start + batch, batch)
  {
    ChunkStep(pages, start, batch);
    assert pages[start..] == pages[start..|pages|];
  }

  lemma RestFromStart(pages: seq<int>, batch: int)
    requires batch > 0
    ensures Rest(pages, 0, batch) == Chunks(pages, batch)
  {
    assert pages[0..] == pages;
  }

  method SplitPageBatches(pages: seq<int>, batch: int) returns (batches: seq<seq<int>>)
    ensures batches == Split(pages, batch)
  {
    if batch <= 0 || |pages| <= batch {
      if |pages| == 0 {
        return [];
      }
      return [pages];
    }
    batches := [];
    var start := 0;
    RestFromStart(pages, batch);
    while start < |pages|
      invariant 0 <= start && batch > 0
      invariant Chunks(pages, batch) == batches + Rest(pages, start, batch)
      decreases |pages| - start
    {
      var end := start + batch;
      if end > |pages| {
        end := |pages|;
      }
      RestStep(pages, start, batch, batches);
      batches := batches + [pages[start..end]];
      start := start + batch;
    }
  }

  lemma KeepStep(all: seq<seq<int>>, i: nat, left: int, before: seq<seq<int>>)
    requires i < |all| && |all[i]| <= left
    ensures before + Keep(all[i..], left) == before + [all[i]] + Keep(all[i + 1..], left - |all[i]|)
  {
    assert all[i..][1..] == all[i + 1..];
  }

  lemma KeepStops(all: seq<seq<int>>, i: nat, left: int)
    requires i <= |all| && (i < |all| ==> |all[i]| > left)
    ensures Keep(all[i..], left) == []
  {
  }

  method PlanPageBatches(pages: seq<int>, batch: int, budget: int) returns (batches: seq<seq<int>>, truncated: bool)
    ensures (batches, truncated) == Plan(pages, batch, budget)
  {
    var all := SplitPageBatches(pages, batch);
    if budget <= 0 {
      return all, false;
    }
    batches, truncated := [], false;
    var used := 0;
    assert all[0..] == all;
    for i := 0 to |all|
      invariant |batches| == i
      invariant Keep(all, budget) == batches + Keep(all[i..], budget - used)
    {
      if used + |all[i]| > budget {
        KeepStops(all, i, budget - used);
        assert batches + [] == batches;
        return batches, true;
      }
      KeepStep(all, i, budget - used, batches);
      used := used + |all[i]|;
      batches := batches + [all[i]];
    }
    KeepStops(all, |all|, budget - used);
    assert batches + [] == batches;
  }

  // ---- What a plan is ----

  lemma FlattenCons(x: seq<int>, rest: seq<seq<int>>)
    ensures Flatten([x] + rest) == x + Flatten(rest)
  {
    assert ([x] + rest)[1..] == rest;
  }

  lemma {:induction false} FlattenAppend(a: seq<seq<int>>, b: seq<seq<int>>)
    ensures Flatten(a + b) == Flatten(a) + Flatten(b)
  {
    if a == [] {
      assert a + b == b;
    } else {
      var (x, rest) := (a[0], a[1..]);
      FlattenAppend(rest, b);
      FlattenCons(x, rest + b);
      assert a + b == [x] + (rest + b);
      assert x + (Flatten(rest) + Flatten(b)) == (x + Flatten(rest)) + Flatten(b);
    }
  }

  lemma {:induction false} ChunksCover(pages: seq<int>, batch: int)
    requires batch > 0
    ensures var all := Chunks(pages, batch);
      && Flatten(all) == pages
      && (forall i :: 0 <= i < |all| ==> 0 < |all[i]| <= batch)
      && (forall i :: 0 <= i < |all| - 1 ==> |all[i]| == batch)
  {
    if |pages| > batch {
      ChunksCover(pages[batch..], batch);
      var (all, rest) := (Chunks(pages, batch), Chunks(pages[batch..], batch));
      assert all[1..] == rest;
      assert forall i :: 1 <= i < |all| ==> all[i] == rest[i - 1];
    } else if pages != [] {
      assert Flatten([pages][1..]) == [];
    }
  }

  lemma SplitCovers(pages: seq<int>, batch: int)
    ensures var all := Split(pages, batch);
      && Flatten(all) == pages
      && (forall i :: 0 <= i < |all| ==> 0 < |all[i]| && (batch > 0 ==> |all[i]| <= batch))
      && (batch > 0 ==> forall i :: 0 <= i < |all| - 1 ==> |all[i]| == batch)
      && (batch <= 0 ==> |all| <= 1)
  {
    if batch > 0 {
      ChunksCover(pages, batch);
    } else if pages != [] {
      assert Flatten([pages][1..]) == [];
    }
  }

  lemma {:induction false} KeepIsGreedy(all: seq<seq<int>>, left: int)
    requires left >= 0
    ensures var kept := Keep(all, left);
      && kept <= all && |Flatten(kept)| <= left
      && (|kept| < |all| ==> |Flatten(kept)| + |all[|kept|]| > left)
  {
    if all != [] && |all[0]| <= left {
      KeepIsGreedy(all[1..], left - |all[0]|);
      assert Keep(all, left)[1..] == Keep(all[1..], left - |all[0]|);
    }
  }

  lemma {:induction false} FlattenGrows(all: seq<seq<int>>, n: nat)
    requires n < |all| && |all[n]| > 0
    ensures |Flatten(all[..n])| < |Flatten(all)|
  {
    FlattenAppend(all[..n], all[n..]);
    assert all[..n] + all[n..] == all;
    assert all[n..][0] == all[n];
  }

  function Dropped(pages: seq<int>, batch: int, budget: int): seq<int> {
    var n := |Flatten(Plan(pages, batch, budget).0)|;
    if n <= |pages| then pages[n..] else []
  }

  // Kept batches are non-empty, within the batch size, a prefix of the selection and of the
  // budget, and no further batch would fit; truncated tells exactly whether pages were dropped.
  lemma PlanMeans(pages: seq<int>, batch: int, budget: int)
    ensures var (kept, truncated) := Plan(pages, batch, budget);
      var all := Split(pages, batch);
      && kept <= all
      && Flatten(kept) + Dropped(pages, batch, budget) == pages
      && (forall i :: 0 <= i < |kept| ==> 0 < |kept[i]| && (batch > 0 ==> |kept[i]| <= batch))
      && (budget > 0 ==> |Flatten(kept)| <= budget)
      && (truncated <==> Dropped(pages, batch, budget) != [])
      && (truncated ==> |kept| < |all| && |Flatten(kept)| + |all[|kept|]| > budget)
  {
    SplitCovers(pages, batch);
    var (kept, truncated) := Plan(pages, batch, budget);
    var all := Split(pages, batch);
    if budget > 0 {
      KeepIsGreedy(all, budget);
      assert all == kept + all[|kept|..];
      FlattenAppend(kept, all[|kept|..]);
      if truncated {
        FlattenGrows(all, |kept|);
        assert all[..|kept|] == kept;
      } else {
        assert all[|kept|..] == [];
      }
    }
  }

  // The page after the last parsed one.
  function ResumePage(kept: seq<seq<int>>): int
    requires kept != [] && kept[|kept| - 1] != []
  {
    var last := kept[|kept| - 1];
    last[|last| - 1] + 1
  }

  lemma LastOfFlatten(kept: seq<seq<int>>)
    requires kept != [] && kept[|kept| - 1] != []
    ensures Flatten(kept) != [] && Flatten(kept)[|Flatten(kept)| - 1] == ResumePage(kept) - 1
  {
    var n := |kept| - 1;
    FlattenAppend(kept[..n], [kept[n]]);
    assert kept == kept[..n] + [kept[n]];
    assert Flatten([kept[n]]) == kept[n] + Flatten([kept[n]][1..]);
  }

  lemma TailFrom(pages: seq<int>, n: nat, p: int)
    requires PageRanges.Increasing(pages) && 0 < n <= |pages| && p in pages
    ensures p >= pages[n - 1] + 1 <==> p in pages[n..]
  {
    assert pages == pages[..n] + pages[n..];
    if p in pages[n..] {
      var j :| 0 <= j < |pages| - n && pages[n..][j] == p;
      assert pages[n - 1] < pages[n + j];
    } else {
      var i :| 0 <= i < n && pages[..n][i] == p;
      assert pages[i] <= pages[n - 1];
    }
  }

  lemma LastPlanned(pages: seq<int>, batch: int, budget: int)
    requires Plan(pages, batch, budget).0 != []
    ensures var (kept, n) := (Plan(pages, batch, budget).0, |Flatten(Plan(pages, batch, budget).0)|);
      && 0 < n <= |pages| && kept[|kept| - 1] != [] && pages[n - 1] == ResumePage(kept) - 1
  {
    var kept := Plan(pages, batch, budget).0;
    PlanMeans(pages, batch, budget);
    LastOfFlatten(kept);
    var n := |Flatten(kept)|;
    assert pages[n - 1] == Flatten(kept)[n - 1];
  }

  // A resumed call sees exactly the dropped pages.
  lemma ResumeSeesDropped(pages: seq<int>, batch: int, budget: int)
    requires PageRanges.Increasing(pages) && Plan(pages, batch, budget).0 != []
    ensures var kept := Plan(pages, batch, budget).0;
      && kept[|kept| - 1] != []
      && forall p :: p in pages ==> (p >= ResumePage(kept) <==> p in Dropped(pages, batch, budget))
  {
    var kept := Plan(pages, batch, budget).0;
    LastPlanned(pages, batch, budget);
    PlanMeans(pages, batch, budget);
    var n := |Flatten(kept)|;
    forall p | p in pages ensures p >= ResumePage(kept) <==> p in Dropped(pages, batch, budget) {
      TailFrom(pages, n, p);
    }
  }

  lemma FlattenNext(all: seq<seq<int>>, k: nat)
    requires k < |all|
    ensures var n := |Flatten(all[..k])|;
      n + |all[k]| <= |Flatten(all)| && all[k] == Flatten(all)[n..n + |all[k]|]
          && Flatten(all)[..n] == Flatten(all[..k])
  {
    var (kept, rest) := (all[..k], all[k..]);
    assert all == kept + rest;
    FlattenAppend(kept, rest);
    assert Flatten(rest) == all[k] + Flatten(rest[1..]);
  }

  lemma KeptIsPrefix(pages: seq<int>, batch: int, budget: int)
    requires Plan(pages, batch, budget).1
    ensures var (kept, all) := (Plan(pages, batch, budget).0, Split(pages, batch));
      |kept| < |all| && kept == all[..|kept|] && (kept != [] ==> batch > 0)
  {
    PlanMeans(pages, batch, budget);
    SplitCovers(pages, batch);
  }

  // Where the next batch stands in the selection.
  lemma NextBatch(pages: seq<int>, batch: int, budget: int)
    requires var (kept, truncated) := Plan(pages, batch, budget); kept != [] && truncated
    ensures var kept := Plan(pages, batch, budget).0;
      var (all, n) := (Split(pages, batch), |Flatten(kept)|);
      && batch > 0 && |kept| < |all| && 0 < n && n + |all[|kept|]| <= |pages|
      && all[|kept|] == pages[n..n + |all[|kept|]|]
      && kept[|kept| - 1] != [] && pages[n - 1] == ResumePage(kept) - 1
  {
    KeptIsPrefix(pages, batch, budget);
    LastPlanned(pages, batch, budget);
    SplitCovers(pages, batch);
    FlattenNext(Split(pages, batch), |Plan(pages, batch, budget).0|);
  }

  lemma {:induction false} StepsUp(s: seq<int>, i: nat, j: nat)
    requires PageRanges.Increasing(s) && i <= j < |s|
    ensures s[j] >= s[i] + (j - i)
  {
    if i < j { StepsUp(s, i, j - 1); }
  }

  predicate Within(s: seq<int>, from: int, to: int) { forall k :: 0 <= k < |s| ==> from <= s[k] <= to }

  predicate Consecutive(s: seq<int>, from: int) { forall k :: 0 <= k < |s| ==> s[k] == from + k }

  function WindowEnd(from: int, batch: int, total: int): int {
    if from + batch - 1 < total then from + batch - 1 else total
  }

  lemma WindowCovers(pages: seq<int>, n: nat, next: seq<int>, batch: int, total: int)
    requires PageRanges.Increasing(pages) && (forall p :: p in pages ==> p <= total)
    requires 0 < n && 0 < |next| && n + |next| <= |pages| && next == pages[n..n + |next|]
    ensures var from := pages[n - 1] + 1;
      Within(next, from, WindowEnd(from, batch, total)) <==> next[|next| - 1] <= pages[n - 1] + batch
  {
    forall k | 0 <= k < |next|
      ensures pages[n - 1] < next[k] <= next[|next| - 1] && next[k] <= total
    {
      assert next[k] == pages[n + k] && next[|next| - 1] == pages[n + |next| - 1];
      assert pages[n + k] in pages;
    }
  }

  lemma FullWindow(pages: seq<int>, n: nat, next: seq<int>, batch: int)
    requires PageRanges.Increasing(pages)
    requires 0 < n && |next| == batch > 0 && n + |next| <= |pages| && next == pages[n..n + |next|]
    ensures next[|next| - 1] <= pages[n - 1] + batch <==> Consecutive(next, pages[n - 1] + 1)
  {
    forall k | 0 <= k < |next|
      ensures pages[n - 1] + 1 + k <= next[k] <= next[|next| - 1] - (|next| - 1 - k)
    {
      StepsUp(pages, n - 1, n + k);
      StepsUp(pages, n + k, n + |next| - 1);
    }
  }

  // The suggested window is one batch wide. It takes in the whole next batch exactly when
  // that batch ends within `batch` pages of the last parsed one: its gaps must fit into what
  // a short batch lacks, and a full batch must have none.
  lemma SuggestedWindowCovers(pages: seq<int>, batch: int, budget: int, total: int)
    requires PageRanges.Increasing(pages) && (forall p :: p in pages ==> p <= total)
    requires var (kept, truncated) := Plan(pages, batch, budget); kept != [] && truncated
    ensures var kept := Plan(pages, batch, budget).0;
      var next := Split(pages, batch)[|kept|];
      && batch > 0 && kept[|kept| - 1] != [] && 0 < |next| <= batch
      && var from := ResumePage(kept);
         (Within(next, from, WindowEnd(from, batch, total)) <==> next[|next| - 1] - (from - 1) <= batch)
         && (|next| == batch ==> (Within(next, from, WindowEnd(from, batch, total)) <==> Consecutive(next, from)))
  {
    NextBatch(pages, batch, budget);
    SplitCovers(pages, batch);
    var kept := Plan(pages, batch, budget).0;
    var n := |Flatten(kept)|;
    var next := Split(pages, batch)[|kept|];
    WindowCovers(pages, n, next, batch, total);
    if |next| == batch { FullWindow(pages, n, next, batch); }
  }

  // One selection in which it misses: pages 1, 3 and 5 in batches and a budget of one.
  lemma WindowMissesGap()
    ensures var (kept, truncated) := Plan([1, 3, 5], 1, 1);
      && kept == [[1]] && truncated && Split([1, 3, 5], 1)[1] == [3]
      && !Within([3], ResumePage(kept), WindowEnd(ResumePage(kept), 1, 5))
  {
    var pages := [1, 3, 5];
    assert pages[..1] == [1] && pages[1..] == [3, 5] && [3, 5][..1] == [3] && [3, 5][1..] == [5];
    assert Chunks([5], 1) == [[5]] && Chunks([3, 5], 1) == [[3], [5]];
    assert Split(pages, 1) == [[1], [3], [5]];
    assert [[1], [3], [5]][1..] == [[3], [5]];
    assert Keep([[3], [5]], 0) == [];
    assert [3][0] > WindowEnd(2, 1, 5);
  }

  // ---- Calling again from the resume page until nothing is left ----

  // A call on this selection gets anywhere: nothing to do, no budget, or a first batch that fits it.
  predicate Progresses(pages: seq<int>, batch: int, budget: int) {
    budget <= 0 || pages == [] || (SplitCovers(pages, batch); |Split(pages, batch)[0]| <= budget)
  }

  // Then so does the call that resumes it.
  lemma RestProgresses(pages: seq<int>, n: nat, batch: int, budget: int)
    requires Progresses(pages, batch, budget) && n <= |pages| && batch > 0
    ensures Progresses(pages[n..], batch, budget)
  {
    if pages[n..] != [] {
      assert |Split(pages[n..], batch)[0]| <= |Split(pages, batch)[0]|;
    }
  }

  // Without a batch size there is one batch: it is kept whole or not at all.
  lemma OneBatch(pages: seq<int>, batch: int, budget: int)
    requires batch <= 0 && Progresses(pages, batch, budget)
    ensures !Plan(pages, batch, budget).1
  {
  }

  // Nothing is kept of a selection exactly when its first batch is over the budget.
  lemma NothingKept(pages: seq<int>, batch: int, budget: int)
    requires pages != []
    ensures Split(pages, batch) != []
    ensures Plan(pages, batch, budget).0 == [] <==> budget > 0 && |Split(pages, batch)[0]| > budget
    ensures Progresses(pages, batch, budget) <==> Plan(pages, batch, budget).0 != []
  {
    SplitCovers(pages, batch);
  }

  // What a call sees that is asked for the pages from `at` on.
  function From(pages: seq<int>, at: int): seq<int> {
    if pages == [] then []
    else From(pages[..|pages| - 1], at) + (if pages[|pages| - 1] >= at then [pages[|pages| - 1]] else [])
  }

  lemma {:induction false} FromIsNothing(pages: seq<int>, at: int)
    requires forall i :: 0 <= i < |pages| ==> pages[i] < at
    ensures From(pages, at) == []
  {
    if pages != [] { FromIsNothing(pages[..|pages| - 1], at); }
  }

  lemma {:induction false} FromIsRest(pages: seq<int>, n: nat)
    requires PageRanges.Increasing(pages) && 0 < n <= |pages|
    ensures From(pages, pages[n - 1] + 1) == pages[n..]
  {
    var (m, at) := (|pages| - 1, pages[n - 1] + 1);
    if n <= m {
      FromIsRest(pages[..m], n);
      assert pages[..m][n..] + [pages[m]] == pages[n..];
    } else {
      FromIsNothing(pages, at);
    }
  }

  lemma ResumedSelection(pages: seq<int>, batch: int, budget: int)
    requires PageRanges.Increasing(pages) && Plan(pages, batch, budget).0 != []
    ensures var (kept, n) := (Plan(pages, batch, budget).0, |Flatten(Plan(pages, batch, budget).0)|);
      && 0 < n <= |pages| && kept[|kept| - 1] != [] && From(pages, ResumePage(kept)) == pages[n..]
  {
    LastPlanned(pages, batch, budget);
    FromIsRest(pages, |Flatten(Plan(pages, batch, budget).0)|);
  }

  // What one truncated call leaves to the next.
  lemma CallLeaves(pages: seq<int>, batch: int, budget: int)
    requires PageRanges.Increasing(pages) && Progresses(pages, batch, budget) && Plan(pages, batch, budget).1
    ensures var (kept, n) := (Plan(pages, batch, budget).0, |Flatten(Plan(pages, batch, budget).0)|);
      && kept != [] && kept[|kept| - 1] != [] && 0 < n <= |pages|
      && From(pages, ResumePage(kept)) == pages[n..] && Progresses(pages[n..], batch, budget)
  {
    assert pages != [];
    NothingKept(pages, batch, budget);
    ResumedSelection(pages, batch, budget);
    if batch <= 0 { OneBatch(pages, batch, budget); }
    RestProgresses(pages, |Flatten(Plan(pages, batch, budget).0)|, batch, budget);
  }

  // The resumed selection is again increasing, and shorter.
  lemma RestIncreases(pages: seq<int>, n: nat)
    requires PageRanges.Increasing(pages) && n <= |pages|
    ensures PageRanges.Increasing(pages[n..])
  {
  }

  // The batches of all the calls together.
  ghost function AllCalls(pages: seq<int>, batch: int, budget: int): seq<seq<int>>
    requires PageRanges.Increasing(pages) && Progresses(pages, batch, budget)
    decreases |pages|
  {
    var (kept, truncated) := Plan(pages, batch, budget);
    if !truncated then kept
    else
      CallLeaves(pages, batch, budget);
      RestIncreases(pages, |Flatten(kept)|);
      kept + AllCalls(From(pages, ResumePage(kept)), batch, budget)
  }

  // Following the resume page to the end parses every selected page once, in order; the
  // condition is that the first call keeps anything (NothingKept), and it is then never stuck later.
  lemma {:induction false} ResumingReadsAll(pages: seq<int>, batch: int, budget: int)
    requires PageRanges.Increasing(pages) && Progresses(pages, batch, budget)
    ensures Flatten(AllCalls(pages, batch, budget)) == pages
    decreases |pages|
  {
    var (kept, truncated) := Plan(pages, batch, budget);
    PlanMeans(pages, batch, budget);
    if truncated {
      CallLeaves(pages, batch, budget);
      RestIncreases(pages, |Flatten(kept)|);
      var rest := From(pages, ResumePage(kept));
      ResumingReadsAll(rest, batch, budget);
      FlattenAppend(kept, AllCalls(rest, batch, budget));
    }
  }
}
