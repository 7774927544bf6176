// Provider choice and failover of the API key pool (pkg/search/apipool/apipool.go).
module ApiPool {
  import opened Wrappers

  // available: keys currently usable; None for a free engine without a pool.
  datatype Provider = Provider(name: string, available: Option<nat>)

  function EffectiveWeight(weights: map<string, int>, p: Provider): nat {
    match p.available
    case None => 1
    case Some(keys) =>
      var w: nat := if p.name !in weights then 1 else if weights[p.name] > 0 then weights[p.name] else 0;
      w * keys
  }

  function Weights(weights: map<string, int>, ps: seq<Provider>): seq<nat> {
    seq(|ps|, i requires 0 <= i < |ps| => EffectiveWeight(weights, ps[i]))
  }

  function Sum(ws: seq<nat>, n: nat): nat
    requires n <= |ws|
  {
    if n == 0 then 0 else Sum(ws, n - 1) + ws[n - 1]
  }

  // The running subtraction from provider i on.
  function Draw(ws: seq<nat>, i: nat, r: nat): (k: nat)
    requires i <= |ws| && Sum(ws, i) + r < Sum(ws, |ws|)
    ensures i <= k < |ws| && Sum(ws, k) <= Sum(ws, i) + r < Sum(ws, k + 1)
    decreases |ws| - i
  {
    if r < ws[i] then i else Draw(ws, i + 1, r - ws[i])
  }

  lemma {:induction false} SumMonotone(ws: seq<nat>, i: nat, j: nat)
    requires i <= j <= |ws|
    ensures Sum(ws, i) <= Sum(ws, j)
  {
    if i < j { SumMonotone(ws, i, j - 1); }
  }

  lemma DrawIs(ws: seq<nat>, r: nat, p: nat)
    requires r < Sum(ws, |ws|) && p < |ws|
    ensures Draw(ws, 0, r) == p <==> Sum(ws, p) <= r < Sum(ws, p + 1)
  {
    var k := Draw(ws, 0, r);
    if k < p { SumMonotone(ws, k + 1, p); }
    if p < k { SumMonotone(ws, p + 1, k); }
  }

  function Span(lo: int, hi: int): (s: set<int>)
    requires lo <= hi
    ensures |s| == hi - lo && forall r :: r in s <==> lo <= r < hi
    decreases hi - lo
  {
    if lo == hi then {} else Span(lo, hi - 1) + {hi - 1}
  }

  // The draws that start at provider i.
  function Draws(ws: seq<nat>, i: nat): set<int> {
    set r: int | 0 <= r < Sum(ws, |ws|) && Draw(ws, 0, r) == i
  }

  // Of all equally likely draws, exactly effectiveWeight(i) start at provider i.
  lemma WeightedChoiceIsExact(ws: seq<nat>, i: nat)
    requires i < |ws|
    ensures |Draws(ws, i)| == ws[i]
  {
    SumMonotone(ws, i + 1, |ws|);
    forall r | 0 <= r < Sum(ws, |ws|)
      ensures Draw(ws, 0, r) == i <==> Sum(ws, i) <= r < Sum(ws, i + 1)
    {
      DrawIs(ws, r, i);
    }
    assert Draws(ws, i) == Span(Sum(ws, i), Sum(ws, i + 1));
  }

  datatype Strategy = RoundRobin | Priority | Weighted

  datatype Answer = Results(text: string) | NoProviders | Canceled | AllFailed

  // What calling each provider yields (None: all its keys fail), and whether the request
  // is cancelled when the given attempt is about to start.
  datatype World = World(call: nat -> Option<string>, canceled: nat -> bool)

  // The provider k places after the cursor.
  function At(cursor: nat, n: nat, k: nat): (p: nat)
    requires n > 0
    ensures p < n
  {
    (cursor + k) % n
  }

  // From attempt i on, in cyclic order from `start`.
  function Attempts(w: World, n: nat, start: nat, i: nat): Answer
    requires n > 0 && i <= n
    decreases n - i
  {
    if i == n then AllFailed
    else if w.canceled(i) then Canceled
    else match w.call(At(start, n, i))
      case Some(text) => Results(text)
      case None => Attempts(w, n, start, i + 1)
  }

  predicate UsesCursor(strategy: Strategy, ws: seq<nat>) {
    strategy == RoundRobin || (strategy == Weighted && Sum(ws, |ws|) == 0)
  }

  // Where a request starts; `draw` is only looked at when some weight is positive.
  function Start(strategy: Strategy, ws: seq<nat>, cursor: nat, draw: nat): nat
    requires ws != [] && (Sum(ws, |ws|) > 0 ==> draw < Sum(ws, |ws|))
  {
    if UsesCursor(strategy, ws) then cursor % |ws|
    else if strategy == Priority then 0
    else Draw(ws, 0, draw)
  }

  // The calls that lead to an answer: every one but the last failed, and the answer says
  // why there are no more.
  predicate Explains(w: World, n: nat, a: Answer, tried: seq<nat>) {
    && |tried| <= n
    && (forall k :: 0 <= k < |tried| - 1 ==> w.call(tried[k]).None?)
    && match a
       case Results(text) => tried != [] && w.call(tried[|tried| - 1]) == Some(text)
       case NoProviders => n == 0
       case Canceled => |tried| < n && w.canceled(|tried|) && (tried != [] ==> w.call(tried[|tried| - 1]).None?)
       case AllFailed => |tried| == n && (tried != [] ==> w.call(tried[|tried| - 1]).None?)
  }

  // A free engine weighs 1, an engine with keys its configured weight, or 1 when it has none,
  // for every usable key; a weight that is not positive takes it out.
  lemma EffectiveWeightMeans(weights: map<string, int>, name: string, keys: nat)
    ensures EffectiveWeight(weights, Provider(name, None)) == 1
    ensures name !in weights ==> EffectiveWeight(weights, Provider(name, Some(keys))) == keys
    ensures name in weights && weights[name] > 0 ==>
      EffectiveWeight(weights, Provider(name, Some(keys))) == weights[name] * keys
    ensures name in weights && weights[name] <= 0 ==> EffectiveWeight(weights, Provider(name, Some(keys))) == 0
  {
  }

  lemma {:induction false} SumIsZero(ws: seq<nat>, n: nat)
    requires n <= |ws|
    ensures Sum(ws, n) == 0 <==> forall i :: 0 <= i < n ==> ws[i] == 0
  {
    if n > 0 { SumIsZero(ws, n - 1); }
  }

  lemma MulGrows(n: int, t: int)
    requires n > 0
    ensures t >= 1 ==> n * t >= n
    ensures t <= -1 ==> n * t <= -n
  {
  }

  lemma QuotientUnique(n: int, x: int, q: int, r: int)
    requires n > 0 && 0 <= r < n && x == n * q + r
    ensures x % n == r
  {
    var (d, m) := (x / n, x % n);
    assert x == n * d + m;
    assert n * (q - d) == n * q - n * d;
    MulGrows(n, q - d);
  }

  lemma AtIs(cursor: nat, n: nat, k: nat)
    requires k < n
    ensures At(cursor, n, k) == if cursor % n + k < n then cursor % n + k else cursor % n + k - n
  {
    var (q, r) := (cursor / n, cursor % n);
    assert cursor == n * q + r;
    if r + k < n {
      QuotientUnique(n, cursor + k, q, r + k);
    } else {
      assert n * (q + 1) == n * q + n;
      QuotientUnique(n, cursor + k, q + 1, r + k - n);
    }
  }

  // Any n consecutive values of the cursor, and the attempts of one request, meet every
  // provider exactly once.
  lemma CyclesOnce(cursor: nat, n: nat, p: nat)
    requires p < n
    ensures exists k :: 0 <= k < n && At(cursor, n, k) == p
    ensures forall j, k :: 0 <= j < k < n ==> At(cursor, n, j) != At(cursor, n, k)
  {
    forall j, k | 0 <= j < k < n ensures At(cursor, n, j) != At(cursor, n, k) {
      AtIs(cursor, n, j);
      AtIs(cursor, n, k);
    }
    var q := cursor % n;
    AtIs(cursor, n, if p >= q then p - q else p + n - q);
  }

  // Where n consecutive requests start.
  function Starts(strategy: Strategy, ws: seq<nat>, cursor: nat, draw: nat): (starts: seq<int>)
    requires ws != [] && (Sum(ws, |ws|) > 0 ==> draw < Sum(ws, |ws|))
    ensures |starts| == |ws| && forall k :: 0 <= k < |ws| ==> starts[k] == Start(strategy, ws, cursor + k, draw)
  {
    seq(|ws|, k requires 0 <= k < |ws| => Start(strategy, ws, cursor + k, draw))
  }

  // Any n consecutive round-robin requests start once at each of the n providers; so do weighted
  // ones when no provider has weight. Priority always starts at the first.
  lemma StartsRotate(strategy: Strategy, ws: seq<nat>, cursor: nat, draw: nat, p: nat)
    requires p < |ws| && (Sum(ws, |ws|) > 0 ==> draw < Sum(ws, |ws|))
    ensures strategy == Priority ==> Start(strategy, ws, cursor, draw) == 0
    ensures strategy == RoundRobin || (strategy == Weighted && forall i :: 0 <= i < |ws| ==> ws[i] == 0) ==>
      && p in Starts(strategy, ws, cursor, draw)
      && (forall j, k :: 0 <= j < k < |ws| ==>
            Starts(strategy, ws, cursor, draw)[j] != Starts(strategy, ws, cursor, draw)[k])
    ensures strategy == Weighted && (exists i :: 0 <= i < |ws| && ws[i] > 0) ==>
      (Start(strategy, ws, cursor, draw) == p <==> Sum(ws, p) <= draw < Sum(ws, p + 1))
  {
    SumIsZero(ws, |ws|);
    CyclesOnce(cursor, |ws|, p);
    if UsesCursor(strategy, ws) {
      var starts := Starts(strategy, ws, cursor, draw);
      assert forall k: nat :: k < |ws| ==> starts[k] == At(cursor, |ws|, k);
      var k :| 0 <= k < |ws| && At(cursor, |ws|, k) == p;
      assert starts[k] == p;
    } else if strategy == Weighted {
      DrawIs(ws, draw, p);
    }
  }

  class Pool {
    const providers: seq<Provider>
    const strategy: Strategy
    var weights: map<string, int>
    var idx: nat

    constructor (strategy: Strategy, providers: seq<Provider>, weights: map<string, int>)
      ensures this.strategy == strategy && this.providers == providers && this.weights == weights && idx == 0
    {
      this.strategy, this.providers, this.weights, idx := strategy, providers, weights, 0;
    }

    // `draw` is rand.IntN(total).
    method PickWeighted(draw: nat) returns (start: nat, ok: bool)
      requires var ws := Weights(weights, providers); Sum(ws, |ws|) > 0 ==> draw < Sum(ws, |ws|)
      ensures var ws := Weights(weights, providers);
        && (ok <==> Sum(ws, |ws|) > 0) && (ok ==> start == Draw(ws, 0, draw))
    {
      var ws := Weights(weights, providers);
      var total := 0;
      for i := 0 to |ws|
        invariant total == Sum(ws, i)
      {
        total := total + ws[i];
      }
      if total <= 0 {
        return 0, false;
      }
      var r := draw;
      for i := 0 to |ws|
        invariant r >= 0 && Sum(ws, i) + r == draw
        invariant Draw(ws, 0, draw) == Draw(ws, i, r)
      {
        if r < ws[i] {
          return i, true;
        }
        r := r - ws[i];
      }
      assert false;
    }

    method PickStartIndex(draw: nat) returns (start: nat)
      requires providers != []
      requires var ws := Weights(weights, providers); Sum(ws, |ws|) > 0 ==> draw < Sum(ws, |ws|)
      modifies this`idx
      ensures var ws := Weights(weights, providers);
        && start == Start(strategy, ws, old(idx), draw) < |providers|
        && idx == old(idx) + if UsesCursor(strategy, ws) then 1 else 0
    {
      if strategy == Priority {
        return 0;
      }
      if strategy == Weighted {
        var pick, ok := PickWeighted(draw);
        if ok {
          return pick;
        }
      }
      start := idx % |providers|;
      idx := idx + 1;
    }

    // searchRaw; `tried` lists the providers called, in order.
    method Search(w: World, draw: nat) returns (a: Answer, tried: seq<nat>)
      requires var ws := Weights(weights, providers); Sum(ws, |ws|) > 0 ==> draw < Sum(ws, |ws|)
      modifies this`idx
      ensures providers == [] ==> a == NoProviders && tried == [] && idx == old(idx)
      ensures providers != [] ==>
        var ws := Weights(weights, providers);
        var start := Start(strategy, ws, old(idx), draw);
        && a == Attempts(w, |providers|, start, 0)
        && (forall k :: 0 <= k < |tried| ==> tried[k] == At(start, |providers|, k))
        && Explains(w, |providers|, a, tried)
        && idx == old(idx) + if UsesCursor(strategy, ws) then 1 else 0
    {
      if |providers| == 0 {
        return NoProviders, [];
      }
      var start := PickStartIndex(draw);
      a, tried := SearchFrom(w, start);
    }

    method SearchFrom(w: World, start: nat) returns (a: Answer, tried: seq<nat>)
      requires providers != []
      ensures a == Attempts(w, |providers|, start, 0)
      ensures forall k :: 0 <= k < |tried| ==> tried[k] == At(start, |providers|, k)
      ensures Explains(w, |providers|, a, tried)
    {
      tried := [];
      var n := |providers|;
      for i := 0 to n
        invariant |tried| == i && Attempts(w, n, start, 0) == Attempts(w, n, start, i)
        invariant forall k :: 0 <= k < i ==> tried[k] == At(start, n, k) && w.call(tried[k]).None?
      {
        if w.canceled(i) {
          return Canceled, tried;
        }
        var p := At(start, n, i);
        tried := tried + [p];
        var r := w.call(p);
        if r.Some? {
          return Results(r.value), tried;
        }
      }
      a := AllFailed;
    }
  }

  lemma {:induction false} FirstSuccess(w: World, n: nat, start: nat, i: nat) returns (k: nat)
    requires n > 0 && i <= n && forall j: nat :: j < n ==> !w.canceled(j)
    ensures i <= k <= n && forall j :: i <= j < k ==> w.call(At(start, n, j)).None?
    ensures k == n ==> Attempts(w, n, start, i) == AllFailed
    ensures k < n ==>
      w.call(At(start, n, k)).Some? && Attempts(w, n, start, i) == Results(w.call(At(start, n, k)).value)
    decreases n - i
  {
    if i == n || w.call(At(start, n, i)).Some? {
      k := i;
    } else {
      k := FirstSuccess(w, n, start, i + 1);
    }
  }

  // Unless cancelled, a request fails only if every provider failed; otherwise it answers
  // with what some provider returned.
  lemma FailsOnlyIfAllFail(w: World, n: nat, start: nat)
    requires n > 0 && forall i: nat :: i < n ==> !w.canceled(i)
    ensures Attempts(w, n, start, 0) == AllFailed <==> forall p: nat :: p < n ==> w.call(p).None?
    ensures Attempts(w, n, start, 0) != AllFailed ==>
      exists p: nat :: p < n && w.call(p).Some? && Attempts(w, n, start, 0) == Results(w.call(p).value)
  {
    var k := FirstSuccess(w, n, start, 0);
    if k == n {
      forall p: nat | p < n ensures w.call(p).None? {
        CyclesOnce(start, n, p);
        var j :| 0 <= j < n && At(start, n, j) == p;
      }
    } else {
      assert w.call(At(start, n, k)).Some?;
    }
  }
}
