// The sliding-window rate limiter of pkg/antirobot/limiter.go. Times are nanoseconds.
module RateLimiter {
  import opened Wrappers

  const SECOND := 1_000_000_000
  const MINUTE := 60 * SECOND

  datatype Limits = Limits(perSec: int, perMin: int, minInterval: int)

  // last is None while the Go field still holds the zero time.
  datatype Windows = Windows(last: Option<int>, sec: seq<int>, min: seq<int>)

  function After(w: seq<int>, cut: int): seq<int> {
    if w == [] then []
    else After(w[..|w| - 1], cut) + (if w[|w| - 1] > cut then [w[|w| - 1]] else [])
  }

  // One call of Allow at time `now`.
  function Step(l: Limits, s: Windows, now: int): (Windows, bool) {
    if l.minInterval > 0 && s.last.Some? && now - s.last.value < l.minInterval then (s, false)
    else
      var (sec, min) := (After(s.sec, now - SECOND), After(s.min, now - MINUTE));
      if |sec| >= l.perSec || |min| >= l.perMin then (Windows(s.last, sec, min), false)
      else (Windows(Some(now), sec + [now], min + [now]), true)
  }

  // ---- The Go code ----

  // filterAfter compacts the first n elements in place.
  method FilterAfter(w: array<int>, n: nat, cut: int) returns (i: nat)
    requires n <= w.Length
    modifies w
    ensures i <= n && w[..i] == After(old(w[..n]), cut)
  {
    i := 0;
    for k := 0 to n
      invariant i <= k && w[..i] == After(old(w[..k]), cut)
      invariant w[k..n] == old(w[k..n])
    {
      assert old(w[..k + 1])[..k] == old(w[..k]);
      var t := w[k];
      assert t == w[k..n][0] == old(w[k]);
      if t > cut {
        w[i] := t;
        i := i + 1;
      }
    }
  }

  // append: in place while the backing array has room, else into a larger copy.
  method Append(w: array<int>, n: nat, x: int) returns (r: array<int>)
    requires n <= w.Length
    modifies w
    ensures r == w || fresh(r)
    ensures n < r.Length && r[..n + 1] == old(w[..n]) + [x]
  {
    r := w;
    if n == w.Length {
      r := new int[2 * n + 1];
      for k := 0 to n
        invariant forall j :: 0 <= j < k ==> r[j] == w[j]
        invariant w[..] == old(w[..])
        modifies r
      {
        r[k] := w[k];
      }
    }
    r[n] := x;
  }

  class RateLimiter {
    const perSec: int
    const perMin: int
    var minInterval: int
    var last: Option<int>
    var secWindow: array<int>
    var secLen: nat
    var minWindow: array<int>
    var minLen: nat

    ghost predicate Valid()
      reads this
    {
      secWindow != minWindow && secLen <= secWindow.Length && minLen <= minWindow.Length
    }

    ghost function State(): Windows
      requires Valid()
      reads this, secWindow, minWindow
    {
      Windows(last, secWindow[..secLen], minWindow[..minLen])
    }

    function Config(): Limits
      reads this
    {
      Limits(perSec, perMin, minInterval)
    }

    constructor (perSec: int, perMin: int)
      ensures Valid() && fresh(secWindow) && fresh(minWindow)
      ensures State() == Windows(None, [], []) && Config() == Limits(perSec, perMin, 0)
    {
      this.perSec, this.perMin, minInterval, last := perSec, perMin, 0, None;
      secWindow, secLen := new int[0], 0;
      minWindow, minLen := new int[0], 0;
    }

    method WithMinInterval(d: int)
      requires Valid()
      modifies this`minInterval
      ensures Valid() && State() == old(State()) && Config() == old(Config()).(minInterval := d)
    {
      minInterval := d;
    }

    // Both compactions of Allow.
    method Trim(now: int)
      requires Valid()
      modifies this`secLen, this`minLen, secWindow, minWindow
      ensures Valid()
      ensures State() == Windows(last, After(old(State().sec), now - SECOND), After(old(State().min), now - MINUTE))
    {
      secLen := FilterAfter(secWindow, secLen, now - SECOND);
      ghost var sec := secWindow[..secLen];
      minLen := FilterAfter(minWindow, minLen, now - MINUTE);
      assert secWindow[..secLen] == sec;
    }

    // The bookkeeping of an admission.
    method Record(now: int)
      requires Valid()
      modifies this`last, this`secWindow, this`minWindow, this`secLen, this`minLen, secWindow, minWindow
      ensures Valid()
      ensures secWindow == old(secWindow) || fresh(secWindow)
      ensures minWindow == old(minWindow) || fresh(minWindow)
      ensures State() == Windows(Some(now), old(State().sec) + [now], old(State().min) + [now])
    {
      last := Some(now);
      secWindow := Append(secWindow, secLen, now);
      secLen := secLen + 1;
      ghost var sec := secWindow[..secLen];
      minWindow := Append(minWindow, minLen, now);
      minLen := minLen + 1;
      assert secWindow[..secLen] == sec;
    }

    method Allow(now: int) returns (ok: bool)
      requires Valid()
      modifies this, secWindow, minWindow
      ensures Valid() && Config() == old(Config())
      ensures secWindow == old(secWindow) || fresh(secWindow)
      ensures minWindow == old(minWindow) || fresh(minWindow)
      ensures (State(), ok) == Step(old(Config()), old(State()), now)
    {
      if minInterval > 0 && last.Some? && now - last.value < minInterval {
        return false;
      }
      Trim(now);
      if secLen >= perSec || minLen >= perMin {
        return false;
      }
      Record(now);
      ok := true;
    }
  }

  // ---- Against the whole admission history ----

  // The stateless check over every admission so far.
  predicate Admissible(l: Limits, history: seq<int>, now: int) {
    && !(l.minInterval > 0 && history != [] && now - history[|history| - 1] < l.minInterval)
    && |After(history, now - 1_000_000_000)| < l.perSec
    && |After(history, now - 60_000_000_000)| < l.perMin
  }

  predicate Monotone(times: seq<int>) {
    forall i, j :: 0 <= i < j < |times| ==> times[i] <= times[j]
  }

  // The limiter's state and admissions after calls at `times`.
  function Run(l: Limits, times: seq<int>): (Windows, seq<int>) {
    if times == [] then (Windows(None, [], []), [])
    else
      var now := times[|times| - 1];
      var (s, history) := Run(l, times[..|times| - 1]);
      var (s', ok) := Step(l, s, now);
      (s', if ok then history + [now] else history)
  }

  // The admissions the stateless check alone would grant.
  function Granted(l: Limits, times: seq<int>): seq<int> {
    if times == [] then []
    else
      var now := times[|times| - 1];
      var history := Granted(l, times[..|times| - 1]);
      if Admissible(l, history, now) then history + [now] else history
  }

  // A window is the history after some past cut.
  ghost predicate Trimmed(w: seq<int>, history: seq<int>, bound: int) {
    exists cut :: cut <= bound && w == After(history, cut)
  }

  ghost predicate Represents(s: Windows, history: seq<int>, now: int) {
    && (s.last == if history == [] then None else Some(history[|history| - 1]))
    && Trimmed(s.sec, history, now - SECOND)
    && Trimmed(s.min, history, now - MINUTE)
  }

  lemma AfterSnoc(w: seq<int>, x: int, cut: int)
    ensures After(w + [x], cut) == After(w, cut) + (if x > cut then [x] else [])
  {
    assert (w + [x])[..|w|] == w;
  }

  lemma {:induction false} AfterTwice(w: seq<int>, c1: int, c2: int)
    requires c1 <= c2
    ensures After(After(w, c1), c2) == After(w, c2)
  {
    if w != [] {
      var (init, x) := (w[..|w| - 1], w[|w| - 1]);
      AfterTwice(init, c1, c2);
      if x > c1 {
        AfterSnoc(After(init, c1), x, c2);
      } else {
        assert After(w, c1) == After(init, c1);
      }
    }
  }

  lemma TrimAgain(w: seq<int>, history: seq<int>, bound: int, cut: int)
    requires Trimmed(w, history, bound) && bound <= cut
    ensures After(w, cut) == After(history, cut)
    ensures Trimmed(After(w, cut), history, cut)
  {
    var c :| c <= bound && w == After(history, c);
    AfterTwice(history, c, cut);
  }

  lemma TrimmedGrows(history: seq<int>, cut: int, now: int)
    requires cut < now
    ensures Trimmed(After(history, cut) + [now], history + [now], cut)
  {
    AfterSnoc(history, now, cut);
  }

  lemma StillTrimmed(w: seq<int>, history: seq<int>, bound: int, later: int)
    requires Trimmed(w, history, bound) && bound <= later
    ensures Trimmed(w, history, later)
  {
  }

  // Refused for the interval: nothing changes.
  lemma TooSoonRepresents(s: Windows, history: seq<int>, before: int, now: int)
    requires Represents(s, history, before) && before <= now
    ensures Represents(s, history, now)
  {
    StillTrimmed(s.sec, history, before - SECOND, now - SECOND);
    StillTrimmed(s.min, history, before - MINUTE, now - MINUTE);
  }

  // Refused for a full window: the windows have been trimmed.
  lemma FullRepresents(s: Windows, history: seq<int>, before: int, now: int)
    requires Represents(s, history, before) && before <= now
    ensures Represents(Windows(s.last, After(s.sec, now - SECOND), After(s.min, now - MINUTE)), history, now)
  {
    TrimAgain(s.sec, history, before - SECOND, now - SECOND);
    TrimAgain(s.min, history, before - MINUTE, now - MINUTE);
  }

  lemma AdmittedRepresents(s: Windows, history: seq<int>, now: int)
    requires After(s.sec, now - SECOND) == After(history, now - SECOND)
    requires After(s.min, now - MINUTE) == After(history, now - MINUTE)
    ensures var s' := Windows(Some(now), After(s.sec, now - SECOND) + [now], After(s.min, now - MINUTE) + [now]);
      Represents(s', history + [now], now)
  {
    TrimmedGrows(history, now - SECOND, now);
    TrimmedGrows(history, now - MINUTE, now);
  }

  lemma WindowsTrimAlike(s: Windows, history: seq<int>, before: int, now: int)
    requires Represents(s, history, before) && before <= now
    ensures After(s.sec, now - SECOND) == After(history, now - SECOND)
    ensures After(s.min, now - MINUTE) == After(history, now - MINUTE)
    ensures s.last == if history == [] then None else Some(history[|history| - 1])
  {
    TrimAgain(s.sec, history, before - SECOND, now - SECOND);
    TrimAgain(s.min, history, before - MINUTE, now - MINUTE);
  }

  lemma StepDecides(l: Limits, s: Windows, history: seq<int>, now: int)
    requires After(s.sec, now - SECOND) == After(history, now - SECOND)
    requires After(s.min, now - MINUTE) == After(history, now - MINUTE)
    requires s.last == if history == [] then None else Some(history[|history| - 1])
    ensures Step(l, s, now).1 == Admissible(l, history, now)
  {
  }

  lemma StepIsStateless(l: Limits, s: Windows, history: seq<int>, before: int, now: int)
    requires Represents(s, history, before) && before <= now
    ensures Step(l, s, now).1 == Admissible(l, history, now)
    ensures Represents(Step(l, s, now).0, if Step(l, s, now).1 then history + [now] else history, now)
  {
    WindowsTrimAlike(s, history, before, now);
    StepDecides(l, s, history, now);
    if Step(l, s, now).1 {
      AdmittedRepresents(s, history, now);
    } else {
      TooSoonRepresents(s, history, before, now);
      FullRepresents(s, history, before, now);
    }
  }

  lemma {:induction false} RunRepresents(l: Limits, times: seq<int>)
    requires Monotone(times)
    ensures Run(l, times).1 == Granted(l, times)
    ensures times != [] ==> Represents(Run(l, times).0, Run(l, times).1, times[|times| - 1])
  {
    if times != [] {
      var (init, now) := (times[..|times| - 1], times[|times| - 1]);
      RunRepresents(l, init);
      if init == [] {
        assert After([], now - SECOND) == [] && After([], now - MINUTE) == [];
        assert Represents(Windows(None, [], []), [], now);
        StepIsStateless(l, Windows(None, [], []), [], now, now);
      } else {
        StepIsStateless(l, Run(l, init).0, Run(l, init).1, init[|init| - 1], now);
      }
    }
  }

  // With a monotone clock the limiter grants exactly what the stateless check grants,
  // although it only keeps trimmed windows.
  lemma LimiterIsStateless(l: Limits, times: seq<int>)
    requires Monotone(times)
    ensures Run(l, times).1 == Granted(l, times)
  {
    RunRepresents(l, times);
  }

  // A window of an ordered history is its suffix of strictly later times.
  lemma {:induction false} AfterIsSuffix(w: seq<int>, i: nat, cut: int)
    requires i <= |w| && (forall k :: 0 <= k < i ==> w[k] <= cut) && (forall k :: i <= k < |w| ==> w[k] > cut)
    ensures After(w, cut) == w[i..]
  {
    if w != [] {
      var n := |w| - 1;
      if i <= n {
        AfterIsSuffix(w[..n], i, cut);
        assert w[..n][i..] + [w[n]] == w[i..];
      } else {
        AfterIsSuffix(w[..n], n, cut);
        assert w[..n][n..] == w[i..];
      }
    }
  }

  lemma {:induction false} AfterAtLeast(w: seq<int>, i: nat, cut: int)
    requires Monotone(w) && i < |w| && w[i] > cut
    ensures |After(w, cut)| >= |w| - i
  {
    if i < |w| - 1 {
      AfterAtLeast(w[..|w| - 1], i, cut);
    }
  }

  // Any stretch of admissions shorter than `width` holds at most `most`.
  predicate AtMostPer(history: seq<int>, width: int, most: int) {
    forall i, j :: 0 <= i <= j < |history| && history[j] - history[i] < width ==> j - i + 1 <= most
  }

  predicate Spaced(history: seq<int>, gap: int) {
    forall i, j :: 0 <= i < j < |history| ==> history[j] - history[i] >= gap
  }

  lemma {:induction false} GrantedOrdered(l: Limits, times: seq<int>)
    requires Monotone(times)
    ensures Monotone(Granted(l, times))
    ensures forall k :: 0 <= k < |Granted(l, times)| ==> Granted(l, times)[k] <= times[|times| - 1]
  {
    if times != [] {
      GrantedOrdered(l, times[..|times| - 1]);
    }
  }

  lemma WindowGrows(h: seq<int>, now: int, width: int, most: int)
    requires AtMostPer(h, width, most) && Monotone(h + [now]) && width > 0
    requires |After(h, now - width)| < most
    ensures AtMostPer(h + [now], width, most)
  {
    forall i | 0 <= i < |h| && now - h[i] < width
      ensures |h| - i + 1 <= most
    {
      assert forall k :: 0 <= k < |h| ==> (h + [now])[k] == h[k];
      AfterAtLeast(h, i, now - width);
    }
  }

  // No half-open second holds more than perSec admissions, no half-open minute more than
  // perMin, and admissions are at least minInterval apart.
  lemma {:induction false} GrantedRespectsWindows(l: Limits, times: seq<int>)
    requires Monotone(times)
    ensures AtMostPer(Granted(l, times), SECOND, l.perSec)
    ensures AtMostPer(Granted(l, times), MINUTE, l.perMin)
    ensures l.minInterval > 0 ==> Spaced(Granted(l, times), l.minInterval)
  {
    if times != [] {
      var (init, now) := (times[..|times| - 1], times[|times| - 1]);
      GrantedRespectsWindows(l, init);
      GrantedOrdered(l, times);
      GrantedOrdered(l, init);
      var h := Granted(l, init);
      if Admissible(l, h, now) {
        WindowGrows(h, now, SECOND, l.perSec);
        WindowGrows(h, now, MINUTE, l.perMin);
      }
    }
  }

  lemma WindowsRespected(l: Limits, times: seq<int>)
    requires Monotone(times)
    ensures var admitted := Run(l, times).1;
      && AtMostPer(admitted, 1_000_000_000, l.perSec) && AtMostPer(admitted, 60_000_000_000, l.perMin)
      && (l.minInterval > 0 ==> Spaced(admitted, l.minInterval))
  {
    LimiterIsStateless(l, times);
    GrantedRespectsWindows(l, times);
  }
}
