// Every interleaving of any number of request views over one cache table. Each SQL
// statement or transaction of pkg/cache/sqlite.go is one step; a Lookup is three of them.
module ResultCacheMachine {
  import opened Wrappers
  import opened ResultCache

  datatype Request = Request(view: View, query: string, intent: string, academic: bool, now: int)

  // Where a running Lookup stands, with the row it has read.
  datatype Lookup =
    | ReadExact(req: Request)
    | ReadFallback(req: Request)
    | Evicting(req: Request, id: nat, rec: Row)
    | Touching(req: Request, id: nat, rec: Row, hit: Hit)
    | Done(req: Request, out: Outcome)

  // The writes the table has accepted, with the view that issued them.
  datatype Write =
    | Stored(view: View, query: string, row: Row)
    | Summarized(view: View, query: string, intent: string, summary: string)

  datatype System = System(table: Table, lookups: map<nat, Lookup>, pinned: set<View>, writes: set<Write>)

  // `pick` is the row a SELECT returned; `lost` says that an UPDATE or DELETE whose
  // error Lookup ignores did not reach the table.
  datatype Step =
    | Pin(namespace: string)
    | Clear
    | Store(view: View, query: string, intent: string, academic: bool, raw: string, summary: string, now: int,
        ttlNanos: int)
    | UpdateSummary(view: View, query: string, intent: string, summary: string)
    | EvictStale(cutoff: int)
    | Begin(pid: nat, req: Request)
    | SelectExact(pid: nat, pick: Option<nat>)
    | SelectFallback(pid: nat, pick: Option<nat>)
    | Evict(pid: nat, lost: bool)
    | Touch(pid: nat, lost: bool)

  function KeyOf(req: Request): string { Key(req.view, req.query) }

  const INIT := System(Table(0, map[], 1), map[], {}, {})

  ghost predicate Enabled(s: System, step: Step) {
    match step
    case Pin(_) => true
    case Clear => true
    case Store(v, _, _, _, _, _, _, _) => v in s.pinned
    case UpdateSummary(v, _, _, _) => v in s.pinned
    case EvictStale(_) => true
    case Begin(pid, req) => pid !in s.lookups && req.view in s.pinned
    case SelectExact(pid, pick) =>
      && pid in s.lookups && s.lookups[pid].ReadExact?
      && var req := s.lookups[pid].req; IsExactPick(s.table, KeyOf(req), req.intent, req.academic, pick)
    case SelectFallback(pid, pick) =>
      && pid in s.lookups && s.lookups[pid].ReadFallback?
      && IsFallbackPick(s.table, KeyOf(s.lookups[pid].req), pick)
    case Evict(pid, _) => pid in s.lookups && s.lookups[pid].Evicting?
    case Touch(pid, _) => pid in s.lookups && s.lookups[pid].Touching?
  }

  function Selected(req: Request, id: nat, row: Row, exact: bool): Lookup {
    match Answer(req.now, row, exact)
    case Miss => Evicting(req, id, row)
    case Found(rec, hit) => Touching(req, id, rec, hit)
  }

  function NewRow(st: Step): Row
    requires st.Store?
  {
    Row(Key(st.view, st.query), st.intent, st.academic, st.raw, st.summary, st.now, st.now, StoredTtl(st.ttlNanos))
  }

  ghost function Apply(s: System, step: Step): System
    requires Enabled(s, step)
  {
    match step
    case Pin(ns) => s.(pinned := s.pinned + {View(ns, s.table.generation)})
    case Clear => s.(table := Cleared(s.table))
    case Store(v, q, _, _, _, _, _, _) =>
      s.(table := Upserted(s.table, v.generation, NewRow(step)),
         writes := if v.generation == s.table.generation then s.writes + {Stored(v, q, NewRow(step))} else s.writes)
    case UpdateSummary(v, q, intent, summary) =>
      s.(table := SummaryUpdated(s.table, Key(v, q), intent, summary),
         writes := s.writes + {Summarized(v, q, intent, summary)})
    case EvictStale(cutoff) => s.(table := StaleEvicted(s.table, cutoff))
    case Begin(pid, req) => s.(lookups := s.lookups[pid := ReadExact(req)])
    case SelectExact(pid, pick) =>
      var req := s.lookups[pid].req;
      s.(lookups := s.lookups[pid :=
        if pick.Some? then Selected(req, pick.value, s.table.rows[pick.value], true) else ReadFallback(req)])
    case SelectFallback(pid, pick) =>
      var req := s.lookups[pid].req;
      s.(lookups := s.lookups[pid :=
        if pick.Some? then Selected(req, pick.value, s.table.rows[pick.value], false) else Done(req, Miss)])
    case Evict(pid, lost) =>
      var l := s.lookups[pid];
      s.(table := if lost then s.table else Evicted(s.table, l.id), lookups := s.lookups[pid := Done(l.req, Miss)])
    case Touch(pid, lost) =>
      var l := s.lookups[pid];
      s.(table := if lost then s.table else Touched(s.table, l.id, l.req.now),
         lookups := s.lookups[pid := Done(l.req, Found(l.rec, l.hit))])
  }

  // ---- Runs ----

  ghost predicate ValidRun(s: System, steps: seq<Step>)
    decreases |steps|
  {
    steps == [] || (Enabled(s, steps[0]) && ValidRun(Apply(s, steps[0]), steps[1..]))
  }

  ghost function Exec(s: System, steps: seq<Step>): System
    requires ValidRun(s, steps)
    decreases |steps|
  {
    if steps == [] then s else Exec(Apply(s, steps[0]), steps[1..])
  }

  // ---- The inductive invariant ----

  ghost predicate SummaryGiven(r: Row, writes: set<Write>) {
    exists u :: u in writes && u.Summarized? && Key(u.view, u.query) == r.key && u.intent == r.intent
        && u.summary == r.summary
  }

  ghost predicate Explains(w: Write, r: Row, writes: set<Write>)
    requires w.Stored?
  {
    && r.key == Key(w.view, w.query)
    && r == w.row.(summary := r.summary, lastHitAt := r.lastHitAt)
    && (r.summary == w.row.summary || (w.row.summary == "" && SummaryGiven(r, writes)))
  }

  // Row r of a generation-g table is what some accepted Store of generation g wrote,
  // its summary possibly filled in later for the same key and intent.
  ghost predicate Provenance(r: Row, generation: nat, writes: set<Write>) {
    exists w :: w in writes && w.Stored? && w.view.generation == generation && Explains(w, r, writes)
  }

  // The row a Lookup holds is a genuine answer to its request.
  ghost predicate Genuine(req: Request, rec: Row, writes: set<Write>) {
    rec.key == KeyOf(req) && Provenance(rec, req.view.generation, writes)
  }

  ghost predicate LiveAnswer(req: Request, rec: Row, hit: Hit, writes: set<Write>) {
    && Genuine(req, rec, writes)
    && !Expired(req.now, rec)
    && (hit == ExactIntent ==> rec.intent == req.intent && rec.academic == req.academic && rec.summary != "")
  }

  // A held id still denotes a row of the same key, or nothing.
  ghost predicate HeldId(t: Table, req: Request, id: nat) {
    id < t.nextId && (id in t.rows ==> t.rows[id].key == KeyOf(req))
  }

  ghost predicate LookupInv(t: Table, writes: set<Write>, l: Lookup) {
    match l
    case ReadExact(_) => true
    case ReadFallback(_) => true
    case Evicting(req, id, rec) => HeldId(t, req, id) && Genuine(req, rec, writes) && Expired(req.now, rec)
    case Touching(req, id, rec, hit) => HeldId(t, req, id) && LiveAnswer(req, rec, hit, writes)
    case Done(req, out) => out.Found? ==> LiveAnswer(req, out.rec, out.hit, writes)
  }

  ghost predicate TableInv(t: Table, writes: set<Write>) {
    && Unique(t) && IdsBelowNext(t)
    && forall i :: i in t.rows ==> Provenance(t.rows[i], t.generation, writes)
  }

  ghost predicate Inv(s: System) {
    && TableInv(s.table, s.writes)
    && (forall v :: v in s.pinned ==> v.generation <= s.table.generation)
    && (forall p :: p in s.lookups ==> s.lookups[p].req.view in s.pinned && LookupInv(s.table, s.writes, s.lookups[p]))
  }

  lemma ProvenanceMonotone(r: Row, generation: nat, w1: set<Write>, w2: set<Write>)
    requires Provenance(r, generation, w1) && w1 <= w2
    ensures Provenance(r, generation, w2)
  {
    var w :| w in w1 && w.Stored? && w.view.generation == generation && Explains(w, r, w1);
    assert w in w2 && Explains(w, r, w2);
  }

  lemma LookupInvMonotone(t1: Table, w1: set<Write>, t2: Table, w2: set<Write>, l: Lookup)
    requires LookupInv(t1, w1, l) && w1 <= w2 && t1.nextId <= t2.nextId
    requires forall i :: i in t2.rows && i < t1.nextId ==> i in t1.rows && t2.rows[i].key == t1.rows[i].key
    ensures LookupInv(t2, w2, l)
  {
    match l
    case ReadExact(_) =>
    case ReadFallback(_) =>
    case Evicting(req, _, rec) => ProvenanceMonotone(rec, req.view.generation, w1, w2);
    case Touching(req, _, rec, _) => ProvenanceMonotone(rec, req.view.generation, w1, w2);
    case Done(req, out) =>
      if out.Found? { ProvenanceMonotone(out.rec, req.view.generation, w1, w2); }
  }

  // What each step does to the table, as the running Lookups see it.
  ghost predicate TableEvolves(t1: Table, t2: Table) {
    && t1.generation <= t2.generation && t1.nextId <= t2.nextId
    && forall i :: i in t2.rows && i < t1.nextId ==> i in t1.rows && t2.rows[i].key == t1.rows[i].key
  }

  lemma StoreKeepsTable(s: System, step: Step)
    requires Inv(s) && step.Store? && Enabled(s, step)
    ensures TableInv(Apply(s, step).table, Apply(s, step).writes) && TableEvolves(s.table, Apply(s, step).table)
  {
    var (t, s') := (s.table, Apply(s, step));
    var t', row := s'.table, NewRow(step);
    UpsertEffect(t, step.view.generation, row);
    if step.view.generation == t.generation {
      var w := Stored(step.view, step.query, row);
      assert w in s'.writes && Explains(w, row, s'.writes);
      assert Provenance(row, t.generation, s'.writes);
      forall i | i in t'.rows && t'.rows[i] != row
        ensures Provenance(t'.rows[i], t.generation, s'.writes)
      {
        ProvenanceMonotone(t.rows[i], t.generation, s.writes, s'.writes);
      }
    }
  }

  // Filling in an empty summary leaves a row explained.
  lemma SummarizedProvenance(r: Row, generation: nat, writes: set<Write>, u: Write)
    requires Provenance(r, generation, writes) && r.summary == ""
    requires u in writes && u.Summarized? && Key(u.view, u.query) == r.key && u.intent == r.intent
    ensures Provenance(r.(summary := u.summary), generation, writes)
  {
    var w :| w in writes && w.Stored? && w.view.generation == generation && Explains(w, r, writes);
    var r' := r.(summary := u.summary);
    assert SummaryGiven(r', writes);
    assert Explains(w, r', writes);
  }

  lemma SummaryKeepsKeys(t: Table, key: string, intent: string, summary: string)
    requires Unique(t) && IdsBelowNext(t)
    ensures var t' := SummaryUpdated(t, key, intent, summary);
      Unique(t') && IdsBelowNext(t') && TableEvolves(t, t')
  {
    var t' := SummaryUpdated(t, key, intent, summary);
    assert forall i :: i in t'.rows ==> Matches(t'.rows[i], t.rows[i].key, t.rows[i].intent, t.rows[i].academic);
  }

  lemma SummaryKeepsTable(s: System, step: Step)
    requires Inv(s) && step.UpdateSummary? && Enabled(s, step)
    ensures TableInv(Apply(s, step).table, Apply(s, step).writes) && TableEvolves(s.table, Apply(s, step).table)
  {
    var (t, s') := (s.table, Apply(s, step));
    SummaryKeepsKeys(t, Key(step.view, step.query), step.intent, step.summary);
    forall i | i in s'.table.rows
      ensures Provenance(s'.table.rows[i], t.generation, s'.writes)
    {
      var (r, r') := (t.rows[i], s'.table.rows[i]);
      ProvenanceMonotone(r, t.generation, s.writes, s'.writes);
      if r' != r {
        SummarizedProvenance(r, t.generation, s'.writes, Summarized(step.view, step.query, step.intent, step.summary));
      }
    }
  }

  lemma TouchKeepsTable(t: Table, writes: set<Write>, id: nat, now: int)
    requires TableInv(t, writes)
    ensures TableInv(Touched(t, id, now), writes) && TableEvolves(t, Touched(t, id, now))
  {
    if id in t.rows {
      var r := t.rows[id];
      var w :| w in writes && w.Stored? && w.view.generation == t.generation && Explains(w, r, writes);
      var r' := r.(lastHitAt := now);
      if SummaryGiven(r, writes) { assert SummaryGiven(r', writes); }
      assert Explains(w, r', writes);
    }
  }

  lemma StepKeepsTable(s: System, step: Step)
    requires Inv(s) && Enabled(s, step)
    ensures var s' := Apply(s, step);
      TableInv(s'.table, s'.writes) && TableEvolves(s.table, s'.table) && s.writes <= s'.writes
  {
    match step
    case Store(_, _, _, _, _, _, _, _) => StoreKeepsTable(s, step);
    case UpdateSummary(_, _, _, _) => SummaryKeepsTable(s, step);
    case Touch(pid, _) => TouchKeepsTable(s.table, s.writes, s.lookups[pid].id, s.lookups[pid].req.now);
    case _ =>
  }

  // A pinned view's request only ever selects rows of its own generation.
  lemma SelectedIsGenuine(s: System, req: Request, id: nat, exact: bool)
    requires Inv(s) && id in s.table.rows && s.table.rows[id].key == KeyOf(req)
    requires exact ==> Matches(s.table.rows[id], KeyOf(req), req.intent, req.academic)
    ensures req.view.generation == s.table.generation
    ensures LookupInv(s.table, s.writes, Selected(req, id, s.table.rows[id], exact))
  {
    var r := s.table.rows[id];
    var w :| w in s.writes && w.Stored? && w.view.generation == s.table.generation && Explains(w, r, s.writes);
    KeyInjective(w.view.namespace, w.view.generation, w.query, req.view.namespace, req.view.generation, req.query);
  }

  lemma StepKeepsLookup(s: System, step: Step, p: nat)
    requires Inv(s) && Enabled(s, step) && p in Apply(s, step).lookups
    requires TableEvolves(s.table, Apply(s, step).table) && s.writes <= Apply(s, step).writes
    ensures var s' := Apply(s, step);
      s'.lookups[p].req.view in s'.pinned && LookupInv(s'.table, s'.writes, s'.lookups[p])
  {
    var s' := Apply(s, step);
    if p in s.lookups {
      LookupInvMonotone(s.table, s.writes, s'.table, s'.writes, s.lookups[p]);
      if (step.SelectExact? || step.SelectFallback?) && step.pid == p && step.pick.Some? {
        SelectedIsGenuine(s, s.lookups[p].req, step.pick.value, step.SelectExact?);
      }
    }
  }

  lemma StepKeepsInv(s: System, step: Step)
    requires Inv(s) && Enabled(s, step)
    ensures Inv(Apply(s, step))
  {
    var s' := Apply(s, step);
    StepKeepsTable(s, step);
    forall p | p in s'.lookups
      ensures s'.lookups[p].req.view in s'.pinned && LookupInv(s'.table, s'.writes, s'.lookups[p])
    {
      StepKeepsLookup(s, step, p);
    }
  }

  lemma {:induction false} RunKeepsInv(s: System, steps: seq<Step>)
    requires Inv(s) && ValidRun(s, steps)
    ensures Inv(Exec(s, steps))
    ensures s.pinned <= Exec(s, steps).pinned && s.table.generation <= Exec(s, steps).table.generation
    decreases |steps|
  {
    if steps != [] {
      StepKeepsInv(s, steps[0]);
      StepKeepsTable(s, steps[0]);
      RunKeepsInv(Apply(s, steps[0]), steps[1..]);
    }
  }

  lemma {:induction false} RunSplits(s: System, a: seq<Step>, b: seq<Step>)
    requires ValidRun(s, a + b)
    ensures ValidRun(s, a) && ValidRun(Exec(s, a), b) && Exec(s, a + b) == Exec(Exec(s, a), b)
    decreases |a|
  {
    if a == [] {
      assert a + b == b;
    } else {
      assert (a + b)[0] == a[0] && (a + b)[1..] == a[1..] + b;
      RunSplits(Apply(s, a[0]), a[1..], b);
    }
  }

  // ---- Main results ----

  // The view on whose behalf a step runs.
  ghost function Actor(s: System, step: Step): Option<View>
    requires Enabled(s, step)
  {
    match step
    case Store(v, _, _, _, _, _, _, _) => Some(v)
    case UpdateSummary(v, _, _, _) => Some(v)
    case Begin(_, req) => Some(req.view)
    case SelectExact(pid, _) => Some(s.lookups[pid].req.view)
    case SelectFallback(pid, _) => Some(s.lookups[pid].req.view)
    case Evict(pid, _) => Some(s.lookups[pid].req.view)
    case Touch(pid, _) => Some(s.lookups[pid].req.view)
    case _ => None
  }

  // A view of a past generation changes no row, and its SELECTs find none.
  lemma StaleViewIsInert(s: System, step: Step)
    requires Inv(s) && Enabled(s, step)
    requires Actor(s, step).Some? && Actor(s, step).value.generation < s.table.generation
    ensures Apply(s, step).table == s.table
    ensures step.SelectExact? || step.SelectFallback? ==> step.pick.None?
  {
    var v := Actor(s, step).value;
    forall i, q | i in s.table.rows && s.table.rows[i].key == Key(v, q)
      ensures false
    {
      SelectedIsGenuine(s, Request(v, q, "", false, 0), i, false);
    }
    match step
    case UpdateSummary(_, q, intent, summary) =>
      assert SummaryUpdated(s.table, Key(v, q), intent, summary).rows == s.table.rows;
    case Evict(pid, _) => assert s.table.rows - {s.lookups[pid].id} == s.table.rows;
    case _ =>
  }

  // Once a Clear has committed, no view pinned before it adds, changes or hits a row,
  // however the run goes on; every row belongs to the current generation.
  lemma ClearIsFinal(before: seq<Step>, after: seq<Step>, v: View, step: Step)
    requires ValidRun(INIT, before + [Clear] + after)
    requires ValidRun(INIT, before) && v in Exec(INIT, before).pinned
    requires Enabled(Exec(INIT, before + [Clear] + after), step)
    requires Actor(Exec(INIT, before + [Clear] + after), step) == Some(v)
    ensures var s := Exec(INIT, before + [Clear] + after);
      && Apply(s, step).table == s.table
      && (step.SelectExact? || step.SelectFallback? ==> step.pick.None?)
      && forall i :: i in s.table.rows ==> Provenance(s.table.rows[i], s.table.generation, s.writes)
  {
    var run := before + [Clear] + after;
    assert before + ([Clear] + after) == run;
    RunSplits(INIT, before, [Clear] + after);
    var mid := Exec(INIT, before);
    RunKeepsInv(INIT, before);
    assert ([Clear] + after)[0] == Clear && ([Clear] + after)[1..] == after;
    StepKeepsInv(mid, Clear);
    RunKeepsInv(Apply(mid, Clear), after);
    StaleViewIsInert(Exec(INIT, run), step);
  }

  // An UpdateSummary of the same view and query, for the row's intent, gave the row its summary.
  ghost predicate LateSummary(req: Request, rec: Row, writes: set<Write>) {
    exists u :: u in writes && u.Summarized? && u.view == req.view && u.query == req.query
                && u.intent == rec.intent && u.summary == rec.summary
  }

  lemma GivenIsLate(req: Request, rec: Row, writes: set<Write>)
    requires rec.key == KeyOf(req) && SummaryGiven(rec, writes)
    ensures LateSummary(req, rec, writes)
  {
    var u :| u in writes && u.Summarized? && Key(u.view, u.query) == rec.key && u.intent == rec.intent
        && u.summary == rec.summary;
    KeyInjective(u.view.namespace, u.view.generation, u.query, req.view.namespace, req.view.generation, req.query);
  }

  // A hit, whenever it is delivered, is what a view of the same namespace and
  // generation stored for the same query, still live at the time the Lookup began.
  lemma HitIsGenuine(steps: seq<Step>, pid: nat)
    requires ValidRun(INIT, steps)
    requires pid in Exec(INIT, steps).lookups
    requires Exec(INIT, steps).lookups[pid].Done? && Exec(INIT, steps).lookups[pid].out.Found?
    ensures var s := Exec(INIT, steps);
      var (req, rec, hit) := (s.lookups[pid].req, s.lookups[pid].out.rec, s.lookups[pid].out.hit);
      && (exists w :: w in s.writes && w.Stored? && w.view == req.view && w.query == req.query
                      && rec == w.row.(summary := rec.summary, lastHitAt := rec.lastHitAt)
                      && (rec.summary == w.row.summary || (w.row.summary == "" && LateSummary(req, rec, s.writes))))
      && !Outlived(req.now, rec)
      && (hit == ExactIntent ==> rec.intent == req.intent && rec.academic == req.academic && rec.summary != "")
  {
    RunKeepsInv(INIT, steps);
    var s := Exec(INIT, steps);
    var (req, rec) := (s.lookups[pid].req, s.lookups[pid].out.rec);
    var w :| w in s.writes && w.Stored? && w.view.generation == req.view.generation && Explains(w, rec, s.writes);
    KeyInjective(w.view.namespace, w.view.generation, w.query, req.view.namespace, req.view.generation, req.query);
    if rec.summary != w.row.summary { GivenIsLate(req, rec, s.writes); }
  }

  // r' is r up to the hit time and a summary where there was none.
  predicate Refreshed(r: Row, r': Row) {
    r' == r.(summary := r'.summary, lastHitAt := r'.lastHitAt) && (r.summary != "" ==> r'.summary == r.summary)
  }

  lemma OthersRefresh(s: System, step: Step, id: nat)
    requires Enabled(s, step) && !step.Store? && id in s.table.rows && id in Apply(s, step).table.rows
    ensures Refreshed(s.table.rows[id], Apply(s, step).table.rows[id])
    ensures Apply(s, step).table.rows[id].key == s.table.rows[id].key
  {
  }

  lemma StoreRewrites(t: Table, generation: nat, row: Row, id: nat)
    requires Unique(t) && IdsBelowNext(t) && id in t.rows
    ensures id in Upserted(t, generation, row).rows
    ensures var r' := Upserted(t, generation, row).rows[id];
      r' == t.rows[id] || (r' == row && Matches(t.rows[id], row.key, row.intent, row.academic))
  {
    UpsertEffect(t, generation, row);
  }

  // Only a Store moves created_at or replaces a non-empty summary, and only on the row it addresses.
  lemma OnlyStoreRewrites(s: System, step: Step, id: nat)
    requires Inv(s) && Enabled(s, step) && id in s.table.rows && id in Apply(s, step).table.rows
    ensures var (r, r') := (s.table.rows[id], Apply(s, step).table.rows[id]);
      && r'.key == r.key
      && (Refreshed(r, r') || (step.Store? && r' == NewRow(step) && Matches(r, r'.key, r'.intent, r'.academic)))
  {
    if step.Store? {
      StoreRewrites(s.table, step.view.generation, NewRow(step), id);
    } else {
      OthersRefresh(s, step, id);
    }
  }

  // ---- Generations ----

  function Clears(steps: seq<Step>): nat {
    if steps == [] then 0 else (if steps[0].Clear? then 1 else 0) + Clears(steps[1..])
  }

  lemma StepGeneration(s: System, step: Step)
    requires Enabled(s, step)
    ensures Apply(s, step).table.generation == s.table.generation + if step.Clear? then 1 else 0
  {
  }

  lemma {:induction false} GenerationCountsClears(s: System, steps: seq<Step>)
    requires ValidRun(s, steps)
    ensures Exec(s, steps).table.generation == s.table.generation + Clears(steps)
    decreases |steps|
  {
    if steps != [] {
      StepGeneration(s, steps[0]);
      GenerationCountsClears(Apply(s, steps[0]), steps[1..]);
    }
  }

  lemma {:induction false} NoClears(steps: seq<Step>)
    ensures Clears(steps) == 0 <==> forall k :: 0 <= k < |steps| ==> !steps[k].Clear?
  {
    if steps != [] {
      NoClears(steps[1..]);
      assert forall k :: 1 <= k < |steps| ==> steps[k] == steps[1..][k - 1];
    }
  }

  // Two requests with one source fingerprint pin the same view, and so share their cached
  // rows, exactly when no Clear comes between them.
  lemma PinsAgreeUnlessCleared(s: System, steps: seq<Step>, namespace: string)
    requires ValidRun(s, steps)
    ensures View(namespace, s.table.generation) == View(namespace, Exec(s, steps).table.generation)
      <==> forall k :: 0 <= k < |steps| ==> !steps[k].Clear?
  {
    GenerationCountsClears(s, steps);
    NoClears(steps);
  }

  // ---- Late evictions ----

  // A Store of exactly this row's key, intent and flag.
  predicate Renews(step: Step, row: Row) {
    step.Store? && Matches(NewRow(step), row.key, row.intent, row.academic)
  }

  // What the row was last written as: by the last Store that renews it, if any.
  function LastWritten(row: Row, steps: seq<Step>): Row
    decreases |steps|
  {
    if steps == [] then row
    else LastWritten(if Renews(steps[0], row) then NewRow(steps[0]) else row, steps[1..])
  }

  // r' has the identity, the creation time and the lifetime of r.
  predicate SameLife(r: Row, r': Row) {
    Matches(r', r.key, r.intent, r.academic) && r'.createdAt == r.createdAt && r'.ttlSeconds == r.ttlSeconds
  }

  // A Store that renews a row present in the table is never refused.
  lemma RenewalIsAccepted(s: System, step: Step, id: nat)
    requires Inv(s) && Enabled(s, step) && id in s.table.rows && Renews(step, s.table.rows[id])
    ensures id in Apply(s, step).table.rows && Apply(s, step).table.rows[id] == NewRow(step)
  {
    var row := NewRow(step);
    SelectedIsGenuine(s, Request(step.view, step.query, "", false, 0), id, false);
    assert IsExactPick(s.table, row.key, row.intent, row.academic, Some(id));
    assert ExactPick(s.table, row.key, row.intent, row.academic) == Some(id);
  }

  lemma RowAfterStep(s: System, step: Step, id: nat, row: Row)
    requires Inv(s) && Enabled(s, step) && id in s.table.rows && SameLife(row, s.table.rows[id])
    ensures var s' := Apply(s, step);
      id in s'.table.rows ==> SameLife(if Renews(step, row) then NewRow(step) else row, s'.table.rows[id])
  {
    if Renews(step, row) {
      RenewalIsAccepted(s, step, id);
    } else if id in Apply(s, step).table.rows {
      OnlyStoreRewrites(s, step, id);
    }
  }

  // An id that has left the table never comes back.
  lemma {:induction false} GoneStaysGone(s: System, steps: seq<Step>, id: nat)
    requires Inv(s) && ValidRun(s, steps) && id !in s.table.rows && id < s.table.nextId
    ensures id !in Exec(s, steps).table.rows
    decreases |steps|
  {
    if steps != [] {
      StepKeepsInv(s, steps[0]);
      StepKeepsTable(s, steps[0]);
      GoneStaysGone(Apply(s, steps[0]), steps[1..], id);
    }
  }

  lemma {:induction false} RowAfterRun(s: System, steps: seq<Step>, id: nat, row: Row)
    requires Inv(s) && ValidRun(s, steps) && id < s.table.nextId
    requires id in s.table.rows ==> SameLife(row, s.table.rows[id])
    ensures id in Exec(s, steps).table.rows ==> SameLife(LastWritten(row, steps), Exec(s, steps).table.rows[id])
    decreases |steps|
  {
    if id !in s.table.rows {
      GoneStaysGone(s, steps, id);
    } else if steps != [] {
      StepKeepsInv(s, steps[0]);
      StepKeepsTable(s, steps[0]);
      RowAfterStep(s, steps[0], id, row);
      RowAfterRun(Apply(s, steps[0]), steps[1..], id, if Renews(steps[0], row) then NewRow(steps[0]) else row);
    }
  }

  lemma RenewsAlike(r: Row, r': Row)
    requires Matches(r', r.key, r.intent, r.academic)
    ensures forall step :: Renews(step, r) <==> Renews(step, r')
  {
  }

  lemma {:induction false} LastWrittenIs(row: Row, steps: seq<Step>)
    ensures Matches(LastWritten(row, steps), row.key, row.intent, row.academic)
    ensures (forall k :: 0 <= k < |steps| ==> !Renews(steps[k], row)) ==> LastWritten(row, steps) == row
    ensures (exists k :: 0 <= k < |steps| && Renews(steps[k], row)) ==>
      exists k :: 0 <= k < |steps| && Renews(steps[k], row) && LastWritten(row, steps) == NewRow(steps[k])
    decreases |steps|
  {
    if steps != [] {
      var (step, rest) := (steps[0], steps[1..]);
      assert forall k :: 1 <= k < |steps| ==> steps[k] == rest[k - 1];
      LastWrittenIs(if Renews(step, row) then NewRow(step) else row, rest);
      RenewsAlike(row, if Renews(step, row) then NewRow(step) else row);
      if k :| 0 <= k < |rest| && Renews(rest[k], row) && LastWritten(row, steps) == NewRow(rest[k]) {
        assert Renews(steps[k + 1], row);
      } else if Renews(step, row) {
        assert Renews(steps[0], row);
      }
    }
  }

  // A slow Lookup evicts by id after its SELECT read `rec`. If the id is still in the table
  // it denotes that row, and the row that goes is expired exactly if it was last written so.
  lemma LateEviction(s: System, steps: seq<Step>, req: Request, id: nat, rec: Row)
    requires Inv(s) && ValidRun(s, steps) && id < s.table.nextId
    requires id in s.table.rows ==> SameLife(rec, s.table.rows[id])
    ensures id in Exec(s, steps).table.rows ==>
      && Matches(Exec(s, steps).table.rows[id], rec.key, rec.intent, rec.academic)
      && (Expired(req.now, Exec(s, steps).table.rows[id]) <==> Expired(req.now, LastWritten(rec, steps)))
  {
    RowAfterRun(s, steps, id, rec);
    LastWrittenIs(rec, steps);
  }

  // Under a clock that does not go back, the eviction drops an expired row if and only if
  // no Store of that very key, intent and flag came in between.
  lemma LateEvictionSafe(s: System, steps: seq<Step>, req: Request, id: nat, rec: Row)
    requires Inv(s) && ValidRun(s, steps) && id < s.table.nextId && Expired(req.now, rec)
    requires id in s.table.rows ==> SameLife(rec, s.table.rows[id])
    requires forall k :: 0 <= k < |steps| && Renews(steps[k], rec) ==> steps[k].now >= req.now
    ensures id in Exec(s, steps).table.rows ==>
      (Expired(req.now, Exec(s, steps).table.rows[id]) <==> forall k :: 0 <= k < |steps| ==> !Renews(steps[k], rec))
  {
    LateEviction(s, steps, req, id, rec);
    LastWrittenIs(rec, steps);
  }

  // ---- What the machine lets happen ----

  predicate Advances(step: Step, pid: nat) {
    (step.SelectExact? || step.SelectFallback? || step.Evict? || step.Touch?) && step.pid == pid
  }

  // Some row of the key with the latest hit among `todo`, if there is one.
  lemma {:induction false} LatestOf(t: Table, key: string, todo: set<nat>) returns (pick: Option<nat>)
    requires todo <= t.rows.Keys
    ensures pick.None? ==> forall i :: i in todo ==> t.rows[i].key != key
    ensures pick.Some? ==>
      && pick.value in todo && t.rows[pick.value].key == key
      && forall i :: i in todo && t.rows[i].key == key ==> t.rows[i].lastHitAt <= t.rows[pick.value].lastHitAt
    decreases |todo|
  {
    pick := None;
    if todo != {} {
      var id :| id in todo;
      pick := LatestOf(t, key, todo - {id});
      if t.rows[id].key == key && (pick.None? || t.rows[pick.value].lastHitAt < t.rows[id].lastHitAt) {
        pick := Some(id);
      }
    }
  }

  // At any time a pinned view may store, update a summary and start a Lookup, anyone may clear,
  // evict or pin, and every started Lookup can go on until it has answered.
  lemma NothingIsHeldBack(s: System, v: View, query: string, intent: string, academic: bool, raw: string,
        summary: string, now: int, ttlNanos: int, pid: nat)
    ensures v in s.pinned ==>
      && Enabled(s, Store(v, query, intent, academic, raw, summary, now, ttlNanos))
      && Enabled(s, UpdateSummary(v, query, intent, summary))
      && (pid !in s.lookups ==> Enabled(s, Begin(pid, Request(v, query, intent, academic, now))))
    ensures Enabled(s, Clear) && Enabled(s, EvictStale(now)) && Enabled(s, Pin(query))
    ensures pid in s.lookups && !s.lookups[pid].Done? ==> exists step :: Enabled(s, step) && Advances(step, pid)
  {
    if pid in s.lookups {
      var req := s.lookups[pid].req;
      match s.lookups[pid]
      case ReadExact(_) =>
        var pick := ExactPick(s.table, KeyOf(req), req.intent, req.academic);
        assert Enabled(s, SelectExact(pid, pick)) && Advances(SelectExact(pid, pick), pid);
      case ReadFallback(_) =>
        var pick := LatestOf(s.table, KeyOf(req), s.table.rows.Keys);
        assert Enabled(s, SelectFallback(pid, pick)) && Advances(SelectFallback(pid, pick), pid);
      case Evicting(_, _, _) => assert Enabled(s, Evict(pid, false)) && Advances(Evict(pid, false), pid);
      case Touching(_, _, _, _) => assert Enabled(s, Touch(pid, false)) && Advances(Touch(pid, false), pid);
      case Done(_, _) =>
    }
  }

  // ---- What was stored is found ----

  // The steps that take row id out of the table.
  ghost predicate Removes(s: System, step: Step, id: nat)
    requires Enabled(s, step) && id in s.table.rows
  {
    match step
    case Clear => true
    case EvictStale(cutoff) => s.table.rows[id].lastHitAt < cutoff
    case Evict(pid, lost) => !lost && s.lookups[pid].id == id
    case _ => false
  }

  lemma LeavesIfRemoved(s: System, step: Step, id: nat)
    requires Inv(s) && Enabled(s, step) && id in s.table.rows
    ensures id in Apply(s, step).table.rows <==> !Removes(s, step, id)
  {
    if step.Store? { UpsertEffect(s.table, step.view.generation, NewRow(step)); }
  }

  // No step of the run removes row id.
  ghost predicate Kept(s: System, steps: seq<Step>, id: nat)
    requires ValidRun(s, steps)
    decreases |steps|
  {
    id in s.table.rows
    && (steps == [] || (!Removes(s, steps[0], id) && Kept(Apply(s, steps[0]), steps[1..], id)))
  }

  lemma {:induction false} RowStaysIfKept(s: System, steps: seq<Step>, id: nat)
    requires Inv(s) && ValidRun(s, steps) && id in s.table.rows
    ensures id in Exec(s, steps).table.rows <==> Kept(s, steps, id)
    decreases |steps|
  {
    if steps != [] {
      var s' := Apply(s, steps[0]);
      StepKeepsInv(s, steps[0]);
      LeavesIfRemoved(s, steps[0], id);
      if id in s'.table.rows {
        RowStaysIfKept(s', steps[1..], id);
      } else {
        StepKeepsTable(s, steps[0]);
        GoneStaysGone(s', steps[1..], id);
      }
    }
  }

  lemma ContentAfterStep(s: System, step: Step, id: nat, row: Row)
    requires Inv(s) && Enabled(s, step) && id in s.table.rows && Refreshed(row, s.table.rows[id])
    requires id in Apply(s, step).table.rows
    ensures Refreshed(if Renews(step, row) then NewRow(step) else row, Apply(s, step).table.rows[id])
  {
    if Renews(step, row) {
      RenewalIsAccepted(s, step, id);
    } else {
      OnlyStoreRewrites(s, step, id);
    }
  }

  lemma {:induction false} ContentAfterRun(s: System, steps: seq<Step>, id: nat, row: Row)
    requires Inv(s) && ValidRun(s, steps) && Kept(s, steps, id) && Refreshed(row, s.table.rows[id])
    ensures id in Exec(s, steps).table.rows
    ensures Refreshed(LastWritten(row, steps), Exec(s, steps).table.rows[id])
    decreases |steps|
  {
    if steps != [] {
      StepKeepsInv(s, steps[0]);
      ContentAfterStep(s, steps[0], id, row);
      ContentAfterRun(Apply(s, steps[0]), steps[1..], id, if Renews(steps[0], row) then NewRow(steps[0]) else row);
    }
  }

  // Whatever runs in between, a row stays until a Clear, an EvictStale that reaches it or an
  // eviction by its id; until then every exact SELECT for its key, intent and flag picks it,
  // as last written up to a late summary and the hit time.
  lemma RowIsFound(s: System, steps: seq<Step>, id: nat, row: Row, pid: nat, pick: Option<nat>)
    requires Inv(s) && ValidRun(s, steps) && Kept(s, steps, id) && s.table.rows[id] == row
    requires Enabled(Exec(s, steps), SelectExact(pid, pick))
    requires var req := Exec(s, steps).lookups[pid].req; Matches(row, KeyOf(req), req.intent, req.academic)
    ensures pick == Some(id) && id in Exec(s, steps).table.rows
    ensures Refreshed(LastWritten(row, steps), Exec(s, steps).table.rows[id])
  {
    RunKeepsInv(s, steps);
    ContentAfterRun(s, steps, id, row);
    LastWrittenIs(row, steps);
    var t := Exec(s, steps).table;
    assert Matches(t.rows[id], row.key, row.intent, row.academic);
  }

  // The Lookup that so picked a row answers with it, unless it has expired.
  lemma PickedIsAnswered(s: System, pid: nat, id: nat, last: Row)
    requires Enabled(s, SelectExact(pid, Some(id))) && Refreshed(last, s.table.rows[id])
    ensures var (req, r) := (s.lookups[pid].req, s.table.rows[id]);
      Apply(s, SelectExact(pid, Some(id))).lookups[pid] ==
        if Expired(req.now, last) then Evicting(req, id, r)
        else Touching(req, id, r, if r.summary != "" then ExactIntent else QueryOnly)
  {
  }

  // The last Store of that key, intent and flag: `st` or a later one of the run.
  function LastStore(st: Step, steps: seq<Step>): (w: Step)
    requires st.Store?
    ensures w.Store? && (w == st || w in steps)
    decreases |steps|
  {
    if steps == [] then st
    else LastStore(if Renews(steps[0], NewRow(st)) then steps[0] else st, steps[1..])
  }

  lemma {:induction false} LastStoreWrites(st: Step, steps: seq<Step>)
    requires st.Store?
    ensures LastWritten(NewRow(st), steps) == NewRow(LastStore(st, steps))
    decreases |steps|
  {
    if steps != [] {
      LastStoreWrites(if Renews(steps[0], NewRow(st)) then steps[0] else st, steps[1..]);
    }
  }

  // No Store of that key, intent and flag comes after the last one.
  lemma {:induction false} LastStoreIsLast(st: Step, steps: seq<Step>)
    requires st.Store?
    ensures var w := LastStore(st, steps);
      || (w == st && forall k :: 0 <= k < |steps| ==> !Renews(steps[k], NewRow(st)))
      || (exists k :: 0 <= k < |steps| && w == steps[k] && Renews(steps[k], NewRow(st))
                      && forall u :: k < u < |steps| ==> !Renews(steps[u], NewRow(st)))
    decreases |steps|
  {
    if steps != [] {
      var (next, rest) := (if Renews(steps[0], NewRow(st)) then steps[0] else st, steps[1..]);
      assert forall k :: 1 <= k < |steps| ==> steps[k] == rest[k - 1];
      LastStoreIsLast(next, rest);
      RenewsAlike(NewRow(st), NewRow(next));
      if k :| 0 <= k < |rest| && LastStore(next, rest) == rest[k] && Renews(rest[k], NewRow(next))
              && forall u :: k < u < |rest| ==> !Renews(rest[u], NewRow(next)) {
        assert steps[k + 1] == rest[k] && forall u :: k + 1 < u < |steps| ==> !Renews(steps[u], NewRow(st));
      } else if Renews(steps[0], NewRow(st)) {
        assert forall u :: 0 < u < |steps| ==> !Renews(steps[u], NewRow(st));
      }
    }
  }

  // An accepted Store leaves exactly its arguments in the table, and its row is found by every
  // later exact SELECT of its key, intent and flag that it lives to see, with what the last such
  // Store gave and a summary that is only ever filled in.
  lemma StoredIsFound(s: System, store: Step, steps: seq<Step>, pid: nat, pick: Option<nat>) returns (id: nat)
    requires Inv(s) && Enabled(s, store) && store.Store? && store.view.generation == s.table.generation
    requires ValidRun(Apply(s, store), steps)
    requires var t := Exec(Apply(s, store), steps);
      && Enabled(t, SelectExact(pid, pick))
      && t.lookups[pid].req.view == store.view && t.lookups[pid].req.query == store.query
      && t.lookups[pid].req.intent == store.intent && t.lookups[pid].req.academic == store.academic
    ensures var (s1, t) := (Apply(s, store), Exec(Apply(s, store), steps));
      && id in s1.table.rows
      && s1.table.rows[id] == Row(Key(store.view, store.query), store.intent, store.academic, store.raw, store.summary,
                                  store.now, store.now, StoredTtl(store.ttlNanos))
      && (Kept(s1, steps, id) ==>
            && pick == Some(id) && id in t.table.rows
            && var (r, w) := (t.table.rows[id], LastStore(store, steps));
               && r.intent == store.intent && r.academic == store.academic
               && r.raw == w.raw && r.createdAt == w.now && r.ttlSeconds == StoredTtl(w.ttlNanos)
               && (w.summary != "" ==> r.summary == w.summary))
  {
    var s1 := Apply(s, store);
    UpsertEffect(s.table, store.view.generation, NewRow(store));
    id :| id in s1.table.rows && s1.table.rows[id] == NewRow(store);
    StepKeepsInv(s, store);
    if Kept(s1, steps, id) {
      RowIsFound(s1, steps, id, NewRow(store), pid, pick);
      LastStoreWrites(store, steps);
      LastWrittenIs(NewRow(store), steps);
    }
  }

  // ---- Where a hit comes from, by the steps of the run ----

  // The Store's own arguments are in the row.
  predicate WrittenBy(step: Step, r: Row) {
    && step.Store?
    && r.key == Key(step.view, step.query) && r.intent == step.intent && r.academic == step.academic
    && r.raw == step.raw && r.createdAt == step.now && r.ttlSeconds == StoredTtl(step.ttlNanos)
  }

  predicate FilledBy(step: Step, r: Row) {
    && step.UpdateSummary?
    && r.key == Key(step.view, step.query) && r.intent == step.intent && r.summary == step.summary
  }

  // Step k stored the row, with its summary or, if it had none, with that of a later UpdateSummary.
  ghost predicate SourcedAt(steps: seq<Step>, k: nat, r: Row)
    requires k < |steps|
  {
    && WrittenBy(steps[k], r)
    && (r.summary == steps[k].summary
        || (steps[k].summary == "" && exists u :: k < u < |steps| && FilledBy(steps[u], r)))
  }

  ghost predicate Sourced(steps: seq<Step>, r: Row) {
    exists k :: 0 <= k < |steps| && SourcedAt(steps, k, r)
  }

  lemma SourcedExtends(steps: seq<Step>, last: Step, r: Row, r': Row)
    requires Sourced(steps, r) && r' == r.(lastHitAt := r'.lastHitAt)
    ensures Sourced(steps + [last], r')
  {
    var k :| 0 <= k < |steps| && SourcedAt(steps, k, r);
    var longer := steps + [last];
    assert longer[k] == steps[k];
    if u :| k < u < |steps| && FilledBy(steps[u], r) { assert FilledBy(longer[u], r'); }
    assert SourcedAt(longer, k, r');
  }

  lemma SourcedByStore(steps: seq<Step>, store: Step)
    requires store.Store?
    ensures Sourced(steps + [store], NewRow(store))
  {
    assert SourcedAt(steps + [store], |steps|, NewRow(store));
  }

  lemma SourcedByUpdate(steps: seq<Step>, update: Step, r: Row)
    requires Sourced(steps, r) && r.summary == "" && update.UpdateSummary?
    requires r.key == Key(update.view, update.query) && r.intent == update.intent
    ensures Sourced(steps + [update], r.(summary := update.summary))
  {
    var k :| 0 <= k < |steps| && SourcedAt(steps, k, r);
    var (longer, r') := (steps + [update], r.(summary := update.summary));
    assert longer[k] == steps[k] && longer[|steps|] == update;
    assert SourcedAt(longer, k, r');
  }

  ghost predicate HeldSourced(steps: seq<Step>, l: Lookup) {
    match l
    case Evicting(_, _, rec) => Sourced(steps, rec)
    case Touching(_, _, rec, _) => Sourced(steps, rec)
    case Done(_, Found(rec, _)) => Sourced(steps, rec)
    case _ => true
  }

  ghost predicate AllSourced(steps: seq<Step>, s: System) {
    && (forall i :: i in s.table.rows ==> Sourced(steps, s.table.rows[i]))
    && (forall p :: p in s.lookups ==> HeldSourced(steps, s.lookups[p]))
  }

  lemma StoreChangesOne(s: System, step: Step, i: nat)
    requires Inv(s) && Enabled(s, step) && step.Store? && i in Apply(s, step).table.rows
    ensures Apply(s, step).table.rows[i] == NewRow(step)
      || (i in s.table.rows && Apply(s, step).table.rows[i] == s.table.rows[i])
  {
    UpsertEffect(s.table, step.view.generation, NewRow(step));
  }

  lemma UpdateFillsEmpty(s: System, step: Step, i: nat)
    requires Enabled(s, step) && step.UpdateSummary? && i in Apply(s, step).table.rows
    ensures i in s.table.rows
    ensures var (r, r') := (s.table.rows[i], Apply(s, step).table.rows[i]);
      r' == r || (r.summary == "" && r.key == Key(step.view, step.query) && r.intent == step.intent
                  && r' == r.(summary := step.summary))
  {
  }

  lemma OthersTouchOnly(s: System, step: Step, i: nat)
    requires Enabled(s, step) && !step.Store? && !step.UpdateSummary? && i in Apply(s, step).table.rows
    ensures i in s.table.rows
    ensures var (r, r') := (s.table.rows[i], Apply(s, step).table.rows[i]); r' == r.(lastHitAt := r'.lastHitAt)
  {
  }

  lemma RowStaysSourced(steps: seq<Step>, s: System, step: Step, i: nat)
    requires Inv(s) && AllSourced(steps, s) && Enabled(s, step) && i in Apply(s, step).table.rows
    ensures Sourced(steps + [step], Apply(s, step).table.rows[i])
  {
    var r' := Apply(s, step).table.rows[i];
    if step.Store? {
      StoreChangesOne(s, step, i);
      if r' == NewRow(step) {
        SourcedByStore(steps, step);
      } else {
        SourcedExtends(steps, step, s.table.rows[i], r');
      }
    } else if step.UpdateSummary? {
      UpdateFillsEmpty(s, step, i);
      if r' == s.table.rows[i] {
        SourcedExtends(steps, step, r', r');
      } else {
        SourcedByUpdate(steps, step, s.table.rows[i]);
      }
    } else {
      OthersTouchOnly(s, step, i);
      SourcedExtends(steps, step, s.table.rows[i], r');
    }
  }

  lemma HeldExtends(steps: seq<Step>, last: Step, l: Lookup)
    requires HeldSourced(steps, l)
    ensures HeldSourced(steps + [last], l)
  {
    match l
    case Evicting(_, _, rec) => SourcedExtends(steps, last, rec, rec);
    case Touching(_, _, rec, _) => SourcedExtends(steps, last, rec, rec);
    case Done(_, Found(rec, _)) => SourcedExtends(steps, last, rec, rec);
    case _ =>
  }

  lemma HeldStaysSourced(steps: seq<Step>, s: System, step: Step, p: nat)
    requires AllSourced(steps, s) && Enabled(s, step) && p in Apply(s, step).lookups
    ensures HeldSourced(steps + [step], Apply(s, step).lookups[p])
  {
    if (step.SelectExact? || step.SelectFallback?) && step.pid == p && step.pick.Some? {
      var rec := s.table.rows[step.pick.value];
      SourcedExtends(steps, step, rec, rec);
    } else if p in s.lookups {
      HeldExtends(steps, step, s.lookups[p]);
    }
  }

  lemma {:induction false} RunIsSourced(steps: seq<Step>)
    requires ValidRun(INIT, steps)
    ensures AllSourced(steps, Exec(INIT, steps))
    decreases |steps|
  {
    if steps != [] {
      var (init, last) := (steps[..|steps| - 1], steps[|steps| - 1]);
      assert steps == init + [last];
      RunSplits(INIT, init, [last]);
      var s := Exec(INIT, init);
      RunIsSourced(init);
      RunKeepsInv(INIT, init);
      assert Exec(INIT, steps) == Apply(s, last);
      forall i | i in Apply(s, last).table.rows ensures Sourced(steps, Apply(s, last).table.rows[i]) {
        RowStaysSourced(init, s, last, i);
      }
      forall p | p in Apply(s, last).lookups ensures HeldSourced(steps, Apply(s, last).lookups[p]) {
        HeldStaysSourced(init, s, last, p);
      }
    }
  }

  // After step k an UpdateSummary of the same view and query, for the row's intent, gave its summary.
  ghost predicate SuppliedLater(steps: seq<Step>, k: nat, req: Request, rec: Row) {
    exists u :: k < u < |steps| && steps[u].UpdateSummary? && steps[u].view == req.view
                && steps[u].query == req.query && steps[u].intent == rec.intent && steps[u].summary == rec.summary
  }

  // For every delivered hit some Store of the run, by a view of the same namespace and generation
  // and for the same query, had its raw results, intent, flag and time of creation as arguments;
  // and its summary, unless that was empty and a later UpdateSummary of the run supplied it.
  lemma HitIsStored(steps: seq<Step>, pid: nat) returns (k: nat)
    requires ValidRun(INIT, steps)
    requires pid in Exec(INIT, steps).lookups
    requires Exec(INIT, steps).lookups[pid].Done? && Exec(INIT, steps).lookups[pid].out.Found?
    ensures k < |steps| && steps[k].Store?
    ensures var (req, rec) := (Exec(INIT, steps).lookups[pid].req, Exec(INIT, steps).lookups[pid].out.rec);
      && steps[k].view == req.view && steps[k].query == req.query
      && rec.raw == steps[k].raw && rec.createdAt == steps[k].now
      && rec.intent == steps[k].intent && rec.academic == steps[k].academic
      && (rec.summary == steps[k].summary || (steps[k].summary == "" && SuppliedLater(steps, k, req, rec)))
  {
    RunIsSourced(steps);
    RunKeepsInv(INIT, steps);
    var s := Exec(INIT, steps);
    assert HeldSourced(steps, s.lookups[pid]) && LookupInv(s.table, s.writes, s.lookups[pid]);
    var (req, rec) := (s.lookups[pid].req, s.lookups[pid].out.rec);
    k :| 0 <= k < |steps| && SourcedAt(steps, k, rec);
    var w := steps[k];
    KeyInjective(w.view.namespace, w.view.generation, w.query, req.view.namespace, req.view.generation, req.query);
    if rec.summary != w.summary {
      var u :| k < u < |steps| && FilledBy(steps[u], rec);
      var v := steps[u];
      KeyInjective(v.view.namespace, v.view.generation, v.query, req.view.namespace, req.view.generation, req.query);
    }
  }

  // ---- A Lookup with nothing in between ----

  // The last statement of a Lookup, when it reaches the table.
  ghost function Finished(s: System, pid: nat): System
    requires pid in s.lookups
  {
    match s.lookups[pid]
    case Evicting(_, _, _) => Apply(s, Evict(pid, false))
    case Touching(_, _, _, _) => Apply(s, Touch(pid, false))
    case _ => s
  }

  // The steps of a Lookup, run back to back, answer and leave the table as Database.Lookup does.
  lemma UndisturbedExact(s: System, pid: nat, req: Request, id: nat)
    requires Enabled(s, Begin(pid, req)) && Enabled(Apply(s, Begin(pid, req)), SelectExact(pid, Some(id)))
    ensures var t := Finished(Apply(Apply(s, Begin(pid, req)), SelectExact(pid, Some(id))), pid);
      && Selects(s.table, KeyOf(req), req.intent, req.academic, Some(id), true)
      && t.table == AfterSelect(s.table, Some(id), req.now)
      && t.lookups[pid] == Done(req, AnswerOf(s.table, Some(id), req.now, true))
  {
  }

  lemma UndisturbedFallback(s: System, pid: nat, req: Request, pick: Option<nat>)
    requires Enabled(s, Begin(pid, req)) && Enabled(Apply(s, Begin(pid, req)), SelectExact(pid, None))
    requires Enabled(Apply(Apply(s, Begin(pid, req)), SelectExact(pid, None)), SelectFallback(pid, pick))
    ensures var s2 := Apply(Apply(s, Begin(pid, req)), SelectExact(pid, None));
      var t := Finished(Apply(s2, SelectFallback(pid, pick)), pid);
      && Selects(s.table, KeyOf(req), req.intent, req.academic, pick, false)
      && t.table == AfterSelect(s.table, pick, req.now)
      && t.lookups[pid] == Done(req, AnswerOf(s.table, pick, req.now, false))
  {
  }

  lemma {:induction false} RunExtends(s: System, steps: seq<Step>, last: Step)
    requires ValidRun(s, steps) && Enabled(Exec(s, steps), last)
    ensures ValidRun(s, steps + [last]) && Exec(s, steps + [last]) == Apply(Exec(s, steps), last)
    decreases |steps|
  {
    if steps == [] {
      assert [last][1..] == [] && steps + [last] == [last];
    } else {
      assert (steps + [last])[0] == steps[0] && (steps + [last])[1..] == steps[1..] + [last];
      RunExtends(Apply(s, steps[0]), steps[1..], last);
    }
  }

  // The other half at work: a Store in between leaves a live row under the id.
  lemma RenewalSpoilsEviction(s: System, step: Step, req: Request, id: nat)
    requires Inv(s) && Enabled(s, step) && id in s.table.rows && Expired(req.now, s.table.rows[id])
    requires Renews(step, s.table.rows[id]) && step.now >= req.now
    ensures id in Apply(s, step).table.rows && !Expired(req.now, Apply(s, step).table.rows[id])
  {
    RenewalIsAccepted(s, step, id);
    RunExtends(s, [], step);
    var steps := [] + [step];
    assert Renews(steps[0], s.table.rows[id]);
    LateEvictionSafe(s, steps, req, id, s.table.rows[id]);
  }

  // A run in which that happens: the eviction drops the row that a Store has just renewed.
  lemma LateEvictionDropsFreshRow() returns (steps: seq<Step>)
    ensures ValidRun(INIT, steps)
    ensures var s := Exec(INIT, steps);
      && 0 in s.lookups && s.lookups[0].Evicting? && Enabled(s, Evict(0, false))
      && var id := s.lookups[0].id;
         && id in s.table.rows && !Expired(s.lookups[0].req.now, s.table.rows[id])
         && id !in Apply(s, Evict(0, false)).table.rows
  {
    var v := View("n", 0);
    var st0 := Store(v, "q", "i", false, "old", "", 0, 0);
    var st1 := Store(v, "q", "i", false, "new", "", 30000, 0);
    steps := [];
    RunExtends(INIT, [], Pin("n"));
    RunExtends(INIT, [] + [Pin("n")], st0);
    steps := [] + [Pin("n")] + [st0];
    assert Exec(INIT, steps).table.rows == map[1 := NewRow(st0)];
    RunExtends(INIT, steps, Begin(0, Request(v, "q", "i", false, 30000)));
    steps := steps + [Begin(0, Request(v, "q", "i", false, 30000))];
    RunExtends(INIT, steps, SelectExact(0, Some(1)));
    steps := steps + [SelectExact(0, Some(1))];
    var s := Exec(INIT, steps);
    RunKeepsInv(INIT, steps);
    RenewalSpoilsEviction(s, st1, s.lookups[0].req, 1);
    RunExtends(INIT, steps, st1);
    steps := steps + [st1];
  }
}
