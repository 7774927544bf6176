// The search result cache of pkg/cache/sqlite.go: one table, one generation row,
// and any number of request views pinned to a (namespace, generation) pair.
//
// A char of a `string` stands for one byte of a Go string.
module ResultCache {
  import opened Wrappers
  import opened Decimal

  const DEFAULT_TTL_SECONDS := 21600
  const NANOS_PER_SECOND := 1_000_000_000

  datatype View = View(namespace: string, generation: nat)

  datatype Row = Row(key: string, intent: string, academic: bool, raw: string,
                     summary: string, createdAt: int, lastHitAt: int, ttlSeconds: int)

  // nextId is AUTOINCREMENT's counter: no id below it is ever handed out again.
  datatype Table = Table(generation: nat, rows: map<nat, Row>, nextId: nat)

  function KeyText(namespace: string, generation: nat, query: string): string {
    "\0" + Print(|namespace|) + ":" + namespace + ":" + Print(generation) + ":" + query
  }

  function Key(v: View, query: string): string {
    KeyText(v.namespace, v.generation, query)
  }

  function KeyTail(namespace: string, generation: nat, query: string): string {
    namespace + ":" + Print(generation) + ":" + query
  }

  lemma KeyTailInjective(n1: string, g1: nat, q1: string, n2: string, g2: nat, q2: string)
    requires KeyTail(n1, g1, q1) == KeyTail(n2, g2, q2) && |n1| == |n2|
    ensures n1 == n2 && g1 == g2 && q1 == q2
  {
    var (t1, t2) := (KeyTail(n1, g1, q1), KeyTail(n2, g2, q2));
    assert n1 == t1[..|n1|] && n2 == t2[..|n2|];
    assert t1[|n1| + 1..] == Print(g1) + [':'] + q1;
    assert t2[|n2| + 1..] == Print(g2) + [':'] + q2;
    SplitAtSeparator(Print(g1), Print(g2), q1, q2, ':');
    PrintInjective(g1, g2);
  }

  lemma KeyTextTail(n: string, g: nat, q: string)
    ensures |KeyText(n, g, q)| > 0 && KeyText(n, g, q)[1..] == Print(|n|) + [':'] + KeyTail(n, g, q)
  {
  }

  // The key text determines its three parts, whatever bytes they contain.
  lemma KeyInjective(n1: string, g1: nat, q1: string, n2: string, g2: nat, q2: string)
    requires KeyText(n1, g1, q1) == KeyText(n2, g2, q2)
    ensures n1 == n2 && g1 == g2 && q1 == q2
  {
    var (t1, t2) := (KeyTail(n1, g1, q1), KeyTail(n2, g2, q2));
    KeyTextTail(n1, g1, q1);
    KeyTextTail(n2, g2, q2);
    SplitAtSeparator(Print(|n1|), Print(|n2|), t1, t2, ':');
    PrintInjective(|n1|, |n2|);
    KeyTailInjective(n1, g1, q1, n2, g2, q2);
  }

  function EffectiveTtl(ttlSeconds: int): int {
    if ttlSeconds <= 0 then DEFAULT_TTL_SECONDS else ttlSeconds
  }

  predicate Expired(now: int, r: Row) {
    now - r.createdAt > EffectiveTtl(r.ttlSeconds)
  }

  // The seconds a Store writes for a requested duration in nanoseconds.
  function StoredTtl(ttlNanos: int): int {
    if ttlNanos <= 0 then DEFAULT_TTL_SECONDS else ttlNanos / NANOS_PER_SECOND
  }

  // A positive duration below one second truncates to 0, which `expired` then
  // reads as the six-hour default: a record outlives the asked duration exactly then.
  lemma TtlHonoured(ttlNanos: int)
    ensures var ttl := EffectiveTtl(StoredTtl(ttlNanos));
      && (ttlNanos > 0 ==> (ttl * 1_000_000_000 <= ttlNanos <==> ttlNanos >= 1_000_000_000))
      && (ttlNanos >= 1_000_000_000 ==> ttlNanos < (ttl + 1) * 1_000_000_000)
      && (ttlNanos < 1_000_000_000 ==> ttl == 6 * 60 * 60)
  {
    if ttlNanos >= NANOS_PER_SECOND {
      assert StoredTtl(ttlNanos) >= 1;
    }
  }

  // More seconds have passed since the creation than the stored lifetime, or than six hours if
  // that is not positive.
  predicate Outlived(now: int, r: Row) {
    if r.ttlSeconds > 0 then now > r.createdAt + r.ttlSeconds else now > r.createdAt + 6 * 60 * 60
  }

  // ---- One SQL statement or transaction each ----

  predicate Matches(r: Row, key: string, intent: string, academic: bool) {
    r.key == key && r.intent == intent && r.academic == academic
  }

  // The unique index on (query, intent, academic).
  predicate Unique(t: Table) {
    forall i, j | i in t.rows && j in t.rows && Matches(t.rows[i], t.rows[j].key, t.rows[j].intent, t.rows[j].academic)
      :: i == j
  }

  predicate IdsBelowNext(t: Table) {
    forall i :: i in t.rows ==> i < t.nextId
  }

  function Cleared(t: Table): Table {
    Table(t.generation + 1, map[], t.nextId)
  }

  ghost predicate IsExactPick(t: Table, key: string, intent: string, academic: bool, pick: Option<nat>) {
    match pick
    case None => forall i :: i in t.rows ==> !Matches(t.rows[i], key, intent, academic)
    case Some(id) => id in t.rows && Matches(t.rows[id], key, intent, academic)
  }

  // ORDER BY last_hit_at DESC LIMIT 1: any row with the latest hit may be returned.
  ghost predicate IsFallbackPick(t: Table, key: string, pick: Option<nat>) {
    match pick
    case None => forall i :: i in t.rows ==> t.rows[i].key != key
    case Some(id) =>
      && id in t.rows && t.rows[id].key == key
      && forall i :: i in t.rows && t.rows[i].key == key ==> t.rows[i].lastHitAt <= t.rows[id].lastHitAt
  }

  ghost function ExactPick(t: Table, key: string, intent: string, academic: bool): (pick: Option<nat>)
    ensures IsExactPick(t, key, intent, academic, pick)
  {
    if id :| id in t.rows && Matches(t.rows[id], key, intent, academic) then Some(id) else None
  }

  // INSERT ... SELECT ... WHERE generation = ? ON CONFLICT DO UPDATE.
  ghost function Upserted(t: Table, generation: nat, row: Row): Table {
    if t.generation != generation then t
    else match ExactPick(t, row.key, row.intent, row.academic)
      case Some(id) => t.(rows := t.rows[id := row])
      case None => t.(rows := t.rows[t.nextId := row], nextId := t.nextId + 1)
  }

  function SummaryUpdated(t: Table, key: string, intent: string, summary: string): Table {
    t.(rows := map i | i in t.rows ::
      if t.rows[i].key == key && t.rows[i].intent == intent && t.rows[i].summary == ""
      then t.rows[i].(summary := summary) else t.rows[i])
  }

  function Touched(t: Table, id: nat, now: int): Table {
    if id in t.rows then t.(rows := t.rows[id := t.rows[id].(lastHitAt := now)]) else t
  }

  function Evicted(t: Table, id: nat): Table {
    t.(rows := t.rows - {id})
  }

  function StaleEvicted(t: Table, cutoff: int): Table {
    t.(rows := map i | i in t.rows && t.rows[i].lastHitAt >= cutoff :: t.rows[i])
  }

  // An upsert keeps the unique index, changes at most the one row it addresses and
  // never reuses an id.
  lemma UpsertEffect(t: Table, generation: nat, row: Row)
    requires Unique(t) && IdsBelowNext(t)
    ensures var t' := Upserted(t, generation, row);
      && Unique(t') && IdsBelowNext(t') && t.nextId <= t'.nextId <= t.nextId + 1 && t'.generation == t.generation
      && (t.generation == generation ==> exists id :: id in t'.rows && t'.rows[id] == row)
      && (forall i :: i in t'.rows && t'.rows[i] != row ==> i in t.rows && t.rows[i] == t'.rows[i])
      && t.rows.Keys <= t'.rows.Keys
      && (forall i :: i in t.rows ==> t'.rows[i] == t.rows[i] || Matches(t.rows[i], row.key, row.intent, row.academic))
  {
    if t.generation == generation {
      match ExactPick(t, row.key, row.intent, row.academic) {
        case Some(id) => assert Upserted(t, generation, row).rows[id] == row;
        case None => assert Upserted(t, generation, row).rows[t.nextId] == row;
      }
    }
  }

  datatype Hit = ExactIntent | QueryOnly
  datatype Outcome = Miss | Found(rec: Row, hit: Hit)

  // The two SELECTs of Lookup run back to back: the exact row, else the latest-hit row of the key.
  ghost predicate Selects(t: Table, key: string, intent: string, academic: bool, pick: Option<nat>, exact: bool) {
    if exact then pick.Some? && IsExactPick(t, key, intent, academic, pick)
    else IsExactPick(t, key, intent, academic, None) && IsFallbackPick(t, key, pick)
  }

  // What Lookup answers from the row it selected.
  function Answer(now: int, row: Row, exact: bool): Outcome {
    if Expired(now, row) then Miss
    else Found(row, if exact && row.summary != "" then ExactIntent else QueryOnly)
  }

  function AnswerOf(t: Table, pick: Option<nat>, now: int, exact: bool): Outcome
    requires pick.Some? ==> pick.value in t.rows
  {
    if pick.None? then Miss else Answer(now, t.rows[pick.value], exact)
  }

  function AfterSelect(t: Table, pick: Option<nat>, now: int): Table
    requires pick.Some? ==> pick.value in t.rows
  {
    if pick.None? then t
    else if Expired(now, t.rows[pick.value]) then Evicted(t, pick.value)
    else Touched(t, pick.value, now)
  }

  // An undisturbed Lookup: exact_intent exactly for a live exact row with a summary;
  // only an expired row is dropped, at most one, and nothing but last_hit_at changes.
  lemma LookupEffect(t: Table, key: string, intent: string, academic: bool, pick: Option<nat>, exact: bool, now: int)
    requires Unique(t) && IdsBelowNext(t) && Selects(t, key, intent, academic, pick, exact)
    ensures var (t', out) := (AfterSelect(t, pick, now), AnswerOf(t, pick, now, exact));
      && Unique(t') && IdsBelowNext(t')
      && (out.Found? && out.hit == ExactIntent <==>
            exists i :: i in t.rows && Matches(t.rows[i], key, intent, academic)
                        && !Expired(now, t.rows[i]) && t.rows[i].summary != "")
      && (out == Miss <==> pick.None? || Outlived(now, t.rows[pick.value]))
      && (out.Found? ==>
            && t.rows[pick.value] == out.rec && out.rec.key == key
            && t'.rows == t.rows[pick.value := out.rec.(lastHitAt := now)])
      && t'.rows.Keys <= t.rows.Keys
      && (forall i :: i in t'.rows ==> t'.rows[i].(lastHitAt := 0) == t.rows[i].(lastHitAt := 0))
      && (forall i, j | i in t.rows.Keys - t'.rows.Keys && j in t.rows.Keys - t'.rows.Keys ::
          i == j && Expired(now, t.rows[i]))
  {
    if pick.Some? && exact {
      assert Matches(t.rows[pick.value], key, intent, academic);
    }
  }

  // A record stored by a current view is what that view's next Lookup of the same query,
  // intent and academic flag returns, until its TTL has passed.
  lemma StoreThenLookup(t: Table, generation: nat, row: Row, now: int, pick: Option<nat>, exact: bool)
    requires Unique(t) && IdsBelowNext(t) && t.generation == generation
    requires Selects(Upserted(t, generation, row), row.key, row.intent, row.academic, pick, exact)
    ensures AnswerOf(Upserted(t, generation, row), pick, now, exact) == Answer(now, row, true)
  {
    UpsertEffect(t, generation, row);
    var t' := Upserted(t, generation, row);
    var id :| id in t'.rows && t'.rows[id] == row;
    assert Matches(t'.rows[id], row.key, row.intent, row.academic);
  }

  // A summary supplied later turns a query_only answer into an exact_intent one; a summary
  // already there stays. The update does not look at the academic flag.
  lemma SummaryThenLookup(t: Table, key: string, intent: string, summary: string, id: nat, now: int,
        pick: Option<nat>, exact: bool)
    requires Unique(t) && id in t.rows && t.rows[id].key == key && t.rows[id].intent == intent && summary != ""
    requires Selects(SummaryUpdated(t, key, intent, summary), key, intent, t.rows[id].academic, pick, exact)
    requires !Expired(now, t.rows[id])
    ensures var row := t.rows[id];
      AnswerOf(SummaryUpdated(t, key, intent, summary), pick, now, exact)
      == Found(row.(summary := if row.summary == "" then summary else row.summary), ExactIntent)
  {
    var t' := SummaryUpdated(t, key, intent, summary);
    assert Matches(t'.rows[id], key, intent, t.rows[id].academic);
    assert pick.value in t'.rows && Matches(t.rows[pick.value], t.rows[id].key, t.rows[id].intent, t.rows[id].academic);
  }

  // The database handle behind every view. Its methods are the Go methods with no
  // other request in between; ResultCacheMachine interleaves their statements.
  class Database {
    var generation: nat
    var rows: map<nat, Row>
    var nextId: nat

    function State(): Table
      reads this
    {
      Table(generation, rows, nextId)
    }

    ghost predicate Valid()
      reads this
    {
      Unique(State()) && IdsBelowNext(State())
    }

    constructor ()
      ensures Valid() && State() == Table(0, map[], 1)
    {
      generation, rows, nextId := 0, map[], 1;
    }

    method Clear() returns (count: nat)
      requires Valid()
      modifies this
      ensures Valid() && State() == Cleared(old(State())) && count == |old(rows)|
    {
      generation := generation + 1;
      count := |rows|;
      rows := map[];
    }

    method SelectExact(key: string, intent: string, academic: bool) returns (pick: Option<nat>)
      ensures IsExactPick(State(), key, intent, academic, pick)
    {
      if id :| id in rows && Matches(rows[id], key, intent, academic) {
        pick := Some(id);
      } else {
        pick := None;
      }
    }

    method SelectFallback(key: string) returns (pick: Option<nat>)
      ensures IsFallbackPick(State(), key, pick)
    {
      pick := None;
      var todo := rows.Keys;
      while todo != {}
        invariant todo <= rows.Keys
        invariant pick.None? ==> forall i :: i in rows && i !in todo ==> rows[i].key != key
        invariant pick.Some? ==> pick.value in rows && rows[pick.value].key == key
        invariant pick.Some? ==> forall i :: i in rows && i !in todo && rows[i].key == key ==>
            rows[i].lastHitAt <= rows[pick.value].lastHitAt
        decreases |todo|
      {
        var id :| id in todo;
        todo := todo - {id};
        if rows[id].key == key && (pick.None? || rows[pick.value].lastHitAt < rows[id].lastHitAt) {
          pick := Some(id);
        }
      }
    }

    // Evicts or touches the selected row, as both steps of Lookup do.
    method Finish(id: nat, now: int, exact: bool) returns (out: Outcome)
      requires Valid() && id in rows
      modifies this
      ensures Valid()
      ensures out == Answer(now, old(rows[id]), exact)
      ensures State() ==
        if Expired(now, old(rows[id])) then Evicted(old(State()), id) else Touched(old(State()), id, now)
    {
      var row := rows[id];
      if Expired(now, row) {
        rows := rows - {id};
        return Miss;
      }
      rows := rows[id := row.(lastHitAt := now)];
      out := Found(row, if exact && row.summary != "" then ExactIntent else QueryOnly);
    }

    method Lookup(v: View, query: string, intent: string, academic: bool, now: int) returns (out: Outcome)
      requires Valid()
      modifies this
      ensures Valid()
      ensures exists pick, exact ::
                && Selects(old(State()), Key(v, query), intent, academic, pick, exact)
                && out == AnswerOf(old(State()), pick, now, exact)
                && State() == AfterSelect(old(State()), pick, now)
    {
      var key := Key(v, query);
      var pick := SelectExact(key, intent, academic);
      var exact := pick.Some?;
      if !exact {
        pick := SelectFallback(key);
      }
      assert Selects(State(), key, intent, academic, pick, exact);
      LookupEffect(State(), key, intent, academic, pick, exact, now);
      if pick.None? {
        return Miss;
      }
      out := Finish(pick.value, now, exact);
    }

    method Store(v: View, query: string, intent: string, academic: bool, raw: string, summary: string,
                 now: int, ttlNanos: int) returns (stored: bool)
      requires Valid()
      modifies this
      ensures Valid() && stored == (v.generation == old(generation))
      ensures State() == Upserted(old(State()), v.generation,
                           Row(Key(v, query), intent, academic, raw, summary, now, now, StoredTtl(ttlNanos)))
    {
      var row := Row(Key(v, query), intent, academic, raw, summary, now, now, StoredTtl(ttlNanos));
      UpsertEffect(State(), v.generation, row);
      stored := v.generation == generation;
      if stored {
        if id :| id in rows && Matches(rows[id], row.key, row.intent, row.academic) {
          rows := rows[id := row];
        } else {
          rows, nextId := rows[nextId := row], nextId + 1;
        }
      }
    }

    method UpdateSummary(v: View, query: string, intent: string, summary: string)
      requires Valid()
      modifies this
      ensures Valid() && State() == SummaryUpdated(old(State()), Key(v, query), intent, summary)
    {
      var key := Key(v, query);
      rows := map i | i in rows ::
        if rows[i].key == key && rows[i].intent == intent && rows[i].summary == ""
        then rows[i].(summary := summary) else rows[i];
    }

    method EvictStale(cutoff: int) returns (affected: nat)
      requires Valid()
      modifies this
      ensures Valid() && State() == StaleEvicted(old(State()), cutoff)
      ensures affected == |old(rows)| - |rows|
    {
      var kept := map i | i in rows && rows[i].lastHitAt >= cutoff :: rows[i];
      assert |kept| <= |rows| by {
        SubsetSize(kept.Keys, rows.Keys);
      }
      affected := |rows| - |kept|;
      rows := kept;
    }
  }
}
