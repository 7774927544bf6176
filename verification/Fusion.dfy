// RRF fusion of per-engine buckets, the score floor and the optional MMR pass
// (pkg/search/enhance/enhance.go).
module Fusion {
  import opened Ranking
  import Mmr

  // normalizeURLKey, EngineFamily and the text, domain and date signals of one query.
  datatype Signals = Signals(
    url: string -> string, family: string -> string,
    domain: SearchResult -> real, lexical: SearchResult -> real, rare: SearchResult -> real,
    authority: SearchResult -> real, recency: string -> real)

  datatype Agg = Agg(res: SearchResult, rrf: real, engines: seq<string>, families: set<string>)

  datatype Fused = Fused(order: seq<string>, aggs: map<string, Agg>)

  function MergedInto(a: SearchResult, r: SearchResult): SearchResult {
    PreferDate(a.(content := if |r.content| > |a.content| then r.content else a.content,
                  title := if a.title == "" then r.title else a.title), r)
  }

  function Grow(g: Signals, a: Agg, it: Item): Agg {
    Agg(a.res, a.rrf + it.mass,
        if it.engine in a.engines then a.engines else a.engines + [it.engine],
        if it.engine in a.engines then a.families else a.families + {g.family(it.engine)})
  }

  function Absorb(g: Signals, f: Fused, it: Item): Fused {
    var key := g.url(it.res.url);
    if key == "" then f
    else if key in f.aggs then
      var a := f.aggs[key];
      f.(aggs := f.aggs[key := Grow(g, a.(res := MergedInto(a.res, it.res)), it)])
    else Fused(f.order + [key], f.aggs[key := Grow(g, Agg(it.res, 0.0, [], {}), it)])
  }

  function Fuse(g: Signals, items: seq<Item>): Fused {
    if items == [] then Fused([], map[]) else Absorb(g, Fuse(g, items[..|items| - 1]), items[|items| - 1])
  }

  // ---- The Go loops ----

  lemma FuseSnoc(g: Signals, seen: seq<Item>, it: Item)
    ensures Fuse(g, seen + [it]) == Absorb(g, Fuse(g, seen), it)
  {
    assert (seen + [it])[..|seen|] == seen;
  }

  // The body of the inner loop.
  method FuseOne(g: Signals, order: seq<string>, aggs: map<string, Agg>, it: Item)
    returns (order': seq<string>, aggs': map<string, Agg>)
    ensures Fused(order', aggs') == Absorb(g, Fused(order, aggs), it)
  {
    order', aggs' := order, aggs;
    var key := g.url(it.res.url);
    if key != "" {
      var a: Agg;
      if key in aggs {
        a := aggs[key];
        a := a.(res := MergedInto(a.res, it.res));
      } else {
        a := Agg(it.res, 0.0, [], {});
        order' := order + [key];
      }
      aggs' := aggs[key := Grow(g, a, it)];
    }
  }

  // The loop over one bucket, after the entries of `before`.
  method FuseBucket(g: Signals, order: seq<string>, aggs: map<string, Agg>, b: Bucket, ghost before: seq<Item>)
    returns (order': seq<string>, aggs': map<string, Agg>)
    requires Fused(order, aggs) == Fuse(g, before)
    ensures Fused(order', aggs') == Fuse(g, before + ItemsOf(b, |b.results|))
  {
    order', aggs' := order, aggs;
    ghost var seen := before;
    for rank := 0 to |b.results|
      invariant seen == before + ItemsOf(b, rank) && Fused(order', aggs') == Fuse(g, seen)
    {
      var it := Item(b.name, rank, Mass(b, rank), b.results[rank]);
      FuseSnoc(g, seen, it);
      ItemsOfSnoc(b, rank);
      order', aggs' := FuseOne(g, order', aggs', it);
      seen := seen + [it];
    }
  }

  method FuseBuckets(g: Signals, buckets: seq<Bucket>) returns (f: Fused)
    ensures f == Fuse(g, Items(buckets))
  {
    var order: seq<string> := [];
    var aggs: map<string, Agg> := map[];
    for bi := 0 to |buckets|
      invariant Fused(order, aggs) == Fuse(g, Items(buckets[..bi]))
    {
      order, aggs := FuseBucket(g, order, aggs, buckets[bi], Items(buckets[..bi]));
      ItemsSnoc(buckets, bi);
    }
    assert buckets[..|buckets|] == buckets;
    f := Fused(order, aggs);
  }

  // ---- Fusion against the definition of RRF ----

  // The sum over the occurrences of a key of w / (60 + rank).
  function MassOf(g: Signals, items: seq<Item>, key: string): real {
    if items == [] then 0.0
    else
      var it := items[|items| - 1];
      MassOf(g, items[..|items| - 1], key) + (if g.url(it.res.url) == key then it.mass else 0.0)
  }

  function FamiliesOf(g: Signals, items: seq<Item>, key: string): set<string> {
    set it | it in items && g.url(it.res.url) == key :: g.family(it.engine)
  }

  function EnginesOf(g: Signals, items: seq<Item>, key: string): set<string> {
    set it | it in items && g.url(it.res.url) == key :: it.engine
  }

  ghost predicate FaithfulAt(g: Signals, items: seq<Item>, key: string, a: Agg) {
    && g.url(a.res.url) == key
    && a.rrf == MassOf(g, items, key)
    && (forall e :: e in a.engines <==> e in EnginesOf(g, items, key))
    && (forall i, j :: 0 <= i < j < |a.engines| ==> a.engines[i] != a.engines[j])
    && a.families == FamiliesOf(g, items, key)
  }

  ghost predicate Faithful(g: Signals, items: seq<Item>, f: Fused) {
    && (forall key :: key in f.aggs <==> key in f.order)
    && (forall i, j :: 0 <= i < j < |f.order| ==> f.order[i] != f.order[j])
    && (forall key :: key in f.aggs <==> key != "" && exists it :: it in items && g.url(it.res.url) == key)
    && (forall key :: key in f.aggs ==> FaithfulAt(g, items, key, f.aggs[key]))
  }

  lemma SnocSets(g: Signals, init: seq<Item>, it: Item, key: string)
    ensures g.url(it.res.url) == key ==>
      && EnginesOf(g, init + [it], key) == EnginesOf(g, init, key) + {it.engine}
      && FamiliesOf(g, init + [it], key) == FamiliesOf(g, init, key) + {g.family(it.engine)}
    ensures g.url(it.res.url) != key ==>
      && EnginesOf(g, init + [it], key) == EnginesOf(g, init, key)
      && FamiliesOf(g, init + [it], key) == FamiliesOf(g, init, key)
    ensures MassOf(g, init + [it], key) == MassOf(g, init, key) + (if g.url(it.res.url) == key then it.mass else 0.0)
  {
    assert (init + [it])[..|init|] == init;
    assert forall x :: x in init + [it] <==> x in init || x == it;
    if g.url(it.res.url) == key {
      assert EnginesOf(g, init + [it], key) == EnginesOf(g, init, key) + {it.engine};
      forall x | x in init && g.url(x.res.url) == key ensures g.family(x.engine) in FamiliesOf(g, init + [it], key) {
        assert x in init + [it];
      }
      assert it in init + [it];
    }
  }

  lemma EngineKnowsFamily(g: Signals, items: seq<Item>, key: string, e: string)
    requires e in EnginesOf(g, items, key)
    ensures g.family(e) in FamiliesOf(g, items, key)
  {
  }

  lemma MissingKeyIsEmpty(g: Signals, items: seq<Item>, key: string)
    requires forall it :: it in items ==> g.url(it.res.url) != key
    ensures MassOf(g, items, key) == 0.0 && EnginesOf(g, items, key) == {} && FamiliesOf(g, items, key) == {}
  {
    if items != [] {
      MissingKeyIsEmpty(g, items[..|items| - 1], key);
      assert items[|items| - 1] in items;
    }
  }

  lemma GrowFaithful(g: Signals, init: seq<Item>, it: Item, a: Agg, key: string)
    requires FaithfulAt(g, init, key, a) && g.url(it.res.url) == key
    ensures FaithfulAt(g, init + [it], key, Grow(g, a, it))
  {
    SnocSets(g, init, it, key);
    if it.engine in a.engines { EngineKnowsFamily(g, init, key, it.engine); }
    assert FamiliesOf(g, init + [it], key) == Grow(g, a, it).families;
  }

  lemma OtherFaithful(g: Signals, init: seq<Item>, it: Item, a: Agg, key: string)
    requires FaithfulAt(g, init, key, a) && g.url(it.res.url) != key
    ensures FaithfulAt(g, init + [it], key, a)
  {
    SnocSets(g, init, it, key);
  }

  lemma FirstFaithful(g: Signals, init: seq<Item>, it: Item, key: string)
    requires g.url(it.res.url) == key && forall x :: x in init ==> g.url(x.res.url) != key
    ensures FaithfulAt(g, init + [it], key, Grow(g, Agg(it.res, 0.0, [], {}), it))
  {
    MissingKeyIsEmpty(g, init, key);
    GrowFaithful(g, init, it, Agg(it.res, 0.0, [], {}), key);
  }

  lemma AbsorbFaithfulAt(g: Signals, init: seq<Item>, it: Item, f: Fused, key: string)
    requires Faithful(g, init, f) && key in Absorb(g, f, it).aggs
    ensures FaithfulAt(g, init + [it], key, Absorb(g, f, it).aggs[key])
  {
    if key !in f.aggs {
      FirstFaithful(g, init, it, key);
    } else {
      var a := f.aggs[key];
      assert FaithfulAt(g, init, key, a);
      if g.url(it.res.url) == key {
        GrowFaithful(g, init, it, a.(res := MergedInto(a.res, it.res)), key);
      } else {
        OtherFaithful(g, init, it, a, key);
      }
    }
  }

  lemma AbsorbOrder(g: Signals, init: seq<Item>, it: Item, f: Fused)
    requires Faithful(g, init, f)
    ensures var f' := Absorb(g, f, it);
      && (forall key :: key in f'.aggs <==> key in f'.order)
      && (forall i, j :: 0 <= i < j < |f'.order| ==> f'.order[i] != f'.order[j])
  {
    forall i | 0 <= i < |f.order| ensures f.order[i] in f.aggs { assert f.order[i] in f.order; }
  }

  lemma AbsorbKeys(g: Signals, init: seq<Item>, it: Item, f: Fused)
    requires Faithful(g, init, f)
    ensures var (f', items) := (Absorb(g, f, it), init + [it]);
      forall key :: key in f'.aggs <==> key != "" && exists x :: x in items && g.url(x.res.url) == key
  {
    var items := init + [it];
    assert it in items;
    forall x | x in init ensures x in items {}
  }

  lemma AbsorbIsFaithful(g: Signals, init: seq<Item>, it: Item, f: Fused)
    requires Faithful(g, init, f)
    ensures Faithful(g, init + [it], Absorb(g, f, it))
  {
    AbsorbOrder(g, init, it, f);
    AbsorbKeys(g, init, it, f);
    forall key | key in Absorb(g, f, it).aggs ensures FaithfulAt(g, init + [it], key, Absorb(g, f, it).aggs[key]) {
      AbsorbFaithfulAt(g, init, it, f, key);
    }
  }

  // One pass over the buckets computes, for each URL key that occurs, the RRF sum over all
  // its occurrences, its engines and its engine families once each; keys are distinct.
  lemma {:induction false} FusionIsFaithful(g: Signals, items: seq<Item>)
    ensures Faithful(g, items, Fuse(g, items))
  {
    if items != [] {
      var (init, it) := (items[..|items| - 1], items[|items| - 1]);
      assert items == init + [it];
      FusionIsFaithful(g, init);
      AbsorbIsFaithful(g, init, it, Fuse(g, init));
      FuseSnoc(g, init, it);
    }
  }

  ghost predicate Fullest(g: Signals, items: seq<Item>, f: Fused) {
    forall it :: it in items && g.url(it.res.url) != "" ==>
      g.url(it.res.url) in f.aggs && Fuller(f.aggs[g.url(it.res.url)].res, it.res)
  }

  // A fused result is at least as complete as each of its occurrences.
  lemma {:induction false} FusionIsFullest(g: Signals, items: seq<Item>)
    ensures Fullest(g, items, Fuse(g, items))
  {
    if items != [] {
      var (init, it) := (items[..|items| - 1], items[|items| - 1]);
      FusionIsFullest(g, init);
      assert items == init + [it];
      var f := Fuse(g, init);
      forall x | x in items && g.url(x.res.url) != ""
        ensures g.url(x.res.url) in Fuse(g, items).aggs && Fuller(Fuse(g, items).aggs[g.url(x.res.url)].res, x.res)
      {
        if x in init { assert Fuller(f.aggs[g.url(x.res.url)].res, x.res); }
      }
    }
  }

  // The place of a key's first occurrence.
  function FirstAt(g: Signals, items: seq<Item>, key: string): (i: nat)
    requires exists it :: it in items && g.url(it.res.url) == key
    ensures i < |items| && g.url(items[i].res.url) == key
    ensures forall j :: 0 <= j < i ==> g.url(items[j].res.url) != key
  {
    if g.url(items[0].res.url) == key then 0 else 1 + FirstAt(g, items[1..], key)
  }

  ghost predicate InArrivalOrder(g: Signals, items: seq<Item>, order: seq<string>) {
    && (forall i :: 0 <= i < |order| ==> exists it :: it in items && g.url(it.res.url) == order[i])
    && (forall i, j :: 0 <= i < j < |order| ==> FirstAt(g, items, order[i]) < FirstAt(g, items, order[j]))
  }

  lemma FirstAtStays(g: Signals, init: seq<Item>, it: Item, key: string)
    requires exists x :: x in init && g.url(x.res.url) == key
    ensures exists x :: x in init + [it] && g.url(x.res.url) == key
    ensures FirstAt(g, init + [it], key) == FirstAt(g, init, key)
  {
    var (i, items) := (FirstAt(g, init, key), init + [it]);
    assert items[i] in items && forall j :: 0 <= j < |init| ==> items[j] == init[j];
  }

  lemma ArrivalStays(g: Signals, init: seq<Item>, it: Item, order: seq<string>)
    requires InArrivalOrder(g, init, order)
    ensures InArrivalOrder(g, init + [it], order)
    ensures forall i :: 0 <= i < |order| ==> FirstAt(g, init + [it], order[i]) < |init|
  {
    forall i | 0 <= i < |order|
      ensures exists x :: x in init + [it] && g.url(x.res.url) == order[i]
      ensures FirstAt(g, init + [it], order[i]) == FirstAt(g, init, order[i])
    {
      FirstAtStays(g, init, it, order[i]);
    }
  }

  lemma NewKeyIsLast(g: Signals, init: seq<Item>, it: Item)
    requires forall x :: x in init ==> g.url(x.res.url) != g.url(it.res.url)
    ensures exists x :: x in init + [it] && g.url(x.res.url) == g.url(it.res.url)
    ensures FirstAt(g, init + [it], g.url(it.res.url)) == |init|
  {
    var items := init + [it];
    assert items[|init|] == it;
    forall j | 0 <= j < |init| ensures g.url(items[j].res.url) != g.url(it.res.url) { assert init[j] in init; }
  }

  lemma KeyIsNew(g: Signals, items: seq<Item>, key: string)
    requires Faithful(g, items, Fuse(g, items)) && key != "" && key !in Fuse(g, items).aggs
    ensures forall it :: it in items ==> g.url(it.res.url) != key
  {
  }

  lemma ArrivalGrows(g: Signals, init: seq<Item>, it: Item, order: seq<string>)
    requires InArrivalOrder(g, init, order) && g.url(it.res.url) != ""
    requires forall x :: x in init ==> g.url(x.res.url) != g.url(it.res.url)
    ensures InArrivalOrder(g, init + [it], order + [g.url(it.res.url)])
  {
    ArrivalStays(g, init, it, order);
    NewKeyIsLast(g, init, it);
  }

  // Keys stand in the order of their first occurrence, which the stable sort keeps among equal scores.
  lemma {:induction false} FusionKeepsArrival(g: Signals, items: seq<Item>)
    ensures InArrivalOrder(g, items, Fuse(g, items).order)
  {
    if items != [] {
      var (init, it) := (items[..|items| - 1], items[|items| - 1]);
      FusionKeepsArrival(g, init);
      FusionIsFaithful(g, init);
      assert items == init + [it];
      if g.url(it.res.url) != "" && g.url(it.res.url) !in Fuse(g, init).aggs {
        KeyIsNew(g, init, g.url(it.res.url));
        ArrivalGrows(g, init, it, Fuse(g, init).order);
      } else {
        ArrivalStays(g, init, it, Fuse(g, init).order);
      }
    }
  }

  // The first non-empty title among a key's occurrences.
  function FirstTitle(g: Signals, items: seq<Item>, key: string): string {
    if items == [] then ""
    else
      var before := FirstTitle(g, items[..|items| - 1], key);
      if before == "" && g.url(items[|items| - 1].res.url) == key then items[|items| - 1].res.title else before
  }

  lemma {:induction false} FirstTitleOfNewKey(g: Signals, items: seq<Item>, key: string)
    requires forall it :: it in items ==> g.url(it.res.url) != key
    ensures FirstTitle(g, items, key) == ""
  {
    if items != [] { FirstTitleOfNewKey(g, items[..|items| - 1], key); }
  }

  lemma AbsorbTitle(g: Signals, f: Fused, it: Item, key: string)
    requires key in Absorb(g, f, it).aggs && key != ""
    ensures var title := Absorb(g, f, it).aggs[key].res.title;
      if key !in f.aggs then g.url(it.res.url) == key && title == it.res.title
      else
        var before := f.aggs[key].res.title;
        title == if g.url(it.res.url) == key && before == "" then it.res.title else before
  {
  }

  lemma {:induction false} FirstTitleWins(g: Signals, items: seq<Item>, key: string)
    requires key in Fuse(g, items).aggs
    ensures Fuse(g, items).aggs[key].res.title == FirstTitle(g, items, key)
  {
    var (init, it) := (items[..|items| - 1], items[|items| - 1]);
    FusionIsFaithful(g, items);
    AbsorbTitle(g, Fuse(g, init), it, key);
    if key in Fuse(g, init).aggs {
      FirstTitleWins(g, init, key);
    } else {
      FusionIsFaithful(g, init);
      KeyIsNew(g, init, key);
      FirstTitleOfNewKey(g, init, key);
    }
  }

  // The first date among a key's occurrences, and the first from a structured source.
  function FirstDate(g: Signals, items: seq<Item>, key: string): string {
    if items == [] then ""
    else
      var before := FirstDate(g, items[..|items| - 1], key);
      if g.url(items[|items| - 1].res.url) == key then OrDate(before, items[|items| - 1].res) else before
  }

  function FirstStructured(g: Signals, items: seq<Item>, key: string): string {
    if items == [] then ""
    else
      var before := FirstStructured(g, items[..|items| - 1], key);
      if g.url(items[|items| - 1].res.url) == key then OrStructured(before, items[|items| - 1].res) else before
  }

  lemma {:induction false} FirstDateOfNewKey(g: Signals, items: seq<Item>, key: string)
    requires forall it :: it in items ==> g.url(it.res.url) != key
    ensures FirstDate(g, items, key) == "" && FirstStructured(g, items, key) == ""
  {
    if items != [] { FirstDateOfNewKey(g, items[..|items| - 1], key); }
  }

  lemma AbsorbDate(g: Signals, f: Fused, it: Item, key: string, first: string, strong: string)
    requires key in Absorb(g, f, it).aggs && key != ""
    requires key in f.aggs ==> HasDate(f.aggs[key].res, first, strong)
    requires key !in f.aggs ==> first == "" && strong == ""
    ensures key !in f.aggs ==> g.url(it.res.url) == key
    ensures var r := Absorb(g, f, it).aggs[key].res;
      if g.url(it.res.url) == key then HasDate(r, OrDate(first, it.res), OrStructured(strong, it.res))
      else HasDate(r, first, strong)
  {
    if key in f.aggs && g.url(it.res.url) == key {
      var a := f.aggs[key].res;
      PreferDateKeeps(a.(content := if |it.res.content| > |a.content| then it.res.content else a.content,
                         title := if a.title == "" then it.res.title else a.title),
                      it.res, first, strong);
    }
  }

  // A fused result bears the first structured date of its key, else the first date, and says
  // truly whether it is structured.
  lemma {:induction false} StructuredDateWins(g: Signals, items: seq<Item>, key: string)
    requires key in Fuse(g, items).aggs
    ensures var (r, first, strong) :=
        (Fuse(g, items).aggs[key].res, FirstDate(g, items, key), FirstStructured(g, items, key));
      r.date == (if strong != "" then strong else first) && (r.date != "" ==> (r.structured <==> strong != ""))
    ensures HasDate(Fuse(g, items).aggs[key].res, FirstDate(g, items, key), FirstStructured(g, items, key))
  {
    var (init, it) := (items[..|items| - 1], items[|items| - 1]);
    FusionIsFaithful(g, items);
    FusionIsFaithful(g, init);
    if key in Fuse(g, init).aggs {
      StructuredDateWins(g, init, key);
    } else {
      KeyIsNew(g, init, key);
      FirstDateOfNewKey(g, init, key);
    }
    AbsorbDate(g, Fuse(g, init), it, key, FirstDate(g, init, key), FirstStructured(g, init, key));
  }

  // ---- Mass ----

  function TotalRrf(f: Fused, n: nat): real
    requires n <= |f.order| && forall key :: key in f.order ==> key in f.aggs
  {
    if n == 0 then 0.0
    else
      assert f.order[n - 1] in f.order;
      TotalRrf(f, n - 1) + f.aggs[f.order[n - 1]].rrf
  }

  function KeyedMass(g: Signals, items: seq<Item>): real {
    if items == [] then 0.0
    else
      var (init, it) := (items[..|items| - 1], items[|items| - 1]);
      KeyedMass(g, init) + (if g.url(it.res.url) != "" then it.mass else 0.0)
  }

  function MassOver(g: Signals, items: seq<Item>, keys: seq<string>): real {
    if keys == [] then 0.0
    else MassOver(g, items, keys[..|keys| - 1]) + MassOf(g, items, keys[|keys| - 1])
  }

  predicate Distinct(keys: seq<string>) { forall i, j :: 0 <= i < j < |keys| ==> keys[i] != keys[j] }

  lemma {:induction false} MassOverSnoc(g: Signals, items: seq<Item>, keys: seq<string>)
    requires items != [] && Distinct(keys)
    ensures var (init, it) := (items[..|items| - 1], items[|items| - 1]);
      MassOver(g, items, keys) == MassOver(g, init, keys) + (if g.url(it.res.url) in keys then it.mass else 0.0)
  {
    if keys != [] {
      MassOverSnoc(g, items, keys[..|keys| - 1]);
      assert keys == keys[..|keys| - 1] + [keys[|keys| - 1]];
    }
  }

  lemma {:induction false} MassOverNothing(g: Signals, keys: seq<string>)
    ensures MassOver(g, [], keys) == 0.0
  {
    if keys != [] { MassOverNothing(g, keys[..|keys| - 1]); }
  }

  lemma {:induction false} MassOverAll(g: Signals, items: seq<Item>, keys: seq<string>)
    requires Distinct(keys) && forall it :: it in items ==> (g.url(it.res.url) in keys <==> g.url(it.res.url) != "")
    ensures MassOver(g, items, keys) == KeyedMass(g, items)
  {
    if items == [] {
      MassOverNothing(g, keys);
    } else {
      MassOverAll(g, items[..|items| - 1], keys);
      MassOverSnoc(g, items, keys);
    }
  }

  lemma {:induction false} TotalIsMassOver(g: Signals, items: seq<Item>, f: Fused, n: nat)
    requires n <= |f.order| && forall key :: key in f.order ==> key in f.aggs
    requires forall key :: key in f.aggs ==> f.aggs[key].rrf == MassOf(g, items, key)
    ensures TotalRrf(f, n) == MassOver(g, items, f.order[..n])
  {
    if n > 0 {
      TotalIsMassOver(g, items, f, n - 1);
      assert f.order[..n][..n - 1] == f.order[..n - 1] && f.order[n - 1] in f.order;
    }
  }

  // Fusion conserves rank mass: the aggregates together carry that of all entries with a key.
  lemma FusionConservesMass(g: Signals, items: seq<Item>)
    ensures var f := Fuse(g, items);
      && (forall key :: key in f.order ==> key in f.aggs)
      && TotalRrf(f, |f.order|) == KeyedMass(g, items)
  {
    FusionIsFaithful(g, items);
    var f := Fuse(g, items);
    assert f.order[..|f.order|] == f.order;
    forall key | key in f.aggs ensures f.aggs[key].rrf == MassOf(g, items, key) {
      assert FaithfulAt(g, items, key, f.aggs[key]);
    }
    TotalIsMassOver(g, items, f, |f.order|);
    MassOverAll(g, items, f.order);
  }

  // ---- RRFScore ----

  // The sum of 1 / (K + rank) over a map from engines to ranks.
  ghost function RankSum(ranks: map<string, nat>, K: real): real
    requires K > 0.0
    decreases |ranks|
  {
    if ranks == map[] then 0.0
    else var e :| e in ranks; 1.0 / (K + ranks[e] as real) + RankSum(ranks - {e}, K)
  }

  lemma {:induction false} RankSumTakes(ranks: map<string, nat>, K: real, e: string)
    requires K > 0.0 && e in ranks
    ensures RankSum(ranks, K) == 1.0 / (K + ranks[e] as real) + RankSum(ranks - {e}, K)
    decreases |ranks|
  {
    var x :| x in ranks && RankSum(ranks, K) == 1.0 / (K + ranks[x] as real) + RankSum(ranks - {x}, K);
    if x != e {
      RankSumTakes(ranks - {x}, K, e);
      RankSumTakes(ranks - {e}, K, x);
      assert ranks - {x} - {e} == ranks - {e} - {x};
    }
  }

  method RRFScore(ranks: map<string, nat>, K: real) returns (score: real)
    ensures score == RankSum(ranks, if K <= 0.0 then RRF_K else K)
  {
    var k := if K <= 0.0 then RRF_K else K;
    score := 0.0;
    var todo := ranks;
    while todo != map[]
      invariant score + RankSum(todo, k) == RankSum(ranks, k)
      decreases |todo|
    {
      var e :| e in todo;
      RankSumTakes(todo, k, e);
      score := score + 1.0 / (k + todo[e] as real);
      todo := todo - {e};
    }
  }

  // Where a key stands: one rank per engine, when names are distinct and no bucket repeats it.
  function RanksOf(g: Signals, items: seq<Item>, key: string): map<string, nat> {
    if items == [] then map[]
    else
      var it := items[|items| - 1];
      var ranks := RanksOf(g, items[..|items| - 1], key);
      if g.url(it.res.url) == key then ranks[it.engine := it.rank] else ranks
  }

  predicate OncePerEngine(g: Signals, items: seq<Item>, key: string) {
    forall i, j :: 0 <= i < j < |items| && g.url(items[i].res.url) == key == g.url(items[j].res.url) ==>
      items[i].engine != items[j].engine
  }

  lemma {:induction false} RanksAre(g: Signals, items: seq<Item>, key: string, e: string)
    ensures e in RanksOf(g, items, key) <==>
        exists i :: 0 <= i < |items| && g.url(items[i].res.url) == key && items[i].engine == e
  {
    if items != [] {
      var n := |items| - 1;
      RanksAre(g, items[..n], key, e);
      if i :| 0 <= i < |items| && g.url(items[i].res.url) == key && items[i].engine == e {
        if i < n { assert items[..n][i].engine == e; }
      }
      if i :| 0 <= i < n && g.url(items[..n][i].res.url) == key && items[..n][i].engine == e {
        assert items[i].engine == e;
      }
    }
  }

  predicate PlainBucket(g: Signals, b: Bucket) {
    forall i, j :: 0 <= i < j < |b.results| && g.url(b.results[i].url) == g.url(b.results[j].url) ==>
      g.url(b.results[i].url) == ""
  }

  // Buckets as engines return them: one per engine, no key twice.
  predicate PlainBuckets(g: Signals, buckets: seq<Bucket>) {
    && (forall i :: 0 <= i < |buckets| ==> PlainBucket(g, buckets[i]))
    && (forall i, j :: 0 <= i < j < |buckets| ==> buckets[i].name != buckets[j].name)
  }

  ghost predicate Stands(g: Signals, buckets: seq<Bucket>, key: string, e: string, r: nat) {
    exists b :: 0 <= b < |buckets| && buckets[b].name == e && r < |buckets[b].results|
        && g.url(buckets[b].results[r].url) == key
  }

  // ranks says for every engine at which rank of its bucket the key stands, if it does.
  ghost predicate IsRankTable(g: Signals, buckets: seq<Bucket>, key: string, ranks: map<string, nat>) {
    forall e, r: nat :: e in ranks && ranks[e] == r <==> Stands(g, buckets, key, e, r)
  }

  function ItemAt(b: Bucket, rank: nat): Item
    requires rank < |b.results|
  {
    Item(b.name, rank, Mass(b, rank), b.results[rank])
  }

  ghost predicate Listed(buckets: seq<Bucket>, it: Item) {
    exists b, rank :: 0 <= b < |buckets| && 0 <= rank < |buckets[b].results| && it == ItemAt(buckets[b], rank)
  }

  lemma ListedSnoc(init: seq<Bucket>, last: Bucket, it: Item)
    ensures Listed(init + [last], it) <==> Listed(init, it) || it in ItemsOf(last, |last.results|)
  {
    var buckets := init + [last];
    if it in ItemsOf(last, |last.results|) {
      var rank :| 0 <= rank < |last.results| && ItemsOf(last, |last.results|)[rank] == it;
      assert it == ItemAt(buckets[|init|], rank);
    }
    if b, rank :| 0 <= b < |init| && 0 <= rank < |init[b].results| && it == ItemAt(init[b], rank) {
      assert it == ItemAt(buckets[b], rank);
    }
    if b, rank :| 0 <= b < |buckets| && 0 <= rank < |buckets[b].results| && it == ItemAt(buckets[b], rank) {
      if b < |init| {
        assert it == ItemAt(init[b], rank);
      } else {
        assert it == ItemsOf(last, |last.results|)[rank];
      }
    }
  }

  lemma {:induction false} ItemsAreListed(buckets: seq<Bucket>, it: Item)
    ensures it in Items(buckets) <==> Listed(buckets, it)
  {
    if buckets != [] {
      var (init, last) := (buckets[..|buckets| - 1], buckets[|buckets| - 1]);
      ItemsAreListed(init, it);
      ListedSnoc(init, last, it);
      assert buckets == init + [last];
    }
  }

  lemma ItemStands(g: Signals, buckets: seq<Bucket>, key: string, it: Item)
    requires it in Items(buckets) && g.url(it.res.url) == key
    ensures Stands(g, buckets, key, it.engine, it.rank)
  {
    ItemsAreListed(buckets, it);
  }

  lemma StandsAsItem(g: Signals, buckets: seq<Bucket>, key: string, e: string, r: nat)
    requires Stands(g, buckets, key, e, r)
    ensures exists it :: it in Items(buckets) && g.url(it.res.url) == key && it.engine == e && it.rank == r
  {
    var b :| 0 <= b < |buckets| && buckets[b].name == e && r < |buckets[b].results|
        && g.url(buckets[b].results[r].url) == key;
    ItemsAreListed(buckets, ItemAt(buckets[b], r));
  }

  // weights says what every engine's bucket weighs: 1 when its weight is not positive.
  ghost predicate IsWeightTable(buckets: seq<Bucket>, weights: map<string, real>) {
    forall b :: 0 <= b < |buckets| ==>
      && buckets[b].name in weights
      && weights[buckets[b].name] == if buckets[b].weight > 0.0 then buckets[b].weight else 1.0
  }

  predicate Weighed(items: seq<Item>, weights: map<string, real>) {
    forall i :: 0 <= i < |items| ==>
      items[i].engine in weights && items[i].mass == weights[items[i].engine] / (60.0 + items[i].rank as real)
  }

  lemma ListedWeighed(buckets: seq<Bucket>, weights: map<string, real>, it: Item)
    requires IsWeightTable(buckets, weights) && Listed(buckets, it)
    ensures it.engine in weights && it.mass == weights[it.engine] / (60.0 + it.rank as real)
  {
    var b, rank :| 0 <= b < |buckets| && 0 <= rank < |buckets[b].results| && it == ItemAt(buckets[b], rank);
    MassIsQuotient(buckets[b], rank);
  }

  lemma ItemsWeighed(buckets: seq<Bucket>, weights: map<string, real>)
    requires IsWeightTable(buckets, weights)
    ensures Weighed(Items(buckets), weights)
  {
    var items := Items(buckets);
    forall i | 0 <= i < |items|
      ensures items[i].engine in weights && items[i].mass == weights[items[i].engine] / (60.0 + items[i].rank as real)
    {
      ItemsAreListed(buckets, items[i]);
      ListedWeighed(buckets, weights, items[i]);
    }
  }

  lemma OnceAppended(g: Signals, u: seq<Item>, v: seq<Item>, key: string, b: Bucket)
    requires OncePerEngine(g, u, key) && v == ItemsOf(b, |b.results|) && PlainBucket(g, b) && key != ""
    requires forall i :: 0 <= i < |u| ==> u[i].engine != b.name
    ensures OncePerEngine(g, u + v, key)
  {
    var items := u + v;
    assert forall i :: 0 <= i < |u| ==> items[i] == u[i];
    assert forall i :: |u| <= i < |items| ==> items[i].engine == b.name && items[i].res == b.results[i - |u|];
  }

  lemma {:induction false} PlainOnce(g: Signals, buckets: seq<Bucket>, key: string)
    requires PlainBuckets(g, buckets) && key != ""
    ensures OncePerEngine(g, Items(buckets), key)
  {
    if buckets != [] {
      var (init, last) := (buckets[..|buckets| - 1], buckets[|buckets| - 1]);
      PlainOnce(g, init, key);
      var (u, v) := (Items(init), ItemsOf(last, |last.results|));
      forall i | 0 <= i < |u| ensures u[i].engine != last.name {
        ItemsAreListed(init, u[i]);
      }
      OnceAppended(g, u, v, key, last);
    }
  }

  lemma {:induction false} RankOfOccurrence(g: Signals, items: seq<Item>, key: string, i: nat)
    requires OncePerEngine(g, items, key) && i < |items| && g.url(items[i].res.url) == key
    ensures var ranks := RanksOf(g, items, key);
      items[i].engine in ranks && ranks[items[i].engine] == items[i].rank
  {
    var n := |items| - 1;
    if i < n { RankOfOccurrence(g, items[..n], key, i); }
  }

  lemma RankTableIs(g: Signals, buckets: seq<Bucket>, key: string, ranks: map<string, nat>)
    requires PlainBuckets(g, buckets) && key != "" && IsRankTable(g, buckets, key, ranks)
    ensures RanksOf(g, Items(buckets), key) == ranks
  {
    var (items, found) := (Items(buckets), RanksOf(g, Items(buckets), key));
    PlainOnce(g, buckets, key);
    forall e | e in ranks ensures e in found && found[e] == ranks[e] {
      assert Stands(g, buckets, key, e, ranks[e]);
      StandsAsItem(g, buckets, key, e, ranks[e]);
      var it :| it in items && g.url(it.res.url) == key && it.engine == e && it.rank == ranks[e];
      var i :| 0 <= i < |items| && items[i] == it;
      RankOfOccurrence(g, items, key, i);
    }
    forall e | e in found ensures e in ranks {
      RanksAre(g, items, key, e);
      var i :| 0 <= i < |items| && g.url(items[i].res.url) == key && items[i].engine == e;
      ItemStands(g, buckets, key, items[i]);
    }
  }

  ghost function SumOf(terms: map<string, real>): real
    decreases |terms|
  {
    if terms == map[] then 0.0 else var e :| e in terms; terms[e] + SumOf(terms - {e})
  }

  lemma {:induction false} SumOfTakes(terms: map<string, real>, e: string)
    requires e in terms
    ensures SumOf(terms) == terms[e] + SumOf(terms - {e})
    decreases |terms|
  {
    var x :| x in terms && SumOf(terms) == terms[x] + SumOf(terms - {x});
    if x != e {
      SumOfTakes(terms - {x}, e);
      SumOfTakes(terms - {e}, x);
      assert terms - {x} - {e} == terms - {e} - {x};
    }
  }

  // w/(60+rank) for every engine of a table of ranks, with w from a table of weights.
  function Terms(weights: map<string, real>, ranks: map<string, nat>): map<string, real>
    requires ranks.Keys <= weights.Keys
  {
    map e | e in ranks :: weights[e] / (60.0 + ranks[e] as real)
  }

  ghost function WeightedSum(weights: map<string, real>, ranks: map<string, nat>): real
    requires ranks.Keys <= weights.Keys
  {
    SumOf(Terms(weights, ranks))
  }

  lemma WeightedSumAdds(weights: map<string, real>, ranks: map<string, nat>, e: string, rank: nat)
    requires ranks.Keys <= weights.Keys && e in weights && e !in ranks
    ensures WeightedSum(weights, ranks[e := rank]) == WeightedSum(weights, ranks) + weights[e] / (60.0 + rank as real)
  {
    var (before, after) := (Terms(weights, ranks), Terms(weights, ranks[e := rank]));
    SumOfTakes(after, e);
    assert after - {e} == before;
  }

  lemma {:induction false} MassOfIsWeightedSum(g: Signals, items: seq<Item>, key: string, weights: map<string, real>)
    requires Weighed(items, weights) && OncePerEngine(g, items, key)
    ensures RanksOf(g, items, key).Keys <= weights.Keys
    ensures MassOf(g, items, key) == WeightedSum(weights, RanksOf(g, items, key))
  {
    if items == [] {
      assert Terms(weights, map[]) == map[];
    } else {
      var n := |items| - 1;
      MassOfIsWeightedSum(g, items[..n], key, weights);
      if g.url(items[n].res.url) == key {
        RanksAre(g, items[..n], key, items[n].engine);
        assert items[n].engine !in RanksOf(g, items[..n], key);
        WeightedSumAdds(weights, RanksOf(g, items[..n], key), items[n].engine, items[n].rank);
      }
    }
  }

  lemma AggregateMass(g: Signals, items: seq<Item>, key: string)
    requires key in Fuse(g, items).aggs
    ensures Fuse(g, items).aggs[key].rrf == MassOf(g, items, key)
    ensures Fuse(g, items).aggs[key].families == FamiliesOf(g, items, key)
  {
    FusionIsFaithful(g, items);
    assert FaithfulAt(g, items, key, Fuse(g, items).aggs[key]);
  }

  // For engines that list no key twice, a fused result carries the sum of w/(60+rank) over the
  // ranks its key has in their buckets, with w each bucket's own weight.
  lemma FusedIsWeightedSum(g: Signals, buckets: seq<Bucket>, key: string, weights: map<string, real>,
        ranks: map<string, nat>)
    requires PlainBuckets(g, buckets) && IsWeightTable(buckets, weights) && IsRankTable(g, buckets, key, ranks)
    requires key in Fuse(g, Items(buckets)).aggs
    ensures ranks.Keys <= weights.Keys
    ensures Fuse(g, Items(buckets)).aggs[key].rrf == WeightedSum(weights, ranks)
  {
    var items := Items(buckets);
    FusionIsFaithful(g, items);
    AggregateMass(g, items, key);
    ItemsWeighed(buckets, weights);
    PlainOnce(g, buckets, key);
    RankTableIs(g, buckets, key, ranks);
    MassOfIsWeightedSum(g, items, key, weights);
  }

  lemma {:induction false} UnitWeightsSum(weights: map<string, real>, ranks: map<string, nat>)
    requires ranks.Keys <= weights.Keys && forall e :: e in weights ==> weights[e] == 1.0
    ensures WeightedSum(weights, ranks) == RankSum(ranks, 60.0)
    decreases |ranks|
  {
    if ranks == map[] {
      assert Terms(weights, map[]) == map[];
    } else {
      var e :| e in ranks;
      var rest := ranks - {e};
      assert ranks == rest[e := ranks[e]];
      WeightedSumAdds(weights, rest, e, ranks[e]);
      RankSumTakes(ranks, 60.0, e);
      UnitWeightsSum(weights, rest);
    }
  }

  // With weight 1 everywhere that is RRFScore of the ranks.
  lemma FusedIsRRFScore(g: Signals, buckets: seq<Bucket>, key: string, ranks: map<string, nat>)
    requires PlainBuckets(g, buckets) && IsRankTable(g, buckets, key, ranks)
    requires forall b :: 0 <= b < |buckets| ==> buckets[b].weight <= 0.0 || buckets[b].weight == 1.0
    requires key in Fuse(g, Items(buckets)).aggs
    ensures Fuse(g, Items(buckets)).aggs[key].rrf == RankSum(ranks, 60.0)
  {
    var names := set b | 0 <= b < |buckets| :: buckets[b].name;
    var weights := map e | e in names :: 1.0;
    FusedIsWeightedSum(g, buckets, key, weights, ranks);
    UnitWeightsSum(weights, ranks);
  }

  lemma {:induction false} MassOfIsItemSum(g: Signals, items: seq<Item>, key: string, want: nat -> bool)
    requires forall j: nat :: j < |items| ==> want(j) == (g.url(items[j].res.url) == key)
    ensures MassOf(g, items, key) == ItemSum(items, want)
  {
    if items != [] { MassOfIsItemSum(g, items[..|items| - 1], key, want); }
  }

  // The results that have this key.
  function HasKey(g: Signals, buckets: seq<Bucket>, key: string): (nat, nat) -> bool {
    (b: nat, r: nat) => b < |buckets| && r < |buckets[b].results| && g.url(buckets[b].results[r].url) == key
  }

  lemma HasKeyAt(g: Signals, buckets: seq<Bucket>, key: string, b: nat, r: nat)
    requires b < |buckets| && r < |buckets[b].results|
    ensures FirstOf(buckets, b) + r < |Items(buckets)|
    ensures HasKey(g, buckets, key)(b, r) == (g.url(Items(buckets)[FirstOf(buckets, b) + r].res.url) == key)
  {
    PlaceOf(buckets, b, r);
  }

  lemma HasKeyInPlace(g: Signals, buckets: seq<Bucket>, key: string, want: nat -> bool)
    requires forall j: nat :: j < |Items(buckets)| ==> want(j) == (g.url(Items(buckets)[j].res.url) == key)
    ensures SamePick(buckets, want, HasKey(g, buckets, key))
  {
    forall b: nat, r: nat | b < |buckets| && r < |buckets[b].results|
      ensures want(FirstOf(buckets, b) + r) == HasKey(g, buckets, key)(b, r)
    {
      HasKeyAt(g, buckets, key, b, r);
    }
  }

  lemma MassIsRrfSum(g: Signals, buckets: seq<Bucket>, key: string)
    ensures MassOf(g, Items(buckets), key) == RrfSum(buckets, HasKey(g, buckets, key))
  {
    var items := Items(buckets);
    var want := (j: nat) => j < |items| && g.url(items[j].res.url) == key;
    MassOfIsItemSum(g, items, key, want);
    HasKeyInPlace(g, buckets, key, want);
    ItemSumIsRrfSum(buckets, want, HasKey(g, buckets, key));
  }

  // For any buckets, a fused result carries the sum of w/(60+rank) over all results with its key.
  lemma FusedIsRrfSum(g: Signals, buckets: seq<Bucket>, key: string)
    requires key in Fuse(g, Items(buckets)).aggs
    ensures Fuse(g, Items(buckets)).aggs[key].rrf == RrfSum(buckets, HasKey(g, buckets, key))
  {
    AggregateMass(g, Items(buckets), key);
    MassIsRrfSum(g, buckets, key);
  }

  // ---- Scoring, floor and cut ----

  function ConsensusBoost(n: nat): real {
    if n <= 1 then 0.0 else if n == 2 then 0.05 else if n == 3 then 0.10 else 0.12
  }

  function Score(g: Signals, a: Agg): real {
    var base := a.rrf * g.domain(a.res) * (0.5 + 0.5 * g.lexical(a.res)) * g.rare(a.res);
    (base + ConsensusBoost(|a.families|) + g.authority(a.res)) * g.recency(a.res.date)
  }

  function Scored(g: Signals, f: Fused): seq<SearchResult>
    requires forall key :: key in f.order ==> key in f.aggs
  {
    seq(|f.order|, i requires 0 <= i < |f.order| =>
      assert f.order[i] in f.order;
      f.aggs[f.order[i]].res.(score := Score(g, f.aggs[f.order[i]]), engines := f.aggs[f.order[i]].engines))
  }

  function Threshold(t: real): real { if t <= 0.0 then 0.05 else t }

  function Floor(s: seq<SearchResult>, threshold: real): seq<SearchResult> {
    var kept := Passing(s, Threshold(threshold), |s|);
    if |kept| < 2 && |s| >= 2 then kept + [s[1]] else kept
  }

  method ApplyScoreFloor(s: seq<SearchResult>, threshold: real) returns (kept: seq<SearchResult>)
    ensures kept == Floor(s, threshold)
  {
    var t := if threshold <= 0.0 then 0.05 else threshold;
    kept := [];
    for i := 0 to |s|
      invariant kept == Passing(s, t, i)
    {
      if i == 0 || s[i].score >= t {
        kept := kept + [s[i]];
      }
    }
    if |kept| < 2 && |s| >= 2 {
      kept := kept + [s[1]];
    }
  }

  // On sorted input the floor keeps a prefix: the results at or above the threshold, but at
  // least two of them if there are two.
  lemma FloorIsPrefix(s: seq<SearchResult>, threshold: real)
    requires Sorted(s)
    ensures var n := |Floor(s, threshold)|;
      && n <= |s| && Floor(s, threshold) == s[..n]
      && (|s| >= 2 ==> n >= 2) && (|s| == 1 ==> n == 1)
      && (forall i :: 2 <= i < |s| ==> (i < n <==> s[i].score >= if threshold <= 0.0 then 0.05 else threshold))
  {
    PassingIsPrefix(s, Threshold(threshold), |s|);
    var p := |Passing(s, Threshold(threshold), |s|)|;
    if |s| > 0 {
      assert Passes(s, Threshold(threshold), 0);
      if p < 2 && |s| >= 2 { assert s[..1] + [s[1]] == s[..2]; }
    }
    forall i | 2 <= i < |s|
      ensures i < |Floor(s, threshold)| <==> s[i].score >= Threshold(threshold)
    {
      assert Passes(s, Threshold(threshold), i) <==> i < p;
    }
  }

  // Some engine of family f lists the key.
  ghost predicate ListsKey(g: Signals, buckets: seq<Bucket>, key: string, f: string) {
    exists b, r :: (0 <= b < |buckets| && 0 <= r < |buckets[b].results|
                    && g.url(buckets[b].results[r].url) == key && g.family(buckets[b].name) == f)
  }

  ghost predicate AreFamilies(g: Signals, buckets: seq<Bucket>, key: string, families: set<string>) {
    forall f :: f in families <==> ListsKey(g, buckets, key, f)
  }

  lemma FamiliesAre(g: Signals, buckets: seq<Bucket>, key: string)
    ensures AreFamilies(g, buckets, key, FamiliesOf(g, Items(buckets), key))
  {
    var (items, families) := (Items(buckets), FamiliesOf(g, Items(buckets), key));
    forall f ensures f in families <==> ListsKey(g, buckets, key, f) {
      if f in families {
        var it :| it in items && g.url(it.res.url) == key && g.family(it.engine) == f;
        ItemsAreListed(buckets, it);
      }
      if ListsKey(g, buckets, key, f) {
        var b, r :| 0 <= b < |buckets| && 0 <= r < |buckets[b].results|
                    && g.url(buckets[b].results[r].url) == key && g.family(buckets[b].name) == f;
        ItemsAreListed(buckets, ItemAt(buckets[b], r));
      }
    }
  }

  // The bonus for n engine families, and the score of a result with this RRF sum.
  predicate IsValue(g: Signals, res: SearchResult, rrf: real, n: nat, score: real) {
    var bonus := if n >= 4 then 0.12 else if n == 3 then 0.10 else if n == 2 then 0.05 else 0.0;
    score == (rrf * g.domain(res) * (0.5 + 0.5 * g.lexical(res)) * g.rare(res) + bonus + g.authority(res))
             * g.recency(res.date)
  }

  // The score that a fused result is ranked by, from the buckets and the signals alone.
  ghost predicate IsScore(g: Signals, buckets: seq<Bucket>, key: string, res: SearchResult, score: real) {
    exists families :: AreFamilies(g, buckets, key, families)
                       && IsValue(g, res, RrfSum(buckets, HasKey(g, buckets, key)), |families|, score)
  }

  lemma ScoreIsValue(g: Signals, a: Agg)
    ensures IsValue(g, a.res, a.rrf, |a.families|, Score(g, a))
  {
  }

  lemma FamiliesKnown(g: Signals, buckets: seq<Bucket>, key: string)
    requires key in Fuse(g, Items(buckets)).aggs
    ensures AreFamilies(g, buckets, key, Fuse(g, Items(buckets)).aggs[key].families)
  {
    AggregateMass(g, Items(buckets), key);
    FamiliesAre(g, buckets, key);
  }

  lemma ScoreMeans(g: Signals, buckets: seq<Bucket>, key: string)
    requires key in Fuse(g, Items(buckets)).aggs
    ensures var a := Fuse(g, Items(buckets)).aggs[key]; IsScore(g, buckets, key, a.res, Score(g, a))
  {
    var a := Fuse(g, Items(buckets)).aggs[key];
    FusedIsRrfSum(g, buckets, key);
    FamiliesKnown(g, buckets, key);
    ScoreIsValue(g, a);
    assert IsValue(g, a.res, RrfSum(buckets, HasKey(g, buckets, key)), |a.families|, Score(g, a));
  }

  datatype MmrConfig = MmrConfig(enabled: bool, lam: real, targetCount: int)

  function Cut(s: seq<SearchResult>, maxSize: int): seq<SearchResult> {
    if maxSize > 0 && |s| > maxSize then s[..maxSize] else s
  }

  function Ranked(g: Signals, buckets: seq<Bucket>): seq<SearchResult> {
    FusionIsFaithful(g, Items(buckets));
    SortDesc(Scored(g, Fuse(g, Items(buckets))))
  }

  // r is the fused result of the key, scored, with the engines that list it.
  ghost predicate RankedAs(g: Signals, buckets: seq<Bucket>, key: string, r: SearchResult) {
    && key in Fuse(g, Items(buckets)).aggs
    && var res := Fuse(g, Items(buckets)).aggs[key].res;
       && r == res.(score := r.score, engines := r.engines) && IsScore(g, buckets, key, res, r.score)
       && forall e :: e in r.engines <==> e in EnginesOf(g, Items(buckets), key)
  }

  lemma ScoredAs(g: Signals, buckets: seq<Bucket>, i: nat)
    requires Faithful(g, Items(buckets), Fuse(g, Items(buckets))) && i < |Fuse(g, Items(buckets)).order|
    ensures RankedAs(g, buckets, Fuse(g, Items(buckets)).order[i], Scored(g, Fuse(g, Items(buckets)))[i])
  {
    var f := Fuse(g, Items(buckets));
    assert f.order[i] in f.order && FaithfulAt(g, Items(buckets), f.order[i], f.aggs[f.order[i]]);
    ScoreMeans(g, buckets, f.order[i]);
  }

  // Every ranked result is that of some key.
  lemma RankedScores(g: Signals, buckets: seq<Bucket>, r: SearchResult)
    requires r in Ranked(g, buckets)
    ensures exists key :: RankedAs(g, buckets, key, r)
  {
    FusionIsFaithful(g, Items(buckets));
    var scored := Scored(g, Fuse(g, Items(buckets)));
    SortPermutes(scored);
    assert r in multiset(SortDesc(scored)) && r in multiset(scored);
    var i :| 0 <= i < |scored| && scored[i] == r;
    ScoredAs(g, buckets, i);
  }

  // The answer has at most maxSize results, the first ones, and all if maxSize is not positive.
  lemma CutMeans(s: seq<SearchResult>, maxSize: int)
    ensures Cut(s, maxSize) <= s
    ensures |Cut(s, maxSize)| == if 0 < maxSize < |s| then maxSize else |s|
  {
  }

  method EnhanceResultsMMR(g: Signals, buckets: seq<Bucket>, threshold: real, maxSize: int, tok: Mmr.Tokenizer,
        mmr: MmrConfig)
      returns (out: seq<SearchResult>)
    ensures var kept := Floor(Ranked(g, buckets), threshold);
      out == Cut(if mmr.enabled then Mmr.Pick(kept, Mmr.Order(kept, tok, mmr.lam, mmr.targetCount)) else kept, maxSize)
  {
    var f := FuseBuckets(g, buckets);
    FusionIsFaithful(g, Items(buckets));
    out := SortDesc(Scored(g, f));
    out := ApplyScoreFloor(out, threshold);
    if mmr.enabled {
      var targetN := if mmr.targetCount <= 0 then |out| else mmr.targetCount;
      out := Mmr.ApplyMMR(out, tok, mmr.lam, targetN);
    }
    if maxSize > 0 && |out| > maxSize {
      out := out[..maxSize];
    }
  }

  // With MMR off the answer is a prefix of the score-sorted list.
  lemma MmrOffIsPrefix(g: Signals, buckets: seq<Bucket>, threshold: real, maxSize: int)
    ensures Sorted(Ranked(g, buckets))
    ensures Cut(Floor(Ranked(g, buckets), threshold), maxSize) <= Ranked(g, buckets)
  {
    FusionIsFaithful(g, Items(buckets));
    SortDescIsStableSort(Scored(g, Fuse(g, Items(buckets))));
    FloorIsPrefix(Ranked(g, buckets), threshold);
  }

  // With MMR on, Top-1 is unchanged and every answer is one of the floor's, none twice.
  lemma MmrOnReorders(g: Signals, buckets: seq<Bucket>, threshold: real, tok: Mmr.Tokenizer, mmr: MmrConfig)
    requires Ranked(g, buckets) != []
    ensures var kept := Floor(Ranked(g, buckets), threshold);
      var order := Mmr.Order(kept, tok, mmr.lam, mmr.targetCount);
      && |order| > 0 && Mmr.Pick(kept, order)[0] == Ranked(g, buckets)[0]
      && (forall i :: 0 <= i < |order| ==>
            order[i] < |Ranked(g, buckets)| && Mmr.Pick(kept, order)[i] == Ranked(g, buckets)[order[i]])
      && Mmr.Distinct(order)
  {
    MmrOffIsPrefix(g, buckets, threshold, 0);
    FloorIsPrefix(Ranked(g, buckets), threshold);
    Mmr.MmrIsGreedy(Floor(Ranked(g, buckets), threshold), tok, mmr.lam, mmr.targetCount);
  }
}
