// The two-key merge of EnhanceAcademicResults (pkg/search/enhance/academic_enhance.go).
// An aggregate is found by normalised DOI, else by URL key; DOI entries are write-once,
// URL entries can be re-pointed. Aggregate pointers are positions in `order`.
module AcademicMerge {
  import opened Ranking

  // antirobot.NormalizeDOI and normalizeURLKey.
  datatype Normal = Normal(doi: string -> string, url: string -> string)

  datatype Agg = Agg(res: SearchResult, rrf: real, engines: seq<string>)

  datatype Merge = Merge(order: seq<Agg>, byDoi: map<string, nat>, byUrl: map<string, nat>)

  const EMPTY := Merge([], map[], map[])

  predicate Accepts(k: Normal, r: SearchResult) { k.doi(r.doi) != "" || k.url(r.url) != "" }

  function MergedInto(a: SearchResult, r: SearchResult): SearchResult {
    var a1 := a.(content := if |r.content| > |a.content| then r.content else a.content,
                 title := if a.title == "" then r.title else a.title);
    PreferDate(a1, r).(
      citedBy := if r.citedBy > a.citedBy then r.citedBy else a.citedBy,
      journal := if a.journal == "" then r.journal else a.journal,
      pdf := if a.pdf == "" then r.pdf else a.pdf,
      doi := if a.doi == "" then r.doi else a.doi)
  }

  // The aggregate an accepted result goes to; |order| is a new one.
  function Home(k: Normal, m: Merge, r: SearchResult): nat {
    var (doi, url) := (k.doi(r.doi), k.url(r.url));
    if doi in m.byDoi then m.byDoi[doi] else if url in m.byUrl then m.byUrl[url] else |m.order|
  }

  function Grow(a: Agg, it: Item): Agg {
    Agg(MergedInto(a.res, it.res), a.rrf + it.mass,
        if it.engine in a.engines then a.engines else a.engines + [it.engine])
  }

  function Absorb(k: Normal, m: Merge, it: Item): Merge {
    if !Accepts(k, it.res) then m
    else
      var (doi, url, home) := (k.doi(it.res.doi), k.url(it.res.url), Home(k, m, it.res));
      var order := if home < |m.order| then m.order else m.order + [Agg(it.res, 0.0, [])];
      Merge(if home < |order| then order[home := Grow(order[home], it)] else order,
            if doi != "" then m.byDoi[doi := home] else m.byDoi,
            if url != "" then m.byUrl[url := home] else m.byUrl)
  }

  function MergeAll(k: Normal, items: seq<Item>): Merge {
    if items == [] then EMPTY else Absorb(k, MergeAll(k, items[..|items| - 1]), items[|items| - 1])
  }

  // The aggregate entry j went to when it was read.
  function HomeAt(k: Normal, items: seq<Item>, j: nat): nat
    requires j < |items|
  {
    Home(k, MergeAll(k, items[..j]), items[j].res)
  }

  // ---- The Go loops ----

  lemma MergeSnoc(k: Normal, seen: seq<Item>, it: Item)
    ensures MergeAll(k, seen + [it]) == Absorb(k, MergeAll(k, seen), it)
  {
    assert (seen + [it])[..|seen|] == seen;
  }

  // The body of the inner loop.
  method MergeOne(k: Normal, m: Merge, it: Item) returns (m': Merge)
    ensures m' == Absorb(k, m, it)
  {
    var doi, url := k.doi(it.res.doi), k.url(it.res.url);
    if doi == "" && url == "" {
      return m;
    }
    var order, byDoi, byUrl := m.order, m.byDoi, m.byUrl;
    var home := |order|;
    if doi in byDoi {
      home := byDoi[doi];
    } else if url in byUrl {
      home := byUrl[url];
    }
    if home >= |order| {
      order := order + [Agg(it.res, 0.0, [])];
    }
    if doi != "" {
      byDoi := byDoi[doi := home];
    }
    if url != "" {
      byUrl := byUrl[url := home];
    }
    if home < |order| {
      order := order[home := Grow(order[home], it)];
    }
    m' := Merge(order, byDoi, byUrl);
  }

  // The loop over one bucket, after the entries of `before`.
  method MergeBucket(k: Normal, m: Merge, b: Bucket, ghost before: seq<Item>) returns (m': Merge)
    requires m == MergeAll(k, before)
    ensures m' == MergeAll(k, before + ItemsOf(b, |b.results|))
  {
    m' := m;
    ghost var seen := before;
    for rank := 0 to |b.results|
      invariant seen == before + ItemsOf(b, rank) && m' == MergeAll(k, seen)
    {
      var it := Item(b.name, rank, Mass(b, rank), b.results[rank]);
      MergeSnoc(k, seen, it);
      ItemsOfSnoc(b, rank);
      m' := MergeOne(k, m', it);
      seen := seen + [it];
    }
  }

  method MergeBuckets(k: Normal, buckets: seq<Bucket>) returns (m: Merge)
    ensures m == MergeAll(k, Items(buckets))
  {
    m := EMPTY;
    for bi := 0 to |buckets|
      invariant m == MergeAll(k, Items(buckets[..bi]))
    {
      m := MergeBucket(k, m, buckets[bi], Items(buckets[..bi]));
      ItemsSnoc(buckets, bi);
    }
    assert buckets[..|buckets|] == buckets;
  }

  // ---- Invariants ----

  function DoiOf(k: Normal, a: Agg): string { k.doi(a.res.doi) }

  function UrlOf(k: Normal, a: Agg): string { k.url(a.res.url) }

  ghost predicate IndexInv(m: Merge) {
    && "" !in m.byDoi && "" !in m.byUrl
    && (forall d :: d in m.byDoi ==> m.byDoi[d] < |m.order|)
    && (forall u :: u in m.byUrl ==> m.byUrl[u] < |m.order|)
  }

  // An aggregate's DOI leads back to it.
  ghost predicate DoiInv(k: Normal, m: Merge) {
    forall i :: 0 <= i < |m.order| && DoiOf(k, m.order[i]) != "" ==>
      DoiOf(k, m.order[i]) in m.byDoi && m.byDoi[DoiOf(k, m.order[i])] == i
  }

  // An aggregate's URL key stays indexed, if perhaps for another aggregate, so it never starts a second one.
  ghost predicate UrlInv(k: Normal, m: Merge) {
    && (forall i :: 0 <= i < |m.order| && UrlOf(k, m.order[i]) != "" ==> UrlOf(k, m.order[i]) in m.byUrl)
    && (forall i, j :: 0 <= i < j < |m.order| && UrlOf(k, m.order[i]) != "" ==>
        UrlOf(k, m.order[i]) != UrlOf(k, m.order[j]))
  }

  ghost predicate Keyed(k: Normal, m: Merge) {
    forall i :: 0 <= i < |m.order| ==> DoiOf(k, m.order[i]) != "" || UrlOf(k, m.order[i]) != ""
  }

  ghost predicate Inv(k: Normal, m: Merge) {
    IndexInv(m) && DoiInv(k, m) && UrlInv(k, m) && Keyed(k, m)
  }

  // NormalizeDOI("") and normalizeURLKey("") are "".
  predicate NormalOk(k: Normal) { k.doi("") == "" && k.url("") == "" }

  // Only the home aggregate changes: its URL key never, its DOI only from nothing to the entry's.
  lemma AbsorbShape(k: Normal, m: Merge, it: Item)
    requires NormalOk(k) && IndexInv(m) && Accepts(k, it.res)
    ensures var (m', home) := (Absorb(k, m, it), Home(k, m, it.res));
      && home < |m'.order| == (if home < |m.order| then |m.order| else |m.order| + 1)
      && (forall i :: 0 <= i < |m.order| && i != home ==> m'.order[i] == m.order[i])
      && (home < |m.order| ==>
            && UrlOf(k, m'.order[home]) == UrlOf(k, m.order[home])
            && (DoiOf(k, m'.order[home]) == DoiOf(k, m.order[home])
                || (DoiOf(k, m.order[home]) == "" && DoiOf(k, m'.order[home]) == k.doi(it.res.doi))))
      && (home == |m.order| ==>
            UrlOf(k, m'.order[home]) == k.url(it.res.url) && DoiOf(k, m'.order[home]) == k.doi(it.res.doi))
  {
  }

  lemma AbsorbKeepsUrl(k: Normal, m: Merge, it: Item)
    requires NormalOk(k) && Inv(k, m)
    ensures UrlInv(k, Absorb(k, m, it))
  {
    if Accepts(k, it.res) { AbsorbShape(k, m, it); }
  }

  lemma AbsorbKeepsDoi(k: Normal, m: Merge, it: Item)
    requires NormalOk(k) && Inv(k, m)
    ensures DoiInv(k, Absorb(k, m, it)) && Keyed(k, Absorb(k, m, it))
  {
    if Accepts(k, it.res) { AbsorbShape(k, m, it); }
  }

  lemma AbsorbKeepsInv(k: Normal, m: Merge, it: Item)
    requires NormalOk(k) && Inv(k, m)
    ensures Inv(k, Absorb(k, m, it))
  {
    AbsorbKeepsUrl(k, m, it);
    AbsorbKeepsDoi(k, m, it);
    if Accepts(k, it.res) { AbsorbShape(k, m, it); }
  }

  lemma {:induction false} MergeKeepsInv(k: Normal, items: seq<Item>)
    requires NormalOk(k)
    ensures Inv(k, MergeAll(k, items))
  {
    if items != [] {
      MergeKeepsInv(k, items[..|items| - 1]);
      AbsorbKeepsInv(k, MergeAll(k, items[..|items| - 1]), items[|items| - 1]);
    }
  }

  // A DOI entry is never rewritten, and a URL entry never removed.
  ghost predicate Extends(m: Merge, m': Merge) {
    && |m.order| <= |m'.order|
    && (forall d :: d in m.byDoi ==> d in m'.byDoi && m'.byDoi[d] == m.byDoi[d])
    && (forall u :: u in m.byUrl ==> u in m'.byUrl)
  }

  lemma AbsorbExtends(k: Normal, m: Merge, it: Item)
    requires IndexInv(m)
    ensures Extends(m, Absorb(k, m, it))
  {
  }

  lemma {:induction false} IndexesOnlyGrow(k: Normal, items: seq<Item>, i: nat)
    requires NormalOk(k) && i <= |items|
    ensures Extends(MergeAll(k, items[..i]), MergeAll(k, items))
  {
    if i == |items| {
      assert items[..i] == items;
    } else {
      var (init, it) := (items[..|items| - 1], items[|items| - 1]);
      IndexesOnlyGrow(k, init, i);
      assert init[..i] == items[..i];
      MergeKeepsInv(k, init);
      AbsorbExtends(k, MergeAll(k, init), it);
    }
  }

  lemma AbsorbedHome(k: Normal, m: Merge, it: Item)
    requires NormalOk(k) && IndexInv(m) && Accepts(k, it.res)
    ensures Home(k, m, it.res) < |Absorb(k, m, it).order|
  {
    AbsorbShape(k, m, it);
  }

  lemma MergeAfter(k: Normal, items: seq<Item>, j: nat)
    requires j < |items|
    ensures MergeAll(k, items[..j + 1]) == Absorb(k, MergeAll(k, items[..j]), items[j])
  {
    assert items[..j + 1][..j] == items[..j];
  }

  // An accepted entry's aggregate exists ever after.
  lemma HomeExists(k: Normal, items: seq<Item>, j: nat)
    requires NormalOk(k) && j < |items| && Accepts(k, items[j].res)
    ensures HomeAt(k, items, j) < |MergeAll(k, items).order|
  {
    MergeKeepsInv(k, items[..j]);
    AbsorbedHome(k, MergeAll(k, items[..j]), items[j]);
    MergeAfter(k, items, j);
    IndexesOnlyGrow(k, items, j + 1);
  }

  // ---- Keys of results ----

  datatype Key = Doi(text: string) | Url(text: string)

  // resultKeys; the "doi:" and "url:" prefixes are the constructors.
  function KeysOf(k: Normal, r: SearchResult): set<Key> {
    (if k.doi(r.doi) != "" then {Doi(k.doi(r.doi))} else {}) + (if k.url(r.url) != "" then {Url(k.url(r.url))} else {})
  }

  ghost predicate DisjointKeys(k: Normal, rs: seq<SearchResult>) {
    && (forall i :: 0 <= i < |rs| ==> KeysOf(k, rs[i]) != {})
    && (forall i, j :: 0 <= i < j < |rs| ==> KeysOf(k, rs[i]) !! KeysOf(k, rs[j]))
  }

  function Results(order: seq<Agg>): seq<SearchResult> {
    seq(|order|, i requires 0 <= i < |order| => order[i].res)
  }

  // No two merged results share a DOI or a URL key, for any buckets.
  lemma MergedKeysDisjoint(k: Normal, items: seq<Item>)
    requires NormalOk(k)
    ensures DisjointKeys(k, Results(MergeAll(k, items).order))
  {
    MergeKeepsInv(k, items);
    var m := MergeAll(k, items);
    forall i, j | 0 <= i < j < |m.order|
      ensures KeysOf(k, m.order[i].res) !! KeysOf(k, m.order[j].res)
    {
      assert DoiOf(k, m.order[i]) == "" || DoiOf(k, m.order[i]) != DoiOf(k, m.order[j]);
      assert UrlOf(k, m.order[i]) == "" || UrlOf(k, m.order[i]) != UrlOf(k, m.order[j]);
    }
    forall i | 0 <= i < |m.order| ensures KeysOf(k, Results(m.order)[i]) != {} {
      var a := m.order[i];
      assert Doi(DoiOf(k, a)) in KeysOf(k, a.res) || Url(UrlOf(k, a)) in KeysOf(k, a.res);
    }
  }

  // ---- Mass ----

  function TotalRrf(order: seq<Agg>): real {
    if order == [] then 0.0 else TotalRrf(order[..|order| - 1]) + order[|order| - 1].rrf
  }

  function AcceptedMass(k: Normal, items: seq<Item>): real {
    if items == [] then 0.0
    else
      var (init, it) := (items[..|items| - 1], items[|items| - 1]);
      AcceptedMass(k, init) + (if Accepts(k, it.res) then it.mass else 0.0)
  }

  lemma {:induction false} TotalUpdate(order: seq<Agg>, i: nat, a: Agg)
    requires i < |order|
    ensures TotalRrf(order[i := a]) == TotalRrf(order) - order[i].rrf + a.rrf
  {
    var n := |order| - 1;
    if i < n {
      TotalUpdate(order[..n], i, a);
      assert order[i := a][..n] == order[..n][i := a];
    } else {
      assert order[i := a][..n] == order[..n];
    }
  }

  lemma AbsorbAddsMass(k: Normal, m: Merge, it: Item)
    requires NormalOk(k) && IndexInv(m) && Accepts(k, it.res)
    ensures TotalRrf(Absorb(k, m, it).order) == TotalRrf(m.order) + it.mass
  {
    var home := Home(k, m, it.res);
    if home < |m.order| {
      TotalUpdate(m.order, home, Grow(m.order[home], it));
    } else {
      var grown := Grow(Agg(it.res, 0.0, []), it);
      assert Absorb(k, m, it).order == m.order + [grown];
      assert (m.order + [grown])[..|m.order|] == m.order;
    }
  }

  // The merge neither loses nor invents rank mass.
  lemma {:induction false} MassConserved(k: Normal, items: seq<Item>)
    requires NormalOk(k)
    ensures TotalRrf(MergeAll(k, items).order) == AcceptedMass(k, items)
  {
    if items != [] {
      var (init, it) := (items[..|items| - 1], items[|items| - 1]);
      MassConserved(k, init);
      MergeKeepsInv(k, init);
      if Accepts(k, it.res) { AbsorbAddsMass(k, MergeAll(k, init), it); }
    }
  }

  // ---- Bridges ----

  // Entry j's DOI and its URL key are already known, for two different aggregates.
  ghost predicate Bridges(k: Normal, items: seq<Item>, j: nat)
    requires j < |items|
  {
    var (m, doi, url) := (MergeAll(k, items[..j]), k.doi(items[j].res.doi), k.url(items[j].res.url));
    doi in m.byDoi && url in m.byUrl && m.byDoi[doi] != m.byUrl[url]
  }

  lemma HomeAtInit(k: Normal, items: seq<Item>, j: nat)
    requires j < |items| - 1
    ensures HomeAt(k, items, j) == HomeAt(k, items[..|items| - 1], j)
    ensures Bridges(k, items, j) == Bridges(k, items[..|items| - 1], j)
  {
    assert items[..|items| - 1][..j] == items[..j];
  }

  // ---- What an aggregate holds ----

  predicate FullerPaper(a: SearchResult, r: SearchResult) {
    && Fuller(a, r) && a.citedBy >= r.citedBy
    && (r.journal != "" ==> a.journal != "") && (r.pdf != "" ==> a.pdf != "") && (r.doi != "" ==> a.doi != "")
  }

  // The mass of the entries whose home is aggregate i.
  function MassAt(k: Normal, items: seq<Item>, i: nat): real {
    if items == [] then 0.0
    else
      var (init, it) := (items[..|items| - 1], items[|items| - 1]);
      MassAt(k, init, i) + (if Accepts(k, it.res) && Home(k, MergeAll(k, init), it.res) == i then it.mass else 0.0)
  }

  predicate Joined(k: Normal, items: seq<Item>, j: nat, i: nat)
    requires j < |items|
  {
    Accepts(k, items[j].res) && HomeAt(k, items, j) == i
  }

  // Aggregate i carries the mass of exactly its entries and is as complete as each of
  // them; its text and its citation count are those of one of them.
  ghost predicate Holds(k: Normal, items: seq<Item>, i: nat, a: Agg) {
    && a.rrf == MassAt(k, items, i)
    && (forall j :: 0 <= j < |items| && Joined(k, items, j, i) ==>
        FullerPaper(a.res, items[j].res) && items[j].engine in a.engines)
    && (exists j :: 0 <= j < |items| && Joined(k, items, j, i) && a.res.content == items[j].res.content)
    && (exists j :: 0 <= j < |items| && Joined(k, items, j, i) && a.res.citedBy == items[j].res.citedBy)
  }

  lemma JoinedInit(k: Normal, items: seq<Item>, j: nat, i: nat)
    requires j < |items| - 1
    ensures Joined(k, items, j, i) == Joined(k, items[..|items| - 1], j, i)
  {
    HomeAtInit(k, items, j);
  }

  lemma LastNotJoined(k: Normal, items: seq<Item>, i: nat)
    requires NormalOk(k) && items != [] && i >= |MergeAll(k, items).order|
    ensures !Joined(k, items, |items| - 1, i) && i >= |MergeAll(k, items[..|items| - 1]).order|
  {
    var n := |items| - 1;
    MergeKeepsInv(k, items[..n]);
    if Accepts(k, items[n].res) { AbsorbShape(k, MergeAll(k, items[..n]), items[n]); }
  }

  lemma {:induction false} NoneJoinedNewHome(k: Normal, items: seq<Item>, i: nat)
    requires NormalOk(k) && i >= |MergeAll(k, items).order|
    ensures forall j :: 0 <= j < |items| ==> !Joined(k, items, j, i)
  {
    if items != [] {
      LastNotJoined(k, items, i);
      NoneJoinedNewHome(k, items[..|items| - 1], i);
      forall j | 0 <= j < |items| - 1 ensures !Joined(k, items, j, i) {
        JoinedInit(k, items, j, i);
      }
    }
  }

  lemma OtherMass(k: Normal, items: seq<Item>, i: nat)
    requires items != [] && !Joined(k, items, |items| - 1, i)
    ensures MassAt(k, items, i) == MassAt(k, items[..|items| - 1], i)
  {
    assert items[..|items|] == items;
  }

  lemma {:induction false} MassOfNewHome(k: Normal, items: seq<Item>, i: nat)
    requires NormalOk(k) && i >= |MergeAll(k, items).order|
    ensures MassAt(k, items, i) == 0.0
  {
    if items != [] {
      LastNotJoined(k, items, i);
      MassOfNewHome(k, items[..|items| - 1], i);
      OtherMass(k, items, i);
    }
  }

  lemma OtherIsFullest(k: Normal, items: seq<Item>, i: nat, a: Agg)
    requires items != [] && Holds(k, items[..|items| - 1], i, a) && !Joined(k, items, |items| - 1, i)
    ensures forall j :: 0 <= j < |items| && Joined(k, items, j, i) ==>
      FullerPaper(a.res, items[j].res) && items[j].engine in a.engines
  {
    var init := items[..|items| - 1];
    forall j | 0 <= j < |items| && Joined(k, items, j, i)
      ensures FullerPaper(a.res, items[j].res) && items[j].engine in a.engines
    {
      JoinedInit(k, items, j, i);
      assert Joined(k, init, j, i) && items[j] == init[j];
    }
  }

  lemma OtherTexts(k: Normal, items: seq<Item>, i: nat, a: Agg)
    requires items != [] && Holds(k, items[..|items| - 1], i, a)
    ensures exists j :: 0 <= j < |items| - 1 && Joined(k, items, j, i) && a.res.content == items[j].res.content
    ensures exists j :: 0 <= j < |items| - 1 && Joined(k, items, j, i) && a.res.citedBy == items[j].res.citedBy
  {
    var (n, init) := (|items| - 1, items[..|items| - 1]);
    var j :| 0 <= j < n && Joined(k, init, j, i) && a.res.content == init[j].res.content;
    JoinedInit(k, items, j, i);
    assert a.res.content == items[j].res.content;
    var c :| 0 <= c < n && Joined(k, init, c, i) && a.res.citedBy == init[c].res.citedBy;
    JoinedInit(k, items, c, i);
    assert a.res.citedBy == items[c].res.citedBy;
  }

  lemma OtherHolds(k: Normal, items: seq<Item>, i: nat, a: Agg)
    requires items != [] && Holds(k, items[..|items| - 1], i, a) && !Joined(k, items, |items| - 1, i)
    ensures Holds(k, items, i, a)
  {
    OtherIsFullest(k, items, i, a);
    OtherTexts(k, items, i, a);
    OtherMass(k, items, i);
  }

  lemma FullerPaperTrans(a: SearchResult, b: SearchResult, c: SearchResult)
    requires FullerPaper(a, b) && FullerPaper(b, c)
    ensures FullerPaper(a, c)
  {
  }

  lemma MergedIsFuller(a: SearchResult, r: SearchResult)
    ensures FullerPaper(MergedInto(a, r), a) && FullerPaper(MergedInto(a, r), r)
  {
  }

  lemma GrowIsFuller(a: Agg, it: Item)
    ensures var a' := Grow(a, it); FullerPaper(a'.res, it.res) && it.engine in a'.engines
    ensures forall r :: FullerPaper(a.res, r) ==> FullerPaper(Grow(a, it).res, r)
    ensures forall e :: e in a.engines ==> e in Grow(a, it).engines
  {
    MergedIsFuller(a.res, it.res);
    forall r | FullerPaper(a.res, r) ensures FullerPaper(Grow(a, it).res, r) {
      FullerPaperTrans(Grow(a, it).res, a.res, r);
    }
  }

  lemma GrowTakesLarger(a: Agg, it: Item)
    ensures var a' := Grow(a, it);
      && a'.res.content == (if |it.res.content| > |a.res.content| then it.res.content else a.res.content)
      && a'.res.citedBy == (if it.res.citedBy > a.res.citedBy then it.res.citedBy else a.res.citedBy)
  {
  }

  lemma MassOfLast(k: Normal, items: seq<Item>, i: nat)
    requires items != [] && Joined(k, items, |items| - 1, i)
    ensures MassAt(k, items, i) == MassAt(k, items[..|items| - 1], i) + items[|items| - 1].mass
  {
    assert items[..|items|] == items;
  }

  // Whatever was as complete as a stays so; the last entry is as complete as itself.
  lemma GrownIsFullest(k: Normal, items: seq<Item>, i: nat, a: Agg)
    requires items != [] && Joined(k, items, |items| - 1, i)
    requires forall j :: 0 <= j < |items| - 1 && Joined(k, items, j, i) ==>
        FullerPaper(a.res, items[j].res) && items[j].engine in a.engines
    ensures var a' := Grow(a, items[|items| - 1]);
      forall j :: 0 <= j < |items| && Joined(k, items, j, i) ==>
          FullerPaper(a'.res, items[j].res) && items[j].engine in a'.engines
  {
    GrowIsFuller(a, items[|items| - 1]);
  }

  // The first entry of a new aggregate.
  lemma NewHolds(k: Normal, items: seq<Item>, i: nat)
    requires NormalOk(k) && items != [] && Joined(k, items, |items| - 1, i)
    requires i >= |MergeAll(k, items[..|items| - 1]).order|
    ensures Holds(k, items, i, Grow(Agg(items[|items| - 1].res, 0.0, []), items[|items| - 1]))
  {
    var n := |items| - 1;
    var a := Agg(items[n].res, 0.0, []);
    MassOfNewHome(k, items[..n], i);
    NoneJoinedNewHome(k, items[..n], i);
    MassOfLast(k, items, i);
    GrowTakesLarger(a, items[n]);
    forall j | 0 <= j < n ensures !Joined(k, items, j, i) { JoinedInit(k, items, j, i); }
    GrownIsFullest(k, items, i, a);
    assert Grow(a, items[n]).res.content == items[n].res.content;
  }

  lemma ContentFromEntry(k: Normal, items: seq<Item>, i: nat, a: Agg, j: nat)
    requires items != [] && Joined(k, items, |items| - 1, i)
    requires j < |items| - 1 && Joined(k, items, j, i) && a.res.content == items[j].res.content
    ensures var content := Grow(a, items[|items| - 1]).res.content;
      exists x :: 0 <= x < |items| && Joined(k, items, x, i) && content == items[x].res.content
  {
    GrowTakesLarger(a, items[|items| - 1]);
    var it := items[|items| - 1];
    assert Joined(k, items, if |it.res.content| > |a.res.content| then |items| - 1 else j, i);
  }

  lemma CountFromEntry(k: Normal, items: seq<Item>, i: nat, a: Agg, j: nat)
    requires items != [] && Joined(k, items, |items| - 1, i)
    requires j < |items| - 1 && Joined(k, items, j, i) && a.res.citedBy == items[j].res.citedBy
    ensures var citedBy := Grow(a, items[|items| - 1]).res.citedBy;
      exists x :: 0 <= x < |items| && Joined(k, items, x, i) && citedBy == items[x].res.citedBy
  {
    GrowTakesLarger(a, items[|items| - 1]);
    var it := items[|items| - 1];
    assert Joined(k, items, if it.res.citedBy > a.res.citedBy then |items| - 1 else j, i);
  }

  lemma TextsFromEntries(k: Normal, items: seq<Item>, i: nat, a: Agg)
    requires items != [] && Joined(k, items, |items| - 1, i) && Holds(k, items[..|items| - 1], i, a)
    ensures var a' := Grow(a, items[|items| - 1]);
      && (exists j :: 0 <= j < |items| && Joined(k, items, j, i) && a'.res.content == items[j].res.content)
      && (exists j :: 0 <= j < |items| && Joined(k, items, j, i) && a'.res.citedBy == items[j].res.citedBy)
  {
    OtherTexts(k, items, i, a);
    var n := |items| - 1;
    var j :| 0 <= j < n && Joined(k, items, j, i) && a.res.content == items[j].res.content;
    var c :| 0 <= c < n && Joined(k, items, c, i) && a.res.citedBy == items[c].res.citedBy;
    ContentFromEntry(k, items, i, a, j);
    CountFromEntry(k, items, i, a, c);
  }

  lemma GrownHolds(k: Normal, items: seq<Item>, i: nat, a: Agg)
    requires items != [] && Joined(k, items, |items| - 1, i) && Holds(k, items[..|items| - 1], i, a)
    ensures Holds(k, items, i, Grow(a, items[|items| - 1]))
  {
    var n := |items| - 1;
    forall j | 0 <= j < n && Joined(k, items, j, i)
      ensures FullerPaper(a.res, items[j].res) && items[j].engine in a.engines
    {
      JoinedInit(k, items, j, i);
      assert items[j] == items[..n][j];
    }
    GrownIsFullest(k, items, i, a);
    TextsFromEntries(k, items, i, a);
    MassOfLast(k, items, i);
  }

  // Every aggregate holds exactly what its entries brought.
  lemma {:induction false} AggregatesHold(k: Normal, items: seq<Item>)
    requires NormalOk(k)
    ensures forall i :: 0 <= i < |MergeAll(k, items).order| ==> Holds(k, items, i, MergeAll(k, items).order[i])
  {
    if items != [] {
      var n := |items| - 1;
      var (init, it) := (items[..n], items[n]);
      AggregatesHold(k, init);
      MergeKeepsInv(k, init);
      var (m, m') := (MergeAll(k, init), MergeAll(k, items));
      if Accepts(k, it.res) { AbsorbShape(k, m, it); }
      forall i | 0 <= i < |m'.order| ensures Holds(k, items, i, m'.order[i]) {
        if Joined(k, items, n, i) {
          if i < |m.order| { GrownHolds(k, items, i, m.order[i]); } else { NewHolds(k, items, i); }
        } else {
          OtherHolds(k, items, i, m.order[i]);
        }
      }
    }
  }

  // ---- An aggregate's mass, from the buckets ----

  lemma {:induction false} MassAtIsItemSum(k: Normal, items: seq<Item>, i: nat, want: nat -> bool)
    requires forall j: nat :: j < |items| ==> want(j) == Joined(k, items, j, i)
    ensures MassAt(k, items, i) == ItemSum(items, want)
  {
    if items != [] {
      var n := |items| - 1;
      forall j: nat | j < n ensures want(j) == Joined(k, items[..n], j, i) { JoinedInit(k, items, j, i); }
      MassAtIsItemSum(k, items[..n], i, want);
      assert items[..n] == items[..|items| - 1];
    }
  }

  // The results that went into aggregate i.
  function WentInto(k: Normal, buckets: seq<Bucket>, i: nat): (nat, nat) -> bool {
    (b: nat, r: nat) => b < |buckets| && r < |buckets[b].results| && FirstOf(buckets, b) + r < |Items(buckets)|
                        && Joined(k, Items(buckets), FirstOf(buckets, b) + r, i)
  }

  lemma WentIntoPlace(k: Normal, buckets: seq<Bucket>, i: nat, b: nat, r: nat)
    requires b < |buckets| && r < |buckets[b].results|
    ensures FirstOf(buckets, b) + r < |Items(buckets)|
    ensures WentInto(k, buckets, i)(b, r) == Joined(k, Items(buckets), FirstOf(buckets, b) + r, i)
  {
    PlaceOf(buckets, b, r);
  }

  lemma WentIntoInPlace(k: Normal, buckets: seq<Bucket>, i: nat, want: nat -> bool)
    requires forall j: nat :: j < |Items(buckets)| ==> want(j) == Joined(k, Items(buckets), j, i)
    ensures SamePick(buckets, want, WentInto(k, buckets, i))
  {
    forall b: nat, r: nat | b < |buckets| && r < |buckets[b].results|
      ensures want(FirstOf(buckets, b) + r) == WentInto(k, buckets, i)(b, r)
    {
      WentIntoPlace(k, buckets, i, b, r);
      assert want(FirstOf(buckets, b) + r) == Joined(k, Items(buckets), FirstOf(buckets, b) + r, i);
    }
  }

  lemma MassAtIsRrfSum(k: Normal, buckets: seq<Bucket>, i: nat)
    ensures MassAt(k, Items(buckets), i) == RrfSum(buckets, WentInto(k, buckets, i))
  {
    var items := Items(buckets);
    var want := (j: nat) => j < |items| && Joined(k, items, j, i);
    MassAtIsItemSum(k, items, i, want);
    WentIntoInPlace(k, buckets, i, want);
    ItemSumIsRrfSum(buckets, want, WentInto(k, buckets, i));
  }

  // An aggregate carries the sum of w/(60+rank) over the results that went into it, with w the
  // weight of each one's bucket.
  lemma AggregateIsRrfSum(k: Normal, buckets: seq<Bucket>, i: nat)
    requires NormalOk(k) && i < |MergeAll(k, Items(buckets)).order|
    ensures MergeAll(k, Items(buckets)).order[i].rrf == RrfSum(buckets, WentInto(k, buckets, i))
  {
    AggregatesHold(k, Items(buckets));
    assert Holds(k, Items(buckets), i, MergeAll(k, Items(buckets)).order[i]);
    MassAtIsRrfSum(k, buckets, i);
  }

  // ---- Which entry a text comes from ----

  datatype Field = Title | Journal | Pdf | DoiText

  function Text(r: SearchResult, field: Field): string {
    match field
    case Title => r.title
    case Journal => r.journal
    case Pdf => r.pdf
    case DoiText => r.doi
  }

  // The first non-empty text among the entries of aggregate i, in reading order.
  function FirstText(k: Normal, items: seq<Item>, i: nat, field: Field): string {
    if items == [] then ""
    else
      var init := items[..|items| - 1];
      var before := FirstText(k, init, i, field);
      if before == "" && Joined(k, items, |items| - 1, i) then Text(items[|items| - 1].res, field) else before
  }

  lemma {:induction false} FirstTextOfNewHome(k: Normal, items: seq<Item>, i: nat, field: Field)
    requires NormalOk(k) && i >= |MergeAll(k, items).order|
    ensures FirstText(k, items, i, field) == ""
  {
    if items != [] {
      LastNotJoined(k, items, i);
      FirstTextOfNewHome(k, items[..|items| - 1], i, field);
    }
  }

  // An aggregate's title, journal, PDF link and DOI are the first ones its entries bring.
  lemma {:induction false} FirstTextsWin(k: Normal, items: seq<Item>, i: nat, field: Field)
    requires NormalOk(k) && i < |MergeAll(k, items).order|
    ensures Text(MergeAll(k, items).order[i].res, field) == FirstText(k, items, i, field)
  {
    var n := |items| - 1;
    var (init, it) := (items[..n], items[n]);
    MergeKeepsInv(k, init);
    var m := MergeAll(k, init);
    if Accepts(k, it.res) { AbsorbShape(k, m, it); }
    if i < |m.order| {
      FirstTextsWin(k, init, i, field);
    } else {
      FirstTextOfNewHome(k, init, i, field);
    }
  }

  // The first date among the entries of aggregate i, and the first from a structured source.
  function FirstDate(k: Normal, items: seq<Item>, i: nat): string {
    if items == [] then ""
    else
      var before := FirstDate(k, items[..|items| - 1], i);
      if Joined(k, items, |items| - 1, i) then OrDate(before, items[|items| - 1].res) else before
  }

  function FirstStructured(k: Normal, items: seq<Item>, i: nat): string {
    if items == [] then ""
    else
      var before := FirstStructured(k, items[..|items| - 1], i);
      if Joined(k, items, |items| - 1, i) then OrStructured(before, items[|items| - 1].res) else before
  }

  lemma {:induction false} FirstDateOfNewHome(k: Normal, items: seq<Item>, i: nat)
    requires NormalOk(k) && i >= |MergeAll(k, items).order|
    ensures FirstDate(k, items, i) == "" && FirstStructured(k, items, i) == ""
  {
    if items != [] {
      LastNotJoined(k, items, i);
      FirstDateOfNewHome(k, items[..|items| - 1], i);
    }
  }

  lemma MergedDate(a: SearchResult, r: SearchResult, first: string, strong: string)
    requires HasDate(a, first, strong)
    ensures HasDate(MergedInto(a, r), OrDate(first, r), OrStructured(strong, r))
  {
    var a1 := a.(content := if |r.content| > |a.content| then r.content else a.content,
                 title := if a.title == "" then r.title else a.title);
    PreferDateKeeps(a1, r, first, strong);
  }

  // An aggregate bears the first structured date of its entries, else the first date, and says
  // truly whether it is structured.
  lemma {:induction false} StructuredDateWins(k: Normal, items: seq<Item>, i: nat)
    requires NormalOk(k) && i < |MergeAll(k, items).order|
    ensures var (r, first, strong) :=
        (MergeAll(k, items).order[i].res, FirstDate(k, items, i), FirstStructured(k, items, i));
      r.date == (if strong != "" then strong else first) && (r.date != "" ==> (r.structured <==> strong != ""))
    ensures HasDate(MergeAll(k, items).order[i].res, FirstDate(k, items, i), FirstStructured(k, items, i))
  {
    var n := |items| - 1;
    var (init, it) := (items[..n], items[n]);
    MergeKeepsInv(k, init);
    var m := MergeAll(k, init);
    if Accepts(k, it.res) { AbsorbShape(k, m, it); }
    if i < |m.order| {
      StructuredDateWins(k, init, i);
      MergedDate(m.order[i].res, it.res, FirstDate(k, init, i), FirstStructured(k, init, i));
    } else {
      FirstDateOfNewHome(k, init, i);
      MergedDate(it.res, it.res, OrDate("", it.res), OrStructured("", it.res));
    }
  }

  ghost predicate EnginesOnce(k: Normal, items: seq<Item>, i: nat, engines: seq<string>) {
    && (forall x, y :: 0 <= x < y < |engines| ==> engines[x] != engines[y])
    && (forall e :: e in engines ==> exists j :: 0 <= j < |items| && Joined(k, items, j, i) && items[j].engine == e)
  }

  lemma EnginesStay(k: Normal, items: seq<Item>, i: nat, engines: seq<string>)
    requires items != [] && EnginesOnce(k, items[..|items| - 1], i, engines)
    ensures EnginesOnce(k, items, i, engines)
  {
    var init := items[..|items| - 1];
    forall e | e in engines
      ensures exists j :: 0 <= j < |items| && Joined(k, items, j, i) && items[j].engine == e
    {
      var j :| 0 <= j < |init| && Joined(k, init, j, i) && init[j].engine == e;
      JoinedInit(k, items, j, i);
      assert items[j].engine == e;
    }
  }

  lemma EnginesGrow(k: Normal, items: seq<Item>, i: nat, a: Agg)
    requires items != [] && Joined(k, items, |items| - 1, i) && EnginesOnce(k, items, i, a.engines)
    ensures EnginesOnce(k, items, i, Grow(a, items[|items| - 1]).engines)
  {
  }

  // An aggregate lists engines of its own entries only, each once.
  lemma {:induction false} EnginesListedOnce(k: Normal, items: seq<Item>, i: nat)
    requires NormalOk(k) && i < |MergeAll(k, items).order|
    ensures EnginesOnce(k, items, i, MergeAll(k, items).order[i].engines)
  {
    var n := |items| - 1;
    var (init, it) := (items[..n], items[n]);
    MergeKeepsInv(k, init);
    var m := MergeAll(k, init);
    if Accepts(k, it.res) { AbsorbShape(k, m, it); }
    if i < |m.order| {
      EnginesListedOnce(k, init, i);
      EnginesStay(k, items, i, m.order[i].engines);
    }
    if Joined(k, items, n, i) {
      EnginesGrow(k, items, i, if i < |m.order| then m.order[i] else Agg(it.res, 0.0, []));
    }
  }

  // ---- When the merge is complete ----

  ghost predicate Settled(k: Normal, items: seq<Item>, j: nat)
    requires j < |items|
  {
    var (m, doi, url) := (MergeAll(k, items), k.doi(items[j].res.doi), k.url(items[j].res.url));
    && (doi != "" ==> doi in m.byDoi && m.byDoi[doi] == HomeAt(k, items, j))
    && (url != "" ==> url in m.byUrl && m.byUrl[url] == HomeAt(k, items, j))
  }

  // Every key of every accepted entry still leads to the aggregate that took it in:
  // entries linked by a chain of shared keys are one result.
  ghost predicate Complete(k: Normal, items: seq<Item>) {
    forall j :: 0 <= j < |items| && Accepts(k, items[j].res) ==> Settled(k, items, j)
  }

  // A URL entry was written by an entry with that URL key, for its own home.
  lemma {:induction false} UrlEntryHasWriter(k: Normal, items: seq<Item>, u: string) returns (i: nat)
    requires u in MergeAll(k, items).byUrl
    ensures i < |items| && Accepts(k, items[i].res) && k.url(items[i].res.url) == u != ""
    ensures HomeAt(k, items, i) == MergeAll(k, items).byUrl[u]
  {
    var n := |items| - 1;
    var it := items[n];
    if Accepts(k, it.res) && k.url(it.res.url) == u && u != "" {
      i := n;
    } else {
      i := UrlEntryHasWriter(k, items[..n], u);
      HomeAtInit(k, items, i);
    }
  }

  // A settled entry stays settled when the next one does not bridge.
  lemma StaysSettled(k: Normal, items: seq<Item>, j: nat)
    requires NormalOk(k) && j < |items| - 1 && !Bridges(k, items, |items| - 1)
    requires Settled(k, items[..|items| - 1], j)
    ensures Settled(k, items, j)
  {
    HomeAtInit(k, items, j);
    var n := |items| - 1;
    assert items[..n] + [items[n]] == items;
    MergeSnoc(k, items[..n], items[n]);
  }

  lemma LastSettles(k: Normal, items: seq<Item>)
    requires NormalOk(k) && items != [] && Accepts(k, items[|items| - 1].res)
    ensures Settled(k, items, |items| - 1)
  {
  }

  lemma {:induction false} NoBridgeIsComplete(k: Normal, items: seq<Item>)
    requires NormalOk(k)
    requires forall j :: 0 <= j < |items| ==> !Bridges(k, items, j)
    ensures Complete(k, items)
  {
    if items != [] {
      var n := |items| - 1;
      forall j | 0 <= j < n ensures !Bridges(k, items[..n], j) {
        HomeAtInit(k, items, j);
        assert !Bridges(k, items, j);
      }
      NoBridgeIsComplete(k, items[..n]);
      assert !Bridges(k, items, n);
      forall j | 0 <= j < n && Accepts(k, items[j].res) ensures Settled(k, items, j) {
        assert Settled(k, items[..n], j);
        StaysSettled(k, items, j);
      }
      if Accepts(k, items[n].res) { LastSettles(k, items); }
    }
  }

  // The merge is complete if and only if no entry bridges two aggregates: after a bridge
  // two results remain that shared keys connect.
  lemma CompleteIffNoBridge(k: Normal, items: seq<Item>)
    requires NormalOk(k)
    ensures Complete(k, items) <==> forall j :: 0 <= j < |items| ==> !Bridges(k, items, j)
  {
    if j :| 0 <= j < |items| && Bridges(k, items, j) {
      MergeKeepsInv(k, items[..j]);
      var u := k.url(items[j].res.url);
      var i := UrlEntryHasWriter(k, items[..j], u);
      assert items[..j][..i] == items[..i];
      assert HomeAt(k, items, i) != HomeAt(k, items, j);
      assert !(Settled(k, items, i) && Settled(k, items, j));
    } else {
      NoBridgeIsComplete(k, items);
    }
  }

  predicate Shares(k: Normal, r: SearchResult, s: SearchResult) {
    KeysOf(k, r) * KeysOf(k, s) != {}
  }

  ghost predicate OneHome(k: Normal, items: seq<Item>) {
    forall i, j :: 0 <= i < |items| && 0 <= j < |items| && Shares(k, items[i].res, items[j].res) ==>
      HomeAt(k, items, i) == HomeAt(k, items, j)
  }

  lemma SharedDoiOrUrl(k: Normal, r: SearchResult, s: SearchResult)
    ensures Shares(k, r, s) <==>
      (k.doi(r.doi) != "" && k.doi(r.doi) == k.doi(s.doi)) || (k.url(r.url) != "" && k.url(r.url) == k.url(s.url))
    ensures Shares(k, r, s) ==> Accepts(k, r) && Accepts(k, s)
  {
    if k.doi(r.doi) != "" && k.doi(r.doi) == k.doi(s.doi) {
      assert Doi(k.doi(r.doi)) in KeysOf(k, r) * KeysOf(k, s);
    }
    if k.url(r.url) != "" && k.url(r.url) == k.url(s.url) {
      assert Url(k.url(r.url)) in KeysOf(k, r) * KeysOf(k, s);
    }
  }

  // An entry that bridges parts company with the last one that wrote its URL key.
  lemma BridgeSplits(k: Normal, items: seq<Item>, j: nat) returns (i: nat)
    requires NormalOk(k) && j < |items| && Bridges(k, items, j)
    ensures i < j && Shares(k, items[i].res, items[j].res) && HomeAt(k, items, i) != HomeAt(k, items, j)
  {
    MergeKeepsInv(k, items[..j]);
    i := UrlEntryHasWriter(k, items[..j], k.url(items[j].res.url));
    assert items[..j][..i] == items[..i];
    SharedDoiOrUrl(k, items[i].res, items[j].res);
  }

  // Entries that share a key always end up in one result, if and only if no entry bridges.
  lemma OneHomeIffNoBridge(k: Normal, items: seq<Item>)
    requires NormalOk(k)
    ensures OneHome(k, items) <==> forall j :: 0 <= j < |items| ==> !Bridges(k, items, j)
  {
    if j :| 0 <= j < |items| && Bridges(k, items, j) {
      var i := BridgeSplits(k, items, j);
    } else {
      NoBridgeIsComplete(k, items);
      forall i, j | 0 <= i < |items| && 0 <= j < |items| && Shares(k, items[i].res, items[j].res)
        ensures HomeAt(k, items, i) == HomeAt(k, items, j)
      {
        SharedDoiOrUrl(k, items[i].res, items[j].res);
        assert Settled(k, items, i) && Settled(k, items, j);
      }
    }
  }

  // A DOI entry too was written by an entry with that DOI, for its own home.
  lemma {:induction false} DoiEntryHasWriter(k: Normal, items: seq<Item>, d: string) returns (i: nat)
    requires d in MergeAll(k, items).byDoi
    ensures i < |items| && Accepts(k, items[i].res) && k.doi(items[i].res.doi) == d != ""
    ensures HomeAt(k, items, i) == MergeAll(k, items).byDoi[d]
  {
    var n := |items| - 1;
    var it := items[n];
    if Accepts(k, it.res) && k.doi(it.res.doi) == d && d != "" {
      i := n;
    } else {
      i := DoiEntryHasWriter(k, items[..n], d);
      HomeAtInit(k, items, i);
    }
  }

  // Entry j opened its aggregate.
  predicate Opens(k: Normal, items: seq<Item>, j: nat)
    requires j < |items|
  {
    Accepts(k, items[j].res) && HomeAt(k, items, j) == |MergeAll(k, items[..j]).order|
  }

  // An entry that joins an aggregate shares a key with an earlier entry of it: the merge
  // puts nothing together without a reason.
  lemma JoinsForAReason(k: Normal, items: seq<Item>, j: nat) returns (i: nat)
    requires NormalOk(k) && j < |items| && Accepts(k, items[j].res) && !Opens(k, items, j)
    ensures i < j && Shares(k, items[i].res, items[j].res) && HomeAt(k, items, i) == HomeAt(k, items, j)
  {
    var (doi, url) := (k.doi(items[j].res.doi), k.url(items[j].res.url));
    MergeKeepsInv(k, items[..j]);
    if doi in MergeAll(k, items[..j]).byDoi {
      i := DoiEntryHasWriter(k, items[..j], doi);
    } else {
      i := UrlEntryHasWriter(k, items[..j], url);
    }
    assert items[..j][..i] == items[..i];
    SharedDoiOrUrl(k, items[i].res, items[j].res);
  }

  // ---- Connected components ----

  // No shared key leads out of the part.
  ghost predicate Closed(k: Normal, items: seq<Item>, part: set<nat>) {
    forall x: nat, y: nat ::
      x < |items| && y < |items| && x in part && Shares(k, items[x].res, items[y].res) ==> y in part
  }

  // Shared keys lead, in any number of steps, from entry i to entry j.
  ghost predicate Linked(k: Normal, items: seq<Item>, i: nat, j: nat) {
    forall part :: Closed(k, items, part) && i in part ==> j in part
  }

  lemma SharesBothWays(k: Normal, r: SearchResult, s: SearchResult)
    ensures Shares(k, r, s) == Shares(k, s, r)
  {
    assert KeysOf(k, r) * KeysOf(k, s) == KeysOf(k, s) * KeysOf(k, r);
  }

  // Every entry is tied to the one that opened its aggregate.
  lemma {:induction false} TiedToOpener(k: Normal, items: seq<Item>, j: nat) returns (c: nat)
    requires NormalOk(k) && j < |items| && Accepts(k, items[j].res)
    ensures c <= j && Opens(k, items, c) && HomeAt(k, items, c) == HomeAt(k, items, j)
    ensures forall part :: Closed(k, items, part) ==> (c in part <==> j in part)
    decreases j
  {
    if Opens(k, items, j) {
      c := j;
    } else {
      var i := JoinsForAReason(k, items, j);
      SharedDoiOrUrl(k, items[i].res, items[j].res);
      SharesBothWays(k, items[i].res, items[j].res);
      c := TiedToOpener(k, items, i);
    }
  }

  lemma HomeIsOlder(k: Normal, items: seq<Item>, c: nat, d: nat)
    requires NormalOk(k) && c < d < |items| && Accepts(k, items[c].res)
    ensures HomeAt(k, items, c) < |MergeAll(k, items[..d]).order|
  {
    assert items[..d][..c] == items[..c];
    HomeExists(k, items[..d], c);
  }

  // An aggregate is opened once.
  lemma OpenerUnique(k: Normal, items: seq<Item>, c: nat, d: nat)
    requires NormalOk(k) && c <= d < |items| && Opens(k, items, c) && Opens(k, items, d)
    requires HomeAt(k, items, c) == HomeAt(k, items, d)
    ensures c == d
  {
    if c < d { HomeIsOlder(k, items, c, d); }
  }

  // Entries of one result are linked by shared keys, for any buckets.
  lemma OneHomeIsLinked(k: Normal, items: seq<Item>, i: nat, j: nat)
    requires NormalOk(k) && i < |items| && j < |items| && Accepts(k, items[i].res) && Accepts(k, items[j].res)
    requires HomeAt(k, items, i) == HomeAt(k, items, j)
    ensures Linked(k, items, i, j)
  {
    var c := TiedToOpener(k, items, i);
    var d := TiedToOpener(k, items, j);
    if c <= d { OpenerUnique(k, items, c, d); } else { OpenerUnique(k, items, d, c); }
  }

  // The results are the connected components of the entries under shared keys.
  ghost predicate Components(k: Normal, items: seq<Item>) {
    forall i: nat, j: nat :: i < |items| && j < |items| && Accepts(k, items[i].res) && Accepts(k, items[j].res) ==>
      (HomeAt(k, items, i) == HomeAt(k, items, j) <==> Linked(k, items, i, j))
  }

  lemma LinkedHaveOneHome(k: Normal, items: seq<Item>, i: nat, j: nat)
    requires OneHome(k, items) && i < |items| && j < |items| && Accepts(k, items[i].res) && Linked(k, items, i, j)
    ensures HomeAt(k, items, i) == HomeAt(k, items, j)
  {
    var part := set x: nat | x < |items| && Accepts(k, items[x].res) && HomeAt(k, items, x) == HomeAt(k, items, i);
    forall x: nat, y: nat | x < |items| && y < |items| && x in part && Shares(k, items[x].res, items[y].res)
      ensures y in part
    {
      SharedDoiOrUrl(k, items[x].res, items[y].res);
    }
    assert Closed(k, items, part);
  }

  lemma SharingIsLinked(k: Normal, items: seq<Item>, i: nat, j: nat)
    requires i < |items| && j < |items| && Shares(k, items[i].res, items[j].res)
    ensures Linked(k, items, i, j)
  {
  }

  // They are so if and only if no entry bridges two aggregates.
  lemma ComponentsIffNoBridge(k: Normal, items: seq<Item>)
    requires NormalOk(k)
    ensures Components(k, items) <==> forall j :: 0 <= j < |items| ==> !Bridges(k, items, j)
  {
    OneHomeIffNoBridge(k, items);
    if OneHome(k, items) {
      forall i: nat, j: nat | i < |items| && j < |items| && Accepts(k, items[i].res) && Accepts(k, items[j].res)
        ensures HomeAt(k, items, i) == HomeAt(k, items, j) <==> Linked(k, items, i, j)
      {
        if HomeAt(k, items, i) == HomeAt(k, items, j) { OneHomeIsLinked(k, items, i, j); }
        if Linked(k, items, i, j) { LinkedHaveOneHome(k, items, i, j); }
      }
    } else {
      var i, j :| 0 <= i < |items| && 0 <= j < |items| && Shares(k, items[i].res, items[j].res)
        && HomeAt(k, items, i) != HomeAt(k, items, j);
      SharedDoiOrUrl(k, items[i].res, items[j].res);
      SharingIsLinked(k, items, i, j);
    }
  }

  // ---- What an aggregate is at least made of ----

  lemma AbsorbKeepsKeys(k: Normal, m: Merge, it: Item, i: nat)
    requires NormalOk(k) && IndexInv(m) && i < |m.order|
    ensures i < |Absorb(k, m, it).order| && KeysOf(k, m.order[i].res) <= KeysOf(k, Absorb(k, m, it).order[i].res)
  {
    if Accepts(k, it.res) { AbsorbShape(k, m, it); }
  }

  lemma OpenedKeys(k: Normal, m: Merge, it: Item)
    requires NormalOk(k) && IndexInv(m) && Accepts(k, it.res) && Home(k, m, it.res) == |m.order|
    ensures |Absorb(k, m, it).order| == |m.order| + 1
    ensures KeysOf(k, Absorb(k, m, it).order[|m.order|].res) == KeysOf(k, it.res)
  {
    AbsorbShape(k, m, it);
  }

  // An aggregate keeps the keys of the entry that opened it.
  lemma {:induction false} OpenerKeys(k: Normal, items: seq<Item>, c: nat)
    requires NormalOk(k) && c < |items| && Opens(k, items, c)
    ensures HomeAt(k, items, c) < |MergeAll(k, items).order|
    ensures KeysOf(k, items[c].res) <= KeysOf(k, MergeAll(k, items).order[HomeAt(k, items, c)].res)
  {
    var (n, init) := (|items| - 1, items[..|items| - 1]);
    MergeKeepsInv(k, init);
    if c == n {
      OpenedKeys(k, MergeAll(k, init), items[n]);
    } else {
      assert init[..c] == items[..c];
      OpenerKeys(k, init, c);
      AbsorbKeepsKeys(k, MergeAll(k, init), items[n], HomeAt(k, items, c));
    }
  }

  lemma SharedSubset(k: Normal, r: SearchResult, s: SearchResult, x: SearchResult)
    requires KeysOf(k, r) <= KeysOf(k, s) && Shares(k, r, x)
    ensures Shares(k, s, x)
  {
    var key :| key in KeysOf(k, r) * KeysOf(k, x);
    assert key in KeysOf(k, s) * KeysOf(k, x);
  }

  // An entry that shares no key with the result it went into is at least the third of it.
  lemma StrangerIsThird(k: Normal, items: seq<Item>, j: nat) returns (c: nat, i: nat)
    requires NormalOk(k) && j < |items| && Accepts(k, items[j].res)
    requires HomeAt(k, items, j) < |MergeAll(k, items).order|
    requires !Shares(k, MergeAll(k, items).order[HomeAt(k, items, j)].res, items[j].res)
    ensures c < i < j && Joined(k, items, c, HomeAt(k, items, j)) && Joined(k, items, i, HomeAt(k, items, j))
  {
    if Opens(k, items, j) {
      OpenerKeys(k, items, j);
      SharedDoiOrUrl(k, items[j].res, items[j].res);
      SharedSubset(k, items[j].res, MergeAll(k, items).order[HomeAt(k, items, j)].res, items[j].res);
    }
    i := JoinsForAReason(k, items, j);
    SharedDoiOrUrl(k, items[i].res, items[j].res);
    if Opens(k, items, i) {
      OpenerKeys(k, items, i);
      SharedSubset(k, items[i].res, MergeAll(k, items).order[HomeAt(k, items, j)].res, items[j].res);
    }
    c := TiedToOpener(k, items, i);
  }

  function MassOver(items: seq<Item>, picks: seq<nat>): real
    requires forall p :: 0 <= p < |picks| ==> picks[p] < |items|
  {
    if picks == [] then 0.0
    else MassOver(items, picks[..|picks| - 1]) + items[picks[|picks| - 1]].mass
  }

  lemma {:induction false} MassOverInit(items: seq<Item>, picks: seq<nat>)
    requires items != [] && forall p :: 0 <= p < |picks| ==> picks[p] < |items| - 1
    ensures MassOver(items, picks) == MassOver(items[..|items| - 1], picks)
  {
    if picks != [] { MassOverInit(items, picks[..|picks| - 1]); }
  }

  predicate Ascending(picks: seq<nat>) { forall p, q :: 0 <= p < q < |picks| ==> picks[p] < picks[q] }

  // Ascending entries of aggregate i.
  predicate Picks(k: Normal, items: seq<Item>, i: nat, picks: seq<nat>) {
    Ascending(picks) && forall p :: 0 <= p < |picks| ==> picks[p] < |items| && Joined(k, items, picks[p], i)
  }

  lemma PicksInit(k: Normal, items: seq<Item>, i: nat, picks: seq<nat>)
    requires Picks(k, items, i, picks) && items != [] && forall p :: 0 <= p < |picks| ==> picks[p] < |items| - 1
    ensures Picks(k, items[..|items| - 1], i, picks)
  {
    forall p | 0 <= p < |picks| ensures Joined(k, items[..|items| - 1], picks[p], i) {
      JoinedInit(k, items, picks[p], i);
    }
  }

  lemma PicksButLast(k: Normal, items: seq<Item>, i: nat, picks: seq<nat>)
    requires Picks(k, items, i, picks) && picks != [] && picks[|picks| - 1] == |items| - 1
    ensures Picks(k, items[..|items| - 1], i, picks[..|picks| - 1])
    ensures forall p :: 0 <= p < |picks| - 1 ==> picks[p] < |items| - 1
  {
    PicksInit(k, items, i, picks[..|picks| - 1]);
  }

  lemma MassGrows(k: Normal, items: seq<Item>, i: nat)
    requires items != [] && items[|items| - 1].mass >= 0.0
    ensures MassAt(k, items, i) >= MassAt(k, items[..|items| - 1], i)
  {
    if Joined(k, items, |items| - 1, i) { MassOfLast(k, items, i); } else { OtherMass(k, items, i); }
  }

  // An aggregate weighs at least as much as any of its entries together.
  lemma {:induction false} MassAtLeast(k: Normal, items: seq<Item>, i: nat, picks: seq<nat>)
    requires Picks(k, items, i, picks) && forall j :: 0 <= j < |items| ==> items[j].mass >= 0.0
    ensures MassAt(k, items, i) >= MassOver(items, picks)
  {
    if items != [] {
      var (init, rest) := (items[..|items| - 1], picks[..if picks == [] then 0 else |picks| - 1]);
      if picks != [] && picks[|picks| - 1] == |items| - 1 {
        PicksButLast(k, items, i, picks);
        MassAtLeast(k, init, i, rest);
        MassOverInit(items, rest);
        MassOfLast(k, items, i);
      } else {
        PicksInit(k, items, i, picks);
        MassAtLeast(k, init, i, picks);
        MassOverInit(items, picks);
        MassGrows(k, items, i);
      }
    }
  }

  // ---- A bridge ----

  lemma FirstEntry(k: Normal, it: Item)
    requires Accepts(k, it.res)
    ensures var m := MergeAll(k, [it]);
      && m.order == [Grow(Agg(it.res, 0.0, []), it)]
      && m.byDoi == (if k.doi(it.res.doi) != "" then map[k.doi(it.res.doi) := 0] else map[])
      && m.byUrl == (if k.url(it.res.url) != "" then map[k.url(it.res.url) := 0] else map[])
  {
    MergeSnoc(k, [], it);
    assert [] + [it] == [it];
  }

  lemma UrlOnlyEntry(k: Normal, m: Merge, it: Item)
    requires k.doi(it.res.doi) == "" && "" !in m.byDoi && k.url(it.res.url) != "" && k.url(it.res.url) !in m.byUrl
    ensures var m' := Absorb(k, m, it);
      && |m'.order| == |m.order| + 1 && m'.byDoi == m.byDoi
      && m'.byUrl == m.byUrl[k.url(it.res.url) := |m.order|]
  {
  }

  lemma KnownDoiEntry(k: Normal, m: Merge, it: Item)
    requires k.doi(it.res.doi) != "" && k.doi(it.res.doi) in m.byDoi && m.byDoi[k.doi(it.res.doi)] < |m.order|
    ensures |Absorb(k, m, it).order| == |m.order|
  {
  }

  // Three entries, the last sharing its DOI with the first and its URL with the second,
  // come out as two results, whatever other URL the first one has.
  lemma BridgeLeavesTwo(k: Normal, d: string, u: string, x: Item, y: Item, z: Item)
    requires NormalOk(k) && k.doi(d) == d != "" && k.url(u) == u != ""
    requires x.res.doi == d && k.url(x.res.url) != u && y.res.doi == "" && y.res.url == u
    requires z.res.doi == d && z.res.url == u
    ensures |MergeAll(k, [x, y, z]).order| == 2 && Shares(k, x.res, z.res) && Shares(k, y.res, z.res)
  {
    FirstEntry(k, x);
    var m := MergeAll(k, [x]);
    assert [x, y] == [x] + [y] && [x, y, z] == [x, y] + [z];
    MergeSnoc(k, [x], y);
    UrlOnlyEntry(k, m, y);
    MergeSnoc(k, [x, y], z);
    KnownDoiEntry(k, MergeAll(k, [x, y]), z);
    SharedDoiOrUrl(k, x.res, z.res);
    SharedDoiOrUrl(k, y.res, z.res);
  }
}
