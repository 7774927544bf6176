// Page specifications: parsePagesSpec in mcp/tool_pdf.go reads them, standardPageRanges
// in pkg/fetch/mineru/client.go prints them.
module PageRanges {
  import opened Wrappers
  import opened Decimal
  import opened Text

  // ---- Reading ----

  datatype Part = Blank | Range(from: int, to: int) | Malformed | TooWide

  // One comma-separated part; only a part with a dash is held against the width cap.
  function ReadPart(raw: string, widthCap: int): Part {
    var part := TrimSpace(raw);
    if part == "" then Blank
    else if '-' in part then
      var i := IndexOf(part, '-');
      match (Atoi(TrimSpace(part[..i])), Atoi(TrimSpace(part[i + 1..])))
      case (Some(from), Some(to)) =>
        if from < 1 || to < from then Malformed
        else if to - from + 1 > widthCap then TooWide
        else Range(from, to)
      case _ => Malformed
    else
      match Atoi(part)
      case Some(p) => if p < 1 then Malformed else Range(p, p)
      case None => Malformed
  }

  datatype Result = Pages(list: seq<int>) | SpecInvalid | RangeOverLimit

  // from, ..., to as far as not yet seen.
  function AddRange(out: seq<int>, from: int, to: int): seq<int>
    decreases if from > to then 0 else to - from + 1
  {
    if from > to then out
    else
      var before := AddRange(out, from, to - 1);
      if to in before then before else before + [to]
  }

  function Collect(parts: seq<string>, widthCap: int): Result {
    if parts == [] then Pages([])
    else match Collect(parts[..|parts| - 1], widthCap)
      case Pages(out) =>
        (match ReadPart(parts[|parts| - 1], widthCap)
         case Blank => Pages(out)
         case Range(from, to) => Pages(AddRange(out, from, to))
         case Malformed => SpecInvalid
         case TooWide => RangeOverLimit)
      case err => err
  }

  function Insert(x: int, s: seq<int>): (r: seq<int>)
    ensures |r| == |s| + 1
  {
    if s == [] || s[|s| - 1] <= x then s + [x] else Insert(x, s[..|s| - 1]) + [s[|s| - 1]]
  }

  // sort.Ints.
  function SortInts(s: seq<int>): seq<int> {
    if s == [] then [] else Insert(s[|s| - 1], SortInts(s[..|s| - 1]))
  }

  function Parse(spec: string, widthCap: int): Result {
    var s := TrimSpace(spec);
    if s == "" then Pages([])
    else match Collect(Split(s, ','), widthCap)
      case Pages(out) => Pages(SortInts(out))
      case err => err
  }

  // The loop over one range; `seen` is the set of `out`.
  method AppendRange(out: seq<int>, seen: set<int>, from: int, to: int) returns (out': seq<int>, seen': set<int>)
    requires from <= to && forall q :: q in seen <==> q in out
    ensures out' == AddRange(out, from, to) && forall q :: q in seen' <==> q in out'
  {
    out', seen' := out, seen;
    for p := from to to + 1
      invariant out' == AddRange(out, from, p - 1)
      invariant forall q :: q in seen' <==> q in out'
    {
      if p !in seen' {
        out', seen' := out' + [p], seen' + {p};
      }
    }
  }

  lemma CollectUnrolls(parts: seq<string>, k: nat, widthCap: int, out: seq<int>)
    requires k < |parts| && Collect(parts[..k], widthCap) == Pages(out)
    ensures Collect(parts[..k + 1], widthCap) == match ReadPart(parts[k], widthCap)
      case Blank => Pages(out)
      case Range(from, to) => Pages(AddRange(out, from, to))
      case Malformed => SpecInvalid
      case TooWide => RangeOverLimit
  {
    assert parts[..k + 1][..k] == parts[..k];
  }

  lemma PartOrdered(raw: string, widthCap: int)
    ensures ReadPart(raw, widthCap).Range? ==> 1 <= ReadPart(raw, widthCap).from <= ReadPart(raw, widthCap).to
  {
  }

  // The first part that fails decides.
  lemma {:induction false} CollectStops(parts: seq<string>, k: nat, widthCap: int)
    requires k <= |parts| && !Collect(parts[..k], widthCap).Pages?
    ensures Collect(parts, widthCap) == Collect(parts[..k], widthCap)
    decreases |parts|
  {
    if k < |parts| {
      assert parts[..|parts| - 1][..k] == parts[..k];
      CollectStops(parts[..|parts| - 1], k, widthCap);
    } else {
      assert parts[..k] == parts;
    }
  }

  method ParsePagesSpec(spec: string, widthCap: int) returns (r: Result)
    ensures r == Parse(spec, widthCap)
  {
    var s := TrimSpace(spec);
    if s == "" {
      return Pages([]);
    }
    var parts := Split(s, ',');
    var seen: set<int>, out: seq<int> := {}, [];
    for k := 0 to |parts|
      invariant Collect(parts[..k], widthCap) == Pages(out)
      invariant forall p :: p in seen <==> p in out
    {
      CollectUnrolls(parts, k, widthCap, out);
      var part := ReadPart(parts[k], widthCap);
      match part {
        case Malformed =>
          CollectStops(parts, k + 1, widthCap);
          return SpecInvalid;
        case TooWide =>
          CollectStops(parts, k + 1, widthCap);
          return RangeOverLimit;
        case Range(from, to) =>
          PartOrdered(parts[k], widthCap);
          out, seen := AppendRange(out, seen, from, to);
        case Blank =>
      }
    }
    assert parts[..|parts|] == parts;
    r := Pages(SortInts(out));
  }

  predicate Increasing(s: seq<int>) {
    forall i, j :: 0 <= i < j < |s| ==> s[i] < s[j]
  }

  predicate Distinct(s: seq<int>) {
    forall i, j :: 0 <= i < j < |s| ==> s[i] != s[j]
  }

  predicate Names(raw: string, widthCap: int, p: int) {
    var part := ReadPart(raw, widthCap);
    part.Range? && part.from <= p <= part.to
  }

  // The pages some part of the specification names.
  ghost predicate Denotes(parts: seq<string>, widthCap: int, p: int) {
    exists i :: 0 <= i < |parts| && Names(parts[i], widthCap, p)
  }

  lemma {:induction false} AddRangeMeans(out: seq<int>, from: int, to: int)
    requires Distinct(out)
    ensures Distinct(AddRange(out, from, to))
    ensures forall p :: p in AddRange(out, from, to) <==> p in out || from <= p <= to
    decreases if from > to then 0 else to - from + 1
  {
    if from <= to {
      AddRangeMeans(out, from, to - 1);
    }
  }

  lemma {:induction false} InsertMeans(x: int, s: seq<int>)
    requires Increasing(s) && x !in s
    ensures Increasing(Insert(x, s)) && forall p :: p in Insert(x, s) <==> p == x || p in s
  {
    if s != [] && s[|s| - 1] > x {
      var init := s[..|s| - 1];
      InsertMeans(x, init);
      assert s == init + [s[|s| - 1]];
      var r := Insert(x, init);
      forall i | 0 <= i < |r| ensures r[i] < s[|s| - 1] {
        assert r[i] in r;
      }
    }
  }

  lemma {:induction false} SortMeans(s: seq<int>)
    requires Distinct(s)
    ensures Increasing(SortInts(s)) && forall p :: p in SortInts(s) <==> p in s
  {
    if s != [] {
      var init := s[..|s| - 1];
      SortMeans(init);
      assert s == init + [s[|s| - 1]];
      InsertMeans(s[|s| - 1], SortInts(init));
    }
  }

  lemma DenotesSnoc(init: seq<string>, last: string, widthCap: int, p: int)
    ensures Denotes(init + [last], widthCap, p) <==> Denotes(init, widthCap, p) || Names(last, widthCap, p)
  {
    var parts := init + [last];
    if i :| 0 <= i < |init| && Names(init[i], widthCap, p) { assert Names(parts[i], widthCap, p); }
    if Names(last, widthCap, p) { assert Names(parts[|init|], widthCap, p); }
  }

  lemma {:induction false} CollectMeans(parts: seq<string>, widthCap: int)
    ensures var r := Collect(parts, widthCap);
      r.Pages? ==> Distinct(r.list) && forall p :: p in r.list <==> Denotes(parts, widthCap, p)
  {
    if parts != [] {
      var (init, last) := (parts[..|parts| - 1], parts[|parts| - 1]);
      CollectMeans(init, widthCap);
      assert init + [last] == parts;
      forall p ensures Denotes(parts, widthCap, p) <==> Denotes(init, widthCap, p) || Names(last, widthCap, p) {
        DenotesSnoc(init, last, widthCap, p);
      }
      if Collect(init, widthCap).Pages? && ReadPart(last, widthCap).Range? {
        AddRangeMeans(Collect(init, widthCap).list, ReadPart(last, widthCap).from, ReadPart(last, widthCap).to);
      }
    }
  }

  predicate Readable(raw: string, widthCap: int) {
    ReadPart(raw, widthCap).Blank? || ReadPart(raw, widthCap).Range?
  }

  lemma {:induction false} CollectAccepts(parts: seq<string>, widthCap: int)
    ensures Collect(parts, widthCap).Pages? <==> forall i :: 0 <= i < |parts| ==> Readable(parts[i], widthCap)
  {
    if parts != [] {
      CollectAccepts(parts[..|parts| - 1], widthCap);
      assert parts == parts[..|parts| - 1] + [parts[|parts| - 1]];
    }
  }

  // An accepted specification gives, strictly increasing, exactly the pages it denotes; it
  // is accepted exactly when every part is blank, a page, or a range within the cap.
  lemma ParseMeans(spec: string, widthCap: int)
    ensures var (r, parts) := (Parse(spec, widthCap), Split(TrimSpace(spec), ','));
      && (r.Pages? ==> Increasing(r.list) && forall p :: p in r.list <==> Denotes(parts, widthCap, p))
      && (r.Pages? <==> forall i :: 0 <= i < |parts| ==> Readable(parts[i], widthCap))
  {
    var parts := Split(TrimSpace(spec), ',');
    CollectMeans(parts, widthCap);
    CollectAccepts(parts, widthCap);
    if TrimSpace(spec) == "" {
      assert parts == [""];
      assert ReadPart("", widthCap) == Blank;
    } else if Collect(parts, widthCap).Pages? {
      SortMeans(Collect(parts, widthCap).list);
    }
  }

  // ---- Printing ----

  datatype Run = Run(lo: nat, hi: nat)

  // The index of the last page of the run that starts at i.
  function RunEnd(pages: seq<nat>, i: nat): (e: nat)
    requires i < |pages|
    ensures i <= e < |pages|
    decreases |pages| - i
  {
    if i + 1 < |pages| && pages[i + 1] == pages[i] + 1 then RunEnd(pages, i + 1) else i
  }

  // A run goes up by one, and ends where the next page does not.
  lemma {:induction false} RunEndIs(pages: seq<nat>, i: nat)
    requires i < |pages|
    ensures var e := RunEnd(pages, i);
      && (forall k :: i <= k <= e ==> pages[k] == pages[i] + (k - i))
      && (e + 1 < |pages| ==> pages[e + 1] != pages[e] + 1)
    decreases |pages| - i
  {
    if i + 1 < |pages| && pages[i + 1] == pages[i] + 1 { RunEndIs(pages, i + 1); }
  }

  function Runs(pages: seq<nat>, i: nat): seq<Run>
    requires i <= |pages|
    decreases |pages| - i
  {
    if i == |pages| then []
    else [Run(pages[i], pages[RunEnd(pages, i)])] + Runs(pages, RunEnd(pages, i) + 1)
  }

  function PrintRun(r: Run): string {
    if r.lo == r.hi then Print(r.lo) else Print(r.lo) + "-" + Print(r.hi)
  }

  function PrintRuns(runs: seq<Run>): seq<string> {
    seq(|runs|, i requires 0 <= i < |runs| => PrintRun(runs[i]))
  }

  function Printed(pages: seq<nat>): string
    requires pages != []
  {
    Join(PrintRuns(Runs(pages, 0)), ',')
  }

  function PrintInt(n: int): string { if n < 0 then "-" + Print(-n) else Print(n) }

  // "" when nothing restricts the pages; None for the page-limit error.
  function Standard(pages: seq<nat>, maxPages: int, limit: int): Option<string> {
    if pages == [] then
      if maxPages <= 0 then Some("")
      else Some("1-" + PrintInt(if maxPages > limit then limit else maxPages))
    else if |pages| > limit || pages[|pages| - 1] > limit then None
    else Some(Printed(pages))
  }

  method EndOfRun(pages: seq<nat>, first: nat) returns (i: nat)
    requires first < |pages|
    ensures i == RunEnd(pages, first)
  {
    i := first;
    var end := pages[i];
    while i + 1 < |pages| && pages[i + 1] == end + 1
      invariant first <= i < |pages| && end == pages[i]
      invariant RunEnd(pages, first) == RunEnd(pages, i)
      decreases |pages| - i
    {
      i := i + 1;
      end := pages[i];
    }
  }

  lemma RunsUnroll(pages: seq<nat>, i: nat)
    requires i < |pages|
    ensures Runs(pages, i) == [Run(pages[i], pages[RunEnd(pages, i)])] + Runs(pages, RunEnd(pages, i) + 1)
  {
  }

  lemma RunsStep(pages: seq<nat>, i: nat, done: seq<Run>)
    requires i < |pages| && Runs(pages, 0) == done + Runs(pages, i)
    ensures Runs(pages, 0) == done + [Run(pages[i], pages[RunEnd(pages, i)])] + Runs(pages, RunEnd(pages, i) + 1)
  {
    RunsUnroll(pages, i);
  }

  lemma PrintRunsSnoc(runs: seq<Run>, r: Run)
    ensures PrintRuns(runs + [r]) == PrintRuns(runs) + [PrintRun(r)]
  {
  }

  // The outer loop: one part per run.
  method RunTexts(pages: seq<nat>) returns (parts: seq<string>)
    requires pages != []
    ensures parts == PrintRuns(Runs(pages, 0))
  {
    parts := [];
    var i := 0;
    ghost var done: seq<Run> := [];
    while i < |pages|
      invariant i <= |pages| && Runs(pages, 0) == done + Runs(pages, i)
      invariant parts == PrintRuns(done)
      decreases |pages| - i
    {
      var e := EndOfRun(pages, i);
      RunsStep(pages, i, done);
      PrintRunsSnoc(done, Run(pages[i], pages[e]));
      done := done + [Run(pages[i], pages[e])];
      parts := parts + [if pages[i] == pages[e] then Print(pages[i]) else Print(pages[i]) + "-" + Print(pages[e])];
      i := e + 1;
    }
    assert done + [] == done;
  }

  method StandardPageRanges(pages: seq<nat>, maxPages: int, limit: int) returns (text: Option<string>)
    ensures text == Standard(pages, maxPages, limit)
  {
    if |pages| == 0 {
      if maxPages <= 0 {
        return Some("");
      }
      var n := if maxPages > limit then limit else maxPages;
      return Some("1-" + PrintInt(n));
    }
    if |pages| > limit || pages[|pages| - 1] > limit {
      return None;
    }
    var parts := RunTexts(pages);
    text := Some(Join(parts, ','));
  }

  predicate Covers(runs: seq<Run>, p: int) {
    exists k :: 0 <= k < |runs| && runs[k].lo <= p <= runs[k].hi
  }

  lemma CoversCons(r: Run, rest: seq<Run>, p: int)
    ensures Covers([r] + rest, p) <==> r.lo <= p <= r.hi || Covers(rest, p)
  {
    var runs := [r] + rest;
    if r.lo <= p <= r.hi { assert runs[0].lo <= p <= runs[0].hi; }
    if k :| 0 <= k < |rest| && rest[k].lo <= p <= rest[k].hi { assert runs[k + 1].lo <= p <= runs[k + 1].hi; }
  }

  lemma RunCovers(pages: seq<nat>, i: nat, p: int)
    requires i < |pages|
    ensures p in pages[i..RunEnd(pages, i) + 1] <==> pages[i] <= p <= pages[RunEnd(pages, i)]
  {
    var e := RunEnd(pages, i);
    RunEndIs(pages, i);
    if pages[i] <= p <= pages[e] {
      assert pages[i..e + 1][p - pages[i]] == p;
    }
  }

  lemma SliceSplits(s: seq<nat>, i: nat, j: nat, p: int)
    requires i <= j <= |s|
    ensures p in s[i..] <==> p in s[i..j] || p in s[j..]
  {
    assert s[i..] == s[i..j] + s[j..];
  }

  lemma {:induction false} RunsCover(pages: seq<nat>, i: nat, p: int)
    requires i <= |pages|
    ensures p in pages[i..] <==> Covers(Runs(pages, i), p)
    decreases |pages| - i
  {
    if i < |pages| {
      var e := RunEnd(pages, i);
      SliceSplits(pages, i, e + 1, p);
      RunCovers(pages, i, p);
      RunsCover(pages, e + 1, p);
      RunsUnroll(pages, i);
      CoversCons(Run(pages[i], pages[e]), Runs(pages, e + 1), p);
    }
  }

  // Runs in order, each followed by a gap, between two bounds.
  predicate Separated(runs: seq<Run>, lo: nat, hi: nat) {
    && (forall k :: 0 <= k < |runs| ==> lo <= runs[k].lo <= runs[k].hi <= hi)
    && (forall k :: 0 <= k < |runs| - 1 ==> runs[k].hi + 1 < runs[k + 1].lo)
  }

  lemma SeparatedCons(r: Run, rest: seq<Run>, lo: nat, hi: nat)
    requires r.lo <= r.hi && r.hi + 1 < lo <= hi && Separated(rest, lo, hi)
    ensures Separated([r] + rest, r.lo, hi)
  {
    var runs := [r] + rest;
    assert forall k :: 1 <= k < |runs| ==> runs[k] == rest[k - 1];
  }

  lemma RunGap(pages: seq<nat>, i: nat)
    requires i < |pages| && Increasing(pages)
    ensures var e := RunEnd(pages, i);
      if e + 1 < |pages| then pages[i] <= pages[e] && pages[e] + 1 < pages[e + 1] <= pages[|pages| - 1]
      else pages[e] == pages[|pages| - 1] && Runs(pages, i) == [Run(pages[i], pages[e])]
  {
    var e := RunEnd(pages, i);
    RunEndIs(pages, i);
    if e + 1 < |pages| {
      assert pages[e] < pages[e + 1];
    } else {
      RunsUnroll(pages, i);
      assert Runs(pages, e + 1) == [];
    }
  }

  lemma {:induction false} RunsSeparate(pages: seq<nat>, i: nat)
    requires i < |pages| && Increasing(pages)
    ensures |Runs(pages, i)| > 0 && Separated(Runs(pages, i), pages[i], pages[|pages| - 1])
    decreases |pages| - i
  {
    var e := RunEnd(pages, i);
    RunGap(pages, i);
    if e + 1 < |pages| {
      RunsSeparate(pages, e + 1);
      RunsUnroll(pages, i);
      SeparatedCons(Run(pages[i], pages[e]), Runs(pages, e + 1), pages[e + 1], pages[|pages| - 1]);
    }
  }

  // The printed runs cover exactly the pages and are maximal: each is followed by a gap.
  lemma RunsAreMaximal(pages: seq<nat>)
    requires pages != [] && Increasing(pages)
    ensures var runs := Runs(pages, 0);
      && |runs| > 0 && Separated(runs, pages[0], pages[|pages| - 1])
      && (forall p :: p in pages <==> Covers(runs, p))
  {
    RunsSeparate(pages, 0);
    assert pages[0..] == pages;
    forall p ensures p in pages <==> Covers(Runs(pages, 0), p) {
      RunsCover(pages, 0, p);
    }
  }

  // ---- Round trip ----

  predicate Clean(text: string) {
    text != "" && ',' !in text && !IsSpace(text[0]) && !IsSpace(text[|text| - 1])
  }

  function Expected(r: Run, widthCap: int): Part {
    if r.lo < r.hi && r.hi - r.lo + 1 > widthCap then TooWide else Range(r.lo, r.hi)
  }

  lemma PrintedIsClean(r: Run)
    ensures Clean(PrintRun(r))
  {
    assert forall k :: 0 <= k < |Print(r.lo)| ==> IsDigit(Print(r.lo)[k]);
  }

  lemma DashIndex(lo: string, hi: string)
    requires '-' !in lo
    ensures var text := lo + "-" + hi;
      '-' in text && IndexOf(text, '-') == |lo| && text[..|lo|] == lo && text[|lo| + 1..] == hi
  {
    var text := lo + "-" + hi;
    assert text[|lo|] == '-';
    var i := IndexOf(text, '-');
    assert text[..i] + ['-'] + text[i + 1..] == text;
    SplitAtSeparator(text[..i], lo, text[i + 1..], hi, '-');
  }

  // What a part with a dash is: its two sides are numbers in order, and the width is capped.
  lemma DashedPart(raw: string, widthCap: int, lo: string, hi: string)
    requires TrimSpace(raw) == lo + "-" + hi && '-' !in lo
    ensures var (from, to) := (Atoi(TrimSpace(lo)), Atoi(TrimSpace(hi)));
      ReadPart(raw, widthCap) ==
        if from.None? || to.None? || from.value < 1 || to.value < from.value then Malformed
        else if to.value - from.value + 1 > widthCap then TooWide
        else Range(from.value, to.value)
  {
    DashIndex(lo, hi);
  }

  // What a part without a dash is: nothing, or a page number.
  lemma PlainPart(raw: string, widthCap: int)
    requires '-' !in TrimSpace(raw)
    ensures var page := Atoi(TrimSpace(raw));
      ReadPart(raw, widthCap) ==
        if TrimSpace(raw) == "" then Blank
        else if page.None? || page.value < 1 then Malformed
        else Range(page.value, page.value)
  {
  }

  lemma DashedTrims(lo: nat, hi: nat)
    ensures TrimSpace(Print(lo) + "-" + Print(hi)) == Print(lo) + "-" + Print(hi)
  {
    var text := Print(lo) + "-" + Print(hi);
    assert IsDigit(text[0]) && IsDigit(text[|text| - 1]);
    TrimNothing(text);
  }

  lemma ReadDashed(lo: nat, hi: nat, widthCap: int)
    requires 1 <= lo <= hi <= MAX_INT
    ensures ReadPart(Print(lo) + "-" + Print(hi), widthCap) == if hi - lo + 1 > widthCap then TooWide else Range(lo, hi)
  {
    AtoiOfPrint(lo);
    AtoiOfPrint(hi);
    DashedTrims(lo, hi);
    DashIndex(Print(lo), Print(hi));
  }

  lemma ReadPrinted(r: Run, widthCap: int)
    requires 1 <= r.lo <= r.hi <= MAX_INT
    ensures ReadPart(PrintRun(r), widthCap) == Expected(r, widthCap)
  {
    if r.lo < r.hi {
      ReadDashed(r.lo, r.hi, widthCap);
    } else {
      AtoiOfPrint(r.lo);
    }
  }

  lemma {:induction false} JoinEnds(parts: seq<string>, sep: char)
    requires |parts| > 0 && forall i :: 0 <= i < |parts| ==> parts[i] != ""
    ensures var s := Join(parts, sep);
      s != "" && s[0] == parts[0][0] && s[|s| - 1] == parts[|parts| - 1][|parts[|parts| - 1]| - 1]
  {
    if |parts| > 1 { JoinEnds(parts[1..], sep); }
  }

  lemma IncreasingInit(s: seq<int>)
    requires Increasing(s) && s != []
    ensures var m := |s| - 1; Increasing(s[..m]) && forall p :: p in s[..m] <==> p in s && p != s[m]
  {
    assert s == s[..|s| - 1] + [s[|s| - 1]];
  }

  lemma LastIsLargest(s: seq<int>, p: int)
    requires Increasing(s) && p in s
    ensures s[|s| - 1] in s && p <= s[|s| - 1]
  {
    var i :| 0 <= i < |s| && s[i] == p;
  }

  lemma SubsetNonEmpty(s: seq<int>, t: seq<int>)
    requires s != [] && forall p :: p in s ==> p in t
    ensures t != []
  {
    var p: int := s[0];
    assert p in s;
    assert p in t;
  }

  lemma SameLast(s: seq<int>, t: seq<int>)
    requires Increasing(s) && Increasing(t) && (forall p :: p in s <==> p in t) && s != [] && t != []
    ensures s[|s| - 1] == t[|t| - 1]
  {
    assert s[|s| - 1] in s && t[|t| - 1] in t;
    LastIsLargest(s, t[|t| - 1]);
    LastIsLargest(t, s[|s| - 1]);
  }

  lemma {:induction false} IncreasingUnique(s: seq<int>, t: seq<int>)
    requires Increasing(s) && Increasing(t) && forall p :: p in s <==> p in t
    ensures s == t
  {
    if s != [] || t != [] {
      if s != [] { SubsetNonEmpty(s, t); } else { SubsetNonEmpty(t, s); }
      SameLast(s, t);
      IncreasingInit(s);
      IncreasingInit(t);
      IncreasingUnique(s[..|s| - 1], t[..|t| - 1]);
      assert s == s[..|s| - 1] + [s[|s| - 1]];
      assert t == t[..|t| - 1] + [t[|t| - 1]];
    }
  }

  // Every run of two pages or more is within the cap.
  ghost predicate FitsCap(pages: seq<nat>, widthCap: int) {
    forall k :: 0 <= k < |Runs(pages, 0)| ==> Expected(Runs(pages, 0)[k], widthCap).Range?
  }

  predicate Printable(pages: seq<nat>) {
    pages != [] && Increasing(pages) && pages[0] >= 1 && pages[|pages| - 1] <= MAX_INT
  }

  lemma PartsRead(pages: seq<nat>, widthCap: int)
    requires Printable(pages)
    ensures forall k :: 0 <= k < |Runs(pages, 0)| ==>
      && Clean(PrintRun(Runs(pages, 0)[k]))
      && ReadPart(PrintRun(Runs(pages, 0)[k]), widthCap) == Expected(Runs(pages, 0)[k], widthCap)
  {
    RunsAreMaximal(pages);
    forall k | 0 <= k < |Runs(pages, 0)|
      ensures Clean(PrintRun(Runs(pages, 0)[k]))
      ensures ReadPart(PrintRun(Runs(pages, 0)[k]), widthCap) == Expected(Runs(pages, 0)[k], widthCap)
    {
      PrintedIsClean(Runs(pages, 0)[k]);
      ReadPrinted(Runs(pages, 0)[k], widthCap);
    }
  }

  lemma PrintedSplits(pages: seq<nat>)
    requires Printable(pages)
    ensures Split(TrimSpace(Printed(pages)), ',') == PrintRuns(Runs(pages, 0)) && TrimSpace(Printed(pages)) != ""
  {
    RunsAreMaximal(pages);
    PartsRead(pages, 0);
    var parts := PrintRuns(Runs(pages, 0));
    assert forall k :: 0 <= k < |parts| ==> Clean(parts[k]);
    SplitOfJoin(parts, ',');
    JoinEnds(parts, ',');
    TrimNothing(Printed(pages));
  }

  lemma DenotesRuns(pages: seq<nat>, widthCap: int, p: int)
    requires Printable(pages) && FitsCap(pages, widthCap)
    ensures Denotes(PrintRuns(Runs(pages, 0)), widthCap, p) <==> p in pages
  {
    var (runs, parts) := (Runs(pages, 0), PrintRuns(Runs(pages, 0)));
    RunsAreMaximal(pages);
    PartsRead(pages, widthCap);
    assert forall k :: 0 <= k < |runs| ==> (Names(parts[k], widthCap, p) <==> runs[k].lo <= p <= runs[k].hi);
    if k :| 0 <= k < |runs| && runs[k].lo <= p <= runs[k].hi {
      assert Names(parts[k], widthCap, p);
    }
  }

  lemma FittingParses(pages: seq<nat>, widthCap: int)
    requires Printable(pages) && FitsCap(pages, widthCap)
    ensures Parse(Printed(pages), widthCap) == Pages(pages)
  {
    var (runs, parts) := (Runs(pages, 0), PrintRuns(Runs(pages, 0)));
    PrintedSplits(pages);
    PartsRead(pages, widthCap);
    ParseMeans(Printed(pages), widthCap);
    forall k | 0 <= k < |parts| ensures ReadPart(parts[k], widthCap).Range? {
      assert ReadPart(PrintRun(runs[k]), widthCap) == Expected(runs[k], widthCap);
    }
    var list := Parse(Printed(pages), widthCap).list;
    forall p ensures p in list <==> p in pages { DenotesRuns(pages, widthCap, p); }
    IncreasingUnique(list, pages);
  }

  lemma {:induction false} NeverMalformed(parts: seq<string>, widthCap: int)
    requires forall k :: 0 <= k < |parts| ==> !ReadPart(parts[k], widthCap).Malformed?
    ensures Collect(parts, widthCap) != SpecInvalid
  {
    if parts != [] { NeverMalformed(parts[..|parts| - 1], widthCap); }
  }

  lemma PartRead(pages: seq<nat>, widthCap: int, k: nat)
    requires Printable(pages) && k < |Runs(pages, 0)|
    ensures ReadPart(PrintRuns(Runs(pages, 0))[k], widthCap) == Expected(Runs(pages, 0)[k], widthCap)
  {
    PartsRead(pages, widthCap);
  }

  lemma TooWideFails(pages: seq<nat>, widthCap: int)
    requires Printable(pages) && !FitsCap(pages, widthCap)
    ensures Parse(Printed(pages), widthCap) == RangeOverLimit
  {
    PrintedSplits(pages);
    var (runs, parts) := (Runs(pages, 0), PrintRuns(Runs(pages, 0)));
    forall k | 0 <= k < |parts| ensures !ReadPart(parts[k], widthCap).Malformed? { PartRead(pages, widthCap, k); }
    NeverMalformed(parts, widthCap);
    var k :| 0 <= k < |runs| && !Expected(runs[k], widthCap).Range?;
    PartRead(pages, widthCap, k);
    assert !Readable(parts[k], widthCap);
    CollectAccepts(parts, widthCap);
  }

  // Reading a printed strictly increasing page list gives it back exactly when no run is
  // wider than the cap; otherwise it is the width error.
  lemma PrintThenParse(pages: seq<nat>, widthCap: int)
    requires Printable(pages)
    ensures Parse(Printed(pages), widthCap) == if FitsCap(pages, widthCap) then Pages(pages) else RangeOverLimit
  {
    if FitsCap(pages, widthCap) {
      FittingParses(pages, widthCap);
    } else {
      TooWideFails(pages, widthCap);
    }
  }

  lemma FirstPages(n: nat, widthCap: int)
    requires 1 <= n <= MAX_INT && n <= widthCap
    ensures Parse("1-" + Print(n), widthCap).Pages?
    ensures var list := Parse("1-" + Print(n), widthCap).list;
      Increasing(list) && forall p :: p in list <==> 1 <= p <= n
  {
    var text := Print(1) + "-" + Print(n);
    assert text == "1-" + Print(n);
    DashedTrims(1, n);
    ReadDashed(1, n, widthCap);
    AtoiOfPrint(n);
    assert Split(text, ',') == [text];
    ParseMeans(text, widthCap);
    forall p ensures Denotes([text], widthCap, p) <==> 1 <= p <= n {
      DenotesSnoc([], text, widthCap, p);
      assert [] + [text] == [text];
    }
  }

  lemma {:induction false} CountBelow(pages: seq<nat>, i: nat)
    requires i < |pages| && Increasing(pages) && pages[0] >= 1
    ensures i + 1 <= pages[i]
  {
    if i > 0 { CountBelow(pages, i - 1); }
  }

  // Pages in order from 1 on that stay within a limit are no more than it.
  lemma NoneBeyond(pages: seq<nat>, limit: int)
    requires Printable(pages)
    ensures |pages| <= pages[|pages| - 1]
    ensures pages[|pages| - 1] > limit <==> exists p :: p in pages && p > limit
  {
    if pages[|pages| - 1] > limit { assert pages[|pages| - 1] in pages; }
    if p :| p in pages && p > limit { LastIsLargest(pages, p); }
    CountBelow(pages, |pages| - 1);
  }

  lemma NoFirstPagesText(limit: int)
    requires limit < 1
    ensures "1-" + PrintInt(limit) == if limit == 0 then "1-0" else "1--" + Print(-limit)
  {
    assert Print(0) == "0";
    if limit < 0 { assert "1-" + ("-" + Print(-limit)) == "1--" + Print(-limit); }
  }

  lemma ReadsNegative(digits: string)
    requires digits != "" && AllDigits(digits) && Value(digits) > 0
    ensures var s := "-" + digits;
      ',' !in s && !IsSpace(s[0]) && IsDigit(s[|s| - 1])
      && TrimSpace(s) == s && (Atoi(s).Some? ==> Atoi(s).value < 1)
  {
    var s := "-" + digits;
    assert s[0] == '-' && s[|s| - 1] == digits[|digits| - 1];
    TrimNothing(s);
    AtoiMeans(digits);
  }

  // The text of a number below 1 needs no trimming, and is read as a number below 1 if at all.
  lemma ReadsBelowOne(n: int)
    requires n < 1
    ensures var s := PrintInt(n);
      s != "" && ',' !in s && !IsSpace(s[0]) && IsDigit(s[|s| - 1])
      && TrimSpace(s) == s && (Atoi(s).Some? ==> Atoi(s).value < 1)
  {
    if n < 0 {
      ValueOfPrint(-n);
      ReadsNegative(Print(-n));
    } else {
      AtoiOfPrint(0);
    }
  }

  lemma NoFirstPagesRead(hi: string, widthCap: int)
    requires hi != "" && ',' !in hi && IsDigit(hi[|hi| - 1]) && TrimSpace(hi) == hi
    requires Atoi(hi).Some? ==> Atoi(hi).value < 1
    ensures Parse("1-" + hi, widthCap) == SpecInvalid
  {
    var text := "1-" + hi;
    assert text[0] == '1' && text[|text| - 1] == hi[|hi| - 1];
    TrimNothing(text);
    DashedPart(text, widthCap, "1", hi);
    assert ',' !in text;
    assert Collect([], widthCap) == Pages([]) && [text][..0] == [];
  }

  // A limit below 1 leaves no first pages: what is printed for them is a range from 1 down to
  // the limit, which the parser refuses.
  lemma NoFirstPages(maxPages: int, limit: int, widthCap: int)
    requires maxPages > 0 && limit < 1
    ensures Standard([], maxPages, limit) == Some(if limit == 0 then "1-0" else "1--" + Print(-limit))
    ensures Parse(Standard([], maxPages, limit).value, widthCap) == SpecInvalid
  {
    NoFirstPagesText(limit);
    ReadsBelowOne(limit);
    NoFirstPagesRead(PrintInt(limit), widthCap);
  }

  // Within a limit that is no larger than the cap, what is printed is always read back; the
  // limit is exceeded when a page lies beyond it.
  lemma StandardThenParse(pages: seq<nat>, maxPages: int, limit: int, widthCap: int)
    requires limit <= widthCap && limit <= MAX_INT && (pages != [] ==> Printable(pages))
    ensures pages != [] ==> (Standard(pages, maxPages, limit).None? <==> exists p :: p in pages && p > limit)
    ensures pages == [] && maxPages <= 0 ==> Standard(pages, maxPages, limit) == Some("")
    ensures pages != [] && Standard(pages, maxPages, limit).Some? ==>
      Parse(Standard(pages, maxPages, limit).value, widthCap) == Pages(pages)
    ensures pages == [] && maxPages > 0 && limit > 0 ==>
      var r := Parse(Standard(pages, maxPages, limit).value, widthCap);
      r.Pages? && Increasing(r.list) && forall p :: p in r.list <==> 1 <= p <= maxPages && p <= limit
  {
    if pages == [] && maxPages > 0 && limit > 0 {
      FirstPages(if maxPages > limit then limit else maxPages, widthCap);
    }
    if pages != [] { NoneBeyond(pages, limit); }
    if pages != [] && Standard(pages, maxPages, limit).Some? {
      RunsAreMaximal(pages);
      PrintThenParse(pages, widthCap);
    }
  }
}
