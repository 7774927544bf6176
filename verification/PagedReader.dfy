// Paged reading of a saved result by rune offset (mcp/tool_result.go). A shared pair
// (cacheChar, cacheByte) lets a sequential read seek instead of scanning from byte 0.
module PagedReader {
  import opened Wrappers
  import opened Utf8

  const MAX_READ_CHARS := 8192
  const DEFAULT_READ_CHARS := 4096

  function RuneAt(d: seq<byte>, at: nat): (r: Decoded)
    requires at < |d|
    ensures 1 <= r.size && at + r.size <= |d|
  {
    DecodeRune(d[at..])
  }

  // The byte offset n runes after byte `from`; None when the file ends before.
  function Skip(d: seq<byte>, from: nat, n: nat): (r: Option<nat>)
    requires from <= |d|
    ensures r.Some? ==> from + n <= r.value <= |d|
    decreases n
  {
    if n == 0 then Some(from)
    else if from == |d| then None
    else Skip(d, from + RuneAt(d, from).size, n - 1)
  }

  datatype Chunk = Chunk(end: nat, count: nat)

  // The page of at most `limit` runes at byte `from`: its end and its rune count;
  // None when a byte in it is not UTF-8.
  function Collect(d: seq<byte>, from: nat, limit: nat): (r: Option<Chunk>)
    requires from <= |d|
    ensures r.Some? ==> from + r.value.count <= r.value.end <= |d| && r.value.count <= limit
    ensures r.Some? && r.value.end < |d| ==> r.value.count == limit
    decreases limit
  {
    if limit == 0 || from == |d| then Some(Chunk(from, 0))
    else if RuneAt(d, from) == INVALID then None
    else match Collect(d, from + RuneAt(d, from).size, limit - 1)
      case None => None
      case Some(p) => Some(Chunk(p.end, p.count + 1))
  }

  datatype Result =
    | Page(content: seq<byte>, offset: nat, nextOffset: nat, eof: bool)
    | OffsetInvalid
    | Unavailable
    | BeyondEnd

  // The read that starts at byte `start`, already known to be `offset` runes in.
  function PageAt(d: seq<byte>, start: Option<nat>, offset: nat, limit: nat): Result
    requires start.Some? ==> start.value <= |d|
  {
    if start.None? then BeyondEnd
    else match Collect(d, start.value, limit)
      case None => Unavailable
      case Some(p) => Page(d[start.value..p.end], offset, offset + p.count, p.end == |d|)
  }

  // The reference: scan from byte 0, no cache.
  function Scan(d: seq<byte>, offset: nat, limit: nat): Result {
    PageAt(d, Skip(d, 0, offset), offset, limit)
  }

  // cacheChar, cacheByte of one issued file; `data` is the file behind the reference.
  datatype ResultFile = ResultFile(data: seq<byte>, expires: int, cacheChar: nat, cacheByte: nat)

  predicate IsBoundary(d: seq<byte>, chars: nat, bytes: nat) {
    Skip(d, 0, chars) == Some(bytes)
  }

  predicate PairOk(f: ResultFile) { IsBoundary(f.data, f.cacheChar, f.cacheByte) }

  function StartOf(f: ResultFile, offset: nat): Option<nat> {
    if offset == f.cacheChar then Some(f.cacheByte) else Skip(f.data, 0, offset)
  }

  // What a reader holding this entry answers and, unless at the end, caches.
  function CachedRead(f: ResultFile, offset: nat, limit: nat): Result
    requires PairOk(f)
  {
    PageAt(f.data, StartOf(f, offset), offset, limit)
  }

  // The pair behind the page at byte `start`; none at the end or on an error.
  function PairAt(d: seq<byte>, start: nat, offset: nat, limit: nat): Option<(nat, nat)>
    requires start <= |d|
  {
    match Collect(d, start, limit)
    case None => None
    case Some(p) => if p.end == |d| then None else Some((offset + p.count, p.end))
  }

  function NewPair(f: ResultFile, offset: nat, limit: nat): Option<(nat, nat)>
    requires PairOk(f)
  {
    if StartOf(f, offset).None? then None else PairAt(f.data, StartOf(f, offset).value, offset, limit)
  }

  function Recached(f: ResultFile, pair: Option<(nat, nat)>): ResultFile {
    match pair
    case None => f
    case Some(p) => f.(cacheChar := p.0, cacheByte := p.1)
  }

  lemma SkipOne(d: seq<byte>, from: nat, n: nat)
    requires from < |d| && n > 0
    ensures Skip(d, from, n) == Skip(d, from + RuneAt(d, from).size, n - 1)
  {
  }

  lemma {:induction false} SkipAdds(d: seq<byte>, from: nat, m: nat, n: nat)
    requires from <= |d| && Skip(d, from, m).Some?
    ensures Skip(d, from, m + n) == Skip(d, Skip(d, from, m).value, n)
    decreases m
  {
    if m > 0 {
      SkipOne(d, from, m);
      SkipOne(d, from, m + n);
      SkipAdds(d, from + RuneAt(d, from).size, m - 1, n);
    }
  }

  // A page ends as many runes on as it counts.
  lemma {:induction false} CollectIsSkip(d: seq<byte>, from: nat, limit: nat)
    requires from <= |d| && Collect(d, from, limit).Some?
    ensures var p := Collect(d, from, limit).value; Skip(d, from, p.count) == Some(p.end)
    decreases limit
  {
    if limit > 0 && from < |d| {
      CollectIsSkip(d, from + RuneAt(d, from).size, limit - 1);
      SkipOne(d, from, Collect(d, from, limit).value.count);
    }
  }

  lemma NewPairIsBoundary(d: seq<byte>, offset: nat, start: nat, limit: nat)
    requires Skip(d, 0, offset) == Some(start) && Collect(d, start, limit).Some?
    ensures IsBoundary(d, offset + Collect(d, start, limit).value.count, Collect(d, start, limit).value.end)
  {
    SkipAdds(d, 0, offset, Collect(d, start, limit).value.count);
    CollectIsSkip(d, start, limit);
  }

  // What a read from a known start is made of.
  lemma PageAtParts(d: seq<byte>, start: nat, offset: nat, limit: nat)
    requires start <= |d|
    ensures PageAt(d, Some(start), offset, limit) == match Collect(d, start, limit)
      case None => Unavailable
      case Some(p) => Page(d[start..p.end], offset, offset + p.count, p.end == |d|)
  {
  }

  // The pair is where the page that was answered ends.
  lemma PairIsEndOfPage(d: seq<byte>, start: nat, offset: nat, limit: nat)
    requires start <= |d|
    ensures PairAt(d, start, offset, limit) == match PageAt(d, Some(start), offset, limit)
      case Page(content, _, next, eof) => if eof then None else Some((next, start + |content|))
      case _ => None
  {
    PageAtParts(d, start, offset, limit);
  }

  lemma PairIsBoundary(d: seq<byte>, offset: nat, start: nat, limit: nat)
    requires Skip(d, 0, offset) == Some(start) && PairAt(d, start, offset, limit).Some?
    ensures IsBoundary(d, PairAt(d, start, offset, limit).value.0, PairAt(d, start, offset, limit).value.1)
  {
    NewPairIsBoundary(d, offset, start, limit);
  }

  // Seek or scan, the answer is that of the uncached scan, and the pair a read leaves
  // is again a rune boundary: the one at which the next page starts.
  lemma CachedReadIsScan(f: ResultFile, offset: nat, limit: nat)
    requires PairOk(f)
    ensures CachedRead(f, offset, limit) == Scan(f.data, offset, limit)
    ensures NewPair(f, offset, limit).Some? ==>
      IsBoundary(f.data, NewPair(f, offset, limit).value.0, NewPair(f, offset, limit).value.1)
  {
    assert StartOf(f, offset) == Skip(f.data, 0, offset);
    if NewPair(f, offset, limit).Some? {
      PairIsBoundary(f.data, offset, StartOf(f, offset).value, limit);
    }
  }

  // After a page that is not the last, the next read finds its start cached.
  lemma NextReadSeeks(f: ResultFile, offset: nat, limit: nat)
    requires PairOk(f) && CachedRead(f, offset, limit).Page? && !CachedRead(f, offset, limit).eof
    ensures var (f', next) := (Recached(f, NewPair(f, offset, limit)), CachedRead(f, offset, limit).nextOffset);
      f'.cacheChar == next && Some(f'.cacheByte) == Skip(f.data, 0, next)
  {
    CachedReadIsScan(f, offset, limit);
    PairIsEndOfPage(f.data, StartOf(f, offset).value, offset, limit);
  }

  // ---- The errors, exactly ----

  function RuneCount(d: seq<byte>, from: nat): nat
    requires from <= |d|
    decreases |d| - from
  {
    if from == |d| then 0 else 1 + RuneCount(d, from + RuneAt(d, from).size)
  }

  lemma {:induction false} SkipFailsPastEnd(d: seq<byte>, from: nat, n: nat)
    requires from <= |d|
    ensures Skip(d, from, n).None? <==> n > RuneCount(d, from)
    decreases n
  {
    if n > 0 && from < |d| { SkipFailsPastEnd(d, from + RuneAt(d, from).size, n - 1); }
  }

  // Rune k of the page at `from` exists and is not well-formed UTF-8.
  predicate BadRune(d: seq<byte>, from: nat, k: nat)
    requires from <= |d|
  {
    Skip(d, from, k).Some? && Skip(d, from, k).value < |d| && RuneAt(d, Skip(d, from, k).value) == INVALID
  }

  lemma BadRuneShifts(d: seq<byte>, from: nat, k: nat)
    requires from < |d|
    ensures BadRune(d, from, k + 1) == BadRune(d, from + RuneAt(d, from).size, k)
  {
  }

  ghost predicate HasBadRune(d: seq<byte>, from: nat, limit: nat)
    requires from <= |d|
  {
    exists k :: 0 <= k < limit && BadRune(d, from, k)
  }

  lemma BadRuneLater(d: seq<byte>, from: nat, limit: nat)
    requires from < |d| && limit > 0 && RuneAt(d, from) != INVALID
    ensures HasBadRune(d, from, limit) == HasBadRune(d, from + RuneAt(d, from).size, limit - 1)
  {
    var next := from + RuneAt(d, from).size;
    if k :| 0 <= k < limit - 1 && BadRune(d, next, k) {
      BadRuneShifts(d, from, k);
      assert BadRune(d, from, k + 1);
    }
    if k :| 0 <= k < limit && BadRune(d, from, k) {
      assert k > 0;
      BadRuneShifts(d, from, k - 1);
      assert BadRune(d, next, k - 1);
    }
  }

  lemma {:induction false} CollectFailsOnBadRune(d: seq<byte>, from: nat, limit: nat)
    requires from <= |d|
    ensures Collect(d, from, limit).None? <==> HasBadRune(d, from, limit)
    decreases limit
  {
    if limit > 0 && from < |d| {
      if RuneAt(d, from) == INVALID {
        assert BadRune(d, from, 0);
      } else {
        CollectFailsOnBadRune(d, from + RuneAt(d, from).size, limit - 1);
        BadRuneLater(d, from, limit);
      }
    }
  }

  // BeyondEnd exactly past the last rune; Unavailable exactly when the page holds an ill-formed rune.
  lemma ErrorsExactly(d: seq<byte>, offset: nat, limit: nat)
    ensures Scan(d, offset, limit) == BeyondEnd <==> offset > RuneCount(d, 0)
    ensures Scan(d, offset, limit) == Unavailable <==>
      Skip(d, 0, offset).Some? && HasBadRune(d, Skip(d, 0, offset).value, limit)
    ensures Scan(d, offset, limit) != OffsetInvalid
  {
    SkipFailsPastEnd(d, 0, offset);
    if Skip(d, 0, offset).Some? {
      CollectFailsOnBadRune(d, Skip(d, 0, offset).value, limit);
    }
  }

  // ---- Reading a whole document ----

  predicate WellFormed(d: seq<byte>, from: nat)
    requires from <= |d|
    decreases |d| - from
  {
    from == |d| || (RuneAt(d, from) != INVALID && WellFormed(d, from + RuneAt(d, from).size))
  }

  lemma {:induction false} WellFormedCollects(d: seq<byte>, from: nat, limit: nat)
    requires from <= |d| && WellFormed(d, from)
    ensures Collect(d, from, limit).Some? && WellFormed(d, Collect(d, from, limit).value.end)
    decreases limit
  {
    if limit > 0 && from < |d| { WellFormedCollects(d, from + RuneAt(d, from).size, limit - 1); }
  }

  lemma ScanParts(d: seq<byte>, offset: nat, limit: nat, start: nat)
    requires Skip(d, 0, offset) == Some(start) && Collect(d, start, limit).Some?
    ensures var p := Collect(d, start, limit).value;
      Scan(d, offset, limit) == Page(d[start..p.end], offset, offset + p.count, p.end == |d|)
  {
  }

  // A page of a valid document, by where it starts and ends.
  lemma PageOfValid(d: seq<byte>, offset: nat, limit: nat, start: nat)
    requires Skip(d, 0, offset) == Some(start) && WellFormed(d, start)
    ensures Collect(d, start, limit).Some?
    ensures var p := Collect(d, start, limit).value;
      && Scan(d, offset, limit) == Page(d[start..p.end], offset, offset + p.count, p.end == |d|)
      && Skip(d, 0, offset + p.count) == Some(p.end) && WellFormed(d, p.end)
  {
    WellFormedCollects(d, start, limit);
    ScanParts(d, offset, limit, start);
    NewPairIsBoundary(d, offset, start, limit);
  }

  // On a valid document a page always comes, and unless it is the last it moves on.
  lemma PageMovesOn(d: seq<byte>, offset: nat, limit: nat)
    requires limit > 0
    requires Skip(d, 0, offset).Some? && WellFormed(d, Skip(d, 0, offset).value)
    ensures var (page, start) := (Scan(d, offset, limit), Skip(d, 0, offset).value);
      && page.Page?
      && var next := Skip(d, 0, page.nextOffset);
         && next.Some? && next.value >= start && WellFormed(d, next.value) && page.content == d[start..next.value]
         && (page.eof <==> next.value == |d|)
         && (!page.eof ==> next.value > start)
  {
    var start := Skip(d, 0, offset).value;
    PageOfValid(d, offset, limit, start);
    var p := Collect(d, start, limit).value;
    assert Scan(d, offset, limit) == Page(d[start..p.end], offset, offset + p.count, p.end == |d|);
    assert p.end < |d| ==> p.count == limit;
  }

  lemma SlicesJoin(d: seq<byte>, a: nat, b: nat)
    requires a <= b <= |d|
    ensures d[a..b] + d[b..] == d[a..]
  {
  }

  // A page and everything behind it are everything from its start on.
  lemma PageThenRest(d: seq<byte>, offset: nat, limit: nat)
    requires limit > 0
    requires Skip(d, 0, offset).Some? && WellFormed(d, Skip(d, 0, offset).value)
    ensures var page := Scan(d, offset, limit);
      && page.Page? && Skip(d, 0, page.nextOffset).Some?
      && page.content + d[Skip(d, 0, page.nextOffset).value..] == d[Skip(d, 0, offset).value..]
      && (page.eof ==> page.content == d[Skip(d, 0, offset).value..])
  {
    PageMovesOn(d, offset, limit);
    var (start, next) := (Skip(d, 0, offset).value, Skip(d, 0, Scan(d, offset, limit).nextOffset).value);
    SlicesJoin(d, start, next);
    if next == |d| { assert d[start..next] == d[start..]; }
  }

  // The pages a client receives that follows next_offset from `offset` to eof,
  // asking for limits(o) runes at offset o. Each step moves on, so it ends.
  ghost function Follow(d: seq<byte>, limits: nat -> nat, offset: nat): seq<Result>
    requires forall o :: limits(o) > 0
    requires Skip(d, 0, offset).Some? && WellFormed(d, Skip(d, 0, offset).value)
    decreases |d| - Skip(d, 0, offset).value
  {
    PageMovesOn(d, offset, limits(offset));
    var page := Scan(d, offset, limits(offset));
    if page.eof then [page] else [page] + Follow(d, limits, page.nextOffset)
  }

  function Contents(pages: seq<Result>): seq<byte> {
    if pages == [] then []
    else (if pages[0].Page? then pages[0].content else []) + Contents(pages[1..])
  }

  lemma ContentsCons(page: Result, rest: seq<Result>)
    requires page.Page?
    ensures Contents([page] + rest) == page.content + Contents(rest)
  {
    assert ([page] + rest)[1..] == rest;
  }

  lemma {:induction false} FollowReadsRest(d: seq<byte>, limits: nat -> nat, offset: nat)
    requires forall o :: limits(o) > 0
    requires Skip(d, 0, offset).Some? && WellFormed(d, Skip(d, 0, offset).value)
    ensures Contents(Follow(d, limits, offset)) == d[Skip(d, 0, offset).value..]
    decreases |d| - Skip(d, 0, offset).value
  {
    var page := Scan(d, offset, limits(offset));
    PageMovesOn(d, offset, limits(offset));
    PageThenRest(d, offset, limits(offset));
    if page.eof {
      ContentsCons(page, []);
      assert [page] + [] == [page];
      assert page.content + Contents([]) == page.content;
    } else {
      FollowReadsRest(d, limits, page.nextOffset);
      ContentsCons(page, Follow(d, limits, page.nextOffset));
    }
  }

  // Following next_offset from 0 delivers a valid UTF-8 document whole and once.
  lemma FollowReadsWhole(d: seq<byte>, limits: nat -> nat)
    requires WellFormed(d, 0) && forall o :: limits(o) > 0
    ensures Contents(Follow(d, limits, 0)) == d
  {
    FollowReadsRest(d, limits, 0);
  }

  function Shift(r: Option<Chunk>, n: nat): Option<Chunk> {
    match r
    case None => None
    case Some(p) => Some(Chunk(p.end, p.count + n))
  }

  lemma CollectUnrolls(d: seq<byte>, at: nat, limit: nat, n: nat)
    requires at < |d| && limit > 0
    ensures RuneAt(d, at) == INVALID ==> Collect(d, at, limit).None?
    ensures RuneAt(d, at) != INVALID ==>
      Shift(Collect(d, at, limit), n) == Shift(Collect(d, at + RuneAt(d, at).size, limit - 1), n + 1)
  {
  }

  // `body` is d[base..at], `count` runes of a page whose rest is the page of `left` runes at `at`.
  ghost predicate Copied(d: seq<byte>, base: nat, at: nat, left: nat, body: seq<byte>, count: nat,
        goal: Option<Chunk>) {
    && base <= at == base + |body| <= |d| && body == d[base..at]
    && goal == Shift(Collect(d, at, left), count)
  }

  lemma RewritesBytes(d: seq<byte>, base: nat, at: nat)
    requires base <= at < |d| && RuneAt(d, at) != INVALID
    ensures d[base..at] + EncodeRune(RuneAt(d, at).rune) == d[base..at + RuneAt(d, at).size]
  {
    EncodeOfDecode(d[at..]);
    assert d[at..][..RuneAt(d, at).size] == d[at..at + RuneAt(d, at).size];
  }

  // ---- The Go code ----

  // resultFiles, whose entries are values that are replaced under the lock.
  class ResultFiles {
    var files: map<string, ResultFile>

    ghost predicate Valid()
      reads this
    {
      forall r :: r in files ==> PairOk(files[r])
    }

    constructor ()
      ensures Valid() && files == map[]
    {
      files := map[];
    }

    // resultFileNotice: purge what has expired, then register with the pair (0, 0).
    method Issue(ref: string, data: seq<byte>, expires: int, now: int)
      requires Valid()
      modifies this
      ensures Valid()
      ensures var kept := map r | r in old(files) && now < old(files)[r].expires :: old(files)[r];
        files == kept[ref := ResultFile(data, expires, 0, 0)]
    {
      files := (map r | r in files && now < files[r].expires :: files[r])[ref := ResultFile(data, expires, 0, 0)];
    }

    // The scan loop: `offset` runes are read and counted, ill-formed ones too.
    method SkipRunes(d: seq<byte>, offset: nat) returns (r: Option<nat>)
      ensures r == Skip(d, 0, offset)
    {
      var consumed: nat := 0;
      var i: nat := 0;
      while i < offset
        invariant i <= offset && consumed <= |d|
        invariant Skip(d, 0, offset) == Skip(d, consumed, offset - i)
      {
        if consumed == |d| {
          return None;
        }
        consumed := consumed + RuneAt(d, consumed).size;
        i := i + 1;
      }
      r := Some(consumed);
    }

    // One turn of the body loop: read a rune, refuse an ill-formed one, write it.
    method CopyRune(d: seq<byte>, ghost base: nat, at: nat, left: nat, body: seq<byte>, count: nat,
          ghost goal: Option<Chunk>)
      returns (ok: bool, body': seq<byte>, at': nat, count': nat)
      requires left > 0 && at < |d| && Copied(d, base, at, left, body, count, goal)
      ensures !ok ==> goal.None?
      ensures ok ==> Copied(d, base, at', left - 1, body', count', goal)
    {
      var rune := RuneAt(d, at);
      CollectUnrolls(d, at, left, count);
      ok, body', at', count' := false, [], at, count;
      if rune != INVALID {
        RewritesBytes(d, base, at);
        ok, body', at', count' := true, body + EncodeRune(rune.rune), at + rune.size, count + 1;
      }
    }

    // The body loop: runes are copied until the limit or the end.
    method CollectRunes(d: seq<byte>, base: nat, limit: nat) returns (ok: bool, body: seq<byte>, count: nat)
      requires base <= |d|
      ensures ok <==> Collect(d, base, limit).Some?
      ensures ok ==> Collect(d, base, limit) == Some(Chunk(base + |body|, count)) && body == d[base..base + |body|]
    {
      ghost var goal := Collect(d, base, limit);
      ok, body, count := true, [], 0;
      var at: nat, left: nat := base, limit;
      while left > 0 && at < |d|
        invariant ok && Copied(d, base, at, left, body, count, goal)
      {
        ok, body, at, count := CopyRune(d, base, at, left, body, count, goal);
        if !ok {
          return;
        }
        left := left - 1;
      }
    }

    // Seek to the cached byte, or scan.
    method FindStart(file: ResultFile, offset: nat) returns (start: Option<nat>)
      requires PairOk(file)
      ensures start == StartOf(file, offset) == Skip(file.data, 0, offset)
    {
      if offset == file.cacheChar {
        return Some(file.cacheByte);
      }
      start := SkipRunes(file.data, offset);
    }

    // The page from a known start, and the pair behind it.
    method ReadFrom(d: seq<byte>, start: nat, offset: nat, want: nat) returns (result: Result, pair: Option<(nat, nat)>)
      requires start <= |d|
      ensures result == PageAt(d, Some(start), offset, want)
      ensures pair == PairAt(d, start, offset, want)
    {
      pair := None;
      PageAtParts(d, start, offset, want);
      var ok, body, count := CollectRunes(d, start, want);
      if !ok {
        return Unavailable, None;
      }
      var end := start + |body|;
      if end != |d| {
        pair := Some((offset + count, end));
      }
      result := Page(body, offset, offset + count, end == |d|);
    }

    // The reading half of readSavedResult: the answer, and the pair to cache unless at the end.
    method ReadPage(file: ResultFile, offset: nat, want: nat) returns (result: Result, pair: Option<(nat, nat)>)
      requires PairOk(file)
      ensures result == CachedRead(file, offset, want)
      ensures pair == NewPair(file, offset, want)
    {
      pair := None;
      var start := FindStart(file, offset);
      if start.None? {
        return BeyondEnd, None;
      }
      result, pair := ReadFrom(file.data, start.value, offset, want);
    }

    // readSavedResult. `intact` says that the path still leads to the file that was issued.
    method ReadSavedResult(ref: string, offset: int, limit: int, now: int, intact: bool) returns (result: Result)
      requires Valid()
      modifies this
      ensures Valid()
      ensures offset < 0 || limit < 0 || limit > 8192 ==> result == OffsetInvalid && files == old(files)
      ensures 0 <= offset && 0 <= limit <= 8192 ==>
        if ref !in old(files) || now >= old(files)[ref].expires || !intact
        then result == Unavailable && files == old(files)
        else
          var (file, want) := (old(files)[ref], if limit == 0 then 4096 else limit);
          && result == Scan(file.data, offset, want)
          && files == old(files)[ref := Recached(file, NewPair(file, offset, want))]
    {
      if offset < 0 || limit < 0 || limit > MAX_READ_CHARS {
        return OffsetInvalid;
      }
      var want := if limit == 0 then DEFAULT_READ_CHARS else limit;
      if ref !in files || now >= files[ref].expires || !intact {
        return Unavailable;
      }
      var file := files[ref];
      var pair;
      result, pair := ReadPage(file, offset, want);
      CachedReadIsScan(file, offset, want);
      if pair.Some? {
        files := files[ref := file.(cacheChar := pair.value.0, cacheByte := pair.value.1)];
      }
    }
  }
}
