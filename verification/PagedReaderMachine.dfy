// Any number of concurrent readers of mcp/tool_result.go racing to update the pairs.
// A read takes the lock twice: to copy its entry, and to write the pair back.
module PagedReaderMachine {
  import opened Wrappers
  import opened Utf8
  import opened PagedReader

  datatype Reader =
    | Holding(ref: string, file: ResultFile, offset: nat, limit: nat)
    | Finished(ref: string, offset: nat, limit: nat, intact: bool, result: Result)

  // issued: what file each reference was created for.
  datatype System = System(files: map<string, ResultFile>, issued: map<string, seq<byte>>, readers: map<nat, Reader>)

  datatype Step =
    | Issue(ref: string, data: seq<byte>, expires: int, now: int)
    | Load(pid: nat, ref: string, offset: nat, limit: nat, now: int)
    | Finish(pid: nat, intact: bool)
    | Abort(pid: nat)

  const INIT := System(map[], map[], map[])

  // A reference is 16 random bytes: one that was issued before does not come again.
  predicate Enabled(s: System, step: Step) {
    match step
    case Issue(ref, _, _, _) => ref !in s.issued
    case Load(pid, ref, _, _, now) => pid !in s.readers && ref in s.files && now < s.files[ref].expires
    case Finish(pid, _) => pid in s.readers && s.readers[pid].Holding?
    case Abort(pid) => pid in s.readers && s.readers[pid].Holding?
  }

  predicate ReaderInv(s: System, r: Reader) {
    match r
    case Holding(ref, file, _, _) => PairOk(file) && ref in s.issued && s.issued[ref] == file.data
    case Finished(ref, offset, limit, intact, result) =>
      ref in s.issued && result == if intact then Scan(s.issued[ref], offset, limit) else Unavailable
  }

  predicate Inv(s: System) {
    && (forall r :: r in s.files ==> PairOk(s.files[r]) && r in s.issued && s.files[r].data == s.issued[r])
    && (forall p :: p in s.readers ==> ReaderInv(s, s.readers[p]))
  }

  function Apply(s: System, step: Step): System
    requires Enabled(s, step) && Inv(s)
  {
    match step
    case Issue(ref, data, expires, now) =>
      var kept := map r | r in s.files && now < s.files[r].expires :: s.files[r];
      s.(files := kept[ref := ResultFile(data, expires, 0, 0)],
         issued := s.issued[ref := data])
    case Load(pid, ref, offset, limit, _) =>
      s.(readers := s.readers[pid := Holding(ref, s.files[ref], offset, limit)])
    case Finish(pid, intact) =>
      var r := s.readers[pid];
      assert ReaderInv(s, r);
      var result := if intact then CachedRead(r.file, r.offset, r.limit) else Unavailable;
      var pair := if intact then NewPair(r.file, r.offset, r.limit) else None;
      // the pair goes to the entry as it is now, whatever other readers wrote meanwhile
      s.(readers := s.readers[pid := Finished(r.ref, r.offset, r.limit, intact, result)],
         files := if r.ref in s.files && s.files[r.ref].expires == r.file.expires
                  then s.files[r.ref := Recached(s.files[r.ref], pair)] else s.files)
    case Abort(pid) => s.(readers := s.readers - {pid})
  }

  lemma RecachedIsOk(current: ResultFile, held: ResultFile, offset: nat, limit: nat)
    requires PairOk(current) && PairOk(held) && current.data == held.data
    ensures PairOk(Recached(current, NewPair(held, offset, limit)))
    ensures Recached(current, NewPair(held, offset, limit)).data == current.data
  {
    CachedReadIsScan(held, offset, limit);
  }

  lemma FinishKeepsFiles(s: System, step: Step)
    requires Inv(s) && Enabled(s, step) && step.Finish?
    ensures var s' := Apply(s, step);
      s'.issued == s.issued
      && forall r :: r in s'.files ==> PairOk(s'.files[r]) && r in s.issued && s'.files[r].data == s.issued[r]
  {
    var r := s.readers[step.pid];
    assert ReaderInv(s, r);
    if r.ref in s.files { RecachedIsOk(s.files[r.ref], r.file, r.offset, r.limit); }
  }

  lemma FinishKeepsInv(s: System, step: Step)
    requires Inv(s) && Enabled(s, step) && step.Finish?
    ensures Inv(Apply(s, step))
  {
    var r := s.readers[step.pid];
    assert ReaderInv(s, r);
    FinishKeepsFiles(s, step);
    CachedReadIsScan(r.file, r.offset, r.limit);
    var s' := Apply(s, step);
    forall p | p in s'.readers ensures ReaderInv(s', s'.readers[p]) {
      if p != step.pid { assert ReaderInv(s, s.readers[p]); }
    }
  }

  lemma StepKeepsInv(s: System, step: Step)
    requires Inv(s) && Enabled(s, step)
    ensures Inv(Apply(s, step))
  {
    if step.Finish? {
      FinishKeepsInv(s, step);
    }
  }

  ghost predicate Reaches(s: System, steps: seq<Step>, t: System)
    requires Inv(s)
    decreases |steps|
  {
    if steps == [] then s == t
    else Enabled(s, steps[0]) && (StepKeepsInv(s, steps[0]); Reaches(Apply(s, steps[0]), steps[1..], t))
  }

  lemma {:induction false} RunKeepsInv(s: System, steps: seq<Step>, t: System)
    requires Inv(s) && Reaches(s, steps, t)
    ensures Inv(t)
    decreases |steps|
  {
    if steps != [] {
      StepKeepsInv(s, steps[0]);
      RunKeepsInv(Apply(s, steps[0]), steps[1..], t);
    }
  }

  // A reference is never issued twice, so one that has left the table does not come back.
  lemma {:induction false} GoneStaysGone(s: System, steps: seq<Step>, t: System, ref: string)
    requires Inv(s) && Reaches(s, steps, t) && ref in s.issued && ref !in s.files
    ensures ref !in t.files
    decreases |steps|
  {
    if steps != [] {
      StepKeepsInv(s, steps[0]);
      GoneStaysGone(Apply(s, steps[0]), steps[1..], t, ref);
    }
  }

  // In every interleaving each stored pair is a rune boundary, and each finished read
  // answered as an uncached scan of the file its reference was issued for.
  lemma {:induction false} EveryReadIsAScan(s: System, steps: seq<Step>, t: System)
    requires Inv(s) && Reaches(s, steps, t)
    ensures forall r :: r in t.files ==> IsBoundary(t.files[r].data, t.files[r].cacheChar, t.files[r].cacheByte)
    ensures forall p :: p in t.readers && t.readers[p].Finished? && t.readers[p].intact ==>
      t.readers[p].ref in t.issued
      && t.readers[p].result == Scan(t.issued[t.readers[p].ref], t.readers[p].offset, t.readers[p].limit)
    ensures forall r :: r in s.issued ==> r in t.issued && t.issued[r] == s.issued[r]
    decreases |steps|
  {
    if steps == [] {
      forall p | p in t.readers ensures ReaderInv(t, t.readers[p]) {}
    } else {
      StepKeepsInv(s, steps[0]);
      EveryReadIsAScan(Apply(s, steps[0]), steps[1..], t);
    }
  }

  lemma AllRuns(steps: seq<Step>, t: System)
    requires Reaches(INIT, steps, t)
    ensures forall r :: r in t.files ==> IsBoundary(t.files[r].data, t.files[r].cacheChar, t.files[r].cacheByte)
    ensures forall p :: p in t.readers && t.readers[p].Finished? && t.readers[p].intact ==>
      t.readers[p].ref in t.issued
      && t.readers[p].result == Scan(t.issued[t.readers[p].ref], t.readers[p].offset, t.readers[p].limit)
  {
    EveryReadIsAScan(INIT, steps, t);
  }

  // ---- What a run's reads and entries come from ----

  // Some step issued the reference for this file, and a later one took the entry up for this
  // reader before the expiry time set then.
  ghost predicate ReadInTime(done: seq<Step>, pid: nat, ref: string, offset: nat, limit: nat, data: seq<byte>) {
    exists i, j :: 0 <= i < j < |done|
      && done[i].Issue? && done[i].ref == ref && done[i].data == data
      && done[j].Load? && done[j].pid == pid && done[j].ref == ref && done[j].offset == offset
      && done[j].limit == limit && done[j].now < done[i].expires
  }

  ghost predicate WasIssued(done: seq<Step>, ref: string, file: ResultFile) {
    exists i :: 0 <= i < |done| && done[i].Issue?
      && done[i].ref == ref && done[i].data == file.data && done[i].expires == file.expires
  }

  ghost predicate Traced(done: seq<Step>, s: System) {
    && (forall r :: r in s.files ==> WasIssued(done, r, s.files[r]))
    && (forall p :: p in s.readers ==>
          var r := s.readers[p];
          r.ref in s.issued && ReadInTime(done, p, r.ref, r.offset, r.limit, s.issued[r.ref]))
  }

  lemma StillInTime(done: seq<Step>, step: Step, pid: nat, r: Reader, data: seq<byte>)
    requires ReadInTime(done, pid, r.ref, r.offset, r.limit, data)
    ensures ReadInTime(done + [step], pid, r.ref, r.offset, r.limit, data)
  {
    var i, j :| 0 <= i < j < |done|
      && done[i].Issue? && done[i].ref == r.ref && done[i].data == data
      && done[j].Load? && done[j].pid == pid && done[j].ref == r.ref && done[j].offset == r.offset
      && done[j].limit == r.limit && done[j].now < done[i].expires;
    var all := done + [step];
    assert all[i] == done[i] && all[j] == done[j];
  }

  lemma StillIssued(done: seq<Step>, step: Step, ref: string, file: ResultFile)
    requires WasIssued(done, ref, file)
    ensures WasIssued(done + [step], ref, file)
  {
    var i :| 0 <= i < |done| && done[i].Issue?
      && done[i].ref == ref && done[i].data == file.data && done[i].expires == file.expires;
    assert (done + [step])[i] == done[i];
  }

  lemma StepTracesFiles(done: seq<Step>, s: System, step: Step)
    requires Inv(s) && Traced(done, s) && Enabled(s, step)
    ensures forall r :: r in Apply(s, step).files ==> WasIssued(done + [step], r, Apply(s, step).files[r])
  {
    var (s', all) := (Apply(s, step), done + [step]);
    forall r | r in s'.files ensures WasIssued(all, r, s'.files[r]) {
      if step.Issue? && r == step.ref {
        assert all[|done|] == step;
      } else {
        StillIssued(done, step, r, s.files[r]);
      }
    }
  }

  lemma LoadIsInTime(done: seq<Step>, s: System, step: Step)
    requires Inv(s) && Traced(done, s) && Enabled(s, step) && step.Load?
    ensures ReadInTime(done + [step], step.pid, step.ref, step.offset, step.limit, s.issued[step.ref])
  {
    var (file, all) := (s.files[step.ref], done + [step]);
    assert WasIssued(done, step.ref, file);
    var i :| 0 <= i < |done| && done[i].Issue?
      && done[i].ref == step.ref && done[i].data == file.data && done[i].expires == file.expires;
    assert all[i] == done[i] && all[|done|] == step;
  }

  lemma StepTraces(done: seq<Step>, s: System, step: Step)
    requires Inv(s) && Traced(done, s) && Enabled(s, step)
    ensures Traced(done + [step], Apply(s, step))
  {
    StepTracesFiles(done, s, step);
    StepKeepsInv(s, step);
    var (s', all) := (Apply(s, step), done + [step]);
    forall p | p in s'.readers
      ensures var r := s'.readers[p];
        r.ref in s'.issued && ReadInTime(all, p, r.ref, r.offset, r.limit, s'.issued[r.ref])
    {
      assert ReaderInv(s', s'.readers[p]);
      if step.Load? && p == step.pid {
        LoadIsInTime(done, s, step);
      } else {
        assert ReaderInv(s, s.readers[p]);
        StillInTime(done, step, p, s.readers[p], s.issued[s.readers[p].ref]);
      }
    }
  }

  lemma {:induction false} RunIsTraced(done: seq<Step>, s: System, steps: seq<Step>, t: System)
    requires Inv(s) && Traced(done, s) && Reaches(s, steps, t)
    ensures Traced(done + steps, t)
    decreases |steps|
  {
    if steps == [] {
      assert done + steps == done;
    } else {
      StepTraces(done, s, steps[0]);
      StepKeepsInv(s, steps[0]);
      RunIsTraced(done + [steps[0]], Apply(s, steps[0]), steps[1..], t);
      assert done + [steps[0]] + steps[1..] == done + steps;
    }
  }

  // Whatever a run's reader answered, it took its entry up before the expiry time the
  // reference was issued with, and an intact read is a scan of the file it was issued for.
  lemma ReadsAreInTime(steps: seq<Step>, t: System, pid: nat)
    requires Reaches(INIT, steps, t) && pid in t.readers && t.readers[pid].Finished?
    ensures var r := t.readers[pid];
      exists data :: ReadInTime(steps, pid, r.ref, r.offset, r.limit, data)
        && r.result == if r.intact then Scan(data, r.offset, r.limit) else Unavailable
  {
    RunIsTraced([], INIT, steps, t);
    assert [] + steps == steps;
    EveryReadIsAScan(INIT, steps, t);
    RunKeepsInv(INIT, steps, t);
    var r := t.readers[pid];
    assert ReaderInv(t, r);
    assert ReadInTime(steps, pid, r.ref, r.offset, r.limit, t.issued[r.ref]);
  }

  // An entry keeps its file and its expiry time, and leaves the table at the first issue of
  // another reference that comes at or after that time, not before.
  lemma {:induction false} EntryLives(s: System, steps: seq<Step>, t: System, ref: string)
    requires Inv(s) && Reaches(s, steps, t) && ref in s.files
    ensures ref in t.files <==> forall i :: 0 <= i < |steps| && steps[i].Issue? ==> steps[i].now < s.files[ref].expires
    ensures ref in t.files ==> t.files[ref].data == s.files[ref].data && t.files[ref].expires == s.files[ref].expires
    decreases |steps|
  {
    if steps != [] {
      var (step, rest) := (steps[0], steps[1..]);
      StepKeepsInv(s, step);
      var s' := Apply(s, step);
      assert steps == [step] + rest;
      if ref in s'.files {
        EntryLives(s', rest, t, ref);
      } else {
        GoneStaysGone(s', rest, t, ref);
      }
    }
  }

  // What an Issue leaves under its reference.
  lemma IssuedIsHeld(s: System, step: Step)
    requires Inv(s) && Enabled(s, step) && step.Issue?
    ensures step.ref in Apply(s, step).files
    ensures Apply(s, step).files[step.ref].data == step.data && Apply(s, step).files[step.ref].expires == step.expires
  {
  }

  // After an intact page before eof of an entry that is still there, its pair stands at the
  // page's next offset, so that the read that follows seeks; any other outcome leaves all
  // pairs alone.
  lemma FinishLeavesNext(s: System, pid: nat, intact: bool)
    requires Inv(s) && Enabled(s, Finish(pid, intact)) && s.readers[pid].ref in s.files
    requires s.files[s.readers[pid].ref].expires == s.readers[pid].file.expires
    ensures var (r, s') := (s.readers[pid], Apply(s, Finish(pid, intact)));
      pid in s'.readers && s'.readers[pid].Finished?
      && var result := s'.readers[pid].result;
         if intact && result.Page? && !result.eof then
           r.ref in s'.files && s'.files[r.ref].cacheChar == result.nextOffset
           && Skip(s'.files[r.ref].data, 0, result.nextOffset) == Some(s'.files[r.ref].cacheByte)
           && s'.files == s.files[r.ref := s'.files[r.ref]]
         else s'.files == s.files
  {
    var r := s.readers[pid];
    assert ReaderInv(s, r);
    CachedReadIsScan(r.file, r.offset, r.limit);
    if intact && CachedRead(r.file, r.offset, r.limit).Page? && !CachedRead(r.file, r.offset, r.limit).eof {
      NextReadSeeks(r.file, r.offset, r.limit);
    }
  }

  // ---- A client among others ----

  // The finished reads `pids` of one reference follow each other's next_offset from `offset` to eof.
  ghost predicate Follows(t: System, ref: string, pids: seq<nat>, offset: nat)
    decreases |pids|
  {
    && pids != [] && pids[0] in t.readers && t.readers[pids[0]].Finished?
    && var r := t.readers[pids[0]];
       && r.ref == ref && r.intact && r.offset == offset && r.limit > 0 && r.result.Page?
       && if r.result.eof then |pids| == 1 else Follows(t, ref, pids[1..], r.result.nextOffset)
  }

  function ContentOf(t: System, pid: nat): seq<byte> {
    if pid in t.readers && t.readers[pid].Finished? && t.readers[pid].result.Page?
    then t.readers[pid].result.content else []
  }

  function Received(t: System, pids: seq<nat>): seq<byte> {
    if pids == [] then [] else ContentOf(t, pids[0]) + Received(t, pids[1..])
  }

  lemma ReceivedCons(t: System, pids: seq<nat>)
    requires pids != []
    ensures Received(t, pids) == ContentOf(t, pids[0]) + Received(t, pids[1..])
  {
  }

  ghost predicate AllScans(t: System) {
    forall p :: p in t.readers && t.readers[p].Finished? && t.readers[p].intact ==>
      t.readers[p].ref in t.issued
      && t.readers[p].result == Scan(t.issued[t.readers[p].ref], t.readers[p].offset, t.readers[p].limit)
  }

  lemma {:induction false} FollowingReadsRest(t: System, ref: string, pids: seq<nat>, offset: nat)
    requires AllScans(t) && ref in t.issued && Follows(t, ref, pids, offset)
    requires Skip(t.issued[ref], 0, offset).Some? && WellFormed(t.issued[ref], Skip(t.issued[ref], 0, offset).value)
    ensures Received(t, pids) == t.issued[ref][Skip(t.issued[ref], 0, offset).value..]
    decreases |pids|
  {
    var (d, r) := (t.issued[ref], t.readers[pids[0]]);
    PageMovesOn(d, offset, r.limit);
    PageThenRest(d, offset, r.limit);
    ReceivedCons(t, pids);
    if r.result.eof {
      assert Received(t, pids[1..]) == [] && r.result.content + [] == r.result.content;
    } else {
      FollowingReadsRest(t, ref, pids[1..], r.result.nextOffset);
    }
  }

  // In every interleaving with other readers, a client that follows next_offset from 0 to eof
  // receives the valid UTF-8 document its reference was issued for, whole and once.
  lemma FollowingReadsWhole(steps: seq<Step>, t: System, ref: string, pids: seq<nat>)
    requires Reaches(INIT, steps, t) && ref in t.issued && WellFormed(t.issued[ref], 0)
    requires Follows(t, ref, pids, 0)
    ensures Received(t, pids) == t.issued[ref]
  {
    AllRuns(steps, t);
    FollowingReadsRest(t, ref, pids, 0);
  }

  // The finished reads `pids` of one reference, from `offset` on, each of a positive limit and
  // each but the last a page before eof that the next one continues.
  ghost predicate Continues(t: System, ref: string, pids: seq<nat>, offset: nat)
    decreases |pids|
  {
    && pids != [] && pids[0] in t.readers && t.readers[pids[0]].Finished?
    && var r := t.readers[pids[0]];
       && r.ref == ref && r.intact && r.offset == offset && r.limit > 0
       && (|pids| > 1 ==> r.result.Page? && !r.result.eof && Continues(t, ref, pids[1..], r.result.nextOffset))
  }

  lemma RuneLeft(d: seq<byte>, n: nat, at: nat)
    requires Skip(d, 0, n) == Some(at) && at < |d|
    ensures n < RuneCount(d, 0)
  {
    SkipAdds(d, 0, n, 1);
    assert Skip(d, at, 1).Some?;
    SkipFailsPastEnd(d, 0, n + 1);
  }

  // A page before eof moves on, and there is a rune left behind it.
  lemma PageLeavesRunes(d: seq<byte>, offset: nat, limit: nat)
    requires limit > 0 && Scan(d, offset, limit).Page? && !Scan(d, offset, limit).eof
    ensures offset < Scan(d, offset, limit).nextOffset < RuneCount(d, 0)
  {
    var start := Skip(d, 0, offset).value;
    var p := Collect(d, start, limit).value;
    ScanParts(d, offset, limit, start);
    NewPairIsBoundary(d, offset, start, limit);
    RuneLeft(d, offset + p.count, p.end);
  }

  lemma {:induction false} ContinuingIsShort(t: System, ref: string, pids: seq<nat>, offset: nat)
    requires AllScans(t) && ref in t.issued && Continues(t, ref, pids, offset)
    ensures |pids| == 1 || |pids| <= RuneCount(t.issued[ref], 0) - offset
    decreases |pids|
  {
    if |pids| > 1 {
      var (d, r) := (t.issued[ref], t.readers[pids[0]]);
      PageLeavesRunes(d, offset, r.limit);
      ContinuingIsShort(t, ref, pids[1..], r.result.nextOffset);
    }
  }

  // Following next_offset ends, whatever the other readers do and whatever bytes the file
  // has: no client gets to make more reads from 0 than the file has runes, or one.
  lemma FollowingEnds(steps: seq<Step>, t: System, ref: string, pids: seq<nat>)
    requires Reaches(INIT, steps, t) && ref in t.issued && Continues(t, ref, pids, 0)
    ensures |pids| <= if RuneCount(t.issued[ref], 0) > 1 then RuneCount(t.issued[ref], 0) else 1
  {
    AllRuns(steps, t);
    ContinuingIsShort(t, ref, pids, 0);
  }

  // The chains of FollowingReadsWhole are among those.
  lemma {:induction false} FollowsContinues(t: System, ref: string, pids: seq<nat>, offset: nat)
    requires Follows(t, ref, pids, offset)
    ensures Continues(t, ref, pids, offset)
    decreases |pids|
  {
    if !t.readers[pids[0]].result.eof { FollowsContinues(t, ref, pids[1..], t.readers[pids[0]].result.nextOffset); }
  }
}
