// The token stream between llm.ChatStream (pkg/llm/llm.go) and streamSummarize
// (mcp/tool_summarize.go): a bounded channel, a one-slot result channel, cancellation
// and a progress batcher, as interleaved steps.
module TokenStream {
  import opened Wrappers

  const CHANNEL_CAP := 64

  function Join(parts: seq<string>): string {
    if parts == [] then "" else Join(parts[..|parts| - 1]) + parts[|parts| - 1]
  }

  lemma JoinSnoc(parts: seq<string>, x: string)
    ensures Join(parts + [x]) == Join(parts) + x
  {
    assert (parts + [x])[..|parts|] == parts;
  }

  lemma {:induction false} JoinCons(x: string, parts: seq<string>)
    ensures Join([x] + parts) == x + Join(parts)
  {
    if parts == [] {
      assert [x] + parts == [x] && [x][..0] == [];
    } else {
      var init := parts[..|parts| - 1];
      JoinCons(x, init);
      assert [x] + parts == ([x] + init) + [parts[|parts| - 1]];
      JoinSnoc([x] + init, parts[|parts| - 1]);
    }
  }

  // ---- The progress batcher ----

  // pending is the batcher's sb, pushed the notifications it has made.
  datatype Batch = Batch(pushed: seq<string>, pending: string)

  function Flushed(b: Batch): Batch {
    if b.pending == "" then b else Batch(b.pushed + [b.pending], "")
  }

  function Fed(b: Batch, tok: string, due: bool): Batch {
    var b' := b.(pending := b.pending + tok);
    if due then Flushed(b') else b'
  }

  function Shown(b: Batch): string { Join(b.pushed) + b.pending }

  lemma FlushKeeps(b: Batch)
    ensures Shown(Flushed(b)) == Shown(b) && Flushed(b).pending == ""
  {
    if b.pending != "" {
      JoinSnoc(b.pushed, b.pending);
      assert Join(b.pushed + [b.pending]) + "" == Join(b.pushed + [b.pending]);
    }
  }

  lemma FeedAppends(b: Batch, tok: string, due: bool)
    ensures Shown(Fed(b, tok, due)) == Shown(b) + tok
  {
    FlushKeeps(b.(pending := b.pending + tok));
  }

  class ProgressBatcher {
    const interval: int
    var sb: string
    var last: Option<int>
    var pushed: seq<string>

    function State(): Batch
      reads this
    {
      Batch(pushed, sb)
    }

    constructor (interval: int)
      ensures State() == Batch([], "") && last == None && this.interval == interval
    {
      this.interval, sb, last, pushed := interval, "", None, [];
    }

    method Token(tok: string, now: int)
      modifies this
      ensures State() == Fed(old(State()), tok, old(last).None? || now - old(last).value >= interval)
      ensures Shown(State()) == old(Shown(State())) + tok
      ensures old(last).Some? && now - old(last).value < interval ==>
        sb == old(sb) + tok && pushed == old(pushed) && last == old(last)
      ensures old(last).None? || now - old(last).value >= interval ==>
        sb == "" && if old(sb) + tok == "" then pushed == old(pushed) else pushed == old(pushed) + [old(sb) + tok]
      ensures last == old(last) || last == Some(now)
    {
      FeedAppends(State(), tok, last.None? || now - last.value >= interval);
      sb := sb + tok;
      if last.None? || now - last.value >= interval {
        Flush(now);
      }
    }

    method Flush(now: int)
      modifies this
      ensures State() == Flushed(old(State())) && Shown(State()) == old(Shown(State()))
      ensures sb == "" && if old(sb) == "" then pushed == old(pushed) else pushed == old(pushed) + [old(sb)]
      ensures last == if old(sb) == "" then old(last) else Some(now)
    {
      FlushKeeps(State());
      if |sb| == 0 {
        return;
      }
      pushed := pushed + [sb];
      last := Some(now);
      sb := "";
    }
  }

  // ---- The protocol ----

  // A line of the response: one that carries nothing (no "data: " prefix, no JSON, an
  // empty delta), a non-empty delta, or [DONE].
  datatype Line = Other | Delta(text: string) | DoneMark

  datatype Error = Canceled | RequestFailed | ReadFailed

  datatype Producer =
    | Requesting
    | Scanning(i: nat)
    | Sending(i: nat)
    | Closing(err: Option<Error>)
    | Reporting(err: Option<Error>)
    | Stopped(err: Option<Error>)

  // Left: out through ctx.Done. Returned: through the closed channel, with the text and errCh's value.
  datatype Consumer = Receiving | Awaiting | Left | Returned(err: Option<Error>)

  datatype System = System(
    producer: Producer, consumer: Consumer,
    buf: seq<string>, closed: bool, errCh: Option<Option<Error>>,
    canceled: bool, deadline: bool, readErr: bool,
    sent: seq<string>, text: string, batch: Batch)

  const INIT := System(Requesting, Receiving, [], false, None, false, false, false, [], "", Batch([], ""))

  // The producer's ctx is the caller's or one derived from it with a deadline.
  predicate ProducerDone(s: System) { s.canceled || s.deadline }

  datatype Step =
    | Cancel
    | Deadline
    | ReadError       // the scanner has noted an error; lines it has buffered may still come
    | Request(ok: bool)
    | Scan            // Scan() is true: check ctx, look at the line
    | ScanEnds        // Scan() is false at the end of the body
    | ScanFails       // Scan() is false with an error
    | Send
    | SendAborts
    | Close
    | Report
    | Receive(due: bool)
    | SeeClosed
    | Leave
    | Return

  predicate Enabled(lines: seq<Line>, s: System, step: Step) {
    match step
    case Cancel => !s.canceled
    case Deadline => !s.deadline
    case ReadError => !s.readErr && (s.producer.Scanning? || s.producer.Sending?)
    case Request(_) => s.producer.Requesting?
    case Scan => s.producer.Scanning? && s.producer.i < |lines|
    case ScanEnds => s.producer.Scanning? && s.producer.i == |lines| && !s.readErr
    case ScanFails => s.producer.Scanning? && s.readErr
    case Send => s.producer.Sending? && s.producer.i < |lines| && lines[s.producer.i].Delta? && |s.buf| < CHANNEL_CAP
    case SendAborts => s.producer.Sending? && ProducerDone(s)
    case Close => s.producer.Closing?
    case Report => s.producer.Reporting? && s.errCh.None?
    case Receive(_) => s.consumer.Receiving? && s.buf != []
    case SeeClosed => s.consumer.Receiving? && s.buf == [] && s.closed
    case Leave => s.consumer.Receiving? && s.canceled
    case Return => s.consumer.Awaiting? && s.errCh.Some?
  }

  function Apply(lines: seq<Line>, s: System, step: Step): System
    requires Enabled(lines, s, step)
  {
    match step
    case Cancel => s.(canceled := true)
    case Deadline => s.(deadline := true)
    case Request(ok) => s.(producer := if ok then Scanning(0) else Closing(Some(RequestFailed)))
    case ReadError => s.(readErr := true)
    case Scan =>
      var i := s.producer.i;
      s.(producer :=
        if ProducerDone(s) then Closing(Some(Canceled))
        else match lines[i]
          case Other => Scanning(i + 1)
          case Delta(_) => Sending(i)
          case DoneMark => Closing(if s.readErr then Some(ReadFailed) else None))
    case ScanEnds => s.(producer := Closing(None))
    case ScanFails => s.(producer := Closing(Some(ReadFailed)))
    case Send =>
      var tok := lines[s.producer.i].text;
      s.(producer := Scanning(s.producer.i + 1), buf := s.buf + [tok], sent := s.sent + [tok])
    case SendAborts => s.(producer := Closing(Some(Canceled)))
    case Close => s.(producer := Reporting(s.producer.err), closed := true)
    case Report => s.(producer := Stopped(s.producer.err), errCh := Some(s.producer.err))
    case Receive(due) => s.(buf := s.buf[1..], text := s.text + s.buf[0], batch := Fed(s.batch, s.buf[0], due))
    case SeeClosed => s.(consumer := Awaiting, batch := Flushed(s.batch))
    case Leave => s.(consumer := Left)
    case Return => s.(consumer := Returned(s.errCh.value), errCh := None)
  }

  // The deltas of the first n lines, and those of the whole answer: up to [DONE] or the end.
  function Deltas(lines: seq<Line>, n: nat): seq<string>
    requires n <= |lines|
  {
    if n == 0 then []
    else Deltas(lines, n - 1) + (if lines[n - 1].Delta? then [lines[n - 1].text] else [])
  }

  function AnswerEnd(lines: seq<Line>): (n: nat)
    ensures n <= |lines|
    ensures forall k :: 0 <= k < n ==> !lines[k].DoneMark?
    ensures n < |lines| ==> lines[n].DoneMark?
  {
    if lines == [] || lines[0].DoneMark? then 0 else 1 + AnswerEnd(lines[1..])
  }

  function Answer(lines: seq<Line>): seq<string> { Deltas(lines, AnswerEnd(lines)) }

  // ---- The inductive invariant ----

  ghost predicate Ended(lines: seq<Line>, s: System, err: Option<Error>) {
    && (exists n :: 0 <= n <= AnswerEnd(lines) && s.sent == Deltas(lines, n))
    && (err == None ==> s.sent == Answer(lines) && !s.readErr)
    && (err == Some(ReadFailed) ==> s.readErr)
    && (err == Some(Canceled) ==> ProducerDone(s))
  }

  // What has been sent, and why the producer stopped.
  ghost predicate SentInv(lines: seq<Line>, s: System) {
    match s.producer
    case Requesting => s.sent == []
    case Scanning(i) => i <= AnswerEnd(lines) && s.sent == Deltas(lines, i)
    case Sending(i) => i < AnswerEnd(lines) && lines[i].Delta? && s.sent == Deltas(lines, i)
    case Closing(err) => Ended(lines, s, err)
    case Reporting(err) => Ended(lines, s, err)
    case Stopped(err) => Ended(lines, s, err)
  }

  // Every sent token is in the text or on its way, and the batcher has seen the text.
  ghost predicate TextInv(s: System) {
    Join(s.sent) == s.text + Join(s.buf) && Shown(s.batch) == s.text
  }

  ghost predicate ChannelInv(s: System) {
    && |s.buf| <= CHANNEL_CAP
    && (s.closed <==> s.producer.Reporting? || s.producer.Stopped?)
    && (s.errCh.Some? ==> s.producer == Stopped(s.errCh.value))
    && (s.producer.Stopped? && s.errCh.None? ==> s.consumer == Returned(s.producer.err))
  }

  ghost predicate ConsumerInv(s: System) {
    match s.consumer
    case Receiving => true
    case Awaiting => s.closed && s.buf == [] && s.batch.pending == ""
    case Left => s.canceled
    case Returned(err) => s.producer == Stopped(err) && s.buf == [] && s.batch.pending == ""
  }

  ghost predicate Inv(lines: seq<Line>, s: System) {
    SentInv(lines, s) && TextInv(s) && ChannelInv(s) && ConsumerInv(s)
  }

  // Steps after which the producer has decided on its error, having sent the first n lines' deltas.
  lemma EndsWith(lines: seq<Line>, s: System, err: Option<Error>, n: nat)
    requires n <= AnswerEnd(lines) && s.sent == Deltas(lines, n)
    requires err == None ==> n == AnswerEnd(lines) && !s.readErr
    requires err == Some(ReadFailed) ==> s.readErr
    requires err == Some(Canceled) ==> ProducerDone(s)
    ensures Ended(lines, s, err)
  {
  }

  lemma ScanKeepsSent(lines: seq<Line>, s: System, step: Step)
    requires SentInv(lines, s) && Enabled(lines, s, step) && step.Scan?
    ensures SentInv(lines, Apply(lines, s, step))
  {
    var (i, s') := (s.producer.i, Apply(lines, s, step));
    if s'.producer.Closing? { EndsWith(lines, s', s'.producer.err, i); }
  }

  lemma ProducerKeepsSent(lines: seq<Line>, s: System, step: Step)
    requires SentInv(lines, s) && Enabled(lines, s, step)
    requires step.Request? || step.ScanEnds? || step.ScanFails? || step.Send? || step.SendAborts?
    ensures SentInv(lines, Apply(lines, s, step))
  {
    var s' := Apply(lines, s, step);
    if s'.producer.Closing? {
      EndsWith(lines, s', s'.producer.err, if s.producer.Requesting? then 0 else s.producer.i);
    }
  }

  lemma OthersKeepSent(lines: seq<Line>, s: System, step: Step)
    requires SentInv(lines, s) && Enabled(lines, s, step)
    requires !step.Request? && !step.Scan? && !step.ScanEnds? && !step.ScanFails? && !step.Send? && !step.SendAborts?
    ensures SentInv(lines, Apply(lines, s, step))
  {
  }

  lemma StepKeepsSent(lines: seq<Line>, s: System, step: Step)
    requires SentInv(lines, s) && Enabled(lines, s, step)
    ensures SentInv(lines, Apply(lines, s, step))
  {
    match step
    case Scan => ScanKeepsSent(lines, s, step);
    case Request(_) => ProducerKeepsSent(lines, s, step);
    case ScanEnds => ProducerKeepsSent(lines, s, step);
    case ScanFails => ProducerKeepsSent(lines, s, step);
    case Send => ProducerKeepsSent(lines, s, step);
    case SendAborts => ProducerKeepsSent(lines, s, step);
    case _ => OthersKeepSent(lines, s, step);
  }

  lemma ReceiveKeepsText(s: System, due: bool)
    requires TextInv(s) && s.buf != []
    ensures Join(s.sent) == s.text + s.buf[0] + Join(s.buf[1..])
    ensures Shown(Fed(s.batch, s.buf[0], due)) == s.text + s.buf[0]
  {
    JoinCons(s.buf[0], s.buf[1..]);
    assert [s.buf[0]] + s.buf[1..] == s.buf;
    FeedAppends(s.batch, s.buf[0], due);
  }

  lemma SendKeepsText(s: System, tok: string)
    requires TextInv(s)
    ensures Join(s.sent + [tok]) == s.text + Join(s.buf + [tok])
  {
    JoinSnoc(s.sent, tok);
    JoinSnoc(s.buf, tok);
  }

  lemma OthersKeepText(lines: seq<Line>, s: System, step: Step)
    requires TextInv(s) && Enabled(lines, s, step) && !step.Send? && !step.Receive? && !step.SeeClosed?
    ensures TextInv(Apply(lines, s, step))
  {
    var s' := Apply(lines, s, step);
    assert s'.sent == s.sent && s'.text == s.text && s'.buf == s.buf && s'.batch == s.batch;
  }

  lemma StepKeepsText(lines: seq<Line>, s: System, step: Step)
    requires TextInv(s) && Enabled(lines, s, step)
    ensures TextInv(Apply(lines, s, step))
  {
    match step
    case Send => SendKeepsText(s, lines[s.producer.i].text);
    case Receive(due) => ReceiveKeepsText(s, due);
    case SeeClosed => FlushKeeps(s.batch);
    case _ => OthersKeepText(lines, s, step);
  }

  lemma StepKeepsChannel(lines: seq<Line>, s: System, step: Step)
    requires ChannelInv(s) && ConsumerInv(s) && Enabled(lines, s, step)
    ensures ChannelInv(Apply(lines, s, step))
  {
  }

  lemma StepKeepsConsumer(lines: seq<Line>, s: System, step: Step)
    requires ChannelInv(s) && ConsumerInv(s) && Enabled(lines, s, step)
    ensures ConsumerInv(Apply(lines, s, step))
  {
    if step.SeeClosed? { FlushKeeps(s.batch); }
  }

  lemma StepKeepsInv(lines: seq<Line>, s: System, step: Step)
    requires Inv(lines, s) && Enabled(lines, s, step)
    ensures Inv(lines, Apply(lines, s, step))
  {
    StepKeepsSent(lines, s, step);
    StepKeepsText(lines, s, step);
    StepKeepsChannel(lines, s, step);
    StepKeepsConsumer(lines, s, step);
  }

  // ---- Runs ----

  ghost predicate Reaches(lines: seq<Line>, s: System, steps: seq<Step>, t: System)
    decreases |steps|
  {
    if steps == [] then s == t
    else Enabled(lines, s, steps[0]) && Reaches(lines, Apply(lines, s, steps[0]), steps[1..], t)
  }

  lemma {:induction false} RunKeepsInv(lines: seq<Line>, s: System, steps: seq<Step>, t: System)
    requires Inv(lines, s) && Reaches(lines, s, steps, t)
    ensures Inv(lines, t)
    decreases |steps|
  {
    if steps != [] {
      StepKeepsInv(lines, s, steps[0]);
      RunKeepsInv(lines, Apply(lines, s, steps[0]), steps[1..], t);
    }
  }

  // A consumer that leaves through the closed channel has the text of all tokens sent, in
  // order, the producer's final error, and has pushed that same text as progress. A nil
  // error means the text is the model's whole answer; otherwise it is a prefix in whole deltas.
  lemma ReturnedTextIsExact(lines: seq<Line>, steps: seq<Step>, t: System)
    requires Reaches(lines, INIT, steps, t) && t.consumer.Returned?
    ensures t.text == Join(t.sent) == Join(t.batch.pushed)
    ensures t.producer == Stopped(t.consumer.err)
    ensures t.consumer.err == None ==> t.text == Join(Answer(lines))
    ensures exists n :: 0 <= n <= AnswerEnd(lines) && t.text == Join(Deltas(lines, n))
    ensures t.consumer.err == Some(Canceled) ==> ProducerDone(t)
  {
    RunKeepsInv(lines, INIT, steps, t);
    var n :| 0 <= n <= AnswerEnd(lines) && t.sent == Deltas(lines, n);
  }

  predicate Finished(s: System) {
    s.producer.Stopped? && (s.consumer.Left? || s.consumer.Returned?)
  }

  // A step of the producer, or of the consumer, not of their surroundings.
  predicate ProducerStep(step: Step) {
    step.Request? || step.Scan? || step.ScanEnds? || step.ScanFails? || step.Send? || step.SendAborts?
    || step.Close? || step.Report?
  }

  predicate ConsumerStep(step: Step) {
    step.Receive? || step.SeeClosed? || step.Leave? || step.Return?
  }

  function NextProducerStep(lines: seq<Line>, s: System): Step {
    match s.producer
    case Requesting => Request(true)
    case Scanning(i) => if i < |lines| then Scan else if s.readErr then ScanFails else ScanEnds
    case Sending(_) => if ProducerDone(s) then SendAborts else Send
    case Closing(_) => Close
    case _ => Report
  }

  function NextConsumerStep(s: System): Step {
    if s.consumer.Awaiting? then Return
    else if s.canceled then Leave
    else if s.buf != [] then Receive(false)
    else SeeClosed
  }

  // Whatever the interleaving, some side can move until both are finished. Once the call is
  // cancelled the producer never waits for the consumer at all, nor the consumer while it receives.
  lemma NeverStuck(lines: seq<Line>, steps: seq<Step>, t: System)
    requires Reaches(lines, INIT, steps, t) && !Finished(t)
    ensures exists step :: (ProducerStep(step) || ConsumerStep(step)) && Enabled(lines, t, step)
    ensures t.canceled && !t.producer.Stopped? ==> Enabled(lines, t, NextProducerStep(lines, t))
    ensures t.canceled && t.consumer.Receiving? ==> Enabled(lines, t, NextConsumerStep(t))
    ensures t.consumer.Awaiting? && t.producer.Stopped? ==> Enabled(lines, t, Return)
  {
    RunKeepsInv(lines, INIT, steps, t);
    var (p, c) := (NextProducerStep(lines, t), NextConsumerStep(t));
    assert ProducerStep(p) && ConsumerStep(c);
    assert Enabled(lines, t, p) || Enabled(lines, t, c);
  }

  // What the producer and the consumer still have to do, tokens in the channel aside.
  function ProducerWork(n: nat, p: Producer): int {
    match p
    case Requesting => 4 * n + 4
    case Scanning(i) => 4 * (n - i) + 3
    case Sending(i) => 4 * (n - i) + 1
    case Closing(_) => 2
    case Reporting(_) => 1
    case Stopped(_) => 0
  }

  // The flags tell which of the surroundings' steps have happened.
  lemma {:induction false} FlagsTellSteps(lines: seq<Line>, s: System, steps: seq<Step>, t: System)
    requires Reaches(lines, s, steps, t)
    ensures t.canceled <==> s.canceled || Cancel in steps
    ensures t.deadline <==> s.deadline || Deadline in steps
    ensures t.readErr <==> s.readErr || ReadError in steps
    decreases |steps|
  {
    if steps != [] {
      assert steps == [steps[0]] + steps[1..];
      FlagsTellSteps(lines, Apply(lines, s, steps[0]), steps[1..], t);
    }
  }

  // The channel holds 64 tokens and takes one as long as there are fewer; cancellation, deadline
  // and read errors can come at any time they can come at all.
  lemma ChannelTakes64(lines: seq<Line>, steps: seq<Step>, t: System)
    requires Reaches(lines, INIT, steps, t)
    ensures |t.buf| <= 64
    ensures t.producer.Sending? && |t.buf| < 64 ==> Enabled(lines, t, Send)
    ensures Cancel in steps || Enabled(lines, t, Cancel)
    ensures Deadline in steps || Enabled(lines, t, Deadline)
    ensures t.producer.Scanning? || t.producer.Sending? ==> ReadError in steps || Enabled(lines, t, ReadError)
  {
    RunKeepsInv(lines, INIT, steps, t);
    FlagsTellSteps(lines, INIT, steps, t);
  }

  // ---- After cancellation ----

  // A token that the producer holds when it is told to stop.
  function InHand(s: System): nat { if s.producer.Sending? then 1 else 0 }

  lemma DoneStepSends(lines: seq<Line>, s: System, step: Step)
    requires Enabled(lines, s, step) && ProducerDone(s)
    ensures ProducerDone(Apply(lines, s, step))
    ensures |Apply(lines, s, step).sent| + InHand(Apply(lines, s, step)) <= |s.sent| + InHand(s)
  {
  }

  // After a cancellation or the deadline the producer sends at most one more token.
  lemma {:induction false} AtMostOneMore(lines: seq<Line>, s: System, steps: seq<Step>, t: System)
    requires ProducerDone(s) && Reaches(lines, s, steps, t)
    ensures |t.sent| + InHand(t) <= |s.sent| + InHand(s) <= |s.sent| + 1
    decreases |steps|
  {
    if steps != [] {
      DoneStepSends(lines, s, steps[0]);
      AtMostOneMore(lines, Apply(lines, s, steps[0]), steps[1..], t);
    }
  }

  function ConsumerWork(c: Consumer): nat {
    if c.Receiving? then 2 else if c.Awaiting? then 1 else 0
  }

  function Measure(lines: seq<Line>, s: System): int {
    ProducerWork(|lines|, s.producer) + ConsumerWork(s.consumer)
    + |s.buf| + (if s.canceled then 0 else 1) + (if s.deadline then 0 else 1) + (if s.readErr then 0 else 1)
  }

  // A step of the producer takes more from its work than it adds to the channel.
  lemma ProducerWorks(lines: seq<Line>, s: System, step: Step)
    requires SentInv(lines, s) && Enabled(lines, s, step) && ProducerStep(step)
    ensures var s' := Apply(lines, s, step);
      && ProducerWork(|lines|, s'.producer) + |s'.buf| < ProducerWork(|lines|, s.producer) + |s.buf|
      && s'.consumer == s.consumer && s'.canceled == s.canceled && s'.deadline == s.deadline && s'.readErr == s.readErr
  {
  }

  lemma OthersWork(lines: seq<Line>, s: System, step: Step)
    requires Enabled(lines, s, step) && !ProducerStep(step)
    ensures Measure(lines, Apply(lines, s, step)) < Measure(lines, s)
  {
  }

  lemma StepDecreases(lines: seq<Line>, s: System, step: Step)
    requires Inv(lines, s) && Enabled(lines, s, step)
    ensures Measure(lines, Apply(lines, s, step)) < Measure(lines, s)
  {
    if ProducerStep(step) {
      ProducerWorks(lines, s, step);
    } else {
      OthersWork(lines, s, step);
    }
  }

  lemma {:induction false} RunsShrinkMeasure(lines: seq<Line>, s: System, steps: seq<Step>, t: System)
    requires Inv(lines, s) && Reaches(lines, s, steps, t)
    ensures |steps| + Measure(lines, t) <= Measure(lines, s)
    decreases |steps|
  {
    if steps != [] {
      var s' := Apply(lines, s, steps[0]);
      StepKeepsInv(lines, s, steps[0]);
      StepDecreases(lines, s, steps[0]);
      RunsShrinkMeasure(lines, s', steps[1..], t);
    }
  }

  // Every run is short, and one in which neither side can move on has finished on both sides.
  lemma RunsComplete(lines: seq<Line>, steps: seq<Step>, t: System)
    requires Reaches(lines, INIT, steps, t)
    ensures |steps| <= 4 * |lines| + 9
    ensures (forall step :: ProducerStep(step) || ConsumerStep(step) ==> !Enabled(lines, t, step)) ==> Finished(t)
  {
    RunKeepsInv(lines, INIT, steps, t);
    RunsShrinkMeasure(lines, INIT, steps, t);
    if !Finished(t) {
      NeverStuck(lines, steps, t);
    }
  }

  // ---- Every error has its cause ----

  predicate Refused(s: System) {
    (s.producer.Closing? || s.producer.Reporting? || s.producer.Stopped?) && s.producer.err == Some(RequestFailed)
  }

  lemma RefusedByRequest(lines: seq<Line>, s: System, step: Step)
    requires Enabled(lines, s, step)
    ensures Refused(Apply(lines, s, step)) <==> Refused(s) || step == Request(false)
  {
  }

  lemma {:induction false} RefusedTellsRequest(lines: seq<Line>, s: System, steps: seq<Step>, t: System)
    requires Reaches(lines, s, steps, t)
    ensures Refused(t) <==> Refused(s) || Request(false) in steps
    decreases |steps|
  {
    if steps != [] {
      assert steps == [steps[0]] + steps[1..];
      RefusedByRequest(lines, s, steps[0]);
      RefusedTellsRequest(lines, Apply(lines, s, steps[0]), steps[1..], t);
    }
  }

  // A returned error tells what happened in the run, and what would have to be reported is:
  // a refused request always, a read error by anything but nil.
  lemma ErrorsHaveCauses(lines: seq<Line>, steps: seq<Step>, t: System)
    requires Reaches(lines, INIT, steps, t) && t.consumer.Returned?
    ensures t.consumer.err == Some(RequestFailed) <==> Request(false) in steps
    ensures t.consumer.err == Some(ReadFailed) ==> ReadError in steps
    ensures t.consumer.err == Some(Canceled) ==> Cancel in steps || Deadline in steps
    ensures t.consumer.err == None ==> ReadError !in steps && Request(false) !in steps && t.text == Join(Answer(lines))
  {
    RunKeepsInv(lines, INIT, steps, t);
    ReturnedTextIsExact(lines, steps, t);
    FlagsTellSteps(lines, INIT, steps, t);
    RefusedTellsRequest(lines, INIT, steps, t);
  }

  // Without a cancellation the consumer cannot have left.
  lemma QuietRunReturns(lines: seq<Line>, steps: seq<Step>, t: System)
    requires Reaches(lines, INIT, steps, t) && Cancel !in steps
    requires forall step :: ProducerStep(step) || ConsumerStep(step) ==> !Enabled(lines, t, step)
    ensures t.consumer.Returned?
  {
    RunKeepsInv(lines, INIT, steps, t);
    RunsComplete(lines, steps, t);
    FlagsTellSteps(lines, INIT, steps, t);
  }

  // A call that nothing disturbs returns the whole answer without an error.
  lemma CleanRunAnswers(lines: seq<Line>, steps: seq<Step>, t: System)
    requires Reaches(lines, INIT, steps, t)
    requires Cancel !in steps && Deadline !in steps && ReadError !in steps && Request(false) !in steps
    requires forall step :: ProducerStep(step) || ConsumerStep(step) ==> !Enabled(lines, t, step)
    ensures t.consumer == Returned(None) && t.text == Join(Answer(lines)) == Join(t.batch.pushed)
  {
    QuietRunReturns(lines, steps, t);
    ErrorsHaveCauses(lines, steps, t);
    ReturnedTextIsExact(lines, steps, t);
    match t.consumer.err
    case None =>
    case Some(Canceled) =>
    case Some(RequestFailed) =>
    case Some(ReadFailed) =>
  }
}
