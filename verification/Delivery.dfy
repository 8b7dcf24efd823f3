/** Scan, channel, queues and database together: what happens to every message, across crashes. */
module Deliveries {
  import opened Numbers
  import opened Types
  import opened SerialSubmitters

  /**
   * `scan` is the processor's position.  `sent`, `rejected` and `lost` describe the run since the
   * last crash, `log` lists every index the submitter ever took from its queue, oldest first.
   */
  datatype State = State(
    processed: set<u32>,
    scan: nat,
    channel: seq<Item>,
    queues: Queues,
    stopped: bool,
    sent: seq<u32>,
    rejected: set<u32>,
    lost: set<u32>,
    log: seq<u32>)

  const NEW_RUN := Queues([], [])

  datatype Step =
    | PassProcessed
    | Reject
    | Send
    | Submit(world: World)
    | Crash

  /** Sending works only while the submitter holds its end of the channel. */
  predicate Enabled(s: State, step: Step) {
    match step
    case PassProcessed => s.scan <= U32_MAX && s.scan in s.processed
    case Reject => s.scan <= U32_MAX && s.scan !in s.processed
    case Send => s.scan <= U32_MAX && s.scan !in s.processed && !s.stopped
    case Submit(_) => !s.stopped
    case Crash => true
  }

  function Do(s: State, step: Step): State
    requires Enabled(s, step)
  {
    match step
    case PassProcessed => s.(scan := s.scan + 1)
    case Reject => s.(scan := s.scan + 1, rejected := s.rejected + {s.scan})
    case Send => s.(scan := s.scan + 1, sent := s.sent + [s.scan], channel := s.channel + [Item(s.scan, 0)])
    case Submit(w) => Submitted(s, TickQueues(s.queues, s.channel, w))
    case Crash => State(s.processed, 0, [], NEW_RUN, false, [], {}, {}, s.log)
  }

  /** The state after a tick: a failed tick ends the submitter, and drops the message it had taken. */
  function Submitted(s: State, tick: (Queues, Report)): State {
    var (queues, report) := tick;
    var marked := if report.marked.Some? then {report.marked.value} else {};
    var taken := if report.popped.Some? then [report.popped.value.leafIndex] else [];
    s.(queues := queues, channel := [],
       processed := s.processed + marked,
       stopped := !report.ok,
       lost := if report.ok || report.popped.None? then s.lost else s.lost + {report.popped.value.leafIndex},
       log := s.log + taken)
  }

  // The invariant

  /** Everything on its way to the destination chain, in the order in which it will be tried. */
  function Queued(s: State): seq<Item> {
    s.queues.wait + s.channel + s.queues.run
  }

  ghost predicate Distinct(items: seq<Item>) {
    forall i, j :: 0 <= i < j < |items| ==> items[i].leafIndex != items[j].leafIndex
  }

  ghost predicate Has(items: seq<Item>, i: u32) {
    exists m :: m in items && m.leafIndex == i
  }

  /** Queued messages are there once, were sent in this run, and are neither processed nor lost. */
  ghost predicate QueuesMatch(s: State) {
    && Distinct(Queued(s))
    && forall m :: m in Queued(s) ==> m.leafIndex in s.sent && m.leafIndex !in s.processed && m.leafIndex !in s.lost
  }

  /** Everything sent is queued, processed or lost; only a stopped submitter has lost anything. */
  ghost predicate SentMatches(s: State) {
    && (forall i :: i in s.sent ==> i < s.scan && (Has(Queued(s), i) || i in s.processed || i in s.lost))
    && (forall i, j :: 0 <= i < j < |s.sent| ==> s.sent[i] < s.sent[j])
    && (forall i :: i in s.lost ==> i in s.sent && i !in s.processed)
    && (s.lost != {} ==> s.stopped)
  }

  /** Every index already scanned is processed, was sent, or was rejected. */
  ghost predicate ScanMatches(s: State) {
    forall i: u32 :: i < s.scan ==> i in s.processed || i in s.sent || i in s.rejected
  }

  ghost predicate Inv(s: State) {
    QueuesMatch(s) && SentMatches(s) && ScanMatches(s)
  }

  lemma SendKeepsInv(s: State)
    requires Inv(s) && Enabled(s, Send)
    ensures Inv(Do(s, Send))
  {
    var s' := Do(s, Send);
    var new_ := Item(s.scan, 0);
    forall m ensures m in Queued(s') <==> m in Queued(s) || m == new_ {
    }
    QueueWithNew(s.queues.wait, s.channel, s.queues.run, new_);
    forall i | 0 <= i < |s.sent| ensures s'.sent[i] < s.scan {
      assert s.sent[i] in s.sent;
    }
    forall i | i in s.sent && Has(Queued(s), i) ensures Has(Queued(s'), i) {
      var m :| m in Queued(s) && m.leafIndex == i;
      assert m in Queued(s');
    }
  }

  lemma QueueWithNew(wait: seq<Item>, channel: seq<Item>, run: seq<Item>, x: Item)
    requires Distinct(wait + channel + run)
    requires forall m :: m in wait + channel + run ==> m.leafIndex != x.leafIndex
    ensures Distinct(wait + (channel + [x]) + run)
  {
    var items := wait + (channel + [x]) + run;
    var n := |wait| + |channel|;
    assert wait + channel + run == items[..n] + items[n + 1..];
    forall i, j | 0 <= i < j < |items| ensures items[i].leafIndex != items[j].leafIndex {
      var rest := items[..n] + items[n + 1..];
      if i == n {
        assert items[j] == rest[j - 1];
      } else if j == n {
        assert items[i] == rest[i];
      } else {
        assert items[i] == rest[if i < n then i else i - 1];
        assert items[j] == rest[if j < n then j else j - 1];
      }
    }
  }

  /** What a tick that reaches its queue does, seen as one list. */
  lemma TickOnQueued(s: State, w: World)
    requires !w.disconnected
    ensures var s' := Submitted(s, TickQueues(s.queues, s.channel, w));
            Queued(s') == Attempt(Queued(s), w).0.run && s' == Submitted(s, Attempt(Queued(s), w))
  {
    var (q, _) := Attempt(Queued(s), w);
    assert q.wait + [] + q.run == q.run;
  }

  lemma PopDistinct(items: seq<Item>)
    requires Distinct(items) && |items| > 0
    ensures Distinct(items[1..])
    ensures forall m :: m in items <==> m == items[0] || m in items[1..]
    ensures forall m :: m in items[1..] ==> m.leafIndex != items[0].leafIndex
  {
    assert items == [items[0]] + items[1..];
  }

  lemma PushDistinct(items: seq<Item>, x: Item)
    requires Distinct(items) && forall m :: m in items ==> m.leafIndex != x.leafIndex
    ensures Distinct(items + [x])
    ensures forall m :: m in items + [x] <==> m in items || m == x
  {
    forall i | 0 <= i < |items| ensures items[i].leafIndex != x.leafIndex {
      assert items[i] in items;
    }
  }

  /** The queues after an attempt hold the rest, and the attempted message again if it failed. */
  lemma AttemptKeepsDistinct(items: seq<Item>, w: World)
    requires Distinct(items) && |items| > 0
    ensures var (q, report) := Attempt(items, w);
            && Distinct(q.run)
            && report.popped == Some(items[0])
            && (forall m :: m in q.run ==> m in items[1..] || m.leafIndex == items[0].leafIndex)
            && (report.marked.Some? || !report.ok ==> q.run == items[1..])
            && (report.marked.Some? ==> report.marked == Some(items[0].leafIndex) && report.ok)
  {
    PopDistinct(items);
    PushDistinct(items[1..], items[0].(retries := items[0].retries + 1));
  }

  /** A message that leaves the queues is marked or lost; one that fails returns under its index. */
  lemma SubmitKeepsQueues(s: State, w: World)
    requires Inv(s) && !s.stopped && !w.disconnected && |Queued(s)| > 0
    ensures QueuesMatch(Do(s, Submit(w)))
  {
    var items := Queued(s);
    TickOnQueued(s, w);
    AttemptKeepsDistinct(items, w);
    var s' := Do(s, Submit(w));
    forall m | m in Queued(s')
      ensures m.leafIndex in s.sent && m.leafIndex !in s'.processed && m.leafIndex !in s'.lost
    {
      OnItsWay(s, w, m);
    }
  }

  /** A tick settles the message at the front or none; one that it settles is not queued any more. */
  lemma TickSettles(s: State, w: World) returns (settled: set<u32>)
    requires Distinct(Queued(s)) && !s.stopped && !w.disconnected && |Queued(s)| > 0
    ensures var items, s' := Queued(s), Do(s, Submit(w));
            && s'.sent == s.sent && s'.processed <= s.processed + settled && s'.lost <= s.lost + settled
            && settled <= {items[0].leafIndex}
            && (forall m :: m in Queued(s') ==> m in items[1..] || m.leafIndex == items[0].leafIndex)
            && (settled != {} ==> Queued(s') == items[1..])
  {
    var items := Queued(s);
    TickOnQueued(s, w);
    AttemptKeepsDistinct(items, w);
    var report := Attempt(items, w).1;
    settled := if report.marked.Some? || !report.ok then {items[0].leafIndex} else {};
  }

  /** What is queued after a tick was queued before, and the tick did not settle it. */
  lemma OnItsWay(s: State, w: World, m: Item)
    requires QueuesMatch(s) && !s.stopped && !w.disconnected && |Queued(s)| > 0 && m in Queued(Do(s, Submit(w)))
    ensures var s' := Do(s, Submit(w));
            m.leafIndex in s.sent && m.leafIndex !in s'.processed && m.leafIndex !in s'.lost
  {
    var items := Queued(s);
    var settled := TickSettles(s, w);
    PopDistinct(items);
    assert items[0] in items;
    if m in items[1..] {
      assert m in items && m.leafIndex !in settled;
    }
  }

  lemma SubmitKeepsSent(s: State, w: World)
    requires Inv(s) && !s.stopped && !w.disconnected && |Queued(s)| > 0
    ensures SentMatches(Do(s, Submit(w)))
  {
    var items := Queued(s);
    var s' := Do(s, Submit(w));
    TickOnQueued(s, w);
    PopDistinct(items);
    forall i | i in s.sent && Has(items, i) && i !in s'.processed && i !in s'.lost ensures Has(Queued(s'), i) {
      StillQueued(s, w, i);
    }
  }

  /** Whatever was queued and is neither marked nor lost now is queued still. */
  lemma StillQueued(s: State, w: World, i: u32)
    requires !s.stopped && !w.disconnected && |Queued(s)| > 0 && Has(Queued(s), i)
    requires var s' := Do(s, Submit(w)); i !in s'.processed && i !in s'.lost
    ensures Has(Queued(Do(s, Submit(w))), i)
  {
    var items := Queued(s);
    var s' := Do(s, Submit(w));
    TickOnQueued(s, w);
    var m :| m in items && m.leafIndex == i;
    if m == items[0] {
      var again := items[0].(retries := items[0].retries + 1);
      assert Queued(s') == items[1..] + [again] && again in Queued(s');
    } else {
      assert m in items[1..] && m in Queued(s');
    }
  }

  lemma QueuedWereSent(s: State)
    requires QueuesMatch(s)
    ensures |Queued(s)| > 0 ==> |s.sent| > 0
  {
    if |Queued(s)| > 0 {
      assert Queued(s)[0] in Queued(s);
      assert Queued(s)[0].leafIndex in s.sent;
    }
  }

  /** A tick that finds the channel closed, or nothing to do, moves nothing out of the queues. */
  lemma IdleTickKeepsInv(s: State, w: World)
    requires Inv(s) && !s.stopped && (w.disconnected || |Queued(s)| == 0)
    ensures Inv(Do(s, Submit(w)))
  {
    var s' := Do(s, Submit(w));
    assert Queued(s') == Queued(s);
  }

  lemma StepKeepsInv(s: State, step: Step)
    requires Inv(s) && Enabled(s, step)
    ensures Inv(Do(s, step))
  {
    match step
    case PassProcessed =>
    case Reject =>
    case Send => SendKeepsInv(s);
    case Submit(w) =>
      if w.disconnected || |Queued(s)| == 0 {
        IdleTickKeepsInv(s, w);
      } else {
        SubmitKeepsQueues(s, w);
        SubmitKeepsSent(s, w);
      }
    case Crash =>
  }

  // Whole runs, crashes included

  const INITIAL := State({}, 0, [], NEW_RUN, false, [], {}, {}, [])

  ghost predicate IsRun(ss: seq<State>, steps: seq<Step>) {
    && |ss| == |steps| + 1
    && ss[0] == INITIAL
    && forall i :: 0 <= i < |steps| ==> Enabled(ss[i], steps[i]) && ss[i + 1] == Do(ss[i], steps[i])
  }

  /**
   * Accounting: in every reachable state each scanned index is processed, was sent exactly once in
   * this run, or was rejected; and everything sent is queued exactly once, processed, or was lost
   * by the tick that stopped the submitter, without being marked.
   */
  lemma {:induction false} EveryMessageIsAccountedFor(ss: seq<State>, steps: seq<Step>)
    requires IsRun(ss, steps)
    ensures Inv(ss[|steps|])
  {
    if |steps| > 0 {
      var n := |steps| - 1;
      EveryMessageIsAccountedFor(ss[..n + 1], steps[..n]);
      StepKeepsInv(ss[n], steps[n]);
    }
  }

  /** No tick takes up a message that is marked as processed, and no mark is ever taken back. */
  lemma StepSparesProcessed(s: State, step: Step, i: u32)
    requires Inv(s) && Enabled(s, step) && i in s.processed
    ensures i in Do(s, step).processed
    ensures Do(s, step).log == s.log
         || exists j :: j != i && Do(s, step).log == s.log + [j]
  {
    if step.Submit? && !step.world.disconnected && |Queued(s)| > 0 {
      TickOnQueued(s, step.world);
      assert Queued(s)[0] in Queued(s);
      assert Do(s, step).log == s.log + [Queued(s)[0].leafIndex];
    } else if step.Submit? {
      assert s.log + [] == s.log;
    }
  }

  /**
   * Commit is final: once an index is marked as processed, no later tick attempts it, whatever
   * crashes come between.
   */
  lemma {:induction false} CommitIsFinal(ss: seq<State>, steps: seq<Step>, a: nat, i: u32)
    requires IsRun(ss, steps) && a <= |steps| && i in ss[a].processed
    ensures i in ss[|steps|].processed
    ensures ss[a].log <= ss[|steps|].log && i !in ss[|steps|].log[|ss[a].log|..]
  {
    if a < |steps| {
      var n := |steps| - 1;
      CommitIsFinal(ss[..n + 1], steps[..n], a, i);
      EveryMessageIsAccountedFor(ss[..n + 1], steps[..n]);
      StepSparesProcessed(ss[n], steps[n], i);
    }
  }

  /** Only a tick that commits marks anything, and it marks what it has just taken. */
  lemma MarkNeedsCommit(s: State, step: Step, i: u32)
    requires Enabled(s, step) && i !in s.processed && i in Do(s, step).processed
    ensures step.Submit? && Commits(step.world) && Do(s, step).log == s.log + [i]
  {
    if step.Submit? {
      MarksWhatWasDelivered(s.queues, s.channel, step.world);
    }
  }

  /**
   * Every mark was earned: on every run, an index that is marked as processed was taken by a tick
   * in which the destination chain had the message and the mark was written.
   */
  lemma {:induction false} EveryMarkWasEarned(ss: seq<State>, steps: seq<Step>, i: u32) returns (a: nat)
    requires IsRun(ss, steps) && i in ss[|steps|].processed
    ensures a < |steps| && steps[a].Submit? && Commits(steps[a].world)
    ensures ss[a + 1].log == ss[a].log + [i] && i !in ss[a].processed
  {
    a := 0;
    if |steps| > 0 {
      var n := |steps| - 1;
      if i in ss[n].processed {
        a := EveryMarkWasEarned(ss[..n + 1], steps[..n], i);
      } else {
        MarkNeedsCommit(ss[n], steps[n], i);
        a := n;
      }
    }
  }

  // The queues of every run are the two lanes

  /** What waits or is in the channel was never tried, and the run queue is the two lanes. */
  ghost predicate LanesMatch(s: State, l: Lanes) {
    InLanes(s.queues.run, l) && forall m :: m in s.queues.wait + s.channel ==> m.retries == 0
  }

  lemma StepKeepsLanes(s: State, step: Step, l: Lanes) returns (l': Lanes)
    requires Enabled(s, step) && LanesMatch(s, l)
    ensures LanesMatch(Do(s, step), l')
  {
    l' := l;
    match step
    case PassProcessed =>
    case Reject =>
    case Send =>
    case Submit(w) =>
      if !w.disconnected {
        TickKeepsLanes(s.queues, l, s.channel, w);
        l' := LaneAttempt(Lanes(s.queues.wait + s.channel + l.untried, l.retried), w);
      }
    case Crash => l' := Lanes([], []);
  }

  /** On every run, crashes included, the run queue is untried messages followed by failed ones. */
  lemma {:induction false} EveryRunKeepsLanes(ss: seq<State>, steps: seq<Step>) returns (l: Lanes)
    requires IsRun(ss, steps)
    ensures LanesMatch(ss[|steps|], l)
  {
    if |steps| == 0 {
      l := Lanes([], []);
    } else {
      var n := |steps| - 1;
      l := EveryRunKeepsLanes(ss[..n + 1], steps[..n]);
      l := StepKeepsLanes(ss[n], steps[n], l);
    }
  }
}
