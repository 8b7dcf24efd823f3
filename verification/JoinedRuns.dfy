/**
 * The whole relayer as one machine: the indexers write by write, fetcher, processor and submitter on
 * one store.  The processor of the pipeline and the scan of the delivery accounting move together.
 */
module JoinedRuns {
  import opened Numbers
  import opened Hashing
  import opened Types
  import opened Codec
  import opened AbacusDBs
  import SerialSubmitters
  import P = Pipelines
  import D = Deliveries
  import S = IndexingSafety
  import X = Indexers
  import Q = Multisigs

  function Indices(sent: seq<P.SubmitArgs>): seq<u32> {
    seq(|sent|, i requires 0 <= i < |sent| => sent[i].leafIndex)
  }

  ghost predicate Related(p: P.State, d: D.State) {
    d.scan == p.leafIndex && d.processed == p.records.processed && d.sent == Indices(p.sent)
  }

  predicate IsScanMove(step: D.Step) {
    step.PassProcessed? || step.Reject? || step.Send?
  }

  lemma SendIsScanMove(g: P.Config, p: P.State, d: D.State)
    requires P.Inv(g, p) && P.Enabled(p, P.Process) && p.pc.Send? && Related(p, d) && !d.stopped
    ensures D.Enabled(d, D.Send) && Related(P.Do(g, p, P.Process), D.Do(d, D.Send))
    ensures P.Do(g, p, P.Process).sent != p.sent
  {
    P.SendDelivers(g, p);
    var p' := P.Do(g, p, P.Process);
    assert Indices(p'.sent) == Indices(p'.sent[..|p.sent|]) + [p.leafIndex];
  }

  /** Every move of the processor is a move of the scan, or none at all. */
  lemma ProcessorMoves(g: P.Config, p: P.State, d: D.State) returns (move: Option<D.Step>)
    requires P.Inv(g, p) && P.Enabled(p, P.Process) && Related(p, d) && (p.pc.Send? ==> !d.stopped)
    ensures var p' := P.Do(g, p, P.Process);
            match move
            case None => Related(p', d)
            case Some(step) =>
              && IsScanMove(step) && D.Enabled(d, step) && Related(p', D.Do(d, step))
              && (step.Send? <==> p'.sent != p.sent)
              && (step.Reject? ==>
                    && MessageAt(p.records, p.leafIndex).Some?
                    && ParseCommitted(MessageAt(p.records, p.leafIndex).value).Some?
                    && var m := ParseCommitted(MessageAt(p.records, p.leafIndex).value).value.message;
                       m.destination != g.inbox || !g.whitelisted(m) || g.blacklisted(m))
  {
    move := None;
    if p.pc == P.Scan {
      if p.leafIndex in p.records.processed {
        move := Some(D.PassProcessed);
      } else if P.Decide(g, p.records, p.leafIndex).Skip? {
        move := Some(D.Reject);
      }
    } else if p.pc.Send? {
      move := Some(D.Send);
      SendIsScanMove(g, p, d);
    }
  }

  /** What was sent can be marked. */
  lemma SentCanBeMarked(p: P.State, d: D.State, i: u32)
    requires Related(p, d) && i in d.sent
    ensures P.Enabled(p, P.MarkProcessed(i))
  {
    var j :| 0 <= j < |d.sent| && d.sent[j] == i;
    assert p.sent[j] in p.sent;
  }

  /** What a tick of the submitter marks, if anything, was sent. */
  lemma MarksWhatWasSent(d: D.State, w: SerialSubmitters.World) returns (i: u32)
    requires D.Inv(d) && !d.stopped
    ensures var d' := D.Do(d, D.Submit(w));
            && d'.scan == d.scan && d'.sent == d.sent
            && (d'.processed == d.processed || (i in d.sent && d'.processed == d.processed + {i}))
  {
    i := 0;
    var items := D.Queued(d);
    if !w.disconnected && |items| > 0 {
      D.TickOnQueued(d, w);
      assert items[0] in items;
      i := items[0].leafIndex;
    }
  }

  /** What the submitter marks was sent, so the pipeline allows the mark. */
  lemma SubmitterMarks(g: P.Config, p: P.State, d: D.State, w: SerialSubmitters.World)
    requires P.Inv(g, p) && D.Inv(d) && Related(p, d) && !d.stopped
    ensures var d' := D.Do(d, D.Submit(w));
            Related(p, d')
            || exists i: u32 :: P.Enabled(p, P.MarkProcessed(i)) && Related(P.Do(g, p, P.MarkProcessed(i)), d')
  {
    var d' := D.Do(d, D.Submit(w));
    var i := MarksWhatWasSent(d, w);
    if d'.processed != d.processed {
      SentCanBeMarked(p, d, i);
      assert Related(P.Do(g, p, P.MarkProcessed(i)), d');
    }
  }

  // All components as one machine

  /** The inbox, the chain the outbox is on, and the indexer's settings. */
  datatype World = World(g: P.Config, chain: S.Chain, configFrom: u32, chunk: u32)

  /** The processor with the store, the submitter, and the indexer. */
  datatype Relayer = Relayer(p: P.State, d: D.State, x: X.Indexer)

  datatype RelayerStep =
    | Poll(tip: Option<u32>, fetched: Option<seq<RawCommittedMessage>>)
    | StoreNext
    | StoreCursor
    | WriteGas(records: Records)
    | Fetch(checkpoint: Checkpoint)
    | Move
    | SendFails
    | Deliver(outcome: SerialSubmitters.World)
    | CrashAll

  ghost predicate Sound(w: World) {
    S.WellFormed(w.chain)
  }

  /** The records differ in gas payments and in their cursor at most. */
  predicate GasOnly(rs: Records, other: Records) {
    other == rs.(gas := other.gas, paid := other.paid, gasBlock := other.gasBlock)
  }

  predicate CanMove(s: Relayer) {
    P.Enabled(s.p, P.Process) && (s.p.pc.Send? ==> !s.d.stopped)
  }

  /** The provider answers a poll as it likes, with true messages of the window it was asked for. */
  ghost predicate Possible(w: World, s: Relayer, step: RelayerStep)
    requires Sound(w)
  {
    match step
    case Poll(tip, fetched) => s.x.phase.Idle? && S.Answers(w.chain, w.chunk, s.x.from, tip, fetched)
    case StoreNext => X.HasNextMessage(s.x)
    case StoreCursor => X.AllStored(s.x)
    case WriteGas(rs) => GasOnly(s.p.records, rs)
    case Fetch(c) => P.Enabled(s.p, P.Fetch(c))
    case Move => CanMove(s)
    case SendFails => s.p.pc.Send? && s.d.stopped
    case Deliver(_) => !s.d.stopped
    case CrashAll => true
  }

  /** What a step does to each component; the submitter's move belongs to the processor's. */
  ghost predicate Next(w: World, s: Relayer, step: RelayerStep, s': Relayer)
    requires Sound(w) && Possible(w, s, step)
  {
    match step
    case Poll(tip, fetched) => s' == s.(x := X.Poll(s.x, s.p.records, w.chunk, tip, fetched))
    case StoreNext =>
      var stored := WithMessage(w.g.h, s.p.records, X.NextMessage(s.x));
      stored.Some? && s' == s.(p := s.p.(records := stored.value), x := X.AfterMessage(s.x))
    case StoreCursor =>
      s' == s.(p := s.p.(records := X.WithCursor(s.x, s.p.records)), x := X.AfterBatch(s.x))
    case WriteGas(rs) => s' == s.(p := s.p.(records := rs))
    case Fetch(c) => s' == s.(p := P.Do(w.g, s.p, P.Fetch(c)))
    case Move => s'.p == P.Do(w.g, s.p, P.Process) && s'.x == s.x && Follows(s.d, s'.d, s'.p)
    case SendFails => s' == s.(p := P.Do(w.g, s.p, P.SendFails))
    case Deliver(outcome) =>
      var d' := D.Do(s.d, D.Submit(outcome));
      s' == s.(p := s.p.(records := s.p.records.(processed := d'.processed)), d := d')
    case CrashAll =>
      s' == Relayer(P.Initial(s.p.records), D.Do(s.d, D.Crash), X.Boot(w.configFrom, s.p.records))
  }

  /** The scan makes the processor's move, or none if the processor did not get further. */
  ghost predicate Follows(d: D.State, d': D.State, p': P.State) {
    && (d' == d || exists move: D.Step :: IsScanMove(move) && D.Enabled(d, move) && d' == D.Do(d, move))
    && d'.scan == p'.leafIndex && d'.sent == Indices(p'.sent)
  }

  ghost predicate Inv(w: World, s: Relayer)
    requires Sound(w)
  {
    && P.Inv(w.g, s.p) && D.Inv(s.d) && Related(s.p, s.d)
    && exists low: nat :: X.OnTrack(w.chain, w.g.h, s.p.records, s.x, low)
  }

  /** What the indexer stores is what the processor expects of the store. */
  lemma GoodIsCoherent(w: World, rs: Records, low: nat)
    requires Sound(w) && S.Good(w.chain, w.g.h, rs, low)
    ensures P.Coherent(w.g, rs)
  {
  }

  // Every step keeps the invariant

  lemma StoreNextKeepsInv(w: World, s: Relayer, s': Relayer)
    requires Sound(w) && Inv(w, s) && Possible(w, s, StoreNext) && Next(w, s, StoreNext, s')
    ensures Inv(w, s') && P.Enabled(s.p, P.Index(X.NextMessage(s.x)))
    ensures s'.p == P.Do(w.g, s.p, P.Index(X.NextMessage(s.x)))
  {
    var low: nat :| X.OnTrack(w.chain, w.g.h, s.p.records, s.x, low);
    var raw := X.NextMessage(s.x);
    X.NextIsNew(w.chain, w.g.h, s.p.records, s.x, low);
    var after, low' := X.MessageOnTrack(w.chain, w.g.h, s.p.records, s.x, low);
    P.StepKeepsInv(w.g, s.p, P.Index(raw));
    assert X.OnTrack(w.chain, w.g.h, s'.p.records, s'.x, low');
    IndexKeepsMarks(w.g.h, s.p.records, raw);
  }

  lemma IndexKeepsMarks(h: Digest, rs: Records, raw: RawCommittedMessage)
    ensures WithMessage(h, rs, raw).Some? ==> WithMessage(h, rs, raw).value.processed == rs.processed
  {
  }

  lemma WriteKeepsInv(w: World, s: Relayer, rs: Records, x': X.Indexer, low: nat)
    requires Sound(w) && Inv(w, s) && P.Enabled(s.p, P.Write(rs)) && X.OnTrack(w.chain, w.g.h, rs, x', low)
    ensures Inv(w, Relayer(s.p.(records := rs), s.d, x'))
  {
    P.StepKeepsInv(w.g, s.p, P.Write(rs));
    assert s.p.(records := rs) == P.Do(w.g, s.p, P.Write(rs));
  }

  /** The indexer's own moves, and those of the gas indexer. */
  lemma IndexersKeepInv(w: World, s: Relayer, step: RelayerStep, s': Relayer)
    requires Sound(w) && Inv(w, s) && Possible(w, s, step) && Next(w, s, step, s')
    requires step.Poll? || step.StoreCursor? || step.WriteGas?
    ensures Inv(w, s')
  {
    var low: nat :| X.OnTrack(w.chain, w.g.h, s.p.records, s.x, low);
    if step.Poll? {
      X.PollOnTrack(w.chain, w.g.h, s.p.records, s.x, low, w.chunk, step.tip, step.fetched);
    } else if step.StoreCursor? {
      X.CursorOnTrack(w.chain, w.g.h, s.p.records, s.x, low);
      WriteKeepsInv(w, s, s'.p.records, s'.x, low);
    } else {
      X.OthersMayWrite(w.chain, w.g.h, s.p.records, step.records, s.x, low);
      WriteKeepsInv(w, s, step.records, s.x, low);
    }
  }

  lemma MarkingKeepsInv(w: World, s: Relayer, outcome: SerialSubmitters.World, s': Relayer)
    requires Sound(w) && Inv(w, s) && Possible(w, s, Deliver(outcome)) && Next(w, s, Deliver(outcome), s')
    ensures Inv(w, s')
  {
    var low: nat :| X.OnTrack(w.chain, w.g.h, s.p.records, s.x, low);
    X.OthersMayWrite(w.chain, w.g.h, s.p.records, s'.p.records, s.x, low);
    D.StepKeepsInv(s.d, D.Submit(outcome));
    SubmitterMarks(w.g, s.p, s.d, outcome);
    if Related(s.p, s'.d) {
      assert s'.p == s.p;
    } else {
      var i: u32 :| P.Enabled(s.p, P.MarkProcessed(i)) && Related(P.Do(w.g, s.p, P.MarkProcessed(i)), s'.d);
      P.MarkKeepsInv(w.g, s.p, i);
      assert s'.p == P.Do(w.g, s.p, P.MarkProcessed(i));
    }
  }

  lemma MoveKeepsInv(w: World, s: Relayer, s': Relayer)
    requires Sound(w) && Inv(w, s) && Possible(w, s, Move) && Next(w, s, Move, s')
    ensures Inv(w, s')
  {
    P.StepKeepsInv(w.g, s.p, P.Process);
    P.ProcessLeavesRecords(w.g, s.p);
    if s'.d != s.d {
      var move: D.Step :| IsScanMove(move) && D.Enabled(s.d, move) && s'.d == D.Do(s.d, move);
      D.StepKeepsInv(s.d, move);
    }
  }

  lemma CrashKeepsInv(w: World, s: Relayer, s': Relayer)
    requires Sound(w) && Inv(w, s) && Next(w, s, CrashAll, s')
    ensures Inv(w, s')
  {
    var low: nat :| X.OnTrack(w.chain, w.g.h, s.p.records, s.x, low);
    X.BootOnTrack(w.chain, w.g.h, w.configFrom, s.p.records, low);
    D.StepKeepsInv(s.d, D.Crash);
  }

  lemma StepKeepsInv(w: World, s: Relayer, step: RelayerStep, s': Relayer)
    requires Sound(w) && Inv(w, s) && Possible(w, s, step) && Next(w, s, step, s')
    ensures Inv(w, s')
  {
    match step
    case StoreNext => StoreNextKeepsInv(w, s, s');
    case Fetch(c) => P.StepKeepsInv(w.g, s.p, P.Fetch(c));
    case Move => MoveKeepsInv(w, s, s');
    case SendFails => P.StepKeepsInv(w.g, s.p, P.SendFails);
    case Deliver(outcome) => MarkingKeepsInv(w, s, outcome, s');
    case CrashAll => CrashKeepsInv(w, s, s');
    case _ => IndexersKeepInv(w, s, step, s');
  }

  /** The components on an empty database. */
  function Fresh(w: World): Relayer {
    Relayer(P.Initial(NO_RECORDS), D.INITIAL, X.Boot(w.configFrom, NO_RECORDS))
  }

  ghost predicate IsRun(w: World, ss: seq<Relayer>, steps: seq<RelayerStep>)
    requires Sound(w)
  {
    && |ss| == |steps| + 1 && ss[0] == Fresh(w)
    && forall i :: 0 <= i < |steps| ==> Possible(w, ss[i], steps[i]) && Next(w, ss[i], steps[i], ss[i + 1])
  }

  lemma FreshKeepsInv(w: World)
    requires Sound(w)
    ensures Inv(w, Fresh(w))
  {
    assert S.Good(w.chain, w.g.h, NO_RECORDS, 0);
    GoodIsCoherent(w, NO_RECORDS, 0);
    X.BootOnTrack(w.chain, w.g.h, w.configFrom, NO_RECORDS, 0);
  }

  /**
   * Every run of the whole relayer, crashes included: the store is what the indexer's invariant
   * says, no assertion of the processor fails, every item sent proves its own leaf, and every
   * message is accounted for.  The processor stops for a wrong root or a stopped submitter only.
   */
  lemma {:induction false} WholeRelayerIsSafe(w: World, ss: seq<Relayer>, steps: seq<RelayerStep>)
    requires Sound(w) && IsRun(w, ss, steps)
    ensures Inv(w, ss[|steps|])
    ensures var p := ss[|steps|].p;
            && (p.pc.Halted? ==> p.pc.reason == P.MismatchedRoots || p.pc.reason == P.ChannelClosed)
            && forall a :: a in p.sent ==> P.Delivers(w.g, p, a)
  {
    if |steps| > 0 {
      var n := |steps| - 1;
      WholeRelayerIsSafe(w, ss[..n + 1], steps[..n]);
      StepKeepsInv(w, ss[n], steps[n], ss[n + 1]);
    } else {
      FreshKeepsInv(w);
    }
  }

  // Commit is final

  /** What a step does to the delivery accounting is one of its own steps, or nothing. */
  lemma StepOnDeliveries(w: World, s: Relayer, step: RelayerStep, s': Relayer) returns (move: Option<D.Step>)
    requires Sound(w) && Possible(w, s, step) && Next(w, s, step, s')
    ensures match move
            case None => s'.d == s.d
            case Some(m) => D.Enabled(s.d, m) && s'.d == D.Do(s.d, m)
  {
    move := None;
    match step
    case Move =>
      if s'.d != s.d {
        var m: D.Step :| IsScanMove(m) && D.Enabled(s.d, m) && s'.d == D.Do(s.d, m);
        move := Some(m);
      }
    case Deliver(outcome) => move := Some(D.Submit(outcome));
    case CrashAll => move := Some(D.Crash);
    case _ =>
  }

  /** No step takes up an index that is marked, or takes back a mark. */
  lemma StepSparesProcessed(w: World, s: Relayer, step: RelayerStep, s': Relayer, i: u32)
    requires Sound(w) && Inv(w, s) && Possible(w, s, step) && Next(w, s, step, s') && i in s.d.processed
    ensures i in s'.d.processed
    ensures s'.d.log == s.d.log || exists j :: j != i && s'.d.log == s.d.log + [j]
  {
    var move := StepOnDeliveries(w, s, step, s');
    if move.Some? {
      D.StepSparesProcessed(s.d, move.value, i);
    }
  }

  lemma {:induction false} LogSparesProcessed(w: World, ss: seq<Relayer>, steps: seq<RelayerStep>, a: nat, i: u32)
    requires Sound(w) && IsRun(w, ss, steps) && a <= |steps| && i in ss[a].d.processed
    ensures i in ss[|steps|].d.processed
    ensures ss[a].d.log <= ss[|steps|].d.log && i !in ss[|steps|].d.log[|ss[a].d.log|..]
  {
    if a < |steps| {
      var n := |steps| - 1;
      LogSparesProcessed(w, ss[..n + 1], steps[..n], a, i);
      WholeRelayerIsSafe(w, ss[..n + 1], steps[..n]);
      StepSparesProcessed(w, ss[n], steps[n], ss[n + 1], i);
    }
  }

  /**
   * In every run of the whole relayer: once an index is marked as processed in the store it stays
   * marked, and the submitter never takes it up again, whatever crashes come between.
   */
  lemma RelayerCommitIsFinal(w: World, ss: seq<Relayer>, steps: seq<RelayerStep>, a: nat, i: u32)
    requires Sound(w) && IsRun(w, ss, steps) && a <= |steps| && i in ss[a].p.records.processed
    ensures i in ss[|steps|].p.records.processed
    ensures ss[a].d.log <= ss[|steps|].d.log && i !in ss[|steps|].d.log[|ss[a].d.log|..]
  {
    WholeRelayerIsSafe(w, ss[..a + 1], steps[..a]);
    WholeRelayerIsSafe(w, ss, steps);
    LogSparesProcessed(w, ss, steps, a, i);
  }

  /**
   * Every mark was earned, in every run of the whole relayer: an index marked in the store was taken
   * by a tick in which the destination chain had the message and the mark was written.
   */
  lemma RelayerMarksAreEarned(w: World, ss: seq<Relayer>, steps: seq<RelayerStep>, i: u32) returns (a: nat)
    requires Sound(w) && IsRun(w, ss, steps) && i in ss[|steps|].p.records.processed
    ensures a < |steps| && steps[a].Deliver? && SerialSubmitters.Commits(steps[a].outcome)
    ensures ss[a + 1].d.log == ss[a].d.log + [i]
  {
    WholeRelayerIsSafe(w, ss, steps);
    a := MarksAreEarned(w, ss, steps, i);
  }

  lemma {:induction false} MarksAreEarned(w: World, ss: seq<Relayer>, steps: seq<RelayerStep>, i: u32)
    returns (a: nat)
    requires Sound(w) && IsRun(w, ss, steps) && i in ss[|steps|].d.processed
    ensures a < |steps| && steps[a].Deliver? && SerialSubmitters.Commits(steps[a].outcome)
    ensures ss[a + 1].d.log == ss[a].d.log + [i] && i !in ss[a].d.processed
  {
    a := 0;
    if |steps| > 0 {
      var n := |steps| - 1;
      if i in ss[n].d.processed {
        a := MarksAreEarned(w, ss[..n + 1], steps[..n], i);
      } else {
        MarkNeedsDelivery(w, ss[n], steps[n], ss[n + 1], i);
        a := n;
      }
    }
  }

  lemma MarkNeedsDelivery(w: World, s: Relayer, step: RelayerStep, s': Relayer, i: u32)
    requires Sound(w) && Possible(w, s, step) && Next(w, s, step, s') && i !in s.d.processed && i in s'.d.processed
    ensures step.Deliver? && SerialSubmitters.Commits(step.outcome) && s'.d.log == s.d.log + [i]
  {
    var move := StepOnDeliveries(w, s, step, s');
    D.MarkNeedsCommit(s.d, move.value, i);
  }

  // Without message 0 nothing is ever delivered

  /** As long as index 0 is not stored, the processor has not got anywhere, now or before. */
  ghost predicate Stalled(s: Relayer) {
    && s.p.records.processed == {} && s.p.leafIndex == 0 && s.p.sent == []
    && (s.p.pc.AwaitFirst? || s.p.pc.Scan?)
    && s.d.log == []
  }

  lemma NothingIsQueued(w: World, s: Relayer)
    requires Sound(w) && Inv(w, s) && Stalled(s)
    ensures D.Queued(s.d) == []
  {
    D.QueuedWereSent(s.d);
  }

  /** A tick with nothing queued takes nothing up and marks nothing. */
  lemma IdleTick(d: D.State, outcome: SerialSubmitters.World)
    requires D.Queued(d) == [] && !d.stopped
    ensures var d' := D.Do(d, D.Submit(outcome)); d'.log == d.log && d'.processed == d.processed
  {
    assert |d.queues.wait| == |d.channel| == |d.queues.run| == 0;
    assert d.log + [] == d.log;
  }

  lemma StalledMove(w: World, s: Relayer, s': Relayer)
    requires Sound(w) && Inv(w, s) && Possible(w, s, Move) && Next(w, s, Move, s')
    requires Stalled(s) && 0 !in s.p.records.leaf
    ensures Stalled(s')
  {
    P.ProcessLeavesRecords(w.g, s.p);
  }

  /** Nothing but the next message of a batch changes which leaves are stored. */
  lemma OnlyBatchesStore(w: World, s: Relayer, step: RelayerStep, s': Relayer)
    requires Sound(w) && Possible(w, s, step) && Next(w, s, step, s') && !step.StoreNext?
    ensures s'.p.records.leaf == s.p.records.leaf && s'.p.records.latest == s.p.records.latest
  {
    if step.Move? {
      P.ProcessLeavesRecords(w.g, s.p);
    }
  }

  lemma StalledStep(w: World, s: Relayer, step: RelayerStep, s': Relayer)
    requires Sound(w) && Inv(w, s) && Possible(w, s, step) && Next(w, s, step, s')
    requires 0 !in s.p.records.leaf ==> Stalled(s)
    ensures 0 !in s'.p.records.leaf ==> Stalled(s')
  {
    if 0 !in s'.p.records.leaf {
      match step
      case StoreNext => S.StoringKeepsLeaves(w.g.h, s.p.records, X.NextMessage(s.x));
      case Move => OnlyBatchesStore(w, s, step, s'); StalledMove(w, s, s');
      case Deliver(outcome) => NothingIsQueued(w, s); IdleTick(s.d, outcome);
      case _ => OnlyBatchesStore(w, s, step, s');
    }
  }

  /**
   * In every reachable state: if index 0 is not stored, nothing was ever marked, sent or attempted,
   * and the processor waits for a checkpoint or for message 0.
   */
  lemma {:induction false} NothingWithoutZero(w: World, ss: seq<Relayer>, steps: seq<RelayerStep>)
    requires Sound(w) && IsRun(w, ss, steps)
    ensures 0 !in ss[|steps|].p.records.leaf ==> Stalled(ss[|steps|])
  {
    if |steps| > 0 {
      var n := |steps| - 1;
      NothingWithoutZero(w, ss[..n + 1], steps[..n]);
      WholeRelayerIsSafe(w, ss[..n + 1], steps[..n]);
      StalledStep(w, ss[n], steps[n], ss[n + 1]);
    }
  }

  /** Something is stored, but not index 0. */
  ghost predicate ZeroSkipped(rs: Records) {
    rs.latest.Some? && 0 !in rs.leaf
  }

  lemma ZeroStaysSkipped(w: World, s: Relayer, step: RelayerStep, s': Relayer)
    requires Sound(w) && Inv(w, s) && Possible(w, s, step) && Next(w, s, step, s') && ZeroSkipped(s.p.records)
    ensures ZeroSkipped(s'.p.records)
  {
    if step.StoreNext? {
      var low: nat :| X.OnTrack(w.chain, w.g.h, s.p.records, s.x, low);
      assert S.Follows(s.p.records, X.NextMessage(s.x).leafIndex);
      S.StoringKeepsLeaves(w.g.h, s.p.records, X.NextMessage(s.x));
    } else {
      OnlyBatchesStore(w, s, step, s');
    }
  }

  /**
   * One dropped message stops all delivery for good: from a state with something stored but not
   * index 0, no run, whatever the provider answers and whatever crashes, ever sends, attempts or
   * marks a message.
   */
  lemma {:induction false} SkippedZeroStopsDelivery(w: World, ss: seq<Relayer>, steps: seq<RelayerStep>, a: nat)
    requires Sound(w) && IsRun(w, ss, steps) && a <= |steps| && ZeroSkipped(ss[a].p.records)
    ensures ZeroSkipped(ss[|steps|].p.records) && Stalled(ss[|steps|])
  {
    NothingWithoutZero(w, ss, steps);
    if a < |steps| {
      var n := |steps| - 1;
      SkippedZeroStopsDelivery(w, ss[..n + 1], steps[..n], a);
      WholeRelayerIsSafe(w, ss[..n + 1], steps[..n]);
      ZeroStaysSkipped(w, ss[n], steps[n], ss[n + 1]);
    }
  }

  /** Polling once, where the provider drops message 0 of two. */
  lemma PollWithoutZero(w: World, raw: RawCommittedMessage) returns (s: Relayer)
    requires Sound(w) && w.chain.blocks == [1, 2] && w.configFrom == 0 && w.chunk == 5
    requires raw == S.TrueMessage(w.chain, 1)
    ensures Possible(w, Fresh(w), Poll(Some(3), Some([raw]))) && Next(w, Fresh(w), Poll(Some(3), Some([raw])), s)
    ensures s.p == Fresh(w).p && s.x.phase.Storing? && s.x.phase.batch == [raw] && s.x.phase.done == 0
  {
    S.AllAboveNone([raw]);
    s := Fresh(w).(x := X.Poll(Fresh(w).x, NO_RECORDS, w.chunk, Some(3), Some([raw])));
  }

  lemma StoreWithoutZero(w: World, s: Relayer, raw: RawCommittedMessage) returns (s': Relayer)
    requires Sound(w) && Inv(w, s) && X.HasNextMessage(s.x) && X.NextMessage(s.x) == raw && raw.leafIndex > 0
    requires s.p.records == NO_RECORDS
    ensures Next(w, s, StoreNext, s') && ZeroSkipped(s'.p.records)
  {
    s' := StoringGoesOn(w, s);
    S.StoringKeepsLeaves(w.g.h, s.p.records, raw);
  }

  lemma TwoSteps(w: World, s: Relayer, t: Relayer, first: RelayerStep, second: RelayerStep)
    requires Sound(w) && Possible(w, Fresh(w), first) && Next(w, Fresh(w), first, s)
    requires Possible(w, s, second) && Next(w, s, second, t)
    ensures IsRun(w, [Fresh(w), s, t], [first, second])
  {
  }

  /** Such a state is reached in two steps when the provider drops message 0. */
  lemma ZeroCanBeSkipped(w: World) returns (ss: seq<Relayer>, steps: seq<RelayerStep>)
    requires Sound(w) && w.chain.blocks == [1, 2] && w.configFrom == 0 && w.chunk == 5
    ensures IsRun(w, ss, steps) && ZeroSkipped(ss[|steps|].p.records)
  {
    var raw := S.TrueMessage(w.chain, 1);
    var poll := Poll(Some(3), Some([raw]));
    var s := PollWithoutZero(w, raw);
    FreshKeepsInv(w);
    StepKeepsInv(w, Fresh(w), poll, s);
    var t := StoreWithoutZero(w, s, raw);
    TwoSteps(w, s, t, poll, StoreNext);
    ss, steps := [Fresh(w), s, t], [poll, StoreNext];
  }

  // Nothing is ever stuck for want of a step

  /** The next message of a batch can always be stored. */
  lemma StoringGoesOn(w: World, s: Relayer) returns (s': Relayer)
    requires Sound(w) && Inv(w, s) && X.HasNextMessage(s.x)
    ensures Next(w, s, StoreNext, s')
  {
    var low: nat :| X.OnTrack(w.chain, w.g.h, s.p.records, s.x, low);
    var after, low' := X.MessageOnTrack(w.chain, w.g.h, s.p.records, s.x, low);
    s' := s.(p := s.p.(records := after), x := X.AfterMessage(s.x));
  }

  /** The processor's moves are never blocked: the scan can always follow. */
  lemma MovesAreJoint(w: World, s: Relayer) returns (s': Relayer)
    requires Sound(w) && Inv(w, s) && CanMove(s)
    ensures Next(w, s, Move, s')
  {
    var move := ProcessorMoves(w.g, s.p, s.d);
    var d' := if move.Some? then D.Do(s.d, move.value) else s.d;
    s' := Relayer(P.Do(w.g, s.p, P.Process), d', s.x);
  }

  // Honest checkpoints

  /** The leaves of the chain's messages. */
  function Truth(w: World): (leaves: seq<H256>)
    requires |w.chain.messages| <= U32_MAX
    ensures |leaves| == |w.chain.messages|
  {
    seq(|w.chain.messages|, i requires 0 <= i < |w.chain.messages| => RawLeaf(w.g.h, S.TrueMessage(w.chain, i)))
  }

  lemma StoreNextStaysHonest(w: World, s: Relayer, s': Relayer)
    requires Sound(w) && Inv(w, s) && Possible(w, s, StoreNext) && Next(w, s, StoreNext, s')
    requires P.HonestState(w.g, s.p, Truth(w))
    ensures P.HonestState(w.g, s'.p, Truth(w))
  {
    var low: nat :| X.OnTrack(w.chain, w.g.h, s.p.records, s.x, low);
    X.NextIsNew(w.chain, w.g.h, s.p.records, s.x, low);
    StoreNextKeepsInv(w, s, s');
    P.StepStaysHonest(w.g, s.p, P.Index(X.NextMessage(s.x)), Truth(w));
  }

  /** A step that leaves the stored leaves, the cell and the point the processor is at as they are. */
  lemma ElsewhereStaysHonest(g: P.Config, p: P.State, p': P.State, truth: seq<H256>)
    requires P.HonestState(g, p, truth)
    requires p'.records.leaf == p.records.leaf && p'.cell == p.cell && p'.pc == p.pc
    ensures P.HonestState(g, p', truth)
  {
  }

  lemma StepStaysHonest(w: World, s: Relayer, step: RelayerStep, s': Relayer)
    requires Sound(w) && Inv(w, s) && Possible(w, s, step) && Next(w, s, step, s')
    requires P.HonestState(w.g, s.p, Truth(w)) && (step.Fetch? ==> P.Honest(w.g, step.checkpoint, Truth(w)))
    ensures P.HonestState(w.g, s'.p, Truth(w))
  {
    if step.StoreNext? {
      StoreNextStaysHonest(w, s, s');
    } else if step.Fetch? || step.Move? || step.SendFails? {
      PipelineStaysHonest(w, s, step, s');
    } else {
      IndexersStayHonest(w, s, step, s');
    }
  }

  lemma PipelineStaysHonest(w: World, s: Relayer, step: RelayerStep, s': Relayer)
    requires Sound(w) && Inv(w, s) && Possible(w, s, step) && Next(w, s, step, s')
    requires P.HonestState(w.g, s.p, Truth(w)) && (step.Fetch? ==> P.Honest(w.g, step.checkpoint, Truth(w)))
    requires step.Fetch? || step.Move? || step.SendFails?
    ensures P.HonestState(w.g, s'.p, Truth(w))
  {
    var own := if step.Fetch? then P.Fetch(step.checkpoint) else if step.Move? then P.Process else P.SendFails;
    P.StepStaysHonest(w.g, s.p, own, Truth(w));
  }

  lemma IndexersStayHonest(w: World, s: Relayer, step: RelayerStep, s': Relayer)
    requires Sound(w) && Possible(w, s, step) && Next(w, s, step, s')
    requires P.HonestState(w.g, s.p, Truth(w))
    requires !step.StoreNext? && !step.Fetch? && !step.Move? && !step.SendFails?
    ensures P.HonestState(w.g, s'.p, Truth(w))
  {
    if !step.CrashAll? {
      ElsewhereStaysHonest(w.g, s.p, s'.p, Truth(w));
    }
  }

  /** If every checkpoint is honest about the chain, only a stopped submitter stops the processor. */
  lemma {:induction false} HonestRelayerKeepsGoing(w: World, ss: seq<Relayer>, steps: seq<RelayerStep>)
    requires Sound(w) && IsRun(w, ss, steps)
    requires forall i :: 0 <= i < |steps| && steps[i].Fetch? ==> P.Honest(w.g, steps[i].checkpoint, Truth(w))
    ensures P.HonestState(w.g, ss[|steps|].p, Truth(w))
    ensures ss[|steps|].p.pc.Halted? ==> ss[|steps|].p.pc.reason == P.ChannelClosed
  {
    if |steps| > 0 {
      var n := |steps| - 1;
      HonestRelayerKeepsGoing(w, ss[..n + 1], steps[..n]);
      WholeRelayerIsSafe(w, ss[..n + 1], steps[..n]);
      StepStaysHonest(w, ss[n], steps[n], ss[n + 1]);
    }
  }

  // Checkpoints of a quorum of which too few mislead

  /** The root over the chain's leaves up to an index, if the chain gets that far. */
  function TrueRoot(w: World, index: u32): Option<H256>
    requires |w.chain.messages| <= U32_MAX
  {
    if index < |w.chain.messages| && index + 1 <= Pow2(TREE_DEPTH)
    then Some(PaddedRoot(w.g.k, Truth(w)[..index + 1], TREE_DEPTH)) else None
  }

  /** The checkpoint was fetched from validators of which fewer mislead about its index than a quorum needs. */
  ghost predicate Vouched(w: World, net: Q.Net, order: seq<Q.Address>, threshold: nat, c: Checkpoint)
    requires Sound(w)
  {
    && Q.Distinct(order)
    && |Q.Misleading(net, order, c.index, TrueRoot(w, c.index))| < Q.Needed(threshold)
    && exists index: u32, ms: Q.Multisig :: ms.checkpoint == c && c.index == index
         && Q.FetchSpec(net, order, threshold, index, Q.Quorum(ms))
  }

  lemma VouchedIsHonest(w: World, net: Q.Net, order: seq<Q.Address>, threshold: nat, c: Checkpoint)
    requires Sound(w) && Vouched(w, net, order, threshold, c)
    ensures P.Honest(w.g, c, Truth(w))
  {
    var index: u32, ms: Q.Multisig :| ms.checkpoint == c && c.index == index
      && Q.FetchSpec(net, order, threshold, index, Q.Quorum(ms));
    Q.QuorumIsTrue(net, order, threshold, index, Q.Quorum(ms), TrueRoot(w, index));
    TrueRootIsHonest(w, c);
  }

  lemma TrueRootIsHonest(w: World, c: Checkpoint)
    requires Sound(w) && TrueRoot(w, c.index) == Some(c.root)
    ensures P.Honest(w.g, c, Truth(w))
  {
  }

  /**
   * If every checkpoint comes from a quorum among validators of which fewer mislead than a quorum
   * needs, only a stopped submitter stops the processor.
   */
  lemma QuorumsKeepTheRelayerGoing(w: World, ss: seq<Relayer>, steps: seq<RelayerStep>, nets: seq<Q.Net>,
                                   orders: seq<seq<Q.Address>>, threshold: nat)
    requires Sound(w) && IsRun(w, ss, steps) && |nets| == |orders| == |steps|
    requires forall i :: 0 <= i < |steps| && steps[i].Fetch? ==>
      Vouched(w, nets[i], orders[i], threshold, steps[i].checkpoint)
    ensures P.HonestState(w.g, ss[|steps|].p, Truth(w))
    ensures ss[|steps|].p.pc.Halted? ==> ss[|steps|].p.pc.reason == P.ChannelClosed
  {
    forall i | 0 <= i < |steps| && steps[i].Fetch? ensures P.Honest(w.g, steps[i].checkpoint, Truth(w)) {
      VouchedIsHonest(w, nets[i], orders[i], threshold, steps[i].checkpoint);
    }
    HonestRelayerKeepsGoing(w, ss, steps);
  }
}
