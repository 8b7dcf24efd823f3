/** Recovery: a lossless provider makes the indexer advance again, unless it is wedged for good. */
module IndexingRecovery {
  import opened Numbers
  import opened Types
  import opened Codec
  import opened AbacusDBs
  import opened OutboxSyncs
  import opened IndexingSafety

  // Where the indexer looks for the next missing message

  function NextIndex(rs: Records): nat {
    if rs.latest.Some? then rs.latest.value + 1 else 0
  }

  ghost predicate HasNext(c: Chain, rs: Records) {
    rs.latest.Some? && NextIndex(rs) < |c.blocks|
  }

  /** The next missing message is not in a block before the one to rewind to. */
  ghost predicate NextNotBefore(c: Chain, s: SyncState) {
    HasNext(c, s.records) ==> c.blocks[NextIndex(s.records)] >= s.lastValid
  }

  /** The cursor in the database never points past the latest message. */
  ghost predicate Anchored(c: Chain, s: SyncState) {
    && (s.records.rangeStart.Some? ==>
          && s.records.latest.Some? && s.records.latest.value < |c.blocks|
          && c.blocks[s.records.latest.value] >= s.records.rangeStart.value)
    && (s.records.rangeStart.Some? || s.records.latest.None? ==> NextNotBefore(c, s))
  }

  lemma BatchIsAnchored(c: Chain, h: Digest, s: SyncState, low: nat, start: u32, to: u32,
                        batch: seq<RawCommittedMessage>)
    requires WellFormed(c) && Good(c, h, s.records, low) && Response(c, start, to, batch)
    requires forall x :: x in batch ==> IsAbove(s.records.latest, x)
    requires s.records.latest.Some? ==> forall j :: 0 <= j < |batch| ==> batch[j].leafIndex >= 1
    requires ValidContinuation(s.records.latest, batch) == Valid
    ensures StoreBatch(h, s, start, to, batch).Running?
    ensures var s' := StoreBatch(h, s, start, to, batch).state;
            && Anchored(c, s')
            && s'.records.latest == Some(batch[0].leafIndex + |batch| - 1)
  {
    ValidIsConsecutive(c, s.records.latest, batch, start, to);
    var stored := StoreAll(c, h, s.records, low, batch, batch[0].leafIndex);
    assert batch[|batch| - 1] in batch;
  }

  /** More messages stored under the same cursor leave a restart anchored. */
  lemma RestartIsAnchored(c: Chain, h: Digest, configFrom: u32, s: SyncState, after: Records, low: nat)
    requires WellFormed(c) && Anchored(c, s) && Good(c, h, after, low)
    requires Extends(s.records, after) && after.rangeStart == s.records.rangeStart
    requires s.records.latest.Some? ==> s.records.latest.value in s.records.leaf
    ensures Anchored(c, Start(configFrom, after))
  {
    if s.records.rangeStart.Some? {
      assert s.records.latest.value in after.leaf;
      assert after.latest.value in after.leaf;
    }
  }

  lemma PartIsAnchored(c: Chain, h: Digest, configFrom: u32, s: SyncState, low: nat, lo: nat, hi: nat,
                       fetched: seq<RawCommittedMessage>, count: nat)
    requires WellFormed(c) && Good(c, h, s.records, low) && Response(c, lo, hi, fetched) && Anchored(c, s)
    ensures Anchored(c, Start(configFrom, PartlyStored(h, s.records, fetched, count)))
  {
    var low' := BatchSafe(c, h, s.records, low, lo, hi, fetched, count);
    RestartIsAnchored(c, h, configFrom, s, PartlyStored(h, s.records, fetched, count), low');
  }

  lemma StepKeepsAnchor(c: Chain, h: Digest, configFrom: u32, chunk: u32, s: SyncState, e: Event, low: nat)
    requires WellFormed(c) && Good(c, h, s.records, low) && Legal(c, chunk, s, e) && Anchored(c, s)
    ensures Anchored(c, Apply(c, h, configFrom, chunk, s, e))
  {
    if !e.Restart? && e.tip.Some? && e.fetched.Some? && s.from < e.tip.value {
      var to := WindowEnd(s.from, e.tip.value, chunk);
      var start := WindowStart(to, chunk);
      if e.CrashAfter? {
        PartIsAnchored(c, h, configFrom, s, low, start, to, e.fetched.value, e.stored);
      } else {
        var batch := Above(s.records.latest, e.fetched.value);
        AboveIsSorted(s.records.latest, e.fetched.value);
        AboveIsResponse(c, s.records.latest, start, to, e.fetched.value);
        if ValidContinuation(s.records.latest, batch) == Valid {
          BatchIsAnchored(c, h, s, low, start, to, batch);
        }
      }
    }
  }

  /** Over whole runs, crashes included: the next missing message is where rewinding will find it. */
  lemma {:induction false} RunIsAnchored(c: Chain, h: Digest, configFrom: u32, chunk: u32, ss: seq<SyncState>,
                                         es: seq<Event>)
    requires WellFormed(c) && IsRun(c, h, configFrom, chunk, ss, es)
    ensures Anchored(c, ss[|es|])
  {
    if |es| > 0 {
      var n := |es| - 1;
      RunIsAnchored(c, h, configFrom, chunk, ss[..n + 1], es[..n]);
      var low := RunIsGood(c, h, configFrom, chunk, ss[..n + 1], es[..n]);
      StepKeepsAnchor(c, h, configFrom, chunk, ss[n], es[n], low);
    }
  }

  // A provider that loses nothing

  /** All messages among the first `n` that lie in a block window. */
  function AllIn(c: Chain, lo: nat, hi: nat, n: nat): (xs: seq<RawCommittedMessage>)
    requires n <= |c.messages| == |c.blocks| <= U32_MAX
  {
    if n == 0 then []
    else AllIn(c, lo, hi, n - 1) + (if lo <= c.blocks[n - 1] <= hi then [TrueMessage(c, n - 1)] else [])
  }

  lemma {:induction false} AllInIsLossless(c: Chain, lo: nat, hi: nat, n: nat)
    requires WellFormed(c) && n <= |c.messages|
    ensures Response(c, lo, hi, AllIn(c, lo, hi, n))
    ensures forall x :: x in AllIn(c, lo, hi, n) ==> x.leafIndex < n
    ensures forall i :: 0 <= i < n && lo <= c.blocks[i] <= hi ==> TrueMessage(c, i) in AllIn(c, lo, hi, n)
  {
    if n > 0 {
      AllInIsLossless(c, lo, hi, n - 1);
      var init := AllIn(c, lo, hi, n - 1);
      forall j | 0 <= j < |init| ensures init[j].leafIndex < n - 1 {
        assert init[j] in init;
      }
    }
  }

  /** The answer of the lossless provider for the window of an iteration. */
  function Everything(c: Chain, chunk: u32, from: nat, tip: u32): seq<RawCommittedMessage>
    requires |c.messages| == |c.blocks| <= U32_MAX
  {
    var to := WindowEnd(from, tip, chunk);
    AllIn(c, WindowStart(to, chunk), to, |c.messages|)
  }

  function LosslessStep(c: Chain, h: Digest, chunk: u32, s: SyncState, tip: u32): SyncState
    requires WellFormed(c)
  {
    var to := WindowEnd(s.from, tip, chunk);
    AllInIsLossless(c, WindowStart(to, chunk), to, |c.messages|);
    Step(h, s, chunk, Some(tip), Some(Everything(c, chunk, s.from, tip))).state
  }

  function LosslessRun(c: Chain, h: Digest, chunk: u32, s: SyncState, tips: seq<u32>): SyncState
    requires WellFormed(c)
    decreases |tips|
  {
    if |tips| == 0 then s else LosslessRun(c, h, chunk, LosslessStep(c, h, chunk, s, tips[0]), tips[1..])
  }

  ghost predicate Higher(before: Option<u32>, after: Option<u32>) {
    after.Some? && (before.Some? ==> after.value > before.value)
  }

  /** What a lossless iteration finds to store. */
  ghost predicate Fresh(c: Chain, last: Option<u32>, lo: nat, hi: nat, batch: seq<RawCommittedMessage>)
    requires WellFormed(c)
  {
    && Response(c, lo, hi, batch)
    && (forall x :: x in batch ==> IsAbove(last, x))
    && (last.Some? ==> forall j :: 0 <= j < |batch| ==> batch[j].leafIndex >= 1)
    && forall i :: 0 <= i < |c.messages| && lo <= c.blocks[i] <= hi && IsAbove(last, TrueMessage(c, i)) ==>
         TrueMessage(c, i) in batch
  }

  lemma LosslessIsFresh(c: Chain, last: Option<u32>, lo: nat, hi: nat)
    requires WellFormed(c)
    ensures Fresh(c, last, lo, hi, Above(last, AllIn(c, lo, hi, |c.messages|)))
  {
    AllInIsLossless(c, lo, hi, |c.messages|);
    AboveIsResponse(c, last, lo, hi, AllIn(c, lo, hi, |c.messages|));
    AboveIsSorted(last, AllIn(c, lo, hi, |c.messages|));
  }

  lemma FreshHasNoGaps(c: Chain, last: Option<u32>, lo: nat, hi: nat, batch: seq<RawCommittedMessage>)
    requires WellFormed(c) && Fresh(c, last, lo, hi, batch)
    ensures GapFree(batch)
  {
    forall j | 1 <= j < |batch| ensures batch[j - 1].leafIndex == batch[j].leafIndex - 1 {
      NoneBetween(c, last, lo, hi, batch, j);
    }
  }

  lemma NoneBetween(c: Chain, last: Option<u32>, lo: nat, hi: nat, batch: seq<RawCommittedMessage>, j: nat)
    requires WellFormed(c) && Fresh(c, last, lo, hi, batch) && 1 <= j < |batch|
    ensures batch[j - 1].leafIndex == batch[j].leafIndex - 1
  {
    var a, b := batch[j - 1].leafIndex, batch[j].leafIndex;
    assert batch[j - 1] in batch && batch[j] in batch;
    var next := TrueMessage(c, if a + 1 < b then a + 1 else b);
    assert next in batch;
    var p :| 0 <= p < |batch| && batch[p] == next;
    assert p == j;
  }

  /** The message that the scan will meet next: the missing one if still ahead, else one further on. */
  function Target(c: Chain, s: SyncState, t: nat): (i: nat)
    requires WellFormed(c) && t < |c.blocks|
    requires IsAbove(s.records.latest, TrueMessage(c, t))
    ensures i < |c.blocks| && IsAbove(s.records.latest, TrueMessage(c, i))
    ensures s.from <= c.blocks[t] ==> s.from <= c.blocks[i]
  {
    if s.records.latest.Some? && s.from <= c.blocks[NextIndex(s.records)] then NextIndex(s.records) else t
  }

  /** A lossless window without anything new ends before the target. */
  lemma EmptyWindow(c: Chain, h: Digest, chunk: u32, s: SyncState, tip: u32, i: nat, batch: seq<RawCommittedMessage>)
    requires WellFormed(c) && i < |c.blocks| && IsAbove(s.records.latest, TrueMessage(c, i))
    requires s.from <= c.blocks[i] && s.from < tip
    requires var to := WindowEnd(s.from, tip, chunk); Fresh(c, s.records.latest, WindowStart(to, chunk), to, batch)
    requires |batch| == 0
    ensures WindowEnd(s.from, tip, chunk) < c.blocks[i]
  {
    var to := WindowEnd(s.from, tip, chunk);
    WindowCovers(s.from, tip, chunk);
  }

  /** With the next missing message in or after its first block, a non-empty lossless window starts with it. */
  lemma NextIsInBatch(c: Chain, rs: Records, lo: nat, hi: nat, batch: seq<RawCommittedMessage>)
    requires WellFormed(c) && Fresh(c, rs.latest, lo, hi, batch) && |batch| > 0 && rs.latest.Some?
    ensures NextIndex(rs) < |c.blocks|
    ensures lo <= c.blocks[NextIndex(rs)] ==> TrueMessage(c, NextIndex(rs)) in batch
  {
    assert batch[0] in batch;
    var n := NextIndex(rs);
    assert n <= batch[0].leafIndex;
    assert c.blocks[n] <= c.blocks[batch[0].leafIndex] <= hi;
  }

  lemma ContinuationIsValid(c: Chain, rs: Records, lo: nat, hi: nat, batch: seq<RawCommittedMessage>)
    requires WellFormed(c) && Fresh(c, rs.latest, lo, hi, batch) && |batch| > 0
    requires rs.latest.Some? ==> NextIndex(rs) < |c.blocks| && TrueMessage(c, NextIndex(rs)) in batch
    ensures ValidContinuation(rs.latest, batch) == Valid
  {
    FreshHasNoGaps(c, rs.latest, lo, hi, batch);
    if rs.latest.Some? {
      var j :| 0 <= j < |batch| && batch[j] == TrueMessage(c, NextIndex(rs));
      assert rs.latest.value == batch[j].leafIndex - 1;
    }
  }

  lemma BatchRaises(c: Chain, h: Digest, s: SyncState, low: nat, start: u32, to: u32, batch: seq<RawCommittedMessage>)
    requires WellFormed(c) && Good(c, h, s.records, low) && Fresh(c, s.records.latest, start, to, batch)
    requires ValidContinuation(s.records.latest, batch) == Valid
    ensures Higher(s.records.latest, StoreBatch(h, s, start, to, batch).state.records.latest)
  {
    BatchIsAnchored(c, h, s, low, start, to, batch);
    assert batch[0] in batch;
  }

  /** How far the scan is from its target, with a second lap when it has passed the missing message. */
  function Distance(c: Chain, s: SyncState, t: nat): int
    requires WellFormed(c) && t < |c.blocks| && IsAbove(s.records.latest, TrueMessage(c, t))
  {
    var i := Target(c, s, t);
    c.blocks[i] - s.from + 1
    + (if s.records.latest.Some? && i == t && s.from > c.blocks[NextIndex(s.records)]
       then c.blocks[NextIndex(s.records)] - s.lastValid + 1 else 0)
  }

  lemma MovingOnAdvances(c: Chain, s: SyncState, t: nat, to: nat)
    requires WellFormed(c) && t < |c.blocks| && IsAbove(s.records.latest, TrueMessage(c, t))
    requires s.from <= to < c.blocks[Target(c, s, t)] && s.from <= c.blocks[t]
    ensures to + 1 <= c.blocks[t] && Distance(c, s.(from := to + 1), t) < Distance(c, s, t)
    ensures HasNext(c, s.records) && s.from > c.blocks[NextIndex(s.records)] ==>
      to + 1 > c.blocks[NextIndex(s.records)]
  {
    NextIsFirst(c, s.records, t);
  }

  lemma NextIsFirst(c: Chain, rs: Records, t: nat)
    requires WellFormed(c) && t < |c.blocks| && IsAbove(rs.latest, TrueMessage(c, t))
    ensures rs.latest.Some? ==> NextIndex(rs) <= t && c.blocks[NextIndex(rs)] <= c.blocks[t]
  {
  }

  lemma RewindingAdvances(c: Chain, s: SyncState, t: nat)
    requires WellFormed(c) && t < |c.blocks| && IsAbove(s.records.latest, TrueMessage(c, t))
    requires HasNext(c, s.records) && c.blocks[NextIndex(s.records)] < s.from <= c.blocks[t]
    requires NextNotBefore(c, s)
    ensures s.lastValid <= c.blocks[t] && Distance(c, s.(from := s.lastValid), t) < Distance(c, s, t)
  {
    NextIsFirst(c, s.records, t);
  }

  /** The three outcomes of a lossless iteration. */
  lemma LosslessOutcome(c: Chain, h: Digest, chunk: u32, s: SyncState, tip: u32)
    returns (batch: seq<RawCommittedMessage>)
    requires WellFormed(c) && s.from < tip
    ensures var to := WindowEnd(s.from, tip, chunk);
            var start := WindowStart(to, chunk);
            && Fresh(c, s.records.latest, start, to, batch) && GapFree(batch)
            && LosslessStep(c, h, chunk, s, tip)
            == if |batch| == 0 then s.(from := to + 1)
               else if ValidContinuation(s.records.latest, batch) == Valid then StoreBatch(h, s, start, to, batch).state
               else s.(from := s.lastValid)
  {
    var to := WindowEnd(s.from, tip, chunk);
    var start := WindowStart(to, chunk);
    batch := Above(s.records.latest, Everything(c, chunk, s.from, tip));
    LosslessIsFresh(c, s.records.latest, start, to);
    AllInIsLossless(c, start, to, |c.messages|);
    FreshHasNoGaps(c, s.records.latest, start, to, batch);
  }

  /** Whether the missing message can still be found: ahead of the scan, or where rewinding leads. */
  ghost predicate Reachable(c: Chain, s: SyncState) {
    HasNext(c, s.records) && s.from > c.blocks[NextIndex(s.records)] ==> NextNotBefore(c, s)
  }

  /**
   * A lossless iteration below message `t` either raises the latest index or comes strictly
   * closer: it moves on through empty blocks, or rewinds once to a block before the missing message.
   */
  lemma LosslessStepAdvances(c: Chain, h: Digest, chunk: u32, s: SyncState, tip: u32, low: nat, t: nat)
    returns (s': SyncState)
    requires WellFormed(c) && Good(c, h, s.records, low) && Reachable(c, s)
    requires t < |c.blocks| && IsAbove(s.records.latest, TrueMessage(c, t)) && s.from <= c.blocks[t] < tip
    ensures s' == LosslessStep(c, h, chunk, s, tip)
    ensures Higher(s.records.latest, s'.records.latest)
            || (&& s'.records == s.records && s'.from <= c.blocks[t] && Reachable(c, s')
                && Distance(c, s', t) < Distance(c, s, t))
  {
    var to := WindowEnd(s.from, tip, chunk);
    var start := WindowStart(to, chunk);
    var batch := LosslessOutcome(c, h, chunk, s, tip);
    s' := LosslessStep(c, h, chunk, s, tip);
    WindowCovers(s.from, tip, chunk);
    if |batch| == 0 {
      EmptyWindow(c, h, chunk, s, tip, Target(c, s, t), batch);
      MovingOnAdvances(c, s, t, to);
    } else if ValidContinuation(s.records.latest, batch) == Valid {
      BatchRaises(c, h, s, low, start, to, batch);
    } else {
      SkippedPast(c, s.records, start, to, batch);
      RewindingAdvances(c, s, t);
    }
  }

  /** Only a window that starts after the missing message is refused. */
  lemma SkippedPast(c: Chain, rs: Records, start: nat, to: nat, batch: seq<RawCommittedMessage>)
    requires WellFormed(c) && Fresh(c, rs.latest, start, to, batch) && |batch| > 0
    requires ValidContinuation(rs.latest, batch) != Valid
    ensures HasNext(c, rs) && c.blocks[NextIndex(rs)] < start
  {
    if rs.latest.Some? {
      NextIsInBatch(c, rs, start, to, batch);
    }
    if rs.latest.None? || start <= c.blocks[NextIndex(rs)] {
      ContinuationIsValid(c, rs, start, to, batch);
    }
  }

  lemma DistancePositive(c: Chain, s: SyncState, t: nat)
    requires WellFormed(c) && t < |c.blocks| && IsAbove(s.records.latest, TrueMessage(c, t))
    requires s.from <= c.blocks[t] && Reachable(c, s)
    ensures Distance(c, s, t) > 0
  {
    NextIsFirst(c, s.records, t);
  }

  /**
   * Recovery: with a lossless provider, a message above the latest index in a block at or after
   * `from` and strictly below the tips makes the latest index rise, within `Distance` iterations.
   */
  lemma {:induction false} Recovery(c: Chain, h: Digest, chunk: u32, s: SyncState, tips: seq<u32>, low: nat, t: nat)
    returns (n: nat)
    requires WellFormed(c) && Good(c, h, s.records, low) && Reachable(c, s)
    requires t < |c.blocks| && IsAbove(s.records.latest, TrueMessage(c, t)) && s.from <= c.blocks[t]
    requires forall i :: 0 <= i < |tips| ==> c.blocks[t] < tips[i]
    requires Distance(c, s, t) <= |tips|
    ensures n <= Distance(c, s, t) && n <= |tips|
    ensures Higher(s.records.latest, LosslessRun(c, h, chunk, s, tips[..n]).records.latest)
    decreases |tips|
  {
    DistancePositive(c, s, t);
    var s' := LosslessStepAdvances(c, h, chunk, s, tips[0], low, t);
    if Higher(s.records.latest, s'.records.latest) {
      n := 1;
    } else {
      n := Recovery(c, h, chunk, s', tips[1..], low, t);
      n := n + 1;
    }
    FirstOfRun(c, h, chunk, s, tips, n);
  }

  /** Recovery from every state of every run in which no crash came before the first cursor. */
  lemma RunRecovers(c: Chain, h: Digest, configFrom: u32, chunk: u32, ss: seq<SyncState>, es: seq<Event>,
                    tips: seq<u32>, t: nat)
    returns (n: nat)
    requires WellFormed(c) && IsRun(c, h, configFrom, chunk, ss, es)
    requires var s := ss[|es|];
             && (s.records.rangeStart.Some? || s.records.latest.None?)
             && t < |c.blocks| && IsAbove(s.records.latest, TrueMessage(c, t)) && s.from <= c.blocks[t]
             && Distance(c, s, t) <= |tips|
    requires forall i :: 0 <= i < |tips| ==> c.blocks[t] < tips[i]
    ensures n <= |tips|
    ensures Higher(ss[|es|].records.latest, LosslessRun(c, h, chunk, ss[|es|], tips[..n]).records.latest)
  {
    RunIsAnchored(c, h, configFrom, chunk, ss, es);
    var low := RunIsGood(c, h, configFrom, chunk, ss, es);
    n := Recovery(c, h, chunk, ss[|es|], tips, low, t);
  }

  lemma FirstOfRun(c: Chain, h: Digest, chunk: u32, s: SyncState, tips: seq<u32>, n: nat)
    requires WellFormed(c) && 0 < n <= |tips|
    ensures LosslessRun(c, h, chunk, s, tips[..n])
         == LosslessRun(c, h, chunk, LosslessStep(c, h, chunk, s, tips[0]), tips[1..][..n - 1])
  {
    assert tips[..n][1..] == tips[1..][..n - 1];
  }

  /**
   * The other half: when the missing message lies before the scan and before the block to rewind
   * to, and the tips stay more than a chunk above it, no number of lossless iterations finds it.
   */
  lemma {:induction false} Wedged(c: Chain, h: Digest, chunk: u32, s: SyncState, tips: seq<u32>)
    requires WellFormed(c) && HasNext(c, s.records)
    requires c.blocks[NextIndex(s.records)] < s.from && c.blocks[NextIndex(s.records)] < s.lastValid
    requires forall i :: 0 <= i < |tips| ==> c.blocks[NextIndex(s.records)] + chunk < tips[i]
    ensures LosslessRun(c, h, chunk, s, tips).records == s.records
    decreases |tips|
  {
    if |tips| > 0 {
      var s' := LosslessStep(c, h, chunk, s, tips[0]);
      WedgedStep(c, h, chunk, s, tips[0]);
      Wedged(c, h, chunk, s', tips[1..]);
    }
  }

  lemma WedgedStep(c: Chain, h: Digest, chunk: u32, s: SyncState, tip: u32)
    requires WellFormed(c) && HasNext(c, s.records)
    requires c.blocks[NextIndex(s.records)] < s.from && c.blocks[NextIndex(s.records)] < s.lastValid
    requires c.blocks[NextIndex(s.records)] + chunk < tip
    ensures var s' := LosslessStep(c, h, chunk, s, tip);
            s'.records == s.records && s'.lastValid == s.lastValid && c.blocks[NextIndex(s.records)] < s'.from
  {
    if s.from < tip {
      var to := WindowEnd(s.from, tip, chunk);
      var batch := LosslessOutcome(c, h, chunk, s, tip);
      WindowCovers(s.from, tip, chunk);
      forall j | 0 <= j < |batch| ensures batch[j].leafIndex != NextIndex(s.records) {
        assert batch[j] in batch;
      }
    }
  }

  /** While the missing message is out of reach, only a window that still covers it finds it. */
  lemma UnreachableStep(c: Chain, h: Digest, chunk: u32, s: SyncState, tip: u32, low: nat, t: nat)
    returns (s': SyncState)
    requires WellFormed(c) && Good(c, h, s.records, low) && !Reachable(c, s)
    requires t < |c.blocks| && IsAbove(s.records.latest, TrueMessage(c, t))
    requires s.from <= c.blocks[t] < tip && s.lastValid <= c.blocks[t]
    ensures s' == LosslessStep(c, h, chunk, s, tip)
    ensures Higher(s.records.latest, s'.records.latest)
            || (s'.records == s.records && s'.from <= c.blocks[t] && s'.lastValid == s.lastValid && !Reachable(c, s'))
    ensures tip <= c.blocks[NextIndex(s.records)] + chunk ==> Higher(s.records.latest, s'.records.latest)
  {
    var to := WindowEnd(s.from, tip, chunk);
    var start := WindowStart(to, chunk);
    var batch := LosslessOutcome(c, h, chunk, s, tip);
    s' := LosslessStep(c, h, chunk, s, tip);
    WindowCovers(s.from, tip, chunk);
    assert tip <= c.blocks[NextIndex(s.records)] + chunk ==> TrueMessage(c, NextIndex(s.records)) in batch;
    if |batch| == 0 {
      EmptyWindow(c, h, chunk, s, tip, t, batch);
    } else if ValidContinuation(s.records.latest, batch) == Valid {
      BatchRaises(c, h, s, low, start, to, batch);
    } else if tip <= c.blocks[NextIndex(s.records)] + chunk {
      ContinuationIsValid(c, s.records, start, to, batch);
    }
  }

  /** Some number of lossless iterations, one for each tip, raises the latest index. */
  ghost predicate Rises(c: Chain, h: Digest, chunk: u32, s: SyncState, tips: seq<u32>)
    requires WellFormed(c)
  {
    exists n :: 0 <= n <= |tips| && Higher(s.records.latest, LosslessRun(c, h, chunk, s, tips[..n]).records.latest)
  }

  lemma {:induction false} CoveredRises(c: Chain, h: Digest, chunk: u32, s: SyncState, tips: seq<u32>, low: nat,
                                        t: nat, i: nat)
    returns (n: nat)
    requires WellFormed(c) && Good(c, h, s.records, low) && !Reachable(c, s)
    requires t < |c.blocks| && IsAbove(s.records.latest, TrueMessage(c, t))
    requires s.from <= c.blocks[t] && s.lastValid <= c.blocks[t]
    requires forall j :: 0 <= j < |tips| ==> c.blocks[t] < tips[j]
    requires i < |tips| && tips[i] <= c.blocks[NextIndex(s.records)] + chunk
    ensures n <= |tips|
    ensures Higher(s.records.latest, LosslessRun(c, h, chunk, s, tips[..n]).records.latest)
    decreases |tips|
  {
    var s' := UnreachableStep(c, h, chunk, s, tips[0], low, t);
    if Higher(s.records.latest, s'.records.latest) {
      n := 1;
    } else {
      n := CoveredRises(c, h, chunk, s', tips[1..], low, t, i - 1);
      n := n + 1;
    }
    FirstOfRun(c, h, chunk, s, tips, n);
  }

  /**
   * Exactly when the indexer recovers, with enough iterations on a lossless provider: when the next
   * missing message is still within reach, or one of the tips is within a chunk of its block.
   */
  lemma RecoversExactlyWhen(c: Chain, h: Digest, chunk: u32, s: SyncState, tips: seq<u32>, low: nat, t: nat)
    requires WellFormed(c) && Good(c, h, s.records, low)
    requires t < |c.blocks| && IsAbove(s.records.latest, TrueMessage(c, t))
    requires s.from <= c.blocks[t] && s.lastValid <= c.blocks[t]
    requires forall i :: 0 <= i < |tips| ==> c.blocks[t] < tips[i]
    requires Distance(c, s, t) <= |tips|
    ensures Rises(c, h, chunk, s, tips) <==>
      Reachable(c, s) || exists i :: 0 <= i < |tips| && tips[i] <= c.blocks[NextIndex(s.records)] + chunk
  {
    if Reachable(c, s) {
      var n := Recovery(c, h, chunk, s, tips, low, t);
    } else if i :| 0 <= i < |tips| && tips[i] <= c.blocks[NextIndex(s.records)] + chunk {
      var n := CoveredRises(c, h, chunk, s, tips, low, t, i);
    } else {
      forall n | 0 <= n <= |tips|
        ensures LosslessRun(c, h, chunk, s, tips[..n]).records == s.records
      {
        Wedged(c, h, chunk, s, tips[..n]);
      }
    }
  }

  /** On every run the block to rewind to is not past the scan. */
  lemma {:induction false} RunLooksBack(c: Chain, h: Digest, configFrom: u32, chunk: u32, ss: seq<SyncState>,
                                        es: seq<Event>)
    requires WellFormed(c) && IsRun(c, h, configFrom, chunk, ss, es)
    ensures ss[|es|].lastValid <= ss[|es|].from
  {
    if |es| > 0 {
      var n := |es| - 1;
      RunLooksBack(c, h, configFrom, chunk, ss[..n + 1], es[..n]);
      StepLooksBack(c, h, configFrom, chunk, ss[n], es[n]);
    }
  }

  lemma StepLooksBack(c: Chain, h: Digest, configFrom: u32, chunk: u32, s: SyncState, e: Event)
    requires WellFormed(c) && Legal(c, chunk, s, e) && s.lastValid <= s.from
    ensures Apply(c, h, configFrom, chunk, s, e).lastValid <= Apply(c, h, configFrom, chunk, s, e).from
  {
  }

  /**
   * On every run: a window that the scan has moved past has every message of its answer that was new
   * then stored, for the rest of the run.
   */
  lemma NothingIsPassedOver(c: Chain, h: Digest, configFrom: u32, chunk: u32,
                            ss: seq<SyncState>, es: seq<Event>, i: nat)
    requires WellFormed(c) && IsRun(c, h, configFrom, chunk, ss, es) && i < |es| && es[i].Iterate?
    requires ss[i + 1].from > ss[i].from
    ensures es[i].tip.Some? && es[i].fetched.Some?
    ensures forall x :: x in es[i].fetched.value && IsAbove(ss[i].records.latest, x) ==>
      x.leafIndex in ss[|es|].records.leaf && ss[|es|].records.leaf[x.leafIndex] == RawLeaf(h, x)
  {
    RunLooksBack(c, h, configFrom, chunk, ss[..i + 1], es[..i]);
    MovesOnOrStops(h, ss[i], chunk, es[i].tip, es[i].fetched);
    var low := IndexingIsSafe(c, h, configFrom, chunk, ss, es, i + 1);
  }

  lemma MovesOnOrStops(h: Digest, s: SyncState, chunk: u32, tip: Option<u32>, fetched: Option<seq<RawCommittedMessage>>)
    requires (fetched.Some? ==> Sorted(fetched.value)) && s.lastValid <= s.from
    requires Step(h, s, chunk, tip, fetched).state.from > s.from
    ensures tip.Some? && fetched.Some?
    ensures forall x :: x in fetched.value && IsAbove(s.records.latest, x) ==>
      && x.leafIndex in Step(h, s, chunk, tip, fetched).state.records.leaf
      && Step(h, s, chunk, tip, fetched).state.records.leaf[x.leafIndex] == RawLeaf(h, x)
  {
    MovesOnWhenStored(h, s, chunk, tip, fetched);
  }

  /** The same on every run, with every kind of crash. */
  lemma RunRecoversExactlyWhen(c: Chain, h: Digest, configFrom: u32, chunk: u32, ss: seq<SyncState>, es: seq<Event>,
                               tips: seq<u32>, t: nat)
    requires WellFormed(c) && IsRun(c, h, configFrom, chunk, ss, es)
    requires var s := ss[|es|];
             && t < |c.blocks| && IsAbove(s.records.latest, TrueMessage(c, t)) && s.from <= c.blocks[t]
             && Distance(c, s, t) <= |tips|
    requires forall i :: 0 <= i < |tips| ==> c.blocks[t] < tips[i]
    ensures var s := ss[|es|];
            Rises(c, h, chunk, s, tips) <==>
              Reachable(c, s) || exists i :: 0 <= i < |tips| && tips[i] <= c.blocks[NextIndex(s.records)] + chunk
    ensures ss[|es|].records.rangeStart.Some? || ss[|es|].records.latest.None? ==> Reachable(c, ss[|es|])
  {
    RunIsAnchored(c, h, configFrom, chunk, ss, es);
    RunLooksBack(c, h, configFrom, chunk, ss, es);
    var low := RunIsGood(c, h, configFrom, chunk, ss, es);
    RecoversExactlyWhen(c, h, chunk, ss[|es|], tips, low, t);
  }

  /** A crash after the first of two messages, before the first cursor is stored. */
  lemma CrashOutOfReach(h: Digest, body: seq<u8>) returns (c: Chain, s: SyncState, e: Event)
    requires |body| >= PREFIX_LEN
    ensures WellFormed(c) && c.blocks == [8, 9, 20] && Legal(c, 5, Start(10, NO_RECORDS), e)
    ensures s == Apply(c, h, 10, 5, Start(10, NO_RECORDS), e)
    ensures s.from == s.lastValid == 10 && s.records.latest == Some(0)
  {
    c := Chain([body, body, body], [8, 9, 20]);
    var fetched := [TrueMessage(c, 0), TrueMessage(c, 1)];
    e := CrashAfter(Some(12), Some(fetched), 1);
    s := Apply(c, h, 10, 5, Start(10, NO_RECORDS), e);
    TwoFetchedOneStored(h, fetched);
    MessageIsOnto(body);
  }

  /**
   * A state out of reach does occur: the first window starts before the configured block, and the
   * loop crashes after storing a message but before storing its first cursor.  From then on a
   * message in block 20 waits, and no lossless iteration with the tip above it ever gets there.
   */
  lemma CrashBeforeFirstCursorWedges(h: Digest, body: seq<u8>)
    returns (c: Chain, ss: seq<SyncState>, es: seq<Event>)
    requires |body| >= PREFIX_LEN
    ensures WellFormed(c) && IsRun(c, h, 10, 5, ss, es)
    ensures |c.blocks| == 3 && c.blocks[2] == 20
    ensures IsAbove(ss[|es|].records.latest, TrueMessage(c, 2)) && ss[|es|].from <= 20
    ensures forall tips: seq<u32> :: (forall i :: 0 <= i < |tips| ==> 20 < tips[i]) ==>
      LosslessRun(c, h, 5, ss[|es|], tips).records == ss[|es|].records
  {
    var s: SyncState, e: Event;
    c, s, e := CrashOutOfReach(h, body);
    ss, es := [Start(10, NO_RECORDS), s], [e];
    forall tips: seq<u32> | forall i :: 0 <= i < |tips| ==> 20 < tips[i]
      ensures LosslessRun(c, h, 5, s, tips).records == s.records
    {
      Wedged(c, h, 5, s, tips);
    }
  }

  lemma TwoFetchedOneStored(h: Digest, fetched: seq<RawCommittedMessage>)
    requires |fetched| == 2 && fetched[0].leafIndex == 0 && fetched[1].leafIndex == 1
    requires ParseMessage(fetched[0].message).Some?
    ensures Sorted(fetched)
    ensures Some(PartlyStored(h, NO_RECORDS, fetched, 1)) == WithMessage(h, NO_RECORDS, fetched[0])
  {
    assert Above(None, fetched[..1]) == fetched[..1];
    assert Above(None, fetched) == fetched;
    assert WithMessages(h, NO_RECORDS, fetched[..1][..0]) == (NO_RECORDS, true);
  }
}
