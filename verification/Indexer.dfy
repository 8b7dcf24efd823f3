/**
 * The message indexer one write at a time: an iteration polls, stores its batch message by message,
 * and stores its cursor.  Between any two of these the other components may move.
 */
module Indexers {
  import opened Numbers
  import opened Types
  import opened Codec
  import opened AbacusDBs
  import opened OutboxSyncs
  import opened IndexingSafety

  datatype Phase =
    | Idle
    | Storing(batch: seq<RawCommittedMessage>, done: nat, start: u32, to: u32)
    | Ended

  /** What the loop keeps in memory. */
  datatype Indexer = Indexer(from: nat, lastValid: nat, phase: Phase)

  function Boot(configFrom: u32, rs: Records): Indexer {
    var s := Start(configFrom, rs);
    Indexer(s.from, s.lastValid, Idle)
  }

  /** An iteration up to the point where it would store something. */
  function Poll(x: Indexer, rs: Records, chunk: u32, tip: Option<u32>,
                fetched: Option<seq<RawCommittedMessage>>): Indexer
    requires fetched.Some? ==> Sorted(fetched.value)
  {
    if tip.None? || tip.value <= x.from then x
    else if fetched.None? then x.(phase := Ended)
    else
      AboveIsSorted(rs.latest, fetched.value);
      var to := WindowEnd(x.from, tip.value, chunk);
      var batch := Above(rs.latest, fetched.value);
      match ValidContinuation(rs.latest, batch)
      case Empty => x.(from := to + 1)
      case Valid => x.(phase := Storing(batch, 0, WindowStart(to, chunk), to))
      case InvalidContinuation => x.(from := x.lastValid)
      case ContainsGaps => x
  }

  predicate HasNextMessage(x: Indexer) {
    x.phase.Storing? && x.phase.done < |x.phase.batch|
  }

  function NextMessage(x: Indexer): RawCommittedMessage
    requires HasNextMessage(x)
  {
    x.phase.batch[x.phase.done]
  }

  function AfterMessage(x: Indexer): Indexer
    requires HasNextMessage(x)
  {
    x.(phase := x.phase.(done := x.phase.done + 1))
  }

  predicate AllStored(x: Indexer) {
    x.phase.Storing? && x.phase.done == |x.phase.batch|
  }

  function WithCursor(x: Indexer, rs: Records): Records
    requires AllStored(x)
  {
    rs.(rangeStart := Some(x.phase.start))
  }

  function AfterBatch(x: Indexer): Indexer
    requires AllStored(x)
  {
    Indexer(x.phase.to + 1, x.phase.start, Idle)
  }

  // What holds between the writes

  /** The rest of the batch is the run of true messages right after the latest one. */
  ghost predicate BatchMatches(c: Chain, rs: Records, phase: Phase)
    requires WellFormed(c)
  {
    phase.Storing? ==>
      && |phase.batch| > 0 && phase.done <= |phase.batch|
      && Consecutive(c, phase.batch, phase.batch[0].leafIndex)
      && (phase.done < |phase.batch| ==> Follows(rs, phase.batch[phase.done].leafIndex))
  }

  ghost predicate OnTrack(c: Chain, h: Digest, rs: Records, x: Indexer, low: nat)
    requires WellFormed(c)
  {
    Good(c, h, rs, low) && BatchMatches(c, rs, x.phase)
  }

  lemma BootOnTrack(c: Chain, h: Digest, configFrom: u32, rs: Records, low: nat)
    requires WellFormed(c) && Good(c, h, rs, low)
    ensures OnTrack(c, h, rs, Boot(configFrom, rs), low)
  {
  }

  /** Writes to other records do not disturb the indexer. */
  lemma OthersMayWrite(c: Chain, h: Digest, rs: Records, other: Records, x: Indexer, low: nat)
    requires WellFormed(c) && OnTrack(c, h, rs, x, low)
    requires other.leaf == rs.leaf && other.message == rs.message && other.latest == rs.latest
    ensures OnTrack(c, h, other, x, low)
  {
  }

  lemma PollOnTrack(c: Chain, h: Digest, rs: Records, x: Indexer, low: nat, chunk: u32,
                    tip: Option<u32>, fetched: Option<seq<RawCommittedMessage>>)
    requires WellFormed(c) && OnTrack(c, h, rs, x, low) && Answers(c, chunk, x.from, tip, fetched)
    ensures OnTrack(c, h, rs, Poll(x, rs, chunk, tip, fetched), low)
  {
    if tip.Some? && x.from < tip.value && fetched.Some? {
      var to := WindowEnd(x.from, tip.value, chunk);
      var batch := Above(rs.latest, fetched.value);
      AboveIsSorted(rs.latest, fetched.value);
      AboveIsResponse(c, rs.latest, WindowStart(to, chunk), to, fetched.value);
      if ValidContinuation(rs.latest, batch) == Valid {
        ValidIsConsecutive(c, rs.latest, batch, WindowStart(to, chunk), to);
      }
    }
  }

  /** The next message of a batch is a true one, parses, and has an index not stored before. */
  lemma NextIsNew(c: Chain, h: Digest, rs: Records, x: Indexer, low: nat)
    requires WellFormed(c) && OnTrack(c, h, rs, x, low) && HasNextMessage(x)
    ensures var raw := NextMessage(x);
            && raw.leafIndex < |c.messages| && raw == TrueMessage(c, raw.leafIndex)
            && raw.leafIndex !in rs.leaf && ParseMessage(raw.message).Some?
  {
    MessageIsOnto(NextMessage(x).message);
  }

  lemma MessageOnTrack(c: Chain, h: Digest, rs: Records, x: Indexer, low: nat) returns (after: Records, low': nat)
    requires WellFormed(c) && OnTrack(c, h, rs, x, low) && HasNextMessage(x)
    ensures WithMessage(h, rs, NextMessage(x)) == Some(after)
    ensures OnTrack(c, h, after, AfterMessage(x), low')
  {
    NextIsNew(c, h, rs, x, low);
    var i := NextMessage(x).leafIndex;
    after := StoreOne(c, h, rs, low, i);
    low' := LowAfter(rs, low, i);
  }

  lemma CursorOnTrack(c: Chain, h: Digest, rs: Records, x: Indexer, low: nat)
    requires WellFormed(c) && OnTrack(c, h, rs, x, low) && AllStored(x)
    ensures OnTrack(c, h, WithCursor(x, rs), AfterBatch(x), low)
  {
    OthersMayWrite(c, h, rs, WithCursor(x, rs), x, low);
  }

  // The writes of an iteration together are the iteration

  lemma PollIsStep(h: Digest, s: SyncState, chunk: u32, tip: Option<u32>, fetched: Option<seq<RawCommittedMessage>>)
    requires fetched.Some? ==> Sorted(fetched.value)
    ensures var x := Poll(Indexer(s.from, s.lastValid, Idle), s.records, chunk, tip, fetched);
            Step(h, s, chunk, tip, fetched)
            == match x.phase
               case Idle => Running(SyncState(x.from, x.lastValid, s.records))
               case Ended => Stopped(s)
               case Storing(batch, _, start, to) => StoreBatch(h, s, start, to, batch)
  {
  }

  /** The records between the writes of a batch: `mids[j]` after `j` messages. */
  ghost predicate StoredInSteps(h: Digest, batch: seq<RawCommittedMessage>, mids: seq<Records>) {
    && |mids| == |batch| + 1
    && forall j :: 0 <= j < |batch| ==>
         batch[j].leafIndex !in mids[j].leaf && WithMessage(h, mids[j], batch[j]) == Some(mids[j + 1])
  }

  lemma {:induction false} StepsAreMessages(h: Digest, batch: seq<RawCommittedMessage>, mids: seq<Records>, j: nat)
    requires StoredInSteps(h, batch, mids) && j <= |batch|
    ensures WithMessages(h, mids[0], batch[..j]) == (mids[j], true)
  {
    if j > 0 {
      StepsAreMessages(h, batch, mids, j - 1);
      assert batch[..j][..j - 1] == batch[..j - 1];
    }
  }

  lemma {:induction false} BatchInSteps(c: Chain, h: Digest, rs: Records, x: Indexer, low: nat)
    returns (mids: seq<Records>)
    requires WellFormed(c) && OnTrack(c, h, rs, x, low) && x.phase.Storing?
    ensures |mids| > 0 && mids[0] == rs && StoredInSteps(h, x.phase.batch[x.phase.done..], mids)
    decreases if x.phase.Storing? then |x.phase.batch| - x.phase.done else 0
  {
    mids := [rs];
    if HasNextMessage(x) {
      NextIsNew(c, h, rs, x, low);
      var after, low' := MessageOnTrack(c, h, rs, x, low);
      var rest := BatchInSteps(c, h, after, AfterMessage(x), low');
      mids := [rs] + rest;
    }
  }

  /**
   * From a good state, every part of a stored batch is a sequence of writes of new messages, and
   * the whole sequence with the cursor is the iteration.
   */
  lemma IterationInSteps(c: Chain, h: Digest, s: SyncState, low: nat, chunk: u32, tip: Option<u32>,
                         fetched: Option<seq<RawCommittedMessage>>, x: Indexer)
    returns (mids: seq<Records>)
    requires WellFormed(c) && Good(c, h, s.records, low) && Answers(c, chunk, s.from, tip, fetched)
    requires x == Poll(Indexer(s.from, s.lastValid, Idle), s.records, chunk, tip, fetched) && x.phase.Storing?
    ensures StoredInSteps(h, x.phase.batch, mids) && mids[0] == s.records
    ensures var stored := mids[|x.phase.batch|].(rangeStart := Some(x.phase.start));
            Step(h, s, chunk, tip, fetched) == Running(SyncState(x.phase.to + 1, x.phase.start, stored))
  {
    PollOnTrack(c, h, s.records, Indexer(s.from, s.lastValid, Idle), low, chunk, tip, fetched);
    PollIsStep(h, s, chunk, tip, fetched);
    mids := WholeBatchInSteps(c, h, s.records, x, low);
    StoredIsStoreBatch(h, s, x.phase.start, x.phase.to, x.phase.batch, mids[|x.phase.batch|]);
  }

  lemma StoredIsStoreBatch(h: Digest, s: SyncState, start: u32, to: u32, batch: seq<RawCommittedMessage>,
                           stored: Records)
    requires WithMessages(h, s.records, batch) == (stored, true)
    ensures StoreBatch(h, s, start, to, batch)
         == Running(SyncState(to + 1, start, stored.(rangeStart := Some(start))))
  {
  }

  lemma WholeBatchInSteps(c: Chain, h: Digest, rs: Records, x: Indexer, low: nat) returns (mids: seq<Records>)
    requires WellFormed(c) && OnTrack(c, h, rs, x, low) && x.phase.Storing? && x.phase.done == 0
    ensures StoredInSteps(h, x.phase.batch, mids) && mids[0] == rs
    ensures WithMessages(h, rs, x.phase.batch) == (mids[|x.phase.batch|], true)
  {
    mids := BatchInSteps(c, h, rs, x, low);
    assert x.phase.batch[0..] == x.phase.batch;
    StepsAreMessages(h, x.phase.batch, mids, |x.phase.batch|);
    assert x.phase.batch[..|x.phase.batch|] == x.phase.batch;
  }
}
