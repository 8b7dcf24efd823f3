/** What the indexer keeps under every run: a provider may drop messages, and the loop may crash. */
module IndexingSafety {
  import opened Numbers
  import opened Types
  import opened Codec
  import opened AbacusDBs
  import opened OutboxSyncs

  /** The messages the chain ever emits, by leaf index, with the block of each. */
  datatype Chain = Chain(messages: seq<seq<u8>>, blocks: seq<u32>)

  ghost predicate WellFormed(c: Chain) {
    && |c.messages| == |c.blocks| <= U32_MAX
    && (forall i, j :: 0 <= i <= j < |c.blocks| ==> c.blocks[i] <= c.blocks[j])
    && forall i :: 0 <= i < |c.messages| ==> |c.messages[i]| >= PREFIX_LEN
  }

  function TrueMessage(c: Chain, i: u32): RawCommittedMessage
    requires i < |c.messages|
  {
    RawCommittedMessage(i, c.messages[i])
  }

  ghost predicate Emitted(c: Chain, raw: RawCommittedMessage, lo: nat, hi: nat)
    requires WellFormed(c)
  {
    && raw.leafIndex < |c.messages| && raw == TrueMessage(c, raw.leafIndex)
    && lo <= c.blocks[raw.leafIndex] <= hi
  }

  /** What a lossy provider may answer for a block window: some of its messages, in order. */
  ghost predicate Response(c: Chain, lo: nat, hi: nat, xs: seq<RawCommittedMessage>)
    requires WellFormed(c)
  {
    Sorted(xs) && forall x :: x in xs ==> Emitted(c, x, lo, hi)
  }

  // The invariant

  /** The stored leaf indices are exactly those from `low` to the latest one. */
  ghost predicate Interval(rs: Records, low: nat) {
    match rs.latest
    case None => forall i: u32 :: i !in rs.leaf
    case Some(m) => low <= m && forall i: u32 :: i in rs.leaf <==> low <= i <= m
  }

  /** Every stored leaf is the leaf of the true message with that index, and its body is there. */
  ghost predicate TrueLeaves(c: Chain, h: Digest, rs: Records)
    requires WellFormed(c)
  {
    && (forall i: u32 :: i in rs.leaf ==>
          i < |c.messages| && rs.leaf[i] == RawLeaf(h, TrueMessage(c, i)) && rs.leaf[i] in rs.message)
    && forall l :: l in rs.message ==> RawLeaf(h, rs.message[l]) == l && |rs.message[l].message| >= PREFIX_LEN
  }

  ghost predicate Good(c: Chain, h: Digest, rs: Records, low: nat)
    requires WellFormed(c)
  {
    Interval(rs, low) && TrueLeaves(c, h, rs)
  }

  /** Nothing stored is taken away or replaced. */
  ghost predicate Extends(rs: Records, more: Records) {
    forall i: u32 :: i in rs.leaf ==> i in more.leaf && more.leaf[i] == rs.leaf[i]
  }

  // Storing

  ghost predicate Follows(rs: Records, n: nat) {
    rs.latest.Some? ==> n == rs.latest.value + 1
  }

  function LowAfter(rs: Records, low: nat, n: nat): nat {
    if rs.latest.Some? then low else n
  }

  lemma StoreOne(c: Chain, h: Digest, rs: Records, low: nat, i: u32) returns (after: Records)
    requires WellFormed(c) && Good(c, h, rs, low) && i < |c.messages| && Follows(rs, i)
    ensures WithMessage(h, rs, TrueMessage(c, i)) == Some(after)
    ensures Good(c, h, after, LowAfter(rs, low, i)) && Extends(rs, after)
    ensures after.latest == Some(i) && after.rangeStart == rs.rangeStart
  {
    MessageIsOnto(c.messages[i]);
    after := WithMessage(h, rs, TrueMessage(c, i)).value;
  }

  /** The batch holds the true messages with the indices from `n` on. */
  ghost predicate Consecutive(c: Chain, xs: seq<RawCommittedMessage>, n: nat)
    requires WellFormed(c)
  {
    n + |xs| <= |c.messages| && forall j :: 0 <= j < |xs| ==> xs[j] == TrueMessage(c, n + j)
  }

  /** `stored` is `rs` with the `count` true messages from index `n` on added. */
  ghost predicate Advanced(c: Chain, h: Digest, rs: Records, low: nat, n: nat, count: nat, stored: Records)
    requires WellFormed(c)
  {
    && Good(c, h, stored, LowAfter(rs, low, n))
    && Extends(rs, stored)
    && stored.rangeStart == rs.rangeStart
    && n + count <= U32_MAX
    && (count > 0 ==> stored.latest == Some(n + count - 1))
    && (count == 0 ==> stored == rs)
  }

  lemma NextAfterPart(c: Chain, h: Digest, rs: Records, low: nat, n: nat, count: nat, stored: Records)
    requires WellFormed(c) && Follows(rs, n) && Advanced(c, h, rs, low, n, count, stored)
    ensures Follows(stored, n + count) && Good(c, h, stored, LowAfter(rs, low, n))
    ensures LowAfter(stored, LowAfter(rs, low, n), n + count) == LowAfter(rs, low, n)
  {
  }

  lemma ThenAdvanced(c: Chain, h: Digest, rs: Records, low: nat, n: nat, count: nat, stored: Records, after: Records)
    requires WellFormed(c) && Advanced(c, h, rs, low, n, count, stored) && n + count < |c.messages|
    requires Good(c, h, after, LowAfter(rs, low, n)) && Extends(stored, after)
    requires after.latest == Some(n + count) && after.rangeStart == stored.rangeStart
    ensures Advanced(c, h, rs, low, n, count + 1, after)
  {
    ExtendsTransitive(rs, stored, after);
  }

  lemma AdvanceOne(c: Chain, h: Digest, rs: Records, low: nat, n: nat, count: nat, stored: Records)
    returns (after: Records)
    requires WellFormed(c) && Follows(rs, n) && Advanced(c, h, rs, low, n, count, stored)
    requires n + count < |c.messages|
    ensures WithMessage(h, stored, TrueMessage(c, n + count)) == Some(after)
    ensures Advanced(c, h, rs, low, n, count + 1, after)
  {
    NextAfterPart(c, h, rs, low, n, count, stored);
    after := StoreOne(c, h, stored, LowAfter(rs, low, n), n + count);
    ThenAdvanced(c, h, rs, low, n, count, stored, after);
  }

  lemma AdvanceNone(c: Chain, h: Digest, rs: Records, low: nat, n: nat)
    requires WellFormed(c) && Good(c, h, rs, low) && n <= U32_MAX
    ensures Advanced(c, h, rs, low, n, 0, rs)
    ensures WithMessages(h, rs, []) == (rs, true)
  {
  }

  lemma ExtendsTransitive(a: Records, b: Records, c: Records)
    requires Extends(a, b) && Extends(b, c)
    ensures Extends(a, c)
  {
  }

  lemma OneMoreMessage(h: Digest, rs: Records, xs: seq<RawCommittedMessage>, x: RawCommittedMessage,
                       stored: Records, after: Records)
    requires WithMessages(h, rs, xs) == (stored, true) && WithMessage(h, stored, x) == Some(after)
    ensures WithMessages(h, rs, xs + [x]) == (after, true)
  {
    assert (xs + [x])[..|xs|] == xs;
  }

  /** The true messages with the indices from `n` on, `count` of them. */
  function BatchFrom(c: Chain, n: nat, count: nat): (xs: seq<RawCommittedMessage>)
    requires n + count <= |c.messages| <= U32_MAX
    ensures |xs| == count
  {
    if count == 0 then [] else BatchFrom(c, n, count - 1) + [TrueMessage(c, n + count - 1)]
  }

  lemma {:induction false} ConsecutiveIsBatch(c: Chain, xs: seq<RawCommittedMessage>, n: nat)
    requires WellFormed(c) && Consecutive(c, xs, n)
    ensures xs == BatchFrom(c, n, |xs|)
  {
    if |xs| > 0 {
      ConsecutiveIsBatch(c, xs[..|xs| - 1], n);
      assert xs == xs[..|xs| - 1] + [xs[|xs| - 1]];
    }
  }

  lemma BatchSteps(c: Chain, n: nat, count: nat)
    requires n + count < |c.messages| <= U32_MAX
    ensures BatchFrom(c, n, count + 1) == BatchFrom(c, n, count) + [TrueMessage(c, n + count)]
  {
  }

  lemma {:induction false} StoreBatchFrom(c: Chain, h: Digest, rs: Records, low: nat, n: nat, count: nat)
    returns (stored: Records)
    requires WellFormed(c) && Good(c, h, rs, low) && n + count <= |c.messages| && Follows(rs, n)
    ensures WithMessages(h, rs, BatchFrom(c, n, count)) == (stored, true)
    ensures Advanced(c, h, rs, low, n, count, stored)
  {
    if count == 0 {
      AdvanceNone(c, h, rs, low, n);
      stored := rs;
    } else {
      var before := count - 1;
      var init := StoreBatchFrom(c, h, rs, low, n, before);
      stored := StoreOneMore(c, h, rs, low, n, before, init);
    }
  }

  lemma StoreOneMore(c: Chain, h: Digest, rs: Records, low: nat, n: nat, count: nat, init: Records)
    returns (stored: Records)
    requires WellFormed(c) && n + count < |c.messages| && Follows(rs, n)
    requires WithMessages(h, rs, BatchFrom(c, n, count)) == (init, true)
    requires Advanced(c, h, rs, low, n, count, init)
    ensures WithMessages(h, rs, BatchFrom(c, n, count + 1)) == (stored, true)
    ensures Advanced(c, h, rs, low, n, count + 1, stored)
  {
    stored := AdvanceOne(c, h, rs, low, n, count, init);
    BatchSteps(c, n, count);
    OneMoreMessage(h, rs, BatchFrom(c, n, count), TrueMessage(c, n + count), init, stored);
  }

  /** A batch of the next true messages is stored completely. */
  lemma StoreAll(c: Chain, h: Digest, rs: Records, low: nat, xs: seq<RawCommittedMessage>, n: nat)
    returns (stored: Records)
    requires WellFormed(c) && Good(c, h, rs, low) && Consecutive(c, xs, n) && Follows(rs, n)
    ensures WithMessages(h, rs, xs) == (stored, true)
    ensures Advanced(c, h, rs, low, n, |xs|, stored)
  {
    ConsecutiveIsBatch(c, xs, n);
    stored := StoreBatchFrom(c, h, rs, low, n, |xs|);
  }

  /** A valid continuation is a run of true messages, right after the latest one. */
  lemma ValidIsConsecutive(c: Chain, last: Option<u32>, xs: seq<RawCommittedMessage>, lo: nat, hi: nat)
    requires WellFormed(c) && Response(c, lo, hi, xs)
    requires forall x :: x in xs ==> IsAbove(last, x)
    requires last.Some? ==> forall j :: 0 <= j < |xs| ==> xs[j].leafIndex >= 1
    requires ValidContinuation(last, xs) == Valid
    ensures Consecutive(c, xs, xs[0].leafIndex)
    ensures last.Some? ==> xs[0].leafIndex == last.value + 1
  {
    assert xs[|xs| - 1] in xs;
    GapFreeIndices(xs, |xs| - 1);
    forall j | 0 <= j < |xs| ensures xs[j] == TrueMessage(c, xs[0].leafIndex + j) {
      GapFreeIndices(xs, j);
      assert xs[j] in xs;
    }
    if last.Some? {
      assert xs[0] in xs;
    }
  }

  lemma AboveIsResponse(c: Chain, last: Option<u32>, lo: nat, hi: nat, xs: seq<RawCommittedMessage>)
    requires WellFormed(c) && Response(c, lo, hi, xs)
    ensures Response(c, lo, hi, Above(last, xs))
  {
    AboveIsSorted(last, xs);
  }

  // Runs

  datatype Event =
    | Iterate(tip: Option<u32>, fetched: Option<seq<RawCommittedMessage>>)
    | Restart
    | CrashAfter(tip: Option<u32>, fetched: Option<seq<RawCommittedMessage>>, stored: nat)

  /** The provider answers some of the messages in the window it was asked for. */
  ghost predicate Answers(c: Chain, chunk: u32, from: nat, tip: Option<u32>, fetched: Option<seq<RawCommittedMessage>>)
    requires WellFormed(c)
  {
    fetched.Some? ==>
      && Sorted(fetched.value)
      && (tip.Some? ==>
            var to := WindowEnd(from, tip.value, chunk);
            Response(c, WindowStart(to, chunk), to, fetched.value))
  }

  ghost predicate Legal(c: Chain, chunk: u32, s: SyncState, e: Event)
    requires WellFormed(c)
  {
    !e.Restart? ==> Answers(c, chunk, s.from, e.tip, e.fetched)
  }

  /** What a crash leaves behind: the first `count` messages of a batch, without the cursor. */
  function PartlyStored(h: Digest, rs: Records, fetched: seq<RawCommittedMessage>, count: nat): Records
    requires Sorted(fetched)
  {
    AboveIsSorted(rs.latest, fetched);
    var batch := Above(rs.latest, fetched);
    if ValidContinuation(rs.latest, batch) == Valid
    then WithMessages(h, rs, batch[..Min(count, |batch|)]).0
    else rs
  }

  function Apply(c: Chain, h: Digest, configFrom: u32, chunk: u32, s: SyncState, e: Event): SyncState
    requires e.Restart? || (e.fetched.Some? ==> Sorted(e.fetched.value))
  {
    match e
    case Iterate(tip, fetched) => Step(h, s, chunk, tip, fetched).state
    case Restart => Start(configFrom, s.records)
    case CrashAfter(tip, fetched, count) =>
      if tip.Some? && s.from < tip.value && fetched.Some?
      then Start(configFrom, PartlyStored(h, s.records, fetched.value, count))
      else Start(configFrom, s.records)
  }

  /** The states of a run: every step is a legal event. */
  ghost predicate IsRun(c: Chain, h: Digest, configFrom: u32, chunk: u32, ss: seq<SyncState>, es: seq<Event>)
    requires WellFormed(c)
  {
    && |ss| == |es| + 1
    && ss[0] == Start(configFrom, NO_RECORDS)
    && forall i :: 0 <= i < |es| ==>
         Legal(c, chunk, ss[i], es[i]) && ss[i + 1] == Apply(c, h, configFrom, chunk, ss[i], es[i])
  }

  // Safety

  lemma {:induction false} AllAboveNone(xs: seq<RawCommittedMessage>)
    ensures Above(None, xs) == xs
  {
    if |xs| > 0 {
      var init := xs[..|xs| - 1];
      AllAboveNone(init);
      assert Above(None, xs) == init + [xs[|xs| - 1]];
    }
  }

  lemma BatchSafe(c: Chain, h: Digest, rs: Records, low: nat, lo: nat, hi: nat, fetched: seq<RawCommittedMessage>,
                  count: nat)
    returns (low': nat)
    requires WellFormed(c) && Good(c, h, rs, low) && Response(c, lo, hi, fetched)
    ensures Good(c, h, PartlyStored(h, rs, fetched, count), low')
    ensures Extends(rs, PartlyStored(h, rs, fetched, count))
    ensures rs.latest.Some? ==> low' == low
    ensures rs.latest.None? && PartlyStored(h, rs, fetched, count).latest.Some? ==>
      |fetched| > 0 && low' == fetched[0].leafIndex
    ensures PartlyStored(h, rs, fetched, count).rangeStart == rs.rangeStart
  {
    low' := low;
    if rs.latest.None? {
      AllAboveNone(fetched);
    }
    AboveIsResponse(c, rs.latest, lo, hi, fetched);
    AboveIsSorted(rs.latest, fetched);
    var batch := Above(rs.latest, fetched);
    if ValidContinuation(rs.latest, batch) == Valid {
      ValidIsConsecutive(c, rs.latest, batch, lo, hi);
      low' := PartSafe(c, h, rs, low, batch, batch[..Min(count, |batch|)]);
    }
  }

  lemma PartSafe(c: Chain, h: Digest, rs: Records, low: nat, batch: seq<RawCommittedMessage>,
                 part: seq<RawCommittedMessage>)
    returns (low': nat)
    requires WellFormed(c) && Good(c, h, rs, low) && |batch| > 0 && part <= batch
    requires Consecutive(c, batch, batch[0].leafIndex) && Follows(rs, batch[0].leafIndex)
    ensures var after := WithMessages(h, rs, part).0;
            && Good(c, h, after, low') && Extends(rs, after) && after.rangeStart == rs.rangeStart
            && (rs.latest.None? && after.latest.Some? ==> low' == batch[0].leafIndex)
    ensures rs.latest.Some? ==> low' == low
  {
    low' := low;
    if |part| > 0 {
      var stored := StoreAll(c, h, rs, low, part, batch[0].leafIndex);
      low' := LowAfter(rs, low, batch[0].leafIndex);
    }
  }

  lemma WholeBatch(h: Digest, rs: Records, fetched: seq<RawCommittedMessage>)
    requires Sorted(fetched)
    ensures var batch := Above(rs.latest, fetched);
            && (rs.latest.Some? ==> forall j :: 0 <= j < |batch| ==> batch[j].leafIndex >= 1) && Sorted(batch)
            && PartlyStored(h, rs, fetched, |batch|)
            == if ValidContinuation(rs.latest, batch) == Valid then WithMessages(h, rs, batch).0 else rs
  {
    AboveIsSorted(rs.latest, fetched);
    var batch := Above(rs.latest, fetched);
    assert batch[..|batch|] == batch;
  }

  /** The records agree on all the indexer's invariant speaks of. */
  ghost predicate SameButCursor(rs: Records, other: Records) {
    rs.leaf == other.leaf && rs.message == other.message && rs.latest == other.latest
  }

  lemma BatchIsStored(h: Digest, s: SyncState, start: u32, to: u32, batch: seq<RawCommittedMessage>)
    ensures SameButCursor(StoreBatch(h, s, start, to, batch).state.records, WithMessages(h, s.records, batch).0)
  {
  }

  lemma StepWithBatch(h: Digest, s: SyncState, chunk: u32, tip: u32, fetched: seq<RawCommittedMessage>)
    requires s.from < tip && Sorted(fetched)
    ensures var batch := Above(s.records.latest, fetched);
            && Sorted(batch) && (s.records.latest.Some? ==> forall j :: 0 <= j < |batch| ==> batch[j].leafIndex >= 1)
            && var next, to := Step(h, s, chunk, Some(tip), Some(fetched)), WindowEnd(s.from, tip, chunk);
               if ValidContinuation(s.records.latest, batch) == Valid
               then next == StoreBatch(h, s, WindowStart(to, chunk), to, batch)
               else next.state.records == s.records
  {
    AboveIsSorted(s.records.latest, fetched);
  }

  /** What an iteration below the tip does to the records is to store the whole batch, or nothing. */
  lemma IterationStoresBatch(h: Digest, s: SyncState, chunk: u32, tip: u32, fetched: seq<RawCommittedMessage>)
    requires s.from < tip && Sorted(fetched)
    ensures SameButCursor(Step(h, s, chunk, Some(tip), Some(fetched)).state.records,
                          PartlyStored(h, s.records, fetched, |Above(s.records.latest, fetched)|))
  {
    StepWithBatch(h, s, chunk, tip, fetched);
    WholeBatch(h, s.records, fetched);
    var batch := Above(s.records.latest, fetched);
    var to := WindowEnd(s.from, tip, chunk);
    if ValidContinuation(s.records.latest, batch) == Valid {
      BatchIsStored(h, s, WindowStart(to, chunk), to, batch);
    }
  }

  lemma CursorDoesNotMatter(c: Chain, h: Digest, rs: Records, other: Records, low: nat)
    requires WellFormed(c) && SameButCursor(rs, other) && Good(c, h, rs, low)
    ensures Good(c, h, other, low)
  {
  }

  lemma IterationSafe(c: Chain, h: Digest, chunk: u32, s: SyncState, tip: u32, fetched: seq<RawCommittedMessage>,
                      low: nat)
    returns (s': SyncState, low': nat)
    requires WellFormed(c) && Good(c, h, s.records, low) && s.from < tip
    requires Answers(c, chunk, s.from, Some(tip), Some(fetched))
    ensures s' == Step(h, s, chunk, Some(tip), Some(fetched)).state
    ensures Good(c, h, s'.records, low') && Extends(s.records, s'.records)
    ensures s.records.latest.Some? ==> low' == low
    ensures s.records.latest.None? && s'.records.latest.Some? ==> |fetched| > 0 && low' == fetched[0].leafIndex
  {
    var to := WindowEnd(s.from, tip, chunk);
    var n := |Above(s.records.latest, fetched)|;
    low' := BatchSafe(c, h, s.records, low, WindowStart(to, chunk), to, fetched, n);
    s' := Step(h, s, chunk, Some(tip), Some(fetched)).state;
    IterationStoresBatch(h, s, chunk, tip, fetched);
    CursorDoesNotMatter(c, h, PartlyStored(h, s.records, fetched, n), s'.records, low');
  }

  lemma StepSafe(c: Chain, h: Digest, configFrom: u32, chunk: u32, s: SyncState, e: Event, low: nat) returns (low': nat)
    requires WellFormed(c) && Good(c, h, s.records, low) && Legal(c, chunk, s, e)
    ensures var s' := Apply(c, h, configFrom, chunk, s, e);
            Good(c, h, s'.records, low') && Extends(s.records, s'.records)
    ensures s.records.latest.Some? ==> low' == low
    ensures s.records.latest.None? && Apply(c, h, configFrom, chunk, s, e).records.latest.Some? ==>
      !e.Restart? && e.fetched.Some? && |e.fetched.value| > 0 && low' == e.fetched.value[0].leafIndex
  {
    low' := low;
    if !e.Restart? && e.tip.Some? && e.fetched.Some? && s.from < e.tip.value {
      if e.CrashAfter? {
        var to := WindowEnd(s.from, e.tip.value, chunk);
        low' := BatchSafe(c, h, s.records, low, WindowStart(to, chunk), to, e.fetched.value, e.stored);
      } else {
        var s';
        s', low' := IterationSafe(c, h, chunk, s, e.tip.value, e.fetched.value, low);
      }
    }
  }

  lemma {:induction false} RunIsGood(c: Chain, h: Digest, configFrom: u32, chunk: u32, ss: seq<SyncState>,
                                     es: seq<Event>)
    returns (low: nat)
    requires WellFormed(c) && IsRun(c, h, configFrom, chunk, ss, es)
    ensures Good(c, h, ss[|es|].records, low)
  {
    if |es| == 0 {
      return 0;
    }
    var n := |es| - 1;
    low := RunIsGood(c, h, configFrom, chunk, ss[..n + 1], es[..n]);
    low := StepSafe(c, h, configFrom, chunk, ss[n], es[n], low);
  }

  /**
   * Safety over whole runs: the stored indices form one interval that ends at the latest index,
   * each stored leaf is the true one, and what was stored once is never replaced or lost.
   */
  lemma {:induction false} IndexingIsSafe(c: Chain, h: Digest, configFrom: u32, chunk: u32, ss: seq<SyncState>,
                                          es: seq<Event>, i: nat)
    returns (low: nat)
    requires WellFormed(c) && IsRun(c, h, configFrom, chunk, ss, es) && i <= |es|
    ensures Good(c, h, ss[|es|].records, low)
    ensures Extends(ss[i].records, ss[|es|].records)
  {
    if i == |es| {
      low := RunIsGood(c, h, configFrom, chunk, ss, es);
    } else {
      var n := |es| - 1;
      low := IndexingIsSafe(c, h, configFrom, chunk, ss[..n + 1], es[..n], i);
      low := StepSafe(c, h, configFrom, chunk, ss[n], es[n], low);
      ExtendsTransitive(ss[i].records, ss[n].records, ss[n + 1].records);
    }
  }

  /** Once something is stored, the first stored index stays the same for the rest of the run. */
  lemma {:induction false} LowStays(c: Chain, h: Digest, configFrom: u32, chunk: u32, ss: seq<SyncState>,
                                    es: seq<Event>, i: nat)
    returns (low: nat)
    requires WellFormed(c) && IsRun(c, h, configFrom, chunk, ss, es) && i <= |es| && ss[i].records.latest.Some?
    ensures Good(c, h, ss[i].records, low) && Good(c, h, ss[|es|].records, low)
    ensures ss[|es|].records.latest.Some?
  {
    if i == |es| {
      low := RunIsGood(c, h, configFrom, chunk, ss, es);
    } else {
      var n := |es| - 1;
      low := LowStays(c, h, configFrom, chunk, ss[..n + 1], es[..n], i);
      var low' := StepSafe(c, h, configFrom, chunk, ss[n], es[n], low);
      LatestIsKept(c, h, ss[n].records, ss[n + 1].records, low, low');
    }
  }

  lemma LatestIsKept(c: Chain, h: Digest, rs: Records, more: Records, low: nat, low': nat)
    requires WellFormed(c) && Good(c, h, rs, low) && Good(c, h, more, low') && Extends(rs, more) && rs.latest.Some?
    ensures more.latest.Some?
  {
    assert rs.latest.value in rs.leaf;
  }

  /** All indices up to the latest one are stored. */
  ghost predicate NoneMissing(rs: Records) {
    rs.latest.Some? && forall j: u32 :: j in rs.leaf <==> j <= rs.latest.value
  }

  lemma NoneMissingMeansZero(c: Chain, h: Digest, rs: Records, low: nat)
    requires WellFormed(c) && Good(c, h, rs, low) && rs.latest.Some?
    ensures NoneMissing(rs) <==> low == 0
    ensures 0 in rs.leaf <==> low == 0
  {
    assert rs.latest.value in rs.leaf;
    if NoneMissing(rs) {
      assert 0 in rs.leaf;
    }
  }

  /**
   * Exactly when all indices up to the latest one are stored: whether index 0 was among the first
   * that were stored decides it, once and for all.
   */
  lemma AllFromZero(c: Chain, h: Digest, configFrom: u32, chunk: u32, ss: seq<SyncState>, es: seq<Event>, i: nat)
    requires WellFormed(c) && IsRun(c, h, configFrom, chunk, ss, es) && i <= |es| && ss[i].records.latest.Some?
    ensures NoneMissing(ss[|es|].records) <==> 0 in ss[i].records.leaf
    ensures 0 in ss[|es|].records.leaf <==> 0 in ss[i].records.leaf
  {
    var low := LowStays(c, h, configFrom, chunk, ss, es, i);
    NoneMissingMeansZero(c, h, ss[i].records, low);
    NoneMissingMeansZero(c, h, ss[|es|].records, low);
  }

  /** In terms of the provider: the answer of which something was stored first must begin with message 0. */
  lemma FirstAnswerDecides(c: Chain, h: Digest, configFrom: u32, chunk: u32, ss: seq<SyncState>, es: seq<Event>, i: nat)
    requires WellFormed(c) && IsRun(c, h, configFrom, chunk, ss, es) && i < |es|
    requires ss[i].records.latest.None? && ss[i + 1].records.latest.Some?
    ensures !es[i].Restart? && es[i].fetched.Some? && |es[i].fetched.value| > 0
    ensures NoneMissing(ss[|es|].records) <==> es[i].fetched.value[0].leafIndex == 0
  {
    var low := RunIsGood(c, h, configFrom, chunk, ss[..i + 1], es[..i]);
    var low' := StepSafe(c, h, configFrom, chunk, ss[i], es[i], low);
    NoneMissingMeansZero(c, h, ss[i + 1].records, low');
    AllFromZero(c, h, configFrom, chunk, ss, es, i + 1);
  }

  /** A run on which it fails: the provider drops message 0 from its first answer. */
  lemma DroppedZeroIsNeverStored(h: Digest, body: seq<u8>) returns (c: Chain, ss: seq<SyncState>, es: seq<Event>)
    requires |body| >= PREFIX_LEN
    ensures WellFormed(c) && c.blocks == [1, 2] && IsRun(c, h, 0, 5, ss, es)
    ensures ss[|es|].records.latest == Some(1) && 0 !in ss[|es|].records.leaf
  {
    c := Chain([body, body], [1, 2]);
    var fetched := [TrueMessage(c, 1)];
    var s := Start(0, NO_RECORDS);
    MessageIsOnto(body);
    var s' := OneMessageIsStored(h, s, fetched);
    ss, es := [s, s'], [Iterate(Some(3), Some(fetched))];
  }

  lemma StoringKeepsLeaves(h: Digest, rs: Records, raw: RawCommittedMessage)
    requires WithMessage(h, rs, raw).Some?
    ensures WithMessage(h, rs, raw).value.leaf.Keys == rs.leaf.Keys + {raw.leafIndex}
    ensures WithMessage(h, rs, raw).value.latest == Some(Raised(rs.latest, raw.leafIndex))
    ensures WithMessage(h, rs, raw).value.processed == rs.processed
  {
  }

  lemma OneMessageIsStored(h: Digest, s: SyncState, fetched: seq<RawCommittedMessage>) returns (s': SyncState)
    requires s == SyncState(0, 0, NO_RECORDS) && |fetched| == 1 && ParseMessage(fetched[0].message).Some?
    ensures Step(h, s, 5, Some(3), Some(fetched)) == Running(s')
    ensures s'.records.latest == Some(fetched[0].leafIndex) && s'.records.leaf.Keys == {fetched[0].leafIndex}
  {
    var stored := WithMessage(h, NO_RECORDS, fetched[0]).value;
    s' := SyncState(4, 0, stored.(rangeStart := Some(0)));
    AllAboveNone(fetched);
    assert fetched == [] + [fetched[0]];
    OneMoreMessage(h, NO_RECORDS, [], fetched[0], NO_RECORDS, stored);
    StoringKeepsLeaves(h, NO_RECORDS, fetched[0]);
  }

  /** Reading a stored index gives its message back, or two messages have one digest. */
  lemma StoredMessageIsTrue(c: Chain, h: Digest, rs: Records, low: nat, i: u32)
    requires WellFormed(c) && Good(c, h, rs, low) && i in rs.leaf
    ensures MessageAt(rs, i).Some? && i < |c.messages|
    ensures var raw := MessageAt(rs, i).value;
            raw == TrueMessage(c, i) || (var s, t := Preimage(raw.message, raw.leafIndex), Preimage(c.messages[i], i);
                                         s != t && h(s) == h(t))
  {
    LeafBinds(h, MessageAt(rs, i).value, TrueMessage(c, i));
  }
}
