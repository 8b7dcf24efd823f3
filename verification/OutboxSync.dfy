/** The message indexer: block windows over a lossy provider, continuation checks, and rewinding. */
module OutboxSyncs {
  import opened Numbers
  import opened Types
  import opened Codec
  import opened AbacusDBs

  // The list of messages a provider answered with

  datatype ListValidity = Valid | InvalidContinuation | ContainsGaps | Empty

  predicate Sorted(xs: seq<RawCommittedMessage>) {
    forall i, j :: 0 <= i < j < |xs| ==> xs[i].leafIndex < xs[j].leafIndex
  }

  predicate GapFree(xs: seq<RawCommittedMessage>)
    requires Sorted(xs)
  {
    forall j :: 1 <= j < |xs| ==> xs[j - 1].leafIndex == xs[j].leafIndex - 1
  }

  /**
   * Whether the list continues what was seen last.  The index of every message is reduced by
   * one here; the requirement is what keeps that from going below zero.
   */
  function ValidContinuation(last: Option<u32>, xs: seq<RawCommittedMessage>): ListValidity
    requires Sorted(xs)
    requires last.Some? ==> forall j :: 0 <= j < |xs| ==> xs[j].leafIndex >= 1
  {
    if |xs| == 0 then Empty
    else if last.Some? && !exists j :: 0 <= j < |xs| && last.value == xs[j].leafIndex - 1 then InvalidContinuation
    else if !GapFree(xs) then ContainsGaps
    else Valid
  }

  lemma {:induction false} GapFreeIndices(xs: seq<RawCommittedMessage>, j: nat)
    requires Sorted(xs) && GapFree(xs) && j < |xs|
    ensures xs[j].leafIndex == xs[0].leafIndex + j
  {
    if j > 0 {
      GapFreeIndices(xs, j - 1);
    }
  }

  /** The indices go up by one from each message to the next. */
  ghost predicate InSequence(xs: seq<RawCommittedMessage>) {
    forall j :: 0 <= j < |xs| ==> xs[j].leafIndex == xs[0].leafIndex + j
  }

  /** The message after the latest one is in the list, if there is a latest one. */
  ghost predicate HasSuccessor(last: Option<u32>, xs: seq<RawCommittedMessage>) {
    last.Some? ==> exists x :: x in xs && x.leafIndex == last.value + 1
  }

  lemma GapFreeIsInSequence(xs: seq<RawCommittedMessage>)
    requires Sorted(xs)
    ensures GapFree(xs) <==> InSequence(xs)
  {
    if GapFree(xs) {
      forall j | 0 <= j < |xs| ensures xs[j].leafIndex == xs[0].leafIndex + j {
        GapFreeIndices(xs, j);
      }
    }
  }

  /** What each answer means. */
  lemma ValidityMeans(last: Option<u32>, xs: seq<RawCommittedMessage>)
    requires Sorted(xs) && (last.Some? ==> forall j :: 0 <= j < |xs| ==> xs[j].leafIndex >= 1)
    ensures match ValidContinuation(last, xs)
            case Empty => |xs| == 0
            case InvalidContinuation => |xs| > 0 && !HasSuccessor(last, xs)
            case ContainsGaps => |xs| > 0 && HasSuccessor(last, xs) && !InSequence(xs)
            case Valid => |xs| > 0 && HasSuccessor(last, xs) && InSequence(xs)
  {
    GapFreeIsInSequence(xs);
    if last.Some? && HasSuccessor(last, xs) {
      var x :| x in xs && x.leafIndex == last.value + 1;
    }
  }

  predicate IsAbove(last: Option<u32>, raw: RawCommittedMessage) {
    last.Some? ==> raw.leafIndex > last.value
  }

  /** The messages not stored yet. */
  function Above(last: Option<u32>, xs: seq<RawCommittedMessage>): (ys: seq<RawCommittedMessage>)
    ensures forall y :: y in ys <==> y in xs && IsAbove(last, y)
  {
    if |xs| == 0 then []
    else Above(last, xs[..|xs| - 1]) + (if IsAbove(last, xs[|xs| - 1]) then [xs[|xs| - 1]] else [])
  }

  lemma {:induction false} AboveIsSorted(last: Option<u32>, xs: seq<RawCommittedMessage>)
    requires Sorted(xs)
    ensures Sorted(Above(last, xs))
    ensures last.Some? ==> forall j :: 0 <= j < |Above(last, xs)| ==> Above(last, xs)[j].leafIndex >= 1
  {
    if |xs| > 0 {
      var init := xs[..|xs| - 1];
      AboveIsSorted(last, init);
      forall j | 0 <= j < |Above(last, init)| ensures Above(last, init)[j].leafIndex < xs[|xs| - 1].leafIndex {
        assert Above(last, init)[j] in init;
      }
    }
    forall j | 0 <= j < |Above(last, xs)| ensures IsAbove(last, Above(last, xs)[j]) {
      assert Above(last, xs)[j] in Above(last, xs);
    }
  }

  /** Every index that is reduced by one while the list is stored is at least 1: none wraps around. */
  ghost predicate Reducible(latest: Option<u32>, raws: seq<RawCommittedMessage>) {
    forall j :: 0 <= j < |raws| && (j > 0 || latest.Some?) ==> raws[j].leafIndex >= 1
  }

  lemma SortedIsReducible(last: Option<u32>, xs: seq<RawCommittedMessage>)
    requires Sorted(xs) && (last.Some? ==> forall j :: 0 <= j < |xs| ==> xs[j].leafIndex >= 1)
    ensures Reducible(last, xs)
  {
    forall j | 0 < j < |xs| ensures xs[j].leafIndex >= 1 {
      assert xs[0].leafIndex < xs[j].leafIndex;
    }
  }

  // One iteration of the loop

  datatype SyncState = SyncState(from: nat, lastValid: nat, records: Records)

  datatype Next = Running(state: SyncState) | Stopped(state: SyncState)

  function WindowEnd(from: nat, tip: u32, chunk: u32): u32 {
    Min(tip, from + chunk)
  }

  /** The full-size window that ends at `to`. */
  function WindowStart(to: u32, chunk: u32): u32 {
    if to >= chunk then to - chunk else 0
  }

  /** The window covers what is left to scan and is never longer than a chunk. */
  lemma WindowCovers(from: nat, tip: u32, chunk: u32)
    requires from < tip
    ensures var to := WindowEnd(from, tip, chunk);
            WindowStart(to, chunk) <= from <= to <= tip && to - WindowStart(to, chunk) <= chunk
  {
  }

  /** It is as long as it can be: up to the tip or a chunk ahead, and back a full chunk or to block 0. */
  lemma WindowIsFull(from: nat, tip: u32, chunk: u32)
    requires from < tip
    ensures var to := WindowEnd(from, tip, chunk);
            && (to < tip ==> to == from + chunk) && (to < from + chunk ==> to == tip)
            && (WindowStart(to, chunk) > 0 ==> WindowStart(to, chunk) + chunk == to)
            && (to - WindowStart(to, chunk) < chunk ==> WindowStart(to, chunk) == 0)
  {
  }

  function Start(configFrom: u32, records: Records): SyncState {
    var from := if records.rangeStart.Some? then records.rangeStart.value else configFrom;
    SyncState(from, from, records)
  }

  /** A restart scans again from the start of the last valid window; a new database from the configured block. */
  lemma RestartsAtTheCursor(h: Digest, configFrom: u32, s: SyncState, start: u32, to: u32,
                            batch: seq<RawCommittedMessage>)
    requires StoreBatch(h, s, start, to, batch).Running?
    ensures Start(configFrom, StoreBatch(h, s, start, to, batch).state.records)
         == StoreBatch(h, s, start, to, batch).state.(from := start, lastValid := start)
    ensures Start(configFrom, NO_RECORDS).from == Start(configFrom, NO_RECORDS).lastValid == configFrom
  {
  }

  /** One iteration, given the answers of the provider; nothing stands for a failed call. */
  function Step(h: Digest, s: SyncState, chunk: u32, tip: Option<u32>, fetched: Option<seq<RawCommittedMessage>>): Next
    requires fetched.Some? ==> Sorted(fetched.value)
  {
    if tip.None? || tip.value <= s.from then Running(s)
    else if fetched.None? then Stopped(s)
    else
      AboveIsSorted(s.records.latest, fetched.value);
      var to := WindowEnd(s.from, tip.value, chunk);
      var batch := Above(s.records.latest, fetched.value);
      match ValidContinuation(s.records.latest, batch)
      case Empty => Running(s.(from := to + 1))
      case Valid => StoreBatch(h, s, WindowStart(to, chunk), to, batch)
      case InvalidContinuation => Running(s.(from := s.lastValid))
      case ContainsGaps => Running(s)
  }

  function StoreBatch(h: Digest, s: SyncState, start: u32, to: u32, batch: seq<RawCommittedMessage>): Next {
    var (stored, ok) := WithMessages(h, s.records, batch);
    if !ok then Stopped(s.(records := stored))
    else Running(SyncState(to + 1, start, stored.(rangeStart := Some(start))))
  }

  /** The outcomes of an iteration, by what the provider answered. */
  lemma StepOutcome(h: Digest, s: SyncState, chunk: u32, tip: Option<u32>, fetched: Option<seq<RawCommittedMessage>>)
    requires fetched.Some? ==> Sorted(fetched.value)
    ensures var next := Step(h, s, chunk, tip, fetched);
            if tip.None? || tip.value <= s.from then next == Running(s)
            else if fetched.None? then next == Stopped(s)
            else
              var to, batch := WindowEnd(s.from, tip.value, chunk), Above(s.records.latest, fetched.value);
              if |batch| == 0 then next == Running(s.(from := to + 1))
              else if !HasSuccessor(s.records.latest, batch) then next == Running(s.(from := s.lastValid))
              else if !InSequence(batch) then next == Running(s)
              else next == StoreBatch(h, s, WindowStart(to, chunk), to, batch)
  {
    if tip.Some? && s.from < tip.value && fetched.Some? {
      AboveIsSorted(s.records.latest, fetched.value);
      ValidityMeans(s.records.latest, Above(s.records.latest, fetched.value));
    }
  }

  /** Every message of a stored list has its leaf stored. */
  lemma {:induction false} AllAreStored(h: Digest, rs: Records, xs: seq<RawCommittedMessage>)
    requires Sorted(xs) && WithMessages(h, rs, xs).1
    ensures forall x :: x in xs ==>
      x.leafIndex in WithMessages(h, rs, xs).0.leaf && WithMessages(h, rs, xs).0.leaf[x.leafIndex] == RawLeaf(h, x)
  {
    if |xs| > 0 {
      var init, last := xs[..|xs| - 1], xs[|xs| - 1];
      AllAreStored(h, rs, init);
      forall x | x in xs
        ensures x.leafIndex in WithMessages(h, rs, xs).0.leaf
        ensures WithMessages(h, rs, xs).0.leaf[x.leafIndex] == RawLeaf(h, x)
      {
        if x != last {
          var j :| 0 <= j < |xs| && xs[j] == x;
          assert x in init;
        }
      }
    }
  }

  /**
   * The scan moves on only past a window that brought nothing new, or of which everything new was
   * stored, with the cursor.
   */
  lemma MovesOnWhenStored(h: Digest, s: SyncState, chunk: u32, tip: Option<u32>,
                          fetched: Option<seq<RawCommittedMessage>>)
    requires (fetched.Some? ==> Sorted(fetched.value)) && s.lastValid <= s.from
    requires var next := Step(h, s, chunk, tip, fetched); next.Running? && next.state.from > s.from
    ensures tip.Some? && s.from < tip.value && fetched.Some?
    ensures var to, s' := WindowEnd(s.from, tip.value, chunk), Step(h, s, chunk, tip, fetched).state;
            && s'.from == to + 1
            && (forall x :: x in fetched.value && IsAbove(s.records.latest, x) ==>
                  && x.leafIndex in s'.records.leaf && s'.records.leaf[x.leafIndex] == RawLeaf(h, x)
                  && s'.records.rangeStart == Some(WindowStart(to, chunk)) && s'.lastValid == WindowStart(to, chunk))
            && ((forall x :: x in fetched.value ==> !IsAbove(s.records.latest, x)) ==> s' == s.(from := to + 1))
  {
    StepOutcome(h, s, chunk, tip, fetched);
    var batch := Above(s.records.latest, fetched.value);
    if |batch| > 0 {
      assert batch[0] in batch;
      AboveIsSorted(s.records.latest, fetched.value);
      AllAreStored(h, s.records, batch);
    }
  }

  /** The indexer, on top of the database handle. */
  class OutboxSync {
    var from: nat
    var lastValid: nat
    const db: AbacusDB

    ghost function State(): SyncState
      reads this, db
    {
      SyncState(from, lastValid, db.records)
    }

    constructor (configFrom: u32, db: AbacusDB)
      requires db.Valid()
      ensures this.db == db && State() == Start(configFrom, db.records)
    {
      this.db := db;
      new;
      var start := db.RetrieveRangeStart();
      from := if start.Some? then start.value else configFrom;
      lastValid := from;
    }

    method Iterate(h: Digest, chunk: u32, tip: Option<u32>, fetched: Option<seq<RawCommittedMessage>>)
      returns (running: bool)
      requires db.Valid() && (fetched.Some? ==> Sorted(fetched.value))
      modifies this, db
      ensures db.Valid()
      ensures Step(h, old(State()), chunk, tip, fetched) == if running then Running(State()) else Stopped(State())
    {
      if tip.None? || tip.value <= from {
        return true;
      }
      if fetched.None? {
        return false;
      }
      var to: nat := WindowEnd(from, tip.value, chunk);
      var last := db.RetrieveLatestLeafIndex();
      AboveIsSorted(last, fetched.value);
      var sortedMessages := Above(last, fetched.value);
      var validity := ValidContinuation(last, sortedMessages);
      if validity == Empty {
        from := to + 1;
      } else if validity == Valid {
        SortedIsReducible(last, sortedMessages);
        assert Reducible(last, sortedMessages);
        running := Store(h, WindowStart(to, chunk), to, sortedMessages);
        return;
      } else if validity == InvalidContinuation {
        from := lastValid;
      }
      return true;
    }

    method Store(h: Digest, fullChunkFrom: u32, to: u32, batch: seq<RawCommittedMessage>) returns (running: bool)
      requires db.Valid()
      modifies this, db
      ensures db.Valid()
      ensures StoreBatch(h, old(State()), fullChunkFrom, to, batch)
           == if running then Running(State()) else Stopped(State())
    {
      var maxLeafIndex := db.StoreMessages(h, batch);
      if maxLeafIndex == None {
        return false;
      }
      db.StoreRangeStart(fullChunkFrom);
      lastValid := fullChunkFrom;
      var end: nat := to;
      from := end + 1;
      return true;
    }
  }
}
