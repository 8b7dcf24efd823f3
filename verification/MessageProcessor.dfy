/** The fetcher and the processor as the objects that hold their fields. */
module MessageProcessors {
  import opened Numbers
  import opened Hashing
  import opened Types
  import opened Provers
  import opened MerkleTreeBuilders
  import opened Pipelines
  import Q = Multisigs

  /** What a poll comes to; a failed fetch, or a channel nobody listens to, ends the fetcher. */
  datatype Polled = Quiet | Sent(checkpoint: Checkpoint) | Ended

  class CheckpointFetcher {
    const syncer: Q.MultisigCheckpointSyncer
    var latestSigned: u32

    constructor (syncer: Q.MultisigCheckpointSyncer)
      ensures this.syncer == syncer && latestSigned == 0
    {
      this.syncer := syncer;
      latestSigned := 0;
    }

    /**
     * One poll.  The validators are visited in one order for the latest index, and perhaps in
     * another one for the checkpoint.  A checkpoint is sent exactly when its index is new, a quorum
     * for it is fetched and somebody listens; the fetcher ends exactly when the fetch of a new index
     * fails or nobody listens.  So what is sent always has a higher index than anything sent before.
     */
    method Poll(net: Q.Net, order: seq<Q.Address>, other: seq<Q.Address>, open: bool)
      returns (result: Polled, ghost found: Option<u32>, ghost fetched: Q.Fetched)
      requires Q.SameValidators(order, other)
      modifies this
      ensures Q.LatestSpec(net, order, syncer.threshold, found)
      ensures found.Some? && found.value > old(latestSigned) ==>
        Q.FetchSpec(net, other, syncer.threshold, found.value, fetched)
      ensures result.Sent? <==> found.Some? && found.value > old(latestSigned) && fetched.Quorum? && open
      ensures result.Ended? <==>
        found.Some? && found.value > old(latestSigned) && (fetched.Failed? || (fetched.Quorum? && !open))
      ensures result.Sent? ==>
        && result.checkpoint == fetched.checkpoint.checkpoint && result.checkpoint.index == found.value
        && latestSigned == found.value > old(latestSigned)
      ensures !result.Sent? ==> latestSigned == old(latestSigned)
      ensures found.Some? && found.value > old(latestSigned) && open && !Q.Disturbed(net, other, found.value) ==>
        forall root :: Q.OnlyQuorum(net, other, syncer.threshold, found.value, root) ==>
          result.Sent? && result.checkpoint.root == root
    {
      fetched := Q.NoQuorum;
      var latest := syncer.LatestIndex(net, order);
      found := latest;
      if latest.None? || latest.value <= latestSigned {
        return Quiet, found, fetched;
      }
      var answer := syncer.FetchCheckpoint(net, other, latest.value);
      fetched := answer;
      OneRootIsFetched(net, other, syncer.threshold, latest.value, answer);
      if answer.Failed? {
        return Ended, found, fetched;
      } else if answer.NoQuorum? {
        return Quiet, found, fetched;
      }
      QuorumHasIndex(net, other, syncer.threshold, latest.value, answer.checkpoint);
      if !open {
        return Ended, found, fetched;
      }
      latestSigned := answer.checkpoint.checkpoint.index;
      return Sent(answer.checkpoint.checkpoint), found, fetched;
    }
  }

  lemma OneRootIsFetched(net: Q.Net, order: seq<Q.Address>, threshold: nat, index: u32, r: Q.Fetched)
    requires Q.Distinct(order) && Q.FetchSpec(net, order, threshold, index, r)
    ensures !Q.Disturbed(net, order, index) ==>
      forall root :: Q.OnlyQuorum(net, order, threshold, index, root) ==>
        r.Quorum? && r.checkpoint.checkpoint.root == root
  {
    forall root | !Q.Disturbed(net, order, index) && Q.OnlyQuorum(net, order, threshold, index, root)
      ensures r.Quorum? && r.checkpoint.checkpoint.root == root
    {
      Q.OnlyQuorumIsFetched(net, order, threshold, index, r, root);
    }
  }

  lemma QuorumHasIndex(net: Q.Net, order: seq<Q.Address>, threshold: nat, index: u32, ms: Q.Multisig)
    requires Q.Sound(net, order, threshold, index, ms)
    ensures ms.checkpoint.index == index
  {
    var signers :| Q.SignedBy(net, order, index, ms, signers) && |signers| >= Q.Needed(threshold);
  }

  // The processor's moves, one after the other

  /** The states that a sequence of moves of the processor goes through. */
  ghost predicate IsPath(g: Config, path: seq<State>) {
    && |path| > 0
    && forall i :: 0 <= i < |path| - 1 ==> path[i].leafIndex < U32_MAX && path[i + 1] == ProcessorStep(g, path[i])
  }

  /** Moves of the processor lead from `s` to `t`. */
  ghost predicate Leads(g: Config, s: State, path: seq<State>, t: State) {
    IsPath(g, path) && path[0] == s && path[|path| - 1] == t
  }

  lemma OneMove(g: Config, s: State) returns (path: seq<State>)
    requires s.leafIndex < U32_MAX
    ensures Leads(g, s, path, ProcessorStep(g, s))
  {
    path := [s, ProcessorStep(g, s)];
  }

  lemma AndThen(g: Config, s: State, p: seq<State>, t: State, q: seq<State>, u: State) returns (path: seq<State>)
    requires Leads(g, s, p, t) && Leads(g, t, q, u)
    ensures Leads(g, s, path, u)
  {
    path := p + q[1..];
    forall i | 0 <= i < |path| - 1
      ensures path[i].leafIndex < U32_MAX && path[i + 1] == ProcessorStep(g, path[i])
    {
      if i >= |p| - 1 {
        assert path[i] == q[i + 1 - |p|] && path[i + 1] == q[i + 2 - |p|];
      }
    }
  }

  lemma {:induction false} PathKeepsInv(g: Config, s: State, path: seq<State>, t: State)
    requires Inv(g, s) && Leads(g, s, path, t)
    ensures Inv(g, t)
    decreases |path|
  {
    if |path| > 1 {
      assert path[1] == ProcessorStep(g, path[0]);
      Pipelines.MoveKeepsInv(g, s);
      TailLeads(g, s, path, t);
      PathKeepsInv(g, path[1], path[1..], t);
    }
  }

  lemma TailLeads(g: Config, s: State, path: seq<State>, t: State)
    requires Leads(g, s, path, t) && |path| > 1
    ensures Leads(g, path[1], path[1..], t)
  {
  }

  /** The state of an update with some of the stored leaves added. */
  function Grown(s: State, hi: nat): State
    requires |s.leaves| <= hi <= U32_MAX && forall i: u32 :: |s.leaves| <= i < hi ==> i in s.records.leaf
  {
    s.(leaves := s.leaves + LeavesBetween(s.records.leaf, |s.leaves|, hi))
  }

  lemma {:induction false} UpdateGrowsBy(g: Config, s: State, hi: nat) returns (path: seq<State>)
    requires s.leafIndex < U32_MAX && s.pc.Update? && s.pc.checkpoint.index > 0
    requires |s.leaves| <= hi <= s.pc.checkpoint.index + 1 <= U32_MAX
    requires forall i: u32 :: |s.leaves| <= i < hi ==> i in s.records.leaf
    ensures Leads(g, s, path, Grown(s, hi))
    decreases hi - |s.leaves|
  {
    if |s.leaves| == hi {
      assert s.leaves + [] == s.leaves;
      path := [s];
    } else {
      var next := Grown(s, |s.leaves| + 1);
      assert next == ProcessorStep(g, s);
      var rest := UpdateGrowsBy(g, next, hi);
      GrownTwice(s, hi);
      var one := OneMove(g, s);
      path := AndThen(g, s, one, next, rest, Grown(s, hi));
    }
  }

  lemma GrownTwice(s: State, hi: nat)
    requires |s.leaves| < hi <= U32_MAX && forall i: u32 :: |s.leaves| <= i < hi ==> i in s.records.leaf
    ensures Grown(Grown(s, |s.leaves| + 1), hi) == Grown(s, hi)
  {
    var n, db := |s.leaves|, s.records.leaf;
    assert LeavesBetween(db, n, hi) == LeavesBetween(db, n, n + 1) + LeavesBetween(db, n + 1, hi);
    assert (s.leaves + LeavesBetween(db, n, n + 1)) + LeavesBetween(db, n + 1, hi)
        == s.leaves + (LeavesBetween(db, n, n + 1) + LeavesBetween(db, n + 1, hi));
  }

  /** What the pipeline's invariant says of an update. */
  ghost predicate CanUpdate(s: State) {
    && s.leafIndex < U32_MAX && s.pc.Update?
    && 0 < s.pc.checkpoint.index < U32_MAX && |s.leaves| <= s.pc.checkpoint.index + 1
  }

  lemma Ready(g: Config, s: State)
    requires Inv(g, s) && s.leafIndex < U32_MAX
    ensures s.pc.Update? ==> CanUpdate(s)
    ensures s.pc.Send? ==> CanSend(s)
  {
  }

  /** Where an update leads: to itself while a leaf is missing, else on if the roots agree. */
  function AfterUpdate(g: Config, pc: Pc, leaves: seq<H256>, missing: bool): Pc
    requires pc.Update?
  {
    if missing then pc
    else if |leaves| <= Pow2(TREE_DEPTH) && PaddedRoot(g.k, leaves, TREE_DEPTH) == pc.checkpoint.root
    then Pc.Send(pc.message, pc.checkpoint)
    else Halted(Reason.MismatchedRoots)
  }

  /** The processor waits: a move would change nothing. */
  ghost predicate Waits(g: Config, s: State) {
    s.leafIndex < U32_MAX && ProcessorStep(g, s) == s
  }

  lemma WaitsForLeaf(g: Config, s: State)
    requires CanUpdate(s) && |s.leaves| <= s.pc.checkpoint.index && |s.leaves| !in s.records.leaf
    ensures Waits(g, s)
  {
  }

  /** How an update ends: it waits for a leaf, or compares the roots. */
  lemma UpdateEnds(g: Config, s: State) returns (path: seq<State>, t: State)
    requires CanUpdate(s)
    ensures var last, db := s.pc.checkpoint.index, s.records.leaf;
            var leaves := s.leaves + NewLeaves(db, |s.leaves|, last);
            t == s.(leaves := leaves, pc := AfterUpdate(g, s.pc, leaves, Missing(db, |s.leaves|, last).Some?))
    ensures Leads(g, s, path, t) && (t.pc.Update? ==> Waits(g, t))
  {
    var c, db := s.pc.checkpoint, s.records.leaf;
    var stop := FirstMissing(db, |s.leaves|, c.index);
    t := Grown(s, stop);
    path := UpdateGrowsBy(g, s, stop);
    if Missing(db, |s.leaves|, c.index).None? {
      var one := OneMove(g, t);
      path := AndThen(g, s, path, t, one, ProcessorStep(g, t));
      t := ProcessorStep(g, t);
    } else {
      WaitsForLeaf(g, t);
    }
  }

  lemma Arrives(g: Config, s: State, path: seq<State>, t: State)
    requires Inv(g, s) && Leads(g, s, path, t)
    ensures t.leafIndex < U32_MAX && t.pc.Update? ==> CanUpdate(t)
    ensures t.leafIndex < U32_MAX && t.pc.Send? ==> CanSend(t)
  {
    PathKeepsInv(g, s, path, t);
    if t.leafIndex < U32_MAX {
      Ready(g, t);
    }
  }

  /** A message that was stored parses. */
  lemma NeverFails(g: Config, s: State)
    requires Inv(g, s)
    ensures !Decide(g, s.records, s.leafIndex).Fail?
  {
    TakenIsOwn(g, s);
  }

  /** The submitter's end of the channel may be closed when the processor comes to send. */
  function Closing(s: State, open: bool): State {
    if s.pc.Send? && !open then s.(pc := Halted(ChannelClosed)) else s
  }

  /** Moves lead from `s` to `t`, but for the end of the channel found closed at last. */
  ghost predicate LeadsOrCloses(g: Config, s: State, path: seq<State>, open: bool, t: State) {
    |path| > 0 && Leads(g, s, path, path[|path| - 1]) && t == Closing(path[|path| - 1], open)
  }

  lemma ThenSent(g: Config, s: State, p: seq<State>, mid: State, q: seq<State>, open: bool, t: State)
    returns (path: seq<State>)
    requires Leads(g, s, p, mid) && LeadsOrCloses(g, mid, q, open, t)
    ensures LeadsOrCloses(g, s, path, open, t)
  {
    path := AndThen(g, s, p, mid, q, q[|q| - 1]);
  }

  lemma NotSent(g: Config, s: State, path: seq<State>, open: bool, t: State)
    requires Leads(g, s, path, t) && !t.pc.Send?
    ensures LeadsOrCloses(g, s, path, open, t)
  {
  }

  lemma ThenInv(g: Config, s: State, path: seq<State>, open: bool, t: State)
    requires Inv(g, s) && LeadsOrCloses(g, s, path, open, t)
    ensures Inv(g, t)
  {
    var last := path[|path| - 1];
    PathKeepsInv(g, s, path, last);
    if t != last {
      Pipelines.StepKeepsInv(g, last, SendFails);
    }
  }

  datatype TickResult = Continue | Halt | Blocked

  function ResultAt(pc: Pc): (result: TickResult)
    ensures (result.Continue? <==> pc.Scan?) && (result.Halt? <==> pc.Halted?)
  {
    match pc
    case Scan => Continue
    case Halted(_) => Halt
    case _ => Blocked
  }

  lemma TakesCheckpoint(g: Config, s: State, c: Checkpoint)
    requires s.leafIndex < U32_MAX && s.pc.AwaitCheckpoint? && s.cell == Some(c) && c.index >= s.leafIndex
    ensures ProcessorStep(g, s)
         == s.(pc := if c.index >= |s.leaves| then Pc.Update(s.pc.message, c) else Pc.Send(s.pc.message, c))
  {
  }

  /** The processor; `pc` is the point at which it awaits something or goes on. */
  class MessageProcessor {
    const proverSync: MerkleTreeBuilder
    var messageLeafIndex: u32
    var sent: seq<SubmitArgs>
    var pc: Pc

    constructor (g: Config, records: Records)
      requires Coherent(g, records)
      ensures proverSync.Valid(g.k) && View(records, None, 0) == Initial(records) && Inv(g, Initial(records))
      ensures fresh(proverSync.prover) && fresh(proverSync.prover.tree.Repr)
      ensures fresh(proverSync.incremental) && fresh(proverSync.incremental.branch)
    {
      proverSync := new MerkleTreeBuilder(g.k);
      messageLeafIndex, sent, pc := 0, [], AwaitFirst;
    }

    /** The state of the pipeline with this processor in it. */
    ghost function View(records: Records, cell: Option<Checkpoint>, latestSigned: u32): State
      reads this, proverSync, proverSync.prover
    {
      State(records, latestSigned, cell, pc, messageLeafIndex, proverSync.prover.leaves, sent)
    }

    /** Goes to another point; the tree is not touched. */
    method GoTo(g: Config, next: Pc)
      requires proverSync.Valid(g.k)
      modifies this`pc
      ensures proverSync.Valid(g.k) && pc == next
    {
      pc := next;
    }

    /** `s` is the state of the pipeline, with this processor in it. */
    ghost predicate At(s: State)
      reads this, proverSync, proverSync.prover
    {
      s == View(s.records, s.cell, s.latestSigned)
    }

    /**
     * Runs from where it is to the end of a tick, or to the next wait, on what the store
     * and the checkpoint cell hold now.  What it does is a sequence of moves of the pipeline, so
     * between two calls the other components may do anything the pipeline allows them.
     */
    method Tick(g: Config, records: Records, cell: Option<Checkpoint>, open: bool, ghost s: State)
      returns (result: TickResult, ghost path: seq<State>, ghost t: State)
      requires proverSync.Valid(g.k) && At(s) && Inv(g, s)
      requires s.records == records && s.cell == cell && s.leafIndex < U32_MAX
      modifies this, proverSync.prover, proverSync.prover.tree.Repr
      modifies proverSync.incremental, proverSync.incremental.branch
      ensures proverSync.Valid(g.k) && fresh(proverSync.prover.tree.Repr - old(proverSync.prover.tree.Repr))
      ensures At(t) && Inv(g, t) && LeadsOrCloses(g, s, path, open, t)
      ensures result == ResultAt(t.pc)
      ensures result.Blocked? ==> Waits(g, t)
    {
      path, t := Advance(g, records, cell, open, s);
      ThenInv(g, s, path, open, t);
      result := ResultAt(pc);
    }

    /** All of a tick up to its end or the next wait. */
    method Advance(g: Config, records: Records, cell: Option<Checkpoint>, open: bool, ghost s: State)
      returns (ghost path: seq<State>, ghost t: State)
      requires proverSync.Valid(g.k) && At(s) && Inv(g, s)
      requires s.records == records && s.cell == cell && s.leafIndex < U32_MAX
      modifies this, proverSync.prover, proverSync.prover.tree.Repr
      modifies proverSync.incremental, proverSync.incremental.branch
      ensures proverSync.Valid(g.k) && fresh(proverSync.prover.tree.Repr - old(proverSync.prover.tree.Repr))
      ensures At(t) && LeadsOrCloses(g, s, path, open, t)
      ensures ResultAt(t.pc).Blocked? ==> Waits(g, t)
    {
      path, t := UpToSending(g, records, cell, s);
      if pc.Send? {
        ghost var mid, more := t, [];
        more, t := Send(g, records, open, mid);
        path := ThenSent(g, s, path, mid, more, open, t);
      } else {
        NotSent(g, s, path, open, t);
      }
    }

    /** The part of a tick before the message is sent. */
    method UpToSending(g: Config, records: Records, cell: Option<Checkpoint>, ghost s: State)
      returns (ghost path: seq<State>, ghost t: State)
      requires proverSync.Valid(g.k) && At(s) && Inv(g, s)
      requires s.records == records && s.cell == cell && s.leafIndex < U32_MAX
      modifies this, proverSync.prover, proverSync.prover.tree.Repr
      modifies proverSync.incremental, proverSync.incremental.branch
      ensures proverSync.Valid(g.k) && fresh(proverSync.prover.tree.Repr - old(proverSync.prover.tree.Repr))
      ensures At(t) && Leads(g, s, path, t)
      ensures t.pc.Send? ==> t.records == records && CanSend(t)
      ensures t.pc.AwaitFirst? || t.pc.AwaitCheckpoint? || t.pc.Update? ==> Waits(g, t)
    {
      NeverFails(g, s);
      path, t := UpToCheckpoint(g, records, cell, s);
      Arrives(g, s, path, t);
      if pc.Update? {
        ghost var mid, more := t, [];
        more, t := Update(g, records, mid);
        path := AndThen(g, s, path, mid, more, t);
        Arrives(g, s, path, t);
      }
    }

    /** The part of a tick before the tree is needed. */
    method UpToCheckpoint(g: Config, records: Records, cell: Option<Checkpoint>, ghost s: State)
      returns (ghost path: seq<State>, ghost t: State)
      requires proverSync.Valid(g.k) && At(s) && !Decide(g, s.records, s.leafIndex).Fail?
      requires s.records == records && s.cell == cell && s.leafIndex < U32_MAX
      modifies this
      ensures proverSync.Valid(g.k) && At(t) && Leads(g, s, path, t)
      ensures t.records == records && (t.pc.Scan? || t.pc.Halted? || t.leafIndex < U32_MAX)
      ensures t.pc.AwaitFirst? || t.pc.AwaitCheckpoint? ==> Waits(g, t)
    {
      path, t := [s], s;
      if pc.AwaitFirst? && cell.Some? {
        path, t := Begin(g, s);
      }
      if pc.Scan? {
        ghost var mid, more := t, [];
        more, t := ScanOn(g, records, mid);
        path := AndThen(g, s, path, mid, more, t);
      }
      if pc.AwaitCheckpoint? && cell.Some? && cell.value.index >= messageLeafIndex {
        ghost var mid, more := t, [];
        more, t := TakeCheckpoint(g, cell.value, mid);
        path := AndThen(g, s, path, mid, more, t);
      }
    }

    /** The first checkpoint is there. */
    method Begin(g: Config, ghost s: State) returns (ghost path: seq<State>, ghost t: State)
      requires proverSync.Valid(g.k) && At(s) && s.leafIndex < U32_MAX && pc.AwaitFirst? && s.cell.Some?
      modifies this`pc
      ensures proverSync.Valid(g.k) && At(t) && Leads(g, s, path, t) && t == s.(pc := Scan)
    {
      t := ProcessorStep(g, s);
      path := OneMove(g, s);
      GoTo(g, Scan);
    }

    /** Looks at the message at the scan position. */
    method ScanOn(g: Config, records: Records, ghost s: State) returns (ghost path: seq<State>, ghost t: State)
      requires proverSync.Valid(g.k) && At(s) && s.records == records && s.leafIndex < U32_MAX && pc == Scan
      requires !Decide(g, s.records, s.leafIndex).Fail?
      modifies this
      ensures proverSync.Valid(g.k) && At(t) && Leads(g, s, path, t) && t.records == records && t.cell == s.cell
      ensures t.pc.Scan? || (t.pc.AwaitCheckpoint? && t.leafIndex < U32_MAX)
    {
      t := ProcessorStep(g, s);
      path := OneMove(g, s);
      var decision := Decide(g, records, messageLeafIndex);
      if decision.Skip? {
        NextIndex(g);
      } else if decision.Take? {
        GoTo(g, Pc.AwaitCheckpoint(decision.message));
      }
    }

    /** Goes on with a checkpoint that covers the message. */
    method TakeCheckpoint(g: Config, ckpt: Checkpoint, ghost s: State) returns (ghost path: seq<State>, ghost t: State)
      requires proverSync.Valid(g.k) && At(s) && s.cell == Some(ckpt) && s.leafIndex < U32_MAX
      requires pc.AwaitCheckpoint? && ckpt.index >= messageLeafIndex
      modifies this`pc
      ensures proverSync.Valid(g.k) && At(t) && Leads(g, s, path, t)
      ensures t.records == s.records && t.leafIndex == s.leafIndex && (t.pc.Update? || t.pc.Send?)
    {
      TakesCheckpoint(g, s, ckpt);
      t := ProcessorStep(g, s);
      path := OneMove(g, s);
      if ckpt.index >= proverSync.prover.count {
        GoTo(g, Pc.Update(pc.message, ckpt));
      } else {
        GoTo(g, Pc.Send(pc.message, ckpt));
      }
    }

    /** Brings the tree up to the checkpoint, as far as the leaves are stored. */
    method Update(g: Config, records: Records, ghost s: State) returns (ghost path: seq<State>, ghost t: State)
      requires proverSync.Valid(g.k) && At(s) && s.records == records && CanUpdate(s)
      modifies this`pc, proverSync.prover, proverSync.prover.tree.Repr
      modifies proverSync.incremental, proverSync.incremental.branch
      ensures proverSync.Valid(g.k) && fresh(proverSync.prover.tree.Repr - old(proverSync.prover.tree.Repr))
      ensures At(t) && Leads(g, s, path, t)
      ensures t.records == records && t.leafIndex == s.leafIndex && (t.pc.Update? || t.pc.Send? || t.pc.Halted?)
      ensures t.pc.Update? ==> Waits(g, t)
    {
      path, t := UpdateEnds(g, s);
      UpdateTo(g, records, s, t);
    }

    /** The update on the object, which leads to the same state. */
    method UpdateTo(g: Config, records: Records, ghost s: State, ghost t: State)
      requires proverSync.Valid(g.k) && At(s) && s.records == records && CanUpdate(s)
      requires var last, db := s.pc.checkpoint.index, records.leaf;
               var leaves := s.leaves + NewLeaves(db, |s.leaves|, last);
               t == s.(leaves := leaves, pc := AfterUpdate(g, s.pc, leaves, Missing(db, |s.leaves|, last).Some?))
      modifies this`pc, proverSync.prover, proverSync.prover.tree.Repr
      modifies proverSync.incremental, proverSync.incremental.branch
      ensures proverSync.Valid(g.k) && fresh(proverSync.prover.tree.Repr - old(proverSync.prover.tree.Repr))
      ensures At(t)
    {
      Synchronise(g, records);
    }

    method Synchronise(g: Config, records: Records)
      requires proverSync.Valid(g.k) && pc.Update? && pc.checkpoint.index < U32_MAX && pc.checkpoint.index > 0
      modifies this`pc, proverSync.prover, proverSync.prover.tree.Repr
      modifies proverSync.incremental, proverSync.incremental.branch
      ensures proverSync.Valid(g.k) && fresh(proverSync.prover.tree.Repr - old(proverSync.prover.tree.Repr))
      ensures var (before, last) := (old(proverSync.prover.leaves), old(pc).checkpoint.index);
              && proverSync.prover.leaves == before + NewLeaves(records.leaf, |before|, last)
              && pc == AfterUpdate(g, old(pc), proverSync.prover.leaves, Missing(records.leaf, |before|, last).Some?)
    {
      var updated := proverSync.UpdateToCheckpoint(g.k, records.leaf, pc.checkpoint);
      if updated.Done? {
        GoTo(g, Pc.Send(pc.message, pc.checkpoint));
      } else if updated.Fail? {
        GoTo(g, Halted(Reason.MismatchedRoots));
      }
    }

    /** Sends the message with its proof: no assertion here fails. */
    method Send(g: Config, records: Records, open: bool, ghost s: State)
      returns (ghost path: seq<State>, ghost t: State)
      requires proverSync.Valid(g.k) && At(s) && s.records == records && CanSend(s)
      modifies this
      ensures proverSync.Valid(g.k) && At(t) && LeadsOrCloses(g, s, path, open, t)
      ensures t.pc == if open then Scan else Halted(ChannelClosed)
    {
      path, t := SendOrClose(g, s, open);
      Submit(g, records, open);
    }

    method Submit(g: Config, records: Records, open: bool)
      requires proverSync.Valid(g.k) && pc.Send? && messageLeafIndex < U32_MAX && messageLeafIndex in records.leaf
      requires messageLeafIndex <= pc.checkpoint.index && |proverSync.prover.leaves| == pc.checkpoint.index + 1
      modifies this
      ensures proverSync.Valid(g.k)
      ensures |proverSync.prover.leaves| <= Pow2(TREE_DEPTH)
      ensures if open
              then && pc == Scan && messageLeafIndex == old(messageLeafIndex) + 1
                   && sent == old(sent) + [SubmitArgs(old(messageLeafIndex), old(pc).message, old(pc).checkpoint,
                                                      GiveProof(g.k, proverSync.prover.leaves, old(messageLeafIndex)))]
              else pc == Halted(ChannelClosed) && messageLeafIndex == old(messageLeafIndex) && sent == old(sent)
    {
      Pow2Of32();
      assert pc.checkpoint.index + 1 == proverSync.prover.count;
      var proof := proverSync.GetProof(g.k, messageLeafIndex);
      assert proof.Done?;
      if !open {
        GoTo(g, Halted(ChannelClosed));
        return;
      }
      PushAndGoOn(g, SubmitArgs(messageLeafIndex, pc.message, pc.checkpoint, proof.value));
    }

    method PushAndGoOn(g: Config, args: SubmitArgs)
      requires proverSync.Valid(g.k) && messageLeafIndex < U32_MAX
      modifies this
      ensures proverSync.Valid(g.k)
      ensures sent == old(sent) + [args] && messageLeafIndex == old(messageLeafIndex) + 1 && pc == Scan
    {
      Push(g, args);
      NextIndex(g);
      GoTo(g, Scan);
    }

    method NextIndex(g: Config)
      requires proverSync.Valid(g.k) && messageLeafIndex < U32_MAX
      modifies this`messageLeafIndex
      ensures proverSync.Valid(g.k) && messageLeafIndex == old(messageLeafIndex) + 1
    {
      messageLeafIndex := messageLeafIndex + 1;
    }

    method Push(g: Config, args: SubmitArgs)
      requires proverSync.Valid(g.k)
      modifies this`sent
      ensures proverSync.Valid(g.k) && sent == old(sent) + [args]
    {
      sent := sent + [args];
    }
  }

  /** The two ways in which sending ends. */
  lemma SendOrClose(g: Config, s: State, open: bool) returns (path: seq<State>, t: State)
    requires CanSend(s)
    ensures t == if open then Submitted(g, s) else s.(pc := Halted(ChannelClosed))
    ensures LeadsOrCloses(g, s, path, open, t)
  {
    if open {
      SendMove(g, s);
      path := OneMove(g, s);
      t := Submitted(g, s);
    } else {
      path := [s];
      t := s.(pc := Halted(ChannelClosed));
    }
  }
}
