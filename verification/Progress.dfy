/** When the processor waits, and that a message it can send gets sent. */
module Progress {
  import opened Numbers
  import opened Hashing
  import opened Types
  import opened Codec
  import opened AbacusDBs
  import opened Provers
  import opened MerkleTreeBuilders
  import opened Pipelines
  import opened MessageProcessors

  /** The message at the scan position, when its leaf and body are stored. */
  function StoredMessage(s: State): Option<CommittedMessage>
    requires s.leafIndex <= U32_MAX
  {
    match MessageAt(s.records, s.leafIndex)
    case None => None
    case Some(raw) => ParseCommitted(raw)
  }

  /** This inbox takes the message. */
  predicate Accepts(g: Config, m: AbacusMessage) {
    m.destination == g.inbox && g.whitelisted(m) && !g.blacklisted(m)
  }

  /** Exactly when the processor waits. */
  lemma WaitsExactlyWhen(g: Config, s: State)
    requires Inv(g, s) && s.leafIndex < U32_MAX
    ensures Waits(g, s) <==>
      match s.pc
      case AwaitFirst => s.cell.None?
      case Scan => s.leafIndex !in s.records.processed && s.leafIndex !in s.records.leaf
      case AwaitCheckpoint(_) => s.cell.None? || s.cell.value.index < s.leafIndex
      case Update(_, c) => |s.leaves| <= c.index && |s.leaves| !in s.records.leaf
      case Send(_, _) => false
      case Halted(_) => true
  {
    Ready(g, s);
    if s.pc.Send? {
      SendMove(g, s);
    } else if s.pc.Scan? {
      StoredHasMessage(g, s);
      TakenIsOwn(g, s);
    }
  }

  /** The scan passes over exactly what is processed or not for this inbox, and takes on the rest. */
  lemma ScanMeans(g: Config, s: State)
    requires Inv(g, s) && s.leafIndex < U32_MAX && s.pc.Scan?
    ensures var t, m := ProcessorStep(g, s), StoredMessage(s);
            if s.leafIndex in s.records.processed || (m.Some? && !Accepts(g, m.value.message))
            then t == s.(leafIndex := s.leafIndex + 1)
            else if m.Some? then t == s.(pc := Pc.AwaitCheckpoint(m.value))
            else t == s
    ensures s.leafIndex in s.records.leaf <==> StoredMessage(s).Some?
    ensures StoredMessage(s).Some? ==> ToLeaf(g.h, StoredMessage(s).value) == s.records.leaf[s.leafIndex]
  {
    StoredHasMessage(g, s);
    TakenIsOwn(g, s);
  }

  /** In any state at all, the position moves only past what is processed, not for this inbox, or just sent. */
  lemma MovesPast(g: Config, s: State)
    requires s.leafIndex < U32_MAX
    ensures var t := ProcessorStep(g, s);
            t.leafIndex == s.leafIndex ||
            (&& t.leafIndex == s.leafIndex + 1
             && (|| s.leafIndex in s.records.processed
                 || (StoredMessage(s).Some? && !Accepts(g, StoredMessage(s).value.message))
                 || (t.sent != [] && t.sent[|t.sent| - 1].leafIndex == s.leafIndex)))
  {
  }

  /** Every stored leaf has its message. */
  lemma StoredHasMessage(g: Config, s: State)
    requires Coherent(g, s.records) && s.leafIndex <= U32_MAX
    ensures s.leafIndex in s.records.leaf <==> StoredMessage(s).Some?
    ensures StoredMessage(s).Some? ==> ToLeaf(g.h, StoredMessage(s).value) == s.records.leaf[s.leafIndex]
  {
    if MessageAt(s.records, s.leafIndex).Some? {
      LeafAgrees(g.h, MessageAt(s.records, s.leafIndex).value);
    }
  }

  ghost predicate HasRoot(k: HashFn, leaves: seq<H256>, root: H256) {
    |leaves| <= Pow2(TREE_DEPTH) && PaddedRoot(k, leaves, TREE_DEPTH) == root
  }

  /** The leaves of the checkpoint are stored, and their padded root is the signed one. */
  ghost predicate Covers(g: Config, s: State, c: Checkpoint) {
    && s.leafIndex <= c.index < U32_MAX
    && (forall i: u32 :: i <= c.index ==> i in s.records.leaf)
    && HasRoot(g.k, LeavesBetween(s.records.leaf, 0, c.index + 1), c.root)
  }

  lemma TreeIsStored(s: State, n: nat)
    requires TreeMatches(s) && |s.leaves| <= n <= U32_MAX && forall i: u32 :: i < n ==> i in s.records.leaf
    ensures s.leaves + LeavesBetween(s.records.leaf, |s.leaves|, n) == LeavesBetween(s.records.leaf, 0, n)
  {
    forall j: u32 | j < |s.leaves| ensures s.leaves[j] == LeavesBetween(s.records.leaf, 0, n)[j] {
      assert j in s.records.leaf;
    }
  }

  /** With all leaves of the checkpoint stored, an update adds the rest of them. */
  lemma AllLeavesAdded(s: State, last: u32)
    requires TreeMatches(s) && |s.leaves| <= last + 1 <= U32_MAX && forall i: u32 :: i <= last ==> i in s.records.leaf
    ensures Missing(s.records.leaf, |s.leaves|, last).None?
    ensures s.leaves + NewLeaves(s.records.leaf, |s.leaves|, last) == LeavesBetween(s.records.leaf, 0, last + 1)
  {
    TreeIsStored(s, last + 1);
  }

  /** An update with all leaves stored, against the root over them, ends ready to send. */
  lemma UpdateSucceeds(g: Config, s: State) returns (path: seq<State>, t: State)
    requires CanUpdate(s) && TreeMatches(s) && Covers(g, s, s.pc.checkpoint)
    ensures Leads(g, s, path, t)
    ensures t == s.(leaves := LeavesBetween(s.records.leaf, 0, s.pc.checkpoint.index + 1),
                    pc := Pc.Send(s.pc.message, s.pc.checkpoint))
  {
    AllLeavesAdded(s, s.pc.checkpoint.index);
    path, t := UpdateEnds(g, s);
  }

  /** A covering checkpoint at the tree's own size was verified against the tree. */
  lemma AlreadySynchronised(g: Config, s: State)
    requires Inv(g, s) && s.leafIndex < U32_MAX && s.pc.AwaitCheckpoint? && s.cell.Some?
    requires Covers(g, s, s.cell.value) && s.cell.value.index < |s.leaves|
    ensures s.leaves == LeavesBetween(s.records.leaf, 0, s.cell.value.index + 1)
  {
    CellIsOrderly(g, s);
    TreeIsStored(s, s.cell.value.index + 1);
    assert s.leaves + [] == s.leaves;
  }

  /** From the checkpoint to the point of sending. */
  lemma ReachesSending(g: Config, s: State) returns (path: seq<State>, t: State)
    requires Inv(g, s) && s.leafIndex < U32_MAX && s.pc.AwaitCheckpoint? && s.cell.Some?
    requires Covers(g, s, s.cell.value)
    ensures Leads(g, s, path, t)
    ensures t == s.(leaves := LeavesBetween(s.records.leaf, 0, s.cell.value.index + 1),
                    pc := Pc.Send(s.pc.message, s.cell.value))
  {
    if s.cell.value.index >= |s.leaves| {
      var next;
      path, next := TakesUpdate(g, s);
      var more;
      more, t := UpdateSucceeds(g, next);
      path := AndThen(g, s, path, next, more, t);
    } else {
      AlreadySynchronised(g, s);
      path := OneMove(g, s);
      t := ProcessorStep(g, s);
    }
  }

  lemma TakesUpdate(g: Config, s: State) returns (path: seq<State>, next: State)
    requires Inv(g, s) && s.leafIndex < U32_MAX && s.pc.AwaitCheckpoint? && s.cell.Some?
    requires s.leafIndex <= s.cell.value.index && s.cell.value.index >= |s.leaves|
    ensures Leads(g, s, path, next) && next == s.(pc := Pc.Update(s.pc.message, s.cell.value))
    ensures CanUpdate(next) && TreeMatches(next)
  {
    path := OneMove(g, s);
    next := ProcessorStep(g, s);
    Arrives(g, s, path, next);
  }

  /**
   * Delivery: with its message stored, meant for this inbox and not processed, a checkpoint in the
   * cell that covers it, all leaves of the checkpoint stored and the signed root theirs, the
   * processor gets, by its own moves, from the scan to the message sent with its proof.
   */
  lemma MessageIsSent(g: Config, s: State) returns (path: seq<State>, t: State)
    requires Inv(g, s) && s.leafIndex < U32_MAX && s.pc.Scan? && s.leafIndex !in s.records.processed
    requires StoredMessage(s).Some? && Accepts(g, StoredMessage(s).value.message)
    requires s.cell.Some? && Covers(g, s, s.cell.value)
    ensures Leads(g, s, path, t) && Inv(g, t)
    ensures t.pc.Scan? && t.leafIndex == s.leafIndex + 1 && t.records == s.records && t.cell == s.cell
    ensures |t.sent| == |s.sent| + 1 && t.sent[..|s.sent|] == s.sent
    ensures var item := t.sent[|s.sent|];
            && item.leafIndex == s.leafIndex && item.message == StoredMessage(s).value
            && item.checkpoint == s.cell.value
            && Proves(g.k, item.proof, LeavesBetween(s.records.leaf, 0, s.cell.value.index + 1), s.leafIndex)
  {
    var sending;
    path, sending := ScanToSending(g, s);
    path, t := ThenSend(g, s, path, sending);
  }

  lemma ScanToSending(g: Config, s: State) returns (path: seq<State>, sending: State)
    requires Inv(g, s) && s.leafIndex < U32_MAX && s.pc.Scan? && s.leafIndex !in s.records.processed
    requires StoredMessage(s).Some? && Accepts(g, StoredMessage(s).value.message)
    requires s.cell.Some? && Covers(g, s, s.cell.value)
    ensures Leads(g, s, path, sending)
    ensures sending == s.(leaves := LeavesBetween(s.records.leaf, 0, s.cell.value.index + 1),
                          pc := Pc.Send(StoredMessage(s).value, s.cell.value))
  {
    ScanMeans(g, s);
    var waiting := ProcessorStep(g, s);
    path := OneMove(g, s);
    PathKeepsInv(g, s, path, waiting);
    var more;
    more, sending := ReachesSending(g, waiting);
    path := AndThen(g, s, path, waiting, more, sending);
  }

  lemma ThenSend(g: Config, s: State, p: seq<State>, sending: State) returns (path: seq<State>, t: State)
    requires Inv(g, s) && Leads(g, s, p, sending) && sending.pc.Send? && sending.leafIndex < U32_MAX
    ensures Leads(g, s, path, t) && Inv(g, t) && CanSend(sending) && t == Submitted(g, sending)
    ensures Proves(g.k, GiveProof(g.k, sending.leaves, sending.leafIndex), sending.leaves, sending.leafIndex)
  {
    PathKeepsInv(g, s, p, sending);
    Ready(g, sending);
    SendMove(g, sending);
    GivenProofProves(g.k, sending.leaves, sending.leafIndex);
    var one := OneMove(g, sending);
    t := Submitted(g, sending);
    path := AndThen(g, s, p, sending, one, t);
    PathKeepsInv(g, s, path, t);
  }
}
