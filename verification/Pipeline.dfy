/**
 * The checkpoint fetcher, the indexer and the message processor as one interleaved state machine.
 * The processor is cut at every point where it waits: for a first checkpoint, for a checkpoint
 * that covers its message, and for each leaf while it updates the tree.
 */
module Pipelines {
  import opened Numbers
  import opened Hashing
  import opened Types
  import opened Codec
  import opened AbacusDBs
  import opened Provers
  import P = MerkleProof

  /** The hash of tree nodes, the digest of messages, and which messages this inbox takes. */
  datatype Config = Config(
    k: HashFn,
    h: Digest,
    inbox: u32,
    whitelisted: AbacusMessage -> bool,
    blacklisted: AbacusMessage -> bool)

  datatype SubmitArgs = SubmitArgs(leafIndex: u32, message: CommittedMessage, checkpoint: Checkpoint, proof: Proof)

  datatype Reason = MismatchedRoots | AssertionFailed | NoProof | Unparsable | ChannelClosed

  datatype Pc =
    | AwaitFirst
    | Scan
    | AwaitCheckpoint(message: CommittedMessage)
    | Update(message: CommittedMessage, checkpoint: Checkpoint)
    | Send(message: CommittedMessage, checkpoint: Checkpoint)
    | Halted(reason: Reason)

  datatype State = State(
    records: Records,
    latestSigned: u32,
    cell: Option<Checkpoint>,
    pc: Pc,
    leafIndex: u32,
    leaves: seq<H256>,
    sent: seq<SubmitArgs>)

  /** The state after a start or restart on top of what the database holds. */
  function Initial(records: Records): State {
    State(records, 0, None, AwaitFirst, 0, [], [])
  }

  datatype Step =
    | Index(raw: RawCommittedMessage)
    | MarkProcessed(leafIndex: u32)
    | Write(records: Records)
    | Fetch(checkpoint: Checkpoint)
    | Process
    | SendFails

  predicate Rejects(g: Config, m: AbacusMessage) {
    m.destination != g.inbox || !g.whitelisted(m) || g.blacklisted(m)
  }

  /**
   * The indexer stores only indices not stored before.  Only messages that were sent are marked as
   * processed, or were so before the start.  Other writes leave leaves, bodies and marks alone.  The
   * fetcher sends only indices above the last one it sent, starting from 0; a tree of fewer than
   * 2^32 - 1 leaves bounds them above.  Sending fails once the submitter has dropped its end.
   */
  predicate Enabled(s: State, step: Step) {
    match step
    case Index(raw) => raw.leafIndex !in s.records.leaf && ParseMessage(raw.message).Some?
    case MarkProcessed(i) => exists a :: a in s.sent && a.leafIndex == i
    case Write(rs) =>
      rs.leaf == s.records.leaf && rs.message == s.records.message && rs.processed == s.records.processed
    case Fetch(c) => s.latestSigned < c.index < U32_MAX
    case Process => s.leafIndex < U32_MAX
    case SendFails => s.pc.Send?
  }

  function Do(g: Config, s: State, step: Step): State
    requires Enabled(s, step)
  {
    match step
    case Index(raw) => s.(records := WithMessage(g.h, s.records, raw).value)
    case MarkProcessed(i) => s.(records := s.records.(processed := s.records.processed + {i}))
    case Write(rs) => s.(records := rs)
    case Fetch(c) => s.(cell := Some(c), latestSigned := c.index)
    case Process => ProcessorStep(g, s)
    case SendFails => s.(pc := Halted(ChannelClosed))
  }

  /** One move of the processor; a wait that is not over leaves the state as it is. */
  function ProcessorStep(g: Config, s: State): State
    requires s.leafIndex < U32_MAX
  {
    match s.pc
    case AwaitFirst => if s.cell.Some? then s.(pc := Scan) else s
    case Scan => ScanStep(g, s)
    case AwaitCheckpoint(m) =>
      if s.cell.Some? && s.cell.value.index >= s.leafIndex
      then s.(pc := if s.cell.value.index >= |s.leaves| then Update(m, s.cell.value) else Send(m, s.cell.value))
      else s
    case Update(m, c) => UpdateStep(g, s, m, c)
    case Send(m, c) => SendStep(g, s, m, c)
    case Halted(_) => s
  }

  datatype Decision = Skip | Wait | Fail | Take(message: CommittedMessage)

  /** What the scan does with an index: pass over it, wait for its message, or take it on. */
  function Decide(g: Config, rs: Records, leafIndex: u32): Decision {
    if leafIndex in rs.processed then Skip
    else match MessageAt(rs, leafIndex)
      case None => Wait
      case Some(raw) =>
        match ParseCommitted(raw)
        case None => Fail
        case Some(m) => if Rejects(g, m.message) then Skip else Take(m)
  }

  function ScanStep(g: Config, s: State): State
    requires s.leafIndex < U32_MAX
  {
    match Decide(g, s.records, s.leafIndex)
    case Skip => s.(leafIndex := s.leafIndex + 1)
    case Wait => s
    case Fail => s.(pc := Halted(Unparsable))
    case Take(m) => s.(pc := AwaitCheckpoint(m))
  }

  function UpdateStep(g: Config, s: State, m: CommittedMessage, c: Checkpoint): State {
    if c.index == 0 then s.(pc := Send(m, c))
    else if |s.leaves| <= c.index then
      if |s.leaves| in s.records.leaf then s.(leaves := s.leaves + [s.records.leaf[|s.leaves|]]) else s
    else if |s.leaves| <= Pow2(TREE_DEPTH) && PaddedRoot(g.k, s.leaves, TREE_DEPTH) == c.root then s.(pc := Send(m, c))
    else s.(pc := Halted(MismatchedRoots))
  }

  function SendStep(g: Config, s: State, m: CommittedMessage, c: Checkpoint): State
    requires s.leafIndex < U32_MAX
  {
    if c.index + 1 != |s.leaves| then s.(pc := Halted(AssertionFailed))
    else if s.leafIndex >= |s.leaves| || |s.leaves| > Pow2(TREE_DEPTH) then s.(pc := Halted(NoProof))
    else if s.leafIndex !in s.records.leaf then s.(pc := Scan)
    else s.(sent := s.sent + [SubmitArgs(s.leafIndex, m, c, GiveProof(g.k, s.leaves, s.leafIndex))],
            leafIndex := s.leafIndex + 1, pc := Scan)
  }

  // The invariant

  /** Bodies are stored under their own leaf, and every stored leaf has its body. */
  ghost predicate Coherent(g: Config, rs: Records) {
    && (forall l :: l in rs.message ==> RawLeaf(g.h, rs.message[l]) == l && |rs.message[l].message| >= PREFIX_LEN)
    && (forall i: u32 :: i in rs.leaf ==> rs.leaf[i] in rs.message)
  }

  /** The tree holds the stored leaves from index 0 on. */
  ghost predicate TreeMatches(s: State) {
    forall j: u32 :: j < |s.leaves| ==> j in s.records.leaf && s.leaves[j] == s.records.leaf[j]
  }

  /** The fetcher's cell holds the checkpoint of the last index sent, which is never 0. */
  ghost predicate CellMatches(s: State) {
    && s.latestSigned < U32_MAX
    && (s.cell.None? <==> s.latestSigned == 0)
    && (s.cell.Some? ==> s.cell.value.index == s.latestSigned)
  }

  /** A checkpoint the processor took from the cell: older ones have a smaller index. */
  ghost predicate Taken(s: State, c: Checkpoint) {
    0 < c.index <= s.latestSigned && (c.index == s.latestSigned ==> s.cell == Some(c))
  }

  /** The tree is exactly the tree of checkpoint `c`. */
  ghost predicate Verified(g: Config, s: State, c: Checkpoint) {
    && |s.leaves| == c.index + 1 <= Pow2(TREE_DEPTH)
    && PaddedRoot(g.k, s.leaves, TREE_DEPTH) == c.root
  }

  /** Between updates the tree is empty or verified against a checkpoint taken earlier. */
  ghost predicate Settled(g: Config, s: State) {
    |s.leaves| == 0 || exists c :: Taken(s, c) && Verified(g, s, c)
  }

  ghost predicate OwnLeaf(g: Config, s: State, m: CommittedMessage) {
    && s.leafIndex in s.records.leaf && ToLeaf(g.h, m) == s.records.leaf[s.leafIndex]
    && s.leafIndex !in s.records.processed && !Rejects(g, m.message)
  }

  ghost predicate PcMatches(g: Config, s: State) {
    match s.pc
    case AwaitFirst => |s.leaves| == 0
    case Scan => Settled(g, s)
    case AwaitCheckpoint(m) => Settled(g, s) && OwnLeaf(g, s, m)
    case Update(m, c) => OwnLeaf(g, s, m) && Taken(s, c) && s.leafIndex <= c.index && |s.leaves| <= c.index + 1
    case Send(m, c) => OwnLeaf(g, s, m) && Taken(s, c) && s.leafIndex <= c.index && Verified(g, s, c)
    case Halted(reason) => reason == MismatchedRoots || reason == ChannelClosed
  }

  /** What every submitted item promises. */
  ghost predicate Delivers(g: Config, s: State, a: SubmitArgs) {
    && a.proof.index == a.leafIndex <= a.checkpoint.index
    && a.leafIndex in s.records.leaf
    && a.proof.leaf == ToLeaf(g.h, a.message) == s.records.leaf[a.leafIndex]
    && |a.proof.path| == TREE_DEPTH
    && ProofRoot(g.k, a.proof) == a.checkpoint.root
    && a.message.message.destination == g.inbox
    && g.whitelisted(a.message.message) && !g.blacklisted(a.message.message)
  }

  ghost predicate SentMatches(g: Config, s: State) {
    && (forall i :: 0 <= i < |s.sent| ==> Delivers(g, s, s.sent[i]) && s.sent[i].leafIndex < s.leafIndex)
    && (forall i, j :: 0 <= i < j < |s.sent| ==> s.sent[i].leafIndex < s.sent[j].leafIndex)
  }

  ghost predicate Inv(g: Config, s: State) {
    Coherent(g, s.records) && TreeMatches(s) && CellMatches(s) && PcMatches(g, s) && SentMatches(g, s)
  }

  // Every step keeps it

  lemma IndexKeepsInv(g: Config, s: State, raw: RawCommittedMessage)
    requires Inv(g, s) && Enabled(s, Index(raw))
    ensures Inv(g, Do(g, s, Index(raw)))
  {
    IndexStaysCoherent(g, s, raw);
    StoredLeavesStay(g, s, raw);
    MoreLeavesKeepInv(g, s, Do(g, s, Index(raw)));
  }

  lemma IndexStaysCoherent(g: Config, s: State, raw: RawCommittedMessage)
    requires Coherent(g, s.records) && Enabled(s, Index(raw))
    ensures Coherent(g, Do(g, s, Index(raw)).records)
  {
    MessageIsOnto(raw.message);
  }

  /** More stored leaves, and nothing else changed. */
  lemma MoreLeavesKeepInv(g: Config, s: State, s': State)
    requires Inv(g, s) && s' == s.(records := s'.records) && Coherent(g, s'.records)
    requires s'.records.processed == s.records.processed
    requires forall i: u32 :: i in s.records.leaf ==> i in s'.records.leaf && s'.records.leaf[i] == s.records.leaf[i]
    ensures Inv(g, s')
  {
    if Settled(g, s) {
      SettledStays(g, s, s');
    }
  }

  lemma StoredLeavesStay(g: Config, s: State, raw: RawCommittedMessage)
    requires Enabled(s, Index(raw))
    ensures Do(g, s, Index(raw)).records.processed == s.records.processed
    ensures forall i: u32 :: i in s.records.leaf ==>
      && i in Do(g, s, Index(raw)).records.leaf
      && Do(g, s, Index(raw)).records.leaf[i] == s.records.leaf[i]
  {
  }

  lemma SettledStays(g: Config, s: State, s': State)
    requires Settled(g, s) && s'.leaves == s.leaves
    requires forall c :: Taken(s, c) ==> Taken(s', c)
    ensures Settled(g, s')
  {
    if |s.leaves| > 0 {
      var c :| Taken(s, c) && Verified(g, s, c);
      assert Taken(s', c) && Verified(g, s', c);
    }
  }

  lemma WriteKeepsInv(g: Config, s: State, rs: Records)
    requires Inv(g, s) && Enabled(s, Write(rs))
    ensures Inv(g, Do(g, s, Write(rs)))
  {
    if Settled(g, s) {
      SettledStays(g, s, Do(g, s, Write(rs)));
    }
  }

  lemma FetchKeepsInv(g: Config, s: State, c: Checkpoint)
    requires Inv(g, s) && Enabled(s, Fetch(c))
    ensures Inv(g, Do(g, s, Fetch(c)))
  {
    var s' := Do(g, s, Fetch(c));
    if Settled(g, s) {
      SettledStays(g, s, s');
    }
  }

  lemma MarkKeepsInv(g: Config, s: State, i: u32)
    requires Inv(g, s) && Enabled(s, MarkProcessed(i))
    ensures Inv(g, Do(g, s, MarkProcessed(i)))
  {
    if Settled(g, s) {
      SettledStays(g, s, Do(g, s, MarkProcessed(i)));
    }
  }

  /** What the scan takes on is the message of its own leaf. */
  lemma TakenIsOwn(g: Config, s: State)
    requires Coherent(g, s.records)
    ensures match Decide(g, s.records, s.leafIndex)
            case Take(m) => OwnLeaf(g, s, m)
            case Fail => false
            case _ => true
  {
    if MessageAt(s.records, s.leafIndex).Some? {
      LeafAgrees(g.h, MessageAt(s.records, s.leafIndex).value);
    }
  }

  lemma ScanKeepsInv(g: Config, s: State)
    requires Inv(g, s) && Enabled(s, Process) && s.pc == Scan
    ensures Inv(g, Do(g, s, Process))
  {
    SettledStays(g, s, Do(g, s, Process));
    TakenIsOwn(g, s);
  }

  /**
   * What the processor may rely on when it takes a checkpoint that covers its message: its index is
   * not 0 and not below the tree, and if it is the tree's own, the tree was verified against it.
   */
  lemma CellIsOrderly(g: Config, s: State)
    requires Inv(g, s) && s.pc.AwaitCheckpoint? && s.cell.Some? && s.cell.value.index >= s.leafIndex
    ensures 0 < s.cell.value.index < U32_MAX && |s.leaves| <= s.cell.value.index + 1 <= Pow2(TREE_DEPTH)
    ensures |s.leaves| == s.cell.value.index + 1 ==> PaddedRoot(g.k, s.leaves, TREE_DEPTH) == s.cell.value.root
  {
    Pow2Of32();
    if |s.leaves| > 0 {
      var c :| Taken(s, c) && Verified(g, s, c);
      assert s.cell.value.index < |s.leaves| ==> c == s.cell.value;
    }
  }

  /** With such a checkpoint the processor updates its tree, or goes on with the tree it has. */
  lemma CheckpointKeepsInv(g: Config, s: State)
    requires Inv(g, s) && Enabled(s, Process) && s.pc.AwaitCheckpoint?
    ensures Inv(g, Do(g, s, Process))
  {
    if s.cell.Some? && s.cell.value.index >= s.leafIndex {
      CellIsOrderly(g, s);
    }
  }

  lemma UpdateGrows(g: Config, s: State)
    requires Inv(g, s) && Enabled(s, Process) && s.pc.Update? && |s.leaves| <= s.pc.checkpoint.index
    ensures Inv(g, Do(g, s, Process))
  {
    assert s.leaves <= Do(g, s, Process).leaves;
  }

  lemma UpdateKeepsInv(g: Config, s: State)
    requires Inv(g, s) && Enabled(s, Process) && s.pc.Update?
    ensures Inv(g, Do(g, s, Process))
  {
    Pow2Of32();
    if |s.leaves| <= s.pc.checkpoint.index {
      UpdateGrows(g, s);
    }
  }

  /** What the invariant says of a message about to be sent. */
  ghost predicate CanSend(s: State) {
    && s.leafIndex < U32_MAX && s.pc.Send? && s.leafIndex in s.records.leaf
    && s.leafIndex <= s.pc.checkpoint.index && |s.leaves| == s.pc.checkpoint.index + 1 <= Pow2(TREE_DEPTH)
  }

  /** What is sent for the message at the scan position. */
  function ItemFor(g: Config, s: State): SubmitArgs
    requires s.pc.Send? && s.leafIndex < |s.leaves| <= Pow2(TREE_DEPTH) && s.leafIndex <= U32_MAX
  {
    SubmitArgs(s.leafIndex, s.pc.message, s.pc.checkpoint, GiveProof(g.k, s.leaves, s.leafIndex))
  }

  /** The state after the message was sent with its proof. */
  function Submitted(g: Config, s: State): State
    requires s.pc.Send? && s.leafIndex < |s.leaves| <= Pow2(TREE_DEPTH) && s.leafIndex < U32_MAX
  {
    s.(sent := s.sent + [ItemFor(g, s)], leafIndex := s.leafIndex + 1, pc := Scan)
  }

  lemma SendMove(g: Config, s: State)
    requires CanSend(s)
    ensures ProcessorStep(g, s) == Submitted(g, s)
  {
  }

  lemma ItemDelivers(g: Config, s: State)
    requires s.pc.Send? && s.leafIndex < |s.leaves| <= Pow2(TREE_DEPTH) && s.leafIndex <= s.pc.checkpoint.index
    requires TreeMatches(s) && OwnLeaf(g, s, s.pc.message) && Verified(g, s, s.pc.checkpoint)
    ensures Delivers(g, s, ItemFor(g, s))
  {
    GivenProofProves(g.k, s.leaves, s.leafIndex);
  }

  lemma SendDelivers(g: Config, s: State)
    requires Inv(g, s) && Enabled(s, Process) && s.pc.Send?
    ensures var s' := Do(g, s, Process);
            && s' == s.(sent := s'.sent, leafIndex := s.leafIndex + 1, pc := Scan)
            && |s'.sent| == |s.sent| + 1 && s'.sent[..|s.sent|] == s.sent
            && s'.sent[|s.sent|].leafIndex == s.leafIndex && Delivers(g, s', s'.sent[|s.sent|])
  {
    SendMove(g, s);
    ItemDelivers(g, s);
  }

  lemma SendKeepsInv(g: Config, s: State)
    requires Inv(g, s) && Enabled(s, Process) && s.pc.Send?
    ensures Inv(g, Do(g, s, Process))
  {
    var s' := Do(g, s, Process);
    SendDelivers(g, s);
    SentGrows(g, s, s');
    assert Taken(s', s.pc.checkpoint) && Verified(g, s', s.pc.checkpoint);
  }

  lemma SentGrows(g: Config, s: State, s': State)
    requires SentMatches(g, s) && s'.records == s.records && s.leafIndex < s'.leafIndex
    requires |s'.sent| == |s.sent| + 1 && s'.sent[..|s.sent|] == s.sent
    requires s'.sent[|s.sent|].leafIndex == s.leafIndex && Delivers(g, s', s'.sent[|s.sent|])
    ensures SentMatches(g, s')
  {
    forall i | 0 <= i < |s.sent| ensures s'.sent[i] == s.sent[i] {
      assert s'.sent[i] == s'.sent[..|s.sent|][i];
    }
    forall i | 0 <= i < |s.sent| ensures Delivers(g, s', s'.sent[i]) {
      assert Delivers(g, s, s.sent[i]);
    }
  }

  lemma MoveKeepsInv(g: Config, s: State)
    requires Inv(g, s) && Enabled(s, Process)
    ensures Inv(g, Do(g, s, Process))
  {
    match s.pc
    case AwaitFirst =>
    case Scan => ScanKeepsInv(g, s);
    case AwaitCheckpoint(_) => CheckpointKeepsInv(g, s);
    case Update(_, _) => UpdateKeepsInv(g, s);
    case Send(_, _) => SendKeepsInv(g, s);
    case Halted(_) =>
  }

  lemma StepKeepsInv(g: Config, s: State, step: Step)
    requires Inv(g, s) && Enabled(s, step)
    ensures Inv(g, Do(g, s, step))
  {
    match step
    case Index(raw) => IndexKeepsInv(g, s, raw);
    case MarkProcessed(i) => MarkKeepsInv(g, s, i);
    case Write(rs) => WriteKeepsInv(g, s, rs);
    case Fetch(c) => FetchKeepsInv(g, s, c);
    case Process => MoveKeepsInv(g, s);
    case SendFails =>
  }

  ghost predicate IsRun(g: Config, ss: seq<State>, steps: seq<Step>) {
    && |ss| == |steps| + 1
    && ss[0] == Initial(ss[0].records) && Coherent(g, ss[0].records)
    && forall i :: 0 <= i < |steps| ==> Enabled(ss[i], steps[i]) && ss[i + 1] == Do(g, ss[i], steps[i])
  }

  /**
   * In every interleaving: no assertion of the processor fails, a proof is always found, and every
   * item sent carries the proof of its own leaf against the root of its own checkpoint.
   */
  lemma {:induction false} EveryRunDelivers(g: Config, ss: seq<State>, steps: seq<Step>)
    requires IsRun(g, ss, steps)
    ensures Inv(g, ss[|steps|])
    ensures ss[|steps|].pc.Halted? ==>
      ss[|steps|].pc.reason == MismatchedRoots || ss[|steps|].pc.reason == ChannelClosed
    ensures forall a :: a in ss[|steps|].sent ==> Delivers(g, ss[|steps|], a)
  {
    if |steps| > 0 {
      var n := |steps| - 1;
      EveryRunDelivers(g, ss[..n + 1], steps[..n]);
      StepKeepsInv(g, ss[n], steps[n]);
    }
  }

  /** Were the fetcher to send index 0, the processor's assertion on the tree size would fail. */
  lemma IndexZeroTripsTheAssertion(g: Config, s: State, m: CommittedMessage, c: Checkpoint)
    requires s.pc == AwaitCheckpoint(m) && s.cell == Some(c) && c.index == s.leafIndex == |s.leaves| == 0
    ensures var s1 := Do(g, s, Process);
            var s2 := Do(g, s1, Process);
            Do(g, s2, Process).pc == Halted(AssertionFailed)
  {
  }

  lemma ProcessLeavesRecords(g: Config, s: State)
    requires Enabled(s, Process)
    ensures Do(g, s, Process).records == s.records
  {
  }

  // Checkpoints of honest quorums

  /** The store holds true leaves only. */
  ghost predicate TrueStore(rs: Records, truth: seq<H256>) {
    forall i: u32 :: i in rs.leaf ==> i < |truth| && rs.leaf[i] == truth[i]
  }

  ghost predicate Honest(g: Config, c: Checkpoint, truth: seq<H256>) {
    c.index < |truth| && c.index + 1 <= Pow2(TREE_DEPTH) && c.root == PaddedRoot(g.k, truth[..c.index + 1], TREE_DEPTH)
  }

  ghost predicate HonestStep(g: Config, step: Step, truth: seq<H256>) {
    match step
    case Index(raw) => raw.leafIndex < |truth| && RawLeaf(g.h, raw) == truth[raw.leafIndex]
    case Fetch(c) => Honest(g, c, truth)
    case _ => true
  }

  ghost predicate HonestState(g: Config, s: State, truth: seq<H256>) {
    && TrueStore(s.records, truth)
    && (s.cell.Some? ==> Honest(g, s.cell.value, truth))
    && (s.pc.Update? || s.pc.Send? ==> Honest(g, s.pc.checkpoint, truth))
    && (s.pc.Halted? ==> s.pc.reason == ChannelClosed)
  }

  lemma TreeIsTruth(s: State, truth: seq<H256>)
    requires TreeMatches(s) && TrueStore(s.records, truth) && |s.leaves| <= U32_MAX
    ensures |s.leaves| <= |truth| && s.leaves == truth[..|s.leaves|]
  {
    forall j: u32 | j < |s.leaves| ensures j < |truth| && s.leaves[j] == truth[j] {
      assert j in s.records.leaf;
    }
    if |s.leaves| > 0 {
      var last: u32 := |s.leaves| - 1;
      assert last in s.records.leaf;
    }
  }

  /** An update against an honest checkpoint goes on, or waits. */
  lemma HonestUpdateGoesOn(g: Config, s: State, truth: seq<H256>)
    requires Inv(g, s) && Enabled(s, Process) && s.pc.Update?
    requires TrueStore(s.records, truth) && Honest(g, s.pc.checkpoint, truth)
    ensures var s' := Do(g, s, Process);
            && s'.records == s.records && s'.cell == s.cell
            && (s'.pc == s.pc || s'.pc == Send(s.pc.message, s.pc.checkpoint))
  {
    if |s.leaves| == s.pc.checkpoint.index + 1 {
      TreeIsTruth(s, truth);
    }
  }

  lemma UpdateStaysHonest(g: Config, s: State, truth: seq<H256>)
    requires Inv(g, s) && Enabled(s, Process) && s.pc.Update? && HonestState(g, s, truth)
    ensures HonestState(g, Do(g, s, Process), truth)
  {
    HonestUpdateGoesOn(g, s, truth);
  }

  lemma OwnMoveStaysHonest(g: Config, s: State, truth: seq<H256>)
    requires Inv(g, s) && Enabled(s, Process) && !s.pc.Update? && HonestState(g, s, truth)
    ensures HonestState(g, Do(g, s, Process), truth)
  {
    if !s.pc.Halted? {
      OwnMove(g, s);
    }
  }

  /** Only an update can stop the processor; every other move leaves store and cell alone. */
  lemma OwnMove(g: Config, s: State)
    requires Inv(g, s) && Enabled(s, Process) && !s.pc.Update? && !s.pc.Halted?
    ensures var s' := Do(g, s, Process);
            && s'.records == s.records && s'.cell == s.cell && !s'.pc.Halted?
            && (s'.pc.Update? || s'.pc.Send? ==> s.cell == Some(s'.pc.checkpoint))
  {
    if s.pc == Scan {
      TakenIsOwn(g, s);
    } else if s.pc.Send? {
      SendDelivers(g, s);
    }
  }

  lemma StepStaysHonest(g: Config, s: State, step: Step, truth: seq<H256>)
    requires Inv(g, s) && Enabled(s, step) && HonestStep(g, step, truth) && HonestState(g, s, truth)
    ensures HonestState(g, Do(g, s, step), truth)
  {
    if step.Process? {
      if s.pc.Update? {
        UpdateStaysHonest(g, s, truth);
      } else {
        OwnMoveStaysHonest(g, s, truth);
      }
    } else if step.Index? {
      IndexStaysHonest(g, s, step.raw, truth);
    }
  }

  lemma IndexStaysHonest(g: Config, s: State, raw: RawCommittedMessage, truth: seq<H256>)
    requires Enabled(s, Index(raw)) && HonestStep(g, Index(raw), truth) && HonestState(g, s, truth)
    ensures HonestState(g, Do(g, s, Index(raw)), truth)
  {
    assert TrueStore(Do(g, s, Index(raw)).records, truth);
  }

  /** With true messages and honest checkpoints the processor stops only when the submitter has stopped. */
  lemma {:induction false} HonestRunsKeepGoing(g: Config, ss: seq<State>, steps: seq<Step>, truth: seq<H256>)
    requires IsRun(g, ss, steps) && TrueStore(ss[0].records, truth)
    requires forall i :: 0 <= i < |steps| ==> HonestStep(g, steps[i], truth)
    ensures HonestState(g, ss[|steps|], truth)
    ensures ss[|steps|].pc.Halted? ==> ss[|steps|].pc.reason == ChannelClosed
  {
    if |steps| > 0 {
      var n := |steps| - 1;
      HonestRunsKeepGoing(g, ss[..n + 1], steps[..n], truth);
      EveryRunDelivers(g, ss[..n + 1], steps[..n]);
      StepStaysHonest(g, ss[n], steps[n], truth);
    }
  }

  /** A tree verified against an honest checkpoint holds the true leaves, or exhibits a collision. */
  lemma VerifiedTreeIsTrue(g: Config, s: State, c: Checkpoint, truth: seq<H256>)
    requires Verified(g, s, c) && Honest(g, c, truth)
    ensures match P.FindRowCollision(g.k, Pad(s.leaves, TREE_DEPTH), Pad(truth[..c.index + 1], TREE_DEPTH), TREE_DEPTH)
            case Some(w) => IsCollision(g.k, w)
            case None => s.leaves == truth[..c.index + 1]
  {
    var ys, zs := Pad(s.leaves, TREE_DEPTH), Pad(truth[..c.index + 1], TREE_DEPTH);
    P.RootBinding(g.k, ys, zs, TREE_DEPTH);
    if ys == zs {
      assert s.leaves == ys[..|s.leaves|] == zs[..|s.leaves|] == truth[..c.index + 1];
    }
  }
}
