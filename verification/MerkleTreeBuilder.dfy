/** The builder: keeps the prover and the incremental tree in step with the leaves in the database. */
module MerkleTreeBuilders {
  import opened Numbers
  import opened Hashing
  import opened Types
  import opened Provers
  import I = IncrementalMerkles

  datatype BuilderError =
    | MismatchedRoots(proverRoot: H256, incrementalRoot: H256, checkpointRoot: H256)
    | UnavailableLeaf(leafIndex: u32)
    | InProver(error: ProverError)

  /** Waiting means: the leaf with this index is not stored yet. */
  datatype Outcome<T> = Done(value: T) | Fail(error: BuilderError) | Waiting(leafIndex: u32)

  /** The leaves stored for the indices from `lo` up to, not including, `hi`. */
  function LeavesBetween(db: map<u32, H256>, lo: nat, hi: nat): (xs: seq<H256>)
    requires lo <= hi <= U32_MAX
    requires forall i: u32 :: lo <= i < hi ==> i in db
    ensures |xs| == hi - lo
    ensures forall j :: 0 <= j < |xs| ==> xs[j] == db[lo + j]
    decreases hi - lo
  {
    if lo == hi then [] else LeavesBetween(db, lo, hi - 1) + [db[hi - 1]]
  }

  class MerkleTreeBuilder {
    const prover: Prover
    const incremental: I.IncrementalMerkle

    ghost predicate Valid(k: HashFn)
      reads this, prover, prover.tree, prover.tree.Repr, incremental, incremental.branch
    {
      && prover.Valid(k) && incremental.Valid(k)
      && prover.leaves == incremental.leaves && prover.count == |prover.leaves|
    }

    constructor (k: HashFn)
      ensures Valid(k) && prover.leaves == []
      ensures fresh(prover) && fresh(prover.tree.Repr) && fresh(incremental) && fresh(incremental.branch)
    {
      prover := new Prover(k);
      incremental := new I.IncrementalMerkle(k);
    }

    method GetProof(k: HashFn, leafIndex: u32) returns (result: Outcome<Proof>)
      requires Valid(k)
      ensures leafIndex < |prover.leaves| <==> result.Done?
      ensures result.Done? ==>
        && Proves(k, result.value, prover.leaves, leafIndex)
        && result.value == GiveProof(k, prover.leaves, leafIndex)
      ensures !result.Waiting?
    {
      var proof := prover.Prove(k, leafIndex);
      match proof
      case Success(p) => return Done(p);
      case Failure(e) => return Fail(InProver(e));
    }

    /** The roots of both trees, which are always the same. */
    method Roots(k: HashFn) returns (proverRoot: H256, incrementalRoot: H256)
      requires Valid(k)
      ensures proverRoot == incrementalRoot == PaddedRoot(k, prover.leaves, TREE_DEPTH)
    {
      proverRoot := prover.Root(k);
      incrementalRoot := incremental.Root(k);
    }

    method IngestLeaf(k: HashFn, leaf: H256)
      requires Valid(k) && prover.count < U32_MAX
      modifies prover, prover.tree.Repr, incremental, incremental.branch
      ensures Valid(k) && fresh(prover.tree.Repr - old(prover.tree.Repr))
      ensures prover.leaves == old(prover.leaves) + [leaf]
    {
      Pow2Of32();
      var ingested, _ := prover.Ingest(k, leaf);
      assert ingested.Success?;
      incremental.Ingest(k, leaf);
    }

    /** Ingests one stored leaf into both trees; the asserted equality of the roots always holds. */
    method IngestLeafIndex(k: HashFn, db: map<u32, H256>, leafIndex: u32) returns (result: Outcome<()>)
      requires Valid(k) && prover.count < U32_MAX
      modifies prover, prover.tree.Repr, incremental, incremental.branch
      ensures Valid(k) && fresh(prover.tree.Repr - old(prover.tree.Repr))
      ensures if leafIndex in db
              then result == Done(()) && prover.leaves == old(prover.leaves) + [db[leafIndex]]
              else result == Fail(UnavailableLeaf(leafIndex)) && prover.leaves == old(prover.leaves)
    {
      if leafIndex !in db {
        return Fail(UnavailableLeaf(leafIndex));
      }
      IngestLeaf(k, db[leafIndex]);
      var proverRoot, incrementalRoot := Roots(k);
      assert proverRoot == incrementalRoot;
      return Done(());
    }

    /** Ingests the stored leaves from the current count up to `last`, as far as they are stored. */
    method IngestUpTo(k: HashFn, db: map<u32, H256>, last: u32) returns (missing: Option<u32>)
      requires Valid(k) && last < U32_MAX
      modifies prover, prover.tree.Repr, incremental, incremental.branch
      ensures Valid(k) && fresh(prover.tree.Repr - old(prover.tree.Repr))
      ensures prover.leaves == old(prover.leaves) + NewLeaves(db, old(prover.count), last)
      ensures missing == Missing(db, old(prover.count), last)
    {
      ghost var start, before, stop := prover.count, prover.leaves, FirstMissing(db, prover.count, last);
      var i := prover.count;
      while i <= last
        invariant prover.count == i && start <= i <= stop
        invariant Valid(k) && fresh(prover.tree.Repr - old(prover.tree.Repr))
        invariant prover.leaves == before + LeavesBetween(db, start, i)
      {
        if i !in db {
          assert i == stop;
          return Some(i);
        }
        IngestNext(k, db, i, before, start, stop);
        i := i + 1;
      }
      assert i == stop;
      return None;
    }

    method IngestNext(k: HashFn, db: map<u32, H256>, i: u32, ghost before: seq<H256>, ghost lo: nat, ghost hi: nat)
      requires Valid(k) && lo <= i < hi <= U32_MAX && prover.count == i
      requires forall j: u32 :: lo <= j < hi ==> j in db
      requires prover.leaves == before + LeavesBetween(db, lo, i)
      modifies prover, prover.tree.Repr, incremental, incremental.branch
      ensures Valid(k) && fresh(prover.tree.Repr - old(prover.tree.Repr))
      ensures prover.count == i + 1 && prover.leaves == before + LeavesBetween(db, lo, i + 1)
    {
      OneMoreLeaf(before, db, lo, i, hi);
      var result := IngestLeafIndex(k, db, i);
    }

    /**
     * Catches up with a checkpoint, up to the first leaf that is not stored yet.  Index 0 is
     * skipped, whatever the root; for any other index the roots are compared at the end.
     */
    method UpdateToCheckpoint(k: HashFn, db: map<u32, H256>, checkpoint: Checkpoint) returns (result: Outcome<()>)
      requires Valid(k) && checkpoint.index < U32_MAX
      modifies prover, prover.tree.Repr, incremental, incremental.branch
      ensures Valid(k) && fresh(prover.tree.Repr - old(prover.tree.Repr))
      ensures checkpoint.index == 0 ==> result == Done(()) && prover.leaves == old(prover.leaves)
      ensures checkpoint.index > 0 ==>
        && prover.leaves == old(prover.leaves) + NewLeaves(db, old(prover.count), checkpoint.index)
        && result == match Missing(db, old(prover.count), checkpoint.index)
                     case Some(i) => Waiting(i)
                     case None =>
                       var root := PaddedRoot(k, prover.leaves, TREE_DEPTH);
                       if root == checkpoint.root then Done(())
                       else Fail(MismatchedRoots(root, root, checkpoint.root))
    {
      if checkpoint.index == 0 {
        return Done(());
      }
      var missing := IngestUpTo(k, db, checkpoint.index);
      if missing.Some? {
        return Waiting(missing.value);
      }
      var proverRoot, incrementalRoot := Roots(k);
      if proverRoot != incrementalRoot || proverRoot != checkpoint.root {
        return Fail(MismatchedRoots(proverRoot, incrementalRoot, checkpoint.root));
      }
      return Done(());
    }
  }

  /** The first index from `count` to `last` that is not stored, or the one after them all. */
  function FirstMissing(db: map<u32, H256>, count: nat, last: u32): (i: nat)
    requires count <= U32_MAX && last < U32_MAX
    ensures count <= i <= Max(count, last + 1)
    ensures forall j: u32 :: count <= j < i ==> j in db
    ensures i <= last ==> i !in db
    decreases last + 1 - count
  {
    if count <= last && count in db then FirstMissing(db, count + 1, last) else count
  }

  function Missing(db: map<u32, H256>, count: nat, last: u32): Option<u32>
    requires count <= U32_MAX && last < U32_MAX
  {
    var i := FirstMissing(db, count, last);
    if i <= last then Some(i) else None
  }

  /** The stored leaves that a tree with `count` leaves can take for a checkpoint at index `last`. */
  function NewLeaves(db: map<u32, H256>, count: nat, last: u32): (xs: seq<H256>)
    requires count <= U32_MAX && last < U32_MAX
    ensures |xs| == FirstMissing(db, count, last) - count
  {
    LeavesBetween(db, count, FirstMissing(db, count, last))
  }

  /** Waiting loses nothing: going on later, with more stored, gives what one go then would have given. */
  lemma WaitingResumes(db: map<u32, H256>, more: map<u32, H256>, count: nat, last: u32)
    returns (stop: nat)
    requires count <= U32_MAX && last < U32_MAX
    requires forall i: u32 :: i in db ==> i in more && more[i] == db[i]
    ensures stop == count + |NewLeaves(db, count, last)| <= U32_MAX
    ensures NewLeaves(db, count, last) + NewLeaves(more, stop, last) == NewLeaves(more, count, last)
    ensures Missing(more, stop, last) == Missing(more, count, last)
  {
    var end;
    stop, end := FirstMissingResumes(db, more, count, last);
    LeavesResume(db, more, count, last, stop, end);
  }

  lemma LeavesResume(db: map<u32, H256>, more: map<u32, H256>, count: nat, last: u32, stop: nat, end: nat)
    requires count <= stop <= end <= U32_MAX && last < U32_MAX
    requires forall i: u32 :: i in db ==> i in more && more[i] == db[i]
    requires stop == FirstMissing(db, count, last) && end == FirstMissing(more, count, last)
    requires FirstMissing(more, stop, last) == end
    ensures NewLeaves(db, count, last) + NewLeaves(more, stop, last) == NewLeaves(more, count, last)
    ensures stop == count + |NewLeaves(db, count, last)| && Missing(more, stop, last) == Missing(more, count, last)
  {
    LeavesMeet(db, more, count, stop, end);
  }

  lemma LeavesMeet(db: map<u32, H256>, more: map<u32, H256>, lo: nat, mid: nat, hi: nat)
    requires lo <= mid <= hi <= U32_MAX
    requires forall i: u32 :: i in db ==> i in more && more[i] == db[i]
    requires (forall i: u32 :: lo <= i < mid ==> i in db) && forall i: u32 :: lo <= i < hi ==> i in more
    ensures LeavesBetween(db, lo, mid) + LeavesBetween(more, mid, hi) == LeavesBetween(more, lo, hi)
  {
  }

  lemma {:induction false} FirstMissingResumes(db: map<u32, H256>, more: map<u32, H256>, count: nat, last: u32)
    returns (stop: nat, end: nat)
    requires count <= U32_MAX && last < U32_MAX
    requires forall i: u32 :: i in db ==> i in more && more[i] == db[i]
    ensures stop == FirstMissing(db, count, last) && end == FirstMissing(more, count, last)
    ensures count <= stop <= end <= U32_MAX && FirstMissing(more, stop, last) == end
    decreases last + 1 - count
  {
    stop, end := count, FirstMissing(more, count, last);
    if count <= last && count in db {
      stop, end := FirstMissingResumes(db, more, count + 1, last);
    }
  }

  lemma OneMoreLeaf(before: seq<H256>, db: map<u32, H256>, lo: nat, i: nat, hi: nat)
    requires lo <= i < hi <= U32_MAX && forall j: u32 :: lo <= j < hi ==> j in db
    ensures before + LeavesBetween(db, lo, i + 1) == (before + LeavesBetween(db, lo, i)) + [db[i]]
  {
  }
}
