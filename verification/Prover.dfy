/** The prover: a depth-32 sparse tree together with a count of the leaves pushed into it. */
module Provers {
  import opened Numbers
  import opened Hashing
  import M = MerkleTree
  import P = MerkleProof
  import opened TreeCells

  datatype Proof = Proof(leaf: H256, index: nat, path: seq<H256>)

  datatype ProverError =
    | IndexTooHigh(index: nat)
    | ZeroProof(requested: nat, count: nat)
    | TreeError(error: M.TreeError)
    | VerificationFailed(expected: H256, actual: H256)

  datatype Result<T> = Success(value: T) | Failure(error: ProverError)

  function ProofRoot(k: HashFn, proof: Proof): H256 {
    P.BranchRoot(k, proof.leaf, proof.path, proof.index)
  }

  /** The proof that a tree holding `leaves` gives for position `index`. */
  ghost predicate Proves(k: HashFn, proof: Proof, leaves: seq<H256>, index: nat) {
    && proof.index == index < |leaves| <= Pow2(TREE_DEPTH)
    && proof.leaf == leaves[index]
    && |proof.path| == TREE_DEPTH
    && ProofRoot(k, proof) == PaddedRoot(k, leaves, TREE_DEPTH)
  }

  /** The proof that a prover holding `leaves` gives: the leaf, and the siblings in the dense tree. */
  function GiveProof(k: HashFn, leaves: seq<H256>, index: nat): Proof
    requires index < |leaves| <= Pow2(TREE_DEPTH)
  {
    Proof(leaves[index], index, P.Siblings(k, Pad(leaves, TREE_DEPTH), index, TREE_DEPTH))
  }

  lemma GivenProofProves(k: HashFn, leaves: seq<H256>, index: nat)
    requires index < |leaves| <= Pow2(TREE_DEPTH)
    ensures Proves(k, GiveProof(k, leaves, index), leaves, index)
  {
    SmallNumbers(index, TREE_DEPTH);
    P.SiblingsEvaluate(k, Pad(leaves, TREE_DEPTH), index, TREE_DEPTH);
  }

  class Prover {
    var count: nat
    const tree: TreeCell
    ghost var leaves: seq<H256>

    /** The count is the number of leaves, except that attempts on a full tree are counted too. */
    ghost predicate Valid(k: HashFn)
      reads this, tree, tree.Repr
    {
      && tree.Valid()
      && |leaves| <= Pow2(TREE_DEPTH)
      && tree.model == M.Create(k, leaves, TREE_DEPTH)
      && (count == |leaves| || |leaves| == Pow2(TREE_DEPTH) <= count)
    }

    constructor (k: HashFn)
      ensures Valid(k) && fresh(tree.Repr) && leaves == [] && count == 0
    {
      var meter := new Meter(k);
      var cell := TreeCell.Create(meter, [], TREE_DEPTH);
      count, tree, leaves := 0, cell, [];
    }

    /** Builds a prover from a list of leaves in one go. */
    constructor FromLeaves(k: HashFn, xs: seq<H256>)
      ensures Valid(k) && fresh(tree.Repr) && count == |xs| && leaves == Fitting(xs)
    {
      var meter := new Meter(k);
      var cell := TreeCell.Create(meter, xs, TREE_DEPTH);
      FittingMakesTheTree(k, xs);
      count, tree, leaves := |xs|, cell, Fitting(xs);
    }

    /** Pushes a leaf; a push that finds room costs 32 evaluations of the hash, one that does not costs none. */
    method Ingest(k: HashFn, element: H256) returns (result: Result<H256>, ghost cost: M.Cost)
      requires Valid(k)
      modifies this, tree.Repr
      ensures M.Within(cost, |old(leaves)| < Pow2(TREE_DEPTH), TREE_DEPTH)
      ensures Valid(k) && fresh(tree.Repr - old(tree.Repr)) && count == old(count) + 1
      ensures leaves == Longer(old(leaves), element, TREE_DEPTH)
      ensures result == if |old(leaves)| < Pow2(TREE_DEPTH) then Success(PaddedRoot(k, leaves, TREE_DEPTH))
                        else Failure(TreeError(M.MerkleTreeFull))
    {
      ghost var xs := leaves;
      count := count + 1;
      leaves := Longer(xs, element, TREE_DEPTH);
      var outcome, root;
      outcome, root, cost := tree.Append(k, element, TREE_DEPTH, xs);
      result := if outcome == Ok then Success(root) else Failure(TreeError(outcome.error));
    }

    method Root(k: HashFn) returns (root: H256)
      requires Valid(k)
      ensures root == PaddedRoot(k, leaves, TREE_DEPTH)
    {
      M.CreateRoot(k, leaves, TREE_DEPTH);
      return tree.RootHash(k);
    }

    /** Gives a proof exactly for the positions that hold a leaf, even if the count runs ahead. */
    method Prove(k: HashFn, index: nat) returns (result: Result<Proof>)
      requires Valid(k)
      ensures index < |leaves| <==> result.Success?
      ensures result.Success? ==> Proves(k, result.value, leaves, index) && result.value == GiveProof(k, leaves, index)
      ensures index > U32_MAX ==> result == Failure(IndexTooHigh(index))
      ensures count <= index <= U32_MAX ==> result == Failure(ZeroProof(index, count))
    {
      Pow2Of32();
      if index > U32_MAX {
        return Failure(IndexTooHigh(index));
      }
      if index >= count {
        return Failure(ZeroProof(index, count));
      }
      P.CreateHasDepth(k, leaves, TREE_DEPTH);
      var leaf, path := tree.GenerateProof(k, index, TREE_DEPTH);
      HonestProof(k, leaves, index, leaf, path);
      return Success(Proof(leaf, index, path));
    }

    /** Accepts exactly the proofs that evaluate to this tree's root. */
    method Verify(k: HashFn, proof: Proof) returns (result: Result<()>)
      requires Valid(k) && |proof.path| == TREE_DEPTH
      ensures result.Success? <==> ProofRoot(k, proof) == PaddedRoot(k, leaves, TREE_DEPTH)
      ensures result.Failure? ==>
        result.error == VerificationFailed(PaddedRoot(k, leaves, TREE_DEPTH), ProofRoot(k, proof))
    {
      var actual := P.MerkleRootFromBranch(k, proof.leaf, proof.path, proof.index);
      var expected := Root(k);
      if expected == actual {
        return Success(());
      }
      return Failure(VerificationFailed(expected, actual));
    }

    /** Ingests a list; filling the tree beyond its capacity panics. */
    method Extend(k: HashFn, xs: seq<H256>)
      requires Valid(k) && |leaves| + |xs| <= Pow2(TREE_DEPTH)
      modifies this, tree.Repr
      ensures Valid(k) && fresh(tree.Repr - old(tree.Repr))
      ensures leaves == old(leaves) + xs && count == old(count) + |xs|
    {
      for i := 0 to |xs|
        invariant Valid(k) && fresh(tree.Repr - old(tree.Repr))
        invariant leaves == old(leaves) + xs[..i] && count == old(count) + i
      {
        TakeOneMore(old(leaves), xs, i);
        var result, _ := Ingest(k, xs[i]);
        assert result.Success?;
      }
      assert xs[..|xs|] == xs;
    }
  }

  /** The leaves for which the tree has room. */
  function Fitting(xs: seq<H256>): (ys: seq<H256>)
    ensures |ys| <= Pow2(TREE_DEPTH)
    ensures |xs| == |ys| || |ys| == Pow2(TREE_DEPTH) <= |xs|
  {
    if |xs| <= Pow2(TREE_DEPTH) then xs else xs[..Pow2(TREE_DEPTH)]
  }

  lemma FittingMakesTheTree(k: HashFn, xs: seq<H256>)
    ensures M.Create(k, xs, TREE_DEPTH) == M.Create(k, Fitting(xs), TREE_DEPTH)
  {
    if |xs| > Pow2(TREE_DEPTH) {
      M.CreateTruncates(k, xs, TREE_DEPTH);
    }
  }

  lemma TakeOneMore<T>(ys: seq<T>, xs: seq<T>, i: nat)
    requires i < |xs|
    ensures ys + xs[..i + 1] == (ys + xs[..i]) + [xs[i]]
  {
  }

  lemma HonestProof(k: HashFn, leaves: seq<H256>, index: nat, leaf: H256, path: seq<H256>)
    requires index < |leaves| <= Pow2(TREE_DEPTH)
    requires P.HasDepth(M.Create(k, leaves, TREE_DEPTH), TREE_DEPTH)
    requires (leaf, path) == P.Walk(k, M.Create(k, leaves, TREE_DEPTH), index, TREE_DEPTH)
    ensures Proof(leaf, index, path) == GiveProof(k, leaves, index)
    ensures Proves(k, Proof(leaf, index, path), leaves, index)
  {
    P.WalkIsDense(k, leaves, index, TREE_DEPTH);
    SmallNumbers(index, TREE_DEPTH);
    GivenProofProves(k, leaves, index);
  }

  /**
   * A proof that verifies is the one the tree itself gives at its index, or its path and the tree
   * contain two different inputs with one hash.  Of an index only the lowest 32 bits matter.
   */
  lemma VerifiedProofIsHonest(k: HashFn, leaves: seq<H256>, proof: Proof)
    requires |leaves| <= Pow2(TREE_DEPTH) && |proof.path| == TREE_DEPTH
    requires ProofRoot(k, proof) == PaddedRoot(k, leaves, TREE_DEPTH)
    ensures match P.FindCollision(k, Pad(leaves, TREE_DEPTH), proof.leaf, proof.path, proof.index)
            case Some(w) => IsCollision(k, w)
            case None =>
              var i := Low(proof.index, TREE_DEPTH);
              && proof.leaf == (if i < |leaves| then leaves[i] else ZERO)
              && proof.path == P.Siblings(k, Pad(leaves, TREE_DEPTH), proof.index, TREE_DEPTH)
              && (proof.index < Pow2(TREE_DEPTH) ==> i == proof.index)
  {
    P.RowBinding(k, Pad(leaves, TREE_DEPTH), proof.leaf, proof.path, proof.index);
    if proof.index < Pow2(TREE_DEPTH) {
      SmallNumbers(proof.index, TREE_DEPTH);
    }
  }
}
