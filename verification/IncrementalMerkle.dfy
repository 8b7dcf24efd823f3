/** The incremental Merkle tree: 32 hashes, indexed by the bits of the leaf count. */
module IncrementalMerkles {
  import opened Numbers
  import opened Hashing
  import P = MerkleProof

  /** `count` with its lowest `i` bits cleared, as a position in the leaf list. */
  function From(count: nat, i: nat): (f: nat)
    ensures f <= count
  {
    DivMod(count, i);
    Floor(count, i)
  }

  /** The leaves that the set bit `i` of the count stands for. */
  function Block(leaves: seq<H256>, i: nat): (block: seq<H256>)
    requires Bit(|leaves|, i) == 1
    ensures |block| == Pow2(i)
  {
    BlockEnds(|leaves|, i);
    leaves[From(|leaves|, i + 1)..From(|leaves|, i)]
  }

  lemma BlockEnds(n: nat, i: nat)
    ensures From(n, i) == From(n, i + 1) + (if Bit(n, i) == 1 then Pow2(i) else 0)
  {
  }

  /** If bit `i` is set, the entry is the root over the block of that bit. */
  ghost predicate StandsFor(k: HashFn, entry: H256, leaves: seq<H256>, i: nat) {
    Bit(|leaves|, i) == 1 ==> entry == FullRoot(k, Block(leaves, i), i)
  }

  /** Entry `i` is the root over the block of bit `i`, whenever that bit is set. */
  ghost predicate Represents(k: HashFn, branch: seq<H256>, leaves: seq<H256>)
    requires |branch| == TREE_DEPTH
  {
    forall i :: 0 <= i < TREE_DEPTH ==> StandsFor(k, branch[i], leaves, i)
  }

  class IncrementalMerkle {
    const branch: array<H256>
    var count: nat
    ghost var leaves: seq<H256>

    ghost predicate Valid(k: HashFn)
      reads this, branch
    {
      && branch.Length == TREE_DEPTH
      && count == |leaves| <= U32_MAX
      && Represents(k, branch[..], leaves)
    }

    constructor (k: HashFn)
      ensures Valid(k) && leaves == [] && fresh(branch)
    {
      var table := ZeroHashes(k, TREE_DEPTH);
      branch := new H256[TREE_DEPTH](i requires 0 <= i < table.Length reads table => table[i]);
      count := 0;
      leaves := [];
      new;
      forall i | 0 <= i < TREE_DEPTH ensures Bit(0, i) == 0 {
        SmallNumbers(0, i);
      }
    }

    /** Appends a leaf: carries full blocks upwards to the lowest free bit of the count. */
    method Ingest(k: HashFn, element: H256)
      requires Valid(k) && count < U32_MAX
      modifies this, branch
      ensures Valid(k) && leaves == old(leaves) + [element]
    {
      var node := element;
      ghost var xs, before := leaves, branch[..];
      leaves := leaves + [element];
      count := count + 1;
      var size := count;
      assert leaves[|xs|..] == [element];
      for i := 0 to TREE_DEPTH
        invariant branch[..] == before && leaves == xs + [element] && count == |leaves|
        invariant size == Shr(|xs| + 1, i) && CarryAt(|xs|, i)
        invariant node == FullRoot(k, leaves[From(|xs|, i)..], i)
      {
        if size % 2 == 1 {
          Place(k, node, xs, element, i);
          return;
        }
        CarryStep(k, before, xs, element, i);
        node := k(branch[i], node);
        size := size / 2;
      }
      CarryEnds(|xs|);
      assert false;
    }

    /** Writes the carried node into the lowest free bit. */
    method Place(k: HashFn, node: H256, ghost xs: seq<H256>, ghost x: H256, i: nat)
      requires branch.Length == TREE_DEPTH && Represents(k, branch[..], xs) && i < TREE_DEPTH
      requires CarryAt(|xs|, i) && Bit(|xs| + 1, i) == 1 && node == FullRoot(k, (xs + [x])[From(|xs|, i)..], i)
      modifies branch
      ensures Represents(k, branch[..], xs + [x])
    {
      ghost var before := branch[..];
      branch[i] := node;
      NewEntry(k, xs, x, xs + [x], i);
      CarryDone(k, before, node, xs, x, xs + [x], i);
    }

    /** Rebuilds the root from the branch, lowest level first. */
    method Root(k: HashFn) returns (node: H256)
      requires Valid(k)
      ensures |leaves| <= Pow2(TREE_DEPTH)
      ensures node == PaddedRoot(k, leaves, TREE_DEPTH)
    {
      var zeros := ZeroHashes(k, TREE_DEPTH);
      node := ZERO;
      var size := count;
      assert leaves[|leaves|..] == [];
      for i := 0 to TREE_DEPTH
        invariant size == Shr(count, i) && forall j :: 0 <= j < TREE_DEPTH ==> zeros[j] == ZeroHash(k, j)
        invariant node == PaddedRoot(k, Tail(leaves, i), i)
      {
        if size % 2 == 1 {
          RootStepSet(k, branch[..], leaves, i);
          node := k(branch[i], node);
        } else {
          RootStepClear(k, leaves, i);
          node := k(node, zeros[i]);
        }
        size := size / 2;
      }
      Pow2Of32();
      SmallNumbers(count, TREE_DEPTH);
      assert Tail(leaves, TREE_DEPTH) == leaves;
    }

    /** Accepts exactly the proofs that evaluate to the current root. */
    method Verify(k: HashFn, leaf: H256, path: seq<H256>, index: nat) returns (ok: bool)
      requires Valid(k) && |path| == TREE_DEPTH
      ensures |leaves| <= Pow2(TREE_DEPTH)
      ensures ok <==> P.BranchRoot(k, leaf, path, index) == PaddedRoot(k, leaves, TREE_DEPTH)
    {
      var computed := P.MerkleRootFromBranch(k, leaf, path, index);
      var root := Root(k);
      return computed == root;
    }
  }

  /** The leaves past the last multiple of `Pow2(i)`. */
  function Tail(leaves: seq<H256>, i: nat): (tail: seq<H256>)
    ensures |tail| == Low(|leaves|, i)
  {
    leaves[From(|leaves|, i)..]
  }

  /** Going from `n` to `n + 1`, the carry has reached bit `i`. */
  ghost predicate CarryAt(n: nat, i: nat) {
    && Shr(n + 1, i) == Shr(n, i) + 1
    && From(n + 1, i) == n + 1
    && From(n, i) == n + 1 - Pow2(i)
  }

  lemma CarryEnds(n: nat)
    requires n < U32_MAX
    ensures !CarryAt(n, TREE_DEPTH)
  {
    Pow2Of32();
    SmallNumbers(n + 1, TREE_DEPTH);
  }

  lemma CarryMoves(n: nat, i: nat)
    requires CarryAt(n, i) && Bit(n + 1, i) == 0
    ensures CarryAt(n, i + 1) && Bit(n, i) == 1
  {
    BlockEnds(n, i);
    BlockEnds(n + 1, i);
  }

  lemma CarryStops(n: nat, i: nat)
    requires CarryAt(n, i) && Bit(n + 1, i) == 1
    ensures Bit(n, i) == 0
    ensures Shr(n + 1, i + 1) == Shr(n, i + 1) && From(n + 1, i + 1) == n + 1 - Pow2(i)
  {
    BlockEnds(n, i);
    BlockEnds(n + 1, i);
  }

  lemma SplitRow(k: HashFn, row: seq<H256>, l: seq<H256>, r: seq<H256>, i: nat)
    requires row == l + r && |l| == |r| == Pow2(i)
    ensures FullRoot(k, row, i + 1) == k(FullRoot(k, l, i), FullRoot(k, r, i))
  {
    assert row[..Pow2(i)] == l && row[Pow2(i)..] == r;
  }

  /** Slices of the longer list that end where the old list ends are slices of the old list. */
  lemma RowsMeet(leaves: seq<H256>, x: H256, a: nat, b: nat)
    requires a <= b <= |leaves|
    ensures (leaves + [x])[a..] == leaves[a..b] + (leaves + [x])[b..]
  {
  }

  /** A carry out of bit `i`: the block of that bit and the new block below make one block above. */
  lemma CarryStep(k: HashFn, branch: seq<H256>, leaves: seq<H256>, x: H256, i: nat)
    requires |branch| == TREE_DEPTH && Represents(k, branch, leaves) && i < TREE_DEPTH
    requires CarryAt(|leaves|, i) && Bit(|leaves| + 1, i) == 0
    ensures CarryAt(|leaves|, i + 1)
    ensures var longer, n := leaves + [x], |leaves| + 1;
            FullRoot(k, longer[From(n - 1, i + 1)..], i + 1) == k(branch[i], FullRoot(k, longer[From(n - 1, i)..], i))
  {
    CarryMoves(|leaves|, i);
    var longer := leaves + [x];
    RowsMeet(leaves, x, From(|leaves|, i + 1), From(|leaves|, i));
    SplitRow(k, longer[From(|leaves|, i + 1)..], Block(leaves, i), longer[From(|leaves|, i)..], i);
  }

  lemma BlockStays(leaves: seq<H256>, x: H256, i: nat, j: nat)
    requires CarryAt(|leaves|, i) && Bit(|leaves| + 1, i) == 1 && i < j && Bit(|leaves| + 1, j) == 1
    ensures Bit(|leaves|, j) == 1 && Block(leaves + [x], j) == Block(leaves, j)
  {
    CarryStops(|leaves|, i);
    AgreeAbove(|leaves| + 1, |leaves|, i + 1, j);
    AgreeAbove(|leaves| + 1, |leaves|, i + 1, j + 1);
  }

  lemma NewBlock(leaves: seq<H256>, x: H256, i: nat)
    requires CarryAt(|leaves|, i) && Bit(|leaves| + 1, i) == 1
    ensures Block(leaves + [x], i) == (leaves + [x])[From(|leaves|, i)..]
  {
    CarryStops(|leaves|, i);
    var longer := leaves + [x];
    assert From(|longer|, i) == |longer|;
    assert longer[From(|leaves|, i)..|longer|] == longer[From(|leaves|, i)..];
  }

  /** A bit above the carry keeps its entry. */
  lemma OldEntry(k: HashFn, entry: H256, leaves: seq<H256>, x: H256, longer: seq<H256>, i: nat, j: nat)
    requires longer == leaves + [x] && CarryAt(|leaves|, i) && Bit(|longer|, i) == 1 && i < j
    requires StandsFor(k, entry, leaves, j)
    ensures StandsFor(k, entry, longer, j)
  {
    if Bit(|longer|, j) == 1 {
      BlockStays(leaves, x, i, j);
    }
  }

  lemma NewEntry(k: HashFn, leaves: seq<H256>, x: H256, longer: seq<H256>, i: nat)
    requires longer == leaves + [x] && CarryAt(|leaves|, i) && Bit(|longer|, i) == 1
    ensures |longer[From(|leaves|, i)..]| == Pow2(i)
    ensures StandsFor(k, FullRoot(k, longer[From(|leaves|, i)..], i), longer, i)
  {
    NewBlock(leaves, x, i);
  }

  /** Where the carry ends there is no set bit below. */
  lemma LowEntry(k: HashFn, entry: H256, longer: seq<H256>, i: nat, j: nat)
    requires |longer| > 0 && CarryAt(|longer| - 1, i) && j < i
    ensures StandsFor(k, entry, longer, j)
  {
    LowBitsClear(|longer|, j, i);
  }

  /** The carry ends in the free bit `i`: every other set bit keeps its block. */
  lemma CarryDone(k: HashFn, before: seq<H256>, node: H256, leaves: seq<H256>, x: H256, longer: seq<H256>, i: nat)
    requires |before| == TREE_DEPTH && Represents(k, before, leaves) && i < TREE_DEPTH
    requires longer == leaves + [x] && CarryAt(|leaves|, i) && Bit(|longer|, i) == 1
    requires StandsFor(k, node, longer, i)
    ensures Represents(k, before[i := node], longer)
  {
    var after := before[i := node];
    forall j | 0 <= j < TREE_DEPTH ensures StandsFor(k, after[j], longer, j) {
      if j < i {
        LowEntry(k, before[j], longer, i, j);
      } else if j > i {
        OldEntry(k, before[j], leaves, x, longer, i, j);
      }
    }
  }

  lemma {:induction false} LowBitsClear(n: nat, j: nat, i: nat)
    requires j < i && Low(n, i) == 0
    ensures Bit(n, j) == 0
  {
    if j < i - 1 {
      LowBitsClear(n, j, i - 1);
    }
  }

  lemma TailSplits(leaves: seq<H256>, i: nat)
    requires Bit(|leaves|, i) == 1
    ensures Tail(leaves, i + 1) == Block(leaves, i) + Tail(leaves, i)
  {
    BlockEnds(|leaves|, i);
  }

  lemma RootStepSet(k: HashFn, branch: seq<H256>, leaves: seq<H256>, i: nat)
    requires |branch| == TREE_DEPTH && Represents(k, branch, leaves) && i < TREE_DEPTH
    requires Bit(|leaves|, i) == 1
    ensures PaddedRoot(k, Tail(leaves, i + 1), i + 1)
         == k(branch[i], PaddedRoot(k, Tail(leaves, i), i))
  {
    TailSplits(leaves, i);
    FullBlock(k, Block(leaves, i), Tail(leaves, i), i);
    PaddedRootSplit(k, Block(leaves, i) + Tail(leaves, i), i + 1);
  }

  lemma RootStepClear(k: HashFn, leaves: seq<H256>, i: nat)
    requires Bit(|leaves|, i) == 0
    ensures PaddedRoot(k, Tail(leaves, i + 1), i + 1) == k(PaddedRoot(k, Tail(leaves, i), i), ZeroHash(k, i))
  {
    BlockEnds(|leaves|, i);
    assert Tail(leaves, i + 1) == Tail(leaves, i);
    PaddedRootSplit(k, Tail(leaves, i), i + 1);
    ZeroRoot(k, i);
  }

  lemma FullBlock(k: HashFn, block: seq<H256>, lower: seq<H256>, i: nat)
    requires |block| == Pow2(i) && |lower| < Pow2(i)
    ensures LeftPart(block + lower, i + 1) == block && RightPart(block + lower, i + 1) == lower
    ensures PaddedRoot(k, block, i) == FullRoot(k, block, i)
  {
    assert Pad(block, i) == block;
  }
}
