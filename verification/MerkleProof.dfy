/** Inclusion proofs: the top-down walk, the bottom-up evaluation, and what a verified proof binds. */
module MerkleProof {
  import opened Numbers
  import opened Hashing
  import opened Types
  import opened MerkleTree

  /** Evaluates a branch bottom-up: entry `i` is the sibling at height `i`. */
  function BranchRoot(k: HashFn, leaf: H256, branch: seq<H256>, index: nat): H256 {
    if |branch| == 0 then leaf
    else
      var top := |branch| - 1;
      var below := BranchRoot(k, leaf, branch[..top], index);
      if Bit(index, top) == 1 then k(branch[top], below) else k(below, branch[top])
  }

  /** The loop of `merkle_root_from_branch`. */
  method MerkleRootFromBranch(k: HashFn, leaf: H256, branch: seq<H256>, index: nat) returns (current: H256)
    ensures current == BranchRoot(k, leaf, branch, index)
  {
    current := leaf;
    var shifted := index;
    for i := 0 to |branch|
      invariant shifted == Shr(index, i)
      invariant current == BranchRoot(k, leaf, branch[..i], index)
    {
      assert branch[..i + 1][..i] == branch[..i];
      if shifted % 2 == 1 {
        current := k(branch[i], current);
      } else {
        current := k(current, branch[i]);
      }
      shifted := shifted / 2;
    }
    assert branch[..|branch|] == branch;
  }

  predicate VerifyMerkleProof(k: HashFn, leaf: H256, branch: seq<H256>, d: nat, index: nat, root: H256) {
    |branch| == d && BranchRoot(k, leaf, branch, index) == root
  }

  /** Every leaf and every empty subtree sits at the depth that its level calls for. */
  predicate HasDepth(t: Tree, d: nat) {
    match t
    case Leaf(_) => d == 0
    case Zero(z) => z == d
    case Node(_, l, r) => d > 0 && HasDepth(l, d - 1) && HasDepth(r, d - 1)
  }

  lemma {:induction false} CreateHasDepth(k: HashFn, xs: seq<H256>, d: nat)
    ensures HasDepth(Create(k, xs, d), d)
    decreases d
  {
    if |xs| > 0 && d > 0 {
      CreateHasDepth(k, LeftPart(xs, d), d - 1);
      CreateHasDepth(k, RightPart(xs, d), d - 1);
    }
  }

  function Branches(t: Tree): Option<(Tree, Tree)> {
    match t
    case Leaf(_) => None
    case Node(_, l, r) => Some((l, r))
    case Zero(d) => if d == 0 then None else Some((Zero(d - 1), Zero(d - 1)))
  }

  /** Only single leaves and empty trees of depth 0 have no subtrees; the two subtrees hash to the tree. */
  lemma BranchesMean(k: HashFn, t: Tree)
    ensures Branches(t).None? <==> t.Leaf? || t == Zero(0)
    ensures Branches(t).Some? && Consistent(k, t) ==>
      k(RootHash(k, Branches(t).value.0), RootHash(k, Branches(t).value.1)) == RootHash(k, t)
    ensures t.Node? ==> Branches(t) == Some((t.left, t.right))
  {
  }

  /** The subtree one level down on the way to `index`, and its sibling. */
  function Turn(t: Tree, index: nat, d: nat): (down: (Tree, Tree))
    requires d > 0 && HasDepth(t, d)
    ensures HasDepth(down.0, d - 1) && HasDepth(down.1, d - 1)
  {
    var (l, r) := Branches(t).value;
    if Bit(index, d - 1) == 1 then (r, l) else (l, r)
  }

  /** The leaf that the walk towards `index` ends in, with the siblings it passed, lowest first. */
  function Walk(k: HashFn, t: Tree, index: nat, d: nat): (H256, seq<H256>)
    requires HasDepth(t, d)
    decreases d
  {
    if d == 0 then (RootHash(k, t), [])
    else
      var (next, sibling) := Turn(t, index, d);
      var (leaf, path) := Walk(k, next, index, d - 1);
      (leaf, path + [RootHash(k, sibling)])
  }

  /** The half of a full row that holds position `index`. */
  function HalfRow(ys: seq<H256>, index: nat, d: nat): (half: seq<H256>)
    requires d > 0 && |ys| == Pow2(d)
    ensures |half| == Pow2(d - 1)
  {
    if Bit(index, d - 1) == 1 then ys[Pow2(d - 1)..] else ys[..Pow2(d - 1)]
  }

  lemma HalfRowAt(ys: seq<H256>, index: nat, d: nat)
    requires d > 0 && |ys| == Pow2(d)
    ensures ys[Low(index, d)] == HalfRow(ys, index, d)[Low(index, d - 1)]
  {
  }

  function OtherHalf(ys: seq<H256>, index: nat, d: nat): (half: seq<H256>)
    requires d > 0 && |ys| == Pow2(d)
    ensures |half| == Pow2(d - 1)
  {
    if Bit(index, d - 1) == 1 then ys[..Pow2(d - 1)] else ys[Pow2(d - 1)..]
  }

  /** Puts the hash on the way to `index` and its sibling at height `h` in tree order. */
  function InOrder(index: nat, h: nat, own: H256, sibling: H256): (H256, H256) {
    if Bit(index, h) == 1 then (sibling, own) else (own, sibling)
  }

  lemma BranchRootSnoc(k: HashFn, leaf: H256, path: seq<H256>, sibling: H256, index: nat)
    ensures BranchRoot(k, leaf, path + [sibling], index)
         == var (a, b) := InOrder(index, |path|, BranchRoot(k, leaf, path, index), sibling); k(a, b)
  {
    assert (path + [sibling])[..|path|] == path;
  }

  lemma FullRootByHalves(k: HashFn, ys: seq<H256>, index: nat, d: nat)
    requires d > 0 && |ys| == Pow2(d)
    ensures FullRoot(k, ys, d)
         == var (a, b) := InOrder(index, d - 1, FullRoot(k, HalfRow(ys, index, d), d - 1),
                                  FullRoot(k, OtherHalf(ys, index, d), d - 1)); k(a, b)
  {
  }

  /** The siblings of position `index` in the perfect tree over a full row of leaves, lowest first. */
  function Siblings(k: HashFn, ys: seq<H256>, index: nat, d: nat): (path: seq<H256>)
    requires |ys| == Pow2(d)
    ensures |path| == d
  {
    if d == 0 then []
    else Siblings(k, HalfRow(ys, index, d), index, d - 1) + [FullRoot(k, OtherHalf(ys, index, d), d - 1)]
  }

  /** The leaves on the same side as `index`, and those on the other side. */
  function NearPart(xs: seq<H256>, index: nat, d: nat): (part: seq<H256>)
    requires d > 0 && |xs| <= Pow2(d)
    ensures |part| <= Pow2(d - 1)
  {
    if Bit(index, d - 1) == 1 then RightPart(xs, d) else LeftPart(xs, d)
  }

  function FarPart(xs: seq<H256>, index: nat, d: nat): (part: seq<H256>)
    requires d > 0 && |xs| <= Pow2(d)
    ensures |part| <= Pow2(d - 1)
  {
    if Bit(index, d - 1) == 1 then LeftPart(xs, d) else RightPart(xs, d)
  }

  lemma CreateTurn(k: HashFn, xs: seq<H256>, index: nat, d: nat)
    requires d > 0 && |xs| <= Pow2(d)
    ensures HasDepth(Create(k, xs, d), d)
    ensures Turn(Create(k, xs, d), index, d)
         == (Create(k, NearPart(xs, index, d), d - 1), Create(k, FarPart(xs, index, d), d - 1))
  {
    CreateHasDepth(k, xs, d);
    assert Branches(Create(k, xs, d)) == Some((Create(k, LeftPart(xs, d), d - 1), Create(k, RightPart(xs, d), d - 1)));
  }

  lemma WalkStep(k: HashFn, xs: seq<H256>, index: nat, d: nat)
    requires d > 0 && |xs| <= Pow2(d)
    ensures HasDepth(Create(k, xs, d), d) && HasDepth(Create(k, NearPart(xs, index, d), d - 1), d - 1)
    ensures Walk(k, Create(k, xs, d), index, d)
         == var (leaf, path) := Walk(k, Create(k, NearPart(xs, index, d), d - 1), index, d - 1);
            (leaf, path + [RootHash(k, Create(k, FarPart(xs, index, d), d - 1))])
  {
    CreateTurn(k, xs, index, d);
  }

  lemma PadHalves(xs: seq<H256>, index: nat, d: nat)
    requires d > 0 && |xs| <= Pow2(d)
    ensures HalfRow(Pad(xs, d), index, d) == Pad(NearPart(xs, index, d), d - 1)
    ensures OtherHalf(Pad(xs, d), index, d) == Pad(FarPart(xs, index, d), d - 1)
  {
    PadSplit(xs, d);
  }

  /** The walk through the sparse tree sees what a walk through the dense tree would see. */
  lemma {:induction false} WalkIsDense(k: HashFn, xs: seq<H256>, index: nat, d: nat)
    requires |xs| <= Pow2(d)
    ensures HasDepth(Create(k, xs, d), d)
    ensures Walk(k, Create(k, xs, d), index, d)
         == (Pad(xs, d)[Low(index, d)], Siblings(k, Pad(xs, d), index, d))
    decreases d
  {
    CreateHasDepth(k, xs, d);
    if d > 0 {
      WalkStep(k, xs, index, d);
      WalkIsDense(k, NearPart(xs, index, d), index, d - 1);
      CreateRoot(k, FarPart(xs, index, d), d - 1);
      PadHalves(xs, index, d);
      HalfRowAt(Pad(xs, d), index, d);
    }
  }

  lemma {:induction false} SiblingsEvaluate(k: HashFn, ys: seq<H256>, index: nat, d: nat)
    requires |ys| == Pow2(d)
    ensures BranchRoot(k, ys[Low(index, d)], Siblings(k, ys, index, d), index) == FullRoot(k, ys, d)
  {
    if d > 0 {
      var half := HalfRow(ys, index, d);
      SiblingsEvaluate(k, half, index, d - 1);
      HalfRowAt(ys, index, d);
      TopSibling(k, ys, half[Low(index, d - 1)], index, d);
    }
  }

  /** If the lower siblings evaluate to the root of their half, all of them evaluate to the root. */
  lemma TopSibling(k: HashFn, ys: seq<H256>, leaf: H256, index: nat, d: nat)
    requires d > 0 && |ys| == Pow2(d)
    requires var half := HalfRow(ys, index, d);
             BranchRoot(k, leaf, Siblings(k, half, index, d - 1), index) == FullRoot(k, half, d - 1)
    ensures BranchRoot(k, leaf, Siblings(k, ys, index, d), index) == FullRoot(k, ys, d)
  {
    SiblingsStep(k, ys, leaf, index, d);
    FullRootByHalves(k, ys, index, d);
  }

  lemma SiblingsStep(k: HashFn, ys: seq<H256>, leaf: H256, index: nat, d: nat)
    requires d > 0 && |ys| == Pow2(d)
    ensures BranchRoot(k, leaf, Siblings(k, ys, index, d), index)
         == var (a, b) := InOrder(index, d - 1,
                                  BranchRoot(k, leaf, Siblings(k, HalfRow(ys, index, d), index, d - 1), index),
                                  FullRoot(k, OtherHalf(ys, index, d), d - 1)); k(a, b)
  {
    BranchRootSnoc(k, leaf, Siblings(k, HalfRow(ys, index, d), index, d - 1),
                   FullRoot(k, OtherHalf(ys, index, d), d - 1), index);
  }

  /** Completeness: the proof of any position verifies against the tree it was generated from. */
  lemma Completeness(k: HashFn, xs: seq<H256>, index: nat, d: nat)
    requires |xs| <= Pow2(d)
    ensures HasDepth(Create(k, xs, d), d)
    ensures var (leaf, path) := Walk(k, Create(k, xs, d), index, d);
            && leaf == Pad(xs, d)[Low(index, d)]
            && VerifyMerkleProof(k, leaf, path, d, index, RootHash(k, Create(k, xs, d)))
  {
    WalkIsDense(k, xs, index, d);
    SiblingsEvaluate(k, Pad(xs, d), index, d);
    CreateRoot(k, xs, d);
  }

  /** What the branch and the dense tree feed to the hash at the root. */
  function TopInputs(k: HashFn, ys: seq<H256>, leaf: H256, branch: seq<H256>, index: nat): Collision
    requires |ys| == Pow2(|branch|) && |branch| > 0
  {
    var d := |branch|;
    var (a, b) := InOrder(index, d - 1, BranchRoot(k, leaf, branch[..d - 1], index), branch[d - 1]);
    var (x, y) := InOrder(index, d - 1, FullRoot(k, HalfRow(ys, index, d), d - 1),
                          FullRoot(k, OtherHalf(ys, index, d), d - 1));
    Collision(a, b, x, y)
  }

  lemma TopInputsMeet(k: HashFn, ys: seq<H256>, leaf: H256, branch: seq<H256>, index: nat)
    requires |ys| == Pow2(|branch|) && |branch| > 0
    requires BranchRoot(k, leaf, branch, index) == FullRoot(k, ys, |branch|)
    ensures var w := TopInputs(k, ys, leaf, branch, index);
            if (w.a, w.b) != (w.c, w.d) then IsCollision(k, w)
            else && BranchRoot(k, leaf, branch[..|branch| - 1], index)
                    == FullRoot(k, HalfRow(ys, index, |branch|), |branch| - 1)
                 && branch[|branch| - 1] == FullRoot(k, OtherHalf(ys, index, |branch|), |branch| - 1)
  {
    FullRootByHalves(k, ys, index, |branch|);
  }

  /** Follows a branch down the dense tree to the first level where the two hash different inputs. */
  function FindCollision(k: HashFn, ys: seq<H256>, leaf: H256, branch: seq<H256>, index: nat): Option<Collision>
    requires |ys| == Pow2(|branch|)
    decreases |branch|
  {
    if |branch| == 0 then None
    else
      var d := |branch|;
      var w := TopInputs(k, ys, leaf, branch, index);
      if (w.a, w.b) != (w.c, w.d) then Some(w)
      else FindCollision(k, HalfRow(ys, index, d), leaf, branch[..d - 1], index)
  }

  lemma SplitLast<T>(s: seq<T>)
    requires |s| > 0
    ensures s == s[..|s| - 1] + [s[|s| - 1]]
  {
  }

  /** Binding for a full row: a verifying branch is the honest one, or it exhibits a collision. */
  lemma {:induction false} RowBinding(k: HashFn, ys: seq<H256>, leaf: H256, branch: seq<H256>, index: nat)
    requires |ys| == Pow2(|branch|)
    requires BranchRoot(k, leaf, branch, index) == FullRoot(k, ys, |branch|)
    ensures match FindCollision(k, ys, leaf, branch, index)
            case Some(w) => IsCollision(k, w)
            case None => leaf == ys[Low(index, |branch|)] && branch == Siblings(k, ys, index, |branch|)
    decreases |branch|
  {
    if |branch| > 0 {
      var d := |branch|;
      var w := TopInputs(k, ys, leaf, branch, index);
      TopInputsMeet(k, ys, leaf, branch, index);
      if (w.a, w.b) == (w.c, w.d) {
        RowBinding(k, HalfRow(ys, index, d), leaf, branch[..d - 1], index);
        HalfRowAt(ys, index, d);
        SplitLast(branch);
      }
    }
  }

  /**
   * Binding: whatever verifies at `index` against the root of a created tree is the leaf and the
   * path that the tree itself would give out, unless the branch and the tree contain a collision.
   */
  lemma Binding(k: HashFn, xs: seq<H256>, leaf: H256, branch: seq<H256>, d: nat, index: nat)
    requires |xs| <= Pow2(d)
    requires VerifyMerkleProof(k, leaf, branch, d, index, RootHash(k, Create(k, xs, d)))
    ensures HasDepth(Create(k, xs, d), d)
    ensures match FindCollision(k, Pad(xs, d), leaf, branch, index)
            case Some(w) => IsCollision(k, w)
            case None => (leaf, branch) == Walk(k, Create(k, xs, d), index, d)
  {
    CreateRoot(k, xs, d);
    WalkIsDense(k, xs, index, d);
    RowBinding(k, Pad(xs, d), leaf, branch, index);
  }

  /** The first place, left to right and bottom-up, where two full rows with one root disagree. */
  function FindRowCollision(k: HashFn, ys: seq<H256>, zs: seq<H256>, d: nat): Option<Collision>
    requires |ys| == |zs| == Pow2(d)
  {
    if d == 0 then None
    else
      var yl, yr, zl, zr := ys[..Pow2(d - 1)], ys[Pow2(d - 1)..], zs[..Pow2(d - 1)], zs[Pow2(d - 1)..];
      var w := Collision(FullRoot(k, yl, d - 1), FullRoot(k, yr, d - 1),
                         FullRoot(k, zl, d - 1), FullRoot(k, zr, d - 1));
      if (w.a, w.b) != (w.c, w.d) then Some(w)
      else match FindRowCollision(k, yl, zl, d - 1)
        case Some(v) => Some(v)
        case None => FindRowCollision(k, yr, zr, d - 1)
  }

  /** A root commits to the whole padded row of leaves, or there is a collision. */
  lemma {:induction false} RootBinding(k: HashFn, ys: seq<H256>, zs: seq<H256>, d: nat)
    requires |ys| == |zs| == Pow2(d)
    requires FullRoot(k, ys, d) == FullRoot(k, zs, d)
    ensures match FindRowCollision(k, ys, zs, d)
            case Some(w) => IsCollision(k, w)
            case None => ys == zs
  {
    if d > 0 {
      var yl, yr, zl, zr := ys[..Pow2(d - 1)], ys[Pow2(d - 1)..], zs[..Pow2(d - 1)], zs[Pow2(d - 1)..];
      assert ys == yl + yr && zs == zl + zr;
      if FullRoot(k, yl, d - 1) == FullRoot(k, zl, d - 1) && FullRoot(k, yr, d - 1) == FullRoot(k, zr, d - 1) {
        RootBinding(k, yl, zl, d - 1);
        RootBinding(k, yr, zr, d - 1);
      }
    }
  }
}
