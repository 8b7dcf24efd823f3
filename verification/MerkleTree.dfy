/** The right-sparse Merkle tree as a value: building it, pushing one leaf, and what both cost. */
module MerkleTree {
  import opened Numbers
  import opened Hashing

  datatype Tree =
    | Leaf(leaf: H256)
    | Node(hash: H256, left: Tree, right: Tree)
    | Zero(depth: nat)

  datatype TreeError = LeafReached | MerkleTreeFull | Invalid | DepthTooSmall

  datatype PushResult = Pushed(tree: Tree) | Refused(error: TreeError)

  function RootHash(k: HashFn, t: Tree): H256 {
    match t
    case Leaf(h) => h
    case Node(h, _, _) => h
    case Zero(d) => ZeroHash(k, d)
  }

  function MakeNode(k: HashFn, l: Tree, r: Tree): Tree {
    Node(k(RootHash(k, l), RootHash(k, r)), l, r)
  }

  /** Builds the tree of `leaves`.  A release build drops the leaves that do not fit. */
  function Create(k: HashFn, leaves: seq<H256>, d: nat): Tree
    decreases d
  {
    if |leaves| == 0 then Zero(d)
    else if d == 0 then Leaf(leaves[0])
    else MakeNode(k, Create(k, LeftPart(leaves, d), d - 1), Create(k, RightPart(leaves, d), d - 1))
  }

  /** The result of pushing `x` into `t`; a refused push leaves the tree as it was. */
  function Push(k: HashFn, t: Tree, x: H256, d: nat): PushResult {
    if d == 0 then Refused(DepthTooSmall)
    else match t
      case Leaf(_) => Refused(LeafReached)
      case Zero(_) => Pushed(Create(k, [x], d))
      case Node(_, l, r) =>
        match (l, r)
        case (Leaf(_), Leaf(_)) => Refused(MerkleTreeFull)
        case (Node(_, _, _), Node(_, _, _)) =>
          (match Push(k, r, x, d - 1)
           case Pushed(r') => Pushed(MakeNode(k, l, r'))
           case Refused(e) => Refused(e))
        case (Zero(_), Zero(_)) => Pushed(MakeNode(k, Create(k, [x], d - 1), r))
        case (Leaf(_), Zero(_)) => Pushed(MakeNode(k, l, Create(k, [x], d - 1)))
        case (Node(_, _, _), Zero(_)) =>
          (match Push(k, l, x, d - 1)
           case Pushed(l') => Pushed(MakeNode(k, l', r))
           case Refused(e) =>
             if e == MerkleTreeFull then Pushed(MakeNode(k, l, Create(k, [x], d - 1))) else Refused(e))
        case (_, _) => Refused(Invalid)
  }

  /** The root of a created tree is the root of the dense zero-padded tree. */
  lemma {:induction false} CreateRoot(k: HashFn, xs: seq<H256>, d: nat)
    requires |xs| <= Pow2(d)
    ensures RootHash(k, Create(k, xs, d)) == PaddedRoot(k, xs, d)
    decreases d
  {
    if |xs| == 0 {
      ZeroRoot(k, d);
    } else if d > 0 {
      PaddedRootSplit(k, xs, d);
      CreateRoot(k, LeftPart(xs, d), d - 1);
      CreateRoot(k, RightPart(xs, d), d - 1);
    }
  }

  /** Leaves beyond the capacity never reach the tree. */
  lemma {:induction false} CreateTruncates(k: HashFn, xs: seq<H256>, d: nat)
    requires |xs| >= Pow2(d)
    ensures Create(k, xs, d) == Create(k, xs[..Pow2(d)], d)
  {
    if d > 0 && |xs| > Pow2(d) {
      var ys := xs[..Pow2(d)];
      assert LeftPart(xs, d) == LeftPart(ys, d) by {
        assert |ys| > Pow2(d - 1);
      }
      CreateTruncates(k, RightPart(xs, d), d - 1);
      assert RightPart(xs, d)[..Pow2(d - 1)] == RightPart(ys, d);
    } else if d > 0 {
      assert xs == xs[..Pow2(d)];
    }
  }

  /** Which constructor a created tree has at its top. */
  lemma Shape(k: HashFn, xs: seq<H256>, d: nat)
    ensures Create(k, xs, d).Zero? <==> |xs| == 0
    ensures Create(k, xs, d).Leaf? <==> |xs| > 0 && d == 0
  {
  }

  /** Where one more leaf goes: left while the left half has room, right after that. */
  lemma SnocParts(xs: seq<H256>, x: H256, d: nat)
    requires d > 0
    ensures |xs| > 0 ==> |LeftPart(xs, d)| > 0
    ensures |xs| < Pow2(d - 1) ==> LeftPart(xs + [x], d) == LeftPart(xs, d) + [x] && RightPart(xs + [x], d) == []
    ensures |xs| >= Pow2(d - 1) ==> LeftPart(xs + [x], d) == LeftPart(xs, d)
    ensures |xs| >= Pow2(d - 1) ==> RightPart(xs + [x], d) == RightPart(xs, d) + [x]
    ensures |xs| <= Pow2(d - 1) <==> |RightPart(xs, d)| == 0
    ensures |LeftPart(xs, d)| == Min(|xs|, Pow2(d - 1)) && |RightPart(xs, d)| == Max(0, |xs| - Pow2(d - 1))
  {
  }

  /** The snoc law: pushing onto a created tree is creating the longer tree, node for node. */
  lemma {:induction false} PushIsSnoc(k: HashFn, xs: seq<H256>, x: H256, d: nat)
    requires d > 0 && |xs| <= Pow2(d)
    ensures Push(k, Create(k, xs, d), x, d)
         == if |xs| < Pow2(d) then Pushed(Create(k, xs + [x], d)) else Refused(MerkleTreeFull)
  {
    if |xs| == 0 {
      assert [] + [x] == [x];
    } else {
      SnocParts(xs, x, d);
      var ls, rs := LeftPart(xs, d), RightPart(xs, d);
      Shape(k, ls, d - 1);
      Shape(k, rs, d - 1);
      if d > 1 {
        PushIsSnoc(k, if |rs| == 0 then ls else rs, x, d - 1);
      }
    }
  }

  /** Pushing the leaves one at a time, as long as none is refused. */
  function PushAll(k: HashFn, t: Tree, xs: seq<H256>, d: nat): PushResult {
    if |xs| == 0 then Pushed(t)
    else match PushAll(k, t, xs[..|xs| - 1], d)
      case Pushed(t') => Push(k, t', xs[|xs| - 1], d)
      case Refused(e) => Refused(e)
  }

  lemma {:induction false} PushAllIsCreate(k: HashFn, xs: seq<H256>, d: nat)
    requires d > 0
    ensures PushAll(k, Zero(d), xs, d)
         == if |xs| <= Pow2(d) then Pushed(Create(k, xs, d)) else Refused(MerkleTreeFull)
  {
    if |xs| > 0 {
      var init := xs[..|xs| - 1];
      PushAllIsCreate(k, init, d);
      assert init + [xs[|xs| - 1]] == xs;
      if |init| <= Pow2(d) {
        PushIsSnoc(k, init, xs[|xs| - 1], d);
      }
    }
  }

  /** Folding pushes over the leaves gives the root of the dense zero-padded tree. */
  lemma PushAllRoot(k: HashFn, xs: seq<H256>, d: nat)
    requires d > 0 && |xs| <= Pow2(d)
    ensures PushAll(k, Zero(d), xs, d).Pushed?
    ensures RootHash(k, PushAll(k, Zero(d), xs, d).tree) == PaddedRoot(k, xs, d)
  {
    PushAllIsCreate(k, xs, d);
    CreateRoot(k, xs, d);
  }

  /** A tree no part of which has two empty halves: the case `push_leaf` handles but never meets. */
  predicate NoEmptyNode(t: Tree) {
    t.Node? ==> !(t.left.Zero? && t.right.Zero?) && NoEmptyNode(t.left) && NoEmptyNode(t.right)
  }

  lemma {:induction false} CreateHasNoEmptyNode(k: HashFn, xs: seq<H256>, d: nat)
    ensures NoEmptyNode(Create(k, xs, d))
    decreases d
  {
    if |xs| > 0 && d > 0 {
      Shape(k, LeftPart(xs, d), d - 1);
      CreateHasNoEmptyNode(k, LeftPart(xs, d), d - 1);
      CreateHasNoEmptyNode(k, RightPart(xs, d), d - 1);
    }
  }

  // Any tree at all, created or not

  /** The leaves from left to right. */
  function LeavesOf(t: Tree): seq<H256> {
    match t
    case Leaf(h) => [h]
    case Node(_, l, r) => LeavesOf(l) + LeavesOf(r)
    case Zero(_) => []
  }

  /** Every hash kept in the tree is that of its two halves. */
  predicate Consistent(k: HashFn, t: Tree) {
    t.Node? ==>
      && t.hash == k(RootHash(k, t.left), RootHash(k, t.right))
      && Consistent(k, t.left) && Consistent(k, t.right)
  }

  lemma {:induction false} OneLeafTree(k: HashFn, x: H256, d: nat)
    ensures LeavesOf(Create(k, [x], d)) == [x] && Consistent(k, Create(k, [x], d))
  {
    if d > 0 {
      assert LeftPart([x], d) == [x] && RightPart([x], d) == [];
      OneLeafTree(k, x, d - 1);
    }
  }

  /** A push into any tree adds its leaf after all others and keeps every hash right. */
  lemma {:induction false} PushAppends(k: HashFn, t: Tree, x: H256, d: nat)
    requires Push(k, t, x, d).Pushed?
    ensures LeavesOf(Push(k, t, x, d).tree) == LeavesOf(t) + [x]
    ensures Consistent(k, t) ==> Consistent(k, Push(k, t, x, d).tree)
  {
    if t.Zero? {
      OneLeafTree(k, x, d);
    } else {
      OneLeafTree(k, x, d - 1);
      if t.right.Node? {
        PushAppends(k, t.right, x, d - 1);
      } else if t.left.Node? && Push(k, t.left, x, d - 1).Pushed? {
        PushAppends(k, t.left, x, d - 1);
      }
    }
  }

  /**
   * A push changes one half of a node and leaves the other as it is: the right half if that has nodes
   * already or the left one can take nothing, else the left one.
   */
  lemma PushTakesOneHalf(k: HashFn, t: Tree, x: H256, d: nat)
    requires t.Node? && Push(k, t, x, d).Pushed?
    ensures var t' := Push(k, t, x, d).tree;
            && t'.Node? && (t'.left == t.left <==> t'.right != t.right)
            && (t'.left == t.left <==>
                t.right.Node? || t.left.Leaf? || (t.left.Node? && Push(k, t.left, x, d - 1).Refused?))
  {
    OneLeafTree(k, x, d - 1);
    assert forall u: Tree :: LeavesOf(u) + [x] != LeavesOf(u);
    if t.right.Node? {
      PushAppends(k, t.right, x, d - 1);
    } else if t.left.Node? && Push(k, t.left, x, d - 1).Pushed? {
      PushAppends(k, t.left, x, d - 1);
    }
  }

  /** What each refusal means. */
  lemma RefusalMeans(k: HashFn, t: Tree, x: H256, d: nat)
    ensures d == 0 ==> Push(k, t, x, d) == Refused(DepthTooSmall)
    ensures d > 0 && t.Leaf? ==> Push(k, t, x, d) == Refused(LeafReached)
    ensures d > 0 && t.Node? && t.left.Leaf? && t.right.Leaf? ==> Push(k, t, x, d) == Refused(MerkleTreeFull)
    ensures d > 0 && t.Node? && (t.left.Zero? != t.right.Zero?) && t.left.Zero? ==> Push(k, t, x, d) == Refused(Invalid)
    ensures d > 0 && t.Node? && t.left.Leaf? != t.right.Leaf? && !t.right.Zero? ==> Push(k, t, x, d) == Refused(Invalid)
    ensures d > 0 && t.Zero? ==> Push(k, t, x, d).Pushed?
  {
  }

  /** How often an operation evaluates the hash and how many calls to `push_leaf` it makes. */
  datatype Cost = Cost(hashes: nat, calls: nat)

  function Plus(c: Cost, hashes: nat, calls: nat): Cost {
    Cost(c.hashes + hashes, c.calls + calls)
  }

  /** The evaluations that building a tree of `n` leaves takes. */
  function CreateCost(n: nat, d: nat): nat {
    if n == 0 || d == 0 then 0
    else if n <= Pow2(d - 1) then 1 + CreateCost(n, d - 1)
    else 1 + CreateCost(Pow2(d - 1), d - 1) + CreateCost(n - Pow2(d - 1), d - 1)
  }

  function PushCost(k: HashFn, t: Tree, x: H256, d: nat): Cost
    decreases t, 1
  {
    if d == 0 || t.Leaf? then Cost(0, 1)
    else if t.Zero? then Cost(CreateCost(1, d), 1)
    else Plus(BelowCost(k, t, x, d), 0, 1)
  }

  /** What a call on a node spends after its own start. */
  function BelowCost(k: HashFn, t: Tree, x: H256, d: nat): Cost
    requires d > 0 && t.Node?
    decreases t, 0
  {
    match (t.left, t.right)
    case (Node(_, _, _), Node(_, _, _)) =>
      Plus(PushCost(k, t.right, x, d - 1), if Push(k, t.right, x, d - 1).Pushed? then 1 else 0, 0)
    case (Zero(_), Zero(_)) => Cost(CreateCost(1, d - 1) + 1, 0)
    case (Leaf(_), Zero(_)) => Cost(CreateCost(1, d - 1) + 1, 0)
    case (Node(_, _, _), Zero(_)) => Plus(PushCost(k, t.left, x, d - 1), LeftExtra(k, t.left, x, d), 0)
    case (_, _) => Cost(0, 0)
  }

  /** After the left half was tried: one evaluation if it took the leaf, else those that start the right half. */
  function LeftExtra(k: HashFn, l: Tree, x: H256, d: nat): nat
    requires d > 0
  {
    match Push(k, l, x, d - 1)
    case Pushed(_) => 1
    case Refused(e) => if e == MerkleTreeFull then CreateCost(1, d - 1) + 1 else 0
  }

  lemma PushLeftStep(k: HashFn, t: Tree, x: H256, d: nat)
    requires d > 0 && t.Node? && t.left.Node? && t.right.Zero?
    ensures match Push(k, t.left, x, d - 1)
            case Pushed(l) => Push(k, t, x, d) == Pushed(MakeNode(k, l, t.right))
            case Refused(e) =>
              Push(k, t, x, d) == if e == MerkleTreeFull then Pushed(MakeNode(k, t.left, Create(k, [x], d - 1)))
                                  else Refused(e)
  {
  }

  lemma PushRightStep(k: HashFn, t: Tree, x: H256, d: nat)
    requires d > 0 && t.Node? && t.left.Node? && t.right.Node?
    ensures match Push(k, t.right, x, d - 1)
            case Pushed(r) => Push(k, t, x, d) == Pushed(MakeNode(k, t.left, r))
            case Refused(e) => Push(k, t, x, d) == Refused(e)
  {
  }

  lemma {:induction false} CreateOneCost(d: nat)
    ensures CreateCost(1, d) == d
  {
    if d > 0 {
      CreateOneCost(d - 1);
    }
  }

  /** The half that a push onto the tree of `xs` tries first. */
  function ProbedPart(xs: seq<H256>, d: nat): (part: seq<H256>)
    requires d > 0 && 0 < |xs| <= Pow2(d)
    ensures 0 < |part| <= Pow2(d - 1)
  {
    if |xs| <= Pow2(d - 1) then LeftPart(xs, d) else RightPart(xs, d)
  }

  lemma PushCostLow(k: HashFn, xs: seq<H256>, x: H256)
    requires 0 < |xs| <= 2
    ensures PushCost(k, Create(k, xs, 1), x, 1) == Cost(if |xs| == 2 then 0 else CreateCost(1, 0) + 1, 1)
  {
    Shape(k, LeftPart(xs, 1), 0);
    Shape(k, RightPart(xs, 1), 0);
  }

  lemma CostOnTheLeft(k: HashFn, t: Tree, x: H256, d: nat)
    requires d > 0 && t.Node? && t.left.Node? && t.right.Zero?
    ensures PushCost(k, t, x, d) == Plus(PushCost(k, t.left, x, d - 1), LeftExtra(k, t.left, x, d), 1)
  {
  }

  lemma CostOnTheRight(k: HashFn, t: Tree, x: H256, d: nat)
    requires d > 0 && t.Node? && t.left.Node? && t.right.Node?
    ensures PushCost(k, t, x, d)
         == Plus(PushCost(k, t.right, x, d - 1), if Push(k, t.right, x, d - 1).Pushed? then 1 else 0, 1)
  {
  }

  /** What is spent beside the push onto the half tried first, when that half holds `part`. */
  lemma ExtraCost(k: HashFn, part: seq<H256>, x: H256, d: nat)
    requires d > 1 && 0 < |part| <= Pow2(d - 1)
    ensures var half := Create(k, part, d - 1);
            && half.Node?
            && (Push(k, half, x, d - 1).Pushed? <==> |part| < Pow2(d - 1))
            && LeftExtra(k, half, x, d) == if |part| < Pow2(d - 1) then 1 else CreateCost(1, d - 1) + 1
  {
    Shape(k, part, d - 1);
    PushIsSnoc(k, part, x, d - 1);
  }

  /** Where the cost of pushing onto a created tree arises. */
  lemma PushCostStep(k: HashFn, xs: seq<H256>, x: H256, d: nat)
    requires d > 1 && 0 < |xs| <= Pow2(d)
    ensures var extra := if |ProbedPart(xs, d)| < Pow2(d - 1) then 1
                         else if |xs| == Pow2(d) then 0
                         else CreateCost(1, d - 1) + 1;
            PushCost(k, Create(k, xs, d), x, d)
            == Plus(PushCost(k, Create(k, ProbedPart(xs, d), d - 1), x, d - 1), extra, 1)
  {
    var t := Create(k, xs, d);
    ExtraCost(k, ProbedPart(xs, d), x, d);
    Shape(k, LeftPart(xs, d), d - 1);
    Shape(k, RightPart(xs, d), d - 1);
    if |xs| <= Pow2(d - 1) {
      CostOnTheLeft(k, t, x, d);
    } else {
      CostOnTheRight(k, t, x, d);
    }
  }

  /** What the bound says of a cost: one evaluation for each level, or none; at most one call for each. */
  predicate Within(cost: Cost, pushed: bool, d: nat) {
    cost.hashes == (if pushed then d else 0) && cost.calls <= d
  }

  /** A successful push hashes once per level, a refused one never; a level is visited at most once. */
  lemma {:induction false} PushCostBound(k: HashFn, xs: seq<H256>, x: H256, d: nat)
    requires d > 0 && |xs| <= Pow2(d)
    ensures Within(PushCost(k, Create(k, xs, d), x, d), |xs| < Pow2(d), d)
  {
    CreateOneCost(d);
    CreateOneCost(d - 1);
    if |xs| > 0 && d == 1 {
      PushCostLow(k, xs, x);
    } else if |xs| > 0 {
      PushCostStep(k, xs, x, d);
      PushCostBound(k, ProbedPart(xs, d), x, d - 1);
    }
  }
}
