/** The Merkle tree as it lives on the heap: `push_leaf` rewrites nodes and hashes in place. */
module TreeCells {
  import opened Numbers
  import opened Hashing
  import M = MerkleTree
  import P = MerkleProof
  import T = Types

  datatype Content =
    | Leaf(leaf: H256)
    | Node(hash: H256, left: TreeCell, right: TreeCell)
    | Zero(depth: nat)

  datatype Outcome = Ok | Err(error: M.TreeError)

  /** The list after a push, with one more leaf if the tree has room for it. */
  function Longer(xs: seq<H256>, x: H256, d: nat): (ys: seq<H256>)
    ensures |xs| <= Pow2(d) ==> |ys| <= Pow2(d)
  {
    if |xs| < Pow2(d) then xs + [x] else xs
  }

  /** Evaluates the hash, and counts its evaluations and the calls to `push_leaf`. */
  class Meter {
    const k: HashFn
    ghost var hashes: nat
    ghost var calls: nat

    constructor (k: HashFn)
      ensures this.k == k && hashes == calls == 0
    {
      this.k := k;
      hashes, calls := 0, 0;
    }

    /** What was spent since then. */
    twostate predicate Spent(cost: M.Cost)
      reads this
    {
      hashes == old(hashes) + cost.hashes && calls == old(calls) + cost.calls
    }

    method HashConcat(a: H256, b: H256) returns (h: H256)
      modifies this
      ensures h == k(a, b) && Spent(M.Cost(1, 0))
    {
      hashes := hashes + 1;
      return k(a, b);
    }

    ghost method Call()
      modifies this
      ensures Spent(M.Cost(0, 1))
    {
      calls := calls + 1;
    }
  }

  class TreeCell {
    var content: Content
    ghost var Repr: set<TreeCell>
    ghost var model: M.Tree

    ghost predicate Valid()
      reads this, Repr
      ensures Valid() ==> this in Repr
    {
      && this in Repr
      && match content
         case Leaf(h) => model == M.Leaf(h)
         case Zero(d) => model == M.Zero(d)
         case Node(h, l, r) =>
           && l in Repr && l.Repr <= Repr && this !in l.Repr && l.Valid()
           && r in Repr && r.Repr <= Repr && this !in r.Repr && r.Valid()
           && l.Repr !! r.Repr
           && model == M.Node(h, l.model, r.model)
    }

    constructor OfLeaf(h: H256)
      ensures Valid() && fresh(Repr) && model == M.Leaf(h)
    {
      content, model, Repr := Leaf(h), M.Leaf(h), {this};
    }

    constructor OfZero(d: nat)
      ensures Valid() && fresh(Repr) && model == M.Zero(d)
    {
      content, model, Repr := Zero(d), M.Zero(d), {this};
    }

    constructor OfNode(h: H256, l: TreeCell, r: TreeCell)
      requires l.Valid() && r.Valid() && l.Repr !! r.Repr
      ensures Valid() && fresh(Repr - l.Repr - r.Repr) && model == M.Node(h, l.model, r.model)
    {
      content, model, Repr := Node(h, l, r), M.Node(h, l.model, r.model), {this} + l.Repr + r.Repr;
    }

    /** The root hash kept in this cell. */
    function RootHash(k: HashFn): (h: H256)
      requires Valid()
      reads this, Repr
      ensures h == M.RootHash(k, model)
    {
      match content
      case Leaf(h) => h
      case Node(h, _, _) => h
      case Zero(d) => ZeroHash(k, d)
    }

    static method Create(meter: Meter, leaves: seq<H256>, d: nat) returns (cell: TreeCell)
      modifies meter
      ensures cell.Valid() && fresh(cell.Repr)
      ensures cell.model == M.Create(meter.k, leaves, d)
      ensures meter.Spent(M.Cost(M.CreateCost(|leaves|, d), 0))
      decreases d
    {
      if |leaves| == 0 {
        cell := new TreeCell.OfZero(d);
      } else if d == 0 {
        cell := new TreeCell.OfLeaf(leaves[0]);
      } else {
        var left := Create(meter, LeftPart(leaves, d), d - 1);
        var right := Create(meter, RightPart(leaves, d), d - 1);
        cell := Join(meter, left, right);
      }
    }

    static method Join(meter: Meter, l: TreeCell, r: TreeCell) returns (cell: TreeCell)
      requires l.Valid() && r.Valid() && l.Repr !! r.Repr
      modifies meter
      ensures cell.Valid() && fresh(cell.Repr - l.Repr - r.Repr)
      ensures cell.model == M.MakeNode(meter.k, l.model, r.model)
      ensures meter.Spent(M.Cost(1, 0))
    {
      var h := meter.HashConcat(l.RootHash(meter.k), r.RootHash(meter.k));
      cell := new TreeCell.OfNode(h, l, r);
    }

    /** Points this cell at `l` and `r` and recomputes its hash from theirs. */
    method Rehash(meter: Meter, l: TreeCell, r: TreeCell)
      requires l.Valid() && r.Valid() && l.Repr !! r.Repr && this !in l.Repr && this !in r.Repr
      modifies this, meter
      ensures Valid() && Repr == {this} + l.Repr + r.Repr
      ensures model == M.MakeNode(meter.k, l.model, r.model)
      ensures meter.Spent(M.Cost(1, 0))
    {
      var h := meter.HashConcat(l.RootHash(meter.k), r.RootHash(meter.k));
      content := Node(h, l, r);
      model := M.Node(h, l.model, r.model);
      Repr := {this} + l.Repr + r.Repr;
    }

    /** Puts `x` first into the right half. */
    method StartRight(meter: Meter, x: H256, d: nat)
      requires Valid() && content.Node? && d > 0
      modifies this, meter
      ensures Valid() && fresh(Repr - old(Repr))
      ensures model == M.MakeNode(meter.k, old(model).left, M.Create(meter.k, [x], d - 1))
      ensures meter.Spent(M.Cost(M.CreateCost(1, d - 1) + 1, 0))
    {
      var left := content.left;
      var cell := Create(meter, [x], d - 1);
      Rehash(meter, left, cell);
    }

    /** This cell now holds the outcome of pushing `x`; a refused push changed nothing. */
    twostate predicate Holds(k: HashFn, x: H256, d: nat, result: Outcome)
      reads this
    {
      match M.Push(k, old(model), x, d)
      case Pushed(t) => result == Ok && model == t
      case Refused(e) => result == Err(e) && model == old(model) && Repr == old(Repr)
    }

    /** Pushes `x` in place; the meter counts the hash evaluations and the calls. */
    method PushLeaf(meter: Meter, x: H256, d: nat) returns (result: Outcome)
      requires Valid()
      modifies Repr, meter
      ensures Valid() && fresh(Repr - old(Repr))
      ensures Holds(meter.k, x, d, result)
      ensures meter.Spent(M.PushCost(meter.k, old(model), x, d))
      decreases d, 2
    {
      meter.Call();
      if d == 0 {
        return Err(M.DepthTooSmall);
      } else if content.Leaf? {
        return Err(M.LeafReached);
      } else if content.Zero? {
        var cell := Create(meter, [x], d);
        content, model := cell.content, cell.model;
        Repr := {this} + cell.Repr;
        return Ok;
      } else {
        result := PushIntoNode(meter, x, d);
      }
    }

    method PushIntoNode(meter: Meter, x: H256, d: nat) returns (result: Outcome)
      requires Valid() && content.Node? && d > 0
      modifies Repr, meter
      ensures Valid() && fresh(Repr - old(Repr))
      ensures Holds(meter.k, x, d, result)
      ensures meter.Spent(M.BelowCost(meter.k, old(model), x, d))
      decreases d, 1
    {
      var left, right := content.left, content.right;
      if left.content.Leaf? && right.content.Leaf? {
        return Err(M.MerkleTreeFull);
      } else if left.content.Node? && right.content.Node? {
        result := PushRight(meter, x, d);
      } else if left.content.Zero? && right.content.Zero? {
        var cell := Create(meter, [x], d - 1);
        Rehash(meter, cell, right);
        return Ok;
      } else if left.content.Leaf? && right.content.Zero? {
        StartRight(meter, x, d);
        return Ok;
      } else if left.content.Node? && right.content.Zero? {
        result := PushLeft(meter, x, d);
      } else {
        return Err(M.Invalid);
      }
    }

    /** Both halves are nodes: the left one is full, so the leaf goes right. */
    method PushRight(meter: Meter, x: H256, d: nat) returns (result: Outcome)
      requires Valid() && content.Node? && d > 0
      requires content.left.content.Node? && content.right.content.Node?
      modifies Repr, meter
      ensures Valid() && fresh(Repr - old(Repr))
      ensures Holds(meter.k, x, d, result)
      ensures meter.Spent(M.BelowCost(meter.k, old(model), x, d))
      decreases d, 0
    {
      var left, right := content.left, content.right;
      M.PushRightStep(meter.k, model, x, d);
      ghost var pushed := M.Push(meter.k, right.model, x, d - 1);
      result := right.PushLeaf(meter, x, d - 1);
      if result == Ok {
        assert right.model == pushed.tree;
        Rehash(meter, left, right);
      }
    }

    /** The right half is empty: try the left one, and start the right one when it is full. */
    method PushLeft(meter: Meter, x: H256, d: nat) returns (result: Outcome)
      requires Valid() && content.Node? && d > 0
      requires content.left.content.Node? && content.right.content.Zero?
      modifies Repr, meter
      ensures Valid() && fresh(Repr - old(Repr))
      ensures Holds(meter.k, x, d, result)
      ensures meter.Spent(M.BelowCost(meter.k, old(model), x, d))
      decreases d, 0
    {
      var left, right := content.left, content.right;
      M.PushLeftStep(meter.k, model, x, d);
      result := left.PushLeaf(meter, x, d - 1);
      if result == Ok {
        Rehash(meter, left, right);
      } else if result == Err(M.MerkleTreeFull) {
        StartRight(meter, x, d);
        return Ok;
      }
    }

    /** Pushes onto the tree of a list: the tree becomes that of the longer list, if there is room. */
    method Append(k: HashFn, x: H256, d: nat, ghost xs: seq<H256>)
      returns (result: Outcome, root: H256, ghost cost: M.Cost)
      requires Valid() && d > 0 && |xs| <= Pow2(d) && model == M.Create(k, xs, d)
      modifies Repr
      ensures Valid() && fresh(Repr - old(Repr))
      ensures result == if |xs| < Pow2(d) then Ok else Err(M.MerkleTreeFull)
      ensures model == M.Create(k, Longer(xs, x, d), d) && root == PaddedRoot(k, Longer(xs, x, d), d)
      ensures M.Within(cost, |xs| < Pow2(d), d)
    {
      M.PushIsSnoc(k, xs, x, d);
      M.PushCostBound(k, xs, x, d);
      var meter := new Meter(k);
      result := PushLeaf(meter, x, d);
      cost := M.Cost(meter.hashes, meter.calls);
      root := RootHash(k);
      M.CreateRoot(k, Longer(xs, x, d), d);
    }

    /** The two subtrees; a zero cell stands for the shared table entry one level down. */
    method LeftAndRight() returns (branches: T.Option<(TreeCell, TreeCell)>)
      requires Valid()
      ensures branches.None? <==> P.Branches(model).None?
      ensures branches.Some? ==>
        && branches.value.0.Valid() && branches.value.1.Valid()
        && (branches.value.0.model, branches.value.1.model) == P.Branches(model).value
    {
      if content.Leaf? || content == Zero(0) {
        return T.None;
      } else if content.Node? {
        return T.Some((content.left, content.right));
      }
      var zero := new TreeCell.OfZero(content.depth - 1);
      return T.Some((zero, zero));
    }

    /** The leaf at `index` and its siblings, lowest first: a walk from the top, then a reversal. */
    method GenerateProof(k: HashFn, index: nat, depth: nat) returns (leaf: H256, path: seq<H256>)
      requires Valid() && P.HasDepth(model, depth)
      ensures (leaf, path) == P.Walk(k, model, index, depth)
    {
      var proof: seq<H256> := [];
      var current := this;
      var d := depth;
      ghost var goal := P.Walk(k, model, index, depth);
      NothingAbove(goal);
      while d > 0
        invariant 0 <= d <= depth && current.Valid()
        invariant StillToWalk(k, current.model, index, d, Reverse(proof), goal)
      {
        ghost var at, above := current.model, proof;
        var branches := current.LeftAndRight();
        var (left, right) := branches.value;
        if Bit(index, d - 1) == 1 {
          proof := proof + [left.RootHash(k)];
          current := right;
        } else {
          proof := proof + [right.RootHash(k)];
          current := left;
        }
        WalkTurn(k, at, above, index, d, goal);
        d := d - 1;
      }
      WalkEnds(k, current.model, index, Reverse(proof), goal);
      return current.RootHash(k), Reverse(proof);
    }
  }

  function Reverse(s: seq<H256>): seq<H256> {
    if |s| == 0 then [] else Reverse(s[1..]) + [s[0]]
  }

  /** What a walk still has to find, followed by the siblings found above it. */
  function Joined(walk: (H256, seq<H256>), above: seq<H256>): (H256, seq<H256>) {
    (walk.0, walk.1 + above)
  }

  /** The walk from `t` on, with the siblings found above it, is `goal`. */
  predicate StillToWalk(k: HashFn, t: M.Tree, index: nat, d: nat, above: seq<H256>, goal: (H256, seq<H256>)) {
    P.HasDepth(t, d) && Joined(P.Walk(k, t, index, d), above) == goal
  }

  lemma NothingAbove(walk: (H256, seq<H256>))
    ensures Joined(walk, []) == walk
  {
    assert walk.1 + [] == walk.1;
  }

  lemma WalkEnds(k: HashFn, t: M.Tree, index: nat, above: seq<H256>, goal: (H256, seq<H256>))
    requires StillToWalk(k, t, index, 0, above, goal)
    ensures goal == (M.RootHash(k, t), above)
  {
    assert [] + above == above;
  }

  lemma SiblingMoves(walk: (H256, seq<H256>), sibling: H256, above: seq<H256>)
    ensures Joined(walk, Reverse(above + [sibling])) == Joined((walk.0, walk.1 + [sibling]), Reverse(above))
  {
    ReverseSnoc(above, sibling);
    assert walk.1 + ([sibling] + Reverse(above)) == (walk.1 + [sibling]) + Reverse(above);
  }

  lemma WalkBegins(k: HashFn, t: M.Tree, index: nat, d: nat)
    requires d > 0 && P.HasDepth(t, d)
    ensures var (next, sibling) := P.Turn(t, index, d);
            var (leaf, path) := P.Walk(k, next, index, d - 1);
            P.Walk(k, t, index, d) == (leaf, path + [M.RootHash(k, sibling)])
  {
  }

  lemma WalkTurn(k: HashFn, t: M.Tree, above: seq<H256>, index: nat, d: nat, goal: (H256, seq<H256>))
    requires d > 0 && StillToWalk(k, t, index, d, Reverse(above), goal)
    ensures P.Branches(t).Some?
    ensures var (next, sibling) := P.Turn(t, index, d);
            StillToWalk(k, next, index, d - 1, Reverse(above + [M.RootHash(k, sibling)]), goal)
  {
    var (next, sibling) := P.Turn(t, index, d);
    WalkBegins(k, t, index, d);
    SiblingMoves(P.Walk(k, next, index, d - 1), M.RootHash(k, sibling), above);
  }

  lemma {:induction false} ReverseSnoc(s: seq<H256>, x: H256)
    ensures Reverse(s + [x]) == [x] + Reverse(s)
  {
    if |s| > 0 {
      ReverseSnoc(s[1..], x);
      assert (s + [x])[1..] == s[1..] + [x];
    }
  }
}
