/** Hashes, the zero hashes of each tree level, and the reference meaning of a Merkle root. */
module Hashing {
  import opened Numbers

  type Bytes32 = s: seq<u8> | |s| == 32 witness seq(32, _ => 0)

  /** A 256-bit word. */
  datatype H256 = H256(bytes: Bytes32)

  function ZeroBytes(n: nat): (s: seq<u8>)
    ensures |s| == n && forall i :: 0 <= i < n ==> s[i] == 0
  {
    if n == 0 then [] else ZeroBytes(n - 1) + [0]
  }

  const ZERO := H256(ZeroBytes(32))

  /** The depth of both accumulators. */
  const TREE_DEPTH: nat := 32

  /** The concatenating hash.  Everything below holds for every such function. */
  type HashFn = (H256, H256) -> H256

  /** Two different inputs of `k` with one output. */
  datatype Collision = Collision(a: H256, b: H256, c: H256, d: H256)

  predicate IsCollision(k: HashFn, w: Collision) {
    (w.a, w.b) != (w.c, w.d) && k(w.a, w.b) == k(w.c, w.d)
  }

  /** The entry for level `d` of the table of zero hashes. */
  function ZeroHash(k: HashFn, d: nat): H256 {
    if d == 0 then ZERO else k(ZeroHash(k, d - 1), ZeroHash(k, d - 1))
  }

  function Zeros(n: nat): (s: seq<H256>)
    ensures |s| == n
  {
    seq(n, _ => ZERO)
  }

  /** The root of the perfect binary tree over exactly `Pow2(d)` leaves. */
  function FullRoot(k: HashFn, ys: seq<H256>, d: nat): H256
    requires |ys| == Pow2(d)
  {
    if d == 0 then ys[0]
    else k(FullRoot(k, ys[..Pow2(d - 1)], d - 1), FullRoot(k, ys[Pow2(d - 1)..], d - 1))
  }

  /** The leaves filled up with zero leaves to a full row of depth `d`. */
  function Pad(xs: seq<H256>, d: nat): (ys: seq<H256>)
    requires |xs| <= Pow2(d)
    ensures |ys| == Pow2(d)
  {
    xs + Zeros(Pow2(d) - |xs|)
  }

  /** The root that both accumulators stand for: the dense tree over the zero-padded leaves. */
  function PaddedRoot(k: HashFn, xs: seq<H256>, d: nat): H256
    requires |xs| <= Pow2(d)
  {
    FullRoot(k, Pad(xs, d), d)
  }

  /** The leaves of `xs` that fall in the left half of a tree of depth `d`. */
  function LeftPart(xs: seq<H256>, d: nat): (ls: seq<H256>)
    requires d > 0
    ensures |ls| <= Pow2(d - 1)
  {
    if |xs| <= Pow2(d - 1) then xs else xs[..Pow2(d - 1)]
  }

  function RightPart(xs: seq<H256>, d: nat): (rs: seq<H256>)
    requires d > 0
    ensures |xs| <= Pow2(d) ==> |rs| <= Pow2(d - 1)
  {
    if |xs| <= Pow2(d - 1) then [] else xs[Pow2(d - 1)..]
  }

  lemma PadSplit(xs: seq<H256>, d: nat)
    requires d > 0 && |xs| <= Pow2(d)
    ensures Pad(xs, d)[..Pow2(d - 1)] == Pad(LeftPart(xs, d), d - 1)
    ensures Pad(xs, d)[Pow2(d - 1)..] == Pad(RightPart(xs, d), d - 1)
  {
  }

  lemma PaddedRootSplit(k: HashFn, xs: seq<H256>, d: nat)
    requires d > 0 && |xs| <= Pow2(d)
    ensures PaddedRoot(k, xs, d) == k(PaddedRoot(k, LeftPart(xs, d), d - 1), PaddedRoot(k, RightPart(xs, d), d - 1))
  {
    PadSplit(xs, d);
  }

  lemma {:induction false} ZeroRoot(k: HashFn, d: nat)
    ensures FullRoot(k, Zeros(Pow2(d)), d) == ZeroHash(k, d) == PaddedRoot(k, [], d)
  {
    assert Pad([], d) == Zeros(Pow2(d));
    if d > 0 {
      ZeroRoot(k, d - 1);
      assert Zeros(Pow2(d))[..Pow2(d - 1)] == Zeros(Pow2(d - 1)) == Zeros(Pow2(d))[Pow2(d - 1)..];
    }
  }

  /** Fills the table of zero hashes, level by level. */
  method FillZeroHashes(k: HashFn, hashes: array<H256>)
    requires hashes.Length > 0
    modifies hashes
    ensures forall i :: 0 <= i < hashes.Length ==> hashes[i] == ZeroHash(k, i)
  {
    hashes[0] := ZERO;
    for i := 0 to hashes.Length - 1
      invariant forall j :: 0 <= j <= i ==> hashes[j] == ZeroHash(k, j)
    {
      hashes[i + 1] := k(hashes[i], hashes[i]);
    }
  }

  /** The table of zero hashes for levels 0 to `depth`. */
  method ZeroHashes(k: HashFn, depth: nat) returns (hashes: array<H256>)
    ensures fresh(hashes) && hashes.Length == depth + 1
    ensures forall i :: 0 <= i <= depth ==> hashes[i] == ZeroHash(k, i)
  {
    hashes := new H256[depth + 1](_ => ZERO);
    FillZeroHashes(k, hashes);
  }
}
