/** The wire format of a Merkle proof: leaf, 64-bit index, 32 siblings. */
module ProofCodec {
  import opened Numbers
  import opened Hashing
  import opened Bytes
  import opened Types
  import opened Provers

  /** The siblings one after the other. */
  function PathBytes(path: seq<H256>): (s: seq<u8>)
    ensures |s| == 32 * |path|
  {
    if |path| == 0 then [] else PathBytes(path[..|path| - 1]) + path[|path| - 1].bytes
  }

  function ParsePath(s: seq<u8>, n: nat): (path: seq<H256>)
    requires |s| == 32 * n
    ensures |path| == n
  {
    if n == 0 then [] else ParsePath(s[..32 * (n - 1)], n - 1) + [H256(s[32 * (n - 1)..])]
  }

  lemma {:induction false} PathRoundTrip(path: seq<H256>)
    ensures ParsePath(PathBytes(path), |path|) == path
  {
    if |path| > 0 {
      var init := path[..|path| - 1];
      PathRoundTrip(init);
      assert PathBytes(path)[..32 * |init|] == PathBytes(init);
      assert PathBytes(path)[32 * |init|..] == path[|init|].bytes;
      assert path == init + [path[|init|]];
    }
  }

  function ProofBytes(p: Proof): seq<u8>
    requires p.index < Pow256(8)
  {
    p.leaf.bytes + ToBE(p.index, 8) + PathBytes(p.path)
  }

  lemma {:induction false} SiblingAt(path: seq<H256>, i: nat)
    requires i < |path|
    ensures 32 * i + 32 <= 32 * |path| && PathBytes(path)[32 * i..32 * i + 32] == path[i].bytes
  {
    var init := path[..|path| - 1];
    if i < |init| {
      SiblingAt(init, i);
      assert PathBytes(path)[32 * i..32 * i + 32] == PathBytes(init)[32 * i..32 * i + 32];
    }
  }

  /** The leaf, the index as a 64-bit big-endian number, and the siblings, lowest first. */
  lemma ProofLayout(p: Proof, i: nat)
    requires p.index < Pow256(8) && i < |p.path|
    ensures var s := ProofBytes(p);
            && |s| == 40 + 32 * |p.path| && s[..32] == p.leaf.bytes && s[32..40] == ToBE(p.index, 8)
            && 72 + 32 * i <= |s| && s[40 + 32 * i..72 + 32 * i] == p.path[i].bytes
  {
    SiblingAt(p.path, i);
    assert ProofBytes(p)[40 + 32 * i..72 + 32 * i] == PathBytes(p.path)[32 * i..32 * i + 32];
  }

  /** Reads a proof with `depth` siblings; shorter strings cannot be read. */
  function ParseProof(s: seq<u8>, depth: nat): Option<(Proof, seq<u8>)> {
    if |s| < 40 + 32 * depth then None
    else Some((Proof(H256(s[..32]), FromBE(s[32..40]), ParsePath(s[40..40 + 32 * depth], depth)), s[40 + 32 * depth..]))
  }

  lemma Parts(a: seq<u8>, b: seq<u8>, c: seq<u8>, rest: seq<u8>)
    ensures var s := a + b + c + rest;
            && s[..|a|] == a && s[|a|..|a| + |b|] == b
            && s[|a| + |b|..|a| + |b| + |c|] == c && s[|a| + |b| + |c|..] == rest
  {
  }

  lemma ProofRoundTrip(p: Proof, rest: seq<u8>)
    requires p.index < Pow256(8)
    ensures ParseProof(ProofBytes(p) + rest, |p.path|) == Some((p, rest))
  {
    BERoundTrip(p.index, 8);
    PathRoundTrip(p.path);
    Parts(p.leaf.bytes, ToBE(p.index, 8), PathBytes(p.path), rest);
  }
}
