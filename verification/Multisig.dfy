/** Quorums of signed checkpoints, and the search for the latest index that has one. */
module Multisigs {
  import opened Numbers
  import opened Hashing
  import opened Types

  /** A 20-byte address, ordered as a number. */
  type Address = nat

  type Signature = seq<u8>

  /** What a validator's storage gives for an index; nothing stands for an error as well. */
  datatype Reply = Nothing | Signed(checkpoint: Checkpoint, signature: Signature)

  /** The storages of all validators, and signature recovery, which may fail. */
  datatype Net = Net(
    replies: (u32, Address) -> Reply,
    latest: Address -> Option<u32>,
    recover: (Checkpoint, Signature) -> Option<Address>)

  datatype Endorsement = Endorsement(signer: Address, checkpoint: Checkpoint, signature: Signature)

  datatype Multisig = Multisig(checkpoint: Checkpoint, signatures: seq<Signature>)

  datatype Fetched = Failed | NoQuorum | Quorum(checkpoint: Multisig)

  // One validator

  function Recovered(net: Net, index: u32, v: Address): Option<Address> {
    match net.replies(index, v)
    case Nothing => None
    case Signed(c, s) => net.recover(c, s)
  }

  /** The validator has stored something for this index. */
  predicate Answers(net: Net, index: u32, v: Address) {
    net.replies(index, v).Signed? && net.replies(index, v).checkpoint.index == index
  }

  /** The validator has signed a checkpoint with this index and root, with its own key. */
  predicate Endorses(net: Net, index: u32, v: Address, root: H256) {
    Answers(net, index, v) && Recovered(net, index, v) == Some(v) && net.replies(index, v).checkpoint.root == root
  }

  function EndorsementOf(net: Net, index: u32, v: Address): Endorsement
    requires Answers(net, index, v)
  {
    Endorsement(v, net.replies(index, v).checkpoint, net.replies(index, v).signature)
  }

  /** The endorsements of a root, in the order in which the validators are visited. */
  function Endorsements(net: Net, order: seq<Address>, index: u32, root: H256): seq<Endorsement> {
    if |order| == 0 then []
    else
      var v := order[|order| - 1];
      Endorsements(net, order[..|order| - 1], index, root)
      + (if Endorses(net, index, v, root) then [EndorsementOf(net, index, v)] else [])
  }

  ghost predicate Distinct(order: seq<Address>) {
    forall i, j :: 0 <= i < j < |order| ==> order[i] != order[j]
  }

  /** Those whose stored checkpoint has this index and root, and whose own key it was signed with. */
  function Supporters(net: Net, order: seq<Address>, index: u32, root: H256): (who: set<Address>)
    ensures forall v :: v in who <==>
      && v in order
      && match net.replies(index, v)
         case Nothing => false
         case Signed(c, s) => c.index == index && c.root == root && net.recover(c, s) == Some(v)
  {
    set v | v in order && Endorses(net, index, v, root)
  }

  /** The endorsements are one for each supporter, each by that supporter. */
  lemma {:induction false} EndorsementsAreSupporters(net: Net, order: seq<Address>, index: u32, root: H256)
    requires Distinct(order)
    ensures var es := Endorsements(net, order, index, root);
            && |es| == |Supporters(net, order, index, root)|
            && (forall e :: e in es ==> e.signer in order && Endorses(net, index, e.signer, root)
                                        && e == EndorsementOf(net, index, e.signer))
            && (forall i, j :: 0 <= i < j < |es| ==> es[i].signer != es[j].signer)
  {
    if |order| > 0 {
      var init, v := order[..|order| - 1], order[|order| - 1];
      EndorsementsAreSupporters(net, init, index, root);
      LastIsNew(order);
      assert Supporters(net, order, index, root)
          == Supporters(net, init, index, root) + (if Endorses(net, index, v, root) then {v} else {});
      var es := Endorsements(net, init, index, root);
      forall i | 0 <= i < |es| ensures es[i].signer != v {
        assert es[i] in es;
      }
    }
  }

  lemma LastIsNew(order: seq<Address>)
    requires Distinct(order) && |order| > 0
    ensures Distinct(order[..|order| - 1]) && order[|order| - 1] !in order[..|order| - 1]
    ensures forall v :: v in order <==> v in order[..|order| - 1] || v == order[|order| - 1]
  {
    assert order == order[..|order| - 1] + [order[|order| - 1]];
  }

  // Sorting by signer

  ghost predicate StrictlyAscending(es: seq<Endorsement>) {
    forall i, j :: 0 <= i < j < |es| ==> es[i].signer < es[j].signer
  }

  function Insert(e: Endorsement, es: seq<Endorsement>): (r: seq<Endorsement>)
    ensures multiset(r) == multiset(es) + multiset{e}
  {
    if |es| == 0 || e.signer < es[0].signer then [e] + es
    else
      assert es == [es[0]] + es[1..];
      [es[0]] + Insert(e, es[1..])
  }

  lemma {:induction false} InsertAscending(e: Endorsement, es: seq<Endorsement>)
    requires StrictlyAscending(es) && forall x :: x in es ==> x.signer != e.signer
    ensures StrictlyAscending(Insert(e, es))
  {
    if |es| > 0 && e.signer >= es[0].signer {
      InsertAscending(e, es[1..]);
      var rest := Insert(e, es[1..]);
      forall i | 0 <= i < |rest| ensures es[0].signer < rest[i].signer {
        assert rest[i] in multiset(rest);
        assert rest[i] in es[1..] || rest[i] == e;
      }
    }
  }

  /** Sorts endorsements by their signer. */
  function Sort(es: seq<Endorsement>): (r: seq<Endorsement>)
    ensures multiset(r) == multiset(es)
  {
    if |es| == 0 then []
    else
      assert es == es[..|es| - 1] + [es[|es| - 1]];
      Insert(es[|es| - 1], Sort(es[..|es| - 1]))
  }

  lemma {:induction false} SortAscending(es: seq<Endorsement>)
    requires forall i, j :: 0 <= i < j < |es| ==> es[i].signer != es[j].signer
    ensures StrictlyAscending(Sort(es))
  {
    if |es| > 0 {
      var init := es[..|es| - 1];
      SortAscending(init);
      forall x | x in Sort(init) ensures x.signer != es[|es| - 1].signer {
        assert x in multiset(init);
      }
      InsertAscending(es[|es| - 1], Sort(init));
    }
  }

  function Signatures(es: seq<Endorsement>): seq<Signature> {
    seq(|es|, i requires 0 <= i < |es| => es[i].signature)
  }

  /** Puts endorsements of one checkpoint together; different checkpoints, or none, are refused. */
  function TryFrom(es: seq<Endorsement>): Option<Multisig> {
    if |es| == 0 then None
    else if exists i :: 0 <= i < |es| && es[i].checkpoint != es[0].checkpoint then None
    else Some(Multisig(es[0].checkpoint, Signatures(Sort(es))))
  }

  // Fetching a checkpoint

  /** A threshold of 0 still takes one signature. */
  function Needed(threshold: nat): (n: nat)
    ensures n >= threshold && n >= 1 && (n == threshold || n == 1)
  {
    Max(1, threshold)
  }

  /** The signatures are valid, by distinct validators in ascending order, and enough. */
  ghost predicate Sound(net: Net, order: seq<Address>, threshold: nat, index: u32, ms: Multisig) {
    exists signers: seq<Address> :: SignedBy(net, order, index, ms, signers) && |signers| >= Needed(threshold)
  }

  ghost predicate SignedBy(net: Net, order: seq<Address>, index: u32, ms: Multisig, signers: seq<Address>) {
    && ms.checkpoint.index == index
    && |signers| == |ms.signatures|
    && (forall i, j :: 0 <= i < j < |signers| ==> signers[i] < signers[j])
    && forall i :: 0 <= i < |signers| ==>
         && signers[i] in order
         && net.recover(ms.checkpoint, ms.signatures[i]) == Some(signers[i])
         && Endorses(net, index, signers[i], ms.checkpoint.root)
  }

  ghost predicate HasQuorum(net: Net, order: seq<Address>, threshold: nat, index: u32, root: H256) {
    |Supporters(net, order, index, root)| >= Needed(threshold)
  }

  /** The signer of everything stored for this index can be recovered. */
  ghost predicate Readable(net: Net, order: seq<Address>, index: u32) {
    forall v :: v in order && Answers(net, index, v) ==> Recovered(net, index, v).Some?
  }

  /** Two endorsements of one root differ elsewhere. */
  ghost predicate Conflicting(net: Net, order: seq<Address>, index: u32) {
    exists v, w :: v in order && w in order && Answers(net, index, v) && Answers(net, index, w)
                   && net.replies(index, v).checkpoint.root == net.replies(index, w).checkpoint.root
                   && net.replies(index, v).checkpoint != net.replies(index, w).checkpoint
  }

  /** Some stored signature cannot be recovered, or two endorsements of one root differ elsewhere. */
  ghost predicate Disturbed(net: Net, order: seq<Address>, index: u32) {
    !Readable(net, order, index) || Conflicting(net, order, index)
  }

  lemma TryFromIsSound(net: Net, order: seq<Address>, threshold: nat, index: u32, root: H256)
    requires Distinct(order) && HasQuorum(net, order, threshold, index, root)
    ensures var es := Endorsements(net, order, index, root);
            match TryFrom(es)
            case None => Conflicting(net, order, index)
            case Some(ms) => ms.checkpoint.root == root && Sound(net, order, threshold, index, ms)
  {
    var es := Endorsements(net, order, index, root);
    EndorsementsAreSupporters(net, order, index, root);
    if TryFrom(es) == None {
      var i :| 0 <= i < |es| && es[i].checkpoint != es[0].checkpoint;
      assert es[i] in es && es[0] in es;
    } else {
      EndorsementsSign(net, order, index, root, TryFrom(es).value);
    }
  }

  lemma EndorsementsSign(net: Net, order: seq<Address>, index: u32, root: H256, ms: Multisig)
    requires Distinct(order) && TryFrom(Endorsements(net, order, index, root)) == Some(ms)
    ensures ms.checkpoint.root == root
    ensures exists signers: seq<Address> ::
      SignedBy(net, order, index, ms, signers) && |signers| == |Supporters(net, order, index, root)|
  {
    var es := Endorsements(net, order, index, root);
    EndorsementsAreSupporters(net, order, index, root);
    SortAscending(es);
    SortKeeps(es);
    var sorted := Sort(es);
    var signers := seq(|sorted|, i requires 0 <= i < |sorted| => sorted[i].signer);
    assert es[0] in es;
    forall i | 0 <= i < |sorted|
      ensures signers[i] in order && Endorses(net, index, signers[i], root)
      ensures net.recover(ms.checkpoint, ms.signatures[i]) == Some(signers[i])
    {
      SameCheckpoint(es, sorted[i]);
    }
    assert SignedBy(net, order, index, ms, signers);
  }

  lemma SortKeeps(es: seq<Endorsement>)
    ensures |Sort(es)| == |es|
    ensures forall i :: 0 <= i < |Sort(es)| ==> Sort(es)[i] in es
  {
    assert |multiset(Sort(es))| == |multiset(es)|;
    forall i | 0 <= i < |Sort(es)| ensures Sort(es)[i] in es {
      assert Sort(es)[i] in multiset(Sort(es));
    }
  }

  lemma SameCheckpoint(es: seq<Endorsement>, e: Endorsement)
    requires TryFrom(es).Some? && e in es
    ensures e.checkpoint == TryFrom(es).value.checkpoint
  {
  }

  /** The validators visited so far settle nothing. */
  ghost predicate Undecided(net: Net, order: seq<Address>, threshold: nat, index: u32) {
    Readable(net, order, index) && forall root :: !HasQuorum(net, order, threshold, index, root)
  }

  /** The validators are visited up to the first one that settles the answer. */
  ghost predicate Visits(net: Net, order: seq<Address>, threshold: nat, index: u32, r: Fetched) {
    match r
    case NoQuorum => Undecided(net, order, threshold, index)
    case Quorum(ms) => exists i :: 0 <= i < |order| && QuorumReached(net, order, threshold, index, i, ms)
    case Failed => exists i :: 0 <= i < |order| && FailsAt(net, order, threshold, index, i)
  }

  ghost predicate QuorumReached(net: Net, order: seq<Address>, threshold: nat, index: u32, i: nat, ms: Multisig)
    requires i < |order|
  {
    && Undecided(net, order[..i], threshold, index) && Readable(net, order[..i + 1], index)
    && Sound(net, order[..i + 1], threshold, index, ms)
  }

  ghost predicate FailsAt(net: Net, order: seq<Address>, threshold: nat, index: u32, i: nat)
    requires i < |order|
  {
    && Undecided(net, order[..i], threshold, index)
    && (|| (Answers(net, index, order[i]) && Recovered(net, index, order[i]).None?)
        || Conflicting(net, order[..i + 1], index))
  }

  /** What a call to `fetch_checkpoint` guarantees, for the order in which validators are visited. */
  ghost predicate FetchSpec(net: Net, order: seq<Address>, threshold: nat, index: u32, r: Fetched) {
    && Visits(net, order, threshold, index, r)
    && match r
       case Quorum(ms) => Sound(net, order, threshold, index, ms)
       case NoQuorum => forall root :: !HasQuorum(net, order, threshold, index, root)
       case Failed => Disturbed(net, order, index)
  }

  /** The endorsements gathered so far, root by root. */
  ghost predicate Grouped(net: Net, order: seq<Address>, index: u32, groups: map<H256, seq<Endorsement>>) {
    forall root :: Endorsements(net, order, index, root) == if root in groups then groups[root] else []
  }

  lemma GroupOneMore(net: Net, order: seq<Address>, i: nat, index: u32, groups: map<H256, seq<Endorsement>>,
                     groups': map<H256, seq<Endorsement>>)
    requires i < |order| && Grouped(net, order[..i], index, groups)
    requires var v := order[i];
             if Answers(net, index, v) && Recovered(net, index, v) == Some(v) then
               var root := net.replies(index, v).checkpoint.root;
               groups' == groups[root := (if root in groups then groups[root] else []) + [EndorsementOf(net, index, v)]]
             else groups' == groups
    ensures Grouped(net, order[..i + 1], index, groups')
  {
    assert order[..i + 1][..i] == order[..i];
  }

  lemma FailsThere(net: Net, order: seq<Address>, threshold: nat, index: u32, i: nat)
    requires i < |order| && FailsAt(net, order, threshold, index, i)
    ensures FetchSpec(net, order, threshold, index, Failed)
  {
  }

  lemma QuorumThere(net: Net, order: seq<Address>, threshold: nat, index: u32, i: nat, ms: Multisig)
    requires i < |order| && QuorumReached(net, order, threshold, index, i, ms)
    ensures FetchSpec(net, order, threshold, index, Quorum(ms))
  {
    var signers :| SignedBy(net, order[..i + 1], index, ms, signers) && |signers| >= Needed(threshold);
    assert SignedBy(net, order, index, ms, signers);
  }

  lemma SmallGroups(net: Net, order: seq<Address>, threshold: nat, index: u32, groups: map<H256, seq<Endorsement>>)
    requires Distinct(order) && Grouped(net, order, index, groups)
    requires forall root :: root in groups ==> |groups[root]| < Needed(threshold)
    ensures forall root :: !HasQuorum(net, order, threshold, index, root)
  {
    forall root ensures !HasQuorum(net, order, threshold, index, root) {
      EndorsementsAreSupporters(net, order, index, root);
    }
  }

  // Independence of the order in which a hash map is visited

  ghost predicate SameValidators(order: seq<Address>, other: seq<Address>) {
    Distinct(order) && Distinct(other) && forall v :: v in order <==> v in other
  }

  lemma SoundHasQuorum(net: Net, order: seq<Address>, threshold: nat, index: u32, ms: Multisig)
    requires Distinct(order) && Sound(net, order, threshold, index, ms)
    ensures HasQuorum(net, order, threshold, index, ms.checkpoint.root)
  {
    var signers :| SignedBy(net, order, index, ms, signers) && |signers| >= Needed(threshold);
    var all := Supporters(net, order, index, ms.checkpoint.root);
    AscendingIsSmall(signers, all);
  }

  /** A strictly ascending list of members is no longer than the set. */
  lemma {:induction false} AscendingIsSmall(xs: seq<Address>, all: set<Address>)
    requires forall i, j :: 0 <= i < j < |xs| ==> xs[i] < xs[j]
    requires forall i :: 0 <= i < |xs| ==> xs[i] in all
    ensures |xs| <= |all|
  {
    if |xs| > 0 {
      AscendingIsSmall(xs[..|xs| - 1], all - {xs[|xs| - 1]});
    }
  }

  /** Two quorums that together outnumber the validators share one, so they are for the same root. */
  lemma MajorityRoot(net: Net, order: seq<Address>, threshold: nat, index: u32, root: H256, other: H256)
    requires Distinct(order) && 2 * threshold > |order|
    requires HasQuorum(net, order, threshold, index, root) && HasQuorum(net, order, threshold, index, other)
    ensures root == other
  {
    var a, b := Supporters(net, order, index, root), Supporters(net, order, index, other);
    if root != other {
      assert a !! b;
      assert |a + b| == |a| + |b|;
      DistinctCount(order, a + b);
    }
  }

  lemma {:induction false} DistinctCount(order: seq<Address>, some: set<Address>)
    requires Distinct(order) && forall v :: v in some ==> v in order
    ensures |some| <= |order|
  {
    if |order| > 0 {
      LastIsNew(order);
      var v := order[|order| - 1];
      DistinctCount(order[..|order| - 1], some - {v});
      assert some <= (some - {v}) + {v};
    } else {
      assert some == {};
    }
  }

  /**
   * With recoverable signatures and one domain, whether a quorum is found does not depend on the
   * order; with a majority threshold neither does its root.
   */
  lemma OrderDoesNotMatter(net: Net, order: seq<Address>, other: seq<Address>, threshold: nat, index: u32, r: Fetched,
                           s: Fetched)
    requires SameValidators(order, other) && !Disturbed(net, order, index)
    requires FetchSpec(net, order, threshold, index, r) && FetchSpec(net, other, threshold, index, s)
    ensures !r.Failed? && !s.Failed?
    ensures r.Quorum? <==> s.Quorum?
    ensures r.Quorum? && 2 * threshold > |order| ==> r.checkpoint.checkpoint.root == s.checkpoint.checkpoint.root
  {
    forall root ensures Supporters(net, order, index, root) == Supporters(net, other, index, root) {
    }
    if r.Quorum? {
      SoundHasQuorum(net, order, threshold, index, r.checkpoint);
      assert HasQuorum(net, other, threshold, index, r.checkpoint.checkpoint.root);
    }
    if s.Quorum? {
      SoundHasQuorum(net, other, threshold, index, s.checkpoint);
      assert HasQuorum(net, order, threshold, index, s.checkpoint.checkpoint.root);
    }
    if r.Quorum? && s.Quorum? && 2 * threshold > |order| {
      MajorityRoot(net, order, threshold, index, r.checkpoint.checkpoint.root, s.checkpoint.checkpoint.root);
    }
  }

  // Honest validators

  /** The validator endorses something for this index that is not the true root, if there is one. */
  predicate Misleads(net: Net, index: u32, v: Address, truth: Option<H256>) {
    && Answers(net, index, v) && Recovered(net, index, v) == Some(v)
    && truth != Some(net.replies(index, v).checkpoint.root)
  }

  function Misleading(net: Net, order: seq<Address>, index: u32, truth: Option<H256>): set<Address> {
    set v | v in order && Misleads(net, index, v, truth)
  }

  /** With fewer misleading validators than a quorum needs, every quorum is for the true root. */
  lemma QuorumIsTrue(net: Net, order: seq<Address>, threshold: nat, index: u32, r: Fetched, truth: Option<H256>)
    requires Distinct(order) && FetchSpec(net, order, threshold, index, r) && r.Quorum?
    requires |Misleading(net, order, index, truth)| < Needed(threshold)
    ensures r.checkpoint.checkpoint.index == index && truth == Some(r.checkpoint.checkpoint.root)
  {
    var root := r.checkpoint.checkpoint.root;
    SoundHasQuorum(net, order, threshold, index, r.checkpoint);
    if truth != Some(root) {
      assert Supporters(net, order, index, root) <= Misleading(net, order, index, truth);
      SubsetIsSmaller(Supporters(net, order, index, root), Misleading(net, order, index, truth));
    }
  }

  lemma {:induction false} SubsetIsSmaller(a: set<Address>, b: set<Address>)
    requires a <= b
    ensures |a| <= |b|
  {
    if v :| v in a {
      SubsetIsSmaller(a - {v}, b - {v});
    }
  }

  ghost predicate OnlyQuorum(net: Net, order: seq<Address>, threshold: nat, index: u32, root: H256) {
    forall other :: HasQuorum(net, order, threshold, index, other) <==> other == root
  }

  /** The bound is tight: a root that alone has a quorum is fetched, true or not. */
  lemma OnlyQuorumIsFetched(net: Net, order: seq<Address>, threshold: nat, index: u32, r: Fetched, root: H256)
    requires Distinct(order) && FetchSpec(net, order, threshold, index, r) && !Disturbed(net, order, index)
    requires OnlyQuorum(net, order, threshold, index, root)
    ensures r.Quorum? && r.checkpoint.checkpoint.root == root
  {
    assert HasQuorum(net, order, threshold, index, root);
    if r.Quorum? {
      SoundHasQuorum(net, order, threshold, index, r.checkpoint);
    }
  }

  // The latest index

  ghost predicate Descending(xs: seq<u32>) {
    forall i, j :: 0 <= i < j < |xs| ==> xs[i] >= xs[j]
  }

  function InsertDown(x: u32, xs: seq<u32>): (r: seq<u32>)
    ensures multiset(r) == multiset(xs) + multiset{x}
  {
    if |xs| == 0 || x > xs[0] then [x] + xs
    else
      assert xs == [xs[0]] + xs[1..];
      [xs[0]] + InsertDown(x, xs[1..])
  }

  function SortDown(xs: seq<u32>): (r: seq<u32>)
    ensures multiset(r) == multiset(xs)
  {
    if |xs| == 0 then []
    else
      assert xs == xs[..|xs| - 1] + [xs[|xs| - 1]];
      InsertDown(xs[|xs| - 1], SortDown(xs[..|xs| - 1]))
  }

  lemma {:induction false} InsertDownDescends(x: u32, xs: seq<u32>)
    requires Descending(xs)
    ensures Descending(InsertDown(x, xs))
  {
    if |xs| > 0 && x <= xs[0] {
      InsertDownDescends(x, xs[1..]);
      var rest := InsertDown(x, xs[1..]);
      forall i | 0 <= i < |rest| ensures xs[0] >= rest[i] {
        assert rest[i] in multiset(rest);
        assert rest[i] in xs[1..] || rest[i] == x;
      }
    }
  }

  lemma {:induction false} SortDownDescends(xs: seq<u32>)
    ensures Descending(SortDown(xs))
  {
    if |xs| > 0 {
      SortDownDescends(xs[..|xs| - 1]);
      InsertDownDescends(xs[|xs| - 1], SortDown(xs[..|xs| - 1]));
    }
  }

  /** The indices that the validators report as their latest. */
  function Reported(net: Net, order: seq<Address>): seq<u32> {
    if |order| == 0 then []
    else
      var latest := net.latest(order[|order| - 1]);
      Reported(net, order[..|order| - 1]) + (if latest.Some? then [latest.value] else [])
  }

  /** Enough validators report `x` itself. */
  ghost predicate Common(reported: seq<u32>, threshold: nat, x: u32) {
    multiset(reported)[x] >= threshold
  }

  /** `x` is the greatest index that enough validators report. */
  ghost predicate GreatestCommon(reported: seq<u32>, threshold: nat, x: u32) {
    Common(reported, threshold, x) && forall y: u32 :: y > x ==> !Common(reported, threshold, y)
  }

  /** In a descending list, values above an entry occur only before it. */
  lemma OnlyBefore(xs: seq<u32>, i: nat, y: u32)
    requires Descending(xs) && i <= |xs| && (i < |xs| ==> y > xs[i])
    ensures multiset(xs)[y] == multiset(xs[..i])[y]
  {
    assert xs == xs[..i] + xs[i..];
    assert y !in multiset(xs[i..]);
  }

  lemma CountOneMore(xs: seq<u32>, i: nat)
    requires i < |xs|
    ensures multiset(xs[..i + 1]) == multiset(xs[..i]) + multiset{xs[i]}
  {
    assert xs[..i + 1] == xs[..i] + [xs[i]];
  }

  class MultisigCheckpointSyncer {
    const threshold: nat

    constructor (threshold: nat)
      ensures this.threshold == threshold
    {
      this.threshold := threshold;
    }

    /** Visits the validators in some order and stops at the first root with enough endorsements. */
    method FetchCheckpoint(net: Net, order: seq<Address>, index: u32) returns (r: Fetched)
      requires Distinct(order)
      ensures FetchSpec(net, order, threshold, index, r)
    {
      var groups: map<H256, seq<Endorsement>> := map[];
      for i := 0 to |order|
        invariant Grouped(net, order[..i], index, groups) && Readable(net, order[..i], index)
        invariant forall root :: root in groups ==> |groups[root]| < Needed(threshold)
      {
        var v := order[i];
        SmallGroups(net, order[..i], threshold, index, groups);
        assert order[..i + 1] == order[..i] + [v];
        ghost var before := groups;
        assert Distinct(order[..i + 1]);
        if Answers(net, index, v) {
          var signer := Recovered(net, index, v);
          if signer == None {
            FailsThere(net, order, threshold, index, i);
            return Failed;
          }
          if signer.value == v {
            var root := net.replies(index, v).checkpoint.root;
            var group := (if root in groups then groups[root] else []) + [EndorsementOf(net, index, v)];
            groups := groups[root := group];
            GroupOneMore(net, order, i, index, before, groups);
            if |group| >= threshold {
              EndorsementsAreSupporters(net, order[..i + 1], index, root);
              TryFromIsSound(net, order[..i + 1], threshold, index, root);
              var ms := TryFrom(group);
              if ms == None {
                FailsThere(net, order, threshold, index, i);
                return Failed;
              }
              QuorumThere(net, order, threshold, index, i, ms.value);
              return Quorum(ms.value);
            }
          }
        }
        GroupOneMore(net, order, i, index, before, groups);
      }
      assert order[..|order|] == order;
      SmallGroups(net, order, threshold, index, groups);
      return NoQuorum;
    }

    /** The run-length scan over the descending indices: the greatest common index, if there is one. */
    method ScanForCommon(xs: seq<u32>) returns (found: Option<u32>)
      requires Descending(xs)
      ensures threshold == 0 ==> found == if |xs| == 0 then None else Some(xs[0])
      ensures threshold >= 1 ==> match found
              case Some(x) => GreatestCommon(xs, threshold, x)
              case None => forall y: u32 :: !Common(xs, threshold, y)
    {
      var last: u32 := 0;
      var count := 0;
      for i := 0 to |xs|
        invariant count == multiset(xs[..i])[last] && (i > 0 ==> last == xs[i - 1])
        invariant if threshold == 0 then i == 0 else forall y: u32 :: multiset(xs[..i])[y] < threshold
      {
        CountOneMore(xs, i);
        if xs[i] != last {
          last := xs[i];
          assert last !in xs[..i];
          count := 1;
        } else {
          count := count + 1;
        }
        if count >= threshold {
          if threshold >= 1 {
            CommonFound(xs, i, threshold);
          }
          return Some(last);
        }
      }
      assert xs[..|xs|] == xs;
      return None;
    }

    /** The second search: the distinct indices below the highest, from high to low. */
    method SearchBelow(net: Net, order: seq<Address>, xs: seq<u32>) returns (found: Option<u32>)
      requires Distinct(order) && Descending(xs) && |xs| > 0
      ensures match found
              case Some(x) => x in xs && x < xs[0] && Finds(net, order, threshold, x)
                              && forall y :: y in xs && x < y < xs[0] ==> FindsNothing(net, order, threshold, y)
              case None => forall y :: y in xs && y < xs[0] ==> FindsNothing(net, order, threshold, y)
    {
      var last := xs[0];
      for j := 1 to |xs|
        invariant last == xs[j - 1]
        invariant forall y :: y in xs[..j] && y < xs[0] ==> FindsNothing(net, order, threshold, y)
      {
        assert xs[..j + 1] == xs[..j] + [xs[j]];
        if xs[j] == last {
          assert xs[j] in xs[..j];
          continue;
        }
        last := xs[j];
        var fetched := FetchCheckpoint(net, order, last);
        assert if fetched.Quorum? then Finds(net, order, threshold, last)
               else FindsNothing(net, order, threshold, last);
        if fetched.Quorum? {
          return Some(last);
        }
      }
      assert xs[..|xs|] == xs;
      return None;
    }

    /** The latest index with a quorum, first among the reports, then among stored checkpoints. */
    method LatestIndex(net: Net, order: seq<Address>) returns (found: Option<u32>)
      requires Distinct(order)
      ensures LatestSpec(net, order, threshold, found)
    {
      var latestIndices: seq<u32> := [];
      for i := 0 to |order|
        invariant latestIndices == Reported(net, order[..i])
      {
        assert order[..i + 1][..i] == order[..i];
        var index := net.latest(order[i]);
        if index.Some? {
          latestIndices := latestIndices + [index.value];
        }
      }
      assert order[..|order|] == order;
      if |latestIndices| == 0 {
        NobodyReports(net, order);
        return None;
      }
      var sorted := SortDown(latestIndices);
      SortDownDescends(latestIndices);
      SortedReports(net, order, sorted);
      FirstIsHighest(net, order, sorted);
      found := ScanForCommon(sorted);
      if threshold == 0 {
        return;
      }
      ScanTells(net, order, threshold, sorted, found);
      if found.None? {
        found := SearchBelow(net, order, sorted);
        SearchTells(net, order, threshold, sorted, found);
      }
    }
  }

  /** A fetch for this index gives a checkpoint. */
  ghost predicate Finds(net: Net, order: seq<Address>, threshold: nat, index: u32) {
    exists ms :: FetchSpec(net, order, threshold, index, Quorum(ms))
  }

  /** A fetch for this index gives no checkpoint, or fails. */
  ghost predicate FindsNothing(net: Net, order: seq<Address>, threshold: nat, index: u32) {
    FetchSpec(net, order, threshold, index, NoQuorum) || FetchSpec(net, order, threshold, index, Failed)
  }

  /** Only where some root has a quorum is anything found; nothing is found where none has, or on a disturbance. */
  lemma FindingNeedsQuorum(net: Net, order: seq<Address>, threshold: nat, index: u32)
    requires Distinct(order)
    ensures Finds(net, order, threshold, index) ==> exists root :: HasQuorum(net, order, threshold, index, root)
    ensures FindsNothing(net, order, threshold, index) ==>
      Disturbed(net, order, index) || forall root :: !HasQuorum(net, order, threshold, index, root)
  {
    if Finds(net, order, threshold, index) {
      var ms :| FetchSpec(net, order, threshold, index, Quorum(ms));
      SoundHasQuorum(net, order, threshold, index, ms);
    }
  }

  // Reports, validator by validator

  /** The validators whose latest index is `x`. */
  function Reporters(net: Net, order: seq<Address>, x: u32): set<Address> {
    set v | v in order && net.latest(v) == Some(x)
  }

  /** The list of reports has each index once for every validator that reports it. */
  lemma {:induction false} ReportedCounts(net: Net, order: seq<Address>, x: u32)
    requires Distinct(order)
    ensures multiset(Reported(net, order))[x] == |Reporters(net, order, x)|
  {
    if |order| > 0 {
      var init, v := order[..|order| - 1], order[|order| - 1];
      ReportedCounts(net, init, x);
      LastIsNew(order);
      assert Reporters(net, order, x)
          == Reporters(net, init, x) + (if net.latest(v) == Some(x) then {v} else {});
    }
  }

  ghost predicate IsReported(net: Net, order: seq<Address>, x: u32) {
    exists v :: v in order && net.latest(v) == Some(x)
  }

  lemma ReportedByOne(net: Net, order: seq<Address>, x: u32)
    requires Distinct(order)
    ensures x in Reported(net, order) <==> IsReported(net, order, x)
  {
    ReportedCounts(net, order, x);
    if IsReported(net, order, x) {
      var v :| v in order && net.latest(v) == Some(x);
      assert v in Reporters(net, order, x);
    } else {
      assert Reporters(net, order, x) == {};
    }
    assert x in Reported(net, order) <==> x in multiset(Reported(net, order));
  }

  /** Enough validators report `x` as their latest index. */
  ghost predicate IsCommon(net: Net, order: seq<Address>, threshold: nat, x: u32) {
    |Reporters(net, order, x)| >= threshold
  }

  ghost predicate IsHighest(net: Net, order: seq<Address>, m: u32) {
    IsReported(net, order, m) && forall y: u32 :: IsReported(net, order, y) ==> y <= m
  }

  /** What the search for the latest index finds, in terms of the validators' reports. */
  ghost predicate LatestSpec(net: Net, order: seq<Address>, threshold: nat, found: Option<u32>) {
    if !exists x: u32 :: IsReported(net, order, x) then found == None
    else if threshold == 0 then found.Some? && IsHighest(net, order, found.value)
    else if exists x: u32 :: IsCommon(net, order, threshold, x)
    then && found.Some? && IsCommon(net, order, threshold, found.value)
         && forall y: u32 :: y > found.value ==> !IsCommon(net, order, threshold, y)
    else match found
      case Some(x) => FoundBelow(net, order, threshold, x)
      case None => NothingBelow(net, order, threshold)
  }

  /** `x` is the greatest index reported below the highest for which a fetch finds a quorum. */
  ghost predicate FoundBelow(net: Net, order: seq<Address>, threshold: nat, x: u32) {
    && IsReported(net, order, x) && Finds(net, order, threshold, x) && !IsHighest(net, order, x)
    && forall y: u32 :: IsReported(net, order, y) && y > x && !IsHighest(net, order, y) ==>
         FindsNothing(net, order, threshold, y)
  }

  ghost predicate NothingBelow(net: Net, order: seq<Address>, threshold: nat) {
    forall y: u32 :: IsReported(net, order, y) && !IsHighest(net, order, y) ==> FindsNothing(net, order, threshold, y)
  }

  /** The list `sorted` holds the reports, from high to low. */
  ghost predicate ListsReports(net: Net, order: seq<Address>, sorted: seq<u32>) {
    && |sorted| > 0 && Descending(sorted)
    && (forall y: u32 :: y in sorted <==> IsReported(net, order, y))
    && forall y: u32 :: multiset(sorted)[y] == |Reporters(net, order, y)|
  }

  lemma SortedReports(net: Net, order: seq<Address>, sorted: seq<u32>)
    requires Distinct(order) && |sorted| > 0 && Descending(sorted)
    requires multiset(sorted) == multiset(Reported(net, order))
    ensures ListsReports(net, order, sorted)
  {
    forall y: u32 ensures y in sorted <==> IsReported(net, order, y) {
      assert y in multiset(sorted) <==> y in multiset(Reported(net, order));
      ReportedByOne(net, order, y);
    }
    forall y: u32 ensures multiset(sorted)[y] == |Reporters(net, order, y)| {
      ReportedCounts(net, order, y);
    }
  }

  lemma NobodyReports(net: Net, order: seq<Address>)
    requires Distinct(order) && |Reported(net, order)| == 0
    ensures !exists x: u32 :: IsReported(net, order, x)
  {
    forall x: u32 ensures !IsReported(net, order, x) {
      ReportedByOne(net, order, x);
    }
  }

  lemma FirstIsHighest(net: Net, order: seq<Address>, sorted: seq<u32>)
    requires ListsReports(net, order, sorted)
    ensures forall y: u32 :: IsHighest(net, order, y) <==> y == sorted[0]
    ensures IsReported(net, order, sorted[0])
  {
    assert sorted[0] in sorted;
    forall y: u32 | IsReported(net, order, y) ensures y <= sorted[0] {
      assert y in sorted;
    }
  }

  lemma ScanTells(net: Net, order: seq<Address>, threshold: nat, sorted: seq<u32>, found: Option<u32>)
    requires threshold >= 1 && ListsReports(net, order, sorted)
    requires match found
             case Some(x) => GreatestCommon(sorted, threshold, x)
             case None => forall y: u32 :: !Common(sorted, threshold, y)
    ensures found.Some? <==> exists x: u32 :: IsCommon(net, order, threshold, x)
    ensures found.Some? ==> LatestSpec(net, order, threshold, found)
  {
    FirstIsHighest(net, order, sorted);
    assert forall y: u32 :: Common(sorted, threshold, y) <==> IsCommon(net, order, threshold, y);
  }

  lemma SearchTells(net: Net, order: seq<Address>, threshold: nat, sorted: seq<u32>, found: Option<u32>)
    requires threshold >= 1 && ListsReports(net, order, sorted)
    requires !exists x: u32 :: IsCommon(net, order, threshold, x)
    requires match found
             case Some(x) => x in sorted && x < sorted[0] && Finds(net, order, threshold, x)
                             && forall y :: y in sorted && x < y < sorted[0] ==> FindsNothing(net, order, threshold, y)
             case None => forall y :: y in sorted && y < sorted[0] ==> FindsNothing(net, order, threshold, y)
    ensures LatestSpec(net, order, threshold, found)
  {
    FirstIsHighest(net, order, sorted);
    forall y: u32 | IsReported(net, order, y) && !IsHighest(net, order, y) ensures y in sorted && y < sorted[0] {
      assert y in sorted;
    }
  }

  lemma CommonFound(xs: seq<u32>, i: nat, threshold: nat)
    requires Descending(xs) && i < |xs| && multiset(xs[..i + 1])[xs[i]] >= threshold
    requires forall y: u32 :: multiset(xs[..i])[y] < threshold
    ensures GreatestCommon(xs, threshold, xs[i])
  {
    assert xs == xs[..i + 1] + xs[i + 1..];
    forall y: u32 | y > xs[i] ensures !Common(xs, threshold, y) {
      OnlyBefore(xs, i, y);
    }
  }
}
