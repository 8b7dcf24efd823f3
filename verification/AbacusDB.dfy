/** The flat byte store, and the typed records that one entity keeps in it. */
module AbacusDBs {
  import opened Numbers
  import opened Hashing
  import opened Bytes
  import opened Types
  import opened Codec
  import opened StoreKeys

  function U32Option(n: Option<u32>): Option<seq<u8>> {
    if n.Some? then Some(U32Bytes(n.value)) else None
  }

  /** The bytes that stand for record `r`, if it exists. */
  function Encoded(records: Records, r: Record): Option<seq<u8>> {
    match r
    case LeafRecord(i) => if i in records.leaf then Some(records.leaf[i].bytes) else None
    case ProofRecord(i) => if i in records.proof then Some(records.proof[i]) else None
    case MessageRecord(leaf) => if leaf in records.message then Some(RawBytes(records.message[leaf])) else None
    case LatestLeafIndex => U32Option(records.latest)
    case LatestForDestination(d) => if d in records.latestFor then Some(U32Bytes(records.latestFor[d])) else None
    case ProcessStatus(i) => if i in records.processed then Some(U32Bytes(1)) else None
    case GasForLeaf(i) => if i in records.gas then Some(records.gas[i].le) else None
    case GasMetaProcessed(meta) => if meta in records.paid then Some(BoolByte(true)) else None
    case RangeStartBlock => U32Option(records.rangeStart)
    case GasBlock => U32Option(records.gasBlock)
  }

  /** A mark is the 32-bit number 1, a booked payment the byte 1; an index is a 32-bit big-endian number. */
  lemma MarksAreOnes(records: Records, i: u32, meta: GasPaymentMeta)
    ensures Encoded(records, ProcessStatus(i)) == if i in records.processed then Some([0, 0, 0, 1]) else None
    ensures Encoded(records, GasMetaProcessed(meta)) == if meta in records.paid then Some([1]) else None
    ensures Encoded(records, LatestLeafIndex)
         == if records.latest.Some? then Some(ToBE(records.latest.value, 4)) else None
  {
    OneInFour();
  }

  lemma OneInFour()
    ensures U32Bytes(1) == [0, 0, 0, 1]
  {
    ZeroBE(3, [0, 0, 0]);
    assert U32Bytes(1) == ToBE(0, 3) + [1];
  }

  function Lookup(db: map<seq<u8>, seq<u8>>, entity: seq<u8>, r: Record): Option<seq<u8>> {
    var key := StoreKey(entity, r);
    if key in db then Some(db[key]) else None
  }

  /** The byte store holds exactly these records of the entity. */
  ghost predicate Refines(db: map<seq<u8>, seq<u8>>, entity: seq<u8>, records: Records) {
    forall r: Record :: Lookup(db, entity, r) == Encoded(records, r)
  }

  /** A store after one more write of an entity. */
  function Written(db: map<seq<u8>, seq<u8>>, entity: seq<u8>, r: Record, bytes: seq<u8>): map<seq<u8>, seq<u8>> {
    db[StoreKey(entity, r) := bytes]
  }

  lemma OwnWrite(db: map<seq<u8>, seq<u8>>, entity: seq<u8>, r: Record, bytes: seq<u8>, s: Record)
    ensures Lookup(Written(db, entity, r, bytes), entity, s) == if s == r then Some(bytes) else Lookup(db, entity, s)
  {
    if StoreKey(entity, s) == StoreKey(entity, r) {
      NoAliasing(entity, s, r);
    }
  }

  /** Writing one key changes one record and no other. */
  lemma PutRefines(db: map<seq<u8>, seq<u8>>, entity: seq<u8>, before: Records, after: Records, r: Record,
                   bytes: seq<u8>)
    requires Refines(db, entity, before)
    requires Encoded(after, r) == Some(bytes)
    requires forall s: Record :: s != r ==> Encoded(after, s) == Encoded(before, s)
    ensures Refines(Written(db, entity, r, bytes), entity, after)
  {
    forall s: Record ensures Lookup(Written(db, entity, r, bytes), entity, s) == Encoded(after, s) {
      OwnWrite(db, entity, r, bytes, s);
    }
  }

  /** A write of one entity leaves the records of every entity apart from it as they were. */
  lemma PutSparesOthers(db: map<seq<u8>, seq<u8>>, entity: seq<u8>, r: Record, bytes: seq<u8>, other: seq<u8>,
                        records: Records)
    requires Apart(entity, other) && Refines(db, other, records)
    ensures Refines(Written(db, entity, r, bytes), other, records)
  {
    ApartIsExact(entity, other);
    forall s: Record ensures Lookup(Written(db, entity, r, bytes), other, s) == Lookup(db, other, s) {
      assert StoreKey(entity, r) != StoreKey(other, s);
    }
  }

  /** Being apart is needed: entities that are not can lose a record to one write of the other. */
  lemma OverlapLosesRecords(a: seq<u8>, b: seq<u8>) returns (r: Record, s: Record)
    requires !Apart(a, b)
    ensures forall db, bytes: seq<u8>, records: Records ::
      Refines(db, a, records) && Encoded(records, s) != Some(bytes) ==> !Refines(Written(db, b, r, bytes), a, records)
  {
    ApartIsExact(a, b);
    s, r :| StoreKey(a, s) == StoreKey(b, r);
    forall db, bytes: seq<u8>, records: Records | Refines(db, a, records) && Encoded(records, s) != Some(bytes)
      ensures !Refines(Written(db, b, r, bytes), a, records)
    {
      assert Lookup(Written(db, b, r, bytes), a, s) == Some(bytes);
    }
  }

  lemma TotalIsOneRecord(rs: Records, leafIndex: u32, total: U256, bytes: seq<u8>)
    requires bytes == total.le
    ensures var after := rs.(gas := rs.gas[leafIndex := total]);
            && Encoded(after, GasForLeaf(leafIndex)) == Some(bytes)
            && forall s: Record :: s != GasForLeaf(leafIndex) ==> Encoded(after, s) == Encoded(rs, s)
  {
  }

  // The operations on records

  /** The higher of what was there and what is new. */
  function Raised(old_: Option<u32>, n: u32): (r: u32)
    ensures r >= n && (old_.Some? ==> r >= old_.value)
    ensures r == n || old_ == Some(r)
  {
    if old_.Some? && n <= old_.value then old_.value else n
  }

  function LookupU32(m: map<u32, u32>, k: u32): Option<u32> {
    if k in m then Some(m[k]) else None
  }

  function WithLeaf(rs: Records, leafIndex: u32, destination: u32, leaf: H256): Records {
    rs.(leaf := rs.leaf[leafIndex := leaf],
        latest := Some(Raised(rs.latest, leafIndex)),
        latestFor := rs.latestFor[destination := Raised(LookupU32(rs.latestFor, destination), leafIndex)])
  }

  /** Stores a raw message under its leaf; a message too short to parse is refused. */
  function WithMessage(h: Digest, rs: Records, raw: RawCommittedMessage): Option<Records> {
    match ParseMessage(raw.message)
    case None => None
    case Some(parsed) =>
      var leaf := RawLeaf(h, raw);
      var stored := WithLeaf(rs, raw.leafIndex, parsed.destination, leaf);
      Some(stored.(message := rs.message[leaf := raw]))
  }

  /** Stores messages one by one, stopping at the first that does not parse. */
  function WithMessages(h: Digest, rs: Records, raws: seq<RawCommittedMessage>): (Records, bool) {
    if |raws| == 0 then (rs, true)
    else
      var (before, ok) := WithMessages(h, rs, raws[..|raws| - 1]);
      if !ok then (before, false)
      else match WithMessage(h, before, raws[|raws| - 1])
        case None => (before, false)
        case Some(after) => (after, true)
  }

  /**
   * What storing a message leaves behind, field by field of the message: its leaf under its index,
   * its body under its leaf, and the latest index overall and for its destination.
   */
  lemma StoringMeans(h: Digest, rs: Records, m: AbacusMessage, leafIndex: u32)
    ensures var raw := RawCommittedMessage(leafIndex, MessageBytes(m));
            var leaf := h(Preimage(MessageBytes(m), leafIndex));
            WithMessage(h, rs, raw) == Some(rs.(
              leaf := rs.leaf[leafIndex := leaf],
              message := rs.message[leaf := raw],
              latest := Some(Raised(rs.latest, leafIndex)),
              latestFor := rs.latestFor[m.destination := Raised(LookupU32(rs.latestFor, m.destination), leafIndex)]))
  {
    MessageRoundTrip(m);
  }

  ghost predicate AllReadable(raws: seq<RawCommittedMessage>) {
    forall j :: 0 <= j < |raws| ==> |raws[j].message| >= PREFIX_LEN
  }

  /** A list is stored completely exactly when all its messages parse. */
  lemma {:induction false} StoredWhenReadable(h: Digest, rs: Records, raws: seq<RawCommittedMessage>)
    ensures WithMessages(h, rs, raws).1 <==> AllReadable(raws)
  {
    if |raws| > 0 {
      StoredWhenReadable(h, rs, raws[..|raws| - 1]);
      MessageIsOnto(raws[|raws| - 1].message);
    }
  }

  /** The first message that does not parse ends it; what comes before it is stored. */
  lemma StopsAtTheFirstUnreadable(h: Digest, rs: Records, raws: seq<RawCommittedMessage>, i: nat)
    requires i < |raws| && AllReadable(raws[..i]) && |raws[i].message| < PREFIX_LEN
    ensures WithMessages(h, rs, raws) == (WithMessages(h, rs, raws[..i]).0, false)
  {
    StoredWhenReadable(h, rs, raws[..i]);
    MessageIsOnto(raws[i].message);
    FirstFailure(h, rs, raws, i);
  }

  function MessageAt(rs: Records, leafIndex: u32): Option<RawCommittedMessage> {
    if leafIndex in rs.leaf && rs.leaf[leafIndex] in rs.message
    then Some(rs.message[rs.leaf[leafIndex]]) else None
  }

  lemma WordAmount(n: nat, width: nat)
    requires width == 32 && n < Pow256(width)
    ensures Amount(U256(ToLE(n, width))) == n
  {
    LERoundTrip(n, width);
  }

  /** The sum of two words; one past 256 bits panics. */
  function Sum(a: U256, b: U256): (r: Option<U256>)
    ensures r.Some? <==> Amount(a) + Amount(b) < Pow256(|a.le|)
    ensures r.Some? ==> Amount(r.value) == Amount(a) + Amount(b)
  {
    var n := Amount(a) + Amount(b);
    if n < Pow256(|a.le|) then
      WordAmount(n, |a.le|);
      Some(U256(ToLE(n, |a.le|)))
    else None
  }

  /** The total of a leaf nobody has paid for is zero. */
  function GasWord(rs: Records, leafIndex: u32): U256 {
    if leafIndex in rs.gas then rs.gas[leafIndex] else U256(seq(32, _ => 0))
  }

  function GasAt(rs: Records, leafIndex: u32): nat {
    Amount(GasWord(rs, leafIndex))
  }

  function WithPaid(rs: Records, p: GasPayment): Records {
    rs.(paid := rs.paid + {p.meta})
  }

  function WithTotal(rs: Records, p: GasPayment): Option<Records> {
    var total := Sum(GasWord(rs, p.leafIndex), p.amount);
    if total == None then None else Some(rs.(gas := rs.gas[p.leafIndex := total.value]))
  }

  /** The database handle of one entity. */
  class AbacusDB {
    const entity: seq<u8>
    var db: map<seq<u8>, seq<u8>>
    ghost var records: Records

    ghost predicate Valid()
      reads this
    {
      Refines(db, entity, records)
    }

    /** What was written lies under keys of this entity: the records of entities apart from it stay. */
    twostate predicate SparesOthers()
      reads this
    {
      forall other, rs ::
        Apart(entity, other) && Refines(old(db), other, rs) ==> Refines(db, other, rs)
    }

    constructor (entity: seq<u8>)
      ensures Valid() && records == NO_RECORDS
    {
      this.entity := entity;
      db := map[];
      records := NO_RECORDS;
    }

    method Put(r: Record, value: seq<u8>, ghost after: Records)
      requires Valid() && Encoded(after, r) == Some(value)
      requires forall s: Record :: s != r ==> Encoded(after, s) == Encoded(records, s)
      modifies this
      ensures Valid() && records == after && SparesOthers()
    {
      PutRefines(db, entity, records, after, r, value);
      forall other, rs | Apart(entity, other) && Refines(db, other, rs)
        ensures Refines(Written(db, entity, r, value), other, rs)
      {
        PutSparesOthers(db, entity, r, value, other, rs);
      }
      db := Written(db, entity, r, value);
      records := after;
    }

    method Get(r: Record) returns (value: Option<seq<u8>>)
      requires Valid()
      ensures value == Encoded(records, r)
    {
      return Lookup(db, entity, r);
    }

    method GetU32(r: Record) returns (n: Option<u32>)
      requires Valid() && (Encoded(records, r).Some? ==> |Encoded(records, r).value| == 4)
      ensures n.Some? <==> Encoded(records, r).Some?
      ensures n.Some? ==> n.value == U32Of(Encoded(records, r).value)
    {
      var bytes := Get(r);
      return if bytes.Some? then Some(U32Of(bytes.value)) else None;
    }

    method RetrieveLatestLeafIndex() returns (n: Option<u32>)
      requires Valid()
      ensures n == records.latest
    {
      n := GetU32(LatestLeafIndex);
      if n.Some? {
        U32RoundTrip(records.latest.value);
      }
    }

    method UpdateLatestLeafIndex(leafIndex: u32)
      requires Valid()
      modifies this
      ensures Valid() && SparesOthers()
      ensures records == old(records).(latest := Some(Raised(old(records.latest), leafIndex)))
    {
      var latest := RetrieveLatestLeafIndex();
      if latest.Some? && leafIndex <= latest.value {
        return;
      }
      Put(LatestLeafIndex, U32Bytes(leafIndex), records.(latest := Some(leafIndex)));
    }

    method UpdateLatestForDestination(destination: u32, leafIndex: u32)
      requires Valid()
      modifies this
      ensures Valid() && SparesOthers()
      ensures records == old(records).(latestFor := old(records.latestFor)[
        destination := Raised(LookupU32(old(records.latestFor), destination), leafIndex)])
    {
      var latest := GetU32(LatestForDestination(destination));
      if latest.Some? {
        U32RoundTrip(records.latestFor[destination]);
        if leafIndex <= latest.value {
          assert records.latestFor == records.latestFor[destination := latest.value];
          return;
        }
      }
      Put(LatestForDestination(destination), U32Bytes(leafIndex),
          records.(latestFor := records.latestFor[destination := leafIndex]));
    }

    method StoreLeaf(leafIndex: u32, destination: u32, leaf: H256)
      requires Valid()
      modifies this
      ensures Valid() && SparesOthers() && records == WithLeaf(old(records), leafIndex, destination, leaf)
    {
      Put(LeafRecord(leafIndex), leaf.bytes, records.(leaf := records.leaf[leafIndex := leaf]));
      UpdateLatestLeafIndex(leafIndex);
      UpdateLatestForDestination(destination, leafIndex);
    }

    method StoreRawCommittedMessage(h: Digest, raw: RawCommittedMessage) returns (ok: bool)
      requires Valid()
      modifies this
      ensures Valid() && SparesOthers() && ok == WithMessage(h, old(records), raw).Some?
      ensures records == if ok then WithMessage(h, old(records), raw).value else old(records)
    {
      var reader := new Reader(raw.message);
      var parsed := reader.ReadMessage();
      if parsed == None {
        return false;
      }
      var leaf := RawLeaf(h, raw);
      StoreLeaf(raw.leafIndex, parsed.value.destination, leaf);
      Put(MessageRecord(leaf), RawBytes(raw), records.(message := records.message[leaf := raw]));
      return true;
    }

    /**
     * Stores a message, noting whether it builds on the latest one.  The index is reduced by one
     * here; a release build wraps index 0 around.
     */
    method StoreLatestMessage(h: Digest, raw: RawCommittedMessage) returns (ok: bool, builds: bool)
      requires Valid()
      modifies this
      ensures Valid() && SparesOthers() && ok == WithMessage(h, old(records), raw).Some?
      ensures records == if ok then WithMessage(h, old(records), raw).value else old(records)
      ensures builds <==> old(records.latest).None? || raw.leafIndex == (old(records.latest).value + 1) % (U32_MAX + 1)
    {
      var latest := RetrieveLatestLeafIndex();
      builds := true;
      if latest.Some? {
        var previous: u32 := if raw.leafIndex == 0 then U32_MAX else raw.leafIndex - 1;
        builds := latest.value == previous;
      }
      ok := StoreRawCommittedMessage(h, raw);
    }

    /** Stores a list of messages; the answer is the last index, or nothing when one does not parse. */
    method StoreMessages(h: Digest, raws: seq<RawCommittedMessage>) returns (latest: Option<u32>)
      requires Valid()
      modifies this
      ensures Valid() && SparesOthers() && (records, latest.Some?) == WithMessages(h, old(records), raws)
      ensures latest.Some? ==> latest.value == if |raws| == 0 then 0 else raws[|raws| - 1].leafIndex
    {
      latest := Some(0);
      for i := 0 to |raws|
        invariant Valid() && SparesOthers() && (records, true) == WithMessages(h, old(records), raws[..i])
        invariant latest == Some(if i == 0 then 0 else raws[i - 1].leafIndex)
        invariant i == 0 ==> records == old(records)
      {
        FirstFailure(h, old(records), raws, i);
        var ok, _ := StoreLatestMessage(h, raws[i]);
        if !ok {
          return None;
        }
        latest := Some(raws[i].leafIndex);
      }
      assert raws[..|raws|] == raws;
    }

    method LeafByLeafIndex(leafIndex: u32) returns (leaf: Option<H256>)
      requires Valid()
      ensures leaf == if leafIndex in records.leaf then Some(records.leaf[leafIndex]) else None
    {
      var bytes := Get(LeafRecord(leafIndex));
      return if bytes.Some? then Some(H256(bytes.value)) else None;
    }

    method MessageByLeafIndex(leafIndex: u32) returns (raw: Option<RawCommittedMessage>)
      requires Valid()
      ensures raw == MessageAt(records, leafIndex)
    {
      var leaf := LeafByLeafIndex(leafIndex);
      if leaf == None {
        return None;
      }
      var bytes := Get(MessageRecord(leaf.value));
      if bytes == None {
        return None;
      }
      RawRoundTrip(records.message[leaf.value]);
      var reader := new Reader(bytes.value);
      raw := reader.ReadRaw();
    }

    method MarkLeafAsProcessed(leafIndex: u32)
      requires Valid()
      modifies this
      ensures Valid() && SparesOthers() && records == old(records).(processed := old(records.processed) + {leafIndex})
    {
      Put(ProcessStatus(leafIndex), U32Bytes(1), records.(processed := records.processed + {leafIndex}));
    }

    method RetrieveLeafProcessingStatus(leafIndex: u32) returns (status: Option<bool>)
      requires Valid()
      ensures status == if leafIndex in records.processed then Some(true) else None
    {
      var n := GetU32(ProcessStatus(leafIndex));
      U32RoundTrip(1);
      return if n.Some? then Some(n.value == 1) else None;
    }

    method StoreRangeStart(block: u32)
      requires Valid()
      modifies this
      ensures Valid() && SparesOthers() && records == old(records).(rangeStart := Some(block))
    {
      Put(RangeStartBlock, U32Bytes(block), records.(rangeStart := Some(block)));
    }

    method RetrieveRangeStart() returns (n: Option<u32>)
      requires Valid()
      ensures n == records.rangeStart
    {
      n := GetU32(RangeStartBlock);
      if n.Some? {
        U32RoundTrip(records.rangeStart.value);
      }
    }

    method StoreGasBlock(block: u32)
      requires Valid()
      modifies this
      ensures Valid() && SparesOthers() && records == old(records).(gasBlock := Some(block))
    {
      Put(GasBlock, U32Bytes(block), records.(gasBlock := Some(block)));
    }

    method RetrieveGasBlock() returns (n: Option<u32>)
      requires Valid()
      ensures n == records.gasBlock
    {
      n := GetU32(GasBlock);
      if n.Some? {
        U32RoundTrip(records.gasBlock.value);
      }
    }

    method MetaProcessed(meta: GasPaymentMeta) returns (seen: bool)
      requires Valid()
      ensures seen <==> meta in records.paid
    {
      var bytes := Get(GasMetaProcessed(meta));
      return bytes.Some? && ParseBool(bytes.value) == Some(true);
    }

    /** Counts a payment once; a false answer is the panic on overflow, after the mark was written. */
    method ProcessGasPayment(p: GasPayment) returns (ok: bool)
      requires Valid()
      modifies this
      ensures Valid() && SparesOthers()
      ensures if p.meta in old(records.paid) then ok && records == old(records)
              else && ok == WithTotal(WithPaid(old(records), p), p).Some?
                   && records == if ok then WithTotal(WithPaid(old(records), p), p).value
                                 else WithPaid(old(records), p)
    {
      var seen := MetaProcessed(p.meta);
      if seen {
        return true;
      }
      Put(GasMetaProcessed(p.meta), BoolByte(true), WithPaid(records, p));
      ok := UpdateGasForLeaf(p);
    }

    method UpdateGasForLeaf(p: GasPayment) returns (ok: bool)
      requires Valid()
      modifies this
      ensures Valid() && SparesOthers() && ok == WithTotal(old(records), p).Some?
      ensures records == if ok then WithTotal(old(records), p).value else old(records)
    {
      var bytes := Get(GasForLeaf(p.leafIndex));
      var total := Sum(if bytes.Some? then U256(bytes.value) else U256(seq(32, _ => 0)), p.amount);
      if total == None {
        return false;
      }
      ghost var after := records.(gas := records.gas[p.leafIndex := total.value]);
      TotalIsOneRecord(records, p.leafIndex, total.value, total.value.le);
      Put(GasForLeaf(p.leafIndex), total.value.le, after);
      return true;
    }
  }

  /** Storing a prefix succeeds or fails as the list up to there does; a failure is final. */
  lemma {:induction false} FirstFailure(h: Digest, rs: Records, raws: seq<RawCommittedMessage>, i: nat)
    requires i < |raws| && WithMessages(h, rs, raws[..i]).1
    ensures WithMessages(h, rs, raws[..i + 1])
         == match WithMessage(h, WithMessages(h, rs, raws[..i]).0, raws[i])
            case None => (WithMessages(h, rs, raws[..i]).0, false)
            case Some(after) => (after, true)
    ensures !WithMessages(h, rs, raws[..i + 1]).1 ==> WithMessages(h, rs, raws) == WithMessages(h, rs, raws[..i + 1])
  {
    assert raws[..i + 1][..i] == raws[..i];
    if !WithMessages(h, rs, raws[..i + 1]).1 {
      FailureStays(h, rs, raws, i + 1);
    }
  }

  lemma {:induction false} FailureStays(h: Digest, rs: Records, raws: seq<RawCommittedMessage>, i: nat)
    requires i <= |raws| && !WithMessages(h, rs, raws[..i]).1
    ensures WithMessages(h, rs, raws) == WithMessages(h, rs, raws[..i])
  {
    if i == |raws| {
      assert raws[..i] == raws;
    } else {
      var init := raws[..|raws| - 1];
      assert init[..i] == raws[..i];
      FailureStays(h, rs, init, i);
    }
  }
}
