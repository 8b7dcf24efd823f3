/** The flat key space that all entities share: which bytes stand for which record. */
module StoreKeys {
  import opened Numbers
  import opened Hashing
  import opened Types
  import opened Codec

  /** One record of an entity: its family and its key. */
  datatype Record =
    | LeafRecord(leafIndex: u32)
    | ProofRecord(leafIndex: u32)
    | MessageRecord(leaf: H256)
    | LatestLeafIndex
    | LatestForDestination(destination: u32)
    | ProcessStatus(leafIndex: u32)
    | GasForLeaf(leafIndex: u32)
    | GasMetaProcessed(meta: GasPaymentMeta)
    | RangeStartBlock
    | GasBlock

  function Ascii(s: string): (bytes: seq<u8>)
    ensures |bytes| == |s|
  {
    seq(|s|, i requires 0 <= i < |s| => (s[i] as int) % 256)
  }

  function Prefix(r: Record): string {
    match r
    case LeafRecord(_) => "leaf_"
    case ProofRecord(_) => "proof_"
    case MessageRecord(_) => "message_"
    case LatestLeafIndex => ""
    case LatestForDestination(_) => "latest_known_leaf_index_for_destination_"
    case ProcessStatus(_) => "leaf_process_status_"
    case GasForLeaf(_) => "gas_payment_for_leaf_"
    case GasMetaProcessed(_) => "gas_payment_meta_processed_"
    case RangeStartBlock => ""
    case GasBlock => ""
  }

  function Key(r: Record): seq<u8> {
    match r
    case LeafRecord(i) => U32Bytes(i)
    case ProofRecord(i) => U32Bytes(i)
    case MessageRecord(leaf) => leaf.bytes
    case LatestLeafIndex => Ascii("latest_known_leaf_index_")
    case LatestForDestination(d) => U32Bytes(d)
    case ProcessStatus(i) => U32Bytes(i)
    case GasForLeaf(i) => U32Bytes(i)
    case GasMetaProcessed(meta) => MetaBytes(meta)
    case RangeStartBlock => Ascii("latest_valid_message_range_start_block")
    case GasBlock => Ascii("latest_indexed_gas_payment_block")
  }

  function FullPrefix(entity: seq<u8>, prefix: seq<u8>): seq<u8> {
    entity + Ascii("_") + prefix
  }

  /** The key of a record inside its entity. */
  function Tail(r: Record): seq<u8> {
    Ascii(Prefix(r)) + Key(r)
  }

  /** The bytes under which record `r` of an entity is stored. */
  function StoreKey(entity: seq<u8>, r: Record): seq<u8> {
    FullPrefix(entity, Ascii(Prefix(r))) + Key(r)
  }

  /** The length of a record's key; all families differ in it, except one pair. */
  function TailLength(r: Record): nat {
    match r
    case LeafRecord(_) => 9
    case ProofRecord(_) => 10
    case MessageRecord(_) => 40
    case LatestLeafIndex => 24
    case LatestForDestination(_) => 44
    case ProcessStatus(_) => 24
    case GasForLeaf(_) => 25
    case GasMetaProcessed(_) => 91
    case RangeStartBlock => 38
    case GasBlock => 32
  }

  lemma TailHasLength(r: Record)
    ensures |Tail(r)| == TailLength(r)
  {
  }

  lemma KeyInjective(r: Record, s: Record)
    requires Prefix(r) == Prefix(s) && Key(r) == Key(s) && TailLength(r) == TailLength(s)
    ensures r == s
  {
    match r
    case LeafRecord(i) => U32RoundTrip(i); U32RoundTrip(s.leafIndex);
    case ProofRecord(i) => U32RoundTrip(i); U32RoundTrip(s.leafIndex);
    case MessageRecord(_) =>
    case LatestLeafIndex =>
    case LatestForDestination(d) => U32RoundTrip(d); U32RoundTrip(s.destination);
    case ProcessStatus(i) => U32RoundTrip(i); U32RoundTrip(s.leafIndex);
    case GasForLeaf(i) => U32RoundTrip(i); U32RoundTrip(s.leafIndex);
    case GasMetaProcessed(meta) => MetaBytesInjective(meta, s.meta);
    case RangeStartBlock =>
    case GasBlock =>
  }

  /** "leaf_process_status_" and "latest_known_leaf_index_" part at their second letter. */
  lemma StatusIsNotLatest(i: u32)
    ensures Tail(ProcessStatus(i)) != Tail(LatestLeafIndex)
  {
    assert Tail(ProcessStatus(i))[1] == 'e' as int;
    assert Tail(LatestLeafIndex)[1] == 'a' as int;
  }

  lemma SamePrefix(r: Record, s: Record)
    requires TailLength(r) == TailLength(s)
    requires r.ProcessStatus? == s.ProcessStatus?
    ensures Prefix(r) == Prefix(s)
  {
  }

  lemma TailInjective(r: Record, s: Record)
    requires Tail(r) == Tail(s)
    ensures r == s
  {
    TailHasLength(r);
    TailHasLength(s);
    if r.ProcessStatus? && s.LatestLeafIndex? {
      StatusIsNotLatest(r.leafIndex);
    } else if r.LatestLeafIndex? && s.ProcessStatus? {
      StatusIsNotLatest(s.leafIndex);
    } else {
      SamePrefix(r, s);
      SameEnding(Ascii(Prefix(r)), Key(r), Key(s));
      KeyInjective(r, s);
    }
  }

  lemma SameEnding(p: seq<u8>, s: seq<u8>, t: seq<u8>)
    requires p + s == p + t
    ensures s == t
  {
    assert s == (p + s)[|p|..];
    assert t == (p + t)[|p|..];
  }

  lemma StoreKeyParts(entity: seq<u8>, r: Record)
    ensures StoreKey(entity, r) == (entity + Ascii("_")) + Tail(r)
  {
  }

  /** No two records of one entity share a key, whatever their families and keys. */
  lemma NoAliasing(entity: seq<u8>, r: Record, s: Record)
    requires StoreKey(entity, r) == StoreKey(entity, s)
    ensures r == s
  {
    StoreKeyParts(entity, r);
    StoreKeyParts(entity, s);
    SameEnding(entity + Ascii("_"), Tail(r), Tail(s));
    TailInjective(r, s);
  }

  // Several entities in one store

  lemma GasKeyEndsAsLeafKey(i: u32)
    ensures Tail(GasForLeaf(i)) == Ascii("gas_payment_for_") + Tail(LeafRecord(i))
  {
    assert Ascii("gas_payment_for_leaf_") == Ascii("gas_payment_for_") + Ascii("leaf_");
  }

  lemma UnderscoreMoves(a: seq<u8>)
    ensures (a + Ascii("_gas_payment_for")) + Ascii("_") == (a + Ascii("_")) + Ascii("gas_payment_for_")
  {
    assert Ascii("_gas_payment_for") + Ascii("_") == Ascii("_") + Ascii("gas_payment_for_");
  }

  /** Two entities can overwrite each other's records, whatever the leaf: a gas total and a leaf. */
  lemma GasTotalIsALeaf(a: seq<u8>, i: u32)
    ensures StoreKey(a, GasForLeaf(i)) == StoreKey(a + Ascii("_gas_payment_for"), LeafRecord(i))
  {
    var b := a + Ascii("_gas_payment_for");
    UnderscoreMoves(a);
    GasKeyEndsAsLeafKey(i);
    Rejoin(a + Ascii("_"), b + Ascii("_"), Ascii("gas_payment_for_"), Tail(GasForLeaf(i)), Tail(LeafRecord(i)));
    StoreKeyParts(a, GasForLeaf(i));
    StoreKeyParts(b, LeafRecord(i));
  }

  /** What the 32 free bytes of a message key leave over when another key ends them. */
  predicate MessageGap(n: int) {
    n == 0 || n == 7 || n == 8 || n == 22 || n == 23
  }

  /** What the 64 free bytes of a payment mark leave over when another key ends them. */
  predicate MetaGap(n: int) {
    n == 20 || n == 24 || n == 26 || n == 32 || n == 39 || n == 40 || n == 54 || n == 55
  }

  /** What may follow an entity's underscore in the name of another one and lead to a shared key. */
  predicate Clashes(c: seq<u8>) {
    || |c| == 0
    || c == Ascii("gas_payment_for_")
    || (Ascii("message_") <= c && MessageGap(|c| - 8))
    || (Ascii("gas_payment_meta_processed_") <= c && MetaGap(|c| - 27))
  }

  /** The name of `b` continues that of `a` in such a way. */
  predicate Extends(a: seq<u8>, b: seq<u8>) {
    var p, q := a + Ascii("_"), b + Ascii("_");
    p <= q && Clashes(q[|p|..])
  }

  predicate Apart(a: seq<u8>, b: seq<u8>) {
    !Extends(a, b) && !Extends(b, a)
  }

  /** The text that every key of a family begins with. */
  function Text(r: Record): string {
    match r
    case LatestLeafIndex => "latest_known_leaf_index_"
    case RangeStartBlock => "latest_valid_message_range_start_block"
    case GasBlock => "latest_indexed_gas_payment_block"
    case _ => Prefix(r)
  }

  lemma TextBegins(r: Record)
    ensures Ascii(Text(r)) <= Tail(r)
  {
  }

  function CharAt(text: string, i: nat): u8
    requires i < |text|
  {
    (text[i] as int) % 256
  }

  /** `c` leads from a key of one entity to a key of another: it ends one name and begins one key. */
  ghost predicate Bridges(c: seq<u8>, r: Record, s: Record) {
    Tail(r) == c + Tail(s) && (|c| > 0 ==> c[|c| - 1] == '_' as int)
  }

  lemma BridgeLength(c: seq<u8>, r: Record, s: Record)
    requires Bridges(c, r, s)
    ensures |c| == TailLength(r) - TailLength(s)
  {
    TailHasLength(r);
    TailHasLength(s);
  }

  /** A bridge ends at an underscore of the text it comes from. */
  lemma BridgeEnds(c: seq<u8>, r: Record, s: Record)
    requires Bridges(c, r, s) && 0 < |c| <= |Text(r)|
    ensures CharAt(Text(r), |c| - 1) == '_' as int
  {
    TextBegins(r);
    assert Ascii(Text(r))[|c| - 1] == Tail(r)[|c| - 1] == c[|c| - 1];
  }

  lemma BridgeMeets(c: seq<u8>, r: Record, s: Record)
    requires Bridges(c, r, s) && |c| < |Text(r)|
    ensures CharAt(Text(r), |c|) == CharAt(Text(s), 0)
  {
    TextBegins(r);
    TextBegins(s);
    assert Ascii(Text(r))[|c|] == Tail(r)[|c|] == (c + Tail(s))[|c|] == Tail(s)[0] == Ascii(Text(s))[0];
  }

  lemma BridgeBegins(c: seq<u8>, r: Record, s: Record, text: string)
    requires Bridges(c, r, s) && |text| <= |c| && text <= Text(r)
    ensures Ascii(text) <= c
  {
    TextBegins(r);
    forall j | 0 <= j < |text| ensures Ascii(text)[j] == c[j] {
      assert Ascii(Text(r))[j] == Tail(r)[j];
    }
  }

  lemma BridgeFromMessage(c: seq<u8>, r: Record, s: Record)
    requires Bridges(c, r, s) && r.MessageRecord?
    ensures Clashes(c)
  {
    BridgeLength(c, r, s);
    if |c| == 2 {
      BridgeEnds(c, r, s);
      assert false;
    } else if |c| > 0 {
      BridgeBegins(c, r, s, "message_");
    }
  }

  lemma BridgeFromMeta(c: seq<u8>, r: Record, s: Record)
    requires Bridges(c, r, s) && r.GasMetaProcessed?
    ensures Clashes(c)
  {
    BridgeLength(c, r, s);
    if |c| > 0 {
      BridgeBegins(c, r, s, "gas_payment_meta_processed_");
    }
  }

  lemma BridgeFromGas(c: seq<u8>, r: Record, s: Record)
    requires Bridges(c, r, s) && r.GasForLeaf?
    ensures Clashes(c)
  {
    BridgeLength(c, r, s);
    if |c| == 16 {
      assert "gas_payment_for_" <= "gas_payment_for_leaf_";
      BridgeBegins(c, r, s, "gas_payment_for_");
      assert Ascii("gas_payment_for_") == c;
    } else if |c| > 0 {
      BridgeEnds(c, r, s);
      assert false;
    }
  }

  lemma BridgeFromRangeStart(c: seq<u8>, s: Record)
    requires Bridges(c, RangeStartBlock, s)
    ensures |c| == 0
  {
    BridgeLength(c, RangeStartBlock, s);
    if |c| == 13 {
      BridgeMeets(c, RangeStartBlock, s);
      assert false;
    } else if |c| > 0 {
      BridgeEnds(c, RangeStartBlock, s);
      assert false;
    }
  }

  lemma BridgeFromGasBlock(c: seq<u8>, s: Record)
    requires Bridges(c, GasBlock, s)
    ensures |c| == 0
  {
    BridgeLength(c, GasBlock, s);
    if |c| == 7 {
      BridgeMeets(c, GasBlock, s);
      assert false;
    } else if |c| > 0 {
      BridgeEnds(c, GasBlock, s);
      assert false;
    }
  }

  lemma BridgeFromOther(c: seq<u8>, r: Record, s: Record)
    requires Bridges(c, r, s) && (r.LeafRecord? || r.ProofRecord? || r.LatestLeafIndex? || r.ProcessStatus?)
    ensures |c| == 0
  {
    BridgeLength(c, r, s);
    if |c| > 0 {
      BridgeEnds(c, r, s);
      assert false;
    }
  }

  lemma BridgeFromDestination(c: seq<u8>, r: Record, s: Record)
    requires Bridges(c, r, s) && r.LatestForDestination?
    ensures |c| == 0
  {
    BridgeLength(c, r, s);
    if |c| > 20 {
      BridgeEnds(c, r, s);
      assert false;
    } else if |c| > 0 {
      BridgeEnds(c, r, s);
      assert false;
    }
  }

  lemma BridgesClash(c: seq<u8>, r: Record, s: Record)
    requires Bridges(c, r, s)
    ensures Clashes(c)
  {
    match r
    case MessageRecord(_) => BridgeFromMessage(c, r, s);
    case GasMetaProcessed(_) => BridgeFromMeta(c, r, s);
    case GasForLeaf(_) => BridgeFromGas(c, r, s);
    case LatestForDestination(_) => BridgeFromDestination(c, r, s);
    case RangeStartBlock => BridgeFromRangeStart(c, s);
    case GasBlock => BridgeFromGasBlock(c, s);
    case _ => BridgeFromOther(c, r, s);
  }

  // A clash can be met

  /** A record whose key has a given length. */
  function OfLength(n: nat): (r: Record)
    ensures n in [9, 10, 24, 25, 32, 38, 40, 44] ==> TailLength(r) == n
  {
    match n
    case 9 => LeafRecord(0)
    case 10 => ProofRecord(0)
    case 24 => LatestLeafIndex
    case 25 => GasForLeaf(0)
    case 32 => GasBlock
    case 38 => RangeStartBlock
    case 40 => MessageRecord(ZERO)
    case _ => LatestForDestination(0)
  }

  lemma MessageBridge(w: seq<u8>) returns (r: Record, s: Record)
    requires MessageGap(|w|)
    ensures Tail(r) == Ascii("message_") + (w + Tail(s))
  {
    s := OfLength(32 - |w|);
    TailHasLength(s);
    r := MessageRecord(H256(w + Tail(s)));
  }

  lemma MetaBridge(w: seq<u8>) returns (r: Record, s: Record)
    requires MetaGap(|w|)
    ensures Tail(r) == Ascii("gas_payment_meta_processed_") + (w + Tail(s))
  {
    s := OfLength(64 - |w|);
    TailHasLength(s);
    var bytes := w + Tail(s);
    r := MetaOf(bytes);
  }

  lemma MetaOf(bytes: seq<u8>) returns (r: Record)
    requires |bytes| == 64
    ensures Tail(r) == Ascii("gas_payment_meta_processed_") + bytes
  {
    r := GasMetaProcessed(GasPaymentMeta(H256(bytes[..32]), U256(bytes[32..])));
    assert MetaBytes(r.meta) == bytes;
  }

  lemma Rebracket(text: seq<u8>, w: seq<u8>, t: seq<u8>, c: seq<u8>)
    requires c == text + w
    ensures text + (w + t) == c + t
  {
  }

  lemma ClashIsMet(c: seq<u8>) returns (r: Record, s: Record)
    requires Clashes(c)
    ensures Tail(r) == c + Tail(s)
  {
    if |c| == 0 {
      r, s := GasBlock, GasBlock;
    } else if c == Ascii("gas_payment_for_") {
      r, s := GasForLeaf(0), LeafRecord(0);
      GasKeyEndsAsLeafKey(0);
    } else if Ascii("message_") <= c && MessageGap(|c| - 8) {
      r, s := MessageBridge(c[8..]);
      Rebracket(Ascii("message_"), c[8..], Tail(s), c);
    } else {
      r, s := MetaBridge(c[27..]);
      Rebracket(Ascii("gas_payment_meta_processed_"), c[27..], Tail(s), c);
    }
  }

  lemma Rejoin(p: seq<u8>, q: seq<u8>, c: seq<u8>, t: seq<u8>, u: seq<u8>)
    requires q == p + c && t == c + u
    ensures p + t == q + u
  {
  }

  lemma ExtensionShares(a: seq<u8>, b: seq<u8>) returns (r: Record, s: Record)
    requires Extends(a, b)
    ensures StoreKey(a, r) == StoreKey(b, s)
  {
    var p, q := a + Ascii("_"), b + Ascii("_");
    var c := q[|p|..];
    r, s := ClashIsMet(c);
    Rejoin(p, q, c, Tail(r), Tail(s));
    StoreKeyParts(a, r);
    StoreKeyParts(b, s);
  }

  lemma SharedBridge(p: seq<u8>, q: seq<u8>, t: seq<u8>, u: seq<u8>) returns (c: seq<u8>)
    requires p + t == q + u && |p| <= |q|
    ensures q == p + c && t == c + u
  {
    assert p == (p + t)[..|p|] == (q + u)[..|p|] == q[..|p|];
    c := q[|p|..];
    assert p + (c + u) == q + u;
    SameEnding(p, t, c + u);
  }

  lemma SharingExtends(a: seq<u8>, b: seq<u8>, r: Record, s: Record)
    requires StoreKey(a, r) == StoreKey(b, s) && |a| <= |b|
    ensures Extends(a, b)
  {
    StoreKeyParts(a, r);
    StoreKeyParts(b, s);
    var c := SharedBridge(a + Ascii("_"), b + Ascii("_"), Tail(r), Tail(s));
    BridgeByNames(a, b, c, r, s);
    BridgesClash(c, r, s);
  }

  lemma BridgeByNames(a: seq<u8>, b: seq<u8>, c: seq<u8>, r: Record, s: Record)
    requires b + Ascii("_") == (a + Ascii("_")) + c && Tail(r) == c + Tail(s)
    ensures Bridges(c, r, s)
    ensures a + Ascii("_") <= b + Ascii("_") && (b + Ascii("_"))[|a| + 1..] == c
  {
    var q := b + Ascii("_");
    assert q[|q| - 1] == Ascii("_")[0] == '_' as int;
    assert |c| > 0 ==> q[|q| - 1] == c[|c| - 1];
  }

  /** Exactly when two entities can overwrite each other: when one name extends the other by a clash. */
  lemma ApartIsExact(a: seq<u8>, b: seq<u8>)
    ensures Apart(a, b) <==> forall r, s :: StoreKey(a, r) != StoreKey(b, s)
  {
    if Extends(a, b) {
      var r, s := ExtensionShares(a, b);
    } else if Extends(b, a) {
      var s, r := ExtensionShares(b, a);
    } else {
      forall r, s ensures StoreKey(a, r) != StoreKey(b, s) {
        if StoreKey(a, r) == StoreKey(b, s) {
          if |a| <= |b| {
            SharingExtends(a, b, r, s);
          } else {
            SharingExtends(b, a, s, r);
          }
        }
      }
    }
  }
}
