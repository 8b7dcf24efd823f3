/** Wire formats: what each record writes, what reading gives back, and the leaf of a message. */
module Codec {
  import opened Numbers
  import opened Hashing
  import opened Bytes
  import opened Types

  const PREFIX_LEN: nat := 72

  /** The digest used for leaves.  Everything below holds for every such function. */
  type Digest = seq<u8> -> H256

  function U32Bytes(n: u32): (s: seq<u8>)
    ensures |s| == 4
  {
    Widths();
    ToBE(n, 4)
  }

  function U32Of(s: seq<u8>): u32
    requires |s| == 4
  {
    Widths();
    FromBE(s)
  }

  lemma U32RoundTrip(n: u32)
    ensures U32Of(U32Bytes(n)) == n
  {
    Widths();
    BERoundTrip(n, 4);
  }

  lemma U32Onto(s: seq<u8>)
    requires |s| == 4
    ensures U32Bytes(U32Of(s)) == s
  {
    Widths();
    BEIsOnto(s);
  }

  // Messages

  function MessageBytes(m: AbacusMessage): (s: seq<u8>)
    ensures |s| == PREFIX_LEN + |m.body|
  {
    U32Bytes(m.origin) + m.sender.bytes + U32Bytes(m.destination) + m.recipient.bytes + m.body
  }

  /** Where each field of a message is. */
  lemma MessageLayout(m: AbacusMessage)
    ensures var s := MessageBytes(m);
            && m.origin < Pow256(4) && s[..4] == ToBE(m.origin, 4) && s[4..36] == m.sender.bytes
            && m.destination < Pow256(4) && s[36..40] == ToBE(m.destination, 4) && s[40..72] == m.recipient.bytes
            && s[72..] == m.body
  {
    Widths();
  }

  function ParseMessage(s: seq<u8>): Option<AbacusMessage> {
    if |s| < PREFIX_LEN then None
    else Some(AbacusMessage(U32Of(s[..4]), H256(s[4..36]), U32Of(s[36..40]), H256(s[40..72]), s[72..]))
  }

  /** Reading what was written gives the message back. */
  lemma MessageRoundTrip(m: AbacusMessage)
    ensures ParseMessage(MessageBytes(m)) == Some(m)
  {
    var s := MessageBytes(m);
    assert s[..4] == U32Bytes(m.origin) && s[4..36] == m.sender.bytes;
    assert s[36..40] == U32Bytes(m.destination) && s[40..72] == m.recipient.bytes && s[72..] == m.body;
    U32RoundTrip(m.origin);
    U32RoundTrip(m.destination);
  }

  /** Writing what was read gives the bytes back; only strings under 72 bytes cannot be read. */
  lemma MessageIsOnto(s: seq<u8>)
    ensures ParseMessage(s).Some? <==> |s| >= PREFIX_LEN
    ensures ParseMessage(s).Some? ==> MessageBytes(ParseMessage(s).value) == s
  {
    if |s| >= PREFIX_LEN {
      U32Onto(s[..4]);
      U32Onto(s[36..40]);
      assert s == s[..4] + s[4..36] + s[36..40] + s[40..72] + s[72..];
    }
  }

  function Zeros28(): (s: seq<u8>)
    ensures |s| == 28
  {
    seq(28, _ => 0)
  }

  /** What is hashed for the leaf of a message. */
  function Preimage(message: seq<u8>, leafIndex: u32): seq<u8> {
    message + Zeros28() + U32Bytes(leafIndex)
  }

  /** The leaf is hashed from the message and its index as a 32-byte big-endian number. */
  lemma PreimageLayout(message: seq<u8>, leafIndex: u32)
    ensures leafIndex < Pow256(32) && Preimage(message, leafIndex) == message + ToBE(leafIndex, 32)
  {
    Widths();
    BEWider(leafIndex, 4, 28, Zeros28());
    assert message + Zeros28() + U32Bytes(leafIndex) == message + (Zeros28() + U32Bytes(leafIndex));
  }

  /** The leaf of a message as its raw bytes give it. */
  function RawLeaf(h: Digest, raw: RawCommittedMessage): H256 {
    h(Preimage(raw.message, raw.leafIndex))
  }

  /** The leaf of a message as its parsed form gives it. */
  function ToLeaf(h: Digest, m: CommittedMessage): H256 {
    h(Preimage(MessageBytes(m.message), m.leafIndex))
  }

  function ParseCommitted(raw: RawCommittedMessage): Option<CommittedMessage> {
    match ParseMessage(raw.message)
    case None => None
    case Some(m) => Some(CommittedMessage(raw.leafIndex, m))
  }

  /** Parsed and raw form agree on the leaf, for every message that parses. */
  lemma LeafAgrees(h: Digest, raw: RawCommittedMessage)
    requires |raw.message| >= PREFIX_LEN
    ensures ParseCommitted(raw).Some? && ToLeaf(h, ParseCommitted(raw).value) == RawLeaf(h, raw)
  {
    MessageIsOnto(raw.message);
  }

  lemma PreimageInjective(a: RawCommittedMessage, b: RawCommittedMessage)
    requires Preimage(a.message, a.leafIndex) == Preimage(b.message, b.leafIndex)
    ensures a == b
  {
    var s := Preimage(a.message, a.leafIndex);
    assert U32Bytes(a.leafIndex) == s[|s| - 4..] == U32Bytes(b.leafIndex);
    U32RoundTrip(a.leafIndex);
    U32RoundTrip(b.leafIndex);
    assert a.message == s[..|s| - 32] == b.message;
  }

  /** Different messages, or one message at different indices, share a leaf only by a digest collision. */
  lemma LeafBinds(h: Digest, a: RawCommittedMessage, b: RawCommittedMessage)
    requires RawLeaf(h, a) == RawLeaf(h, b)
    ensures var s, t := Preimage(a.message, a.leafIndex), Preimage(b.message, b.leafIndex);
            if a == b then s == t else s != t && h(s) == h(t)
  {
    if Preimage(a.message, a.leafIndex) == Preimage(b.message, b.leafIndex) {
      PreimageInjective(a, b);
    }
  }

  // Stored messages

  function RawBytes(raw: RawCommittedMessage): seq<u8> {
    U32Bytes(raw.leafIndex) + raw.message
  }

  lemma RawLayout(raw: RawCommittedMessage)
    ensures var s := RawBytes(raw);
            raw.leafIndex < Pow256(4) && s[..4] == ToBE(raw.leafIndex, 4) && s[4..] == raw.message
  {
    Widths();
  }

  function ParseRaw(s: seq<u8>): Option<RawCommittedMessage> {
    if |s| < 4 then None else Some(RawCommittedMessage(U32Of(s[..4]), s[4..]))
  }

  lemma RawRoundTrip(raw: RawCommittedMessage)
    ensures ParseRaw(RawBytes(raw)) == Some(raw)
  {
    U32RoundTrip(raw.leafIndex);
    assert RawBytes(raw)[..4] == U32Bytes(raw.leafIndex);
  }

  // Checkpoints

  function CheckpointBytes(c: Checkpoint): (s: seq<u8>)
    ensures |s| == 40
  {
    U32Bytes(c.domain) + c.root.bytes + U32Bytes(c.index)
  }

  lemma CheckpointLayout(c: Checkpoint)
    ensures var s := CheckpointBytes(c);
            && c.domain < Pow256(4) && s[..4] == ToBE(c.domain, 4) && s[4..36] == c.root.bytes
            && c.index < Pow256(4) && s[36..] == ToBE(c.index, 4)
  {
    Widths();
  }

  /** Reads a checkpoint from the front of a string, leaving the rest. */
  function ParseCheckpoint(s: seq<u8>): Option<(Checkpoint, seq<u8>)> {
    if |s| < 40 then None
    else Some((Checkpoint(U32Of(s[..4]), H256(s[4..36]), U32Of(s[36..40])), s[40..]))
  }

  lemma CheckpointRoundTrip(c: Checkpoint, rest: seq<u8>)
    ensures ParseCheckpoint(CheckpointBytes(c) + rest) == Some((c, rest))
  {
    var s := CheckpointBytes(c) + rest;
    assert s[..4] == U32Bytes(c.domain) && s[4..36] == c.root.bytes;
    assert s[36..40] == U32Bytes(c.index) && s[40..] == rest;
    U32RoundTrip(c.domain);
    U32RoundTrip(c.index);
  }

  // Gas payments

  /** The number that a word of little-endian bytes stands for; different words, different numbers. */
  function Amount(w: U256): nat {
    FromLE(w.le)
  }

  lemma AmountInjective(a: U256, b: U256)
    requires Amount(a) == Amount(b)
    ensures a == b
  {
    LEIsOnto(a.le);
    LEIsOnto(b.le);
  }

  function MetaBytes(meta: GasPaymentMeta): (s: seq<u8>)
    ensures |s| == 64
  {
    meta.transactionHash.bytes + meta.logIndex.le
  }

  /** The transaction hash, and the log index as a little-endian number. */
  lemma MetaLayout(meta: GasPaymentMeta)
    ensures MetaBytes(meta)[..32] == meta.transactionHash.bytes
    ensures var le := MetaBytes(meta)[32..]; ToLE(Amount(meta.logIndex), |le|) == le
  {
    assert MetaBytes(meta)[32..] == meta.logIndex.le;
    LEIsOnto(meta.logIndex.le);
  }

  lemma MetaBytesInjective(a: GasPaymentMeta, b: GasPaymentMeta)
    requires MetaBytes(a) == MetaBytes(b)
    ensures a == b
  {
    assert MetaBytes(a)[..32] == a.transactionHash.bytes && MetaBytes(a)[32..] == a.logIndex.le;
    assert MetaBytes(b)[..32] == b.transactionHash.bytes && MetaBytes(b)[32..] == b.logIndex.le;
  }

  function BoolByte(b: bool): seq<u8> {
    [if b then 1 else 0]
  }

  function ParseBool(s: seq<u8>): Option<bool> {
    if |s| == 0 || s[0] > 1 then None else Some(s[0] == 1)
  }

  // The readers and writers the code uses

  class Writer {
    var written: seq<u8>

    constructor ()
      ensures written == []
    {
      written := [];
    }

    method WriteAll(bytes: seq<u8>)
      modifies this
      ensures written == old(written) + bytes
    {
      written := written + bytes;
    }

    method WriteMessage(m: AbacusMessage) returns (count: nat)
      modifies this
      ensures written == old(written) + MessageBytes(m) && count == |MessageBytes(m)|
    {
      WriteAll(U32Bytes(m.origin));
      WriteAll(m.sender.bytes);
      WriteAll(U32Bytes(m.destination));
      WriteAll(m.recipient.bytes);
      WriteAll(m.body);
      count := PREFIX_LEN + |m.body|;
    }

    /** The count returned is 32 more than the number of bytes written. */
    method WriteRaw(raw: RawCommittedMessage) returns (count: nat)
      modifies this
      ensures written == old(written) + RawBytes(raw) && count == |RawBytes(raw)| + 32
    {
      WriteAll(U32Bytes(raw.leafIndex));
      WriteAll(raw.message);
      count := 4 + 32 + |raw.message|;
    }

    method WriteCheckpoint(c: Checkpoint) returns (count: nat)
      modifies this
      ensures written == old(written) + CheckpointBytes(c) && count == |CheckpointBytes(c)|
    {
      WriteAll(U32Bytes(c.domain));
      WriteAll(c.root.bytes);
      WriteAll(U32Bytes(c.index));
      count := 4 + 32 + 4;
    }

    method WriteMeta(meta: GasPaymentMeta) returns (count: nat)
      modifies this
      ensures written == old(written) + MetaBytes(meta) && count == |MetaBytes(meta)|
    {
      WriteAll(meta.transactionHash.bytes);
      count := 32;
      WriteAll(meta.logIndex.le);
      count := count + 32;
    }
  }

  class Reader {
    var rest: seq<u8>

    constructor (s: seq<u8>)
      ensures rest == s
    {
      rest := s;
    }

    /** Takes the next `n` bytes, or fails. */
    method ReadExact(n: nat) returns (bytes: Option<seq<u8>>)
      modifies this
      ensures n <= |old(rest)| ==> bytes == Some(old(rest)[..n]) && rest == old(rest)[n..]
      ensures n > |old(rest)| ==> bytes == None && rest == old(rest)
    {
      if n > |rest| {
        return None;
      }
      bytes := Some(rest[..n]);
      rest := rest[n..];
    }

    method ReadU32() returns (n: Option<u32>)
      modifies this
      ensures if |old(rest)| < 4 then n == None && rest == old(rest)
              else n == Some(U32Of(old(rest)[..4])) && rest == old(rest)[4..]
    {
      var bytes := ReadExact(4);
      if bytes == None {
        return None;
      }
      n := Some(U32Of(bytes.value));
    }

    method ReadWord() returns (word: Option<H256>)
      modifies this
      ensures if |old(rest)| < 32 then word == None && rest == old(rest)
              else word == Some(H256(old(rest)[..32])) && rest == old(rest)[32..]
    {
      var bytes := ReadExact(32);
      if bytes == None {
        return None;
      }
      word := Some(H256(bytes.value));
    }

    method ReadMessage() returns (m: Option<AbacusMessage>)
      modifies this
      ensures m == ParseMessage(old(rest))
    {
      ghost var s := rest;
      var origin := ReadU32();
      if origin == None {
        return None;
      }
      var sender := ReadWord();
      if sender == None {
        return None;
      }
      var destination := ReadU32();
      if destination == None {
        return None;
      }
      var recipient := ReadWord();
      if recipient == None {
        return None;
      }
      assert rest == s[72..] && s[4..][..32] == s[4..36];
      assert s[36..][..4] == s[36..40] && s[40..][..32] == s[40..72];
      m := Some(AbacusMessage(origin.value, sender.value, destination.value, recipient.value, rest));
      rest := [];
    }

    method ReadRaw() returns (raw: Option<RawCommittedMessage>)
      modifies this
      ensures raw == ParseRaw(old(rest))
    {
      var leafIndex := ReadU32();
      if leafIndex == None {
        return None;
      }
      raw := Some(RawCommittedMessage(leafIndex.value, rest));
      rest := [];
    }
  }
}
