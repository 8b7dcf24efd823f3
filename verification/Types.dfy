/** The records that the relayer's components pass to one another. */
module Types {
  import opened Numbers
  import opened Hashing

  datatype Option<T> = None | Some(value: T)

  datatype Checkpoint = Checkpoint(domain: u32, root: H256, index: u32)

  datatype AbacusMessage =
    AbacusMessage(origin: u32, sender: H256, destination: u32, recipient: H256, body: seq<u8>)

  datatype RawCommittedMessage = RawCommittedMessage(leafIndex: u32, message: seq<u8>)

  datatype CommittedMessage = CommittedMessage(leafIndex: u32, message: AbacusMessage)

  /** A 256-bit number, kept as its little-endian bytes. */
  datatype U256 = U256(le: Bytes32)

  /** Identifies one gas payment log: the transaction, and the position of the log in it. */
  datatype GasPaymentMeta = GasPaymentMeta(transactionHash: H256, logIndex: U256)

  datatype GasPayment = GasPayment(leafIndex: u32, amount: U256, meta: GasPaymentMeta)

  /** What one entity keeps in the database, family by family. */
  datatype Records = Records(
    leaf: map<u32, H256>,
    proof: map<u32, seq<u8>>,
    message: map<H256, RawCommittedMessage>,
    latest: Option<u32>,
    latestFor: map<u32, u32>,
    processed: set<u32>,
    gas: map<u32, U256>,
    paid: set<GasPaymentMeta>,
    rangeStart: Option<u32>,
    gasBlock: Option<u32>)

  const NO_RECORDS := Records(map[], map[], map[], None, map[], {}, map[], {}, None, None)
}
