/** Blocks to build small claims from: encoded receipts with known logs, at distinct places, under distinct roots, in a
    world whose proofs hold for the one right root, key and value. */
module Samples {
  import opened Prelude
  import opened Hashing
  import opened Rlp
  import opened Receipts
  import opened Evidence
  import opened Decoding

  // ── Logs, receipts, blocks ────────────────────────────────────────────

  /** The index of the one transaction of every block, and its bytes. */
  const TX: u64 := 5

  const TRANSACTION: Bytes := [2]

  const DEPOSITS: Address := 0x0F7a3a8f4Da01637d1202bb5443fcF7F88F99fD2

  function WordOf(n: nat): Bytes {
    ToBe(n, 32)
  }

  function TransferLog(from: Address, to: Address, amount: u128): ParsedLog {
    ParsedLog(
      ToBe(0x833589fCD6eDb6E08f4c7C32D4f71b54bdA02913, 20),
      [WordOf(0xddf252ad1be2c89b69c2b068fc378daa952ba7f163c4a11628f55a4df523b3ef), WordOf(from), WordOf(to)],
      WordOf(amount))
  }

  function SettledLog(buyer: Address, seller: Address, amount: u128): ParsedLog {
    ParsedLog(
      ToBe(0xBA66d3b4fbCf472F6F11D6F9F96aaCE96516F09d, 20),
      [WordOf(0x0b287f37d8bd14ef37f2966734ab387c243cc1a1663616a25a4cc259877736b1), WordOf(0), WordOf(buyer),
       WordOf(seller)],
      WordOf(0) + WordOf(amount))
  }

  function DepositedLog(buyer: Address, amount: u128): ParsedLog {
    ParsedLog(
      ToBe(0x0F7a3a8f4Da01637d1202bb5443fcF7F88F99fD2, 20),
      [WordOf(0x2da466a7b24304f47e87fa2e1e5a81b9831ce54fec19055ce277ca2f39ba42c4), WordOf(buyer)], WordOf(amount))
  }

  function ReceiptOf(status: u64, logs: seq<ParsedLog>): Receipt {
    Receipt(0, status, 0, [], logs, None)
  }

  /** Every block has roots of its own. */
  function HeaderOf(number: u64, time: u64): Header {
    Header(number, time, Word(3 * number), Word(3 * number + 1), Word(3 * number + 2), 0)
  }

  function BlockOf(number: u64, time: u64, status: u64, logs: seq<ParsedLog>): EvidenceBlock {
    EvidenceBlock(
      HeaderOf(number, time), [ReceiptProof(TX, Encoding(ReceiptOf(status, logs)), [])],
      [TransactionProof(TX, TRANSACTION, [])])
  }

  // ── Lengths ───────────────────────────────────────────────────────────

  ghost predicate Short(log: ParsedLog) {
    WellTypedLog(log) && |log.topics| <= 4 && |log.data| <= 64
  }

  lemma PrefixLength(base: byte, len: nat)
    requires base == 0x80 || base == 0xc0
    ensures |LenPrefix(base, len)| <= 9
  {
    SignificantWidth(len, 8);
  }

  lemma BytesLength(payload: Bytes)
    ensures |RlpBytes(payload)| <= |payload| + 9
  {
    PrefixLength(0x80, |payload|);
  }

  lemma ListLength(items: seq<Bytes>)
    ensures |RlpList(items)| <= |Concat(items)| + 9
  {
    PrefixLength(0xc0, |Concat(items)|);
  }

  lemma TopicsLength(topics: seq<Bytes>)
    requires |topics| <= 4 && forall t :: 0 <= t < |topics| ==> |topics[t]| == 32
    ensures |RlpList(Map(RlpBytes, topics))| <= 173
  {
    hide RlpBytes, Concat, RlpList;
    forall t | 0 <= t < |topics|
      ensures |RlpBytes(topics[t])| <= 41
    {
      BytesLength(topics[t]);
    }
    ConcatLengths(Map(RlpBytes, topics));
    ListLength(Map(RlpBytes, topics));
  }

  lemma LogLength(log: ParsedLog)
    requires Short(log)
    ensures |EncodeLog(log)| <= 300
  {
    hide RlpBytes, Concat, RlpList;
    TopicsLength(log.topics);
    BytesLength(log.address);
    BytesLength(log.data);
    ConcatLengths(LogItems(log));
    ListLength(LogItems(log));
  }

  lemma ReceiptLength(status: u64, logs: seq<ParsedLog>)
    requires |logs| <= 2 && forall k :: 0 <= k < |logs| ==> Short(logs[k])
    ensures Fits(ReceiptOf(status, logs))
  {
    hide RlpBytes, Concat, RlpList, EncodeLog, Short;
    var r := ReceiptOf(status, logs);
    forall k | 0 <= k < |logs|
      ensures |EncodeLog(logs[k])| <= 300
    {
      LogLength(logs[k]);
    }
    ConcatLengths(Map(EncodeLog, logs));
    ListLength(Map(EncodeLog, logs));
    BytesLength([]);
    BytesLength(Significant(0, 16));
    BytesLength(Significant(status, 16));
    SignificantWidth(0, 16);
    SignificantWidth(status, 16);
    ConcatLengths(Fields(r));
    ListLength(Fields(r));
  }

  // ── A world ───────────────────────────────────────────────────────────

  /** What the tries of these blocks hold: one receipt and one transaction each, under their own roots and key. */
  ghost predicate InTries(blocks: seq<EvidenceBlock>, root: Hash, key: Bytes, value: Bytes) {
    && key == RlpUint(5)
    && exists i :: 0 <= i < |blocks| && InTrie(blocks[i], root, value)
  }

  ghost predicate InTrie(b: EvidenceBlock, root: Hash, value: Bytes) {
    || (root == Word(3 * b.header.number) && |b.receipts| == 1 && value == b.receipts[0].value)
    || (root == Word(3 * b.header.number + 1) && value == [2])
  }

  /** Inclusion as in these tries, one signer, and storage under the state root of block `end`. */
  ghost function WorldOf(blocks: seq<EvidenceBlock>, signer: Address, end: nat,
                         storage: (Address, Slot) -> Result<u256>): Oracle {
    Oracle(
      (root: Hash, key: Bytes, value: Bytes, nodes: seq<Bytes>) => nodes == [] && InTries(blocks, root, key, value),
      (value: Bytes) => if value == [2] then Ok(signer) else Err("no transaction"),
      (root: Hash, account: Address, slot: Slot, proof: StorageProof) =>
        if root == Word(3 * end + 2) && proof == StorageProof([], []) then storage(account, slot) else Err("no proof"))
  }

  /** A block as above. */
  ghost predicate IsSample(b: EvidenceBlock) {
    exists number: u64, time: u64, status: u64, logs :: b == BlockOf(number, time, status, logs)
  }

  lemma SampleParts(number: u64, time: u64, status: u64, logs: seq<ParsedLog>)
    ensures var b := BlockOf(number, time, status, logs);
      && IsSample(b) && b.header == HeaderOf(number, time) && |b.receipts| == 1
      && b.receipts[0] == ReceiptProof(5, Encoding(ReceiptOf(status, logs)), [])
      && b.transactions == [TransactionProof(5, [2], [])]
  {
  }

  /** Such blocks are authentic in their world when their numbers are distinct and in the window. */
  lemma SamplesAuthentic(blocks: seq<EvidenceBlock>, signer: Address, end: nat,
                         storage: (Address, Slot) -> Result<u256>,
                         first: nat, last: nat)
    requires 1 <= |blocks| <= 65_536 && forall i :: 0 <= i < |blocks| ==> IsSample(blocks[i])
    requires forall i, j :: 0 <= i < j < |blocks| ==> blocks[i].header.number != blocks[j].header.number
    requires forall i :: 0 <= i < |blocks| ==> first <= blocks[i].header.number <= last
    ensures Genuine(WorldOf(blocks, signer, end, storage), blocks, first, last)
  {
    hide RlpUint, Encoding, InTries;
    var o := WorldOf(blocks, signer, end, storage);
    forall b | b in blocks
      ensures GenuineBlock(o, b, first, last)
    {
      var i :| 0 <= i < |blocks| && blocks[i] == b;
      SampleGenuine(blocks, signer, end, storage, i);
    }
  }

  lemma SampleGenuine(blocks: seq<EvidenceBlock>, signer: Address, end: nat, storage: (Address, Slot) -> Result<u256>,
                      i: nat)
    requires i < |blocks| && IsSample(blocks[i])
    ensures GenuineBlock(WorldOf(blocks, signer, end, storage), blocks[i], blocks[i].header.number,
      blocks[i].header.number)
  {
    hide RlpUint, Encoding;
    var (o, b) := (WorldOf(blocks, signer, end, storage), blocks[i]);
    assert InTries(blocks, b.header.receiptsRoot, RlpUint(5), b.receipts[0].value);
    assert InTries(blocks, b.header.transactionsRoot, RlpUint(5), b.transactions[0].value);
    assert forall p :: p in b.receipts ==> p == b.receipts[0];
    assert forall p :: p in b.transactions ==> p == b.transactions[0];
  }

  // ── The logs read back ────────────────────────────────────────────────

  /** The reference of log `log` in block `block`. */
  function Ref(block: nat, log: nat): LogRef {
    LogRef(block, 0, log)
  }

  /** What a reference into such a block finds: the log, at its place, unless the transaction failed. */
  lemma FindsSample(chain: ChainResolver, i: nat, number: u64, time: u64, status: u64, logs: seq<ParsedLog>, k: nat)
    requires i < |chain.blocks| && chain.blocks[i] == BlockOf(number, time, status, logs)
    requires |logs| <= 2 && forall k :: 0 <= k < |logs| ==> Short(logs[k])
    requires k < |logs|
    ensures Found(chain, Ref(i, k)) == if status == 1 then Some(Event(number, 5, k, time, logs[k])) else None
  {
    hide Encoding, ReceiptLog, ReceiptSuccess;
    ReceiptLength(status, logs);
    assert WellTyped(ReceiptOf(status, logs)) && TypeByteFits(0);
    LogsRoundTrip(ReceiptOf(status, logs), k);
    StatusRoundTrip(ReceiptOf(status, logs));
  }

  /** Who signed the transaction of such a block. */
  lemma SignsSample(chain: ChainResolver, i: nat, number: u64, time: u64, status: u64, logs: seq<ParsedLog>, k: nat,
                    signer: Address, who: Address)
    requires i < |chain.blocks| && chain.blocks[i] == BlockOf(number, time, status, logs)
    requires Found(chain, Ref(i, k)).Some? && Found(chain, Ref(i, k)).value.transaction == 5
    requires chain.oracle.signer([2]) == Ok(signer)
    ensures Signs(chain, Ref(i, k), who) <==> who == signer
  {
    hide Found, BlockOf;
    SampleParts(number, time, status, logs);
    var t := chain.blocks[i].transactions;
    assert t == [TransactionProof(5, [2], [])];
    if who == signer {
      assert OnlySigned(chain.oracle, t, 5, who, 0);
    }
  }

  lemma WordLimit()
    ensures Power(256, 32) == U256_LIMIT
  {
    Pow256Values();
    assert Power(256, 20) == U128_LIMIT * U32_LIMIT;
    assert Power(256, 24) == U128_LIMIT * U64_LIMIT;
    assert Power(256, 28) == U128_LIMIT * U64_LIMIT * U32_LIMIT;
  }

  lemma WordReads(n: nat)
    requires n < U256_LIMIT
    ensures |WordOf(n)| == 32 && BeNat(WordOf(n)) == n
    ensures n < ADDRESS_LIMIT ==> BeNat(WordOf(n)[12..]) == n
  {
    WordLimit();
    BeNatOfToBe(n, 32);
    if n < ADDRESS_LIMIT {
      TopicAddressIs(WordOf(n));
    }
  }

  lemma AddressReads(a: Address)
    requires a < ADDRESS_LIMIT
    ensures BeNat(ToBe(a, 20)) == a && |ToBe(a, 20)| == 20
  {
    AddressLimit();
    BeNatOfToBe(a, 20);
  }

  /** What the three kinds of logs say, and that they say nothing else. */
  lemma TransferSays(from: Address, to: Address, amount: u128)
    requires from < ADDRESS_LIMIT && to < ADDRESS_LIMIT
    ensures Short(TransferLog(from, to, amount))
    ensures forall f, t, a :: IsTransfer(TransferLog(from, to, amount), f, t, a) <==>
      f == from && t == to && a == amount
    ensures BeNat(TransferLog(from, to, amount).data) == amount
  {
    hide ToBe, BeNat;
    AddressReads(0x833589fCD6eDb6E08f4c7C32D4f71b54bdA02913);
    WordReads(0xddf252ad1be2c89b69c2b068fc378daa952ba7f163c4a11628f55a4df523b3ef);
    WordReads(from);
    WordReads(to);
    WordReads(amount);
  }

  lemma SettledSays(buyer: Address, seller: Address, amount: u128)
    requires buyer < ADDRESS_LIMIT && seller < ADDRESS_LIMIT
    ensures Short(SettledLog(buyer, seller, amount))
    ensures forall b, s, a :: IsSettlement(SettledLog(buyer, seller, amount), b, s, a) <==>
      b == buyer && s == seller && a == amount
    ensures var log := SettledLog(buyer, seller, amount);
      && |log.data| == 64 && BeNat(log.data[32..64]) == amount && |log.topics| == 4
      && |log.topics[2]| == |log.topics[3]| == 32 && BeNat(log.topics[2][12..]) == buyer &&
        BeNat(log.topics[3][12..]) == seller
  {
    hide ToBe, BeNat;
    assert SettledLog(buyer, seller, amount).data[32..64] == WordOf(amount);
    AddressReads(0xBA66d3b4fbCf472F6F11D6F9F96aaCE96516F09d);
    WordReads(0x0b287f37d8bd14ef37f2966734ab387c243cc1a1663616a25a4cc259877736b1);
    WordReads(0);
    WordReads(buyer);
    WordReads(seller);
    WordReads(amount);
  }

  lemma DepositedSays(buyer: Address, amount: u128)
    requires buyer < ADDRESS_LIMIT
    ensures Short(DepositedLog(buyer, amount))
    ensures forall b, a :: IsDeposit(DepositedLog(buyer, amount), b, a) <==> b == buyer && a == amount
  {
    hide ToBe, BeNat;
    AddressReads(0x0F7a3a8f4Da01637d1202bb5443fcF7F88F99fD2);
    WordReads(0x2da466a7b24304f47e87fa2e1e5a81b9831ce54fec19055ce277ca2f39ba42c4);
    WordReads(buyer);
    WordReads(amount);
  }

  lemma SumOne<T>(x: T, f: T -> nat)
    ensures SumBy([x], f) == f(x)
  {
    assert [x][..0] == [];
  }
}
