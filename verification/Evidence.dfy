/** Evidence blocks, their authentication, and the resolution of references into decoded logs. */
module Evidence {
  import opened Prelude
  import opened Hashing
  import opened Rlp
  import opened Receipts

  // ── Rule constants ────────────────────────────────────────────────────

  const BASE_CHAIN_ID: nat := 8_453
  const BPS: nat := 10_000
  const ALPHA_FUND_BPS: nat := 9_000
  const ALPHA_RETURN_BPS: nat := 3_000
  const RHO_HOP_BPS: nat := 2_800
  const EPSILON_LEDGER_BPS: nat := 500
  const BETA_RECIPROCAL_BPS: nat := 8_000
  const ALPHA_SELF_BPS: nat := 9_000
  const T_PATH_SECONDS: nat := 259_200
  const H_MAX_INTERMEDIATE_HOPS: nat := 8
  const MAX_BUYERS: nat := 256
  const MAX_BLOCK_REFS: nat := 65_536
  const MAX_RETURN_PATHS: nat := 512

  const USDC_ADDRESS: Address := 0x833589fCD6eDb6E08f4c7C32D4f71b54bdA02913
  const CHANNELS_ADDRESS: Address := 0xBA66d3b4fbCf472F6F11D6F9F96aaCE96516F09d
  const DEPOSITS_ADDRESS: Address := 0x0F7a3a8f4Da01637d1202bb5443fcF7F88F99fD2
  const STAKING_ADDRESS: Address := 0x3652E6B22919bd322A25723B94BB207602E5c8e6

  const DEPOSITS_BUYERS_SLOT: nat := 9
  const BUYER_ACCOUNT_BALANCE_OFFSET: nat := 0
  const STAKING_SELLER_AGENT_ID_SLOT: nat := 4
  const CHANNELS_AGENT_STATS_SLOT: nat := 11
  const AGENT_STATS_TOTAL_VOLUME_OFFSET: nat := 1

  const TRANSFER_TOPIC: nat := 0xddf252ad1be2c89b69c2b068fc378daa952ba7f163c4a11628f55a4df523b3ef
  const CHANNEL_SETTLED_TOPIC: nat := 0x0b287f37d8bd14ef37f2966734ab387c243cc1a1663616a25a4cc259877736b1
  const DEPOSITED_TOPIC: nat := 0x2da466a7b24304f47e87fa2e1e5a81b9831ce54fec19055ce277ca2f39ba42c4

  const ADDRESS_LIMIT: nat := 0x1_0000_0000_0000_0000_0000_0000_0000_0000_0000_0000

  // ── Library calls ─────────────────────────────────────────────────────

  function BuyerSlot(buyer: Address): Slot {
    Slot(buyer, DEPOSITS_BUYERS_SLOT, BUYER_ACCOUNT_BALANCE_OFFSET)
  }

  /** The library calls whose code is not modelled: trie proofs, transaction decoding with signer recovery, and
      authenticated storage reads. Each is an arbitrary deterministic function. */
  datatype Oracle = Oracle(
    included: (Hash, Bytes, Bytes, seq<Bytes>) -> bool,
    signer: Bytes -> Result<Address>,
    storage: (Hash, Address, Slot, StorageProof) -> Result<u256>)

  // ── Shared checks ─────────────────────────────────────────────────────

  /** `numerator * 10_000 >= total * ratio_bps`; both products fit a U256. */
  predicate MeetsRatio(numerator: u128, total: u128, ratioBps: nat) {
    numerator * BPS >= total * ratioBps
  }

  predicate InPeriod(block: nat, periodStart: nat, periodEnd: nat) {
    periodStart <= block <= periodEnd
  }

  ghost predicate Ascending(values: seq<Address>) {
    forall i, j :: 0 <= i < j < |values| ==> values[i] < values[j]
  }

  method ValidateSortedUniqueAddresses(values: seq<Address>, minimum: nat, maximum: nat) returns (r: Result<()>)
    ensures r.Ok? <==> minimum <= |values| <= maximum && ZERO_ADDRESS !in values && Ascending(values)
  {
    if |values| < minimum || |values| > maximum {
      return Err("invalid length");
    }
    var previous: Option<Address> := None;
    for k := 0 to |values|
      invariant previous == if k == 0 then None else Some(values[k - 1])
      invariant ZERO_ADDRESS !in values[..k] && Ascending(values[..k])
    {
      var value := values[k];
      if value == ZERO_ADDRESS || (previous.Some? && previous.value >= value) {
        return Err("values must be nonzero, sorted, and unique");
      }
      assert values[..k + 1] == values[..k] + [value];
      previous := Some(value);
    }
    assert values[..|values|] == values;
    return Ok(());
  }

  // ── Block authentication ──────────────────────────────────────────────

  predicate ReceiptIncluded(o: Oracle, header: Header, p: ReceiptProof) {
    o.included(header.receiptsRoot, TrieIndexKey(p.txIndex), p.value, p.nodes)
  }

  predicate TransactionIncluded(o: Oracle, header: Header, p: TransactionProof) {
    o.included(header.transactionsRoot, TrieIndexKey(p.txIndex), p.value, p.nodes)
  }

  ghost predicate ReceiptsHold(o: Oracle, b: EvidenceBlock) {
    && (forall i, j :: 0 <= i < j < |b.receipts| ==> b.receipts[i].txIndex != b.receipts[j].txIndex)
    && (forall i :: 0 <= i < |b.receipts| ==> ReceiptIncluded(o, b.header, b.receipts[i]))
  }

  ghost predicate TransactionsHold(o: Oracle, b: EvidenceBlock) {
    && (forall i, j :: 0 <= i < j < |b.transactions| ==> b.transactions[i].txIndex != b.transactions[j].txIndex)
    && (forall i :: 0 <= i < |b.transactions| ==> TransactionIncluded(o, b.header, b.transactions[i]))
  }

  ghost predicate AuthenticBlock(o: Oracle, b: EvidenceBlock, periodStart: nat, periodEnd: nat) {
    periodStart - 1 <= b.header.number <= periodEnd && ReceiptsHold(o, b) && TransactionsHold(o, b)
  }

  ghost predicate DistinctNumbers(blocks: seq<EvidenceBlock>) {
    forall i, j :: 0 <= i < j < |blocks| ==> blocks[i].header.number != blocks[j].header.number
  }

  ghost predicate Authentic(o: Oracle, blocks: seq<EvidenceBlock>, periodStart: nat, periodEnd: nat) {
    && 1 <= |blocks| <= MAX_BLOCK_REFS
    && DistinctNumbers(blocks)
    && forall i :: 0 <= i < |blocks| ==> AuthenticBlock(o, blocks[i], periodStart, periodEnd)
  }

  /** The same, spelled out: at most 65536 blocks with distinct numbers. */
  ghost predicate Genuine(o: Oracle, blocks: seq<EvidenceBlock>, periodStart: nat, periodEnd: nat) {
    && 1 <= |blocks| <= 65_536
    && (forall i, j :: 0 <= i < j < |blocks| ==> blocks[i].header.number != blocks[j].header.number)
    && forall b :: b in blocks ==> GenuineBlock(o, b, periodStart, periodEnd)
  }

  /** The period or the block before it; each receipt proven under the receipts root of its own header and each
      transaction under the transactions root, at the RLP encoding of its index, and no index twice. */
  ghost predicate GenuineBlock(o: Oracle, b: EvidenceBlock, periodStart: nat, periodEnd: nat) {
    && b.header.number + 1 >= periodStart && b.header.number <= periodEnd
    && (forall i, j :: 0 <= i < j < |b.receipts| ==> b.receipts[i].txIndex != b.receipts[j].txIndex)
    && (forall p :: p in b.receipts ==> o.included(b.header.receiptsRoot, RlpUint(p.txIndex), p.value, p.nodes))
    && (forall i, j :: 0 <= i < j < |b.transactions| ==> b.transactions[i].txIndex != b.transactions[j].txIndex)
    && (forall p :: p in b.transactions ==> o.included(b.header.transactionsRoot, RlpUint(p.txIndex), p.value, p.nodes))
  }

  lemma BlockIff(o: Oracle, b: EvidenceBlock, periodStart: nat, periodEnd: nat)
    ensures AuthenticBlock(o, b, periodStart, periodEnd) <==> GenuineBlock(o, b, periodStart, periodEnd)
  {
    hide TrieIndexKey, RlpUint;
    forall p | p in b.receipts
      ensures TrieIndexKey(p.txIndex) == RlpUint(p.txIndex)
    {
      TrieIndexKeyIsRlp(p.txIndex);
    }
    forall p | p in b.transactions
      ensures TrieIndexKey(p.txIndex) == RlpUint(p.txIndex)
    {
      TrieIndexKeyIsRlp(p.txIndex);
    }
    assert forall i :: 0 <= i < |b.receipts| ==> b.receipts[i] in b.receipts;
    assert forall i :: 0 <= i < |b.transactions| ==> b.transactions[i] in b.transactions;
  }

  lemma AuthenticIff(o: Oracle, blocks: seq<EvidenceBlock>, periodStart: nat, periodEnd: nat)
    ensures Authentic(o, blocks, periodStart, periodEnd) <==> Genuine(o, blocks, periodStart, periodEnd)
  {
    hide AuthenticBlock, GenuineBlock;
    forall b
      ensures AuthenticBlock(o, b, periodStart, periodEnd) <==> GenuineBlock(o, b, periodStart, periodEnd)
    {
      BlockIff(o, b, periodStart, periodEnd);
    }
  }

  function RefOf(b: EvidenceBlock): BlockRef {
    BlockRef(b.header.number, HeaderHash(b.header))
  }

  predicate ByNumber(a: BlockRef, b: BlockRef) {
    a.number <= b.number
  }

  /** The references the journal commits to. */
  function JournalRefs(blocks: seq<EvidenceBlock>): seq<BlockRef> {
    SortBy(ByNumber, Map(RefOf, blocks))
  }

  method AuthenticateBlocks(o: Oracle, blocks: seq<EvidenceBlock>, periodStart: nat, periodEnd: nat)
    returns (r: Result<seq<BlockRef>>)
    ensures r.Ok? <==> Authentic(o, blocks, periodStart, periodEnd)
    ensures r.Ok? <==> Genuine(o, blocks, periodStart, periodEnd)
    ensures r.Ok? ==> r.value == JournalRefs(blocks)
  {
    AuthenticIff(o, blocks, periodStart, periodEnd);
    hide Genuine;
    if blocks == [] || |blocks| > MAX_BLOCK_REFS {
      return Err("invalid block evidence count");
    }
    var numbers: set<nat> := {};
    var refs: seq<BlockRef> := [];
    for i := 0 to |blocks|
      invariant numbers == set k | 0 <= k < i :: blocks[k].header.number
      invariant refs == Map(RefOf, blocks[..i])
      invariant DistinctNumbers(blocks[..i])
      invariant forall k :: 0 <= k < i ==> AuthenticBlock(o, blocks[k], periodStart, periodEnd)
    {
      var number := blocks[i].header.number;
      if !(Max(periodStart - 1, 0) <= number <= periodEnd) {
        return Err("block outside the witness window");
      }
      if number in numbers {
        return Err("duplicate block evidence");
      }
      numbers := numbers + {number};
      var receipts := AuthenticateReceipts(o, blocks[i]);
      if receipts.Err? {
        return Err(receipts.message);
      }
      var transactions := AuthenticateTransactions(o, blocks[i]);
      if transactions.Err? {
        return Err(transactions.message);
      }
      assert AuthenticBlock(o, blocks[i], periodStart, periodEnd);
      assert blocks[..i + 1] == blocks[..i] + [blocks[i]];
      refs := refs + [BlockRef(number, HeaderHash(blocks[i].header))];
    }
    assert blocks[..|blocks|] == blocks;
    return Ok(SortBy(ByNumber, refs));
  }

  method AuthenticateReceipts(o: Oracle, b: EvidenceBlock) returns (r: Result<()>)
    ensures r.Ok? <==> ReceiptsHold(o, b)
    ensures r.Ok? <==>
      && (forall i, j :: 0 <= i < j < |b.receipts| ==> b.receipts[i].txIndex != b.receipts[j].txIndex)
      && (forall p :: p in b.receipts ==> o.included(b.header.receiptsRoot, RlpUint(p.txIndex), p.value, p.nodes))
  {
    hide TrieIndexKey, RlpUint;
    forall i: nat | i < |b.receipts|
      ensures b.receipts[i] in b.receipts && TrieIndexKey(b.receipts[i].txIndex) == RlpUint(b.receipts[i].txIndex)
    {
      TrieIndexKeyIsRlp(b.receipts[i].txIndex);
    }
    var receiptIndexes: set<nat> := {};
    for i := 0 to |b.receipts|
      invariant receiptIndexes == set k | 0 <= k < i :: b.receipts[k].txIndex
      invariant forall j, k :: 0 <= j < k < i ==> b.receipts[j].txIndex != b.receipts[k].txIndex
      invariant forall k :: 0 <= k < i ==> ReceiptIncluded(o, b.header, b.receipts[k])
    {
      if b.receipts[i].txIndex in receiptIndexes {
        return Err("duplicate receipt proof");
      }
      receiptIndexes := receiptIndexes + {b.receipts[i].txIndex};
      if !ReceiptIncluded(o, b.header, b.receipts[i]) {
        return Err("receipt inclusion");
      }
    }
    return Ok(());
  }

  method AuthenticateTransactions(o: Oracle, b: EvidenceBlock) returns (r: Result<()>)
    ensures r.Ok? <==> TransactionsHold(o, b)
    ensures r.Ok? <==>
      && (forall i, j :: 0 <= i < j < |b.transactions| ==> b.transactions[i].txIndex != b.transactions[j].txIndex)
      && (forall p :: p in b.transactions ==>
        o.included(b.header.transactionsRoot, RlpUint(p.txIndex), p.value, p.nodes))
  {
    hide TrieIndexKey, RlpUint;
    forall i: nat | i < |b.transactions|
      ensures b.transactions[i] in b.transactions
      ensures TrieIndexKey(b.transactions[i].txIndex) == RlpUint(b.transactions[i].txIndex)
    {
      TrieIndexKeyIsRlp(b.transactions[i].txIndex);
    }
    var transactionIndexes: set<nat> := {};
    for i := 0 to |b.transactions|
      invariant transactionIndexes == set k | 0 <= k < i :: b.transactions[k].txIndex
      invariant forall j, k :: 0 <= j < k < i ==> b.transactions[j].txIndex != b.transactions[k].txIndex
      invariant forall k :: 0 <= k < i ==> TransactionIncluded(o, b.header, b.transactions[k])
    {
      if b.transactions[i].txIndex in transactionIndexes {
        return Err("duplicate transaction proof");
      }
      transactionIndexes := transactionIndexes + {b.transactions[i].txIndex};
      if !TransactionIncluded(o, b.header, b.transactions[i]) {
        return Err("transaction inclusion");
      }
    }
    return Ok(());
  }

  // ── Sorted references ─────────────────────────────────────────────────

  ghost predicate StrictlySorted(s: seq<BlockRef>) {
    forall i, j :: 0 <= i < j < |s| ==> s[i].number < s[j].number
  }

  /** For blocks with distinct numbers the committed references are strictly sorted, one per block. */
  lemma JournalRefsExact(blocks: seq<EvidenceBlock>)
    requires DistinctNumbers(blocks)
    ensures StrictlySorted(JournalRefs(blocks))
    ensures multiset(JournalRefs(blocks)) == multiset(Map(RefOf, blocks))
    ensures |JournalRefs(blocks)| == |blocks|
  {
    var refs := Map(RefOf, blocks);
    var s := JournalRefs(blocks);
    SortBySorts(ByNumber, refs);
    assert |multiset(s)| == |multiset(refs)|;
    forall i, j | 0 <= i < j < |s|
      ensures s[i].number < s[j].number
    {
      if s[i].number == s[j].number {
        SameNumberSameBlock(blocks, s[i], s[j]);
        assert s == s[..j] + s[j..];
        assert s[i] in multiset(s[..j]) && s[j] in multiset(s[j..]) by {
          assert s[..j][i] == s[i] && s[j..][0] == s[j];
        }
        assert multiset(refs)[s[i]] >= 2;
        OnceEach(blocks, s[i]);
      }
    }
  }

  lemma SameNumberSameBlock(blocks: seq<EvidenceBlock>, a: BlockRef, b: BlockRef)
    requires DistinctNumbers(blocks)
    requires a in multiset(Map(RefOf, blocks)) && b in multiset(Map(RefOf, blocks))
    requires a.number == b.number
    ensures a == b
  {
    var refs := Map(RefOf, blocks);
    var i :| 0 <= i < |refs| && refs[i] == a;
    var j :| 0 <= j < |refs| && refs[j] == b;
    if i < j {} else if j < i {}
  }

  lemma {:induction false} OnceEach(blocks: seq<EvidenceBlock>, r: BlockRef)
    requires DistinctNumbers(blocks)
    ensures multiset(Map(RefOf, blocks))[r] <= 1
  {
    if blocks != [] {
      var init := blocks[..|blocks| - 1];
      var last := blocks[|blocks| - 1];
      OnceEach(init, r);
      assert Map(RefOf, blocks) == Map(RefOf, init) + [RefOf(last)];
      if r == RefOf(last) {
        assert r !in Map(RefOf, init);
      }
    }
  }

  /** Strictly sorted references are determined by their elements. */
  lemma {:induction false} StrictlySortedUnique(a: seq<BlockRef>, b: seq<BlockRef>)
    requires StrictlySorted(a) && StrictlySorted(b)
    requires forall r :: r in a <==> r in b
    ensures a == b
    decreases |a|
  {
    assert forall k :: 0 <= k < |a| ==> a[k] in b;
    assert forall k :: 0 <= k < |b| ==> b[k] in a;
    if a != [] && b != [] {
      assert a[0] == b[0];
      forall r
        ensures r in a[1..] <==> r in b[1..]
      {
        assert r in a[1..] <==> r in a && r != a[0];
        assert r in b[1..] <==> r in b && r != b[0];
      }
      StrictlySortedUnique(a[1..], b[1..]);
    }
  }

  /** References that are sorted already stay as they are. */
  lemma SortedAlready(blocks: seq<EvidenceBlock>, refs: seq<BlockRef>)
    requires DistinctNumbers(blocks) && Map(RefOf, blocks) == refs && StrictlySorted(refs)
    ensures JournalRefs(blocks) == refs
  {
    JournalRefsExact(blocks);
    hide JournalRefs;
    var sorted := JournalRefs(blocks);
    forall r
      ensures r in sorted <==> r in refs
    {
      assert r in sorted <==> r in multiset(sorted);
      assert r in refs <==> r in multiset(refs);
    }
    StrictlySortedUnique(sorted, refs);
  }

  // ── Resolver ──────────────────────────────────────────────────────────

  /** A totally ordered on-chain position of one log. */
  datatype LogKey = LogKey(block: nat, transaction: nat, log: nat) {
    predicate Before(other: LogKey) {
      || block < other.block
      || (block == other.block && transaction < other.transaction)
      || (block == other.block && transaction == other.transaction && log < other.log)
    }
  }

  datatype Located = Located(log: ParsedLog, receipt: ReceiptProof, block: EvidenceBlock)

  datatype Transfer = Transfer(from: Address, to: Address, amount: u128, block: nat)

  datatype Settlement = Settlement(channel: nat, buyer: Address, seller: Address, amount: u128, block: nat)

  datatype Deposit = Deposit(buyer: Address, amount: u128, block: nat)

  /** The low 20 bytes of a topic word. */
  function TopicAddress(topic: Bytes): Address {
    BeNat(topic) % ADDRESS_LIMIT
  }

  datatype ChainResolver = ChainResolver(oracle: Oracle, blocks: seq<EvidenceBlock>) {

    function Block(index: nat): Result<EvidenceBlock> {
      if index < |blocks| then Ok(blocks[index]) else Err("block reference out of range")
    }

    /** A log of a successful receipt. */
    function Log(reference: LogRef): Result<Located> {
      var block :- Block(reference.block);
      if reference.receipt >= |block.receipts| then Err("receipt reference out of range") else
      var receipt := block.receipts[reference.receipt];
      var success :- ReceiptSuccess(receipt.value);
      if !success then Err("referenced receipt reverted") else
      var log :- ReceiptLog(receipt.value, reference.log);
      Ok(Located(log, receipt, block))
    }

    function Key(reference: LogRef): Result<LogKey> {
      var at :- Log(reference);
      Ok(LogKey(at.block.header.number, at.receipt.txIndex, reference.log))
    }

    function Timestamp(reference: LogRef): Result<u64> {
      var block :- Block(reference.block);
      Ok(block.header.timestamp)
    }

    function UsdcTransfer(reference: LogRef): Result<Transfer> {
      var at :- Log(reference);
      var log := at.log;
      if BeNat(log.address) != USDC_ADDRESS || |log.topics| != 3 || BeNat(log.topics[0]) != TRANSFER_TOPIC ||
        |log.data| != 32
      then Err("not a USDC transfer")
      else
        var amount := BeNat(log.data);
        if amount >= U128_LIMIT then Err("USDC amount overflow")
        else Ok(Transfer(TopicAddress(log.topics[1]), TopicAddress(log.topics[2]), amount, at.block.header.number))
    }

    function SettlementAt(reference: LogRef): Result<Settlement> {
      var at :- Log(reference);
      var log := at.log;
      if BeNat(log.address) != CHANNELS_ADDRESS || |log.topics| != 4 ||
        BeNat(log.topics[0]) != CHANNEL_SETTLED_TOPIC || |log.data| < 64
      then Err("not a ChannelSettled event")
      else
        var amount := BeNat(log.data[32..64]);
        if amount >= U128_LIMIT then Err("settlement amount overflow")
        else Ok(Settlement(BeNat(log.topics[1]), TopicAddress(log.topics[2]), TopicAddress(log.topics[3]), amount,
          at.block.header.number))
    }

    function ProtocolDeposit(reference: LogRef): Result<Deposit> {
      var at :- Log(reference);
      var log := at.log;
      if BeNat(log.address) != DEPOSITS_ADDRESS || |log.topics| != 2 || BeNat(log.topics[0]) != DEPOSITED_TOPIC ||
        |log.data| != 32
      then Err("not an Antseed Deposited event")
      else
        var amount := BeNat(log.data);
        if amount >= U128_LIMIT then Err("deposit amount overflow")
        else Ok(Deposit(TopicAddress(log.topics[1]), amount, at.block.header.number))
    }

    /** The first transaction proof carrying a given index. */
    function TransactionAt(transactions: seq<TransactionProof>, txIndex: nat): Option<TransactionProof> {
      if transactions == [] then None
      else if transactions[0].txIndex == txIndex then Some(transactions[0])
      else TransactionAt(transactions[1..], txIndex)
    }

    function CountTransactions(transactions: seq<TransactionProof>, txIndex: nat): nat {
      if transactions == [] then 0
      else (if transactions[0].txIndex == txIndex then 1 else 0) + CountTransactions(transactions[1..], txIndex)
    }

    /** The transaction behind a log must be present once and signed by `expected`. */
    predicate SignedBy(expected: Address, reference: LogRef) {
      match Log(reference)
      case Err(_) => false
      case Ok(at) =>
        && CountTransactions(at.block.transactions, at.receipt.txIndex) == 1
        && var found := TransactionAt(at.block.transactions, at.receipt.txIndex);
          found.Some? && oracle.signer(found.value.value) == Ok(expected)
    }

    function StorageValue(read: StateRead, expectedBlock: nat, account: Address, slot: Slot): Result<u256> {
      var block :- Block(read.block);
      if block.header.number != expectedBlock then Err("state read at the wrong block")
      else oracle.storage(block.header.stateRoot, account, slot, read.proof)
    }
  }

  /** On authenticated blocks a log key names one reference: no log can be presented under two references. */
  lemma KeyInjective(chain: ChainResolver, periodStart: nat, periodEnd: nat, a: LogRef, b: LogRef)
    requires Authentic(chain.oracle, chain.blocks, periodStart, periodEnd)
    requires chain.Key(a).Ok? && chain.Key(a) == chain.Key(b)
    ensures a == b
  {
    hide ReceiptLog, ReceiptSuccess;
    var x, y := chain.blocks[a.block], chain.blocks[b.block];
    assert a.block == b.block by {
      if a.block < b.block {} else if b.block < a.block {}
    }
    assert AuthenticBlock(chain.oracle, x, periodStart, periodEnd);
    if a.receipt < b.receipt {} else if b.receipt < a.receipt {}
  }

  /** Looking up a transaction of a block does not depend on the resolver it is asked through. */
  lemma {:induction false} SameTransactions(x: ChainResolver, y: ChainResolver, t: seq<TransactionProof>, index: nat)
    ensures x.TransactionAt(t, index) == y.TransactionAt(t, index)
    ensures x.CountTransactions(t, index) == y.CountTransactions(t, index)
  {
    if t != [] {
      SameTransactions(x, y, t[1..], index);
    }
  }
}
