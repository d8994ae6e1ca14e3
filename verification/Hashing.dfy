/** The evidence of a claim, and keccak as an ideal hash: every digest is the free term of what was hashed, so
    distinct inputs and distinct encodings never collide and no digest is the zero word. A claim identifier hashes the
    whole claim, so digests and evidence are declared together. */
module Hashing {
  import opened Prelude

  type Address = nat

  const ZERO_ADDRESS: Address := 0

  /** The fields of a consensus header the predicates read; `rest` stands for all the others. */
  datatype Header = Header(
    number: u64,
    timestamp: u64,
    receiptsRoot: Hash,
    transactionsRoot: Hash,
    stateRoot: Hash,
    rest: nat)

  datatype BlockRef = BlockRef(number: nat, blockHash: Hash)

  datatype Hash =
    | ZeroHash
    | Word(word: nat)
    | HeaderHash(header: Header)
    | LeafHash(index: nat, refs: seq<BlockRef>)
    | NodeHash(left: Hash, right: Hash)
    | SettlementHash(chainId: nat, block: nat, transaction: nat, log: nat)
    | CohortHash(buyers: seq<Address>)
    | LoopEvidenceHash(loop: ClosedLoopInput)
    | PairEvidenceHash(pair: ReciprocalInput)
    | LoopClaimHash(periodStart: nat, periodEnd: nat, seller: Address, funder: Address, cohort: Hash, evidence: Hash)
    | PairClaimHash(periodStart: nat, periodEnd: nat, addressA: Address, addressB: Address, evidence: Hash)
    | EvidenceDigest(seller: Address, periodStart: nat, periodEnd: nat, settlements: map<Hash, nat>)

  // ── Evidence ──────────────────────────────────────────────────────────

  datatype ReceiptProof = ReceiptProof(txIndex: u64, value: Bytes, nodes: seq<Bytes>)

  datatype TransactionProof = TransactionProof(txIndex: u64, value: Bytes, nodes: seq<Bytes>)

  datatype EvidenceBlock = EvidenceBlock(header: Header, receipts: seq<ReceiptProof>,
                                         transactions: seq<TransactionProof>)

  datatype LogRef = LogRef(block: nat, receipt: nat, log: nat)

  datatype StorageProof = StorageProof(accountNodes: seq<Bytes>, storageNodes: seq<Bytes>)

  datatype StateRead = StateRead(block: nat, proof: StorageProof)

  /** A storage slot behind a mapping: the hash of key and base slot, plus a field offset. */
  datatype Slot = Slot(key: nat, base: nat, offset: nat)

  /** The period-end balance witness of one buyer. */
  datatype BuyerLedger = BuyerLedger(end: StateRead)

  // ── Claims ────────────────────────────────────────────────────────────

  datatype FundingKind =
    | Usdc(transfer: LogRef)
    | ProtocolDeposit(transfer: LogRef, deposited: LogRef)
    | Native(block: nat, transaction: nat, receipt: nat)

  datatype FundingEvidence = FundingEvidence(buyer: Address, kind: FundingKind)

  datatype ReturnPath = ReturnPath(transfers: seq<LogRef>)

  datatype ClosedLoopInput = ClosedLoopInput(
    chainId: nat,
    periodStart: u64,
    periodEnd: u64,
    sourceClaimId: Hash,
    seller: Address,
    funder: Address,
    buyers: seq<Address>,
    blocks: seq<EvidenceBlock>,
    fundings: seq<FundingEvidence>,
    settlements: seq<LogRef>,
    returnPaths: seq<ReturnPath>,
    ledgers: seq<BuyerLedger>)

  datatype PairDepositEvidence = PairDepositEvidence(member: Address, transfer: LogRef, deposited: LogRef)

  datatype ReciprocalInput = ReciprocalInput(
    chainId: nat,
    periodStart: u64,
    periodEnd: u64,
    sourceClaimId: Hash,
    addressA: Address,
    addressB: Address,
    blocks: seq<EvidenceBlock>,
    settlements: seq<LogRef>,
    internalDeposits: seq<PairDepositEvidence>,
    ledgerA: BuyerLedger,
    ledgerB: BuyerLedger)
}
