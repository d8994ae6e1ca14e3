/** The journal a predicate emits, and the identifiers of its settlements. */
module Journal {
  import opened Prelude
  import opened Hashing
  import opened Evidence

  datatype SettlementRecord = SettlementRecord(id: Hash, amount: u128)

  datatype SubjectRecord = SubjectRecord(subject: Address, washVolume: u128, settlements: seq<SettlementRecord>)

  datatype WashJournal = WashJournal(
    predicateId: nat,
    chainId: nat,
    periodStart: u64,
    periodEnd: u64,
    sourceClaimId: Hash,
    claimId: Hash,
    subjects: seq<SubjectRecord>,
    blockRefs: seq<BlockRef>)

  function SettlementId(key: LogKey): Hash {
    SettlementHash(BASE_CHAIN_ID, key.block, key.transaction, key.log)
  }
}
