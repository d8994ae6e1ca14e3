/** The direct seller proof: one claim journal is checked, its settlements and block references are collected into
    maps, the boundary reading joins them, and everything is committed to a seller journal. The main result says
    which inputs pass and what is committed; most of the re-checks can never fail. */
module Seller {
  import opened Prelude
  import opened Hashing
  import opened Evidence
  import opened Journal
  import opened Merkle
  import Booking
  import CL = ClosedLoop
  import RP = Reciprocal
  import LoopBounds

  const SELLER_JOURNAL_SCHEMA_VERSION: nat := 1

  datatype SellerEvidence = ClosedLoop(loop: ClosedLoopInput) | Reciprocal(pair: ReciprocalInput)

  datatype TotalVolumeBoundary = TotalVolumeBoundary(header: Header, agentId: StorageProof, totalVolume: StorageProof)

  datatype SellerProofInput = SellerProofInput(
    seller: Address,
    periodStart: u64,
    periodEnd: u64,
    totalVolume: TotalVolumeBoundary,
    evidence: SellerEvidence)

  datatype SellerJournal = SellerJournal(
    schemaVersion: nat,
    chainId: nat,
    periodStart: u64,
    periodEnd: u64,
    seller: Address,
    provenWashVolume: u128,
    totalSellerVolume: u128,
    evidenceDigest: Hash,
    blockReferenceCount: nat,
    blockAuthenticationChunkSize: nat,
    blockAuthenticationChunkCount: nat,
    blockAuthenticationRoot: Hash)

  datatype VerifiedSeller = VerifiedSeller(journal: SellerJournal, blockRefs: seq<BlockRef>)

  // ── Ordered maps ──────────────────────────────────────────────────────

  ghost function SumValues(m: map<Hash, u128>): nat {
    if m == map[] then 0
    else
      var k := Pick(m);
      m[k] + SumValues(m - {k})
  }

  ghost function Pick(m: map<Hash, u128>): (k: Hash)
    requires m != map[]
    ensures k in m
  {
    assert m.Keys != {};
    var k :| k in m.Keys;
    k
  }

  /** The sum of a map does not depend on which entry is taken first. */
  lemma {:induction false} SumValuesTake(m: map<Hash, u128>, k: Hash)
    requires k in m
    ensures SumValues(m) == m[k] + SumValues(m - {k})
    decreases |m|
  {
    var p := Pick(m);
    if p != k {
      SumValuesTake(m - {p}, k);
      SumValuesTake(m - {k}, p);
      assert m - {p} - {k} == m - {k} - {p};
    }
  }

  /** `values().try_fold` over a map, in whatever order it is iterated. */
  method SumSettlements(settlements: map<Hash, u128>) returns (r: Result<u128>)
    ensures r.Ok? <==> SumValues(settlements) < U128_LIMIT
    ensures r.Ok? ==> r.value == SumValues(settlements)
  {
    var rest := settlements;
    var total: u128 := 0;
    while rest.Keys != {}
      invariant total + SumValues(rest) == SumValues(settlements)
      decreases |rest|
    {
      var id :| id in rest.Keys;
      SumValuesTake(rest, id);
      var sum := CheckedAdd(total, rest[id]);
      if sum.None? {
        return Err("seller proof: volume overflow");
      }
      total := sum.value;
      rest := rest - {id};
    }
    assert rest == map[];
    return Ok(total);
  }

  /** A map of block hashes iterated by block number. */
  function RefsOfMap(m: map<nat, Hash>): seq<BlockRef> {
    var numbers := Sorted(m.Keys);
    seq(|numbers|, i requires 0 <= i < |numbers| => assert numbers[i] in numbers; BlockRef(numbers[i], m[numbers[i]]))
  }

  function MapOfRefs(refs: seq<BlockRef>): map<nat, Hash> {
    if refs == [] then map[] else MapOfRefs(refs[..|refs| - 1])[refs[|refs| - 1].number := refs[|refs| - 1].blockHash]
  }

  /** No block number comes with two hashes. */
  ghost predicate Consistent(refs: seq<BlockRef>) {
    forall i, j :: 0 <= i < j < |refs| && refs[i].number == refs[j].number ==> refs[i].blockHash == refs[j].blockHash
  }

  lemma {:induction false} MapOfRefsEntries(refs: seq<BlockRef>)
    requires Consistent(refs)
    ensures forall n :: n in MapOfRefs(refs) <==> exists k :: 0 <= k < |refs| && refs[k].number == n
    ensures forall k :: 0 <= k < |refs| ==>
      refs[k].number in MapOfRefs(refs) && MapOfRefs(refs)[refs[k].number] == refs[k].blockHash
  {
    if refs != [] {
      MapOfRefsEntries(refs[..|refs| - 1]);
    }
  }

  function NumberOf(r: BlockRef): nat {
    r.number
  }

  lemma NumbersAreSorted(refs: seq<BlockRef>)
    requires StrictlySorted(refs)
    ensures Sorted(MapOfRefs(refs).Keys) == Map(NumberOf, refs)
  {
    hide MapOfRefs, Sorted;
    MapOfRefsEntries(refs);
    var numbers := Map(NumberOf, refs);
    var keys := MapOfRefs(refs).Keys;
    assert Increasing(numbers);
    forall n
      ensures n in numbers <==> n in keys
    {
      if n in keys {
        var k :| 0 <= k < |refs| && refs[k].number == n;
        assert numbers[k] == n;
      }
      if n in numbers {
        var k :| 0 <= k < |numbers| && numbers[k] == n;
        assert refs[k].number == n;
      }
    }
    IncreasingUnique(Sorted(keys), numbers);
  }

  /** Strictly sorted references survive the map. */
  lemma RefsThroughMap(refs: seq<BlockRef>)
    requires StrictlySorted(refs)
    ensures RefsOfMap(MapOfRefs(refs)) == refs
  {
    hide MapOfRefs, Sorted, StrictlySorted;
    NumbersAreSorted(refs);
    MapOfRefsEntries(refs);
  }

  // ── Re-checking a claim journal ───────────────────────────────────────

  function SubjectsFor(subjects: seq<SubjectRecord>, seller: Address): seq<SubjectRecord> {
    if subjects == [] then []
    else (if subjects[0].subject == seller then [subjects[0]] else []) + SubjectsFor(subjects[1..], seller)
  }

  function MapOfRecords(records: seq<SettlementRecord>): map<Hash, u128> {
    if records == [] then map[]
    else MapOfRecords(records[..|records| - 1])[records[|records| - 1].id := records[|records| - 1].amount]
  }

  function RecordAmount(r: SettlementRecord): nat {
    r.amount
  }

  /** A journal as either predicate makes it: distinct subjects, each with distinct nonzero records that add up to
      its volume, and strictly sorted nonzero block references that include the period-end block. */
  ghost predicate Proper(j: WashJournal) {
    && j.chainId == BASE_CHAIN_ID && j.claimId != ZeroHash
    && (forall a, b :: 0 <= a < b < |j.subjects| ==> j.subjects[a].subject != j.subjects[b].subject)
    && (forall a :: 0 <= a < |j.subjects| ==> ProperSubject(j.subjects[a]))
    && 1 <= |j.blockRefs| <= MAX_BLOCK_REFS
    && StrictlySorted(j.blockRefs)
    && (forall k :: 0 <= k < |j.blockRefs| ==> j.blockRefs[k].blockHash.HeaderHash?)
    && exists k :: 0 <= k < |j.blockRefs| && j.blockRefs[k].number == j.periodEnd
  }

  ghost predicate ProperSubject(s: SubjectRecord) {
    && Distinct(RP.IdsOf(s.settlements))
    && (forall k :: 0 <= k < |s.settlements| ==> s.settlements[k].id.SettlementHash? && s.settlements[k].amount > 0)
    && SumBy(s.settlements, RecordAmount) == s.washVolume > 0
  }

  /** Nonzero records with distinct ids. */
  ghost predicate RecordsGood(records: seq<SettlementRecord>) {
    && Distinct(RP.IdsOf(records))
    && forall k :: 0 <= k < |records| ==> records[k].id != ZeroHash && records[k].amount != 0
  }

  /** What the settlement loop of `validate_evidence` asks of a subject. */
  ghost predicate RecordsValid(s: SubjectRecord) {
    RecordsGood(s.settlements) && SumBy(s.settlements, RecordAmount) == s.washVolume > 0
  }

  /** The ids recorded so far are the keys of the map so far. */
  ghost predicate Tracks(settlements: map<Hash, u128>, records: seq<SettlementRecord>) {
    && settlements == MapOfRecords(records)
    && settlements.Keys == (set r | r in records :: r.id)
    && SumValues(settlements) == SumBy(records, RecordAmount)
  }

  lemma SnocIds(records: seq<SettlementRecord>, r: SettlementRecord)
    ensures RP.IdsOf(records + [r]) == RP.IdsOf(records) + [r.id]
  {
  }

  lemma {:induction false} IdsPrefix(records: seq<SettlementRecord>, k: nat)
    requires k <= |records|
    ensures RP.IdsOf(records[..k]) == RP.IdsOf(records)[..k]
  {
  }

  /** A zero or repeated record spoils every list it occurs in. */
  lemma GoodStep(records: seq<SettlementRecord>, k: nat)
    requires k < |records| && RecordsGood(records[..k])
    ensures if records[k].id == ZeroHash || records[k].amount == 0 || records[k].id in RP.IdsOf(records[..k])
            then !RecordsGood(records) else RecordsGood(records[..k + 1])
  {
    var before, r := records[..k], records[k];
    assert records[..k + 1] == before + [r];
    SnocIds(before, r);
    IdsPrefix(records, k);
    var ids := RP.IdsOf(records);
    if r.id in ids[..k] {
      var j :| 0 <= j < k && ids[j] == r.id;
      assert ids[k] == ids[j];
    }
  }

  /** A new record extends the map and the sum. */
  lemma TracksStep(before: seq<SettlementRecord>, r: SettlementRecord, settlements: map<Hash, u128>)
    requires Tracks(settlements, before) && r.id !in settlements
    ensures Tracks(settlements[r.id := r.amount], before + [r])
    ensures SumBy(before + [r], RecordAmount) == SumBy(before, RecordAmount) + r.amount
  {
    var after, larger := before + [r], settlements[r.id := r.amount];
    assert after[..|after| - 1] == before;
    SumValuesTake(larger, r.id);
    assert larger - {r.id} == settlements;
    assert larger.Keys == settlements.Keys + {r.id};
    assert (set x | x in after :: x.id) == (set x | x in before :: x.id) + {r.id};
  }

  lemma KeysAreIds(records: seq<SettlementRecord>, settlements: map<Hash, u128>)
    requires Tracks(settlements, records)
    ensures forall id :: id in settlements <==> id in RP.IdsOf(records)
  {
    var ids := RP.IdsOf(records);
    forall id
      ensures id in settlements <==> id in ids
    {
      if id in settlements {
        var j :| 0 <= j < |records| && records[j].id == id;
        assert ids[j] == id;
      }
      if id in ids {
        var j :| 0 <= j < |ids| && ids[j] == id;
        assert records[j] in records;
      }
    }
  }

  /** One record of the loop: either it spoils the list, or the map and the sum go on tracking the prefix. */
  lemma CollectStep(records: seq<SettlementRecord>, k: nat, settlements: map<Hash, u128>)
    requires k < |records| && RecordsGood(records[..k]) && Tracks(settlements, records[..k])
    ensures SumBy(records[..k], RecordAmount) + records[k].amount <= SumBy(records, RecordAmount)
    ensures if records[k].id == ZeroHash || records[k].amount == 0 || records[k].id in settlements
      then !RecordsGood(records)
            else
              && RecordsGood(records[..k + 1])
              && Tracks(settlements[records[k].id := records[k].amount], records[..k + 1])
              && SumBy(records[..k + 1], RecordAmount) == SumBy(records[..k], RecordAmount) + records[k].amount
  {
    hide RecordsGood, Tracks, RP.IdsOf;
    GoodStep(records, k);
    KeysAreIds(records[..k], settlements);
    assert records[..k + 1] == records[..k] + [records[k]];
    assert records[..k + 1][..k] == records[..k];
    SumByPrefix(records, RecordAmount, k + 1);
    if records[k].id !in settlements {
      TracksStep(records[..k], records[k], settlements);
    }
  }

  /** The settlement loop of `validate_evidence`. */
  method CollectSettlements(s: SubjectRecord) returns (r: Result<map<Hash, u128>>)
    ensures r.Ok? <==> RecordsValid(s)
    ensures r.Ok? ==> r.value == MapOfRecords(s.settlements) && SumValues(r.value) == s.washVolume
  {
    hide SumBy, RecordsGood, Tracks, MapOfRecords, SumValues;
    NoRecords(s.settlements[..0]);
    var claimVolume: u128 := 0;
    var settlements: map<Hash, u128> := map[];
    for k := 0 to |s.settlements|
      invariant RecordsGood(s.settlements[..k])
      invariant Tracks(settlements, s.settlements[..k])
      invariant claimVolume == SumBy(s.settlements[..k], RecordAmount)
    {
      var record := s.settlements[k];
      CollectStep(s.settlements, k, settlements);
      if record.id == ZeroHash || record.amount == 0 {
        return Err("seller proof: invalid settlement record");
      }
      var sum := CheckedAdd(claimVolume, record.amount);
      if sum.None? {
        return Err("seller proof: volume overflow");
      }
      claimVolume := sum.value;
      var repeated := record.id in settlements;
      settlements := settlements[record.id := record.amount];
      if repeated {
        return Err("seller proof: duplicate settlement in evidence");
      }
    }
    assert s.settlements[..|s.settlements|] == s.settlements;
    TracksMeans(s.settlements, settlements);
    if claimVolume == 0 || claimVolume != s.washVolume {
      return Err("seller proof: claim settlement total mismatch");
    }
    return Ok(settlements);
  }

  lemma TracksMeans(records: seq<SettlementRecord>, settlements: map<Hash, u128>)
    requires Tracks(settlements, records)
    ensures settlements == MapOfRecords(records) && SumValues(settlements) == SumBy(records, RecordAmount)
  {
  }

  lemma NoRecords(records: seq<SettlementRecord>)
    requires records == []
    ensures RecordsGood(records) && Tracks(map[], records) && SumBy(records, RecordAmount) == 0
  {
    assert RP.IdsOf(records) == [];
  }

  ghost predicate RefsValid(refs: seq<BlockRef>) {
    Consistent(refs) && forall k :: 0 <= k < |refs| ==> refs[k].blockHash != ZeroHash
  }

  lemma TakeRef(refs: seq<BlockRef>, k: nat, blockRefs: map<nat, Hash>)
    requires k < |refs| && RefsValid(refs[..k]) && blockRefs == MapOfRefs(refs[..k])
    ensures MapOfRefs(refs[..k + 1]) == blockRefs[refs[k].number := refs[k].blockHash]
    ensures if refs[k].blockHash == ZeroHash ||
      (refs[k].number in blockRefs && blockRefs[refs[k].number] != refs[k].blockHash)
            then !RefsValid(refs) else RefsValid(refs[..k + 1])
  {
    var before := refs[..k];
    assert refs[..k + 1][..k] == before;
    MapOfRefsEntries(before);
    if refs[k].number in blockRefs {
      var j :| 0 <= j < k && before[j].number == refs[k].number;
      assert refs[j] == before[j];
    }
    forall j | 0 <= j < k
      ensures refs[j].number == refs[k].number ==>
        refs[k].number in blockRefs && blockRefs[refs[k].number] == refs[j].blockHash
    {
      assert before[j] == refs[j];
    }
  }

  /** The block-reference loop of `validate_evidence`. */
  method CollectRefs(refs: seq<BlockRef>) returns (r: Result<map<nat, Hash>>)
    ensures r.Ok? <==> RefsValid(refs)
    ensures r.Ok? ==> r.value == MapOfRefs(refs)
  {
    var blockRefs: map<nat, Hash> := map[];
    assert RefsValid(refs[..0]) && MapOfRefs(refs[..0]) == map[];
    hide RefsValid, MapOfRefs;
    for k := 0 to |refs|
      invariant RefsValid(refs[..k])
      invariant blockRefs == MapOfRefs(refs[..k])
    {
      TakeRef(refs, k, blockRefs);
      if refs[k].blockHash == ZeroHash {
        return Err("seller proof: zero claim block hash");
      }
      if refs[k].number in blockRefs && blockRefs[refs[k].number] != refs[k].blockHash {
        return Err("seller proof: conflicting claim block hash");
      }
      blockRefs := blockRefs[refs[k].number := refs[k].blockHash];
    }
    assert refs[..|refs|] == refs;
    return Ok(blockRefs);
  }

  ghost predicate ClaimMatches(j: WashJournal, input: SellerProofInput) {
    && j.periodStart == input.periodStart && j.periodEnd == input.periodEnd
    && j.sourceClaimId != ZeroHash
    && exists a :: 0 <= a < |j.subjects| && j.subjects[a].subject == input.seller
  }

  lemma {:induction false} SubjectsForUnique(subjects: seq<SubjectRecord>, seller: Address)
    requires forall a, b :: 0 <= a < b < |subjects| ==> subjects[a].subject != subjects[b].subject
    ensures |SubjectsFor(subjects, seller)| <= 1
    ensures SubjectsFor(subjects, seller) != [] <==> exists a :: 0 <= a < |subjects| && subjects[a].subject == seller
    ensures SubjectsFor(subjects, seller) != [] ==>
      SubjectsFor(subjects, seller)[0] in subjects && SubjectsFor(subjects, seller)[0].subject == seller
  {
    if subjects != [] {
      SubjectsForUnique(subjects[1..], seller);
      if exists a :: 0 <= a < |subjects| && subjects[a].subject == seller {
        var a :| 0 <= a < |subjects| && subjects[a].subject == seller;
        assert a > 0 ==> subjects[1..][a - 1].subject == seller;
      }
      if SubjectsFor(subjects[1..], seller) != [] {
        var b :| 0 <= b < |subjects[1..]| && subjects[1..][b].subject == seller;
        assert subjects[b + 1].subject == seller;
      }
    }
  }

  datatype Collected = Collected(subject: SubjectRecord, settlements: map<Hash, u128>, blockRefs: map<nat, Hash>)

  /** What `validate_evidence` asks of any journal. */
  ghost predicate EvidenceValid(j: WashJournal, input: SellerProofInput) {
    && j.chainId == BASE_CHAIN_ID && j.periodStart == input.periodStart && j.periodEnd == input.periodEnd
    && j.sourceClaimId != ZeroHash && j.claimId != ZeroHash
    && |SubjectsFor(j.subjects, input.seller)| == 1
    && RecordsValid(SubjectsFor(j.subjects, input.seller)[0])
    && RefsValid(j.blockRefs)
  }

  method ValidateEvidence(j: WashJournal, input: SellerProofInput) returns (r: Result<Collected>)
    ensures r.Ok? <==> EvidenceValid(j, input)
    ensures r.Ok? ==>
      && r.value.subject == SubjectsFor(j.subjects, input.seller)[0]
      && r.value.settlements == MapOfRecords(r.value.subject.settlements)
      && SumValues(r.value.settlements) == r.value.subject.washVolume > 0
      && r.value.blockRefs == MapOfRefs(j.blockRefs)
  {
    if || j.chainId != BASE_CHAIN_ID || j.periodStart != input.periodStart || j.periodEnd != input.periodEnd
       || j.sourceClaimId == ZeroHash || j.claimId == ZeroHash
    {
      return Err("seller proof: claim identity mismatch");
    }
    var subjects := SubjectsFor(j.subjects, input.seller);
    if subjects == [] {
      return Err("seller proof: claim does not prove target seller");
    }
    if |subjects| > 1 {
      return Err("seller proof: duplicate target seller in claim");
    }
    var settlements :- CollectSettlements(subjects[0]);
    var blockRefs :- CollectRefs(j.blockRefs);
    return Ok(Collected(subjects[0], settlements, blockRefs));
  }

  /** On a proper journal the re-check refuses only a claim for another period, source or seller: the duplicate,
      total, overflow and conflict errors cannot occur. */
  lemma ProperIsValid(j: WashJournal, input: SellerProofInput)
    requires Proper(j)
    ensures EvidenceValid(j, input) <==> ClaimMatches(j, input)
    ensures EvidenceValid(j, input) ==>
      SubjectsFor(j.subjects, input.seller)[0] in j.subjects &&
        SubjectsFor(j.subjects, input.seller)[0].subject == input.seller
  {
    SubjectsForUnique(j.subjects, input.seller);
    hide SubjectsFor, ProperSubject, RecordsValid;
    if SubjectsFor(j.subjects, input.seller) != [] {
      var a :| 0 <= a < |j.subjects| && j.subjects[a] == SubjectsFor(j.subjects, input.seller)[0];
      ProperSubjectIsValid(j.subjects[a]);
    }
  }

  lemma ProperSubjectIsValid(s: SubjectRecord)
    requires ProperSubject(s)
    ensures RecordsValid(s)
  {
  }

  // ── Total volume ──────────────────────────────────────────────────────

  function AgentIdSlot(seller: Address): Slot {
    Slot(seller, STAKING_SELLER_AGENT_ID_SLOT, 0)
  }

  function CounterSlot(agentId: u256): Slot {
    Slot(agentId, CHANNELS_AGENT_STATS_SLOT, AGENT_STATS_TOTAL_VOLUME_OFFSET)
  }

  /** The agent of the seller in the boundary's state; zero for a seller that is not staked. */
  function AgentId(o: Oracle, input: SellerProofInput): Result<u256> {
    var b := input.totalVolume;
    o.storage(b.header.stateRoot, STAKING_ADDRESS, AgentIdSlot(input.seller), b.agentId)
  }

  function RawCounter(o: Oracle, input: SellerProofInput, agentId: u256): Result<u256> {
    var b := input.totalVolume;
    o.storage(b.header.stateRoot, CHANNELS_ADDRESS, CounterSlot(agentId), b.totalVolume)
  }

  /** The authenticated counter of a staked seller at the period end. */
  function Counter(o: Oracle, input: SellerProofInput): Option<u128> {
    if input.totalVolume.header.number != input.periodEnd then None
    else
      match AgentId(o, input)
      case Err(_) => None
      case Ok(agentId) =>
        match RawCounter(o, input, agentId)
        case Err(_) => None
        case Ok(counter) => if agentId == 0 || counter >= U128_LIMIT then None else Some(counter)
  }

  method VerifyTotalVolumeBoundary(o: Oracle, input: SellerProofInput) returns (r: Result<(u256, u128)>)
    ensures r.Ok? <==>
      && input.totalVolume.header.number == input.periodEnd
      && AgentId(o, input).Ok? && RawCounter(o, input, AgentId(o, input).value).Ok?
      && RawCounter(o, input, AgentId(o, input).value).value < U128_LIMIT
    ensures r.Ok? ==> r.value == (AgentId(o, input).value, RawCounter(o, input, AgentId(o, input).value).value)
    ensures Counter(o, input).Some? <==> r.Ok? && r.value.0 != 0
    ensures Counter(o, input).Some? ==> r.value.1 == Counter(o, input).value
  {
    var boundary := input.totalVolume;
    if boundary.header.number != input.periodEnd {
      return Err("total volume: boundary at the wrong block");
    }
    var agentId :- o.storage(boundary.header.stateRoot, STAKING_ADDRESS, AgentIdSlot(input.seller), boundary.agentId);
    var counter :- o.storage(boundary.header.stateRoot, CHANNELS_ADDRESS, CounterSlot(agentId), boundary.totalVolume);
    if counter >= U128_LIMIT {
      return Err("total volume: counter overflow");
    }
    return Ok((agentId, counter));
  }

  method VerifyTotalVolume(o: Oracle, input: SellerProofInput, blockRefs: map<nat, Hash>)
    returns (r: Result<(u128, map<nat, Hash>)>)
    ensures r.Ok? <==>
      && Counter(o, input).Some?
      && (input.periodEnd in blockRefs ==> blockRefs[input.periodEnd] == HeaderHash(input.totalVolume.header))
    ensures r.Ok? ==>
      r.value == (Counter(o, input).value, blockRefs[input.periodEnd := HeaderHash(input.totalVolume.header)])
  {
    var end :- VerifyTotalVolumeBoundary(o, input);
    if end.0 == 0 {
      return Err("total volume: seller is not a staked agent at the period end");
    }
    var number, hash := input.totalVolume.header.number, HeaderHash(input.totalVolume.header);
    if number in blockRefs && blockRefs[number] != hash {
      return Err("total volume: conflicting boundary block hash");
    }
    return Ok((end.1, blockRefs[number := hash]));
  }

  // ── Journals of the two predicates are proper ─────────────────────────

  ghost function ClaimJournal(o: Oracle, e: SellerEvidence): Option<WashJournal> {
    match e
    case ClosedLoop(loop) => if CL.LoopHolds(o, loop) then Some(CL.LoopJournal(o, loop)) else None
    case Reciprocal(pair) => if RP.PairHolds(o, pair) then Some(RP.PairJournal(o, pair)) else None
  }

  function EvidenceBlocks(e: SellerEvidence): seq<EvidenceBlock> {
    match e
    case ClosedLoop(loop) => loop.blocks
    case Reciprocal(pair) => pair.blocks
  }

  lemma JournalRefsProper(blocks: seq<EvidenceBlock>, n: nat)
    requires DistinctNumbers(blocks)
    requires exists k :: 0 <= k < |blocks| && blocks[k].header.number == n
    ensures forall k :: 0 <= k < |JournalRefs(blocks)| ==> JournalRefs(blocks)[k].blockHash.HeaderHash?
    ensures exists k :: 0 <= k < |JournalRefs(blocks)| && JournalRefs(blocks)[k].number == n
  {
    JournalRefsExact(blocks);
    var refs, mapped := JournalRefs(blocks), Map(RefOf, blocks);
    forall k | 0 <= k < |refs|
      ensures refs[k].blockHash.HeaderHash?
    {
      assert refs[k] in multiset(refs);
      assert refs[k] in mapped;
    }
    var k :| 0 <= k < |blocks| && blocks[k].header.number == n;
    assert mapped[k] in multiset(mapped);
    assert mapped[k] in refs;
  }

  ghost predicate RowsRecorded(rows: Booking.Rows) {
    forall r :: r in rows && r.Some? ==> r.value.keys != [] && r.value.amount > 0
  }

  lemma LastRow(rows: Booking.Rows)
    requires rows != [] && RowsRecorded(rows)
    ensures RowsRecorded(rows[..|rows| - 1])
    ensures rows[|rows| - 1].Some? ==> rows[|rows| - 1].value.keys != [] && rows[|rows| - 1].value.amount > 0
  {
    assert rows[|rows| - 1] in rows;
  }

  /** Records taken from booked rows: one per row, distinct, adding up to the total. */
  lemma {:induction false} RecordsOfRows(rows: Booking.Rows, used: set<LogKey>)
    requires Booking.Claimed(rows, used) && RowsRecorded(rows)
    ensures SumBy(Map(CL.RecordOf, rows), RecordAmount) == Booking.Total(rows)
    ensures forall k :: 0 <= k < |rows| ==>
      rows[k].Some? && CL.RecordOf(rows[k]).id.SettlementHash? && CL.RecordOf(rows[k]).amount > 0
    ensures Distinct(RP.IdsOf(Map(CL.RecordOf, rows)))
  {
    if rows != [] {
      var init := rows[..|rows| - 1];
      LastRow(rows);
      RecordsOfRows(init, used);
      assert Map(CL.RecordOf, rows)[..|rows| - 1] == Map(CL.RecordOf, init);
      LastIdIsNew(rows, used);
    }
  }

  lemma LastIdIsNew(rows: Booking.Rows, used: set<LogKey>)
    requires Booking.Claimed(rows, used) && RowsRecorded(rows) && rows != []
    requires forall k :: 0 <= k < |rows| - 1 ==> rows[k].Some?
    requires Distinct(RP.IdsOf(Map(CL.RecordOf, rows[..|rows| - 1])))
    ensures Distinct(RP.IdsOf(Map(CL.RecordOf, rows)))
  {
    var init := rows[..|rows| - 1];
    var ids := RP.IdsOf(Map(CL.RecordOf, rows));
    assert ids[..|rows| - 1] == RP.IdsOf(Map(CL.RecordOf, init));
    assert rows[|rows| - 1] in rows;
    forall k | 0 <= k < |init|
      ensures ids[k] != ids[|rows| - 1]
    {
      assert init[k] in rows && init[k] in init && init[k].value.keys[0] in Booking.KeysOf(init[k]);
      assert init[k].value.keys[0] in Booking.Consumed(init);
    }
    forall i, j | 0 <= i < j < |ids|
      ensures ids[i] != ids[j]
    {
      if j < |init| {
        assert ids[..|rows| - 1][i] != ids[..|rows| - 1][j];
      }
    }
  }

  lemma LoopJournalProper(o: Oracle, loop: ClosedLoopInput)
    requires CL.LoopHolds(o, loop)
    ensures Proper(CL.LoopJournal(o, loop))
  {
    hide CL.FundRow, CL.SettleRow, CL.PathRows, Booking.Claimed, JournalRefs, CL.RecordOf, CL.LedgersHold,
      CL.ReturnsHold;
    var rows := CL.SettleRows(o, loop);
    Booking.ClaimedIff(rows, Booking.Consumed(CL.FundRows(o, loop)));
    forall r | r in rows && r.Some?
      ensures r.value.keys != [] && r.value.amount > 0
    {
      var k :| 0 <= k < |loop.settlements| && rows[k] == r;
      LoopBounds.SettleRowParts(o, loop, loop.settlements[k]);
    }
    RecordsOfRows(rows, Booking.Consumed(CL.FundRows(o, loop)));
    assert rows[0] in rows;
    SumByTerm(rows, Booking.AmountOf, 0);
    LoopPeriodEndBlock(o, loop);
    JournalRefsProper(loop.blocks, loop.periodEnd);
    JournalRefsExact(loop.blocks);
  }

  lemma LoopPeriodEndBlock(o: Oracle, loop: ClosedLoopInput)
    requires CL.LoopHolds(o, loop)
    ensures exists k :: 0 <= k < |loop.blocks| && loop.blocks[k].header.number == loop.periodEnd
  {
    hide CL.FundRows, CL.SettleRows, CL.PathRows, CL.FundsHold, CL.SettlementsHold, CL.ReturnsHold, CL.LedgerCheck;
    assert CL.LedgerHolds(o, loop, 0);
    assert loop.blocks[loop.ledgers[0].end.block].header.number == loop.periodEnd;
  }

  /** Records of one member of a pair add up to what it sold. */
  lemma {:induction false} MemberRecords(rows: Booking.Rows, party: Address)
    requires RowsRecorded(rows)
    ensures SumBy(RP.RecordsFor(rows, party), RecordAmount) == Booking.PartyTotal(rows, party)
    ensures forall k :: 0 <= k < |RP.RecordsFor(rows, party)| ==>
      RP.RecordsFor(rows, party)[k].id.SettlementHash? && RP.RecordsFor(rows, party)[k].amount > 0
  {
    hide RowsRecorded;
    if rows != [] {
      LastRow(rows);
      MemberRecords(rows[..|rows| - 1], party);
      var before, after := RP.RecordsFor(rows[..|rows| - 1], party), RP.RecordsFor(rows, party);
      if after != before {
        assert after[..|after| - 1] == before;
      }
    }
  }

  /** One member of a pair is a proper subject. */
  lemma MemberIsProper(rows: Booking.Rows, s: SubjectRecord)
    requires RowsRecorded(rows) && s.settlements == RP.RecordsFor(rows, s.subject)
    requires s.washVolume == Booking.PartyTotal(rows, s.subject) > 0 && Distinct(RP.IdsOf(s.settlements))
    ensures ProperSubject(s)
  {
    hide RowsRecorded, RP.RecordsFor, SumBy;
    MemberRecords(rows, s.subject);
  }

  lemma PairJournalProper(o: Oracle, pair: ReciprocalInput)
    requires RP.PairHolds(o, pair)
    ensures Proper(RP.PairJournal(o, pair))
  {
    hide RP.SaleRow, RP.DepositRows, RP.SelfFinanced, Booking.Claimed, JournalRefs, RP.RecordsFor, SumBy, ProperSubject;
    var rows := RP.SaleRows(o, pair);
    forall r | r in rows && r.Some?
      ensures r.value.keys != [] && r.value.amount > 0
    {
      var k :| 0 <= k < |pair.settlements| && rows[k] == r;
      RP.SaleRowParts(o, pair, pair.settlements[k]);
    }
    RP.MembersAreDisjoint(o, pair);
    RP.BothDirectionsSell(o, pair);
    MemberIsProper(rows, RP.PairJournal(o, pair).subjects[0]);
    MemberIsProper(rows, RP.PairJournal(o, pair).subjects[1]);
    PairPeriodEndBlock(o, pair);
    JournalRefsProper(pair.blocks, pair.periodEnd);
    JournalRefsExact(pair.blocks);
  }

  lemma PairPeriodEndBlock(o: Oracle, pair: ReciprocalInput)
    requires RP.PairHolds(o, pair)
    ensures exists k :: 0 <= k < |pair.blocks| && pair.blocks[k].header.number == pair.periodEnd
  {
    hide RP.SaleRows, RP.DepositRows, RP.SelfFinanced;
    assert pair.blocks[pair.ledgerA.end.block].header.number == pair.periodEnd;
  }

  lemma ClaimJournalProper(o: Oracle, e: SellerEvidence)
    requires ClaimJournal(o, e).Some?
    ensures Proper(ClaimJournal(o, e).value)
    ensures ClaimJournal(o, e).value.blockRefs == JournalRefs(EvidenceBlocks(e))
    ensures DistinctNumbers(EvidenceBlocks(e)) && |EvidenceBlocks(e)| <= MAX_BLOCK_REFS
  {
    hide JournalRefs, Proper;
    match e {
      case ClosedLoop(loop) => LoopJournalProper(o, loop);
      case Reciprocal(pair) => PairJournalProper(o, pair);
    }
  }

  // ── The whole seller verification ─────────────────────────────────────

  /** The boundary header is the evidence header of the period-end block. */
  ghost predicate BoundaryInEvidence(input: SellerProofInput) {
    exists k :: 0 <= k < |EvidenceBlocks(input.evidence)| &&
      EvidenceBlocks(input.evidence)[k].header == input.totalVolume.header
  }

  /** Exactly the inputs that can be proven. */
  ghost predicate SellerAccepts(o: Oracle, input: SellerProofInput) {
    && input.seller != ZERO_ADDRESS && 0 < input.periodStart <= input.periodEnd
    && ClaimJournal(o, input.evidence).Some?
    && ClaimMatches(ClaimJournal(o, input.evidence).value, input)
    && Counter(o, input).Some?
    && BoundaryInEvidence(input)
  }

  ghost predicate Commits(o: Oracle, input: SellerProofInput, v: VerifiedSeller) {
    && ClaimJournal(o, input.evidence).Some? && Counter(o, input).Some?
    && var j := ClaimJournal(o, input.evidence).value;
    && v.blockRefs == j.blockRefs && v.blockRefs != []
    && exists a :: 0 <= a < |j.subjects| && j.subjects[a].subject == input.seller && v.journal == SellerJournal(
         SELLER_JOURNAL_SCHEMA_VERSION, BASE_CHAIN_ID, input.periodStart, input.periodEnd, input.seller,
         j.subjects[a].washVolume, Counter(o, input).value,
         EvidenceDigest(input.seller, input.periodStart, input.periodEnd, MapOfRecords(j.subjects[a].settlements)),
         |EvidenceBlocks(input.evidence)|, CHUNK_SIZE, |Chunks(j.blockRefs, CHUNK_SIZE)|, Root(Leaves(j.blockRefs)))
  }

  /** A hash found in the map at the period end is the boundary's exactly when the boundary header is in evidence. */
  lemma BoundaryIsEvidenceBlock(blocks: seq<EvidenceBlock>, header: Header)
    requires DistinctNumbers(blocks)
    requires exists k :: 0 <= k < |JournalRefs(blocks)| && JournalRefs(blocks)[k].number == header.number
    ensures var m := MapOfRefs(JournalRefs(blocks));
      && header.number in m
      && (m[header.number] == HeaderHash(header) <==> exists k :: 0 <= k < |blocks| && blocks[k].header == header)
  {
    JournalRefsExact(blocks);
    var refs, mapped := JournalRefs(blocks), Map(RefOf, blocks);
    MapOfRefsEntries(refs);
    var k :| 0 <= k < |refs| && refs[k].number == header.number;
    assert refs[k] in multiset(refs) && refs[k] in mapped;
    var b :| 0 <= b < |mapped| && mapped[b] == refs[k];
    if exists c :: 0 <= c < |blocks| && blocks[c].header == header {
      var c :| 0 <= c < |blocks| && blocks[c].header == header;
      if b < c {} else if c < b {}
      assert b == c;
    }
  }

  /** From collected settlements and references to the committed journal: with nonempty strictly sorted references
      nothing here can fail. */
  method CommitJournal(input: SellerProofInput, volume: u128, total: u128, settlements: map<Hash, u128>,
                       blockMap: map<nat, Hash>, ghost refs: seq<BlockRef>)
    returns (r: Result<VerifiedSeller>)
    requires blockMap == MapOfRefs(refs) && StrictlySorted(refs)
    requires 1 <= |refs| <= MAX_BLOCK_REFS && forall k :: 0 <= k < |refs| ==> refs[k].blockHash.HeaderHash?
    ensures r.Ok? && r.value == VerifiedSeller(
      SellerJournal(
        SELLER_JOURNAL_SCHEMA_VERSION, BASE_CHAIN_ID, input.periodStart, input.periodEnd, input.seller, volume, total,
        EvidenceDigest(input.seller, input.periodStart, input.periodEnd, settlements),
        |refs|, CHUNK_SIZE, |Chunks(refs, CHUNK_SIZE)|, Root(Leaves(refs))),
      refs)
  {
    hide Chunks, Leaves, MapOfRefs, Root, EmittedChunk;
    RefsThroughMap(refs);
    var blockRefs := RefsOfMap(blockMap);
    ChunksPartition(blockRefs, CHUNK_SIZE);
    assert ValidRefs(blockRefs);
    var chunked := BlockAuthenticationChunks(blockRefs);
    if chunked.Err? {
      return Err("seller proof: invalid block references");
    }
    var chunks := chunked.value;
    var root := MerkleRoot(Leaves(blockRefs));
    if root.None? {
      return Err("seller proof: no block references");
    }
    if |blockRefs| >= U32_LIMIT {
      return Err("seller proof: too many block references");
    }
    if |chunks| >= U32_LIMIT {
      return Err("seller proof: too many block chunks");
    }
    return Ok(VerifiedSeller(
      SellerJournal(
        SELLER_JOURNAL_SCHEMA_VERSION, BASE_CHAIN_ID, input.periodStart, input.periodEnd, input.seller, volume, total,
        EvidenceDigest(input.seller, input.periodStart, input.periodEnd, settlements),
        |blockRefs|, CHUNK_SIZE, |chunks|, root.value),
      blockRefs));
  }

  /** Either predicate's verification of the evidence. */
  method VerifyClaim(o: Oracle, e: SellerEvidence) returns (r: Result<WashJournal>)
    ensures r.Ok? <==> ClaimJournal(o, e).Some?
    ensures r.Ok? ==> r.value == ClaimJournal(o, e).value
  {
    hide CL.LoopHolds, CL.LoopJournal, RP.PairHolds, RP.PairJournal;
    match e {
      case ClosedLoop(loop) => r := CL.VerifyClosedLoop(o, loop);
      case Reciprocal(pair) => r := RP.VerifyReciprocal(o, pair);
    }
  }

  /** The verifier, with every check of the original: it accepts exactly `SellerAccepts` and commits exactly
      `Commits`, so none of its other error branches is reachable for a claim that verified. */
  method VerifySeller(o: Oracle, input: SellerProofInput) returns (r: Result<VerifiedSeller>)
    ensures r.Ok? <==> SellerAccepts(o, input)
    ensures r.Ok? ==> Commits(o, input, r.value)
  {
    hide ClaimJournal, JournalRefs, Chunks, Leaves, MapOfRefs, MapOfRecords, Counter, StrictlySorted, ProperSubject,
      EvidenceValid, SumValues;
    if input.seller == ZERO_ADDRESS || input.periodStart == 0 || input.periodStart > input.periodEnd {
      return Err("seller proof: invalid input");
    }
    var journal :- VerifyClaim(o, input.evidence);
    ClaimJournalProper(o, input.evidence);
    ProperIsValid(journal, input);
    var collected :- ValidateEvidence(journal, input);
    if input.totalVolume.header.number == input.periodEnd {
      BoundaryIsEvidenceBlock(EvidenceBlocks(input.evidence), input.totalVolume.header);
    }
    CounterNeedsPeriodEnd(o, input);
    var total :- VerifyTotalVolume(o, input, collected.blockRefs);
    var summed := SumSettlements(collected.settlements);
    if summed.Err? {
      return Err("seller proof: volume overflow");
    }
    var volume := summed.value;
    if volume == 0 {
      return Err("seller proof: zero final volume");
    }
    assert total.1 == collected.blockRefs;
    JournalRefsExact(EvidenceBlocks(input.evidence));
    r := CommitJournal(input, volume, total.0, collected.settlements, total.1, journal.blockRefs);
  }

  lemma CounterNeedsPeriodEnd(o: Oracle, input: SellerProofInput)
    ensures Counter(o, input).Some? ==> input.totalVolume.header.number == input.periodEnd
  {
  }

  // ── What a committed journal says ─────────────────────────────────────

  /** The chunk count is the least that holds one reference per evidence block, at most 656. */
  lemma CommittedChunkCount(o: Oracle, input: SellerProofInput, v: VerifiedSeller)
    requires Commits(o, input, v)
    ensures var blocks, chunks := v.journal.blockReferenceCount, v.journal.blockAuthenticationChunkCount;
      && 1 <= blocks == |v.blockRefs| <= MAX_BLOCK_REFS
      && CHUNK_SIZE * chunks < blocks + CHUNK_SIZE && blocks <= CHUNK_SIZE * chunks && 1 <= chunks <= 656
  {
    hide ClaimJournal, MapOfRecords, Root, Leaves, Chunks, Counter, JournalRefs;
    ClaimJournalProper(o, input.evidence);
    JournalRefsExact(EvidenceBlocks(input.evidence));
    ChunkCount(ClaimJournal(o, input.evidence).value.blockRefs, CHUNK_SIZE);
  }

  /** The settlements one member of a pair proves. */
  ghost function MemberRecordsOf(o: Oracle, pair: ReciprocalInput, member: Address): map<Hash, u128> {
    MapOfRecords(RP.RecordsFor(RP.SaleRows(o, pair), member))
  }

  /** The counter is read from the boundary alone. */
  lemma SameCounter(o: Oracle, x: SellerProofInput, y: SellerProofInput)
    requires x.seller == y.seller && x.periodEnd == y.periodEnd && x.totalVolume == y.totalVolume
    ensures Counter(o, x) == Counter(o, y)
  {
  }

  /** The members of a pair prove disjoint settlements: two seller proofs over the same evidence, one for each member,
      commit to maps without a common settlement, and their volumes add up to everything the pair sold. */
  lemma MemberProofsAreDisjoint(o: Oracle, x: SellerProofInput, y: SellerProofInput, v: VerifiedSeller,
                                w: VerifiedSeller)
    requires x.evidence == y.evidence && x.evidence.Reciprocal?
    requires x.seller == x.evidence.pair.addressA && y.seller == x.evidence.pair.addressB
    requires Commits(o, x, v) && Commits(o, y, w)
    ensures var pair := x.evidence.pair;
      var m, n := MemberRecordsOf(o, pair, pair.addressA), MemberRecordsOf(o, pair, pair.addressB);
      && v.journal.evidenceDigest == EvidenceDigest(x.seller, x.periodStart, x.periodEnd, m)
      && w.journal.evidenceDigest == EvidenceDigest(y.seller, y.periodStart, y.periodEnd, n)
      && m.Keys !! n.Keys
      && v.journal.provenWashVolume + w.journal.provenWashVolume == Booking.Total(RP.SaleRows(o, pair))
  {
    hide RP.PairHolds, RP.SaleRows, RP.RecordsFor, JournalRefs, MapOfRecords, Counter, Root, Leaves, Chunks;
    var pair := x.evidence.pair;
    RP.MembersAreDisjoint(o, pair);
    PairWellFormed(o, pair);
    var j := RP.PairJournal(o, pair);
    KeysOfRecords(j.subjects[0].settlements);
    KeysOfRecords(j.subjects[1].settlements);
  }

  lemma PairWellFormed(o: Oracle, pair: ReciprocalInput)
    requires RP.PairHolds(o, pair)
    ensures pair.addressA < pair.addressB
  {
  }

  lemma {:induction false} KeysOfRecords(records: seq<SettlementRecord>)
    ensures forall id :: id in MapOfRecords(records) <==> id in RP.IdsOf(records)
  {
    if records != [] {
      var init, last := records[..|records| - 1], records[|records| - 1];
      KeysOfRecords(init);
      SnocIds(init, last);
      assert records == init + [last];
    }
  }
}
