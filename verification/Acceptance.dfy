/** The seller proof, stated once more from its input alone: which claims about which seller and period it accepts,
    where the counter is read, and every field of the journal it commits. */
module Acceptance {
  import opened Prelude
  import opened Hashing
  import opened Evidence
  import opened Journal
  import opened Seller
  import opened Merkle
  import Booking
  import CL = ClosedLoop
  import RP = Reciprocal
  import Conservation
  import PairConservation
  import LoopBounds

  /** The agent of the seller is not zero, and its total-volume counter is `total`, both read under the state root of
      the period-end block. */
  ghost predicate Counts(o: Oracle, input: SellerProofInput, total: nat) {
    && input.totalVolume.header.number == input.periodEnd && total < 0x1_0000_0000_0000_0000_0000_0000_0000_0000
    && exists agent: nat :: agent != 0 && ReadsCounter(o, input, agent, total)
  }

  ghost predicate ReadsCounter(o: Oracle, input: SellerProofInput, agent: nat, total: nat) {
    var b := input.totalVolume;
    && o.storage(b.header.stateRoot, 0x3652E6B22919bd322A25723B94BB207602E5c8e6, Slot(input.seller, 4, 0), b.agentId)
      == Ok(agent)
    && o.storage(b.header.stateRoot, 0xBA66d3b4fbCf472F6F11D6F9F96aaCE96516F09d, Slot(agent, 11, 1), b.totalVolume)
      == Ok(total)
  }

  lemma CounterIff(o: Oracle, input: SellerProofInput, total: nat)
    ensures Counter(o, input) == Some(total) <==> Counts(o, input, total)
  {
    if Counter(o, input) == Some(total) {
      assert ReadsCounter(o, input, AgentId(o, input).value, total);
    }
    if Counts(o, input, total) {
      var agent: nat :| agent != 0 && ReadsCounter(o, input, agent, total);
      assert AgentId(o, input) == Ok(agent);
      assert RawCounter(o, input, agent) == Ok(total);
    }
  }

  /** The evidence is an accepted claim about this seller and period, from a named source. */
  ghost predicate Shows(o: Oracle, input: SellerProofInput) {
    match input.evidence
    case ClosedLoop(loop) =>
      && Conservation.ConservedLoop(o, loop)
      && loop.periodStart == input.periodStart && loop.periodEnd == input.periodEnd && loop.sourceClaimId != ZeroHash
      && loop.seller == input.seller
    case Reciprocal(pair) =>
      && PairConservation.ConservedPair(o, pair)
      && pair.periodStart == input.periodStart && pair.periodEnd == input.periodEnd && pair.sourceClaimId != ZeroHash
      && (pair.addressA == input.seller || pair.addressB == input.seller)
  }

  lemma ShowsIff(o: Oracle, input: SellerProofInput)
    ensures Shows(o, input) <==>
      ClaimJournal(o, input.evidence).Some? && ClaimMatches(ClaimJournal(o, input.evidence).value, input)
  {
    match input.evidence {
      case ClosedLoop(loop) => LoopShowsIff(o, input, loop);
      case Reciprocal(pair) => PairShowsIff(o, input, pair);
    }
  }

  lemma LoopShowsIff(o: Oracle, input: SellerProofInput, loop: ClosedLoopInput)
    requires input.evidence == SellerEvidence.ClosedLoop(loop)
    ensures Shows(o, input) <==>
      ClaimJournal(o, input.evidence).Some? && ClaimMatches(ClaimJournal(o, input.evidence).value, input)
  {
    hide CL.LoopHolds, Conservation.ConservedLoop, JournalRefs, CL.SettleRows, Booking.Total, CL.RecordOf;
    Conservation.LoopHoldsIff(o, loop);
    if CL.LoopHolds(o, loop) {
      LoopSubject(o, loop);
    }
  }

  lemma LoopSubject(o: Oracle, loop: ClosedLoopInput)
    requires CL.LoopHolds(o, loop)
    ensures var j := CL.LoopJournal(o, loop);
      && |j.subjects| == 1 && j.subjects[0].subject == loop.seller
      && j.periodStart == loop.periodStart && j.periodEnd == loop.periodEnd && j.sourceClaimId == loop.sourceClaimId
  {
    hide CL.LoopHolds, JournalRefs, CL.SettleRows, CL.RecordOf;
  }

  lemma PairShowsIff(o: Oracle, input: SellerProofInput, pair: ReciprocalInput)
    requires input.evidence == SellerEvidence.Reciprocal(pair)
    ensures Shows(o, input) <==>
      ClaimJournal(o, input.evidence).Some? && ClaimMatches(ClaimJournal(o, input.evidence).value, input)
  {
    hide RP.PairHolds, PairConservation.ConservedPair, RP.PairJournal;
    PairConservation.PairHoldsIff(o, pair);
    if RP.PairHolds(o, pair) {
      PairSubjects(o, pair);
    }
  }

  lemma PairSubjects(o: Oracle, pair: ReciprocalInput)
    requires RP.PairHolds(o, pair)
    ensures var j := RP.PairJournal(o, pair);
      && |j.subjects| == 2 && j.subjects[0].subject == pair.addressA && j.subjects[1].subject == pair.addressB
      && j.periodStart == pair.periodStart && j.periodEnd == pair.periodEnd && j.sourceClaimId == pair.sourceClaimId
  {
    hide RP.SaleRows, RP.DepositRows, RP.RecordsFor, JournalRefs, RP.SelfFinanced, RP.Balance;
  }

  /** Exactly what the seller proof accepts: a named seller and period, an accepted claim about them, a counter at the
      period end, and the header it is read under among the evidence. */
  lemma SellerAcceptsIff(o: Oracle, input: SellerProofInput)
    ensures SellerAccepts(o, input) <==>
      && input.seller != 0 && 1 <= input.periodStart <= input.periodEnd
      && Shows(o, input)
      && (exists total: nat :: Counts(o, input, total))
      && exists b :: b in EvidenceBlocks(input.evidence) && b.header == input.totalVolume.header
  {
    hide ClaimJournal, ClaimMatches, Shows, Counter, Counts;
    ShowsIff(o, input);
    if Counter(o, input).Some? {
      CounterIff(o, input, Counter(o, input).value);
    }
    if total: nat :| Counts(o, input, total) {
      CounterIff(o, input, total);
    }
    var blocks := EvidenceBlocks(input.evidence);
    if BoundaryInEvidence(input) {
      var k :| 0 <= k < |blocks| && blocks[k].header == input.totalVolume.header;
      assert blocks[k] in blocks;
    }
  }

  /** The settlement records a seller proof over this evidence commits. */
  function Records(o: Oracle, input: SellerProofInput): seq<SettlementRecord> {
    match input.evidence
    case ClosedLoop(loop) => Map((r: LogRef) => LoopBounds.RecordAt(o, loop, r), loop.settlements)
    case Reciprocal(pair) => PairConservation.RecordsOf(o, pair, input.seller)
  }

  function Volume(o: Oracle, input: SellerProofInput): nat {
    match input.evidence
    case ClosedLoop(loop) => SumBy(loop.settlements, Conservation.SettledAmount(o, loop))
    case Reciprocal(pair) => SumBy(pair.settlements, PairConservation.SoldBy(o, pair, input.seller))
  }

  /** Every field of a committed journal, spelled out. */
  ghost predicate Spelled(o: Oracle, input: SellerProofInput, v: VerifiedSeller) {
    var j := v.journal;
    && j.schemaVersion == 1 && j.chainId == 8_453
    && j.seller == input.seller && j.periodStart == input.periodStart && j.periodEnd == input.periodEnd
    && Counter(o, input) == Some(j.totalSellerVolume) && j.provenWashVolume == Volume(o, input) > 0
    && j.evidenceDigest
      == EvidenceDigest(input.seller, input.periodStart, input.periodEnd, MapOfRecords(Records(o, input)))
    && v.blockRefs == JournalRefs(EvidenceBlocks(input.evidence)) && v.blockRefs != []
    && j.blockReferenceCount == |EvidenceBlocks(input.evidence)|
    && j.blockAuthenticationChunkSize == 100 && j.blockAuthenticationChunkCount == |Chunks(v.blockRefs, 100)|
    && j.blockAuthenticationRoot == Root(Leaves(v.blockRefs))
  }

  /** What is committed is exactly that, with the counter as read above. */
  lemma CommittedIs(o: Oracle, input: SellerProofInput, v: VerifiedSeller)
    requires SellerAccepts(o, input) && Commits(o, input, v)
    ensures Spelled(o, input, v) && Counts(o, input, v.journal.totalSellerVolume)
  {
    hide Counts, Root, Leaves, Chunks, MapOfRecords, JournalRefs, Volume, Records, SellerAccepts, Commits;
    match input.evidence {
      case ClosedLoop(loop) => LoopCommits(o, input, loop, v);
      case Reciprocal(pair) => PairCommits(o, input, pair, v);
    }
    CounterIff(o, input, v.journal.totalSellerVolume);
  }

  lemma LoopCommits(o: Oracle, input: SellerProofInput, loop: ClosedLoopInput, v: VerifiedSeller)
    requires input.evidence == SellerEvidence.ClosedLoop(loop) && SellerAccepts(o, input) && Commits(o, input, v)
    ensures Spelled(o, input, v)
  {
    hide CL.LoopHolds, CL.LoopJournal, JournalRefs, Counter, MapOfRecords, Root, Leaves, Chunks, LoopBounds.RecordAt,
      BoundaryInEvidence, ClaimMatches, SumBy;
    var volume := LoopBounds.JournalVolume(o, loop);
  }

  lemma PairCommits(o: Oracle, input: SellerProofInput, pair: ReciprocalInput, v: VerifiedSeller)
    requires input.evidence == SellerEvidence.Reciprocal(pair) && SellerAccepts(o, input) && Commits(o, input, v)
    ensures Spelled(o, input, v)
  {
    hide RP.PairHolds, RP.PairJournal, JournalRefs, Counter, MapOfRecords, Root, Leaves, Chunks,
      PairConservation.RecordsOf, BoundaryInEvidence, ClaimMatches, SumBy;
    PairConservation.PairJournalIs(o, pair);
    BothSell(o, pair);
  }

  lemma BothSell(o: Oracle, pair: ReciprocalInput)
    requires RP.PairHolds(o, pair)
    ensures forall k :: 0 <= k < |RP.PairJournal(o, pair).subjects| ==>
      RP.PairJournal(o, pair).subjects[k].washVolume > 0
  {
    hide RP.SaleRows, RP.DepositRows, RP.RecordsFor, JournalRefs, RP.SelfFinanced, RP.Balance;
    RP.BothDirectionsSell(o, pair);
  }

  lemma OneChunk(refs: seq<BlockRef>)
    requires 1 <= |refs| <= 100
    ensures |Chunks(refs, 100)| == 1 && Leaves(refs) == [LeafHash(0, refs)] && Root(Leaves(refs)) == LeafHash(0, refs)
  {
  }

  lemma MapOfOne(r: SettlementRecord)
    ensures MapOfRecords([r]) == map[r.id := r.amount]
  {
    assert [r][..0] == [];
  }

  /** With one settlement and at most 100 blocks the journal is one expression. */
  lemma SpelledOnce(o: Oracle, input: SellerProofInput, v: VerifiedSeller, own: SettlementRecord, refs: seq<BlockRef>)
    requires Spelled(o, input, v) && Records(o, input) == [own] && Volume(o, input) == own.amount
    requires JournalRefs(EvidenceBlocks(input.evidence)) == refs && |EvidenceBlocks(input.evidence)| == |refs| <= 100
    ensures v == VerifiedSeller(
      SellerJournal(
        1, 8_453, input.periodStart, input.periodEnd, input.seller, own.amount, v.journal.totalSellerVolume,
        EvidenceDigest(input.seller, input.periodStart, input.periodEnd, map[own.id := own.amount]),
        |refs|, 100, 1, LeafHash(0, refs)),
      refs)
  {
    hide Records, Volume, JournalRefs, EvidenceBlocks, Chunks, Leaves, Root, MapOfRecords, Counter;
    OneChunk(refs);
    MapOfOne(own);
  }
}
