/** The smallest reciprocal pair as real encoded receipts: one sale each way and at most one deposit from within the
    pair. For every payer, recipient, credited and named member, signer, status, amount and balance it is accepted
    exactly when the rules of the pair hold. */
module PairExample {
  import opened Prelude
  import opened Hashing
  import Rlp
  import opened Receipts
  import opened Evidence
  import opened Decoding
  import opened Reciprocal
  import opened PairConservation
  import opened Journal
  import opened Seller
  import opened Merkle
  import opened Samples
  import LoopTheorems
  import Acceptance

  const A: Address := 1
  const B: Address := 2

  /** What varies: what each member sells, whether a deposit is claimed and for whom, what its logs say and who signed,
      the balances and the counters of the two members. */
  datatype Plan = Plan(
    sellsA: u128, sellsB: u128,
    claimed: bool, member: Address, status: u64, payer: Address, recipient: Address, credited: Address, signer: Address,
    moved: u128, deposited: u128,
    balanceA: u256, balanceB: u256, counterA: u256, counterB: u256)

  ghost predicate Sensible(p: Plan) {
    p.payer < ADDRESS_LIMIT && p.recipient < ADDRESS_LIMIT && p.credited < ADDRESS_LIMIT
  }

  function DepositLogs(p: Plan): seq<ParsedLog> {
    [TransferLog(p.payer, p.recipient, p.moved), DepositedLog(p.credited, p.deposited)]
  }

  function SaleBlockA(p: Plan): EvidenceBlock {
    BlockOf(1, 10, 1, [SettledLog(B, A, p.sellsA)])
  }

  function SaleBlockB(p: Plan): EvidenceBlock {
    BlockOf(2, 20, 1, [SettledLog(A, B, p.sellsB)])
  }

  function DepositBlock(p: Plan): EvidenceBlock {
    BlockOf(3, 30, p.status, DepositLogs(p))
  }

  function Blocks(p: Plan): seq<EvidenceBlock> {
    [SaleBlockA(p), SaleBlockB(p), DepositBlock(p)]
  }

  lemma BlocksAre(p: Plan)
    ensures SaleBlockA(p).header == HeaderOf(1, 10) && SaleBlockB(p).header == HeaderOf(2, 20)
    ensures DepositBlock(p).header == HeaderOf(3, 30)
    ensures forall b :: b in Blocks(p) ==> IsSample(b)
  {
    hide BlockOf, IsSample, SettledLog, DepositLogs;
    SampleParts(1, 10, 1, [SettledLog(B, A, p.sellsA)]);
    SampleParts(2, 20, 1, [SettledLog(A, B, p.sellsB)]);
    SampleParts(3, 30, p.status, DepositLogs(p));
  }

  function DepositClaim(p: Plan): PairDepositEvidence {
    PairDepositEvidence(p.member, Ref(2, 0), Ref(2, 1))
  }

  function Pair(p: Plan): ReciprocalInput {
    ReciprocalInput(
      8_453, 1, 3, Word(1), A, B, Blocks(p),
      [Ref(0, 0), Ref(1, 0)],
      if p.claimed then [DepositClaim(p)] else [],
      BuyerLedger(StateRead(2, StorageProof([], []))),
      BuyerLedger(StateRead(2, StorageProof([], []))))
  }

  /** What the claim lists. */
  lemma PairIs(p: Plan)
    ensures var c := Pair(p);
      && c.settlements == [Ref(0, 0), Ref(1, 0)] && c.internalDeposits == (if p.claimed then [DepositClaim(p)] else [])
      && c.blocks == Blocks(p) && c.periodStart == 1 && c.periodEnd == 3 && c.addressA == 1 && c.addressB == 2
      && c.ledgerA == c.ledgerB == BuyerLedger(StateRead(2, StorageProof([], []))) && c.sourceClaimId == Word(1)
      && Framed(c)
  {
  }

  /** The storage at the period end: the balances, the agents of the members, and their counters. */
  function Stored(p: Plan, account: Address, slot: Slot): Result<u256> {
    if account == 0x0F7a3a8f4Da01637d1202bb5443fcF7F88F99fD2 && slot == Slot(1, 9, 0) then Ok(p.balanceA)
    else if account == 0x0F7a3a8f4Da01637d1202bb5443fcF7F88F99fD2 && slot == Slot(2, 9, 0) then Ok(p.balanceB)
    else if account == 0x3652E6B22919bd322A25723B94BB207602E5c8e6 && slot == Slot(1, 4, 0) then Ok(7)
    else if account == 0x3652E6B22919bd322A25723B94BB207602E5c8e6 && slot == Slot(2, 4, 0) then Ok(8)
    else if account == 0xBA66d3b4fbCf472F6F11D6F9F96aaCE96516F09d && slot == Slot(7, 11, 1) then Ok(p.counterA)
    else if account == 0xBA66d3b4fbCf472F6F11D6F9F96aaCE96516F09d && slot == Slot(8, 11, 1) then Ok(p.counterB)
    else Err("not proven")
  }

  ghost function World(p: Plan): Oracle {
    WorldOf(Blocks(p), p.signer, 3, (account: Address, slot: Slot) => Stored(p, account, slot))
  }

  // ── What the references find ──────────────────────────────────────────

  lemma Finds(p: Plan)
    requires Sensible(p)
    ensures var chain := Chain(World(p), Pair(p));
      && Found(chain, Ref(0, 0)) == Some(Event(1, 5, 0, 10, SettledLog(B, A, p.sellsA)))
      && Found(chain, Ref(1, 0)) == Some(Event(2, 5, 0, 20, SettledLog(A, B, p.sellsB)))
      && Found(chain, Ref(2, 0)) == (if p.status == 1 then Some(Event(3, 5, 0, 30, DepositLogs(p)[0])) else None)
      && Found(chain, Ref(2, 1)) == (if p.status == 1 then Some(Event(3, 5, 1, 30, DepositLogs(p)[1])) else None)
  {
    hide World, BlockOf, DepositLogs, SettledLog, Short, Found;
    var chain := Chain(World(p), Pair(p));
    Logs(p);
    FindsSample(chain, 0, 1, 10, 1, [SettledLog(B, A, p.sellsA)], 0);
    FindsSample(chain, 1, 2, 20, 1, [SettledLog(A, B, p.sellsB)], 0);
    FindsSample(chain, 2, 3, 30, p.status, DepositLogs(p), 0);
    FindsSample(chain, 2, 3, 30, p.status, DepositLogs(p), 1);
  }

  lemma Logs(p: Plan)
    requires Sensible(p)
    ensures Short(SettledLog(B, A, p.sellsA)) && Short(SettledLog(A, B, p.sellsB))
    ensures |DepositLogs(p)| == 2 && Short(DepositLogs(p)[0]) && Short(DepositLogs(p)[1])
  {
    hide TransferLog, SettledLog, DepositedLog, Short;
    SettledSays(B, A, p.sellsA);
    SettledSays(A, B, p.sellsB);
    TransferSays(p.payer, p.recipient, p.moved);
    DepositedSays(p.credited, p.deposited);
  }

  // ── Rules ─────────────────────────────────────────────────────────────

  /** The deposit: paid and signed by a member, to the deposits contract, credited to the named member for the same
      amount. */
  predicate DepositRule(p: Plan) {
    && p.status == 1 && (p.payer == A || p.payer == B) && p.recipient == DEPOSITS && p.signer == p.payer
    && (p.member == A || p.member == B) && p.credited == p.member && p.deposited == p.moved > 0
  }

  function Internal(p: Plan): nat {
    if p.claimed then p.moved else 0
  }

  /** Self-financing: what is left and what was sold exceeds the deposits by at most a tenth of what was sold. */
  predicate FinanceRule(p: Plan) {
    ((p.balanceA + p.balanceB + p.sellsA + p.sellsB) * 10_000) % U256_LIMIT
      <= Internal(p) * 10_000 + (p.sellsA + p.sellsB) * 1_000
  }

  predicate RulesHold(p: Plan) {
    && p.sellsA > 0 && p.sellsB > 0 && p.sellsA + p.sellsB < U128_LIMIT
    && p.sellsA * 10_000 >= p.sellsB * 8_000 && p.sellsB * 10_000 >= p.sellsA * 8_000
    && (p.claimed ==> DepositRule(p))
    && FinanceRule(p)
  }

  lemma PaidIff(p: Plan, payer: Address, amount: nat)
    requires Sensible(p)
    ensures Paid(World(p), Pair(p), DepositClaim(p), payer, amount)
      <==> DepositRule(p) && payer == p.payer && amount == p.moved
  {
    hide WorldOf, BlockOf, Found, IsTransfer, IsDeposit, TransferLog, DepositedLog, Signs, Short;
    var chain := Chain(World(p), Pair(p));
    Finds(p);
    TransferSays(p.payer, p.recipient, p.moved);
    DepositedSays(p.credited, p.deposited);
    if p.status == 1 {
      SignerIs(p);
      SignsSample(chain, 2, 3, 30, p.status, DepositLogs(p), 0, p.signer, payer);
    }
  }

  lemma SignerIs(p: Plan)
    ensures World(p).signer([2]) == Ok(p.signer)
  {
  }

  lemma DepositIs(p: Plan)
    requires Sensible(p)
    ensures IsPaid(World(p), Pair(p), DepositClaim(p)) <==> DepositRule(p)
  {
    hide World, Paid, Pair, DepositRule;
    forall payer, amount: nat
      ensures Paid(World(p), Pair(p), DepositClaim(p), payer, amount)
        <==> DepositRule(p) && payer == p.payer && amount == p.moved
    {
      PaidIff(p, payer, amount);
    }
    if DepositRule(p) {
      assert Paid(World(p), Pair(p), DepositClaim(p), p.payer, p.moved);
    }
  }

  lemma SaleIff(p: Plan, seller: Address, amount: nat)
    requires Sensible(p)
    ensures Sold(World(p), Pair(p), Ref(0, 0), seller, amount) <==> p.sellsA > 0 && seller == A && amount == p.sellsA
    ensures Sold(World(p), Pair(p), Ref(1, 0), seller, amount) <==> p.sellsB > 0 && seller == B && amount == p.sellsB
  {
    hide World, BlockOf, Found, IsSettlement, SettledLog, Short;
    Finds(p);
    SettledSays(B, A, p.sellsA);
    SettledSays(A, B, p.sellsB);
  }

  lemma SalesAre(p: Plan)
    requires Sensible(p)
    ensures IsSale(World(p), Pair(p), Ref(0, 0)) <==> p.sellsA > 0
    ensures IsSale(World(p), Pair(p), Ref(1, 0)) <==> p.sellsB > 0
  {
    hide World, Sold, Pair;
    forall seller, amount: nat
      ensures Sold(World(p), Pair(p), Ref(0, 0), seller, amount) <==> p.sellsA > 0 && seller == A && amount == p.sellsA
      ensures Sold(World(p), Pair(p), Ref(1, 0), seller, amount) <==> p.sellsB > 0 && seller == B && amount == p.sellsB
    {
      SaleIff(p, seller, amount);
    }
    assert p.sellsA > 0 ==> Sold(World(p), Pair(p), Ref(0, 0), A, p.sellsA);
    assert p.sellsB > 0 ==> Sold(World(p), Pair(p), Ref(1, 0), B, p.sellsB);
  }

  // ── Amounts ───────────────────────────────────────────────────────────

  lemma SoldAre(p: Plan)
    requires Sensible(p)
    ensures var (o, c) := (World(p), Pair(p));
      && SoldIn(o, c, Ref(0, 0), 1) == p.sellsA && SoldIn(o, c, Ref(0, 0), 2) == 0
      && SoldIn(o, c, Ref(1, 0), 1) == 0 && SoldIn(o, c, Ref(1, 0), 2) == p.sellsB
      && (p.status == 1 ==> PaidIn(o, c, DepositClaim(p)) == p.moved)
  {
    hide World, Pair, Found, SettledLog, TransferLog, DepositedLog, Short, Rlp.BeNat;
    Finds(p);
    SettledSays(B, A, p.sellsA);
    SettledSays(A, B, p.sellsB);
    TransferSays(p.payer, p.recipient, p.moved);
  }

  lemma SumTwo<T>(x: T, y: T, f: T -> nat)
    ensures SumBy([x, y], f) == f(x) + f(y)
  {
    assert [x, y][..1] == [x];
    SumOne(x, f);
  }

  lemma AmountsAre(p: Plan)
    requires Sensible(p)
    ensures var (o, c) := (World(p), Pair(p));
      && SumBy(c.settlements, SoldBy(o, c, 1)) == p.sellsA && SumBy(c.settlements, SoldBy(o, c, 2)) == p.sellsB
      && ((p.claimed ==> p.status == 1) ==> SumBy(c.internalDeposits, PaidAmount(o, c)) == Internal(p))
  {
    hide World, Pair, SoldIn, PaidIn;
    var (o, c) := (World(p), Pair(p));
    PairIs(p);
    SoldAre(p);
    SumTwo(Ref(0, 0), Ref(1, 0), SoldBy(o, c, 1));
    SumTwo(Ref(0, 0), Ref(1, 0), SoldBy(o, c, 2));
    SumOne(DepositClaim(p), PaidAmount(o, c));
  }

  lemma BalancesAre(p: Plan, x: nat, y: nat)
    ensures Holds(World(p), Pair(p), Pair(p).ledgerA, 1, x) <==> x == p.balanceA
    ensures Holds(World(p), Pair(p), Pair(p).ledgerB, 2, y) <==> y == p.balanceB
  {
    hide SaleBlockA, SaleBlockB, DepositBlock;
    BlocksAre(p);
  }

  lemma FinanceIs(p: Plan)
    requires Sensible(p) && (p.claimed ==> DepositRule(p))
    ensures Financed(World(p), Pair(p), p.sellsA + p.sellsB, Internal(p)) <==> FinanceRule(p)
  {
    hide World, Pair, Holds, WithinTenth, FinanceRule, DepositRule, Blocks, Sensible;
    PairIs(p);
    FinanceRuleIs(p);
    var (o, c) := (World(p), Pair(p));
    forall x: nat, y: nat
      ensures Holds(o, c, c.ledgerA, 1, x) <==> x == p.balanceA
      ensures Holds(o, c, c.ledgerB, 2, y) <==> y == p.balanceB
    {
      BalancesAre(p, x, y);
    }
    assert Holds(o, c, c.ledgerA, c.addressA, p.balanceA) && Holds(o, c, c.ledgerB, c.addressB, p.balanceB);
  }

  lemma FinanceRuleIs(p: Plan)
    ensures FinanceRule(p) <==> WithinTenth(p.balanceA, p.balanceB, p.sellsA + p.sellsB, Internal(p))
  {
  }

  // ── Acceptance ────────────────────────────────────────────────────────

  lemma BlocksGenuine(p: Plan)
    ensures Genuine(World(p), Blocks(p), 1, 3)
  {
    hide SaleBlockA, SaleBlockB, DepositBlock, IsSample, WorldOf, Genuine;
    BlocksAre(p);
    var b := Blocks(p);
    assert b[0] in b && b[1] in b && b[2] in b;
    SamplesAuthentic(b, p.signer, 3, (account: Address, slot: Slot) => Stored(p, account, slot), 1, 3);
  }

  lemma RefsAre(p: Plan)
    ensures Distinct(AllRefs(Pair(p)))
  {
    hide Pair, Blocks, Framed, Distinct;
    PairIs(p);
    var c := Pair(p);
    assert Map(LoopTheorems.Single, c.settlements) == [[Ref(0, 0)], [Ref(1, 0)]];
    assert [[Ref(0, 0)], [Ref(1, 0)]][1..] == [[Ref(1, 0)]];
    OneGroup([Ref(1, 0)]);
    if p.claimed {
      assert Map(DepositRefs, c.internalDeposits) == [[Ref(2, 0), Ref(2, 1)]];
      OneGroup([Ref(2, 0), Ref(2, 1)]);
      assert AllRefs(c) == [Ref(0, 0), Ref(1, 0), Ref(2, 0), Ref(2, 1)];
    } else {
      assert AllRefs(c) == [Ref(0, 0), Ref(1, 0)];
    }
    RefsDiffer();
  }

  lemma RefsDiffer()
    ensures Distinct([Ref(0, 0), Ref(1, 0)]) && Distinct([Ref(0, 0), Ref(1, 0), Ref(2, 0), Ref(2, 1)])
  {
  }

  lemma OneGroup(refs: seq<LogRef>)
    ensures Concat([refs]) == refs
  {
    assert [refs][1..] == [];
  }

  lemma EvidenceIs(p: Plan)
    requires Sensible(p)
    ensures var (o, c) := (World(p), Pair(p));
      && ((forall r :: r in c.settlements ==> IsSale(o, c, r)) <==> p.sellsA > 0 && p.sellsB > 0)
      && ((forall e :: e in c.internalDeposits ==> IsPaid(o, c, e)) <==> (p.claimed ==> DepositRule(p)))
  {
    hide World, Pair, IsSale, IsPaid, DepositRule, Blocks, Framed, Sensible;
    PairIs(p);
    SalesAre(p);
    DepositIs(p);
    var (o, c) := (World(p), Pair(p));
    assert c.settlements[0] in c.settlements && c.settlements[1] in c.settlements;
    if p.sellsA > 0 && p.sellsB > 0 {
      forall r | r in c.settlements
        ensures IsSale(o, c, r)
      {
        assert r == Ref(0, 0) || r == Ref(1, 0);
      }
    }
    assert p.claimed ==> c.internalDeposits[0] in c.internalDeposits;
  }

  /** The pair is accepted exactly when its rules hold. */
  lemma AcceptedIff(p: Plan)
    requires Sensible(p)
    ensures PairHolds(World(p), Pair(p)) <==> RulesHold(p)
  {
    hide PairHolds, World, Pair, Blocks, Genuine, IsSale, IsPaid, Framed, AllRefs, SumBy, SoldBy, PaidAmount, Holds,
      Sensible;
    PairHoldsIff(World(p), Pair(p));
    PairIs(p);
    BlocksGenuine(p);
    EvidenceIs(p);
    RefsAre(p);
    AmountsAre(p);
    if p.claimed ==> DepositRule(p) {
      FinanceIs(p);
    }
  }

  /** One unit each way, no deposit, and balances that bring the product to 2^256. */
  predicate Wrapping(p: Plan) {
    p.sellsA == p.sellsB == 1 && !p.claimed && p.balanceA == U256_LIMIT - 2 && p.balanceB == 0
  }

  /** Such a pair is accepted: it sold two units with no deposit from within it. */
  lemma WrappedPair(p: Plan)
    requires Sensible(p) && Wrapping(p)
    ensures var (o, c) := (World(p), Pair(p));
      && PairHolds(o, c) && c.internalDeposits == []
      && SumBy(c.settlements, SoldBy(o, c, A)) + SumBy(c.settlements, SoldBy(o, c, B)) == 2
      && !ExactlySelfFinanced(p.balanceA, p.balanceB, 2, 0)
  {
    hide PairHolds, World, Pair, SumBy, SoldBy, RulesHold, Blocks, Framed, Sensible;
    PairIs(p);
    WrapRules(p);
    AcceptedIff(p);
    AmountsAre(p);
  }

  lemma WrapRules(p: Plan)
    requires Wrapping(p)
    ensures RulesHold(p) && !ExactlySelfFinanced(p.balanceA, p.balanceB, 2, 0)
  {
    SelfFinancedWraps();
    SelfFinancedIs(p.balanceA, p.balanceB, 2, 0);
  }

  // ── The seller proofs ─────────────────────────────────────────────────

  /** A seller input around the pair, for any seller, period and boundary header. */
  function Proof(p: Plan, seller: Address, first: u64, last: u64, header: Header): SellerProofInput {
    SellerProofInput(
      seller, first, last, TotalVolumeBoundary(header, StorageProof([], []), StorageProof([], [])),
      SellerEvidence.Reciprocal(Pair(p)))
  }

  function CounterOf(p: Plan, member: Address): u256 {
    if member == A then p.counterA else p.counterB
  }

  lemma CounterIs(p: Plan, member: Address, total: nat)
    requires member == A || member == B
    ensures Acceptance.Counts(World(p), Proof(p, member, 1, 3, HeaderOf(3, 30)), total)
      <==> total == CounterOf(p, member) < U128_LIMIT
  {
    hide Pair, Blocks;
    var (o, input) := (World(p), Proof(p, member, 1, 3, HeaderOf(3, 30)));
    StorageIs(p);
    if total == CounterOf(p, member) {
      assert Acceptance.ReadsCounter(o, input, if member == A then 7 else 8, total);
    }
  }

  lemma StorageIs(p: Plan)
    ensures var (o, none) := (World(p), StorageProof([], []));
      && o.storage(Word(11), 0x3652E6B22919bd322A25723B94BB207602E5c8e6, Slot(1, 4, 0), none) == Ok(7)
      && o.storage(Word(11), 0x3652E6B22919bd322A25723B94BB207602E5c8e6, Slot(2, 4, 0), none) == Ok(8)
      && o.storage(Word(11), 0xBA66d3b4fbCf472F6F11D6F9F96aaCE96516F09d, Slot(7, 11, 1), none) == Ok(p.counterA)
      && o.storage(Word(11), 0xBA66d3b4fbCf472F6F11D6F9F96aaCE96516F09d, Slot(8, 11, 1), none) == Ok(p.counterB)
  {
    hide Blocks;
  }

  /** A seller proof over this pair goes through exactly for its two members and its period, with the period-end header
      of the evidence, when the rules of the pair hold and the member's counter fits. */
  lemma ProvenIff(p: Plan, seller: Address, first: u64, last: u64, header: Header)
    requires Sensible(p)
    ensures SellerAccepts(World(p), Proof(p, seller, first, last, header)) <==>
      && RulesHold(p) && (seller == A || seller == B) && CounterOf(p, seller) < U128_LIMIT
      && first == 1 && last == 3 && header == HeaderOf(3, 30)
  {
    hide Pair, Blocks, World, RulesHold, SellerAccepts, ConservedPair, Acceptance.Counts, PairHolds;
    var (o, input) := (World(p), Proof(p, seller, first, last, header));
    Acceptance.SellerAcceptsIff(o, input);
    AcceptedIff(p);
    PairHoldsIff(o, Pair(p));
    PairIs(p);
    EndIs(p, header);
    if seller == A || seller == B {
      CounterIs(p, seller, CounterOf(p, seller));
      if SellerAccepts(o, input) {
        HeaderNumber(o, input);
        var total: nat :| Acceptance.Counts(o, input, total);
        CounterIs(p, seller, total);
      }
    }
  }

  lemma HeaderNumber(o: Oracle, input: SellerProofInput)
    requires exists total: nat :: Acceptance.Counts(o, input, total)
    ensures input.totalVolume.header.number == input.periodEnd
  {
  }

  /** Among the evidence only the last block is block 3. */
  lemma EndIs(p: Plan, header: Header)
    ensures (exists b :: b in Blocks(p) && b.header == header) && header.number == 3 ==> header == HeaderOf(3, 30)
    ensures exists b :: b in Blocks(p) && b.header == HeaderOf(3, 30)
  {
    hide SaleBlockA, SaleBlockB, DepositBlock;
    BlocksAre(p);
    assert Blocks(p)[2] in Blocks(p);
  }

  /** The references of the blocks, by number. */
  function Refs(): seq<BlockRef> {
    [BlockRef(1, HeaderHash(HeaderOf(1, 10))), BlockRef(2, HeaderHash(HeaderOf(2, 20))),
     BlockRef(3, HeaderHash(HeaderOf(3, 30)))]
  }

  lemma RefsSorted(p: Plan)
    ensures JournalRefs(Blocks(p)) == Refs() && |Blocks(p)| == 3
  {
    hide SaleBlockA, SaleBlockB, DepositBlock, JournalRefs;
    BlocksAre(p);
    SortedAlready(Blocks(p), Refs());
  }

  /** The one settlement of a member: where it is, and its amount. */
  function Own(p: Plan, member: Address): SettlementRecord {
    if member == A then SettlementRecord(SettlementHash(8_453, 1, 5, 0), p.sellsA)
    else SettlementRecord(SettlementHash(8_453, 2, 5, 0), p.sellsB)
  }

  lemma OneRecord(p: Plan, member: Address)
    requires Sensible(p) && p.sellsA > 0 && p.sellsB > 0 && (member == A || member == B)
    ensures RecordsOf(World(p), Pair(p), member) == [Own(p, member)]
  {
    hide Pair, World, RecordIn, Own, Blocks, Framed, Sensible;
    PairIs(p);
    RecordsIn(p, member);
    var (o, c) := (World(p), Pair(p));
    var f := (r: LogRef) => RecordIn(o, c, r, member);
    var first, second := RecordIn(o, c, Ref(0, 0), member), RecordIn(o, c, Ref(1, 0), member);
    assert Map(f, c.settlements) == [first, second];
    ConcatTwo(first, second);
  }

  lemma ConcatTwo<T>(a: seq<T>, b: seq<T>)
    ensures Concat([a, b]) == a + b
  {
    assert [a, b][1..] == [b];
    assert [b][1..] == [];
    assert Concat([b]) == b;
  }

  lemma RecordsIn(p: Plan, member: Address)
    requires Sensible(p) && p.sellsA > 0 && p.sellsB > 0 && (member == A || member == B)
    ensures RecordIn(World(p), Pair(p), Ref(0, 0), member) == if member == A then [Own(p, A)] else []
    ensures RecordIn(World(p), Pair(p), Ref(1, 0), member) == if member == A then [] else [Own(p, B)]
  {
    hide Pair, World, SoldIn, Found, Blocks, SettledLog;
    Finds(p);
    SoldAre(p);
  }

  /** Its volume and records, in the words of the committed journal. */
  lemma CommittedParts(p: Plan, member: Address)
    requires Sensible(p) && p.sellsA > 0 && p.sellsB > 0 && (member == A || member == B)
    ensures var (o, input) := (World(p), Proof(p, member, 1, 3, HeaderOf(3, 30)));
      && Acceptance.Volume(o, input) == Own(p, member).amount
      && Acceptance.Records(o, input) == [Own(p, member)]
      && EvidenceBlocks(input.evidence) == Blocks(p)
  {
    hide Pair, Blocks, World, SumBy, SoldBy, RecordsOf;
    PairIs(p);
    AmountsAre(p);
    OneRecord(p, member);
  }

  /** The journal of a member, field by field. */
  function Committed(p: Plan, member: Address): VerifiedSeller
    requires CounterOf(p, member) < U128_LIMIT
  {
    VerifiedSeller(
      SellerJournal(
        1, 8_453, 1, 3, member, Own(p, member).amount, CounterOf(p, member),
        EvidenceDigest(member, 1, 3, map[Own(p, member).id := Own(p, member).amount]),
        3, 100, 1, LeafHash(0, Refs())),
      Refs())
  }

  /** That is what is committed. */
  lemma ProvenJournal(p: Plan, member: Address, v: VerifiedSeller)
    requires Sensible(p) && RulesHold(p) && (member == A || member == B) && CounterOf(p, member) < U128_LIMIT
    requires Commits(World(p), Proof(p, member, 1, 3, HeaderOf(3, 30)), v)
    ensures v == Committed(p, member)
  {
    hide Pair, Blocks, World, RulesHold, SellerAccepts, Commits, Acceptance.Counts, Acceptance.Spelled, JournalRefs,
      Refs, Own, Acceptance.Volume, Acceptance.Records, EvidenceBlocks, Sensible;
    var input := Proof(p, member, 1, 3, HeaderOf(3, 30));
    ProvenIff(p, member, 1, 3, HeaderOf(3, 30));
    Acceptance.CommittedIs(World(p), input, v);
    CounterIs(p, member, v.journal.totalSellerVolume);
    RulesMean(p);
    CommittedParts(p, member);
    RefsSorted(p);
    Acceptance.SpelledOnce(World(p), input, v, Own(p, member), Refs());
  }

  lemma RulesMean(p: Plan)
    requires RulesHold(p)
    ensures p.sellsA > 0 && p.sellsB > 0 && |Refs()| == 3
  {
  }
}
