/** A small closed loop as real encoded receipts: one funding, by transfer or by deposit, one settlement, and one return
    path of two hops. For every sender, recipient, credited buyer, signer, status, amount, block, time and balance it is
    accepted exactly when the rules hold, so each rule can be seen to bind. */
module Example {
  import opened Prelude
  import opened Hashing
  import opened Rlp
  import opened Receipts
  import opened Evidence
  import opened Decoding
  import opened ClosedLoop
  import opened LoopTheorems
  import opened Conservation
  import opened LoopBounds
  import opened Journal
  import opened Seller
  import opened Merkle
  import opened Samples
  import Acceptance

  const FUNDER: Address := 1
  const BUYER: Address := 2
  const SELLER: Address := 3
  const MIDDLE: Address := 4

  /** What varies: how the funding is made, what its logs say, what is settled, where, when and how much the hops carry,
      the buyer's balance and the seller's counter. */
  datatype Plan = Plan(
    direct: bool, status: u64, sender: Address, recipient: Address, credited: Address, signer: Address,
    moved: u128, deposited: u128, settled: u128,
    firstBlock: u64, firstTime: u64, firstAmount: u128,
    secondBlock: u64, secondTime: u64, secondAmount: u128,
    balance: u256, counter: u256)

  /** Addresses are addresses, and the hops are in two of the blocks 3 to 9. */
  ghost predicate Sensible(p: Plan) {
    && p.sender < ADDRESS_LIMIT && p.recipient < ADDRESS_LIMIT && p.credited < ADDRESS_LIMIT
    && 3 <= p.firstBlock <= 9 && 3 <= p.secondBlock <= 9 && p.firstBlock != p.secondBlock
  }

  function FundLogs(p: Plan): seq<ParsedLog> {
    [TransferLog(p.sender, p.recipient, p.moved), DepositedLog(p.credited, p.deposited)]
  }

  function SettleLogs(p: Plan): seq<ParsedLog> {
    [TransferLog(BUYER, SELLER, 1), SettledLog(BUYER, SELLER, p.settled)]
  }

  function FirstLogs(p: Plan): seq<ParsedLog> {
    [TransferLog(SELLER, MIDDLE, p.firstAmount)]
  }

  function SecondLogs(p: Plan): seq<ParsedLog> {
    [TransferLog(MIDDLE, FUNDER, p.secondAmount)]
  }

  function Blocks(p: Plan): seq<EvidenceBlock> {
    [FundBlock(p), SettleBlock(p), FirstBlock(p), SecondBlock(p), EndBlock()]
  }

  function FundBlock(p: Plan): EvidenceBlock {
    BlockOf(1, 10, p.status, FundLogs(p))
  }

  function SettleBlock(p: Plan): EvidenceBlock {
    BlockOf(2, 20, 1, SettleLogs(p))
  }

  function FirstBlock(p: Plan): EvidenceBlock {
    BlockOf(p.firstBlock, p.firstTime, 1, FirstLogs(p))
  }

  function SecondBlock(p: Plan): EvidenceBlock {
    BlockOf(p.secondBlock, p.secondTime, 1, SecondLogs(p))
  }

  function EndBlock(): EvidenceBlock {
    BlockOf(10, 50, 1, [])
  }

  lemma BlocksAre(p: Plan)
    ensures IsSample(FundBlock(p)) && FundBlock(p).header == HeaderOf(1, 10)
    ensures IsSample(SettleBlock(p)) && SettleBlock(p).header == HeaderOf(2, 20)
    ensures IsSample(FirstBlock(p)) && FirstBlock(p).header == HeaderOf(p.firstBlock, p.firstTime)
    ensures IsSample(SecondBlock(p)) && SecondBlock(p).header == HeaderOf(p.secondBlock, p.secondTime)
    ensures IsSample(EndBlock()) && EndBlock().header == HeaderOf(10, 50)
  {
    hide BlockOf, FundLogs, SettleLogs, FirstLogs, SecondLogs, IsSample;
    SampleParts(1, 10, p.status, FundLogs(p));
    SampleParts(2, 20, 1, SettleLogs(p));
    SampleParts(p.firstBlock, p.firstTime, 1, FirstLogs(p));
    SampleParts(p.secondBlock, p.secondTime, 1, SecondLogs(p));
    SampleParts(10, 50, 1, []);
  }

  function Funding(p: Plan): FundingEvidence {
    FundingEvidence(BUYER, if p.direct then Usdc(Ref(0, 0)) else ProtocolDeposit(Ref(0, 0), Ref(0, 1)))
  }

  function Path(): ReturnPath {
    ReturnPath([Ref(2, 0), Ref(3, 0)])
  }

  /** What the claim lists. */
  lemma ClaimIs(p: Plan)
    ensures var c := Claim(p);
      && c.fundings == [Funding(p)] && c.settlements == [Ref(1, 1)] && c.returnPaths == [Path()] && c.buyers == [BUYER]
      && c.blocks == Blocks(p) && c.periodStart == 1 && c.periodEnd == 10 && c.seller == SELLER && c.funder == FUNDER
      && c.ledgers == [BuyerLedger(StateRead(4, StorageProof([], [])))]
      && Framed(c)
  {
  }

  function Claim(p: Plan): ClosedLoopInput {
    ClosedLoopInput(
      8_453, 1, 10, Word(1), SELLER, FUNDER, [BUYER], Blocks(p),
      [Funding(p)], [Ref(1, 1)], [Path()],
      [BuyerLedger(StateRead(4, StorageProof([], [])))])
  }

  /** The storage at the period end: the buyer's balance, the agent of the seller, and its counter. */
  function Stored(p: Plan, account: Address, slot: Slot): Result<u256> {
    if account == 0x0F7a3a8f4Da01637d1202bb5443fcF7F88F99fD2 && slot == Slot(2, 9, 0) then Ok(p.balance)
    else if account == 0x3652E6B22919bd322A25723B94BB207602E5c8e6 && slot == Slot(3, 4, 0) then Ok(7)
    else if account == 0xBA66d3b4fbCf472F6F11D6F9F96aaCE96516F09d && slot == Slot(7, 11, 1) then Ok(p.counter)
    else Err("not proven")
  }

  ghost function World(p: Plan): Oracle {
    WorldOf(Blocks(p), p.signer, 10, (account: Address, slot: Slot) => Stored(p, account, slot))
  }

  // ── What the references find ──────────────────────────────────────────

  lemma Logs(p: Plan)
    requires Sensible(p)
    ensures forall k :: 0 <= k < 2 ==> Short(FundLogs(p)[k]) && Short(SettleLogs(p)[k])
    ensures Short(FirstLogs(p)[0]) && Short(SecondLogs(p)[0])
  {
    hide TransferLog, SettledLog, DepositedLog, Short;
    TransferSays(p.sender, p.recipient, p.moved);
    DepositedSays(p.credited, p.deposited);
    TransferSays(BUYER, SELLER, 1);
    SettledSays(BUYER, SELLER, p.settled);
    TransferSays(SELLER, MIDDLE, p.firstAmount);
    TransferSays(MIDDLE, FUNDER, p.secondAmount);
  }

  lemma Finds(p: Plan)
    requires Sensible(p)
    ensures var chain := Chain(World(p), Claim(p));
      && Found(chain, Ref(0, 0)) == (if p.status == 1 then Some(Event(1, 5, 0, 10, FundLogs(p)[0])) else None)
      && Found(chain, Ref(0, 1)) == (if p.status == 1 then Some(Event(1, 5, 1, 10, FundLogs(p)[1])) else None)
      && Found(chain, Ref(1, 1)) == Some(Event(2, 5, 1, 20, SettleLogs(p)[1]))
      && Found(chain, Ref(2, 0)) == Some(Event(p.firstBlock, 5, 0, p.firstTime, FirstLogs(p)[0]))
      && Found(chain, Ref(3, 0)) == Some(Event(p.secondBlock, 5, 0, p.secondTime, SecondLogs(p)[0]))
  {
    hide World, BlockOf, FundLogs, SettleLogs, FirstLogs, SecondLogs, Short, Found;
    var chain := Chain(World(p), Claim(p));
    LogCounts(p);
    Logs(p);
    FindsSample(chain, 0, 1, 10, p.status, FundLogs(p), 0);
    FindsSample(chain, 0, 1, 10, p.status, FundLogs(p), 1);
    FindsSample(chain, 1, 2, 20, 1, SettleLogs(p), 1);
    FindsSample(chain, 2, p.firstBlock, p.firstTime, 1, FirstLogs(p), 0);
    FindsSample(chain, 3, p.secondBlock, p.secondTime, 1, SecondLogs(p), 0);
  }

  lemma LogCounts(p: Plan)
    ensures |FundLogs(p)| == |SettleLogs(p)| == 2 && |FirstLogs(p)| == |SecondLogs(p)| == 1
  {
  }

  // ── Rules ─────────────────────────────────────────────────────────────

  /** The funding: from the funder to the buyer, or from the funder to the deposits contract, credited to the buyer for
      the same amount and signed by the funder. */
  predicate FundRule(p: Plan) {
    && p.status == 1 && p.sender == FUNDER && p.moved > 0
    && if p.direct then p.recipient == BUYER
       else p.recipient == DEPOSITS && p.credited == BUYER && p.deposited == p.moved && p.signer == FUNDER
  }

  /** The path: the second hop later on chain, at most 72 hours after the first, passing on at least 28%, and the first
      after the settlement. */
  predicate PathRule(p: Plan) {
    && p.firstAmount > 0 && p.secondAmount > 0
    && p.firstBlock < p.secondBlock && p.firstTime > 20 && p.secondTime <= p.firstTime + 259_200
    && p.secondAmount * 10_000 >= p.firstAmount * 2_800
  }

  predicate LedgerRule(p: Plan) {
    ((p.balance + p.settled) * 10_000) % U256_LIMIT <= p.moved * 10_500
  }

  predicate RulesHold(p: Plan) {
    && FundRule(p) && p.settled > 0 && PathRule(p) && LedgerRule(p)
    && p.moved * 10_000 >= p.settled * 9_000
    && Min(p.firstAmount, p.secondAmount) * 10_000 >= p.settled * 3_000
  }

  lemma FundIff(p: Plan, amount: nat, time: nat)
    requires Sensible(p)
    ensures Funded(World(p), Claim(p), Funding(p), amount, time) <==> FundRule(p) && amount == p.moved && time == 10
  {
    hide WorldOf, BlockOf, Found, IsTransfer, IsDeposit, TransferLog, DepositedLog, Signs, Short;
    var chain := Chain(World(p), Claim(p));
    Finds(p);
    TransferSays(p.sender, p.recipient, p.moved);
    DepositedSays(p.credited, p.deposited);
    if p.status == 1 {
      SignerIs(p);
      SignsSample(chain, 0, 1, 10, p.status, FundLogs(p), 0, p.signer, FUNDER);
    }
  }

  lemma SignerIs(p: Plan)
    ensures World(p).signer([2]) == Ok(p.signer)
  {
  }

  lemma SettleIff(p: Plan, buyer: Address, amount: nat, time: nat)
    requires Sensible(p)
    ensures Settled(World(p), Claim(p), Ref(1, 1), buyer, amount, time)
      <==> p.settled > 0 && buyer == BUYER && amount == p.settled && time == 20
  {
    hide World, BlockOf, Found, IsSettlement, SettledLog, TransferLog, Short;
    Finds(p);
    SettledSays(BUYER, SELLER, p.settled);
  }

  lemma BeforeIs(p: Plan)
    requires Sensible(p)
    ensures FundedBefore(World(p), Claim(p), BUYER, 20) <==> FundRule(p)
    ensures IsFunded(World(p), Claim(p), Funding(p)) <==> FundRule(p)
  {
    hide World, Funded, Claim, FundRule, Blocks, Framed, Sensible;
    ClaimIs(p);
    assert Funding(p) in Claim(p).fundings && Funding(p).buyer == BUYER;
    forall amount: nat, time: nat
      ensures Funded(World(p), Claim(p), Funding(p), amount, time) <==> FundRule(p) && amount == p.moved && time == 10
    {
      FundIff(p, amount, time);
    }
    if FundRule(p) {
      assert Funded(World(p), Claim(p), Funding(p), p.moved, 10);
    }
  }

  lemma SettledIs(p: Plan)
    requires Sensible(p)
    ensures IsSettled(World(p), Claim(p), Ref(1, 1)) <==> FundRule(p) && p.settled > 0
  {
    hide World, Settled, FundedBefore, Claim, FundRule;
    BeforeIs(p);
    forall buyer, amount: nat, time: nat
      ensures Settled(World(p), Claim(p), Ref(1, 1), buyer, amount, time)
        <==> p.settled > 0 && buyer == BUYER && amount == p.settled && time == 20
    {
      SettleIff(p, buyer, amount, time);
    }
    if p.settled > 0 {
      assert Settled(World(p), Claim(p), Ref(1, 1), BUYER, p.settled, 20);
    }
  }

  lemma StepsAre(p: Plan)
    requires Sensible(p)
    ensures var chain := Chain(World(p), Claim(p));
      && StepAt(chain, Ref(2, 0))
           == Some(Conservation.Step(Event(p.firstBlock, 5, 0, p.firstTime, FirstLogs(p)[0]), SELLER, MIDDLE,
             p.firstAmount))
      && StepAt(chain, Ref(3, 0))
           == Some(Conservation.Step(Event(p.secondBlock, 5, 0, p.secondTime, SecondLogs(p)[0]), MIDDLE, FUNDER,
             p.secondAmount))
  {
    hide World, Blocks, Found, TransferLog, Short, BeNat;
    Finds(p);
    TransferSays(SELLER, MIDDLE, p.firstAmount);
    TransferSays(MIDDLE, FUNDER, p.secondAmount);
    assert IsTransfer(TransferLog(SELLER, MIDDLE, p.firstAmount), SELLER, MIDDLE, p.firstAmount);
    assert IsTransfer(TransferLog(MIDDLE, FUNDER, p.secondAmount), MIDDLE, FUNDER, p.secondAmount);
  }

  lemma WalkIs(p: Plan)
    requires Sensible(p)
    ensures Walks(Claim(p), StepsOf(World(p), Claim(p), Path()), 20) <==> PathRule(p)
  {
    hide World, Blocks, StepAt, FirstLogs, SecondLogs;
    StepsAre(p);
    var steps := StepsOf(World(p), Claim(p), Path());
    assert |steps| == 2 && steps[0] == StepAt(Chain(World(p), Claim(p)), Ref(2, 0));
    assert steps[1] == StepAt(Chain(World(p), Claim(p)), Ref(3, 0));
    assert Walks(Claim(p), steps, 20) ==> Earlier(steps[0].value.at, steps[1].value.at);
  }

  lemma ReturnedIs(p: Plan)
    requires Sensible(p)
    ensures Returned(World(p), Claim(p), Path()) <==> FundRule(p) && p.settled > 0 && PathRule(p)
  {
    hide World, Claim, Settled, FundedBefore, FundRule, PathRule, Walks, StepsOf, Blocks, Framed, Sensible;
    ClaimIs(p);
    BeforeIs(p);
    WalkIs(p);
    forall buyer, amount: nat, time: nat
      ensures Settled(World(p), Claim(p), Ref(1, 1), buyer, amount, time)
        <==> p.settled > 0 && buyer == BUYER && amount == p.settled && time == 20
    {
      SettleIff(p, buyer, amount, time);
    }
    assert Ref(1, 1) in Claim(p).settlements;
    assert forall r :: r in Claim(p).settlements ==> r == Ref(1, 1);
    if p.settled > 0 {
      assert Settled(World(p), Claim(p), Ref(1, 1), BUYER, p.settled, 20);
    }
  }

  // ── Amounts ───────────────────────────────────────────────────────────

  /** What the transfers carry and the settlement settles. */
  lemma CarriedAre(p: Plan)
    requires Sensible(p)
    ensures var (o, c) := (World(p), Claim(p));
      && (p.status == 1 ==> CarriedBy(Chain(o, c), Ref(0, 0)) == p.moved)
      && CarriedBy(Chain(o, c), Ref(2, 0)) == p.firstAmount && CarriedBy(Chain(o, c), Ref(3, 0)) == p.secondAmount
      && SettledBy(o, c, Ref(1, 1)) == p.settled && BoughtBy(o, c, Ref(1, 1), BUYER)
  {
    hide World, Claim, Found, TransferLog, SettledLog, DepositedLog, Short, BeNat;
    Finds(p);
    TransferSays(p.sender, p.recipient, p.moved);
    SettledSays(BUYER, SELLER, p.settled);
    TransferSays(SELLER, MIDDLE, p.firstAmount);
    TransferSays(MIDDLE, FUNDER, p.secondAmount);
  }

  lemma AmountsAre(p: Plan)
    requires Sensible(p) && p.status == 1
    ensures var (o, c) := (World(p), Claim(p));
      && SumBy(c.fundings, FundedAmount(o, c)) == SumBy(c.fundings, FundedFor(o, c, BUYER)) == p.moved
      && SumBy(c.settlements, SettledAmount(o, c)) == SumBy(c.settlements, SettledFor(o, c, BUYER)) == p.settled
      && SumBy(c.returnPaths, Worth(o, c)) == Min(p.firstAmount, p.secondAmount)
  {
    hide World, Claim, CarriedBy, SettledBy, BoughtBy;
    var (o, c) := (World(p), Claim(p));
    ClaimIs(p);
    CarriedAre(p);
    SumOne(Funding(p), FundedAmount(o, c));
    SumOne(Funding(p), FundedFor(o, c, BUYER));
    SumOne(Ref(1, 1), SettledAmount(o, c));
    SumOne(Ref(1, 1), SettledFor(o, c, BUYER));
    SumOne(Path(), Worth(o, c));
    WorthIs(p);
  }

  lemma WorthIs(p: Plan)
    requires Sensible(p)
    ensures Worth(World(p), Claim(p))(Path()) == Min(p.firstAmount, p.secondAmount)
  {
    hide World, Claim, CarriedBy;
    CarriedAre(p);
    var carried := Map(Carried(Chain(World(p), Claim(p))), Path().transfers);
    var amounts: seq<nat> := [p.firstAmount, p.secondAmount];
    assert carried == amounts;
    LeastOfTwo(p.firstAmount, p.secondAmount);
  }

  lemma LeastOfTwo(a: nat, b: nat)
    ensures LeastOf([a, b]) == Min(a, b)
  {
    assert [a, b][..1] == [a];
  }

  lemma PeriodEnd(p: Plan)
    ensures |Blocks(p)| == 5 && Blocks(p)[4].header == HeaderOf(10, 50)
    ensures World(p).storage(Word(32), 0x0F7a3a8f4Da01637d1202bb5443fcF7F88F99fD2, Slot(2, 9, 0), StorageProof([], []))
      == Ok(p.balance)
  {
    hide FundBlock, SettleBlock, FirstBlock, SecondBlock, EndBlock;
    BlocksAre(p);
  }

  lemma CoveredIs(p: Plan)
    requires Sensible(p) && p.status == 1
    ensures |Claim(p).buyers| == |Claim(p).ledgers| == 1 && (Covered(World(p), Claim(p), 0) <==> LedgerRule(p))
  {
    hide World, Claim, Blocks, SumBy, SettledFor, FundedFor, FundedAmount, SettledAmount;
    ClaimIs(p);
    AmountsAre(p);
    PeriodEnd(p);
  }

  // ── Acceptance ────────────────────────────────────────────────────────

  lemma BlocksGenuine(p: Plan)
    requires Sensible(p)
    ensures Genuine(World(p), Blocks(p), 1, 10)
  {
    hide FundBlock, SettleBlock, FirstBlock, SecondBlock, EndBlock, IsSample, WorldOf, Genuine;
    BlocksAre(p);
    var b := Blocks(p);
    assert b[0].header.number == 1 && b[1].header.number == 2 && b[2].header.number == p.firstBlock;
    assert b[3].header.number == p.secondBlock && b[4].header.number == 10;
    SamplesAuthentic(b, p.signer, 10, (account: Address, slot: Slot) => Stored(p, account, slot), 1, 10);
  }

  lemma RefsAre(p: Plan)
    ensures Distinct(AllRefs(Claim(p)))
  {
    hide Claim, Blocks, Framed, Distinct;
    ClaimIs(p);
    var c := Claim(p);
    OneGroup(FundRefs(Funding(p)));
    OneGroup([Ref(1, 1)]);
    OneGroup([Ref(2, 0), Ref(3, 0)]);
    assert Map(FundRefs, c.fundings) == [FundRefs(Funding(p))];
    assert Map(LoopTheorems.Single, c.settlements) == [[Ref(1, 1)]];
    assert Map(PathRefs, c.returnPaths) == [[Ref(2, 0), Ref(3, 0)]];
    assert AllRefs(c) == FundRefs(Funding(p)) + [Ref(1, 1)] + [Ref(2, 0), Ref(3, 0)];
    DistinctRefs(p.direct);
  }

  lemma DistinctRefs(direct: bool)
    ensures Distinct((if direct then [Ref(0, 0)] else [Ref(0, 0), Ref(0, 1)]) + [Ref(1, 1)] + [Ref(2, 0), Ref(3, 0)])
  {
    if direct {
      assert [Ref(0, 0)] + [Ref(1, 1)] + [Ref(2, 0), Ref(3, 0)] == [Ref(0, 0), Ref(1, 1), Ref(2, 0), Ref(3, 0)];
    } else {
      assert [Ref(0, 0), Ref(0, 1)] + [Ref(1, 1)] + [Ref(2, 0), Ref(3, 0)]
        == [Ref(0, 0), Ref(0, 1), Ref(1, 1), Ref(2, 0), Ref(3, 0)];
    }
  }

  lemma OneGroup(refs: seq<LogRef>)
    ensures Concat([refs]) == refs
  {
    assert [refs][1..] == [];
  }

  /** A claim with one piece of evidence in each leg. */
  ghost predicate Single(c: ClosedLoopInput, e: FundingEvidence, r: LogRef, path: ReturnPath) {
    && c.fundings == [e] && c.settlements == [r] && c.returnPaths == [path] && c.buyers == [e.buyer]
    && c.seller != c.funder && |c.ledgers| == 1 && Distinct(AllRefs(c))
  }

  lemma SingleEvidenced(o: Oracle, c: ClosedLoopInput, e: FundingEvidence, r: LogRef, path: ReturnPath)
    requires Single(c, e, r, path)
    ensures Evidenced(o, c) <==> IsFunded(o, c, e) && IsSettled(o, c, r) && Returned(o, c, path)
  {
    hide IsFunded, IsSettled, Returned, AllRefs;
    assert e in c.fundings && r in c.settlements && path in c.returnPaths && e.buyer in c.buyers;
  }

  lemma SingleBalanced(o: Oracle, c: ClosedLoopInput, e: FundingEvidence, r: LogRef, path: ReturnPath, funded: u128,
                       settled: u128, returned: u128)
    requires Single(c, e, r, path)
    requires SumBy(c.fundings, FundedAmount(o, c)) == funded && SumBy(c.settlements, SettledAmount(o, c)) == settled
    requires SumBy(c.returnPaths, Worth(o, c)) == returned
    ensures Balanced(o, c) <==>
      Covered(o, c, 0) && funded * 10_000 >= settled * 9_000 && returned * 10_000 >= settled * 3_000
  {
    hide Covered, AllRefs, SumBy, FundedAmount, SettledAmount, Worth;
  }

  lemma IsSingle(p: Plan)
    ensures Single(Claim(p), Funding(p), Ref(1, 1), Path())
  {
    hide Claim, Path, AllRefs, Framed;
    ClaimIs(p);
    RefsAre(p);
  }

  lemma EvidencedIs(p: Plan)
    requires Sensible(p)
    ensures Evidenced(World(p), Claim(p)) <==> FundRule(p) && p.settled > 0 && PathRule(p)
  {
    hide World, Claim, Funding, Path, IsFunded, IsSettled, Returned, Evidenced, FundRule, PathRule, Single, Sensible;
    BeforeIs(p);
    SettledIs(p);
    ReturnedIs(p);
    IsSingle(p);
    SingleEvidenced(World(p), Claim(p), Funding(p), Ref(1, 1), Path());
  }

  lemma BalancedIs(p: Plan)
    requires Sensible(p) && p.status == 1
    ensures Balanced(World(p), Claim(p)) <==>
      && LedgerRule(p) && p.moved * 10_000 >= p.settled * 9_000
      && Min(p.firstAmount, p.secondAmount) * 10_000 >= p.settled * 3_000
  {
    hide World, Claim, Funding, Path, Covered, LedgerRule, SumBy, FundedAmount, SettledAmount, Worth, Balanced, Single,
      Sensible;
    AmountsAre(p);
    CoveredIs(p);
    IsSingle(p);
    SingleBalanced(
      World(p), Claim(p), Funding(p), Ref(1, 1), Path(), p.moved, p.settled, Min(p.firstAmount, p.secondAmount));
  }

  /** The claim is accepted exactly when its rules hold. */
  lemma AcceptedIff(p: Plan)
    requires Sensible(p)
    ensures LoopHolds(World(p), Claim(p)) <==> RulesHold(p)
  {
    hide LoopHolds, World, Claim, Blocks, Evidenced, Balanced, Genuine, PathRule, LedgerRule, Framed, Sensible;
    LoopHoldsIff(World(p), Claim(p));
    ClaimIs(p);
    BlocksGenuine(p);
    EvidencedIs(p);
    if FundRule(p) {
      BalancedIs(p);
    }
  }

  /** A balance near 2^256 wraps the ledger product. */
  function WrapPlan(moved: u128, settled: u128, returned: u128): Plan {
    Plan(true, 1, FUNDER, BUYER, BUYER, FUNDER, moved, moved, settled, 3, 30, returned, 4, 40, returned,
      U256_LIMIT - 1, 1)
  }

  /** The claim of `p` is accepted although it settles more than 1.05 times its funding. */
  ghost predicate AcceptedBeyond(p: Plan) {
    var (o, c) := (World(p), Claim(p));
    && LoopHolds(o, c)
    && SumBy(c.settlements, SettledAmount(o, c)) * 10_000 > SumBy(c.fundings, FundedAmount(o, c)) * 10_500
  }

  /** The ledgers of `p` hold although its funding does not cover nine tenths. */
  ghost predicate CoveredShort(p: Plan) {
    var (o, c) := (World(p), Claim(p));
    && |c.buyers| == |c.ledgers| == 1 && Covered(o, c, 0)
    && SumBy(c.fundings, FundedAmount(o, c)) * 10_000 < SumBy(c.settlements, SettledAmount(o, c)) * 9_000
  }

  /** With such a balance a claim is accepted although it settles more than 1.05 times its funding, and for smaller
      amounts the ledgers do not even imply the funding coverage. */
  lemma WrappedLedgers(p: Plan, q: Plan)
    requires p == WrapPlan(9, 10, 3) && q == WrapPlan(1, 2, 1)
    ensures AcceptedBeyond(p) && CoveredShort(q)
  {
    hide LoopHolds, World, Claim, SumBy, FundedAmount, SettledAmount, Covered;
    WrapsTo(10);
    WrapsTo(2);
    AcceptedIff(p);
    AmountsAre(p);
    CoveredIs(q);
    AmountsAre(q);
  }

  lemma WrapsTo(settled: nat)
    requires 0 < settled <= 10
    ensures ((U256_LIMIT - 1 + settled) * 10_000) % U256_LIMIT == (settled - 1) * 10_000
  {
    var exact := (U256_LIMIT - 1 + settled) * 10_000;
    SubtractMultiple(exact, 10_000);
    SmallMod((settled - 1) * 10_000);
    assert exact - 10_000 * U256_LIMIT == (settled - 1) * 10_000;
  }

  // ── The seller proof ──────────────────────────────────────────────────

  /** A seller input around the claim, for any seller, period and boundary header. */
  function Proof(p: Plan, seller: Address, first: u64, last: u64, header: Header): SellerProofInput {
    SellerProofInput(
      seller, first, last, TotalVolumeBoundary(header, StorageProof([], []), StorageProof([], [])),
        ClosedLoop(Claim(p)))
  }

  lemma CounterIs(p: Plan, total: nat)
    ensures Acceptance.Counts(World(p), Proof(p, SELLER, 1, 10, HeaderOf(10, 50)), total)
      <==> total == p.counter < U128_LIMIT
  {
    hide Claim, Blocks;
    var (o, input) := (World(p), Proof(p, SELLER, 1, 10, HeaderOf(10, 50)));
    StorageIs(p);
    if total == p.counter {
      assert Acceptance.ReadsCounter(o, input, 7, total);
    }
  }

  lemma StorageIs(p: Plan)
    ensures var (o, none) := (World(p), StorageProof([], []));
      && o.storage(Word(32), 0x3652E6B22919bd322A25723B94BB207602E5c8e6, Slot(3, 4, 0), none) == Ok(7)
      && o.storage(Word(32), 0xBA66d3b4fbCf472F6F11D6F9F96aaCE96516F09d, Slot(7, 11, 1), none) == Ok(p.counter)
  {
    hide Blocks;
  }

  /** The seller proof goes through exactly for this seller and period, with the period-end header of the evidence, when
      the rules of the claim hold and the counter fits. */
  lemma ProvenIff(p: Plan, seller: Address, first: u64, last: u64, header: Header)
    requires Sensible(p)
    ensures SellerAccepts(World(p), Proof(p, seller, first, last, header)) <==>
      && RulesHold(p) && p.counter < U128_LIMIT
      && seller == 3 && first == 1 && last == 10 && header == HeaderOf(10, 50)
  {
    hide Claim, Blocks, World, RulesHold, SellerAccepts, ConservedLoop, Acceptance.Counts, LoopHolds;
    var (o, input) := (World(p), Proof(p, seller, first, last, header));
    Acceptance.SellerAcceptsIff(o, input);
    AcceptedIff(p);
    LoopHoldsIff(o, Claim(p));
    ClaimIs(p);
    SourceIs(p);
    EndIs(p, header);
    CounterIs(p, p.counter);
    if SellerAccepts(o, input) {
      HeaderNumber(o, input);
      var total: nat :| Acceptance.Counts(o, input, total);
      CounterIs(p, total);
    }
  }

  lemma HeaderNumber(o: Oracle, input: SellerProofInput)
    requires exists total: nat :: Acceptance.Counts(o, input, total)
    ensures input.totalVolume.header.number == input.periodEnd
  {
  }

  lemma SourceIs(p: Plan)
    ensures Claim(p).sourceClaimId == Word(1)
  {
  }

  /** Among the evidence only the last block is block 10. */
  lemma EndIs(p: Plan, header: Header)
    requires Sensible(p)
    ensures (exists b :: b in Blocks(p) && b.header == header) && header.number == 10 ==> header == HeaderOf(10, 50)
    ensures exists b :: b in Blocks(p) && b.header == HeaderOf(10, 50)
  {
    hide FundBlock, SettleBlock, FirstBlock, SecondBlock, EndBlock;
    BlocksAre(p);
    assert Blocks(p)[4] in Blocks(p);
  }

  /** The references of the claim's blocks, by number. */
  function Refs(p: Plan): seq<BlockRef> {
    [BlockRef(1, HeaderHash(HeaderOf(1, 10))), BlockRef(2, HeaderHash(HeaderOf(2, 20))),
     BlockRef(p.firstBlock, HeaderHash(HeaderOf(p.firstBlock, p.firstTime))),
     BlockRef(p.secondBlock, HeaderHash(HeaderOf(p.secondBlock, p.secondTime))),
     BlockRef(10, HeaderHash(HeaderOf(10, 50)))]
  }

  lemma RefsSorted(p: Plan)
    requires Sensible(p) && p.firstBlock < p.secondBlock
    ensures JournalRefs(Blocks(p)) == Refs(p)
  {
    hide FundBlock, SettleBlock, FirstBlock, SecondBlock, EndBlock, JournalRefs, HeaderOf;
    RefsOf(p);
    RefsAscend(p);
    SortedAlready(Blocks(p), Refs(p));
  }

  lemma RefsOf(p: Plan)
    ensures Map(RefOf, Blocks(p)) == Refs(p)
  {
    hide FundBlock, SettleBlock, FirstBlock, SecondBlock, EndBlock;
    BlocksAre(p);
  }

  lemma RefsAscend(p: Plan)
    requires Sensible(p) && p.firstBlock < p.secondBlock
    ensures StrictlySorted(Refs(p)) && DistinctNumbers(Blocks(p))
  {
    hide FundBlock, SettleBlock, FirstBlock, SecondBlock, EndBlock, HeaderOf;
    RefsOf(p);
    NumbersAscend(p);
    var (refs, mapped) := (Refs(p), Map(RefOf, Blocks(p)));
    forall i, j | 0 <= i < j < |Blocks(p)|
      ensures Blocks(p)[i].header.number != Blocks(p)[j].header.number
    {
      assert mapped[i].number < mapped[j].number;
    }
  }

  lemma NumbersAscend(p: Plan)
    requires Sensible(p) && p.firstBlock < p.secondBlock
    ensures StrictlySorted(Refs(p))
  {
    hide HeaderOf;
  }

  /** The journal, field by field. */
  function Committed(p: Plan): VerifiedSeller
    requires p.counter < U128_LIMIT
  {
    VerifiedSeller(
      SellerJournal(
        1, 8_453, 1, 10, SELLER, p.settled, p.counter,
        EvidenceDigest(SELLER, 1, 10, map[SettlementHash(8_453, 2, 5, 1) := p.settled]),
        5, 100, 1, LeafHash(0, Refs(p))),
      Refs(p))
  }

  /** That is what is committed. */
  lemma ProvenJournal(p: Plan, v: VerifiedSeller)
    requires Sensible(p) && RulesHold(p) && p.counter < U128_LIMIT
    requires Commits(World(p), Proof(p, SELLER, 1, 10, HeaderOf(10, 50)), v)
    ensures v == Committed(p)
  {
    hide Claim, Blocks, World, RulesHold, SellerAccepts, Commits, Acceptance.Counts, Acceptance.Spelled, JournalRefs,
      Refs, Acceptance.Volume, Acceptance.Records, EvidenceBlocks, Sensible;
    var input := Proof(p, SELLER, 1, 10, HeaderOf(10, 50));
    ProvenIff(p, SELLER, 1, 10, HeaderOf(10, 50));
    Acceptance.CommittedIs(World(p), input, v);
    CounterIs(p, v.journal.totalSellerVolume);
    RulesMean(p);
    CommittedParts(p);
    RefsSorted(p);
    FiveBlocks(p);
    Acceptance.SpelledOnce(
      World(p), input, v, SettlementRecord(SettlementHash(8_453, 2, 5, 1), p.settled), Refs(p));
  }

  lemma RulesMean(p: Plan)
    requires RulesHold(p)
    ensures p.status == 1 && p.firstBlock < p.secondBlock
  {
  }

  lemma FiveBlocks(p: Plan)
    ensures |Blocks(p)| == |Refs(p)| == 5
  {
  }

  lemma RecordIs(p: Plan)
    requires Sensible(p)
    ensures LoopBounds.RecordAt(World(p), Claim(p), Ref(1, 1))
      == SettlementRecord(SettlementHash(8_453, 2, 5, 1), p.settled)
  {
    hide Claim, World, Found, SettledBy;
    Finds(p);
    CarriedAre(p);
  }

  /** Its volume and records, in the words of the committed journal. */
  lemma CommittedParts(p: Plan)
    requires Sensible(p) && p.status == 1
    ensures var (o, input) := (World(p), Proof(p, SELLER, 1, 10, HeaderOf(10, 50)));
      && Acceptance.Volume(o, input) == p.settled
      && Acceptance.Records(o, input) == [SettlementRecord(SettlementHash(8_453, 2, 5, 1), p.settled)]
      && EvidenceBlocks(input.evidence) == Blocks(p)
  {
    hide Claim, World, Blocks, LoopBounds.RecordAt, Sensible, SumBy, SettledAmount, Funding, Path;
    ClaimIs(p);
    AmountsAre(p);
    RecordIs(p);
  }
}
