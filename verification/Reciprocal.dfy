/** The reciprocal predicate: two wallets that sell to each other at comparable scale out of deposits the pair
    itself financed. */
module Reciprocal {
  import opened Prelude
  import opened Hashing
  import opened Evidence
  import opened Booking
  import opened Journal

  const RECIPROCAL_PREDICATE_ID: nat := 2

  function Chain(o: Oracle, input: ReciprocalInput): ChainResolver {
    ChainResolver(o, input.blocks)
  }

  // ── Settlements in both directions ────────────────────────────────────

  /** One settlement between the pair, recorded for its seller; no timestamp is read. */
  function SaleRow(o: Oracle, input: ReciprocalInput, reference: LogRef): Option<Row> {
    var chain := Chain(o, input);
    match (chain.Key(reference), chain.SettlementAt(reference))
    case (Ok(key), Ok(s)) =>
      if && InPeriod(s.block, input.periodStart, input.periodEnd) && s.amount != 0
         && ((s.buyer == input.addressB && s.seller == input.addressA) ||
           (s.buyer == input.addressA && s.seller == input.addressB))
      then Some(Row([key], s.seller, s.amount, 0))
      else None
    case _ => None
  }

  function SaleRows(o: Oracle, input: ReciprocalInput): Rows {
    Map((r: LogRef) => SaleRow(o, input, r), input.settlements)
  }

  /** The records of one seller, in evidence order. */
  function RecordsFor(rows: Rows, party: Address): seq<SettlementRecord> {
    if rows == [] then []
    else
      var before := RecordsFor(rows[..|rows| - 1], party);
      var last := rows[|rows| - 1];
      if last.Some? && last.value.party == party && last.value.keys != []
      then before + [SettlementRecord(SettlementId(last.value.keys[0]), last.value.amount)]
      else before
  }

  datatype Sales = Sales(sellsA: u128, sellsB: u128, settlementsA: seq<SettlementRecord>,
                         settlementsB: seq<SettlementRecord>)

  ghost predicate SummarizesSales(s: Sales, input: ReciprocalInput, rows: Rows) {
    && s.sellsA == PartyTotal(rows, input.addressA)
    && s.sellsB == PartyTotal(rows, input.addressB)
    && s.settlementsA == RecordsFor(rows, input.addressA)
    && s.settlementsB == RecordsFor(rows, input.addressB)
  }

  function AddSale(s: Sales, input: ReciprocalInput, row: Row, sum: u128): Sales {
    var record := [SettlementRecord(SettlementId(if row.keys != [] then row.keys[0] else LogKey(0, 0, 0)), row.amount)];
    if row.party == input.addressA then s.(sellsA := sum, settlementsA := s.settlementsA + record)
    else s.(sellsB := sum, settlementsB := s.settlementsB + record)
  }

  lemma AddSaleSummarizes(s: Sales, input: ReciprocalInput, rows: Rows, i: nat, sum: u128)
    requires input.addressA != input.addressB
    requires i < |rows| && rows[i].Some? && SummarizesSales(s, input, rows[..i])
    requires rows[i].value.keys != [] && rows[i].value.party in {input.addressA, input.addressB}
    requires sum == PartyTotal(rows[..i], rows[i].value.party) + rows[i].value.amount
    ensures SummarizesSales(AddSale(s, input, rows[i].value, sum), input, rows[..i + 1])
  {
    TakeRowFor(rows, i, input.addressA);
    TakeRowFor(rows, i, input.addressB);
    assert rows[..i + 1][..i] == rows[..i];
  }

  /** One reference of the settlement loop. */
  method VerifySale(o: Oracle, input: ReciprocalInput, reference: LogRef, used: UsedLogs) returns (r: Result<Row>)
    modifies used
    ensures var row := SaleRow(o, input, reference);
      && (r.Ok? <==> row.Some? && Fresh(row.value.keys, old(used.keys)))
      && (r.Ok? ==> r.value == row.value && used.keys == old(used.keys) + Elements(row.value.keys))
  {
    hide ChainResolver.Key, ChainResolver.SettlementAt;
    var chain := Chain(o, input);
    var key :- chain.Key(reference);
    assert [key][0] == key;
    var added := used.Insert(key);
    if !added {
      return Err("reciprocal: duplicate settlement evidence");
    }
    var s :- chain.SettlementAt(reference);
    if !InPeriod(s.block, input.periodStart, input.periodEnd) {
      return Err("reciprocal settlement is outside the fixed enforcement period");
    }
    if s.amount == 0 {
      return Err("reciprocal: zero settlement");
    }
    if !((s.buyer == input.addressB && s.seller == input.addressA) ||
      (s.buyer == input.addressA && s.seller == input.addressB)) {
      return Err("reciprocal: settlement outside the exact pair");
    }
    return Ok(Row([key], s.seller, s.amount, 0));
  }

  lemma SaleRowParts(o: Oracle, input: ReciprocalInput, reference: LogRef)
    requires SaleRow(o, input, reference).Some?
    ensures var row := SaleRow(o, input, reference).value;
      && Chain(o, input).Key(reference).Ok? && row.keys == [Chain(o, input).Key(reference).value]
      && row.party in {input.addressA, input.addressB} && row.amount > 0
  {
    hide ChainResolver.Key, ChainResolver.SettlementAt;
  }

  /** Each direction is summed with checked additions of its own. */
  method VerifySales(o: Oracle, input: ReciprocalInput, used: UsedLogs) returns (r: Result<Sales>)
    requires input.addressA != input.addressB
    modifies used
    ensures r.Ok? <==>
      && Claimed(SaleRows(o, input), old(used.keys))
      && PartyTotal(SaleRows(o, input), input.addressA) < U128_LIMIT
      && PartyTotal(SaleRows(o, input), input.addressB) < U128_LIMIT
    ensures r.Ok? ==> SummarizesSales(r.value, input, SaleRows(o, input))
    ensures r.Ok? ==> used.keys == old(used.keys) + Consumed(SaleRows(o, input))
  {
    hide SaleRow, Claimed, SumBy, Consumed, Fresh, AddSale, RecordsFor;
    ghost var before := used.keys;
    ghost var rows := SaleRows(o, input);
    var sales := Sales(0, 0, [], []);
    NoSales(rows[..0], before);
    for i := 0 to |input.settlements|
      invariant Claimed(rows[..i], before)
      invariant used.keys == before + Consumed(rows[..i])
      invariant SummarizesSales(sales, input, rows[..i])
    {
      TakeClaim(rows, before, i);
      assert rows[i] == SaleRow(o, input, input.settlements[i]);
      var row :- VerifySale(o, input, input.settlements[i], used);
      SaleRowParts(o, input, input.settlements[i]);
      TakeRowFor(rows, i, row.party);
      SumByPrefix(rows, AmountFor(row.party), i + 1);
      var sum := CheckedAdd(if row.party == input.addressA then sales.sellsA else sales.sellsB, row.amount);
      if sum.None? {
        return Err("reciprocal: overflow");
      }
      AddSaleSummarizes(sales, input, rows, i, sum.value);
      sales := AddSale(sales, input, row, sum.value);
    }
    assert rows[..|rows|] == rows;
    return Ok(sales);
  }

  lemma NoSales(rows: Rows, used: set<LogKey>)
    requires rows == []
    ensures Claimed(rows, used) && Consumed(rows) == {}
    ensures forall p :: PartyTotal(rows, p) == 0 && RecordsFor(rows, p) == []
  {
  }

  // ── Deposits financed from within the pair ────────────────────────────

  function DepositRow(o: Oracle, input: ReciprocalInput, e: PairDepositEvidence): Option<Row> {
    var chain := Chain(o, input);
    if e.member != input.addressA && e.member != input.addressB then None
    else if e.transfer.block != e.deposited.block || e.transfer.receipt != e.deposited.receipt then None
    else
      match (chain.Key(e.transfer), chain.Key(e.deposited), chain.UsdcTransfer(e.transfer),
        chain.ProtocolDeposit(e.deposited))
      case (Ok(first), Ok(second), Ok(t), Ok(d)) =>
        if && first.Before(second)
           && InPeriod(t.block, input.periodStart, input.periodEnd)
           && t.to == DEPOSITS_ADDRESS && d.buyer == e.member && t.amount == d.amount && d.amount != 0
           && (t.from == input.addressA || t.from == input.addressB)
           && chain.SignedBy(t.from, e.transfer)
        then Some(Row([first, second], e.member, d.amount, 0))
        else None
      case _ => None
  }

  function DepositRows(o: Oracle, input: ReciprocalInput): Rows {
    Map((e: PairDepositEvidence) => DepositRow(o, input, e), input.internalDeposits)
  }

  method VerifyDeposit(o: Oracle, input: ReciprocalInput, e: PairDepositEvidence, used: UsedLogs)
    returns (r: Result<u128>)
    modifies used
    ensures var row := DepositRow(o, input, e);
      && (r.Ok? <==> row.Some? && Fresh(row.value.keys, old(used.keys)))
      && (r.Ok? ==> r.value == row.value.amount && used.keys == old(used.keys) + Elements(row.value.keys))
  {
    hide ChainResolver.Key, ChainResolver.UsdcTransfer, ChainResolver.ProtocolDeposit, ChainResolver.SignedBy;
    var chain := Chain(o, input);
    if e.member != input.addressA && e.member != input.addressB {
      return Err("reciprocal: deposit credited outside the pair");
    }
    if e.transfer.block != e.deposited.block || e.transfer.receipt != e.deposited.receipt {
      return Err("reciprocal: deposit logs must share one receipt");
    }
    var first :- chain.Key(e.transfer);
    var second :- chain.Key(e.deposited);
    if !first.Before(second) {
      return Err("reciprocal: transfer must precede its Deposited log");
    }
    assert [first, second][0] == first && [first, second][1] == second;
    var firstAdded := used.Insert(first);
    if !firstAdded {
      return Err("reciprocal: duplicate deposit evidence");
    }
    var secondAdded := used.Insert(second);
    if !secondAdded {
      return Err("reciprocal: duplicate deposit evidence");
    }
    var t :- chain.UsdcTransfer(e.transfer);
    if !InPeriod(t.block, input.periodStart, input.periodEnd) {
      return Err("pair deposit is outside the fixed enforcement period");
    }
    var d :- chain.ProtocolDeposit(e.deposited);
    if || t.to != DEPOSITS_ADDRESS || d.buyer != e.member || t.amount != d.amount || d.amount == 0
       || (t.from != input.addressA && t.from != input.addressB)
    {
      return Err("reciprocal: invalid pair deposit");
    }
    if !chain.SignedBy(t.from, e.transfer) {
      return Err("transaction signer mismatch");
    }
    return Ok(d.amount);
  }

  method VerifyDeposits(o: Oracle, input: ReciprocalInput, used: UsedLogs) returns (r: Result<u128>)
    modifies used
    ensures r.Ok? <==> Booked(DepositRows(o, input), old(used.keys))
    ensures r.Ok? ==> r.value == Total(DepositRows(o, input))
  {
    hide DepositRow, Booked, SumBy, Consumed, Fresh, Earliest;
    ghost var before := used.keys;
    ghost var rows := DepositRows(o, input);
    var total: u128 := 0;
    NothingBooked(rows[..0], before);
    for i := 0 to |input.internalDeposits|
      invariant Booked(rows[..i], before)
      invariant used.keys == before + Consumed(rows[..i])
      invariant total == Total(rows[..i])
    {
      TakeRow(rows, before, i);
      assert rows[i] == DepositRow(o, input, input.internalDeposits[i]);
      var amount :- VerifyDeposit(o, input, input.internalDeposits[i], used);
      var sum := CheckedAdd(total, amount);
      if sum.None? {
        return Err("reciprocal: overflow");
      }
      total := sum.value;
    }
    assert rows[..|rows|] == rows;
    return Ok(total);
  }

  // ── The whole predicate ───────────────────────────────────────────────

  /** `end_a + end_b + total <= internal + (1 - alpha_self) * total`, in wrapping U256 arithmetic. */
  predicate SelfFinanced(endA: u256, endB: u256, total: u128, internalTotal: u128) {
    Wrap(Wrap(Wrap(endA + endB) + total) * BPS) <= Wrap(internalTotal * BPS + total * (BPS - ALPHA_SELF_BPS))
  }

  function Balance(o: Oracle, input: ReciprocalInput, ledger: BuyerLedger, member: Address): Result<u256> {
    Chain(o, input).StorageValue(ledger.end, input.periodEnd, DEPOSITS_ADDRESS, BuyerSlot(member))
  }

  ghost predicate WellFormed(input: ReciprocalInput) {
    && input.chainId == BASE_CHAIN_ID
    && 0 < input.periodStart <= input.periodEnd
    && input.addressA != ZERO_ADDRESS && input.addressB != ZERO_ADDRESS && input.addressA < input.addressB
  }

  function SellsA(o: Oracle, input: ReciprocalInput): nat {
    PartyTotal(SaleRows(o, input), input.addressA)
  }

  function SellsB(o: Oracle, input: ReciprocalInput): nat {
    PartyTotal(SaleRows(o, input), input.addressB)
  }

  ghost predicate PairHolds(o: Oracle, input: ReciprocalInput) {
    var sales, deposits := SaleRows(o, input), DepositRows(o, input);
    var a, b := SellsA(o, input), SellsB(o, input);
    var endA, endB := Balance(o, input, input.ledgerA, input.addressA),
      Balance(o, input, input.ledgerB, input.addressB);
    && WellFormed(input)
    && Authentic(o, input.blocks, input.periodStart, input.periodEnd)
    && input.settlements != []
    && Claimed(sales, {})
    && a + b < U128_LIMIT
    && MeetsRatio(Min(a, b), Max(a, b), BETA_RECIPROCAL_BPS)
    && Booked(deposits, Consumed(sales))
    && endA.Ok? && endB.Ok?
    && SelfFinanced(endA.value, endB.value, a + b, Total(deposits))
  }

  function ClaimId(input: ReciprocalInput): Hash {
    PairClaimHash(input.periodStart, input.periodEnd, input.addressA, input.addressB, PairEvidenceHash(input))
  }

  ghost function PairJournal(o: Oracle, input: ReciprocalInput): WashJournal
    requires SellsA(o, input) < U128_LIMIT && SellsB(o, input) < U128_LIMIT
  {
    var sales := SaleRows(o, input);
    WashJournal(
      RECIPROCAL_PREDICATE_ID, BASE_CHAIN_ID, input.periodStart, input.periodEnd, input.sourceClaimId, ClaimId(input),
      [SubjectRecord(input.addressA, SellsA(o, input), RecordsFor(sales, input.addressA)),
       SubjectRecord(input.addressB, SellsB(o, input), RecordsFor(sales, input.addressB))],
      JournalRefs(input.blocks))
  }

  method VerifyReciprocal(o: Oracle, input: ReciprocalInput) returns (r: Result<WashJournal>)
    ensures r.Ok? <==> PairHolds(o, input)
    ensures r.Ok? ==> r.value == PairJournal(o, input)
  {
    hide SaleRows, DepositRows, SelfFinanced, Balance, RecordsFor, PartyTotal, Total;
    if input.chainId != BASE_CHAIN_ID {
      return Err("unrecognized chain");
    }
    if input.periodStart == 0 || input.periodStart > input.periodEnd {
      return Err("reciprocal: invalid period");
    }
    if input.addressA == ZERO_ADDRESS || input.addressB == ZERO_ADDRESS || input.addressA >= input.addressB {
      return Err("reciprocal: pair must be nonzero and normalized");
    }
    var blockRefs :- AuthenticateBlocks(o, input.blocks, input.periodStart, input.periodEnd);
    var used := new UsedLogs();
    if input.settlements == [] {
      return Err("reciprocal: no settlements referenced");
    }
    var sales :- VerifySales(o, input, used);
    assert used.keys == Consumed(SaleRows(o, input));
    var total := CheckedAdd(sales.sellsA, sales.sellsB);
    if total.None? {
      return Err("reciprocal: overflow");
    }
    if !MeetsRatio(Min(sales.sellsA, sales.sellsB), Max(sales.sellsA, sales.sellsB), BETA_RECIPROCAL_BPS) {
      return Err("reciprocal: directional volumes are not reciprocal");
    }
    var internalTotal :- VerifyDeposits(o, input, used);
    var endA :- Balance(o, input, input.ledgerA, input.addressA);
    var endB :- Balance(o, input, input.ledgerB, input.addressB);
    if !SelfFinanced(endA, endB, total.value, internalTotal) {
      return Err("reciprocal: pair volume financed by external capital");
    }
    return Ok(WashJournal(
      RECIPROCAL_PREDICATE_ID, BASE_CHAIN_ID, input.periodStart, input.periodEnd, input.sourceClaimId, ClaimId(input),
      [SubjectRecord(input.addressA, sales.sellsA, sales.settlementsA),
       SubjectRecord(input.addressB, sales.sellsB, sales.settlementsB)],
      blockRefs));
  }

  // ── Bounds ────────────────────────────────────────────────────────────

  lemma {:induction false} PairTotal(rows: Rows, a: Address, b: Address)
    requires a != b && forall r :: r in rows && r.Some? ==> r.value.party in {a, b}
    ensures PartyTotal(rows, a) + PartyTotal(rows, b) == Total(rows)
  {
    if rows != [] {
      var init, last := rows[..|rows| - 1], rows[|rows| - 1];
      assert last in rows && forall r :: r in init ==> r in rows;
      PairTotal(init, a, b);
    }
  }

  /** Acceptance means both directions sold something and neither dominates: 9 * min >= 4 * total. */
  lemma BothDirectionsSell(o: Oracle, input: ReciprocalInput)
    requires PairHolds(o, input)
    ensures SellsA(o, input) > 0 && SellsB(o, input) > 0
    ensures 9 * Min(SellsA(o, input), SellsB(o, input)) >= 4 * (SellsA(o, input) + SellsB(o, input))
    ensures SellsA(o, input) + SellsB(o, input) == Total(SaleRows(o, input))
  {
    hide SaleRow, DepositRows, Claimed, SumBy, SelfFinanced, Balance;
    var rows := SaleRows(o, input);
    ClaimedIff(rows, {});
    forall r | r in rows && r.Some?
      ensures r.value.party in {input.addressA, input.addressB}
    {
      var k :| 0 <= k < |input.settlements| && SaleRow(o, input, input.settlements[k]) == r;
      SaleRowParts(o, input, input.settlements[k]);
    }
    PairTotal(rows, input.addressA, input.addressB);
    assert rows[0] in rows;
    SaleRowParts(o, input, input.settlements[0]);
    SumByTerm(rows, AmountOf, 0);
  }

  /** The wrapping sum and product are the exact ones reduced once. */
  lemma SelfFinancedWrap(endA: u256, endB: u256, total: u128)
    ensures Wrap(Wrap(Wrap(endA + endB) + total) * BPS) == ((endA + endB + total) * BPS) % U256_LIMIT
  {
    var n := endA + endB;
    var m := Wrap(n) + total;
    var k := if n < U256_LIMIT then 0 else 1;
    assert Wrap(n) == n - k * U256_LIMIT by { WrapOnce(n); }
    var j := if m < U256_LIMIT then 0 else 1;
    assert Wrap(m) == m - j * U256_LIMIT by { WrapOnce(m); }
    assert Wrap(m) * BPS == (n + total) * BPS - ((k + j) * BPS) * U256_LIMIT;
    SubtractMultiple((n + total) * BPS, (k + j) * BPS);
    WrapIsMod(Wrap(m) * BPS);
  }

  lemma WrapOnce(n: nat)
    requires n < 2 * U256_LIMIT
    ensures Wrap(n) == if n < U256_LIMIT then n else n - U256_LIMIT
  {
    if n >= U256_LIMIT {
      SubtractMultiple(n, 1);
      SmallMod(n - U256_LIMIT);
    }
  }

  lemma WrapIsMod(n: nat)
    ensures Wrap(n) == n % U256_LIMIT
  {
    if n < U256_LIMIT {
      SmallMod(n);
    }
  }

  ghost predicate ExactlySelfFinanced(endA: nat, endB: nat, total: nat, internalTotal: nat) {
    (endA + endB + total) * BPS <= internalTotal * BPS + total * (BPS - ALPHA_SELF_BPS)
  }

  /** The most that internal deposits and the tolerance can allow. */
  function MaxAllowance(total: u128): nat {
    (U128_LIMIT - 1) * BPS + total * (BPS - ALPHA_SELF_BPS)
  }

  /** The wrapping check decides the exact inequality, for every internal total, if and only if the left product does
      not wrap or wraps to more than any internal total can allow. */
  lemma SelfFinancedExactIff(endA: u256, endB: u256, total: u128)
    ensures (forall internalTotal: u128 ::
              SelfFinanced(endA, endB, total, internalTotal) <==> ExactlySelfFinanced(endA, endB, total, internalTotal))
      <==> (endA + endB + total) * BPS < U256_LIMIT || ((endA + endB + total) * BPS) % U256_LIMIT > MaxAllowance(total)
  {
    var exact := (endA + endB + total) * BPS;
    forall internalTotal: u128
      ensures SelfFinanced(endA, endB, total, internalTotal)
        <==> exact % U256_LIMIT <= internalTotal * BPS + total * (BPS - ALPHA_SELF_BPS)
    {
      SelfFinancedIs(endA, endB, total, internalTotal);
    }
    if exact < U256_LIMIT {
      SmallMod(exact);
    } else {
      var most: u128 := U128_LIMIT - 1;
      assert SelfFinanced(endA, endB, total, most) <==> exact % U256_LIMIT <= MaxAllowance(total);
      forall internalTotal: u128
        ensures !ExactlySelfFinanced(endA, endB, total, internalTotal)
      {
        assert internalTotal * BPS + total * (BPS - ALPHA_SELF_BPS) <= MaxAllowance(total);
      }
    }
  }

  /** Balances that wrap pass the check without any internal deposit, at the least volume a pair can have. */
  lemma SelfFinancedWraps()
    ensures SelfFinanced(U256_LIMIT - 2, 0, 2, 0) && !ExactlySelfFinanced(U256_LIMIT - 2, 0, 2, 0)
  {
    SelfFinancedWrap(U256_LIMIT - 2, 0, 2);
  }

  /** The most internal deposits that are still less than nine tenths of the volume do not pass. */
  ghost predicate DepositsForced(endA: u256, endB: u256, total: u128)
    requires total > 0
  {
    ((endA + endB + total) * BPS) % U256_LIMIT > total * (BPS - ALPHA_SELF_BPS) + (CeilDiv(9 * total, 10) - 1) * BPS
  }

  lemma TooFew(total: u128, internalTotal: u128)
    requires total > 0
    ensures 10 * internalTotal >= 9 * total <==> internalTotal >= CeilDiv(9 * total, 10)
    ensures 1 <= CeilDiv(9 * total, 10) <= total
  {
    CeilDivIsLeast(9 * total, 10, internalTotal);
    CeilDivIsLeast(9 * total, 10, 0);
    CeilDivIsLeast(9 * total, 10, total);
  }

  lemma SelfFinancedIs(endA: u256, endB: u256, total: u128, internalTotal: u128)
    ensures SelfFinanced(endA, endB, total, internalTotal)
      <==> ((endA + endB + total) * 10_000) % U256_LIMIT <= internalTotal * 10_000 + total * 1_000
  {
    SelfFinancedWrap(endA, endB, total);
    assert internalTotal * BPS + total * (BPS - ALPHA_SELF_BPS) <= MaxAllowance(total) < U256_LIMIT;
  }

  /** Exactly when the check implies that nine tenths of the volume were deposited from within the pair. */
  lemma InternallyFinancedIff(endA: u256, endB: u256, total: u128)
    requires total > 0
    ensures (forall internalTotal: u128 ::
              SelfFinanced(endA, endB, total, internalTotal) ==> 10 * internalTotal >= 9 * total)
      <==> DepositsForced(endA, endB, total)
  {
    hide SelfFinanced, CeilDiv;
    TooFew(total, 0);
    var most: u128 := CeilDiv(9 * total, 10) - 1;
    TooFew(total, most);
    SelfFinancedIs(endA, endB, total, most);
    if DepositsForced(endA, endB, total) {
      forall internalTotal: u128 | SelfFinanced(endA, endB, total, internalTotal)
        ensures 10 * internalTotal >= 9 * total
      {
        TooFew(total, internalTotal);
        SelfFinancedIs(endA, endB, total, internalTotal);
      }
    }
  }

  /** It does whenever the left product does not wrap. */
  lemma FittingBalancesForce(endA: u256, endB: u256, total: u128)
    requires total > 0 && (endA + endB + total) * BPS < U256_LIMIT
    ensures DepositsForced(endA, endB, total)
  {
    hide CeilDiv;
    var most: u128 := total;
    TooFew(total, 0);
    CeilDivIsLeast(9 * total, 10, CeilDiv(9 * total, 10) - 1);
    SmallMod((endA + endB + total) * BPS);
  }

  /** At least nine tenths of the volume of an accepted pair was deposited from within it, whenever its balances force
      that. */
  lemma InternallyFinanced(o: Oracle, input: ReciprocalInput)
    requires PairHolds(o, input) && SellsA(o, input) + SellsB(o, input) > 0
    requires DepositsForced(
      Balance(o, input, input.ledgerA, input.addressA).value, Balance(o, input, input.ledgerB, input.addressB).value,
      SellsA(o, input) + SellsB(o, input))
    ensures 10 * Total(DepositRows(o, input)) >= 9 * (SellsA(o, input) + SellsB(o, input))
  {
    hide SaleRows, DepositRows, SelfFinanced, PartyTotal, Total, Balance, DepositsForced;
    var endA, endB := Balance(o, input, input.ledgerA, input.addressA).value,
      Balance(o, input, input.ledgerB, input.addressB).value;
    var total := SellsA(o, input) + SellsB(o, input);
    InternallyFinancedIff(endA, endB, total);
    assert SelfFinanced(endA, endB, total, Total(DepositRows(o, input)));
  }

  // ── Records of the two members ────────────────────────────────────────

  function IdsOf(records: seq<SettlementRecord>): seq<Hash> {
    Map((r: SettlementRecord) => r.id, records)
  }

  /** Records of either member come from keys its rows consume, once each. */
  lemma {:induction false} RecordIds(rows: Rows, used: set<LogKey>, party: Address)
    requires Claimed(rows, used)
    ensures Distinct(IdsOf(RecordsFor(rows, party)))
    ensures forall id :: id in IdsOf(RecordsFor(rows, party)) ==> exists r :: r in rows && Records(r, party, id)
  {
    if rows != [] {
      var init, last := rows[..|rows| - 1], rows[|rows| - 1];
      RecordIds(init, used, party);
      assert rows == init + [last];
      assert last in rows && forall r :: r in init ==> r in rows;
      if last.value.party == party && last.value.keys != [] {
        var id := SettlementId(last.value.keys[0]);
        var before := IdsOf(RecordsFor(init, party));
        assert IdsOf(RecordsFor(rows, party)) == before + [id];
        assert last.value.keys[0] !in Consumed(init);
        forall r | r in init
          ensures !Records(r, party, id)
        {
          if r.Some? && r.value.keys != [] {
            assert r.value.keys[0] in KeysOf(r) && r.value.keys[0] in Consumed(init);
          }
        }
        assert id !in before;
        assert Records(last, party, id);
      }
    }
  }

  ghost predicate Records(r: Option<Row>, party: Address, id: Hash) {
    r.Some? && r.value.party == party && r.value.keys != [] && SettlementId(r.value.keys[0]) == id
  }

  lemma {:induction false} SameKeySameRow(rows: Rows, used: set<LogKey>, x: Option<Row>, y: Option<Row>, key: LogKey)
    requires Claimed(rows, used)
    requires x in rows && y in rows && key in KeysOf(x) && key in KeysOf(y)
    ensures x == y
  {
    var init, last := rows[..|rows| - 1], rows[|rows| - 1];
    assert rows == init + [last];
    if x in init && y in init {
      SameKeySameRow(init, used, x, y, key);
    }
  }

  /** No settlement is recorded for both members, nor twice for one, so their separate proofs never overlap; and
      the two volumes add up to the whole. */
  lemma MembersAreDisjoint(o: Oracle, input: ReciprocalInput)
    requires PairHolds(o, input)
    ensures var a, b := PairJournal(o, input).subjects[0], PairJournal(o, input).subjects[1];
      && Distinct(IdsOf(a.settlements)) && Distinct(IdsOf(b.settlements))
      && (forall id :: id in IdsOf(a.settlements) ==> id !in IdsOf(b.settlements))
      && a.washVolume + b.washVolume == Total(SaleRows(o, input))
  {
    hide SaleRow, DepositRows, SelfFinanced, Balance, RecordsFor, Claimed;
    var rows := SaleRows(o, input);
    RecordIds(rows, {}, input.addressA);
    RecordIds(rows, {}, input.addressB);
    BothDirectionsSell(o, input);
    var a, b := IdsOf(RecordsFor(rows, input.addressA)), IdsOf(RecordsFor(rows, input.addressB));
    forall id | id in a
      ensures id !in b
    {
      var x :| x in rows && Records(x, input.addressA, id);
      forall y | y in rows && y.Some? && y.value.keys != [] && y.value.keys[0] == x.value.keys[0]
        ensures y == x
      {
        SameKeySameRow(rows, {}, x, y, x.value.keys[0]);
      }
    }
  }
}
