/** The reciprocal pair, stated once more from the evidence alone, with every constant written out and no order of
    processing. */
module PairConservation {
  import opened Prelude
  import opened Hashing
  import opened Evidence
  import opened Booking
  import opened Journal
  import opened Reciprocal
  import opened Decoding
  import Rlp
  import Receipts
  import LoopTheorems

  // ── Sales ─────────────────────────────────────────────────────────────

  ghost predicate During(input: ReciprocalInput, e: Event) {
    input.periodStart <= e.number <= input.periodEnd
  }

  /** One member settled `amount` to the other, `seller`. */
  ghost predicate Sold(o: Oracle, input: ReciprocalInput, r: LogRef, seller: Address, amount: nat) {
    && amount > 0 && Found(Chain(o, input), r).Some?
    && var paid := Found(Chain(o, input), r).value;
    && During(input, paid)
    && ((seller == input.addressA && IsSettlement(paid.content, input.addressB, input.addressA, amount))
        || (seller == input.addressB && IsSettlement(paid.content, input.addressA, input.addressB, amount)))
  }

  lemma SaleRowIff(o: Oracle, input: ReciprocalInput, r: LogRef)
    ensures SaleRow(o, input, r).Some? ==>
      Sold(o, input, r, SaleRow(o, input, r).value.party, SaleRow(o, input, r).value.amount)
    ensures forall seller, amount :: Sold(o, input, r, seller, amount) ==>
      && SaleRow(o, input, r).Some?
      && SaleRow(o, input, r).value.party == seller && SaleRow(o, input, r).value.amount == amount
  {
    hide ChainResolver.Key, ChainResolver.SettlementAt, Found, IsSettlement;
    var chain := Chain(o, input);
    ResolvesIff(chain, r);
    if SaleRow(o, input, r).Some? {
      SettlementIff(chain, r, chain.SettlementAt(r).value);
    }
    forall seller, amount | Sold(o, input, r, seller, amount)
      ensures SaleRow(o, input, r).Some?
      ensures SaleRow(o, input, r).value.party == seller && SaleRow(o, input, r).value.amount == amount
    {
      var paid := Found(chain, r).value;
      var buyer := if IsSettlement(paid.content, input.addressB, input.addressA, amount) && seller == input.addressA
        then input.addressB else input.addressA;
      AmountFits(paid.content, buyer, seller, amount);
      SettlementIff(chain, r, Settlement(0, buyer, seller, amount, paid.number));
    }
  }

  lemma AmountFits(log: Receipts.ParsedLog, buyer: Address, seller: Address, amount: nat)
    requires IsSettlement(log, buyer, seller, amount)
    ensures amount < U128_LIMIT
  {
  }

  // ── Deposits ──────────────────────────────────────────────────────────

  /** One of the two members, `payer`, sent `amount` to the deposits contract, which credits it to a member later in the
      same receipt, in a transaction that the payer signed. */
  ghost predicate Paid(o: Oracle, input: ReciprocalInput, e: PairDepositEvidence, payer: Address, amount: nat) {
    var chain := Chain(o, input);
    && amount > 0
    && (e.member == input.addressA || e.member == input.addressB)
    && (payer == input.addressA || payer == input.addressB)
    && Found(chain, e.transfer).Some? && Found(chain, e.deposited).Some?
    && var (sent, credited) := (Found(chain, e.transfer).value, Found(chain, e.deposited).value);
    && e.transfer.block == e.deposited.block && e.transfer.receipt == e.deposited.receipt
    && e.transfer.log < e.deposited.log
    && During(input, sent)
    && IsTransfer(sent.content, payer, 0x0F7a3a8f4Da01637d1202bb5443fcF7F88F99fD2, amount)
    && IsDeposit(credited.content, e.member, amount)
    && Signs(chain, e.transfer, payer)
  }

  lemma SameReceipt(chain: ChainResolver, a: LogRef, b: LogRef)
    requires a.block == b.block && a.receipt == b.receipt && Found(chain, a).Some? && Found(chain, b).Some?
    ensures var (x, y) := (Found(chain, a).value, Found(chain, b).value);
      && x.number == y.number && x.transaction == y.transaction && x.log == a.log && y.log == b.log
      && (LogKey(x.number, x.transaction, x.log).Before(LogKey(y.number, y.transaction, y.log)) <==> a.log < b.log)
  {
  }

  /** A deposit row is accepted exactly when the evidence shows a deposit paid and signed by a
      member, with its amount. */
  lemma DepositRowIff(o: Oracle, input: ReciprocalInput, e: PairDepositEvidence)
    ensures DepositRow(o, input, e).Some? ==>
      exists payer :: Paid(o, input, e, payer, DepositRow(o, input, e).value.amount)
    ensures forall payer, amount :: Paid(o, input, e, payer, amount) ==>
      && DepositRow(o, input, e).Some?
      && DepositRow(o, input, e).value.amount == amount && DepositRow(o, input, e).value.party == e.member
  {
    hide ChainResolver.Key, ChainResolver.UsdcTransfer, ChainResolver.ProtocolDeposit, ChainResolver.SignedBy, Found,
      IsTransfer, IsDeposit, Signs, LogKey.Before;
    var chain := Chain(o, input);
    ResolvesIff(chain, e.transfer);
    ResolvesIff(chain, e.deposited);
    if e.transfer.block == e.deposited.block && e.transfer.receipt == e.deposited.receipt
       && Found(chain, e.transfer).Some? && Found(chain, e.deposited).Some? {
      SameReceipt(chain, e.transfer, e.deposited);
    }
    if DepositRow(o, input, e).Some? {
      var t := chain.UsdcTransfer(e.transfer).value;
      TransferIff(chain, e.transfer, t);
      DepositIff(chain, e.deposited, chain.ProtocolDeposit(e.deposited).value);
      SignedByIff(chain, e.transfer, t.from);
      assert Paid(o, input, e, t.from, DepositRow(o, input, e).value.amount);
    }
    forall payer, amount | Paid(o, input, e, payer, amount)
      ensures DepositRow(o, input, e).Some?
      ensures DepositRow(o, input, e).value.amount == amount && DepositRow(o, input, e).value.party == e.member
    {
      var number := Found(chain, e.transfer).value.number;
      CarriedFits(Found(chain, e.transfer).value.content, payer, DEPOSITS_ADDRESS, amount);
      TransferIff(chain, e.transfer, Transfer(payer, DEPOSITS_ADDRESS, amount, number));
      DepositIff(chain, e.deposited, Deposit(e.member, amount, number));
      SignedByIff(chain, e.transfer, payer);
    }
  }

  lemma CarriedFits(log: Receipts.ParsedLog, from: Address, to: Address, amount: nat)
    requires IsTransfer(log, from, to, amount)
    ensures amount < U128_LIMIT
  {
  }

  // ── Amounts ───────────────────────────────────────────────────────────

  function SoldIn(o: Oracle, input: ReciprocalInput, r: LogRef, seller: Address): nat {
    match Found(Chain(o, input), r)
    case Some(e) =>
      if |e.content.topics| == 4 && |e.content.topics[3]| == 32 && Rlp.BeNat(e.content.topics[3][12..]) == seller
         && |e.content.data| >= 64
      then Rlp.BeNat(e.content.data[32..64]) else 0
    case None => 0
  }

  function SoldBy(o: Oracle, input: ReciprocalInput, seller: Address): LogRef -> nat {
    (r: LogRef) => SoldIn(o, input, r, seller)
  }

  function PaidIn(o: Oracle, input: ReciprocalInput, e: PairDepositEvidence): nat {
    match Found(Chain(o, input), e.transfer)
    case Some(sent) => Rlp.BeNat(sent.content.data)
    case None => 0
  }

  function PaidAmount(o: Oracle, input: ReciprocalInput): PairDepositEvidence -> nat {
    (e: PairDepositEvidence) => PaidIn(o, input, e)
  }

  lemma SaleRowAmount(o: Oracle, input: ReciprocalInput, r: LogRef, seller: Address)
    requires SaleRow(o, input, r).Some? && input.addressA != input.addressB
    ensures AmountFor(seller)(SaleRow(o, input, r)) == SoldIn(o, input, r, seller)
  {
    hide SaleRow, Found;
    SaleRowIff(o, input, r);
  }

  lemma DepositRowAmount(o: Oracle, input: ReciprocalInput, e: PairDepositEvidence)
    requires DepositRow(o, input, e).Some?
    ensures AmountOf(DepositRow(o, input, e)) == PaidIn(o, input, e)
  {
    hide DepositRow, Found, IsDeposit;
    DepositRowIff(o, input, e);
  }

  lemma SalesTotal(o: Oracle, input: ReciprocalInput, seller: Address)
    requires AllAccepted(SaleRows(o, input)) && input.addressA != input.addressB
    ensures PartyTotal(SaleRows(o, input), seller) == SumBy(input.settlements, SoldBy(o, input, seller))
  {
    hide SaleRow, SumBy, SoldIn;
    var rows := SaleRows(o, input);
    forall k | 0 <= k < |rows|
      ensures AmountFor(seller)(rows[k]) == SoldBy(o, input, seller)(input.settlements[k])
    {
      assert rows[k] in rows;
      SaleRowAmount(o, input, input.settlements[k], seller);
    }
    SumIndexed(rows, AmountFor(seller), input.settlements, SoldBy(o, input, seller));
  }

  lemma DepositsTotal(o: Oracle, input: ReciprocalInput)
    requires AllAccepted(DepositRows(o, input))
    ensures Total(DepositRows(o, input)) == SumBy(input.internalDeposits, PaidAmount(o, input))
  {
    hide DepositRow, SumBy, PaidIn;
    var rows := DepositRows(o, input);
    forall k | 0 <= k < |rows|
      ensures AmountOf(rows[k]) == PaidAmount(o, input)(input.internalDeposits[k])
    {
      assert rows[k] in rows;
      DepositRowAmount(o, input, input.internalDeposits[k]);
    }
    SumIndexed(rows, AmountOf, input.internalDeposits, PaidAmount(o, input));
  }

  // ── No log is counted twice ───────────────────────────────────────────

  function DepositRefs(e: PairDepositEvidence): seq<LogRef> {
    [e.transfer, e.deposited]
  }

  function AllRefs(input: ReciprocalInput): seq<LogRef> {
    Concat(Map(LoopTheorems.Single, input.settlements)) + Concat(Map(DepositRefs, input.internalDeposits))
  }

  lemma TwoLegs(s: Rows, d: Rows)
    ensures Claimed(s, {}) && Booked(d, Consumed(s))
      <==>
      && AllAccepted(s) && AllAccepted(d)
      && Distinct(LoopTheorems.KeyList(s) + LoopTheorems.KeyList(d)) && Total(d) < U128_LIMIT
  {
    hide Claimed, Consumed, Uses, LoopTheorems.KeyList, Total;
    ClaimedIff(s, {});
    BookedIff(d, Consumed(s));
    var keys := LoopTheorems.KeyList(s) + LoopTheorems.KeyList(d);
    DistinctCount(keys);
    forall k
      ensures multiset(keys)[k] == Uses(s, k) + Uses(d, k)
      ensures k in Consumed(s) <==> Uses(s, k) > 0
    {
      LoopTheorems.UsesInKeyList(s, k);
      LoopTheorems.UsesInKeyList(d, k);
      ConsumedUses(s, k);
    }
  }

  lemma SaleRowKeys(o: Oracle, input: ReciprocalInput, r: LogRef)
    requires SaleRow(o, input, r).Some?
    ensures KeysOf(SaleRow(o, input, r)) == Map(LoopTheorems.KeyAt(Chain(o, input)), LoopTheorems.Single(r))
    ensures LoopTheorems.Resolves(Chain(o, input), LoopTheorems.Single(r))
  {
    hide ChainResolver.Key, ChainResolver.SettlementAt;
  }

  lemma DepositRowKeys(o: Oracle, input: ReciprocalInput, e: PairDepositEvidence)
    requires DepositRow(o, input, e).Some?
    ensures KeysOf(DepositRow(o, input, e)) == Map(LoopTheorems.KeyAt(Chain(o, input)), DepositRefs(e))
    ensures LoopTheorems.Resolves(Chain(o, input), DepositRefs(e))
  {
    hide ChainResolver.Key, ChainResolver.UsdcTransfer, ChainResolver.ProtocolDeposit, ChainResolver.SignedBy;
  }

  lemma KeyLists(o: Oracle, input: ReciprocalInput)
    requires AllAccepted(SaleRows(o, input)) && AllAccepted(DepositRows(o, input))
    ensures LoopTheorems.KeyList(SaleRows(o, input)) + LoopTheorems.KeyList(DepositRows(o, input))
      == Map(LoopTheorems.KeyAt(Chain(o, input)), AllRefs(input))
    ensures LoopTheorems.Resolves(Chain(o, input), AllRefs(input))
  {
    hide SaleRow, DepositRow, LoopTheorems.KeyAt, Concat;
    var chain := Chain(o, input);
    var sales, deposits := SaleRows(o, input), DepositRows(o, input);
    var s, d := Map(LoopTheorems.Single, input.settlements), Map(DepositRefs, input.internalDeposits);
    forall k | 0 <= k < |sales|
      ensures KeysOf(sales[k]) == Map(LoopTheorems.KeyAt(chain), s[k]) && LoopTheorems.Resolves(chain, s[k])
    {
      assert sales[k] in sales;
      SaleRowKeys(o, input, input.settlements[k]);
    }
    forall k | 0 <= k < |deposits|
      ensures KeysOf(deposits[k]) == Map(LoopTheorems.KeyAt(chain), d[k]) && LoopTheorems.Resolves(chain, d[k])
    {
      assert deposits[k] in deposits;
      DepositRowKeys(o, input, input.internalDeposits[k]);
    }
    LoopTheorems.KeyListOfGroups(chain, sales, s);
    LoopTheorems.KeyListOfGroups(chain, deposits, d);
    MapConcat(LoopTheorems.KeyAt(chain), Concat(s), Concat(d));
  }

  // ── The pair ──────────────────────────────────────────────────────────

  ghost predicate IsSale(o: Oracle, input: ReciprocalInput, r: LogRef) {
    exists seller, amount: nat :: Sold(o, input, r, seller, amount)
  }

  ghost predicate IsPaid(o: Oracle, input: ReciprocalInput, e: PairDepositEvidence) {
    exists payer, amount: nat :: Paid(o, input, e, payer, amount)
  }

  /** The period-end balance of a member, read from its balance slot under the state root of the period-end block. */
  ghost predicate Holds(o: Oracle, input: ReciprocalInput, ledger: BuyerLedger, member: Address, balance: nat) {
    && ledger.end.block < |input.blocks| && input.blocks[ledger.end.block].header.number == input.periodEnd
    && o.storage(input.blocks[ledger.end.block].header.stateRoot, 0x0F7a3a8f4Da01637d1202bb5443fcF7F88F99fD2,
                 Slot(member, 9, 0), ledger.end.proof) == Ok(balance)
  }

  ghost predicate Framed(input: ReciprocalInput) {
    && input.chainId == 8_453 && 1 <= input.periodStart <= input.periodEnd
    && 0 < input.addressA < input.addressB
  }

  /** The pair, stated without any order of processing. */
  ghost predicate ConservedPair(o: Oracle, input: ReciprocalInput) {
    var a, b := SumBy(input.settlements, SoldBy(o, input, input.addressA)),
      SumBy(input.settlements, SoldBy(o, input, input.addressB));
    var internal := SumBy(input.internalDeposits, PaidAmount(o, input));
    && Framed(input)
    && Genuine(o, input.blocks, input.periodStart, input.periodEnd)
    && input.settlements != []
    && (forall r :: r in input.settlements ==> IsSale(o, input, r))
    && (forall e :: e in input.internalDeposits ==> IsPaid(o, input, e))
    && Distinct(AllRefs(input))
    && a + b < U128_LIMIT && internal < U128_LIMIT
    && a * 10_000 >= b * 8_000 && b * 10_000 >= a * 8_000
    && Financed(o, input, a + b, internal)
  }

  /** With balances `x` and `y` at the end, the deposits and a tenth of the volume cover what is held and was sold. */
  ghost predicate WithinTenth(x: nat, y: nat, total: nat, internal: nat) {
    ((x + y + total) * 10_000) % U256_LIMIT <= internal * 10_000 + total * 1_000
  }

  ghost predicate Financed(o: Oracle, input: ReciprocalInput, total: nat, internal: nat) {
    exists x: nat, y: nat ::
      && Holds(o, input, input.ledgerA, input.addressA, x) && Holds(o, input, input.ledgerB, input.addressB, y)
      && WithinTenth(x, y, total, internal)
  }

  lemma RowsAccepted(o: Oracle, input: ReciprocalInput)
    ensures AllAccepted(SaleRows(o, input)) <==> forall r :: r in input.settlements ==> IsSale(o, input, r)
    ensures AllAccepted(DepositRows(o, input)) <==> forall e :: e in input.internalDeposits ==> IsPaid(o, input, e)
  {
    hide SaleRow, DepositRow, Sold, Paid;
    var sales, deposits := SaleRows(o, input), DepositRows(o, input);
    forall k | 0 <= k < |sales|
      ensures sales[k].Some? <==> IsSale(o, input, input.settlements[k])
      ensures sales[k] in sales && input.settlements[k] in input.settlements
    {
      SaleRowIff(o, input, input.settlements[k]);
    }
    forall k | 0 <= k < |deposits|
      ensures deposits[k].Some? <==> IsPaid(o, input, input.internalDeposits[k])
      ensures deposits[k] in deposits && input.internalDeposits[k] in input.internalDeposits
    {
      DepositRowIff(o, input, input.internalDeposits[k]);
    }
  }

  lemma FramedIff(input: ReciprocalInput)
    ensures Reciprocal.WellFormed(input) <==> Framed(input)
  {
  }

  lemma BalanceIff(o: Oracle, input: ReciprocalInput, ledger: BuyerLedger, member: Address, balance: u256)
    ensures Balance(o, input, ledger, member) == Ok(balance) <==> Holds(o, input, ledger, member, balance)
  {
  }

  /** With both directions summed, the remaining checks are the declarative ones. */
  lemma FinancedIff(o: Oracle, input: ReciprocalInput, total: u128, internal: u128)
    ensures (var (x, y) := (Balance(o, input, input.ledgerA, input.addressA),
      Balance(o, input, input.ledgerB, input.addressB));
             x.Ok? && y.Ok? && SelfFinanced(x.value, y.value, total, internal))
      <==> Financed(o, input, total, internal)
  {
    hide Balance, SelfFinanced, Holds;
    var (x, y) := (Balance(o, input, input.ledgerA, input.addressA), Balance(o, input, input.ledgerB, input.addressB));
    if x.Ok? && y.Ok? {
      BalanceIff(o, input, input.ledgerA, input.addressA, x.value);
      BalanceIff(o, input, input.ledgerB, input.addressB, y.value);
      SelfFinancedIs(x.value, y.value, total, internal);
    }
    forall p: nat, q: nat | Holds(o, input, input.ledgerA, input.addressA, p) &&
      Holds(o, input, input.ledgerB, input.addressB, q)
      ensures x == Ok(p) && y == Ok(q)
    {
      HeldFits(o, input, input.ledgerA, input.addressA, p);
      HeldFits(o, input, input.ledgerB, input.addressB, q);
      BalanceIff(o, input, input.ledgerA, input.addressA, p);
      BalanceIff(o, input, input.ledgerB, input.addressB, q);
    }
  }

  lemma HeldFits(o: Oracle, input: ReciprocalInput, ledger: BuyerLedger, member: Address, balance: nat)
    requires Holds(o, input, ledger, member, balance)
    ensures balance < U256_LIMIT
  {
  }

  lemma RatioIff(a: nat, b: nat)
    requires a + b < U128_LIMIT
    ensures MeetsRatio(Min(a, b), Max(a, b), BETA_RECIPROCAL_BPS) <==>
      a * 10_000 >= b * 8_000 && b * 10_000 >= a * 8_000
  {
  }

  /** Refinement: the loops of the predicate, in their order and with their shared set of used logs, accept exactly the
      pairs that satisfy the declarative predicate. */
  lemma PairHoldsIff(o: Oracle, input: ReciprocalInput)
    ensures PairHolds(o, input) <==> ConservedPair(o, input)
  {
    hide SaleRow, DepositRow, IsSale, IsPaid, Claimed, Booked, PartyTotal, Total, Authentic, Genuine,
      Reciprocal.WellFormed, Framed, AllRefs, Consumed, Balance, SelfFinanced, Holds, MeetsRatio, SoldBy, PaidAmount;
    var s, d := SaleRows(o, input), DepositRows(o, input);
    FramedIff(input);
    AuthenticIff(o, input.blocks, input.periodStart, input.periodEnd);
    RowsAccepted(o, input);
    TwoLegs(s, d);
    if AllAccepted(s) && AllAccepted(d) && Authentic(o, input.blocks, input.periodStart, input.periodEnd) &&
      Framed(input) {
      Members(input);
      KeyLists(o, input);
      LoopTheorems.DistinctKeysAreDistinctRefs(Chain(o, input), input.periodStart, input.periodEnd, AllRefs(input));
      SalesTotal(o, input, input.addressA);
      SalesTotal(o, input, input.addressB);
      DepositsTotal(o, input);
      var a, b := SellsA(o, input), SellsB(o, input);
      if a + b < U128_LIMIT && Total(d) < U128_LIMIT {
        RatioIff(a, b);
        FinancedIff(o, input, a + b, Total(d));
      }
    }
  }

  lemma Members(input: ReciprocalInput)
    requires Framed(input)
    ensures input.addressA != input.addressB
  {
  }

  // ── The journal ───────────────────────────────────────────────────────

  /** The record of a sale by `seller`, if it is one. */
  function RecordIn(o: Oracle, input: ReciprocalInput, r: LogRef, seller: Address): seq<SettlementRecord> {
    match Found(Chain(o, input), r)
    case Some(e) =>
      var amount := SoldIn(o, input, r, seller);
      if 0 < amount < U128_LIMIT
      then [SettlementRecord(SettlementHash(8_453, e.number, e.transaction, e.log), amount)] else []
    case None => []
  }

  function RecordsOf(o: Oracle, input: ReciprocalInput, seller: Address): seq<SettlementRecord> {
    Concat(Map((r: LogRef) => RecordIn(o, input, r, seller), input.settlements))
  }

  lemma {:induction false} RecordsForIs(o: Oracle, input: ReciprocalInput, rows: Rows, refs: seq<LogRef>,
                                        seller: Address)
    requires input.addressA != input.addressB && |rows| == |refs|
    requires forall k :: 0 <= k < |rows| ==> rows[k] == SaleRow(o, input, refs[k]) && rows[k].Some?
    ensures RecordsFor(rows, seller) == Concat(Map((r: LogRef) => RecordIn(o, input, r, seller), refs))
    decreases |rows|
  {
    hide SaleRow, RecordIn;
    var f := (r: LogRef) => RecordIn(o, input, r, seller);
    if rows == [] {
      assert Map(f, refs) == [];
    } else {
      var n := |rows| - 1;
      RecordsForIs(o, input, rows[..n], refs[..n], seller);
      RecordIs(o, input, refs[n], seller);
      assert Map(f, refs) == Map(f, refs[..n]) + [f(refs[n])];
      ConcatSnoc(Map(f, refs[..n]), f(refs[n]));
    }
  }

  lemma RecordIs(o: Oracle, input: ReciprocalInput, r: LogRef, seller: Address)
    requires SaleRow(o, input, r).Some? && input.addressA != input.addressB
    ensures var row := SaleRow(o, input, r).value;
      row.keys != [] && RecordIn(o, input, r, seller)
        == if row.party == seller then [SettlementRecord(SettlementId(row.keys[0]), row.amount)] else []
  {
    SaleRowAmount(o, input, r, seller);
    SaleRowParts(o, input, r);
    hide SaleRow, Found, SoldIn;
    ResolvesIff(Chain(o, input), r);
  }

  /** The journal of an accepted pair: the claim it is about, one subject for each member with exactly the sum of its
      sales and one record each, in order, and the references of its blocks. */
  lemma PairJournalIs(o: Oracle, input: ReciprocalInput)
    requires PairHolds(o, input)
    ensures var a, b := SumBy(input.settlements, SoldBy(o, input, input.addressA)),
        SumBy(input.settlements, SoldBy(o, input, input.addressB));
      && a < U128_LIMIT && b < U128_LIMIT
      && PairJournal(o, input) == WashJournal(
           2, 8_453, input.periodStart, input.periodEnd, input.sourceClaimId,
           PairClaimHash(input.periodStart, input.periodEnd, input.addressA, input.addressB, PairEvidenceHash(input)),
           [SubjectRecord(input.addressA, a, RecordsOf(o, input, input.addressA)),
            SubjectRecord(input.addressB, b, RecordsOf(o, input, input.addressB))],
           JournalRefs(input.blocks))
  {
    hide SaleRow, DepositRows, Claimed, JournalRefs, SelfFinanced, Balance, RecordIn, SoldIn;
    var rows := SaleRows(o, input);
    ClaimedIff(rows, {});
    SalesTotal(o, input, input.addressA);
    SalesTotal(o, input, input.addressB);
    forall k | 0 <= k < |rows|
      ensures rows[k] == SaleRow(o, input, input.settlements[k]) && rows[k].Some?
    {
      assert rows[k] in rows;
    }
    RecordsForIs(o, input, rows, input.settlements, input.addressA);
    RecordsForIs(o, input, rows, input.settlements, input.addressB);
  }
}
