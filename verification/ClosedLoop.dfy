/** The closed-loop predicate: capital from the funder to the buyers (FUND), settlements from the buyers to the
    seller (SETTLE), the buyers' period-end balances (LEDGER), and transfers from the seller back to the funder
    (RETURN). Each pass is the loop of the original, proved to accept exactly when its rows are booked. */
module ClosedLoop {
  import opened Prelude
  import opened Hashing
  import opened Evidence
  import opened Booking
  import opened Journal
  import Receipts

  const CLOSED_LOOP_PREDICATE_ID: nat := 1

  function Chain(o: Oracle, input: ClosedLoopInput): ChainResolver {
    ChainResolver(o, input.blocks)
  }

  // ── FUND ──────────────────────────────────────────────────────────────

  /** One decoded and checked funding, or `None` when the evidence is refused. */
  function FundRow(o: Oracle, input: ClosedLoopInput, e: FundingEvidence): Option<Row> {
    var chain := Chain(o, input);
    if e.buyer !in input.buyers then None
    else
      match e.kind
      case Native(_, _, _) => None
      case Usdc(transfer) =>
        (match (chain.Key(transfer), chain.UsdcTransfer(transfer), chain.Timestamp(transfer))
         case (Ok(key), Ok(t), Ok(time)) =>
           if InPeriod(t.block, input.periodStart, input.periodEnd) && t.from == input.funder && t.to == e.buyer &&
             t.amount != 0
           then Some(Row([key], e.buyer, t.amount, time))
           else None
         case _ => None)
      case ProtocolDeposit(transfer, deposited) =>
        if transfer.block != deposited.block || transfer.receipt != deposited.receipt then None
        else
          match (chain.Key(transfer), chain.Key(deposited), chain.UsdcTransfer(transfer),
            chain.ProtocolDeposit(deposited), chain.Timestamp(transfer))
          case (Ok(first), Ok(second), Ok(t), Ok(d), Ok(time)) =>
            if && first.Before(second)
               && InPeriod(t.block, input.periodStart, input.periodEnd)
               && t.from == input.funder && t.to == DEPOSITS_ADDRESS
               && d.buyer == e.buyer && t.amount == d.amount && d.amount != 0
               && chain.SignedBy(input.funder, transfer)
            then Some(Row([first, second], e.buyer, d.amount, time))
            else None
          case _ => None
  }

  function FundRows(o: Oracle, input: ClosedLoopInput): Rows {
    Map((e: FundingEvidence) => FundRow(o, input, e), input.fundings)
  }

  datatype FundingSummary = FundingSummary(usdcPerBuyer: map<Address, u128>, totalUsdc: u128,
                                           earliest: map<Address, u64>)

  /** What a funding summary says about the rows it was built from. */
  ghost predicate SummarizesFunds(s: FundingSummary, rows: Rows) {
    && s.totalUsdc == Total(rows)
    && (forall b :: b in s.earliest <==> EarliestFor(rows, b).Some?)
    && (forall b :: b in s.earliest ==> Some(s.earliest[b]) == EarliestFor(rows, b))
    && (forall b :: PerBuyer(s.usdcPerBuyer, b) == PartyTotal(rows, b))
  }

  function AddFunding(s: FundingSummary, buyer: Address, per: u128, total: u128, time: u64): FundingSummary {
    FundingSummary(
      s.usdcPerBuyer[buyer := per], total,
      s.earliest[buyer := if buyer in s.earliest then Min(s.earliest[buyer], time) else time])
  }

  function PerBuyer(totals: map<Address, u128>, buyer: Address): u128 {
    if buyer in totals then totals[buyer] else 0
  }

  lemma AddFundingSummarizes(s: FundingSummary, rows: Rows, i: nat, per: u128, total: u128)
    requires i < |rows| && rows[i].Some? && SummarizesFunds(s, rows[..i])
    requires total == s.totalUsdc + rows[i].value.amount == Total(rows[..i + 1])
    requires per == PerBuyer(s.usdcPerBuyer, rows[i].value.party) + rows[i].value.amount
    ensures SummarizesFunds(AddFunding(s, rows[i].value.party, per, total, rows[i].value.time), rows[..i + 1])
  {
    hide EarliestFor, PartyTotal, Total;
    forall b {
      TakeRowFor(rows, i, b);
    }
  }

  ghost predicate FundsHold(o: Oracle, input: ClosedLoopInput, used: set<LogKey>) {
    && Booked(FundRows(o, input), used)
    && forall b :: b in input.buyers ==> EarliestFor(FundRows(o, input), b).Some?
  }

  /** One evidence item of `verify_fundings`: its logs are claimed before its amounts are checked. */
  method VerifyFunding(o: Oracle, input: ClosedLoopInput, e: FundingEvidence, used: UsedLogs)
    returns (r: Result<(u128, u64)>)
    modifies used
    ensures var row := FundRow(o, input, e);
      && (r.Ok? <==> row.Some? && Fresh(row.value.keys, old(used.keys)))
      && (r.Ok? ==> r.value == (row.value.amount, row.value.time))
      && (r.Ok? ==> used.keys == old(used.keys) + Elements(row.value.keys))
  {
    hide ChainResolver.Key, ChainResolver.UsdcTransfer, ChainResolver.ProtocolDeposit, ChainResolver.Timestamp,
      ChainResolver.SignedBy;
    var chain := Chain(o, input);
    if e.buyer !in input.buyers {
      return Err("funding: buyer outside the cohort");
    }
    match e.kind
    case Usdc(transfer) =>
      var key :- chain.Key(transfer);
      assert [key][0] == key;
      var added := used.Insert(key);
      if !added {
        return Err("funding: duplicate evidence");
      }
      var t :- chain.UsdcTransfer(transfer);
      if !InPeriod(t.block, input.periodStart, input.periodEnd) {
        return Err("funding transfer is outside the fixed enforcement period");
      }
      if t.from != input.funder || t.to != e.buyer || t.amount == 0 {
        return Err("funding: invalid direct USDC funding");
      }
      var time :- chain.Timestamp(transfer);
      return Ok((t.amount, time));
    case ProtocolDeposit(transfer, deposited) =>
      if transfer.block != deposited.block || transfer.receipt != deposited.receipt {
        return Err("funding: deposit logs must share one receipt");
      }
      var first :- chain.Key(transfer);
      var second :- chain.Key(deposited);
      if !first.Before(second) {
        return Err("funding: transfer must precede its Deposited log");
      }
      assert [first, second][0] == first && [first, second][1] == second;
      var firstAdded := used.Insert(first);
      if !firstAdded {
        return Err("funding: duplicate evidence");
      }
      var secondAdded := used.Insert(second);
      if !secondAdded {
        return Err("funding: duplicate evidence");
      }
      var t :- chain.UsdcTransfer(transfer);
      if !InPeriod(t.block, input.periodStart, input.periodEnd) {
        return Err("funding deposit is outside the fixed enforcement period");
      }
      var d :- chain.ProtocolDeposit(deposited);
      if t.from != input.funder || t.to != DEPOSITS_ADDRESS || d.buyer != e.buyer || t.amount != d.amount ||
        d.amount == 0 {
        return Err("funding: invalid protocol-deposit funding");
      }
      if !chain.SignedBy(input.funder, transfer) {
        return Err("transaction signer mismatch");
      }
      var time :- chain.Timestamp(transfer);
      return Ok((d.amount, time));
    case Native(_, _, _) =>
      return Err("funding: native funding is not supported");
  }

  method VerifyFundings(o: Oracle, input: ClosedLoopInput, used: UsedLogs) returns (r: Result<FundingSummary>)
    modifies used
    ensures r.Ok? <==> FundsHold(o, input, old(used.keys))
    ensures r.Ok? ==> SummarizesFunds(r.value, FundRows(o, input))
    ensures r.Ok? ==> used.keys == old(used.keys) + Consumed(FundRows(o, input))
  {
    hide FundRow, Booked, SumBy, EarliestFor, Consumed, AddFunding, Fresh;
    ghost var before := used.keys;
    ghost var rows := FundRows(o, input);
    if exists k :: 0 <= k < |input.fundings| && input.fundings[k].kind.Native? {
      NativeIsRefused(o, input, before);
      return Err("funding: native funding is not supported");
    }
    var summary := FundingSummary(map[], 0, map[]);
    NothingBooked(rows[..0], before);
    for i := 0 to |input.fundings|
      invariant Booked(rows[..i], before)
      invariant used.keys == before + Consumed(rows[..i])
      invariant SummarizesFunds(summary, rows[..i])
    {
      TakeRow(rows, before, i);
      var e := input.fundings[i];
      assert rows[i] == FundRow(o, input, e);
      var checked := VerifyFunding(o, input, e, used);
      if checked.Err? {
        return Err(checked.message);
      }
      var (amount, time) := checked.value;
      PartyWithinTotal(rows[..i], e.buyer);
      RowIsForBuyer(o, input, e);
      var per := CheckedAdd(PerBuyer(summary.usdcPerBuyer, e.buyer), amount);
      if per.None? {
        return Err("funding: overflow");
      }
      var total := CheckedAdd(summary.totalUsdc, amount);
      if total.None? {
        return Err("funding: overflow");
      }
      AddFundingSummarizes(summary, rows, i, per.value, total.value);
      summary := AddFunding(summary, e.buyer, per.value, total.value, time);
    }
    assert rows[..|rows|] == rows;
    for i := 0 to |input.buyers|
      invariant forall k :: 0 <= k < i ==> input.buyers[k] in summary.earliest
    {
      if input.buyers[i] !in summary.earliest {
        return Err("funding: every buyer in the cohort must be funded");
      }
    }
    return Ok(summary);
  }

  lemma NativeIsRefused(o: Oracle, input: ClosedLoopInput, used: set<LogKey>)
    requires exists k :: 0 <= k < |input.fundings| && input.fundings[k].kind.Native?
    ensures !Booked(FundRows(o, input), used)
  {
    var rows := FundRows(o, input);
    var k :| 0 <= k < |input.fundings| && input.fundings[k].kind.Native?;
    assert rows[k] == FundRow(o, input, input.fundings[k]) == None;
    BookedIff(rows, used);
    assert rows[k] in rows;
  }

  lemma RowIsForBuyer(o: Oracle, input: ClosedLoopInput, e: FundingEvidence)
    ensures FundRow(o, input, e).Some? ==> FundRow(o, input, e).value.party == e.buyer
  {
    hide Receipts.ReceiptLog, Receipts.ReceiptSuccess;
  }

  // ── SETTLE ────────────────────────────────────────────────────────────

  /** One decoded and checked settlement; it must come after its buyer's first funding. */
  function SettleRow(o: Oracle, input: ClosedLoopInput, reference: LogRef): Option<Row> {
    var chain := Chain(o, input);
    match (chain.Key(reference), chain.SettlementAt(reference), chain.Timestamp(reference))
    case (Ok(key), Ok(s), Ok(time)) =>
      if && InPeriod(s.block, input.periodStart, input.periodEnd)
         && s.seller == input.seller && s.buyer in input.buyers && s.amount != 0
         && var funded := EarliestFor(FundRows(o, input), s.buyer); funded.Some? && time > funded.value
      then Some(Row([key], s.buyer, s.amount, time))
      else None
    case _ => None
  }

  function SettleRows(o: Oracle, input: ClosedLoopInput): Rows {
    Map((reference: LogRef) => SettleRow(o, input, reference), input.settlements)
  }

  function RecordOf(row: Option<Row>): SettlementRecord {
    if row.Some? && row.value.keys != [] then SettlementRecord(SettlementId(row.value.keys[0]), row.value.amount)
    else SettlementRecord(ZeroHash, 0)
  }

  datatype SettleSummary = SettleSummary(
    total: u128, perBuyer: map<Address, u128>, earliest: u64, settlements: seq<SettlementRecord>)

  ghost predicate SummarizesSettlements(s: SettleSummary, rows: Rows) {
    && s.total == Total(rows)
    && s.earliest == Earliest(rows)
    && s.settlements == Map(RecordOf, rows)
    && (forall b :: PerBuyer(s.perBuyer, b) == PartyTotal(rows, b))
  }

  ghost predicate SettlementsHold(o: Oracle, input: ClosedLoopInput, used: set<LogKey>) {
    input.settlements != [] && Booked(SettleRows(o, input), used)
  }

  method VerifySettlements(o: Oracle, input: ClosedLoopInput, funding: FundingSummary, used: UsedLogs)
    returns (r: Result<SettleSummary>)
    requires SummarizesFunds(funding, FundRows(o, input))
    requires forall b :: b in input.buyers ==> EarliestFor(FundRows(o, input), b).Some?
    modifies used
    ensures r.Ok? <==> SettlementsHold(o, input, old(used.keys))
    ensures r.Ok? ==> SummarizesSettlements(r.value, SettleRows(o, input))
    ensures r.Ok? ==> used.keys == old(used.keys) + Consumed(SettleRows(o, input))
  {
    hide FundRow, SettleRow, Booked, SumBy, EarliestFor, Earliest, Consumed, Fresh, AddSettlement, RecordOf;
    if input.settlements == [] {
      return Err("settlements: none referenced");
    }
    ghost var before := used.keys;
    ghost var rows := SettleRows(o, input);
    var summary := SettleSummary(0, map[], U64_LIMIT - 1, []);
    NothingBooked(rows[..0], before);
    for i := 0 to |input.settlements|
      invariant Booked(rows[..i], before)
      invariant used.keys == before + Consumed(rows[..i])
      invariant SummarizesSettlements(summary, rows[..i])
    {
      TakeRow(rows, before, i);
      assert rows[i] == SettleRow(o, input, input.settlements[i]);
      var row :- VerifySettlement(o, input, input.settlements[i], funding, used);
      PartyWithinTotal(rows[..i], row.party);
      var total := CheckedAdd(summary.total, row.amount);
      if total.None? {
        return Err("settlements: overflow");
      }
      var per := CheckedAdd(PerBuyer(summary.perBuyer, row.party), row.amount);
      if per.None? {
        return Err("settlements: overflow");
      }
      AddSettlementSummarizes(summary, rows, i, per.value, total.value);
      summary := AddSettlement(summary, row, per.value, total.value);
    }
    assert rows[..|rows|] == rows;
    return Ok(summary);
  }

  function AddSettlement(s: SettleSummary, row: Row, per: u128, total: u128): SettleSummary {
    SettleSummary(total, s.perBuyer[row.party := per], Min(s.earliest, row.time), s.settlements + [RecordOf(Some(row))])
  }

  lemma AddSettlementSummarizes(s: SettleSummary, rows: Rows, i: nat, per: u128, total: u128)
    requires i < |rows| && rows[i].Some? && SummarizesSettlements(s, rows[..i])
    requires total == s.total + rows[i].value.amount == Total(rows[..i + 1])
    requires per == PerBuyer(s.perBuyer, rows[i].value.party) + rows[i].value.amount
    requires Earliest(rows[..i + 1]) == Min(Earliest(rows[..i]), rows[i].value.time)
    ensures SummarizesSettlements(AddSettlement(s, rows[i].value, per, total), rows[..i + 1])
  {
    hide PartyTotal, Total, Earliest, RecordOf;
    forall b {
      TakeRowFor(rows, i, b);
    }
    assert Map(RecordOf, rows[..i + 1]) == Map(RecordOf, rows[..i]) + [RecordOf(rows[i])];
  }

  /** One reference of `verify_settlements`. */
  method VerifySettlement(o: Oracle, input: ClosedLoopInput, reference: LogRef, funding: FundingSummary, used: UsedLogs)
    returns (r: Result<Row>)
    requires SummarizesFunds(funding, FundRows(o, input))
    requires forall b :: b in input.buyers ==> EarliestFor(FundRows(o, input), b).Some?
    modifies used
    ensures var row := SettleRow(o, input, reference);
      && (r.Ok? <==> row.Some? && Fresh(row.value.keys, old(used.keys)))
      && (r.Ok? ==> r.value == row.value && used.keys == old(used.keys) + Elements(row.value.keys))
  {
    hide ChainResolver.Key, ChainResolver.SettlementAt, ChainResolver.Timestamp, FundRows, EarliestFor;
    var chain := Chain(o, input);
    var key :- chain.Key(reference);
    assert [key][0] == key;
    var added := used.Insert(key);
    if !added {
      return Err("settlements: duplicate evidence");
    }
    var s :- chain.SettlementAt(reference);
    if !InPeriod(s.block, input.periodStart, input.periodEnd) {
      return Err("settlement is outside the fixed enforcement period");
    }
    if s.seller != input.seller || s.buyer !in input.buyers || s.amount == 0 {
      return Err("settlements: subject or amount mismatch");
    }
    var time :- chain.Timestamp(reference);
    if time <= funding.earliest[s.buyer] {
      return Err("settlements: settlement is not after its buyer's funding");
    }
    return Ok(Row([key], s.buyer, s.amount, time));
  }

  // ── LEDGER ────────────────────────────────────────────────────────────

  /** `balance_end + settled <= funded * (1 + epsilon)`, in wrapping U256 arithmetic. */
  predicate LedgerCheck(balance: u256, settled: u128, funded: u128) {
    Wrap(Wrap(balance + settled) * BPS) <= Wrap(funded * (BPS + EPSILON_LEDGER_BPS))
  }

  function EndBalance(o: Oracle, input: ClosedLoopInput, k: nat): Result<u256>
    requires k < |input.ledgers| && k < |input.buyers|
  {
    Chain(o, input).StorageValue(input.ledgers[k].end, input.periodEnd, DEPOSITS_ADDRESS, BuyerSlot(input.buyers[k]))
  }

  ghost predicate LedgerHolds(o: Oracle, input: ClosedLoopInput, k: nat)
    requires k < |input.ledgers| && k < |input.buyers|
  {
    var settled, funded := PartyTotal(SettleRows(o, input), input.buyers[k]),
      PartyTotal(FundRows(o, input), input.buyers[k]);
    && EndBalance(o, input, k).Ok?
    && settled < U128_LIMIT && funded < U128_LIMIT
    && LedgerCheck(EndBalance(o, input, k).value, settled, funded)
  }

  ghost predicate LedgersHold(o: Oracle, input: ClosedLoopInput) {
    && |input.ledgers| == |input.buyers|
    && forall k :: 0 <= k < |input.buyers| ==> LedgerHolds(o, input, k)
  }

  method VerifyLedgers(o: Oracle, input: ClosedLoopInput, funding: FundingSummary, settle: SettleSummary)
    returns (r: Result<()>)
    requires SummarizesFunds(funding, FundRows(o, input)) && SummarizesSettlements(settle, SettleRows(o, input))
    ensures r.Ok? <==> LedgersHold(o, input)
  {
    hide FundRow, SettleRow, LedgerCheck;
    if |input.ledgers| != |input.buyers| {
      return Err("ledger: exactly one witness per buyer required");
    }
    for k := 0 to |input.buyers|
      invariant forall j :: 0 <= j < k ==> LedgerHolds(o, input, j)
    {
      var buyer := input.buyers[k];
      var read := Chain(o, input).StorageValue(input.ledgers[k].end, input.periodEnd, DEPOSITS_ADDRESS,
        BuyerSlot(buyer));
      if read.Err? {
        assert !LedgerHolds(o, input, k);
        return Err(read.message);
      }
      var settled, funded := PerBuyer(settle.perBuyer, buyer), PerBuyer(funding.usdcPerBuyer, buyer);
      assert settled == PartyTotal(SettleRows(o, input), buyer) && funded == PartyTotal(FundRows(o, input), buyer);
      if !LedgerCheck(read.value, settled, funded) {
        assert !LedgerHolds(o, input, k);
        return Err("ledger: buyer inflow exceeds funder-attributed capital beyond tolerance");
      }
    }
    return Ok(());
  }

  // ── RETURN ────────────────────────────────────────────────────────────

  datatype Hop = Hop(key: LogKey, from: Address, to: Address, amount: u128, time: u64)

  function HopAt(o: Oracle, input: ClosedLoopInput, reference: LogRef): Option<Hop> {
    var chain := Chain(o, input);
    match (chain.Key(reference), chain.UsdcTransfer(reference), chain.Timestamp(reference))
    case (Ok(key), Ok(t), Ok(time)) =>
      if InPeriod(t.block, input.periodStart, input.periodEnd) then Some(Hop(key, t.from, t.to, t.amount, time))
        else None
    case _ => None
  }

  function HopsOf(o: Oracle, input: ClosedLoopInput, path: ReturnPath): seq<Option<Hop>> {
    Map((reference: LogRef) => HopAt(o, input, reference), path.transfers)
  }

  /** A hop leaves the address the path has reached; the first one starts after `earliest`, a later one follows
      the previous hop, forwards enough of it, and stays within the time window of the path. */
  predicate Continues(hop: Hop, expectedFrom: Address, previous: Option<Hop>, firstTime: u64, earliest: u64) {
    && hop.from == expectedFrom && hop.from != hop.to && hop.amount != 0
    && match previous
       case None => hop.time > earliest
       case Some(before) =>
         && before.key.Before(hop.key)
         && MeetsRatio(hop.amount, before.amount, RHO_HOP_BPS)
         && Max(hop.time - firstTime, 0) <= T_PATH_SECONDS
  }

  predicate HopHolds(hops: seq<Option<Hop>>, k: nat, seller: Address, earliest: u64)
    requires k < |hops|
  {
    && hops[k].Some?
    && if k == 0 then Continues(hops[0].value, seller, None, 0, earliest)
       else
         && hops[0].Some? && hops[k - 1].Some?
         && Continues(hops[k].value, hops[k - 1].value.to, hops[k - 1], hops[0].value.time, earliest)
  }

  /** The bottleneck of the first hops, starting from the largest u128. */
  function Bottleneck(hops: seq<Option<Hop>>): u128 {
    if hops == [] then U128_LIMIT - 1
    else
      var before := Bottleneck(hops[..|hops| - 1]);
      var last := hops[|hops| - 1];
      if last.None? then before else Min(before, last.value.amount)
  }

  function HopKey(hop: Option<Hop>): LogKey {
    if hop.Some? then hop.value.key else LogKey(0, 0, 0)
  }

  predicate PathHolds(hops: seq<Option<Hop>>, seller: Address, funder: Address, earliest: u64) {
    && 1 <= |hops| <= H_MAX_INTERMEDIATE_HOPS + 1
    && (forall k :: 0 <= k < |hops| ==> HopHolds(hops, k, seller, earliest))
    && hops[|hops| - 1].Some? && hops[|hops| - 1].value.to == funder
  }

  /** One accepted path: all its transfers, credited with its bottleneck. */
  function PathRowOf(hops: seq<Option<Hop>>, seller: Address, funder: Address, earliest: u64): Option<Row> {
    if PathHolds(hops, seller, funder, earliest) && hops[0].Some?
    then Some(Row(Map(HopKey, hops), funder, Bottleneck(hops), hops[0].value.time))
    else None
  }

  function PathRow(o: Oracle, input: ClosedLoopInput, path: ReturnPath): Option<Row> {
    PathRowOf(HopsOf(o, input, path), input.seller, input.funder, Earliest(SettleRows(o, input)))
  }

  function PathRows(o: Oracle, input: ClosedLoopInput): Rows {
    Map((path: ReturnPath) => PathRow(o, input, path), input.returnPaths)
  }

  ghost predicate ReturnsHold(o: Oracle, input: ClosedLoopInput, used: set<LogKey>) {
    if input.seller == input.funder then input.returnPaths == []
    else
      && |input.returnPaths| <= MAX_RETURN_PATHS
      && Booked(PathRows(o, input), used)
      && Total(SettleRows(o, input)) < U128_LIMIT
      && MeetsRatio(Total(PathRows(o, input)), Total(SettleRows(o, input)), ALPHA_RETURN_BPS)
  }

  /** One path of `verify_returns`: the inner loop. */
  method WalkPath(o: Oracle, input: ClosedLoopInput, earliest: u64, path: ReturnPath, used: UsedLogs)
    returns (r: Result<u128>)
    modifies used
    ensures var row := PathRowOf(HopsOf(o, input, path), input.seller, input.funder, earliest);
      && (r.Ok? <==> row.Some? && Fresh(row.value.keys, old(used.keys)))
      && (r.Ok? ==> r.value == row.value.amount && used.keys == old(used.keys) + Elements(row.value.keys))
  {
    hide HopAt, Continues, Fresh, Elements, Bottleneck;
    EmptyPath(used.keys);
    if path.transfers == [] || |path.transfers| > H_MAX_INTERMEDIATE_HOPS + 1 {
      return Err("return: path length outside witness bounds");
    }
    ghost var before := used.keys;
    ghost var hops := HopsOf(o, input, path);
    var expectedFrom := input.seller;
    var previous: Option<Hop> := None;
    var firstTime: u64 := 0;
    var credit: u128 := U128_LIMIT - 1;
    for k := 0 to |path.transfers|
      invariant forall j :: 0 <= j < k ==> HopHolds(hops, j, input.seller, earliest)
      invariant Fresh(Map(HopKey, hops[..k]), before)
      invariant used.keys == before + Elements(Map(HopKey, hops[..k]))
      invariant credit == Bottleneck(hops[..k])
      invariant k == 0 ==> expectedFrom == input.seller && previous.None? && firstTime == 0
      invariant k > 0 ==>
        && hops[0].Some? && hops[k - 1].Some? && previous == hops[k - 1]
        && expectedFrom == hops[k - 1].value.to && firstTime == hops[0].value.time
    {
      assert hops[k] == HopAt(o, input, path.transfers[k]);
      TakeHop(hops, k, before);
      var step := VerifyHop(o, input, path.transfers[k], expectedFrom, previous, firstTime, earliest, used);
      if step.Err? {
        assert !HopHolds(hops, k, input.seller, earliest) || !Fresh(Map(HopKey, hops), before);
        return Err(step.message);
      }
      var hop := step.value;
      assert HopHolds(hops, k, input.seller, earliest);
      if k == 0 {
        firstTime := hop.time;
      }
      expectedFrom := hop.to;
      previous := Some(hop);
      credit := Min(credit, hop.amount);
    }
    assert hops[..|hops|] == hops;
    if expectedFrom != input.funder {
      return Err("return: path does not terminate at the funder");
    }
    return Ok(credit);
  }

  /** One transfer of a return path. */
  method VerifyHop(o: Oracle, input: ClosedLoopInput, reference: LogRef, expectedFrom: Address, previous: Option<Hop>,
                   firstTime: u64, earliest: u64, used: UsedLogs)
    returns (r: Result<Hop>)
    modifies used
    ensures var hop := HopAt(o, input, reference);
      && (r.Ok? <==>
            && hop.Some? && Continues(hop.value, expectedFrom, previous, firstTime, earliest)
            && hop.value.key !in old(used.keys))
      && (r.Ok? ==> r.value == hop.value && used.keys == old(used.keys) + {hop.value.key})
  {
    hide ChainResolver.Key, ChainResolver.UsdcTransfer, ChainResolver.Timestamp;
    var chain := Chain(o, input);
    var key :- chain.Key(reference);
    var added := used.Insert(key);
    if !added {
      return Err("return: duplicate evidence");
    }
    var t :- chain.UsdcTransfer(reference);
    if !InPeriod(t.block, input.periodStart, input.periodEnd) {
      return Err("return transfer is outside the fixed enforcement period");
    }
    var time :- chain.Timestamp(reference);
    if t.from != expectedFrom || t.from == t.to || t.amount == 0 {
      return Err("return: broken path");
    }
    if previous.Some? && !previous.value.key.Before(key) {
      return Err("return: path is not time-ordered");
    }
    if previous.Some? && !MeetsRatio(t.amount, previous.value.amount, RHO_HOP_BPS) {
      return Err("return: hop retains more than the permitted share");
    }
    if previous.None? {
      if time <= earliest {
        return Err("return: path begins before the settlements it closes");
      }
    } else if Max(time - firstTime, 0) > T_PATH_SECONDS {
      return Err("return: path exceeds the end-to-end window");
    }
    return Ok(Hop(key, t.from, t.to, t.amount, time));
  }

  lemma EmptyPath(before: set<LogKey>)
    ensures Fresh([], before) && Elements([]) == {} && Bottleneck([]) == U128_LIMIT - 1
    ensures Map(HopKey, []) == []
  {
  }

  /** What taking in hop `k` does to the keys and the bottleneck; a key already used spoils the whole path. */
  lemma TakeHop(hops: seq<Option<Hop>>, k: nat, before: set<LogKey>)
    requires k < |hops|
    ensures Elements(Map(HopKey, hops[..k + 1])) == Elements(Map(HopKey, hops[..k])) + {HopKey(hops[k])}
    ensures Bottleneck(hops[..k + 1]) == if hops[k].None? then Bottleneck(hops[..k])
      else Min(Bottleneck(hops[..k]), hops[k].value.amount)
    ensures Fresh(Map(HopKey, hops[..k]), before) && HopKey(hops[k]) !in before + Elements(Map(HopKey, hops[..k]))
      ==> Fresh(Map(HopKey, hops[..k + 1]), before)
    ensures HopKey(hops[k]) in before + Elements(Map(HopKey, hops[..k])) ==> !Fresh(Map(HopKey, hops), before)
  {
    assert hops[..k + 1][..k] == hops[..k];
    var all, keys := Map(HopKey, hops), Map(HopKey, hops[..k]);
    assert Map(HopKey, hops[..k + 1]) == keys + [HopKey(hops[k])];
    assert all[k] == HopKey(hops[k]);
    if all[k] in Elements(keys) {
      var j :| 0 <= j < k && keys[j] == all[k];
      assert all[j] == all[k];
    }
  }

  method VerifyReturns(o: Oracle, input: ClosedLoopInput, settle: SettleSummary, used: UsedLogs) returns (r: Result<()>)
    requires SummarizesSettlements(settle, SettleRows(o, input))
    modifies used
    ensures r.Ok? <==> ReturnsHold(o, input, old(used.keys))
  {
    hide SettleRow, PathRowOf, Booked, SumBy, Consumed, Fresh, Earliest;
    if input.seller == input.funder {
      if input.returnPaths != [] {
        return Err("return: self-funded loop must not carry return paths");
      }
      return Ok(());
    }
    if |input.returnPaths| > MAX_RETURN_PATHS {
      return Err("return: too many paths");
    }
    ghost var before := used.keys;
    ghost var rows := PathRows(o, input);
    var returned: u128 := 0;
    NothingBooked(rows[..0], before);
    for i := 0 to |input.returnPaths|
      invariant Booked(rows[..i], before)
      invariant used.keys == before + Consumed(rows[..i])
      invariant returned == Total(rows[..i])
    {
      TakeRow(rows, before, i);
      assert rows[i] == PathRow(o, input, input.returnPaths[i]);
      var credit :- WalkPath(o, input, settle.earliest, input.returnPaths[i], used);
      var sum := CheckedAdd(returned, credit);
      if sum.None? {
        return Err("return: overflow");
      }
      returned := sum.value;
    }
    assert rows[..|rows|] == rows;
    if !MeetsRatio(returned, settle.total, ALPHA_RETURN_BPS) {
      return Err("return: value reaching the funder below the coverage fraction");
    }
    return Ok(());
  }

  // ── The whole predicate ───────────────────────────────────────────────

  ghost predicate WellFormed(input: ClosedLoopInput) {
    && input.chainId == BASE_CHAIN_ID
    && 0 < input.periodStart <= input.periodEnd
    && input.seller != ZERO_ADDRESS && input.funder != ZERO_ADDRESS
    && 1 <= |input.buyers| <= MAX_BUYERS && ZERO_ADDRESS !in input.buyers && Ascending(input.buyers)
    && input.funder !in input.buyers
  }

  ghost predicate LoopHolds(o: Oracle, input: ClosedLoopInput) {
    var funds, settles := FundRows(o, input), SettleRows(o, input);
    && WellFormed(input)
    && Authentic(o, input.blocks, input.periodStart, input.periodEnd)
    && FundsHold(o, input, {})
    && SettlementsHold(o, input, Consumed(funds))
    && Total(funds) < U128_LIMIT && Total(settles) < U128_LIMIT
    && MeetsRatio(Total(funds), Total(settles), ALPHA_FUND_BPS)
    && LedgersHold(o, input)
    && ReturnsHold(o, input, Consumed(funds) + Consumed(settles))
  }

  /** The identifier of the claim: a hash over its parties, its cohort and all of its evidence. */
  function ClaimId(input: ClosedLoopInput): Hash {
    LoopClaimHash(
      input.periodStart, input.periodEnd, input.seller, input.funder, CohortHash(input.buyers), LoopEvidenceHash(input))
  }

  ghost function LoopJournal(o: Oracle, input: ClosedLoopInput): WashJournal
    requires Total(SettleRows(o, input)) < U128_LIMIT
  {
    var settles := SettleRows(o, input);
    WashJournal(
      CLOSED_LOOP_PREDICATE_ID, BASE_CHAIN_ID, input.periodStart, input.periodEnd, input.sourceClaimId, ClaimId(input),
      [SubjectRecord(input.seller, Total(settles), Map(RecordOf, settles))],
      JournalRefs(input.blocks))
  }

  method VerifyClosedLoop(o: Oracle, input: ClosedLoopInput) returns (r: Result<WashJournal>)
    ensures r.Ok? <==> LoopHolds(o, input)
    ensures r.Ok? ==> r.value == LoopJournal(o, input)
  {
    hide FundRows, SettleRows, PathRows;
    if input.chainId != BASE_CHAIN_ID {
      return Err("unrecognized chain");
    }
    if input.periodStart == 0 || input.periodStart > input.periodEnd {
      return Err("closed loop: invalid period");
    }
    if input.seller == ZERO_ADDRESS || input.funder == ZERO_ADDRESS {
      return Err("closed loop: zero seller or funder");
    }
    var cohort :- ValidateSortedUniqueAddresses(input.buyers, 1, MAX_BUYERS);
    if input.funder in input.buyers {
      return Err("closed loop: funder cannot be its own buyer");
    }
    var blockRefs :- AuthenticateBlocks(o, input.blocks, input.periodStart, input.periodEnd);
    var used := new UsedLogs();
    var funding :- VerifyFundings(o, input, used);
    ghost var funds := FundRows(o, input);
    assert used.keys == Consumed(funds);
    var settle :- VerifySettlements(o, input, funding, used);
    if !MeetsRatio(funding.totalUsdc, settle.total, ALPHA_FUND_BPS) {
      return Err("closed loop: funding below the coverage fraction");
    }
    var ledgers :- VerifyLedgers(o, input, funding, settle);
    var closed :- VerifyReturns(o, input, settle, used);
    return Ok(WashJournal(
      CLOSED_LOOP_PREDICATE_ID, BASE_CHAIN_ID, input.periodStart, input.periodEnd, input.sourceClaimId, ClaimId(input),
      [SubjectRecord(input.seller, settle.total, settle.settlements)],
      blockRefs));
  }
}
