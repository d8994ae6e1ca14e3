/** The conserved loop, stated once more from the evidence alone: which transfers, settlements and deposits the
    referenced logs spell out, in what order and amounts, with every constant written out and no order of processing.
    The four stateful passes accept exactly the claims this describes. */
module Conservation {
  import opened Prelude
  import opened Hashing
  import opened Evidence
  import opened Booking
  import opened ClosedLoop
  import opened Ledgers
  import opened LoopTheorems
  import opened Decoding
  import Rlp
  import Receipts

  // ── FUND ──────────────────────────────────────────────────────────────

  ghost predicate During(input: ClosedLoopInput, e: Event) {
    input.periodStart <= e.number <= input.periodEnd
  }

  /** A buyer of the cohort received `amount` from the funder: by a transfer to the buyer, or by a transfer to the
      deposits contract that it credits to the buyer later in the same receipt, in a transaction the funder signed. */
  ghost predicate Funded(o: Oracle, input: ClosedLoopInput, e: FundingEvidence, amount: nat, time: nat) {
    var chain := Chain(o, input);
    && e.buyer in input.buyers && amount > 0
    && match e.kind
       case Native(_, _, _) => false
       case Usdc(transfer) =>
         && Found(chain, transfer).Some?
         && var sent := Found(chain, transfer).value;
         && During(input, sent) && sent.time == time
         && IsTransfer(sent.content, input.funder, e.buyer, amount)
       case ProtocolDeposit(transfer, deposited) =>
         && Found(chain, transfer).Some? && Found(chain, deposited).Some?
         && var (sent, credited) := (Found(chain, transfer).value, Found(chain, deposited).value);
         && transfer.block == deposited.block && transfer.receipt == deposited.receipt && transfer.log < deposited.log
         && During(input, sent) && sent.time == time
         && IsTransfer(sent.content, input.funder, 0x0F7a3a8f4Da01637d1202bb5443fcF7F88F99fD2, amount)
         && IsDeposit(credited.content, e.buyer, amount)
         && Signs(chain, transfer, input.funder)
  }

  lemma DirectIff(o: Oracle, input: ClosedLoopInput, e: FundingEvidence)
    requires e.kind.Usdc?
    ensures FundRow(o, input, e).Some? ==>
      Funded(o, input, e, FundRow(o, input, e).value.amount, FundRow(o, input, e).value.time)
    ensures forall amount, time :: Funded(o, input, e, amount, time) ==>
      FundRow(o, input, e).Some? && FundRow(o, input, e).value.amount == amount &&
        FundRow(o, input, e).value.time == time
  {
    hide ChainResolver.Key, ChainResolver.UsdcTransfer, ChainResolver.Timestamp, Found, IsTransfer;
    var chain, transfer := Chain(o, input), e.kind.transfer;
    ResolvesIff(chain, transfer);
    if FundRow(o, input, e).Some? {
      TransferIff(chain, transfer, chain.UsdcTransfer(transfer).value);
    }
    forall amount, time | Funded(o, input, e, amount, time)
      ensures FundRow(o, input, e).Some?
      ensures FundRow(o, input, e).value.amount == amount && FundRow(o, input, e).value.time == time
    {
      AmountFits(Found(chain, transfer).value.content, input.funder, e.buyer, amount);
      TransferIff(chain, transfer, Transfer(input.funder, e.buyer, amount, Found(chain, transfer).value.number));
    }
  }

  lemma AmountFits(log: Receipts.ParsedLog, from: Address, to: Address, amount: nat)
    requires IsTransfer(log, from, to, amount)
    ensures amount < U128_LIMIT
  {
  }

  lemma SameReceipt(chain: ChainResolver, a: LogRef, b: LogRef)
    requires a.block == b.block && a.receipt == b.receipt && Found(chain, a).Some? && Found(chain, b).Some?
    ensures var (x, y) := (Found(chain, a).value, Found(chain, b).value);
      && x.number == y.number && x.transaction == y.transaction && x.log == a.log && y.log == b.log
      && (LogKey(x.number, x.transaction, x.log).Before(LogKey(y.number, y.transaction, y.log)) <==> a.log < b.log)
  {
  }

  lemma DepositedIff(o: Oracle, input: ClosedLoopInput, e: FundingEvidence)
    requires e.kind.ProtocolDeposit?
    ensures FundRow(o, input, e).Some? ==>
      Funded(o, input, e, FundRow(o, input, e).value.amount, FundRow(o, input, e).value.time)
    ensures forall amount, time :: Funded(o, input, e, amount, time) ==>
      FundRow(o, input, e).Some? && FundRow(o, input, e).value.amount == amount &&
        FundRow(o, input, e).value.time == time
  {
    hide ChainResolver.Key, ChainResolver.UsdcTransfer, ChainResolver.ProtocolDeposit, ChainResolver.Timestamp,
      ChainResolver.SignedBy, Found, IsTransfer, IsDeposit, Signs, LogKey.Before;
    var chain, transfer, deposited := Chain(o, input), e.kind.transfer, e.kind.deposited;
    ResolvesIff(chain, transfer);
    ResolvesIff(chain, deposited);
    SignedByIff(chain, transfer, input.funder);
    if transfer.block == deposited.block && transfer.receipt == deposited.receipt
       && Found(chain, transfer).Some? && Found(chain, deposited).Some? {
      SameReceipt(chain, transfer, deposited);
    }
    if FundRow(o, input, e).Some? {
      TransferIff(chain, transfer, chain.UsdcTransfer(transfer).value);
      DepositIff(chain, deposited, chain.ProtocolDeposit(deposited).value);
    }
    forall amount, time | Funded(o, input, e, amount, time)
      ensures FundRow(o, input, e).Some?
      ensures FundRow(o, input, e).value.amount == amount && FundRow(o, input, e).value.time == time
    {
      var number := Found(chain, transfer).value.number;
      AmountFits(Found(chain, transfer).value.content, input.funder, DEPOSITS_ADDRESS, amount);
      TransferIff(chain, transfer, Transfer(input.funder, DEPOSITS_ADDRESS, amount, number));
      DepositIff(chain, deposited, Deposit(e.buyer, amount, number));
    }
  }

  /** A funding row is accepted exactly when the evidence shows a funding, with its amount and time. */
  lemma FundRowIff(o: Oracle, input: ClosedLoopInput, e: FundingEvidence)
    ensures FundRow(o, input, e).Some? <==> exists amount, time :: Funded(o, input, e, amount, time)
    ensures FundRow(o, input, e).Some? ==>
      Funded(o, input, e, FundRow(o, input, e).value.amount, FundRow(o, input, e).value.time)
    ensures forall amount, time :: Funded(o, input, e, amount, time) ==>
      FundRow(o, input, e).value.amount == amount && FundRow(o, input, e).value.time == time
  {
    match e.kind {
      case Usdc(_) => DirectIff(o, input, e);
      case ProtocolDeposit(_, _) => DepositedIff(o, input, e);
      case Native(_, _, _) =>
    }
    hide FundRow, Funded;
    assert FundRow(o, input, e).Some? ==>
      Funded(o, input, e, FundRow(o, input, e).value.amount, FundRow(o, input, e).value.time);
  }

  // ── SETTLE ────────────────────────────────────────────────────────────

  /** A buyer of the cohort settled `amount` to the seller. */
  ghost predicate Settled(o: Oracle, input: ClosedLoopInput, r: LogRef, buyer: Address, amount: nat, time: nat) {
    var chain := Chain(o, input);
    && buyer in input.buyers && amount > 0
    && Found(chain, r).Some?
    && var paid := Found(chain, r).value;
    && During(input, paid) && paid.time == time
    && IsSettlement(paid.content, buyer, input.seller, amount)
  }

  /** Some funding of the buyer came before. */
  ghost predicate FundedBefore(o: Oracle, input: ClosedLoopInput, buyer: Address, time: nat) {
    exists e, amount: nat, funded: nat ::
      e in input.fundings && e.buyer == buyer && Funded(o, input, e, amount, funded) && funded < time
  }

  /** A settlement row is accepted exactly when the log settles something after some funding of its buyer. */
  lemma SettleRowIff(o: Oracle, input: ClosedLoopInput, r: LogRef)
    ensures SettleRow(o, input, r).Some? ==>
      var row := SettleRow(o, input, r).value;
      Settled(o, input, r, row.party, row.amount, row.time) && FundedBefore(o, input, row.party, row.time)
    ensures forall buyer, amount, time ::
      Settled(o, input, r, buyer, amount, time) && FundedBefore(o, input, buyer, time) ==>
        && SettleRow(o, input, r).Some?
        && SettleRow(o, input, r).value.party == buyer && SettleRow(o, input, r).value.amount == amount
        && SettleRow(o, input, r).value.time == time
  {
    hide FundRow, Funded, ChainResolver.Key, ChainResolver.SettlementAt, ChainResolver.Timestamp, EarliestFor, Found,
      IsSettlement, FundedBefore;
    var chain := Chain(o, input);
    ResolvesIff(chain, r);
    if SettleRow(o, input, r).Some? {
      var s, time := chain.SettlementAt(r).value, chain.Timestamp(r).value;
      SettlementIff(chain, r, s);
      FundedBeforeIff(o, input, s.buyer, time);
    }
    forall buyer, amount, time
      | Settled(o, input, r, buyer, amount, time) && FundedBefore(o, input, buyer, time)
      ensures SettleRow(o, input, r).Some?
      ensures SettleRow(o, input, r).value.party == buyer && SettleRow(o, input, r).value.amount == amount
      ensures SettleRow(o, input, r).value.time == time
    {
      SettledFits(Found(chain, r).value.content, buyer, input.seller, amount);
      SettlementIff(chain, r, Settlement(0, buyer, input.seller, amount, Found(chain, r).value.number));
      FundedBeforeIff(o, input, buyer, time);
    }
  }

  lemma SettledFits(log: Receipts.ParsedLog, buyer: Address, seller: Address, amount: nat)
    requires IsSettlement(log, buyer, seller, amount)
    ensures amount < U128_LIMIT
  {
  }

  lemma FundedBeforeIff(o: Oracle, input: ClosedLoopInput, buyer: Address, time: u64)
    ensures var funded := EarliestFor(FundRows(o, input), buyer);
      funded.Some? && funded.value < time <==> FundedBefore(o, input, buyer, time)
  {
    hide FundRow, Funded, EarliestFor;
    var rows := FundRows(o, input);
    EarliestForIsLeast(rows, buyer, time);
    if r :| r in rows && r.Some? && r.value.party == buyer && r.value.time < time {
      var k :| 0 <= k < |rows| && rows[k] == r;
      RowIsForBuyer(o, input, input.fundings[k]);
      FundRowIff(o, input, input.fundings[k]);
      assert input.fundings[k] in input.fundings;
    }
    if FundedBefore(o, input, buyer, time) {
      var e, amount: nat, funded: nat :|
        e in input.fundings && e.buyer == buyer && Funded(o, input, e, amount, funded) && funded < time;
      var k :| 0 <= k < |rows| && input.fundings[k] == e;
      RowIsForBuyer(o, input, e);
      FundRowIff(o, input, e);
      assert rows[k] in rows;
    }
  }

  // ── RETURN ────────────────────────────────────────────────────────────

  /** One transfer of a path. */
  datatype Step = Step(at: Event, from: Address, to: Address, amount: nat)

  function StepAt(chain: ChainResolver, r: LogRef): Option<Step> {
    match Found(chain, r)
    case None => None
    case Some(e) =>
      if |e.content.topics| != 3 || |e.content.topics[1]| != 32 || |e.content.topics[2]| != 32 then None
      else
        var step := Step(
          e, Rlp.BeNat(e.content.topics[1][12..]), Rlp.BeNat(e.content.topics[2][12..]), Rlp.BeNat(e.content.data));
        if IsTransfer(e.content, step.from, step.to, step.amount) then Some(step) else None
  }

  function StepsOf(o: Oracle, input: ClosedLoopInput, path: ReturnPath): seq<Option<Step>> {
    Map((r: LogRef) => StepAt(Chain(o, input), r), path.transfers)
  }

  /** One to nine transfers within the period carry value from the seller to the funder: each leaves where the one
      before arrived, every one is strictly later on chain than all before it and at most 72 hours after the first, each
      passes on at least 28% of the one before, and the first is after `earliest`. */
  ghost predicate Walks(input: ClosedLoopInput, steps: seq<Option<Step>>, earliest: nat) {
    && 1 <= |steps| <= 9
    && (forall k :: 0 <= k < |steps| ==> steps[k].Some?)
    && steps[0].value.from == input.seller && steps[|steps| - 1].value.to == input.funder
    && steps[0].value.at.time > earliest
    && (forall k :: 0 <= k < |steps| ==>
          && During(input, steps[k].value.at) && steps[k].value.amount > 0 && steps[k].value.from != steps[k].value.to
          && steps[k].value.at.time <= steps[0].value.at.time + 259_200)
    && (forall k :: 0 < k < |steps| ==>
          && steps[k].value.from == steps[k - 1].value.to
          && steps[k].value.amount * 10_000 >= steps[k - 1].value.amount * 2_800)
    && (forall j, k :: 0 <= j < k < |steps| ==> Earlier(steps[j].value.at, steps[k].value.at))
  }

  /** The least amount of a path. */
  ghost predicate IsLeast(steps: seq<Option<Step>>, amount: nat) {
    && (forall k :: 0 <= k < |steps| && steps[k].Some? ==> amount <= steps[k].value.amount)
    && exists k :: 0 <= k < |steps| && steps[k].Some? && amount == steps[k].value.amount
  }

  /** The hops of the walk are the steps of the path. */
  lemma HopIff(o: Oracle, input: ClosedLoopInput, r: LogRef)
    ensures HopAt(o, input, r).Some? <==>
      StepAt(Chain(o, input), r).Some? && During(input, StepAt(Chain(o, input), r).value.at)
    ensures HopAt(o, input, r).Some? ==>
      var (hop, step) := (HopAt(o, input, r).value, StepAt(Chain(o, input), r).value);
      && hop.from == step.from && hop.to == step.to && hop.amount == step.amount && hop.time == step.at.time
      && hop.key == LogKey(step.at.number, step.at.transaction, step.at.log)
  {
    hide ChainResolver.Key, ChainResolver.UsdcTransfer, ChainResolver.Timestamp, Found, Rlp.BeNat;
    var chain := Chain(o, input);
    ResolvesIff(chain, r);
    if chain.UsdcTransfer(r).Ok? {
      TransferIff(chain, r, chain.UsdcTransfer(r).value);
    }
    if StepAt(chain, r).Some? {
      var step := StepAt(chain, r).value;
      TransferIff(chain, r, Transfer(step.from, step.to, step.amount, step.at.number));
    }
  }

  lemma BeforeIff(a: Event, b: Event)
    ensures Earlier(a, b)
      <==> LogKey(a.number, a.transaction, a.log).Before(LogKey(b.number, b.transaction, b.log))
  {
  }

  /** If each step is later than the one before, each is later than all before it. */
  lemma {:induction false} LaterThanAll(steps: seq<Option<Step>>, j: nat, k: nat)
    requires j < k < |steps| && forall i :: 0 <= i < |steps| ==> steps[i].Some?
    requires forall i :: 0 < i < |steps| ==> Earlier(steps[i - 1].value.at, steps[i].value.at)
    ensures Earlier(steps[j].value.at, steps[k].value.at)
    decreases k
  {
    if j + 1 < k {
      LaterThanAll(steps, j, k - 1);
      assert Earlier(steps[k - 1].value.at, steps[k].value.at);
    } else {
      assert Earlier(steps[k - 1].value.at, steps[k].value.at);
    }
  }

  /** One hop of the inner loop, spelled out. */
  ghost predicate StepHolds(input: ClosedLoopInput, steps: seq<Option<Step>>, k: nat, earliest: nat)
    requires k < |steps| && forall i :: 0 <= i < |steps| ==> steps[i].Some?
  {
    var step := steps[k].value;
    && During(input, step.at) && step.amount > 0 && step.from != step.to
    && step.from == (if k == 0 then input.seller else steps[k - 1].value.to)
    && (k == 0 ==> step.at.time > earliest)
    && (k > 0 ==>
          && Earlier(steps[k - 1].value.at, step.at)
          && step.amount * 10_000 >= steps[k - 1].value.amount * 2_800
          && step.at.time <= steps[0].value.at.time + 259_200)
  }

  lemma WalksIff(input: ClosedLoopInput, steps: seq<Option<Step>>, earliest: nat)
    requires 1 <= |steps| <= 9 && forall i :: 0 <= i < |steps| ==> steps[i].Some?
    ensures Walks(input, steps, earliest) <==>
      && (forall k :: 0 <= k < |steps| ==> StepHolds(input, steps, k, earliest))
      && steps[|steps| - 1].value.to == input.funder
  {
    hide Earlier, During;
    if Walks(input, steps, earliest) {
      forall k | 0 <= k < |steps|
        ensures StepHolds(input, steps, k, earliest)
      {
        assert k > 0 ==> Earlier(steps[k - 1].value.at, steps[k].value.at);
      }
    }
    if forall k :: 0 <= k < |steps| ==> StepHolds(input, steps, k, earliest) {
      assert StepHolds(input, steps, 0, earliest);
      forall i | 0 < i < |steps|
        ensures Earlier(steps[i - 1].value.at, steps[i].value.at)
      {
        assert StepHolds(input, steps, i, earliest);
      }
      forall j, k | 0 <= j < k < |steps|
        ensures Earlier(steps[j].value.at, steps[k].value.at)
      {
        LaterThanAll(steps, j, k);
      }
      forall k | 0 <= k < |steps|
        ensures During(input, steps[k].value.at) && steps[k].value.amount > 0
        ensures steps[k].value.from != steps[k].value.to
        ensures steps[k].value.at.time <= steps[0].value.at.time + 259_200
        ensures k > 0 ==>
          && steps[k].value.from == steps[k - 1].value.to
          && steps[k].value.amount * 10_000 >= steps[k - 1].value.amount * 2_800
      {
        assert StepHolds(input, steps, k, earliest);
      }
    }
  }

  lemma HopHoldsIff(o: Oracle, input: ClosedLoopInput, path: ReturnPath, k: nat, earliest: u64)
    requires k < |path.transfers|
    requires forall i :: 0 <= i < |path.transfers| ==> StepsOf(o, input, path)[i].Some?
    requires k > 0 ==> HopsOf(o, input, path)[0].Some? && HopsOf(o, input, path)[k - 1].Some?
    ensures HopHolds(HopsOf(o, input, path), k, input.seller, earliest) <==>
      StepHolds(input, StepsOf(o, input, path), k, earliest)
  {
    hide HopAt, StepAt, During;
    var steps := StepsOf(o, input, path);
    HopIff(o, input, path.transfers[k]);
    HopIff(o, input, path.transfers[0]);
    if k > 0 {
      HopIff(o, input, path.transfers[k - 1]);
      BeforeIff(steps[k - 1].value.at, steps[k].value.at);
    }
  }

  /** The inner loop accepts a path exactly when it walks. */
  lemma PathIff(o: Oracle, input: ClosedLoopInput, path: ReturnPath, earliest: u64)
    ensures PathHolds(HopsOf(o, input, path), input.seller, input.funder, earliest)
      <==> Walks(input, StepsOf(o, input, path), earliest)
  {
    hide HopAt, StepAt, Continues, StepHolds, During, Earlier;
    var hops, steps := HopsOf(o, input, path), StepsOf(o, input, path);
    forall k | 0 <= k < |hops|
      ensures hops[k].Some? <==> steps[k].Some? && During(input, steps[k].value.at)
      ensures hops[k].Some? ==> hops[k].value.to == steps[k].value.to
    {
      HopIff(o, input, path.transfers[k]);
    }
    if 1 <= |hops| <= 9 && forall k :: 0 <= k < |hops| ==> hops[k].Some? {
      WalksIff(input, steps, earliest);
      forall k | 0 <= k < |hops|
        ensures HopHolds(hops, k, input.seller, earliest) <==> StepHolds(input, steps, k, earliest)
      {
        HopHoldsIff(o, input, path, k, earliest);
      }
    } else if PathHolds(hops, input.seller, input.funder, earliest) {
      forall k | 0 <= k < |hops|
        ensures hops[k].Some?
      {
        assert HopHolds(hops, k, input.seller, earliest);
      }
    }
  }

  lemma {:induction false} BottleneckIsLeast(o: Oracle, input: ClosedLoopInput, path: ReturnPath)
    requires path.transfers != [] && forall k :: 0 <= k < |path.transfers| ==> HopsOf(o, input, path)[k].Some?
    ensures IsLeast(StepsOf(o, input, path), Bottleneck(HopsOf(o, input, path)))
    decreases |path.transfers|
  {
    hide HopAt, StepAt;
    var n := |path.transfers| - 1;
    var hops, steps := HopsOf(o, input, path), StepsOf(o, input, path);
    HopIff(o, input, path.transfers[n]);
    var init := ReturnPath(path.transfers[..n]);
    assert HopsOf(o, input, init) == hops[..n] && StepsOf(o, input, init) == steps[..n];
    if n > 0 {
      BottleneckIsLeast(o, input, init);
      var k :| 0 <= k < n && steps[..n][k].Some? && Bottleneck(hops[..n]) == steps[..n][k].value.amount;
      assert steps[k] == steps[..n][k];
    } else {
      assert hops[..0] == [];
    }
    forall k | 0 <= k < n
      ensures steps[k] == steps[..n][k]
    {
    }
    assert steps[n].Some?;
  }

  /** Some settlement of the claim came before the path, which walks. */
  ghost predicate Returned(o: Oracle, input: ClosedLoopInput, path: ReturnPath) {
    exists s, buyer, amount: nat, time: nat ::
      && s in input.settlements && Settled(o, input, s, buyer, amount, time) && FundedBefore(o, input, buyer, time)
      && Walks(input, StepsOf(o, input, path), time)
  }

  /** A return path is accepted exactly when it walks after some settlement, and is credited with its least amount. */
  lemma PathRowIff(o: Oracle, input: ClosedLoopInput, path: ReturnPath)
    ensures PathRow(o, input, path).Some? <==> Returned(o, input, path)
    ensures PathRow(o, input, path).Some? ==> IsLeast(StepsOf(o, input, path), PathRow(o, input, path).value.amount)
  {
    hide SettleRow, HopAt, Settled, FundedBefore, Walks, StepsOf, IsLeast, Bottleneck;
    var rows, hops, steps := SettleRows(o, input), HopsOf(o, input, path), StepsOf(o, input, path);
    if PathRow(o, input, path).Some? {
      AllHops(hops, input.seller, input.funder, Earliest(rows));
      BottleneckIsLeast(o, input, path);
      EarliestIsLeast(rows, hops[0].value.time);
      var r :| r in rows && r.Some? && r.value.time < hops[0].value.time;
      var k :| 0 <= k < |rows| && rows[k] == r;
      SettleRowIff(o, input, input.settlements[k]);
      LoopTheorems.PathHoldsAgainst(hops, input.seller, input.funder, Earliest(rows), r.value.time);
      PathIff(o, input, path, r.value.time);
      assert input.settlements[k] in input.settlements;
      assert Returned(o, input, path);
    }
    if Returned(o, input, path) {
      var s, buyer, amount: nat, time: nat :|
        && s in input.settlements && Settled(o, input, s, buyer, amount, time) && FundedBefore(o, input, buyer, time)
        && Walks(input, steps, time);
      var k :| 0 <= k < |rows| && input.settlements[k] == s;
      SettleRowIff(o, input, s);
      assert rows[k] in rows && rows[k].Some? && rows[k].value.time == time;
      PathIff(o, input, path, rows[k].value.time);
      AllHops(hops, input.seller, input.funder, rows[k].value.time);
      EarliestIsLeast(rows, hops[0].value.time);
      LoopTheorems.PathHoldsAgainst(hops, input.seller, input.funder, rows[k].value.time, Earliest(rows));
    }
  }

  lemma AllHops(hops: seq<Option<Hop>>, seller: Address, funder: Address, earliest: u64)
    requires PathHolds(hops, seller, funder, earliest)
    ensures forall k :: 0 <= k < |hops| ==> hops[k].Some?
    ensures hops[0].value.time > earliest
  {
    forall k | 0 <= k < |hops|
      ensures hops[k].Some?
      ensures k == 0 ==> hops[0].value.time > earliest
    {
      assert HopHolds(hops, k, seller, earliest);
    }
  }

  // ── Amounts ───────────────────────────────────────────────────────────

  /** What a transfer log carries. */
  function CarriedBy(chain: ChainResolver, r: LogRef): nat {
    if Found(chain, r).Some? then Rlp.BeNat(Found(chain, r).value.content.data) else 0
  }

  function Carried(chain: ChainResolver): LogRef -> nat {
    (r: LogRef) => CarriedBy(chain, r)
  }

  function FundedBy(o: Oracle, input: ClosedLoopInput, e: FundingEvidence): nat {
    match e.kind
    case Usdc(transfer) => CarriedBy(Chain(o, input), transfer)
    case ProtocolDeposit(transfer, _) => CarriedBy(Chain(o, input), transfer)
    case Native(_, _, _) => 0
  }

  function FundedAmount(o: Oracle, input: ClosedLoopInput): FundingEvidence -> nat {
    (e: FundingEvidence) => FundedBy(o, input, e)
  }

  function FundedFor(o: Oracle, input: ClosedLoopInput, buyer: Address): FundingEvidence -> nat {
    (e: FundingEvidence) => if e.buyer == buyer then FundedBy(o, input, e) else 0
  }

  /** What a settlement log settles: the second word of its data. */
  function SettledBy(o: Oracle, input: ClosedLoopInput, r: LogRef): nat {
    match Found(Chain(o, input), r)
    case Some(e) => if |e.content.data| >= 64 then Rlp.BeNat(e.content.data[32..64]) else 0
    case None => 0
  }

  predicate BoughtBy(o: Oracle, input: ClosedLoopInput, r: LogRef, buyer: Address) {
    match Found(Chain(o, input), r)
    case Some(e) =>
      |e.content.topics| == 4 && |e.content.topics[2]| == 32 && Rlp.BeNat(e.content.topics[2][12..]) == buyer
    case None => false
  }

  function SettledAmount(o: Oracle, input: ClosedLoopInput): LogRef -> nat {
    (r: LogRef) => SettledBy(o, input, r)
  }

  function SettledFor(o: Oracle, input: ClosedLoopInput, buyer: Address): LogRef -> nat {
    (r: LogRef) => if BoughtBy(o, input, r, buyer) then SettledBy(o, input, r) else 0
  }

  function LeastOf(s: seq<nat>): nat {
    if s == [] then 0
    else if |s| == 1 then s[0]
    else Min(LeastOf(s[..|s| - 1]), s[|s| - 1])
  }

  lemma {:induction false} LeastOfIs(s: seq<nat>, least: nat)
    requires exists k :: 0 <= k < |s| && s[k] == least
    requires forall k :: 0 <= k < |s| ==> least <= s[k]
    ensures LeastOf(s) == least
  {
    if |s| > 1 {
      var init := s[..|s| - 1];
      if exists k :: 0 <= k < |init| && init[k] == least {
        LeastOfIs(init, least);
      } else {
        LeastOfBounds(init, least);
      }
    }
  }

  lemma {:induction false} LeastOfBounds(s: seq<nat>, bound: nat)
    requires s != [] && forall k :: 0 <= k < |s| ==> bound <= s[k]
    ensures bound <= LeastOf(s)
  {
    if |s| > 1 {
      LeastOfBounds(s[..|s| - 1], bound);
    }
  }

  /** A path is worth the least it carries. */
  function Worth(o: Oracle, input: ClosedLoopInput): ReturnPath -> nat {
    (path: ReturnPath) => LeastOf(Map(Carried(Chain(o, input)), path.transfers))
  }

  lemma FundRowAmount(o: Oracle, input: ClosedLoopInput, e: FundingEvidence)
    requires FundRow(o, input, e).Some?
    ensures AmountOf(FundRow(o, input, e)) == FundedAmount(o, input)(e)
    ensures forall buyer :: AmountFor(buyer)(FundRow(o, input, e)) == FundedFor(o, input, buyer)(e)
  {
    hide FundRow, Found;
    FundRowIff(o, input, e);
    RowIsForBuyer(o, input, e);
  }

  lemma SettleRowAmount(o: Oracle, input: ClosedLoopInput, r: LogRef)
    requires SettleRow(o, input, r).Some?
    ensures AmountOf(SettleRow(o, input, r)) == SettledAmount(o, input)(r)
    ensures forall buyer :: AmountFor(buyer)(SettleRow(o, input, r)) == SettledFor(o, input, buyer)(r)
  {
    hide SettleRow, Found, FundedBefore;
    SettleRowIff(o, input, r);
  }

  lemma PathRowAmount(o: Oracle, input: ClosedLoopInput, path: ReturnPath)
    requires PathRow(o, input, path).Some?
    ensures AmountOf(PathRow(o, input, path)) == Worth(o, input)(path)
  {
    hide PathRow, Found, Returned, IsTransfer;
    PathRowIff(o, input, path);
    var amount := PathRow(o, input, path).value.amount;
    var steps, carried := StepsOf(o, input, path), Map(Carried(Chain(o, input)), path.transfers);
    PathSteps(o, input, path);
    assert forall k :: 0 <= k < |steps| ==> carried[k] == steps[k].value.amount;
    var k :| 0 <= k < |steps| && steps[k].Some? && amount == steps[k].value.amount;
    assert carried[k] == amount;
    LeastOfIs(carried, amount);
  }

  lemma PathSteps(o: Oracle, input: ClosedLoopInput, path: ReturnPath)
    requires PathRow(o, input, path).Some?
    ensures forall k :: 0 <= k < |path.transfers| ==> StepsOf(o, input, path)[k].Some?
  {
    hide SettleRows, HopAt, StepAt, Bottleneck;
    PathIff(o, input, path, Earliest(SettleRows(o, input)));
  }

  // ── LEDGER ────────────────────────────────────────────────────────────

  /** What buyer `k` holds at the period end, read from its balance slot under the state root of the period-end block,
      and what it settled, against what it was funded with. */
  ghost predicate Covered(o: Oracle, input: ClosedLoopInput, k: nat)
    requires k < |input.buyers| && k < |input.ledgers|
  {
    var (buyer, read) := (input.buyers[k], input.ledgers[k].end);
    var settled, funded :=
      SumBy(input.settlements, SettledFor(o, input, buyer)), SumBy(input.fundings, FundedFor(o, input, buyer));
    && read.block < |input.blocks| && input.blocks[read.block].header.number == input.periodEnd
    && var balance := o.storage(
         input.blocks[read.block].header.stateRoot, 0x0F7a3a8f4Da01637d1202bb5443fcF7F88F99fD2, Slot(buyer, 9, 0),
           read.proof);
    && balance.Ok? && ((balance.value + settled) * 10_000) % U256_LIMIT <= funded * 10_500
  }

  lemma CoveredIff(o: Oracle, input: ClosedLoopInput, k: nat)
    requires k < |input.buyers| && k < |input.ledgers|
    requires AllAccepted(FundRows(o, input)) && AllAccepted(SettleRows(o, input))
    requires Total(FundRows(o, input)) < U128_LIMIT && Total(SettleRows(o, input)) < U128_LIMIT
    ensures LedgerHolds(o, input, k) <==> Covered(o, input, k)
  {
    hide FundRows, SettleRows, LedgerCheck, SettledFor, FundedFor, Total, PartyTotal;
    var buyer := input.buyers[k];
    LegTotals(o, input, buyer);
    PartyWithinTotal(FundRows(o, input), buyer);
    PartyWithinTotal(SettleRows(o, input), buyer);
    var settled, funded := PartyTotal(SettleRows(o, input), buyer), PartyTotal(FundRows(o, input), buyer);
    if EndBalance(o, input, k).Ok? {
      LedgerCheckIs(EndBalance(o, input, k).value, settled, funded);
    }
  }

  /** The totals of accepted legs are the sums of what their evidence shows. */
  lemma LegTotals(o: Oracle, input: ClosedLoopInput, buyer: Address)
    requires AllAccepted(FundRows(o, input)) && AllAccepted(SettleRows(o, input))
    ensures Total(FundRows(o, input)) == SumBy(input.fundings, FundedAmount(o, input))
    ensures Total(SettleRows(o, input)) == SumBy(input.settlements, SettledAmount(o, input))
    ensures PartyTotal(FundRows(o, input), buyer) == SumBy(input.fundings, FundedFor(o, input, buyer))
    ensures PartyTotal(SettleRows(o, input), buyer) == SumBy(input.settlements, SettledFor(o, input, buyer))
  {
    hide FundRow, SettleRow, SumBy, FundedAmount, FundedFor, SettledAmount, SettledFor;
    var funds, settles := FundRows(o, input), SettleRows(o, input);
    forall k | 0 <= k < |funds|
      ensures AmountOf(funds[k]) == FundedAmount(o, input)(input.fundings[k])
      ensures AmountFor(buyer)(funds[k]) == FundedFor(o, input, buyer)(input.fundings[k])
    {
      assert funds[k] in funds;
      FundRowAmount(o, input, input.fundings[k]);
    }
    forall k | 0 <= k < |settles|
      ensures AmountOf(settles[k]) == SettledAmount(o, input)(input.settlements[k])
      ensures AmountFor(buyer)(settles[k]) == SettledFor(o, input, buyer)(input.settlements[k])
    {
      assert settles[k] in settles;
      SettleRowAmount(o, input, input.settlements[k]);
    }
    SumIndexed(funds, AmountOf, input.fundings, FundedAmount(o, input));
    SumIndexed(funds, AmountFor(buyer), input.fundings, FundedFor(o, input, buyer));
    SumIndexed(settles, AmountOf, input.settlements, SettledAmount(o, input));
    SumIndexed(settles, AmountFor(buyer), input.settlements, SettledFor(o, input, buyer));
  }

  lemma ReturnTotal(o: Oracle, input: ClosedLoopInput)
    requires AllAccepted(PathRows(o, input))
    ensures Total(PathRows(o, input)) == SumBy(input.returnPaths, Worth(o, input))
  {
    hide PathRow, SumBy, Worth;
    var rows := PathRows(o, input);
    forall k | 0 <= k < |rows|
      ensures AmountOf(rows[k]) == Worth(o, input)(input.returnPaths[k])
    {
      assert rows[k] in rows;
      PathRowAmount(o, input, input.returnPaths[k]);
    }
    SumIndexed(rows, AmountOf, input.returnPaths, Worth(o, input));
  }

  // ── The loop ──────────────────────────────────────────────────────────

  /** Chain, period, parties and cohort. */
  ghost predicate Framed(input: ClosedLoopInput) {
    && input.chainId == 8_453 && 1 <= input.periodStart <= input.periodEnd
    && input.seller != 0 && input.funder != 0
    && 1 <= |input.buyers| <= 256 && 0 !in input.buyers && input.funder !in input.buyers
    && forall i, j :: 0 <= i < j < |input.buyers| ==> input.buyers[i] < input.buyers[j]
  }

  /** All evidence shows what it is for, every buyer is funded, and no log is referenced twice. */
  ghost predicate Evidenced(o: Oracle, input: ClosedLoopInput) {
    && (forall e :: e in input.fundings ==> IsFunded(o, input, e))
    && (forall b :: b in input.buyers ==> exists e :: e in input.fundings && e.buyer == b)
    && input.settlements != []
    && (forall r :: r in input.settlements ==> IsSettled(o, input, r))
    && |input.returnPaths| <= (if input.seller == input.funder then 0 else 512)
    && (forall p :: p in input.returnPaths ==> Returned(o, input, p))
    && Distinct(AllRefs(input))
  }

  /** The totals fit, nine tenths of what was settled was funded and three tenths came back, and
      every buyer is covered. */
  ghost predicate Balanced(o: Oracle, input: ClosedLoopInput) {
    var funded, settled, returned :=
      SumBy(input.fundings, FundedAmount(o, input)), SumBy(input.settlements, SettledAmount(o, input)),
      SumBy(input.returnPaths, Worth(o, input));
    && funded < U128_LIMIT && settled < U128_LIMIT && returned < U128_LIMIT
    && funded * 10_000 >= settled * 9_000
    && |input.ledgers| == |input.buyers| && (forall k :: 0 <= k < |input.buyers| ==> Covered(o, input, k))
    && (input.seller != input.funder ==> returned * 10_000 >= settled * 3_000)
  }

  /** The loop, stated without any order of processing. */
  ghost predicate ConservedLoop(o: Oracle, input: ClosedLoopInput) {
    && Framed(input)
    && Genuine(o, input.blocks, input.periodStart, input.periodEnd)
    && Evidenced(o, input)
    && Balanced(o, input)
  }

  ghost predicate IsFunded(o: Oracle, input: ClosedLoopInput, e: FundingEvidence) {
    exists amount: nat, time: nat :: Funded(o, input, e, amount, time)
  }

  ghost predicate IsSettled(o: Oracle, input: ClosedLoopInput, r: LogRef) {
    exists buyer, amount: nat, time: nat ::
      Settled(o, input, r, buyer, amount, time) && FundedBefore(o, input, buyer, time)
  }

  lemma FundsAccepted(o: Oracle, input: ClosedLoopInput)
    ensures AllAccepted(FundRows(o, input)) <==> forall e :: e in input.fundings ==> IsFunded(o, input, e)
    ensures AllAccepted(FundRows(o, input)) ==> forall b ::
      EarliestFor(FundRows(o, input), b).Some? <==> exists e :: e in input.fundings && e.buyer == b
  {
    hide FundRow, Funded;
    var rows := FundRows(o, input);
    forall k | 0 <= k < |rows|
      ensures rows[k].Some? <==> IsFunded(o, input, input.fundings[k])
      ensures rows[k] in rows && input.fundings[k] in input.fundings
      ensures rows[k].Some? ==> rows[k].value.party == input.fundings[k].buyer
    {
      FundRowIff(o, input, input.fundings[k]);
      RowIsForBuyer(o, input, input.fundings[k]);
    }
    if AllAccepted(rows) {
      forall b
        ensures EarliestFor(rows, b).Some? <==> exists e :: e in input.fundings && e.buyer == b
      {
        EarliestForIsLeast(rows, b, 0);
      }
    }
  }

  lemma SettlesAndReturnsAccepted(o: Oracle, input: ClosedLoopInput)
    ensures AllAccepted(SettleRows(o, input)) <==> forall r :: r in input.settlements ==> IsSettled(o, input, r)
    ensures AllAccepted(PathRows(o, input)) <==> forall p :: p in input.returnPaths ==> Returned(o, input, p)
  {
    hide SettleRow, PathRow, Settled, FundedBefore, Returned;
    var settles, paths := SettleRows(o, input), PathRows(o, input);
    forall k | 0 <= k < |settles|
      ensures settles[k].Some? <==> IsSettled(o, input, input.settlements[k])
      ensures settles[k] in settles && input.settlements[k] in input.settlements
    {
      SettleRowIff(o, input, input.settlements[k]);
    }
    forall k | 0 <= k < |paths|
      ensures paths[k].Some? <==> Returned(o, input, input.returnPaths[k])
      ensures paths[k] in paths && input.returnPaths[k] in input.returnPaths
    {
      PathRowIff(o, input, input.returnPaths[k]);
    }
  }

  lemma FramedIff(input: ClosedLoopInput)
    ensures ClosedLoop.WellFormed(input) <==> Framed(input)
  {
  }

  /** Refinement: the stateful passes, in their order and with their shared set of used logs, accept exactly the
      claims that satisfy the declarative predicate. */
  lemma LoopHoldsIff(o: Oracle, input: ClosedLoopInput)
    ensures LoopHolds(o, input) <==> ConservedLoop(o, input)
  {
    hide FundRow, SettleRow, PathRow, IsFunded, IsSettled, Returned, Booked, Total, LedgerHolds, Covered, Authentic,
      Genuine, ClosedLoop.WellFormed, Framed, AllRefs, Consumed, FundedAmount, SettledAmount, Worth;
    var f, s, p := FundRows(o, input), SettleRows(o, input), PathRows(o, input);
    FramedIff(input);
    AuthenticIff(o, input.blocks, input.periodStart, input.periodEnd);
    FundsAccepted(o, input);
    SettlesAndReturnsAccepted(o, input);
    ThreeLegs(f, s, p);
    NothingBooked([], Consumed(f) + Consumed(s));
    assert input.returnPaths == [] ==> p == [];
    if AllAccepted(f) && AllAccepted(s) && AllAccepted(p) &&
      Authentic(o, input.blocks, input.periodStart, input.periodEnd) {
      KeyLists(o, input);
      DistinctKeysAreDistinctRefs(Chain(o, input), input.periodStart, input.periodEnd, AllRefs(input));
      LegTotals(o, input, 0);
      ReturnTotal(o, input);
      if Total(f) < U128_LIMIT && Total(s) < U128_LIMIT && |input.ledgers| == |input.buyers| {
        forall k | 0 <= k < |input.buyers|
          ensures LedgerHolds(o, input, k) <==> Covered(o, input, k)
        {
          CoveredIff(o, input, k);
        }
      }
    }
  }
}
