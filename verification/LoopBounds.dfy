/** Magnitudes of an accepted closed loop: the proven volume, what the ledgers imply about the funding, how much
    every cut between seller and funder must carry, and how much value survives a return path. */
module LoopBounds {
  import opened Prelude
  import opened Hashing
  import opened Evidence
  import opened Booking
  import opened Journal
  import opened ClosedLoop
  import opened Ledgers
  import opened LoopTheorems
  import opened Conservation
  import opened Decoding

  // ── Volume ────────────────────────────────────────────────────────────

  /** The record of a settlement log: its place on chain, hashed, and its amount. */
  function RecordAt(o: Oracle, input: ClosedLoopInput, r: LogRef): SettlementRecord {
    match Found(Chain(o, input), r)
    case Some(e) =>
      var amount := SettledBy(o, input, r);
      if amount < U128_LIMIT then SettlementRecord(SettlementHash(8_453, e.number, e.transaction, e.log), amount)
      else SettlementRecord(ZeroHash, 0)
    case None => SettlementRecord(ZeroHash, 0)
  }

  /** The claim, one subject with the sum of the settlement logs and one record each, in order, and the references of
      the blocks. */
  function SpelledJournal(o: Oracle, input: ClosedLoopInput, volume: u128): WashJournal {
    WashJournal(
      1, 8_453, input.periodStart, input.periodEnd, input.sourceClaimId,
      LoopClaimHash(
        input.periodStart, input.periodEnd, input.seller, input.funder, CohortHash(input.buyers),
          LoopEvidenceHash(input)),
      [SubjectRecord(input.seller, volume, Map((r: LogRef) => RecordAt(o, input, r), input.settlements))],
      JournalRefs(input.blocks))
  }

  /** The journal of an accepted loop says exactly this, of a positive volume. */
  lemma JournalVolume(o: Oracle, input: ClosedLoopInput) returns (volume: u128)
    requires LoopHolds(o, input)
    ensures 0 < volume == SumBy(input.settlements, SettledAmount(o, input))
    ensures Total(SettleRows(o, input)) == volume && LoopJournal(o, input) == SpelledJournal(o, input, volume)
    ensures forall r :: r in input.settlements ==> Found(Chain(o, input), r).Some? && SettledBy(o, input, r) > 0
  {
    hide SettleRow, FundRow, Booked, JournalRefs, LedgersHold, ReturnsHold, SettledBy;
    var rows := SettleRows(o, input);
    BookedIff(FundRows(o, input), {});
    BookedIff(rows, Consumed(FundRows(o, input)));
    LegTotals(o, input, 0);
    volume := Total(rows);
    forall k | 0 <= k < |rows|
      ensures rows[k].Some? && RecordOf(rows[k]) == RecordAt(o, input, input.settlements[k])
      ensures Found(Chain(o, input), input.settlements[k]).Some? && SettledBy(o, input, input.settlements[k]) > 0
    {
      assert rows[k] in rows;
      SettleRecord(o, input, input.settlements[k]);
    }
    assert Map(RecordOf, rows) == Map((r: LogRef) => RecordAt(o, input, r), input.settlements);
    SumByTerm(input.settlements, SettledAmount(o, input), 0);
  }

  lemma SettleRecord(o: Oracle, input: ClosedLoopInput, r: LogRef)
    requires SettleRow(o, input, r).Some?
    ensures Found(Chain(o, input), r).Some? && SettledBy(o, input, r) > 0
    ensures RecordOf(SettleRow(o, input, r)) == RecordAt(o, input, r)
  {
    SettleRowAmount(o, input, r);
    SettleRowParts(o, input, r);
    SettleRowIff(o, input, r);
    hide SettleRow, Found, SettledBy;
    ResolvesIff(Chain(o, input), r);
  }

  lemma SettleRowParts(o: Oracle, input: ClosedLoopInput, reference: LogRef)
    requires SettleRow(o, input, reference).Some?
    ensures Chain(o, input).Key(reference).Ok?
    ensures SettleRow(o, input, reference).value.keys == [Chain(o, input).Key(reference).value]
    ensures SettleRow(o, input, reference).value.amount > 0
    ensures SettleRow(o, input, reference).value.party in input.buyers
  {
    hide ChainResolver.Key, ChainResolver.SettlementAt, ChainResolver.Timestamp, FundRows;
  }

  // ── LEDGER implies FUND coverage ──────────────────────────────────────

  /** No buyer's period-end balance makes the ledger product wrap. */
  ghost predicate BalancesFit(o: Oracle, input: ClosedLoopInput) {
    forall k :: 0 <= k < |input.ledgers| && k < |input.buyers| && EndBalance(o, input, k).Ok? ==>
      (EndBalance(o, input, k).value + PartyTotal(SettleRows(o, input), input.buyers[k])) * BPS < U256_LIMIT
  }

  function PartyTotalIn(rows: Rows): Address -> nat {
    (b: Address) => PartyTotal(rows, b)
  }

  /** Every amount belongs to exactly one buyer, so the per-buyer totals add up to the total. */
  lemma {:induction false} PartySplit(rows: Rows, buyers: seq<Address>)
    requires Distinct(buyers)
    requires forall r :: r in rows && r.Some? ==> r.value.party in buyers
    ensures SumBy(buyers, PartyTotalIn(rows)) == Total(rows)
    decreases |rows|
  {
    if rows == [] {
      ZeroSum(buyers, PartyTotalIn(rows));
    } else {
      var init, last := rows[..|rows| - 1], rows[|rows| - 1];
      assert rows == init + [last];
      assert last in rows && forall r :: r in init ==> r in rows;
      PartySplit(init, buyers);
      if last.None? {
        SameSum(buyers, PartyTotalIn(init), PartyTotalIn(rows));
      } else {
        BumpSum(buyers, PartyTotalIn(init), PartyTotalIn(rows), last.value.party, last.value.amount);
      }
    }
  }

  lemma {:induction false} ZeroSum(s: seq<Address>, f: Address -> nat)
    requires forall b :: f(b) == 0
    ensures SumBy(s, f) == 0
  {
    if s != [] {
      ZeroSum(s[..|s| - 1], f);
    }
  }

  lemma {:induction false} SameSum(s: seq<Address>, f: Address -> nat, g: Address -> nat)
    requires forall b :: b in s ==> f(b) == g(b)
    ensures SumBy(s, f) == SumBy(s, g)
  {
    if s != [] {
      SameSum(s[..|s| - 1], f, g);
    }
  }

  lemma {:induction false} BumpSum(s: seq<Address>, f: Address -> nat, g: Address -> nat, at: Address, amount: nat)
    requires Distinct(s) && at in s
    requires forall b :: g(b) == f(b) + if b == at then amount else 0
    ensures SumBy(s, g) == SumBy(s, f) + amount
  {
    var init, last := s[..|s| - 1], s[|s| - 1];
    assert s == init + [last];
    if last == at {
      assert at !in init;
      SameSum(init, f, g);
    } else {
      BumpSum(init, f, g, at, amount);
    }
  }

  /** Every period-end balance reads, and what each buyer settled fits u128. */
  ghost predicate AccountsRead(o: Oracle, input: ClosedLoopInput) {
    && |input.ledgers| == |input.buyers|
    && forall k :: 0 <= k < |input.buyers| ==>
         EndBalance(o, input, k).Ok? && PartyTotal(SettleRows(o, input), input.buyers[k]) < U128_LIMIT
  }

  /** The accounts of the cohort, buyer by buyer. */
  ghost function Accounts(o: Oracle, input: ClosedLoopInput): (r: seq<Account>)
    requires AccountsRead(o, input)
    ensures |r| == |input.buyers|
    ensures forall k :: 0 <= k < |r| ==>
      r[k] == Account(EndBalance(o, input, k).value, PartyTotal(SettleRows(o, input), input.buyers[k]))
  {
    seq(|input.buyers|, k requires 0 <= k < |input.buyers| =>
      Account(EndBalance(o, input, k).value, PartyTotal(SettleRows(o, input), input.buyers[k])))
  }

  lemma LedgersAreRead(o: Oracle, input: ClosedLoopInput)
    requires LedgersHold(o, input)
    ensures AccountsRead(o, input)
  {
    hide EndBalance, LedgerCheck, SettleRows, FundRows, PartyTotal;
    forall k | 0 <= k < |input.buyers|
      ensures EndBalance(o, input, k).Ok? && PartyTotal(SettleRows(o, input), input.buyers[k]) < U128_LIMIT
    {
      assert LedgerHolds(o, input, k);
    }
  }

  /** The accounts add up to the settled volume of the claim. */
  lemma AccountsSettled(o: Oracle, input: ClosedLoopInput)
    requires Ascending(input.buyers) && AccountsRead(o, input)
    ensures SumBy(Accounts(o, input), SettledOf) == Total(SettleRows(o, input))
  {
    hide SettleRows, EndBalance, PartyTotal, Total;
    PartiesInCohort(o, input);
    PartySplit(SettleRows(o, input), input.buyers);
    SumIndexed(Accounts(o, input), SettledOf, input.buyers, PartyTotalIn(SettleRows(o, input)));
  }

  /** Exactly when the ledgers of a cohort imply the funding coverage: every funding they accept covers nine tenths of
      the settled volume if and only if the least one does, or does not fit u128. */
  lemma LedgersCoverIff(o: Oracle, input: ClosedLoopInput)
    requires Ascending(input.buyers) && AccountsRead(o, input)
    ensures (forall fundings: seq<u128> :: Funds(Accounts(o, input), fundings) ==>
              Sum(fundings) * BPS >= Total(SettleRows(o, input)) * ALPHA_FUND_BPS)
      <==> Forced(Accounts(o, input), BPS, ALPHA_FUND_BPS)
  {
    hide SettleRows, EndBalance, PartyTotal, Total, Forced, Funds;
    AccountsSettled(o, input);
    RatioForcedIff(Accounts(o, input), BPS, ALPHA_FUND_BPS);
  }

  /** The fundings of a claim whose ledgers hold are fundings its accounts accept. */
  lemma ClaimFunds(o: Oracle, input: ClosedLoopInput) returns (fundings: seq<u128>)
    requires Ascending(input.buyers) && LedgersHold(o, input) && Total(FundRows(o, input)) < U128_LIMIT
    ensures AccountsRead(o, input) && Funds(Accounts(o, input), fundings)
    ensures Sum(fundings) == Total(FundRows(o, input))
  {
    hide FundRows, SettleRows, EndBalance, LedgerCheck, PartyTotal, Total;
    LedgersAreRead(o, input);
    PartiesInCohort(o, input);
    PartySplit(FundRows(o, input), input.buyers);
    forall k | 0 <= k < |input.buyers|
      ensures PartyTotal(FundRows(o, input), input.buyers[k]) < U128_LIMIT
    {
      assert LedgerHolds(o, input, k);
    }
    fundings := seq(|input.buyers|, k requires 0 <=
      k < |input.buyers| => PartyTotal(FundRows(o, input), input.buyers[k]));
    SumIndexed<nat, Address>(fundings, Same, input.buyers, PartyTotalIn(FundRows(o, input)));
    forall k | 0 <= k < |input.buyers|
      ensures LedgerCheck(Accounts(o, input)[k].balance, Accounts(o, input)[k].settled, fundings[k])
    {
      assert LedgerHolds(o, input, k);
    }
  }

  /** What the accounts force, the claim has. */
  lemma LedgersForce(o: Oracle, input: ClosedLoopInput, a: nat, b: nat)
    requires Ascending(input.buyers) && LedgersHold(o, input) && Total(FundRows(o, input)) < U128_LIMIT
    requires AccountsRead(o, input) && Forced(Accounts(o, input), a, b)
    ensures Total(FundRows(o, input)) * a >= Total(SettleRows(o, input)) * b
  {
    hide FundRows, SettleRows, EndBalance, LedgersHold, Total, Forced, Funds;
    AccountsSettled(o, input);
    RatioForcedIff(Accounts(o, input), a, b);
    var fundings := ClaimFunds(o, input);
    assert Funds(Accounts(o, input), fundings);
  }

  /** Balances that do not wrap force both ratios. */
  lemma FittingBalancesForce(o: Oracle, input: ClosedLoopInput)
    requires AccountsRead(o, input) && BalancesFit(o, input)
    ensures Forced(Accounts(o, input), BPS + EPSILON_LEDGER_BPS, BPS)
    ensures Forced(Accounts(o, input), BPS, ALPHA_FUND_BPS)
  {
    hide SettleRows, EndBalance, PartyTotal, Forced;
    LeastWithoutWrap(Accounts(o, input));
  }

  /** Adding up the ledgers: what the cohort settled is at most 1.05 times what it was funded with, whenever the least
      fundings reach that. */
  lemma LedgersBoundSettlements(o: Oracle, input: ClosedLoopInput)
    requires Ascending(input.buyers) && LedgersHold(o, input) && Total(FundRows(o, input)) < U128_LIMIT
    requires AccountsRead(o, input) && Forced(Accounts(o, input), BPS + EPSILON_LEDGER_BPS, BPS)
    ensures Total(SettleRows(o, input)) * BPS <= Total(FundRows(o, input)) * (BPS + EPSILON_LEDGER_BPS)
  {
    LedgersForce(o, input, BPS + EPSILON_LEDGER_BPS, BPS);
  }

  lemma PartiesInCohort(o: Oracle, input: ClosedLoopInput)
    ensures forall r :: r in FundRows(o, input) && r.Some? ==> r.value.party in input.buyers
    ensures forall r :: r in SettleRows(o, input) && r.Some? ==> r.value.party in input.buyers
  {
    hide SettleRow;
    forall r | r in FundRows(o, input) && r.Some?
      ensures r.value.party in input.buyers
    {
      var k :| 0 <= k < |input.fundings| && FundRow(o, input, input.fundings[k]) == r;
      RowIsForBuyer(o, input, input.fundings[k]);
    }
    forall r | r in SettleRows(o, input) && r.Some?
      ensures r.value.party in input.buyers
    {
      var k :| 0 <= k < |input.settlements| && SettleRow(o, input, input.settlements[k]) == r;
      SettleRowParts(o, input, input.settlements[k]);
    }
  }

  /** The coverage ratio checked before the ledgers is implied by them, whenever the least fundings reach it. */
  lemma LedgersImplyCoverage(o: Oracle, input: ClosedLoopInput)
    requires Ascending(input.buyers) && LedgersHold(o, input)
    requires Total(FundRows(o, input)) < U128_LIMIT && Total(SettleRows(o, input)) < U128_LIMIT
    requires AccountsRead(o, input) && Forced(Accounts(o, input), BPS, ALPHA_FUND_BPS)
    ensures MeetsRatio(Total(FundRows(o, input)), Total(SettleRows(o, input)), ALPHA_FUND_BPS)
  {
    LedgersForce(o, input, BPS, ALPHA_FUND_BPS);
  }

  // ── RETURN across a cut ───────────────────────────────────────────────

  /** What a referenced transfer carries out of an address set. */
  function Crossing(o: Oracle, input: ClosedLoopInput, inside: set<Address>): LogRef -> nat {
    (reference: LogRef) =>
      var hop := HopAt(o, input, reference);
      if hop.Some? && hop.value.from in inside && hop.value.to !in inside then hop.value.amount else 0
  }

  lemma {:induction false} BottleneckBounds(hops: seq<Option<Hop>>, k: nat)
    requires k < |hops| && hops[k].Some?
    ensures Bottleneck(hops) <= hops[k].value.amount
  {
    if k < |hops| - 1 {
      BottleneckBounds(hops[..|hops| - 1], k);
    }
  }

  /** A walk that starts inside a set and ends outside leaves it at some hop. */
  lemma {:induction false} LeavesSomewhere(hops: seq<Option<Hop>>, n: nat, inside: set<Address>) returns (k: nat)
    requires 1 <= n <= |hops|
    requires forall j :: 0 <= j < n ==> hops[j].Some?
    requires forall j :: 0 < j < n ==> hops[j].value.from == hops[j - 1].value.to
    requires hops[0].value.from in inside && hops[n - 1].value.to !in inside
    ensures k < n && hops[k].value.from in inside && hops[k].value.to !in inside
    decreases n
  {
    if hops[n - 1].value.from in inside {
      k := n - 1;
    } else {
      k := LeavesSomewhere(hops, n - 1, inside);
    }
  }

  lemma PathIsWalk(hops: seq<Option<Hop>>, seller: Address, funder: Address, earliest: u64)
    requires PathHolds(hops, seller, funder, earliest)
    ensures forall j :: 0 <= j < |hops| ==> hops[j].Some?
    ensures hops[0].value.from == seller && hops[|hops| - 1].value.to == funder
    ensures forall j :: 0 < j < |hops| ==> hops[j].value.from == hops[j - 1].value.to
    ensures forall j :: 0 < j < |hops| ==> hops[j].value.amount * BPS >= hops[j - 1].value.amount * RHO_HOP_BPS
  {
    forall j | 0 <= j < |hops|
      ensures hops[j].Some?
      ensures j == 0 ==> hops[j].value.from == seller
      ensures j > 0 ==> hops[j - 1].Some? && hops[j].value.from == hops[j - 1].value.to
      ensures j > 0 ==> hops[j].value.amount * BPS >= hops[j - 1].value.amount * RHO_HOP_BPS
    {
      assert HopHolds(hops, j, seller, earliest);
    }
  }

  /** The credit of a path is at most what it carries across any cut. */
  lemma PathAcrossCut(o: Oracle, input: ClosedLoopInput, path: ReturnPath, inside: set<Address>)
    requires PathRow(o, input, path).Some?
    requires input.seller in inside && input.funder !in inside
    ensures PathRow(o, input, path).value.amount <= SumBy(path.transfers, Crossing(o, input, inside))
  {
    hide HopAt, HopHolds, SettleRows;
    var hops := HopsOf(o, input, path);
    PathIsWalk(hops, input.seller, input.funder, Earliest(SettleRows(o, input)));
    var k := LeavesSomewhere(hops, |hops|, inside);
    BottleneckBounds(hops, k);
    SumByTerm(path.transfers, Crossing(o, input, inside), k);
  }

  lemma {:induction false} PathsAcrossCut(o: Oracle, input: ClosedLoopInput, paths: seq<ReturnPath>, rows: Rows,
                                          inside: set<Address>)
    requires |rows| == |paths| && forall k :: 0 <= k < |rows| ==>
      rows[k] == PathRow(o, input, paths[k]) && rows[k].Some?
    requires input.seller in inside && input.funder !in inside
    ensures Total(rows) <= SumBy(Concat(Map(PathRefs, paths)), Crossing(o, input, inside))
    decreases |paths|
  {
    hide PathRow, Crossing;
    if paths == [] {
      assert rows == [];
    } else {
      var last := |paths| - 1;
      PathsAcrossCut(o, input, paths[..last], rows[..last], inside);
      PathAcrossCut(o, input, paths[last], inside);
      assert Map(PathRefs, paths) == Map(PathRefs, paths[..last]) + [paths[last].transfers];
      ConcatSnoc(Map(PathRefs, paths[..last]), paths[last].transfers);
      assert Total(rows) == Total(rows[..last]) + rows[last].value.amount;
      SumByConcat(Concat(Map(PathRefs, paths[..last])), paths[last].transfers, Crossing(o, input, inside));
    }
  }

  lemma DistinctTail<T>(a: seq<T>, b: seq<T>)
    requires Distinct(a + b)
    ensures Distinct(b)
  {
    forall i, j | 0 <= i < j < |b|
      ensures b[i] != b[j]
    {
      assert (a + b)[|a| + i] == b[i] && (a + b)[|a| + j] == b[j];
    }
  }

  /** Flow and cut: for every set of addresses that holds the seller but not the funder, the credited returns are
      at most the referenced transfers that leave the set, each log counted once; so every such cut carries at
      least 30% of the settled volume. */
  lemma ReturnsBoundedByCut(o: Oracle, input: ClosedLoopInput, inside: set<Address>)
    requires LoopHolds(o, input)
    requires input.seller in inside && input.funder !in inside
    ensures Distinct(ReturnRefs(input))
    ensures Total(PathRows(o, input)) <= SumBy(ReturnRefs(input), Crossing(o, input, inside))
    ensures SumBy(ReturnRefs(input), Crossing(o, input, inside)) * BPS >= Total(SettleRows(o, input)) * ALPHA_RETURN_BPS
  {
    hide FundRow, SettleRow, PathRow, Booked, Crossing, SumBy;
    LoopRefsDistinct(o, input);
    var rows := PathRows(o, input);
    BookedIff(rows, Consumed(FundRows(o, input)) + Consumed(SettleRows(o, input)));
    forall k | 0 <= k < |rows|
      ensures rows[k] == PathRow(o, input, input.returnPaths[k]) && rows[k].Some?
    {
      assert rows[k] in rows;
    }
    PathsAcrossCut(o, input, input.returnPaths, rows, inside);
  }

  /** The log references of the three legs of an accepted claim are pairwise distinct. */
  lemma LoopRefsDistinct(o: Oracle, input: ClosedLoopInput)
    requires LoopHolds(o, input)
    ensures Distinct(AllRefs(input)) && Distinct(ReturnRefs(input))
  {
    hide LoopHolds, IsFunded, IsSettled, Returned, Covered, Framed, Genuine, FundRow;
    LoopHoldsIff(o, input);
    DistinctTail(Concat(Map(FundRefs, input.fundings)) + Concat(Map(Single, input.settlements)), ReturnRefs(input));
  }

  // ── Compound retention ────────────────────────────────────────────────

  lemma MulMonotone(a: nat, b: nat, x: nat, y: nat)
    requires a <= b && x <= y
    ensures a * x <= b * y
  {
    assert a * x <= b * x;
    assert b * x <= b * y;
  }

  /** After `k` hops at least 28% per hop is left. */
  lemma {:induction false} RetainedAt(hops: seq<Option<Hop>>, k: nat)
    requires k < |hops| && forall j :: 0 <= j < |hops| ==> hops[j].Some?
    requires forall j :: 0 < j < |hops| ==> hops[j].value.amount * BPS >= hops[j - 1].value.amount * RHO_HOP_BPS
    ensures hops[k].value.amount * Power(BPS, k) >= hops[0].value.amount * Power(RHO_HOP_BPS, k)
  {
    if k > 0 {
      RetainedAt(hops, k - 1);
      RetainStep(hops[k].value.amount, hops[k - 1].value.amount, hops[0].value.amount, Power(BPS, k - 1),
        Power(RHO_HOP_BPS, k - 1));
    }
  }

  lemma RetainStep(amount: nat, previous: nat, first: nat, p: nat, q: nat)
    requires amount * BPS >= previous * RHO_HOP_BPS
    requires previous * p >= first * q
    ensures amount * (BPS * p) >= first * (RHO_HOP_BPS * q)
  {
    MulMonotone(previous * RHO_HOP_BPS, amount * BPS, p, p);
    MulMonotone(first * q, previous * p, RHO_HOP_BPS, RHO_HOP_BPS);
    assert amount * (BPS * p) == amount * BPS * p;
    assert previous * RHO_HOP_BPS * p == previous * p * RHO_HOP_BPS;
    assert first * (RHO_HOP_BPS * q) == first * q * RHO_HOP_BPS;
  }

  /** The bottleneck is attained. */
  lemma {:induction false} BottleneckAttained(hops: seq<Option<Hop>>) returns (k: nat)
    requires hops != [] && forall j :: 0 <= j < |hops| ==> hops[j].Some?
    ensures k < |hops| && Bottleneck(hops) == hops[k].value.amount
  {
    var init, last := hops[..|hops| - 1], hops[|hops| - 1].value;
    if init == [] {
      k := 0;
    } else {
      k := BottleneckAttained(init);
      if last.amount <= Bottleneck(init) {
        k := |hops| - 1;
      }
    }
  }

  lemma {:induction false} LaterHopsLoseNoMore(first: nat, c: nat, k: nat, n: nat)
    requires k <= n
    requires c * Power(BPS, k) >= first * Power(RHO_HOP_BPS, k)
    ensures c * Power(BPS, n) >= first * Power(RHO_HOP_BPS, n)
    decreases n
  {
    if k < n {
      LaterHopsLoseNoMore(first, c, k, n - 1);
      RetainStep(c, c, first, Power(BPS, n - 1), Power(RHO_HOP_BPS, n - 1));
    }
  }

  /** A credited path of `n` hops visits at most eight intermediaries and credits at least 0.28^(n-1) of what the
      seller first sent. */
  lemma CompoundRetention(o: Oracle, input: ClosedLoopInput, path: ReturnPath)
    requires PathRow(o, input, path).Some?
    ensures var hops, credit := HopsOf(o, input, path), PathRow(o, input, path).value.amount;
      && 1 <= |hops| <= 9 && hops[0].Some?
      && credit * Power(10_000, |hops| - 1) >= hops[0].value.amount * Power(2_800, |hops| - 1)
  {
    hide HopAt, HopHolds, SettleRows;
    var hops := HopsOf(o, input, path);
    PathIsWalk(hops, input.seller, input.funder, Earliest(SettleRows(o, input)));
    var k := BottleneckAttained(hops);
    RetainedAt(hops, k);
    LaterHopsLoseNoMore(hops[0].value.amount, Bottleneck(hops), k, |hops| - 1);
  }
}
