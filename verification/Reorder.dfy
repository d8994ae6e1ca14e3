/** Order independence: rearranging the fundings, the settlements or the return paths of a claim, or its blocks with
    every reference renumbered, changes neither acceptance nor the seller journal. */
module Reorder {
  import opened Prelude
  import opened Hashing
  import opened Evidence
  import opened Booking
  import opened Journal
  import opened CL = ClosedLoop
  import opened Seller
  import Receipts
  import RP = Reciprocal

  // ── Renumbering references ────────────────────────────────────────────

  /** Mutually inverse positions: block `i` of one list is block `to[i]` of the other. */
  ghost predicate Inverse(to: seq<nat>, back: seq<nat>) {
    && |to| == |back|
    && (forall i :: 0 <= i < |to| ==> to[i] < |to| && back[to[i]] == i)
    && (forall i :: 0 <= i < |to| ==> back[i] < |to| && to[back[i]] == i)
  }

  function Position(to: seq<nat>, i: nat): nat {
    if i < |to| then to[i] else i
  }

  function Renumber(to: seq<nat>): LogRef -> LogRef {
    (r: LogRef) => r.(block := Position(to, r.block))
  }

  function RenumberFunding(to: seq<nat>): FundingEvidence -> FundingEvidence {
    (e: FundingEvidence) => FundingEvidence(e.buyer,
      match e.kind
      case Usdc(t) => Usdc(Renumber(to)(t))
      case ProtocolDeposit(t, d) => ProtocolDeposit(Renumber(to)(t), Renumber(to)(d))
      case Native(b, t, r) => Native(Position(to, b), t, r))
  }

  function RenumberPath(to: seq<nat>): ReturnPath -> ReturnPath {
    (p: ReturnPath) => ReturnPath(Map(Renumber(to), p.transfers))
  }

  function RenumberLedger(to: seq<nat>): BuyerLedger -> BuyerLedger {
    (l: BuyerLedger) => BuyerLedger(l.end.(block := Position(to, l.end.block)))
  }

  /** `y` holds the blocks of `x` at their new positions. */
  ghost predicate Moved(x: seq<EvidenceBlock>, y: seq<EvidenceBlock>, to: seq<nat>, back: seq<nat>) {
    && Inverse(to, back) && |x| == |y| == |to|
    && forall i :: 0 <= i < |to| ==> y[to[i]] == x[i]
  }

  /** `b` is `a` with its evidence lists rearranged and its blocks permuted. */
  ghost predicate Reordered(a: ClosedLoopInput, b: ClosedLoopInput, to: seq<nat>, back: seq<nat>) {
    && Moved(a.blocks, b.blocks, to, back)
    && a.chainId == b.chainId && a.periodStart == b.periodStart && a.periodEnd == b.periodEnd
    && a.sourceClaimId == b.sourceClaimId && a.seller == b.seller && a.funder == b.funder && a.buyers == b.buyers
    && multiset(b.fundings) == multiset(Map(RenumberFunding(to), a.fundings))
    && multiset(b.settlements) == multiset(Map(Renumber(to), a.settlements))
    && multiset(b.returnPaths) == multiset(Map(RenumberPath(to), a.returnPaths))
    && b.ledgers == Map(RenumberLedger(to), a.ledgers)
  }

  // ── Renumbered references resolve to the same evidence ────────────────

  lemma SameLog(o: Oracle, a: seq<EvidenceBlock>, b: seq<EvidenceBlock>, to: seq<nat>, back: seq<nat>, r: LogRef)
    requires Moved(a, b, to, back)
    ensures ChainResolver(o, b).Log(Renumber(to)(r)) == ChainResolver(o, a).Log(r)
    ensures ChainResolver(o, b).Timestamp(Renumber(to)(r)) == ChainResolver(o, a).Timestamp(r)
  {
    hide Receipts.ReceiptLog, Receipts.ReceiptSuccess;
  }

  lemma SameDecoding(o: Oracle, a: seq<EvidenceBlock>, b: seq<EvidenceBlock>, to: seq<nat>, back: seq<nat>, r: LogRef)
    requires Moved(a, b, to, back)
    ensures ChainResolver(o, b).Key(Renumber(to)(r)) == ChainResolver(o, a).Key(r)
    ensures ChainResolver(o, b).UsdcTransfer(Renumber(to)(r)) == ChainResolver(o, a).UsdcTransfer(r)
    ensures ChainResolver(o, b).SettlementAt(Renumber(to)(r)) == ChainResolver(o, a).SettlementAt(r)
    ensures ChainResolver(o, b).ProtocolDeposit(Renumber(to)(r)) == ChainResolver(o, a).ProtocolDeposit(r)
    ensures ChainResolver(o, b).Timestamp(Renumber(to)(r)) == ChainResolver(o, a).Timestamp(r)
    ensures forall who :: ChainResolver(o, b).SignedBy(who, Renumber(to)(r)) == ChainResolver(o, a).SignedBy(who, r)
  {
    hide ChainResolver.Log;
    SameLog(o, a, b, to, back, r);
    forall who
      ensures ChainResolver(o, b).SignedBy(who, Renumber(to)(r)) == ChainResolver(o, a).SignedBy(who, r)
    {
      SameSigner(ChainResolver(o, a), ChainResolver(o, b), r, Renumber(to)(r), who);
    }
  }

  lemma SameSigner(x: ChainResolver, y: ChainResolver, r: LogRef, s: LogRef, expected: Address)
    requires x.oracle == y.oracle && x.Log(r) == y.Log(s)
    ensures x.SignedBy(expected, r) == y.SignedBy(expected, s)
  {
    hide ChainResolver.Log;
    match x.Log(r) {
      case Err(_) =>
      case Ok(at) =>
        SameTransactions(x, y, at.block.transactions, at.receipt.txIndex);
    }
  }

  lemma SameFundRow(o: Oracle, a: ClosedLoopInput, b: ClosedLoopInput, to: seq<nat>, back: seq<nat>, e: FundingEvidence)
    requires Reordered(a, b, to, back)
    ensures FundRow(o, b, RenumberFunding(to)(e)) == FundRow(o, a, e)
  {
    hide ChainResolver.Key, ChainResolver.UsdcTransfer, ChainResolver.ProtocolDeposit, ChainResolver.Timestamp,
      ChainResolver.SignedBy;
    match e.kind {
      case Usdc(t) =>
        SameDecoding(o, a.blocks, b.blocks, to, back, t);
      case ProtocolDeposit(t, d) =>
        SameDecoding(o, a.blocks, b.blocks, to, back, t);
        SameDecoding(o, a.blocks, b.blocks, to, back, d);
        SameBlock(to, back, t.block, d.block);
      case Native(_, _, _) =>
    }
  }

  lemma SameBlock(to: seq<nat>, back: seq<nat>, i: nat, j: nat)
    requires Inverse(to, back)
    ensures Position(to, i) == Position(to, j) <==> i == j
  {
  }

  lemma SameHop(o: Oracle, a: ClosedLoopInput, b: ClosedLoopInput, to: seq<nat>, back: seq<nat>, r: LogRef)
    requires Reordered(a, b, to, back)
    ensures HopAt(o, b, Renumber(to)(r)) == HopAt(o, a, r)
  {
    hide ChainResolver.Key, ChainResolver.UsdcTransfer, ChainResolver.Timestamp;
    SameDecoding(o, a.blocks, b.blocks, to, back, r);
  }

  // ── Rows as multisets ─────────────────────────────────────────────────

  lemma RowsPermute<T>(f: T -> Option<Row>, g: T -> Option<Row>, ren: T -> T, s: seq<T>, t: seq<T>)
    requires multiset(t) == multiset(Map(ren, s))
    requires forall e :: e in s ==> g(ren(e)) == f(e)
    ensures multiset(Map(g, t)) == multiset(Map(f, s))
  {
    MapPermutation(g, t, Map(ren, s));
    assert Map(g, Map(ren, s)) == Map(f, s);
  }

  lemma SameMembers(x: Rows, y: Rows)
    requires multiset(x) == multiset(y)
    ensures forall r :: r in x <==> r in y
    ensures |x| == |y|
  {
    assert |multiset(x)| == |multiset(y)|;
    forall r
      ensures r in x <==> r in y
    {
      assert r in x <==> r in multiset(x);
      assert r in y <==> r in multiset(y);
    }
  }

  lemma EarliestForPermutes(x: Rows, y: Rows, party: Address)
    requires multiset(x) == multiset(y)
    ensures EarliestFor(x, party) == EarliestFor(y, party)
  {
    hide EarliestFor;
    SameMembers(x, y);
    EarliestForIsLeast(x, party, 0);
    EarliestForIsLeast(y, party, 0);
    if EarliestFor(x, party).Some? && EarliestFor(y, party).Some? {
      var p, q := EarliestFor(x, party).value, EarliestFor(y, party).value;
      EarliestForIsLeast(x, party, q);
      EarliestForIsLeast(y, party, q);
      EarliestForIsLeast(x, party, p);
      EarliestForIsLeast(y, party, p);
    }
  }

  lemma EarliestPermutes(x: Rows, y: Rows)
    requires multiset(x) == multiset(y)
    ensures Earliest(x) == Earliest(y)
  {
    hide Earliest;
    SameMembers(x, y);
    EarliestIsLeast(x, Earliest(y));
    EarliestIsLeast(y, Earliest(y));
    EarliestIsLeast(x, Earliest(x));
    EarliestIsLeast(y, Earliest(x));
  }

  /** Whether a leg is booked, and every quantity taken from it, depends on its rows as a multiset. */
  lemma BookedPermutes(x: Rows, y: Rows, used: set<LogKey>)
    requires multiset(x) == multiset(y)
    ensures Booked(x, used) <==> Booked(y, used)
    ensures Total(x) == Total(y) && Consumed(x) == Consumed(y)
    ensures forall p :: PartyTotal(x, p) == PartyTotal(y, p)
  {
    hide Booked, SumBy;
    SameMembers(x, y);
    BookedIff(x, used);
    BookedIff(y, used);
    SumByPermutation(x, y, AmountOf);
    forall k
      ensures Uses(x, k) == Uses(y, k)
    {
      SumByPermutation(x, y, KeyCount(k));
    }
    forall p
      ensures PartyTotal(x, p) == PartyTotal(y, p)
    {
      SumByPermutation(x, y, AmountFor(p));
    }
  }

  lemma FundRowsPermute(o: Oracle, a: ClosedLoopInput, b: ClosedLoopInput, to: seq<nat>, back: seq<nat>)
    requires Reordered(a, b, to, back)
    ensures multiset(FundRows(o, b)) == multiset(FundRows(o, a))
  {
    hide FundRow, RenumberFunding;
    var f, g := (e: FundingEvidence) => FundRow(o, a, e), (e: FundingEvidence) => FundRow(o, b, e);
    forall e | e in a.fundings
      ensures g(RenumberFunding(to)(e)) == f(e)
    {
      SameFundRow(o, a, b, to, back, e);
    }
    RowsPermute(f, g, RenumberFunding(to), a.fundings, b.fundings);
    assert FundRows(o, a) == Map(f, a.fundings) && FundRows(o, b) == Map(g, b.fundings);
  }

  lemma SameSettleRow(o: Oracle, a: ClosedLoopInput, b: ClosedLoopInput, to: seq<nat>, back: seq<nat>, r: LogRef)
    requires Reordered(a, b, to, back)
    ensures SettleRow(o, b, Renumber(to)(r)) == SettleRow(o, a, r)
  {
    hide ChainResolver.Key, ChainResolver.SettlementAt, ChainResolver.Timestamp, FundRows, EarliestFor;
    SameDecoding(o, a.blocks, b.blocks, to, back, r);
    FundRowsPermute(o, a, b, to, back);
    if Chain(o, a).SettlementAt(r).Ok? {
      EarliestForPermutes(FundRows(o, a), FundRows(o, b), Chain(o, a).SettlementAt(r).value.buyer);
    }
  }

  lemma SettleRowsPermute(o: Oracle, a: ClosedLoopInput, b: ClosedLoopInput, to: seq<nat>, back: seq<nat>)
    requires Reordered(a, b, to, back)
    ensures multiset(SettleRows(o, b)) == multiset(SettleRows(o, a))
  {
    hide SettleRow, Renumber;
    var f, g := (r: LogRef) => SettleRow(o, a, r), (r: LogRef) => SettleRow(o, b, r);
    forall r | r in a.settlements
      ensures g(Renumber(to)(r)) == f(r)
    {
      SameSettleRow(o, a, b, to, back, r);
    }
    RowsPermute(f, g, Renumber(to), a.settlements, b.settlements);
    assert SettleRows(o, a) == Map(f, a.settlements) && SettleRows(o, b) == Map(g, b.settlements);
  }

  lemma SamePathRow(o: Oracle, a: ClosedLoopInput, b: ClosedLoopInput, to: seq<nat>, back: seq<nat>, p: ReturnPath)
    requires Reordered(a, b, to, back)
    ensures PathRow(o, b, RenumberPath(to)(p)) == PathRow(o, a, p)
  {
    hide HopAt, SettleRows, PathRowOf;
    SettleRowsPermute(o, a, b, to, back);
    EarliestPermutes(SettleRows(o, a), SettleRows(o, b));
    var q := RenumberPath(to)(p);
    forall k | 0 <= k < |p.transfers|
      ensures HopsOf(o, b, q)[k] == HopsOf(o, a, p)[k]
    {
      SameHop(o, a, b, to, back, p.transfers[k]);
    }
    assert HopsOf(o, b, q) == HopsOf(o, a, p);
  }

  lemma PathRowsPermute(o: Oracle, a: ClosedLoopInput, b: ClosedLoopInput, to: seq<nat>, back: seq<nat>)
    requires Reordered(a, b, to, back)
    ensures multiset(PathRows(o, b)) == multiset(PathRows(o, a))
  {
    hide PathRow, RenumberPath;
    var f, g := (p: ReturnPath) => PathRow(o, a, p), (p: ReturnPath) => PathRow(o, b, p);
    forall p | p in a.returnPaths
      ensures g(RenumberPath(to)(p)) == f(p)
    {
      SamePathRow(o, a, b, to, back, p);
    }
    RowsPermute(f, g, RenumberPath(to), a.returnPaths, b.returnPaths);
    assert PathRows(o, a) == Map(f, a.returnPaths) && PathRows(o, b) == Map(g, b.returnPaths);
  }

  // ── Blocks ────────────────────────────────────────────────────────────

  lemma SameBlockMembers(x: seq<EvidenceBlock>, y: seq<EvidenceBlock>, to: seq<nat>, back: seq<nat>)
    requires Moved(x, y, to, back)
    ensures forall b :: b in x <==> b in y
    ensures DistinctNumbers(x) ==> DistinctNumbers(y)
  {
    forall j | 0 <= j < |y|
      ensures back[j] < |x| && y[j] == x[back[j]]
    {
      assert to[back[j]] == j;
    }
    if DistinctNumbers(x) {
      forall i, j | 0 <= i < j < |y|
        ensures y[i].header.number != y[j].header.number
      {
        assert back[i] != back[j];
        if back[i] < back[j] {} else {}
      }
    }
  }

  lemma Backwards(x: seq<EvidenceBlock>, y: seq<EvidenceBlock>, to: seq<nat>, back: seq<nat>)
    requires Moved(x, y, to, back)
    ensures Moved(y, x, back, to)
  {
    forall j | 0 <= j < |to|
      ensures x[back[j]] == y[j]
    {
      assert to[back[j]] == j;
    }
  }

  lemma AuthenticPermutes(o: Oracle, x: seq<EvidenceBlock>, y: seq<EvidenceBlock>, to: seq<nat>, back: seq<nat>,
                          s: nat, e: nat)
    requires Moved(x, y, to, back)
    ensures Authentic(o, x, s, e) <==> Authentic(o, y, s, e)
    ensures DistinctNumbers(x) ==> JournalRefs(x) == JournalRefs(y)
  {
    hide AuthenticBlock, JournalRefs, DistinctNumbers;
    Backwards(x, y, to, back);
    SameBlockMembers(x, y, to, back);
    SameBlockMembers(y, x, back, to);
    assert (forall b :: b in x ==> AuthenticBlock(o, b, s, e)) <==> (forall b :: b in y ==> AuthenticBlock(o, b, s, e));
    assert (forall b :: b in x ==> AuthenticBlock(o, b, s, e)) <==>
      (forall i :: 0 <= i < |x| ==> AuthenticBlock(o, x[i], s, e));
    assert (forall b :: b in y ==> AuthenticBlock(o, b, s, e)) <==>
      (forall i :: 0 <= i < |y| ==> AuthenticBlock(o, y[i], s, e));
    if DistinctNumbers(x) {
      JournalRefsMembers(x);
      JournalRefsMembers(y);
      StrictlySortedUnique(JournalRefs(x), JournalRefs(y));
    }
  }

  lemma JournalRefsMembers(x: seq<EvidenceBlock>)
    requires DistinctNumbers(x)
    ensures StrictlySorted(JournalRefs(x))
    ensures forall r :: r in JournalRefs(x) <==> exists b :: b in x && RefOf(b) == r
  {
    JournalRefsExact(x);
    hide JournalRefs;
    var refs, mapped := JournalRefs(x), Map(RefOf, x);
    forall r
      ensures r in refs <==> exists b :: b in x && RefOf(b) == r
    {
      assert r in refs <==> r in multiset(refs);
      assert r in mapped <==> r in multiset(mapped);
      if exists b :: b in x && RefOf(b) == r {
        var b :| b in x && RefOf(b) == r;
        var k :| 0 <= k < |x| && x[k] == b;
        assert mapped[k] == r;
      }
    }
  }

  // ── Acceptance ────────────────────────────────────────────────────────

  lemma LedgersPermute(o: Oracle, a: ClosedLoopInput, b: ClosedLoopInput, to: seq<nat>, back: seq<nat>)
    requires Reordered(a, b, to, back)
    ensures LedgersHold(o, a) <==> LedgersHold(o, b)
  {
    hide FundRows, SettleRows, LedgerCheck, PartyTotal;
    FundRowsPermute(o, a, b, to, back);
    SettleRowsPermute(o, a, b, to, back);
    BookedPermutes(FundRows(o, a), FundRows(o, b), {});
    BookedPermutes(SettleRows(o, a), SettleRows(o, b), {});
    if |a.ledgers| == |a.buyers| {
      forall k | 0 <= k < |a.buyers|
        ensures LedgerHolds(o, a, k) <==> LedgerHolds(o, b, k)
      {
        assert EndBalance(o, a, k) == EndBalance(o, b, k);
      }
    }
  }

  lemma EmptyPermutes<T, U>(f: T -> U, s: seq<T>, t: seq<U>)
    requires multiset(t) == multiset(Map(f, s))
    ensures |s| == |t|
  {
    assert |multiset(t)| == |multiset(Map(f, s))|;
  }

  /** Rearranging the evidence of a loop does not change whether it holds. */
  lemma LoopReordered(o: Oracle, a: ClosedLoopInput, b: ClosedLoopInput, to: seq<nat>, back: seq<nat>)
    requires Reordered(a, b, to, back)
    ensures LoopHolds(o, a) <==> LoopHolds(o, b)
  {
    hide FundRows, SettleRows, PathRows, LedgersHold, Authentic, Booked, Consumed, Total, EarliestFor, CL.WellFormed;
    var fa, fb, sa, sb, pa, pb :=
      FundRows(o, a), FundRows(o, b), SettleRows(o, a), SettleRows(o, b), PathRows(o, a), PathRows(o, b);
    FundRowsPermute(o, a, b, to, back);
    SettleRowsPermute(o, a, b, to, back);
    PathRowsPermute(o, a, b, to, back);
    BookedPermutes(fa, fb, {});
    BookedPermutes(sa, sb, Consumed(fa));
    BookedPermutes(pa, pb, Consumed(fa) + Consumed(sa));
    forall p
      ensures EarliestFor(fa, p) == EarliestFor(fb, p)
    {
      EarliestForPermutes(fa, fb, p);
    }
    SameWellFormed(a, b);
    LedgersPermute(o, a, b, to, back);
    AuthenticPermutes(o, a.blocks, b.blocks, to, back, a.periodStart, a.periodEnd);
    EmptyPermutes(Renumber(to), a.settlements, b.settlements);
    EmptyPermutes(RenumberPath(to), a.returnPaths, b.returnPaths);
  }

  lemma SameWellFormed(a: ClosedLoopInput, b: ClosedLoopInput)
    requires a.chainId == b.chainId && a.periodStart == b.periodStart && a.periodEnd == b.periodEnd
    requires a.seller == b.seller && a.funder == b.funder && a.buyers == b.buyers
    ensures CL.WellFormed(a) <==> CL.WellFormed(b)
  {
  }

  /** A map of distinct records does not depend on the order they were inserted in. */
  lemma RecordMapPermutes(x: seq<SettlementRecord>, y: seq<SettlementRecord>)
    requires multiset(x) == multiset(y)
    requires Distinct(RP.IdsOf(x)) && Distinct(RP.IdsOf(y))
    ensures MapOfRecords(x) == MapOfRecords(y)
  {
    hide RP.IdsOf, Distinct, MapOfRecords;
    forall r
      ensures r in x <==> r in y
    {
      assert r in x <==> r in multiset(x);
      assert r in y <==> r in multiset(y);
    }
    RecordMapWithin(x, y);
    RecordMapWithin(y, x);
  }

  lemma RecordMapWithin(x: seq<SettlementRecord>, y: seq<SettlementRecord>)
    requires Distinct(RP.IdsOf(x)) && Distinct(RP.IdsOf(y))
    requires forall r :: r in x ==> r in y
    ensures forall id :: id in MapOfRecords(x) ==> id in MapOfRecords(y) && MapOfRecords(y)[id] == MapOfRecords(x)[id]
  {
    RecordMapEntries(x);
    RecordMapEntries(y);
    hide RP.IdsOf, Distinct, MapOfRecords;
    forall id | id in MapOfRecords(x)
      ensures id in MapOfRecords(y) && MapOfRecords(y)[id] == MapOfRecords(x)[id]
    {
      var r :| r in x && r.id == id;
    }
  }

  lemma {:induction false} RecordMapEntries(records: seq<SettlementRecord>)
    requires Distinct(RP.IdsOf(records))
    ensures forall id :: id in MapOfRecords(records) <==> exists r :: r in records && r.id == id
    ensures forall r :: r in records ==> r.id in MapOfRecords(records) && MapOfRecords(records)[r.id] == r.amount
  {
    if records != [] {
      var init, last := records[..|records| - 1], records[|records| - 1];
      assert records == init + [last];
      assert RP.IdsOf(records) == RP.IdsOf(init) + [last.id];
      RecordMapEntries(init);
      forall r | r in init
        ensures r.id != last.id
      {
        var k :| 0 <= k < |init| && init[k] == r;
        assert RP.IdsOf(records)[k] == r.id;
      }
    }
  }

  // ── Pairs ─────────────────────────────────────────────────────────────

  function RenumberDeposit(to: seq<nat>): PairDepositEvidence -> PairDepositEvidence {
    (e: PairDepositEvidence) => PairDepositEvidence(e.member, Renumber(to)(e.transfer), Renumber(to)(e.deposited))
  }

  ghost predicate PairReordered(a: ReciprocalInput, b: ReciprocalInput, to: seq<nat>, back: seq<nat>) {
    && Moved(a.blocks, b.blocks, to, back)
    && a.chainId == b.chainId && a.periodStart == b.periodStart && a.periodEnd == b.periodEnd
    && a.sourceClaimId == b.sourceClaimId && a.addressA == b.addressA && a.addressB == b.addressB
    && multiset(b.settlements) == multiset(Map(Renumber(to), a.settlements))
    && multiset(b.internalDeposits) == multiset(Map(RenumberDeposit(to), a.internalDeposits))
    && b.ledgerA == RenumberLedger(to)(a.ledgerA) && b.ledgerB == RenumberLedger(to)(a.ledgerB)
  }

  lemma SaleRowsPermute(o: Oracle, a: ReciprocalInput, b: ReciprocalInput, to: seq<nat>, back: seq<nat>)
    requires PairReordered(a, b, to, back)
    ensures multiset(RP.SaleRows(o, b)) == multiset(RP.SaleRows(o, a))
  {
    hide RP.SaleRow, Renumber;
    var f, g := (r: LogRef) => RP.SaleRow(o, a, r), (r: LogRef) => RP.SaleRow(o, b, r);
    forall r | r in a.settlements
      ensures g(Renumber(to)(r)) == f(r)
    {
      SameSaleRow(o, a, b, to, back, r);
    }
    RowsPermute(f, g, Renumber(to), a.settlements, b.settlements);
    assert RP.SaleRows(o, a) == Map(f, a.settlements) && RP.SaleRows(o, b) == Map(g, b.settlements);
  }

  lemma SameSaleRow(o: Oracle, a: ReciprocalInput, b: ReciprocalInput, to: seq<nat>, back: seq<nat>, r: LogRef)
    requires PairReordered(a, b, to, back)
    ensures RP.SaleRow(o, b, Renumber(to)(r)) == RP.SaleRow(o, a, r)
  {
    hide ChainResolver.Key, ChainResolver.SettlementAt, Moved;
    SameDecoding(o, a.blocks, b.blocks, to, back, r);
  }

  lemma DepositRowsPermute(o: Oracle, a: ReciprocalInput, b: ReciprocalInput, to: seq<nat>, back: seq<nat>)
    requires PairReordered(a, b, to, back)
    ensures multiset(RP.DepositRows(o, b)) == multiset(RP.DepositRows(o, a))
  {
    hide RP.DepositRow, RenumberDeposit;
    var f, g := (e: PairDepositEvidence) => RP.DepositRow(o, a, e), (e: PairDepositEvidence) => RP.DepositRow(o, b, e);
    forall e | e in a.internalDeposits
      ensures g(RenumberDeposit(to)(e)) == f(e)
    {
      SameDepositRow(o, a, b, to, back, e);
    }
    RowsPermute(f, g, RenumberDeposit(to), a.internalDeposits, b.internalDeposits);
    assert RP.DepositRows(o, a) == Map(f, a.internalDeposits) && RP.DepositRows(o, b) == Map(g, b.internalDeposits);
  }

  lemma SameDepositRow(o: Oracle, a: ReciprocalInput, b: ReciprocalInput, to: seq<nat>, back: seq<nat>,
                       e: PairDepositEvidence)
    requires PairReordered(a, b, to, back)
    ensures RP.DepositRow(o, b, RenumberDeposit(to)(e)) == RP.DepositRow(o, a, e)
  {
    SameBlock(to, back, e.transfer.block, e.deposited.block);
    hide ChainResolver.Key, ChainResolver.UsdcTransfer, ChainResolver.ProtocolDeposit, ChainResolver.SignedBy, Moved;
    SameDecoding(o, a.blocks, b.blocks, to, back, e.transfer);
    SameDecoding(o, a.blocks, b.blocks, to, back, e.deposited);
  }

  /** Whether a leg is claimed depends on its rows as a multiset. */
  lemma ClaimedPermutes(x: Rows, y: Rows, used: set<LogKey>)
    requires multiset(x) == multiset(y)
    ensures Claimed(x, used) <==> Claimed(y, used)
  {
    hide Claimed, SumBy;
    SameMembers(x, y);
    ClaimedIff(x, used);
    ClaimedIff(y, used);
    forall k
      ensures Uses(x, k) == Uses(y, k)
    {
      SumByPermutation(x, y, KeyCount(k));
    }
  }

  lemma SameBalance(o: Oracle, a: ReciprocalInput, b: ReciprocalInput, to: seq<nat>, back: seq<nat>, l: BuyerLedger,
                    member: Address)
    requires PairReordered(a, b, to, back)
    ensures RP.Balance(o, b, RenumberLedger(to)(l), member) == RP.Balance(o, a, l, member)
  {
  }

  /** Rearranging the evidence of a pair does not change whether it holds, nor what either member sold. */
  lemma PairPermutes(o: Oracle, a: ReciprocalInput, b: ReciprocalInput, to: seq<nat>, back: seq<nat>)
    requires PairReordered(a, b, to, back)
    ensures RP.PairHolds(o, a) <==> RP.PairHolds(o, b)
    ensures RP.SellsA(o, a) == RP.SellsA(o, b) && RP.SellsB(o, a) == RP.SellsB(o, b)
  {
    hide RP.SaleRows, RP.DepositRows, Authentic, Booked, Claimed, Consumed, SumBy, RP.Balance, RP.SelfFinanced, Moved;
    var sa, sb, da, db := RP.SaleRows(o, a), RP.SaleRows(o, b), RP.DepositRows(o, a), RP.DepositRows(o, b);
    SaleRowsPermute(o, a, b, to, back);
    DepositRowsPermute(o, a, b, to, back);
    BookedPermutes(sa, sb, {});
    ClaimedPermutes(sa, sb, {});
    BookedPermutes(da, db, Consumed(sa));
    SameBalance(o, a, b, to, back, a.ledgerA, a.addressA);
    SameBalance(o, a, b, to, back, a.ledgerB, a.addressB);
    AuthenticPermutes(o, a.blocks, b.blocks, to, back, a.periodStart, a.periodEnd);
    EmptyPermutes(Renumber(to), a.settlements, b.settlements);
  }

  function OneRecord(party: Address): Option<Row> -> seq<SettlementRecord> {
    (r: Option<Row>) =>
      if r.Some? && r.value.party == party && r.value.keys != []
      then [SettlementRecord(SettlementId(r.value.keys[0]), r.value.amount)]
      else []
  }

  lemma {:induction false} RecordsAreConcat(rows: Rows, party: Address)
    ensures RP.RecordsFor(rows, party) == Concat(Map(OneRecord(party), rows))
  {
    if rows == [] {
      assert Map(OneRecord(party), rows) == [];
    } else {
      var init, last := rows[..|rows| - 1], rows[|rows| - 1];
      RecordsAreConcat(init, party);
      assert Map(OneRecord(party), rows) == Map(OneRecord(party), init) + [OneRecord(party)(last)];
      ConcatSnoc(Map(OneRecord(party), init), OneRecord(party)(last));
    }
  }

  lemma {:induction false} ConcatPermutes<T>(s: seq<seq<T>>, t: seq<seq<T>>)
    requires multiset(s) == multiset(t)
    ensures multiset(Concat(s)) == multiset(Concat(t))
    decreases |s|
  {
    if s == [] {
      assert |multiset(t)| == 0;
    } else {
      var init, x := s[..|s| - 1], s[|s| - 1];
      assert s == init + [x];
      var i := TakeOut(init, x, t);
      ConcatPermutes(init, t[..i] + t[i + 1..]);
      ConcatSnoc(init, x);
      ConcatSplit(t[..i], t[i + 1..]);
      ConcatSnoc(t[..i], x);
      ConcatSplit(t[..i] + [x], t[i + 1..]);
    }
  }

  lemma RecordsPermute(x: Rows, y: Rows, party: Address)
    requires multiset(x) == multiset(y)
    ensures multiset(RP.RecordsFor(x, party)) == multiset(RP.RecordsFor(y, party))
  {
    RecordsAreConcat(x, party);
    RecordsAreConcat(y, party);
    MapPermutation(OneRecord(party), x, y);
    ConcatPermutes(Map(OneRecord(party), x), Map(OneRecord(party), y));
  }

  // ── Seller proofs ─────────────────────────────────────────────────────

  /** The same claim with its evidence rearranged, for either predicate. */
  ghost predicate EvidenceReordered(x: SellerEvidence, y: SellerEvidence, to: seq<nat>, back: seq<nat>) {
    match (x, y)
    case (ClosedLoop(a), ClosedLoop(b)) => Reordered(a, b, to, back)
    case (Reciprocal(a), Reciprocal(b)) => PairReordered(a, b, to, back)
    case _ => false
  }

  /** Journals that agree apart from the order of their records and their claim identifiers, which hash the evidence in
      its order. */
  ghost predicate SameUpToOrder(j: WashJournal, k: WashJournal) {
    && j.(subjects := [], claimId := ZeroHash) == k.(subjects := [], claimId := ZeroHash)
    && |j.subjects| == |k.subjects|
    && forall a :: 0 <= a < |j.subjects| ==> SameSubject(j.subjects[a], k.subjects[a])
  }

  ghost predicate SameSubject(s: SubjectRecord, t: SubjectRecord) {
    s.subject == t.subject && s.washVolume == t.washVolume && MapOfRecords(s.settlements) == MapOfRecords(t.settlements)
  }

  /** Order independence: the rearranged claim is accepted when the original is, and commits the same journal and
      the same block references. */
  lemma SellerReordered(o: Oracle, x: SellerProofInput, y: SellerProofInput, to: seq<nat>, back: seq<nat>)
    requires EvidenceReordered(x.evidence, y.evidence, to, back)
    requires x.seller == y.seller && x.periodStart == y.periodStart && x.periodEnd == y.periodEnd
    requires x.totalVolume == y.totalVolume
    ensures SellerAccepts(o, x) <==> SellerAccepts(o, y)
    ensures forall v, w :: SellerAccepts(o, x) && Commits(o, x, v) && Commits(o, y, w) ==> v == w
  {
    hide ClaimJournal, EvidenceReordered, Counter, SameSubject, BoundaryInEvidence;
    ClaimsReordered(o, x.evidence, y.evidence, to, back);
    BlocksReordered(x.evidence, y.evidence, to, back);
    SameBoundary(x, y, to, back);
    SameCounter(o, x, y);
    if ClaimJournal(o, x.evidence).Some? {
      ClaimJournalProper(o, x.evidence);
      SameCommit(o, x, y);
    }
  }

  lemma SameCommit(o: Oracle, x: SellerProofInput, y: SellerProofInput)
    requires ClaimJournal(o, x.evidence).Some? && ClaimJournal(o, y.evidence).Some?
    requires SameUpToOrder(ClaimJournal(o, x.evidence).value, ClaimJournal(o, y.evidence).value)
    requires Proper(ClaimJournal(o, x.evidence).value)
    requires |EvidenceBlocks(x.evidence)| == |EvidenceBlocks(y.evidence)| && Counter(o, x) == Counter(o, y)
    requires x.seller == y.seller && x.periodStart == y.periodStart && x.periodEnd == y.periodEnd
    ensures ClaimMatches(ClaimJournal(o, x.evidence).value, x) <==> ClaimMatches(ClaimJournal(o, y.evidence).value, y)
    ensures forall v, w :: Commits(o, x, v) && Commits(o, y, w) ==> v == w
  {
    hide ClaimJournal, Counter, MapOfRecords, ProperSubject, StrictlySorted;
    var (j, k) := (ClaimJournal(o, x.evidence).value, ClaimJournal(o, y.evidence).value);
    forall a | 0 <= a < |j.subjects|
      ensures j.subjects[a].subject == k.subjects[a].subject
    {
      assert SameSubject(j.subjects[a], k.subjects[a]);
    }
  }

  lemma BlocksReordered(x: SellerEvidence, y: SellerEvidence, to: seq<nat>, back: seq<nat>)
    requires EvidenceReordered(x, y, to, back)
    ensures Moved(EvidenceBlocks(x), EvidenceBlocks(y), to, back)
  {
    hide Moved;
  }

  lemma ClaimsReordered(o: Oracle, x: SellerEvidence, y: SellerEvidence, to: seq<nat>, back: seq<nat>)
    requires EvidenceReordered(x, y, to, back)
    ensures ClaimJournal(o, x).Some? <==> ClaimJournal(o, y).Some?
    ensures ClaimJournal(o, x).Some? ==> SameUpToOrder(ClaimJournal(o, x).value, ClaimJournal(o, y).value)
  {
    hide LoopHolds, LoopJournal, RP.PairHolds, RP.PairJournal, Reordered, PairReordered, SameSubject;
    match (x, y) {
      case (ClosedLoop(a), ClosedLoop(b)) =>
        LoopReordered(o, a, b, to, back);
        if LoopHolds(o, a) {
          SameJournal(o, a, b, to, back);
        }
      case (Reciprocal(a), Reciprocal(b)) =>
        PairPermutes(o, a, b, to, back);
        if RP.PairHolds(o, a) {
          SamePairJournal(o, a, b, to, back);
        }
    }
  }

  lemma SameBoundary(x: SellerProofInput, y: SellerProofInput, to: seq<nat>, back: seq<nat>)
    requires x.totalVolume == y.totalVolume
    requires Moved(EvidenceBlocks(x.evidence), EvidenceBlocks(y.evidence), to, back)
    ensures BoundaryInEvidence(x) <==> BoundaryInEvidence(y)
  {
    hide Moved;
    var a, b := EvidenceBlocks(x.evidence), EvidenceBlocks(y.evidence);
    SameBlockMembers(a, b, to, back);
    if BoundaryInEvidence(x) {
      var k :| 0 <= k < |a| && a[k].header == x.totalVolume.header;
      assert a[k] in a && a[k] in b;
      var m :| 0 <= m < |b| && b[m] == a[k];
      assert EvidenceBlocks(y.evidence)[m].header == y.totalVolume.header;
    }
    if BoundaryInEvidence(y) {
      var k :| 0 <= k < |b| && b[k].header == x.totalVolume.header;
      assert b[k] in b && b[k] in a;
      var m :| 0 <= m < |a| && a[m] == b[k];
      assert EvidenceBlocks(x.evidence)[m].header == x.totalVolume.header;
    }
  }

  /** The two claim journals agree up to the order of the settlement records. */
  lemma SameJournal(o: Oracle, a: ClosedLoopInput, b: ClosedLoopInput, to: seq<nat>, back: seq<nat>)
    requires Reordered(a, b, to, back) && LoopHolds(o, a) && LoopHolds(o, b)
    ensures SameUpToOrder(LoopJournal(o, a), LoopJournal(o, b))
  {
    hide FundRows, SettleRows, PathRows, LedgersHold, Booked, RecordOf, MapOfRecords, JournalRefs;
    var sa, sb := SettleRows(o, a), SettleRows(o, b);
    SettleRowsPermute(o, a, b, to, back);
    SumByPermutation(sa, sb, AmountOf);
    MapPermutation(RecordOf, sa, sb);
    LoopJournalProper(o, a);
    LoopJournalProper(o, b);
    assert ProperSubject(LoopJournal(o, a).subjects[0]) && ProperSubject(LoopJournal(o, b).subjects[0]);
    RecordMapPermutes(Map(RecordOf, sa), Map(RecordOf, sb));
    AuthenticPermutes(o, a.blocks, b.blocks, to, back, a.periodStart, a.periodEnd);
  }

  lemma SamePairJournal(o: Oracle, a: ReciprocalInput, b: ReciprocalInput, to: seq<nat>, back: seq<nat>)
    requires PairReordered(a, b, to, back) && RP.PairHolds(o, a) && RP.PairHolds(o, b)
    ensures SameUpToOrder(RP.PairJournal(o, a), RP.PairJournal(o, b))
  {
    hide RP.SaleRows, RP.DepositRows, Booked, RP.RecordsFor, MapOfRecords, JournalRefs, RP.SelfFinanced, RP.Balance,
      Claimed, Moved;
    var sa, sb := RP.SaleRows(o, a), RP.SaleRows(o, b);
    SaleRowsPermute(o, a, b, to, back);
    PairPermutes(o, a, b, to, back);
    RecordsPermute(sa, sb, a.addressA);
    RecordsPermute(sa, sb, a.addressB);
    RP.MembersAreDisjoint(o, a);
    RP.MembersAreDisjoint(o, b);
    RecordMapPermutes(RP.RecordsFor(sa, a.addressA), RP.RecordsFor(sb, a.addressA));
    RecordMapPermutes(RP.RecordsFor(sa, a.addressB), RP.RecordsFor(sb, a.addressB));
    AuthenticPermutes(o, a.blocks, b.blocks, to, back, a.periodStart, a.periodEnd);
  }
}
