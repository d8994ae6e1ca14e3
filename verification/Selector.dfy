/** The evidence selector: per buyer, the largest fundings are taken until the least funding that meets the ledger
    inequality is reached; then an aggregate top-up, which is proved never to add anything. */
module Selector {
  import opened Prelude
  import opened Hashing
  import opened Evidence
  import Ledgers
  import CL = ClosedLoop

  /** One funding candidate; `tx` stands for the transaction hash and its order. */
  datatype Entry = Entry(tx: nat, amount: nat)

  datatype Selected = Selected(buyer: Address, entry: Entry)

  // ── Targets ───────────────────────────────────────────────────────────

  function RequiredFunding(settled: nat, balanceEnd: nat): nat {
    CeilDiv((balanceEnd + settled) * BPS, BPS + EPSILON_LEDGER_BPS)
  }

  /** The required funding is the least one that meets the verifier's ledger inequality. */
  lemma RequiredFundingIsLeast(settled: nat, balanceEnd: nat, funded: nat)
    ensures RequiredFunding(settled, balanceEnd) <= funded <==> Ledgers.ExactLedger(balanceEnd, settled, funded)
  {
    CeilDivIsLeast((balanceEnd + settled) * BPS, BPS + EPSILON_LEDGER_BPS, funded);
  }

  // ── Candidates, largest first ─────────────────────────────────────────

  function AmountOf(e: Entry): nat {
    e.amount
  }

  function Funding(s: seq<Entry>): nat {
    SumBy(s, AmountOf)
  }

  /** The sort key `(-amount, tx)`. */
  predicate Precedes(a: Entry, b: Entry) {
    a.amount > b.amount || (a.amount == b.amount && a.tx <= b.tx)
  }

  /** `sorted(..., key=(-amount, tx))`. */
  function LargestFirst(candidates: seq<Entry>): seq<Entry> {
    SortBy(Precedes, candidates)
  }

  lemma LargestFirstSorts(candidates: seq<Entry>)
    ensures SortedBy(Precedes, LargestFirst(candidates))
    ensures multiset(LargestFirst(candidates)) == multiset(candidates)
    ensures |LargestFirst(candidates)| == |candidates|
  {
    SortBySorts(Precedes, candidates);
  }

  // ── The greedy choice ─────────────────────────────────────────────────

  /** How many of the sorted candidates are taken before the target is reached (or all of them). */
  function Taken(sorted: seq<Entry>, target: nat, from: nat): (n: nat)
    requires from <= |sorted|
    ensures from <= n <= |sorted|
    decreases |sorted| - from
  {
    if from < |sorted| && Funding(sorted[..from]) < target then Taken(sorted, target, from + 1) else from
  }

  lemma {:induction false} TakenStops(sorted: seq<Entry>, target: nat, from: nat)
    requires from <= |sorted|
    requires from > 0 ==> Funding(sorted[..from - 1]) < target
    ensures var n := Taken(sorted, target, from);
      && (Funding(sorted[..n]) >= target || n == |sorted|)
      && (n > 0 ==> Funding(sorted[..n - 1]) < target)
    decreases |sorted| - from
  {
    if from < |sorted| && Funding(sorted[..from]) < target {
      TakenStops(sorted, target, from + 1);
    }
  }

  lemma TakenNext(sorted: seq<Entry>, target: nat, count: nat)
    requires count <= |sorted|
    ensures Taken(sorted, target, count) ==
      if count < |sorted| && Funding(sorted[..count]) < target then Taken(sorted, target, count + 1) else count
  {
  }

  function Choice(candidates: seq<Entry>, target: nat): seq<Entry> {
    var sorted := LargestFirst(candidates);
    sorted[..Taken(sorted, target, 0)]
  }

  /** Any `k` of the candidates, in whatever order, carry at most what the `k` largest carry. */
  lemma {:induction false} PrefixIsLargest(sorted: seq<Entry>, subset: seq<Entry>)
    requires SortedBy(Precedes, sorted) && multiset(subset) <= multiset(sorted)
    ensures |subset| <= |sorted|
    ensures Funding(subset) <= Funding(sorted[..|subset|])
    decreases |sorted|
  {
    hide SumBy, SortedBy;
    NoMore(subset, sorted);
    if sorted != [] {
      var init, last := sorted[..|sorted| - 1], sorted[|sorted| - 1];
      assert sorted == init + [last];
      InitSortedBy(sorted);
      if last in multiset(subset) {
        var i :| 0 <= i < |subset| && subset[i] == last;
        TakenOut(init, last, subset, i);
        PrefixIsLargest(init, subset[..i] + subset[i + 1..]);
        PutBack(sorted, subset, i);
      } else {
        NotTaken(init, last, subset);
        PrefixIsLargest(init, subset);
        assert init[..|subset|] == sorted[..|subset|];
      }
    }
  }

  lemma InitSortedBy(sorted: seq<Entry>)
    requires SortedBy(Precedes, sorted) && sorted != []
    ensures SortedBy(Precedes, sorted[..|sorted| - 1])
  {
  }

  lemma NotTaken(init: seq<Entry>, last: Entry, subset: seq<Entry>)
    requires multiset(subset) <= multiset(init + [last]) && last !in multiset(subset)
    ensures multiset(subset) <= multiset(init)
  {
    assert multiset(init + [last]) == multiset(init) + multiset{last};
  }

  /** The smallest candidate is at most the candidate that follows the others. */
  lemma PutBack(sorted: seq<Entry>, subset: seq<Entry>, i: nat)
    requires SortedBy(Precedes, sorted) && sorted != [] && i < |subset| <= |sorted| && subset[i] == sorted[|sorted| - 1]
    requires Funding(subset[..i] + subset[i + 1..]) <= Funding(sorted[..|sorted| - 1][..|subset| - 1])
    ensures Funding(subset) <= Funding(sorted[..|subset|])
  {
    hide SumBy;
    var n := |subset| - 1;
    WithoutOne(subset, i);
    FundingSnoc(sorted, n);
    assert n < |sorted| - 1 ==> Precedes(sorted[n], sorted[|sorted| - 1]);
    assert sorted[..|sorted| - 1][..n] == sorted[..n];
  }

  /** Nothing can be taken from nothing. */
  lemma NoMore(subset: seq<Entry>, candidates: seq<Entry>)
    requires multiset(subset) <= multiset(candidates)
    ensures |subset| <= |candidates|
  {
    assert multiset(candidates) == multiset(subset) + (multiset(candidates) - multiset(subset));
    assert |multiset(candidates)| == |multiset(subset)| + |multiset(candidates) - multiset(subset)|;
  }

  lemma TakenOut(init: seq<Entry>, last: Entry, subset: seq<Entry>, i: nat)
    requires i < |subset| && subset[i] == last && multiset(subset) <= multiset(init + [last])
    ensures multiset(subset[..i] + subset[i + 1..]) <= multiset(init)
  {
    assert subset == subset[..i] + [last] + subset[i + 1..];
    var rest := multiset(subset[..i] + subset[i + 1..]);
    assert multiset(subset) == rest + multiset{last};
    assert multiset(init + [last]) == multiset(init) + multiset{last};
    forall x
      ensures rest[x] <= multiset(init)[x]
    {
      assert multiset(subset)[x] <= multiset(init + [last])[x];
    }
  }

  lemma NoFunding(s: seq<Entry>)
    requires s == []
    ensures Funding(s) == 0
  {
  }

  lemma FundingSnoc(s: seq<Entry>, k: nat)
    requires k < |s|
    ensures Funding(s[..k + 1]) == Funding(s[..k]) + s[k].amount
    ensures s[..k + 1] == s[..k] + [s[k]]
  {
    assert s[..k + 1][..k] == s[..k];
  }

  lemma WithoutOne(s: seq<Entry>, i: nat)
    requires i < |s|
    ensures Funding(s) == Funding(s[..i] + s[i + 1..]) + s[i].amount
  {
    assert s == s[..i] + [s[i]] + s[i + 1..];
    SumByConcat(s[..i] + [s[i]], s[i + 1..], AmountOf);
    SumByConcat(s[..i], [s[i]], AmountOf);
    SumByConcat(s[..i], s[i + 1..], AmountOf);
    assert SumBy([s[i]], AmountOf) == SumBy<Entry>([], AmountOf) + s[i].amount;
  }

  /** A collection of candidates that carries at least `bound`. */
  ghost predicate Reaches(subset: seq<Entry>, candidates: seq<Entry>, bound: nat) {
    multiset(subset) <= multiset(candidates) && Funding(subset) >= bound
  }

  /** The choice is a sub-collection of the candidates; it reaches the target whenever the candidates can, and then
      nothing with fewer entries does. */
  lemma ChoiceIsOptimal(candidates: seq<Entry>, target: nat)
    ensures multiset(Choice(candidates, target)) <= multiset(candidates)
    ensures Funding(Choice(candidates, target)) >= target <==> Funding(candidates) >= target
    ensures forall subset: seq<Entry> :: Reaches(subset, candidates, target) ==>
      |Choice(candidates, target)| <= |subset|
  {
    hide SumBy, LargestFirst, SortedBy;
    var sorted := LargestFirst(candidates);
    LargestFirstSorts(candidates);
    TakenStops(sorted, target, 0);
    var n := Taken(sorted, target, 0);
    PartOf(sorted, n);
    SumByPermutation(sorted, candidates, AmountOf);
    forall subset: seq<Entry> | Reaches(subset, candidates, target)
      ensures n <= |subset|
    {
      FewerFallShort(sorted, n, target, subset);
    }
  }

  lemma PartOf(sorted: seq<Entry>, n: nat)
    requires n <= |sorted|
    ensures multiset(sorted[..n]) <= multiset(sorted) && Funding(sorted[..n]) <= Funding(sorted)
    ensures n == |sorted| ==> sorted[..n] == sorted
  {
    assert sorted == sorted[..n] + sorted[n..];
    SumByPrefix(sorted, AmountOf, n);
  }

  /** A part that reaches the target has at least as many entries as the greedy prefix. */
  lemma FewerFallShort(sorted: seq<Entry>, n: nat, target: nat, subset: seq<Entry>)
    requires SortedBy(Precedes, sorted) && n <= |sorted| && (n > 0 ==> Funding(sorted[..n - 1]) < target)
    requires multiset(subset) <= multiset(sorted) && Funding(subset) >= target
    ensures n <= |subset|
  {
    hide SumBy, SortedBy;
    PrefixIsLargest(sorted, subset);
    if |subset| < n {
      assert sorted[..n - 1][..|subset|] == sorted[..|subset|];
      SumByPrefix(sorted[..n - 1], AmountOf, |subset|);
    }
  }

  // ── The whole selection ───────────────────────────────────────────────

  datatype Case = Case(
    settlements: map<Address, seq<nat>>,
    fundings: map<Address, seq<Entry>>,
    endBalances: map<Address, nat>)

  predicate Known(c: Case, buyers: seq<Address>) {
    forall b :: b in buyers ==> b in c.settlements && b in c.fundings && b in c.endBalances
  }

  /** Buyers both funded and settled, without the funder, in order. */
  function Cohort(c: Case, funder: Address): seq<Address> {
    Sorted(c.fundings.Keys * c.settlements.Keys - {funder})
  }

  /** The cohort has the shape the verifier asks for, and holds exactly the buyers with evidence on both sides. */
  lemma CohortFits(c: Case, funder: Address)
    ensures Ascending(Cohort(c, funder)) && funder !in Cohort(c, funder)
    ensures forall b :: b in Cohort(c, funder) <==> b in c.fundings && b in c.settlements && b != funder
  {
    assert Increasing(Cohort(c, funder));
  }

  function Settled(c: Case, b: Address): nat {
    if b in c.settlements then SumBy(c.settlements[b], Same) else 0
  }

  function EndBalance(c: Case, b: Address): nat {
    if b in c.endBalances then c.endBalances[b] else 0
  }

  function Target(c: Case, b: Address): nat {
    RequiredFunding(Settled(c, b), EndBalance(c, b))
  }

  function Candidates(c: Case, b: Address): seq<Entry> {
    if b in c.fundings then c.fundings[b] else []
  }

  function Tag(b: Address): Entry -> Selected {
    (e: Entry) => Selected(b, e)
  }

  function PickFor(c: Case, b: Address): seq<Selected> {
    Map(Tag(b), Choice(Candidates(c, b), Target(c, b)))
  }

  function Picks(c: Case, buyers: seq<Address>): seq<Selected> {
    if buyers == [] then [] else Picks(c, buyers[..|buyers| - 1]) + PickFor(c, buyers[|buyers| - 1])
  }

  /** A buyer can be covered: it has candidates, and they add up to its target. */
  ghost predicate Coverable(c: Case, b: Address) {
    Candidates(c, b) != [] && Funding(Candidates(c, b)) >= Target(c, b)
  }

  function EntryAmount(s: Selected): nat {
    s.entry.amount
  }

  function SettledIn(c: Case): Address -> nat {
    (b: Address) => Settled(c, b)
  }

  function AggregateTarget(c: Case, buyers: seq<Address>): nat {
    CeilDiv(SumBy(buyers, SettledIn(c)) * ALPHA_FUND_BPS, BPS)
  }

  lemma {:induction false} TaggedAmount(b: Address, s: seq<Entry>)
    ensures SumBy(Map(Tag(b), s), EntryAmount) == Funding(s)
  {
    if s != [] {
      TaggedAmount(b, s[..|s| - 1]);
      assert Map(Tag(b), s)[..|s| - 1] == Map(Tag(b), s[..|s| - 1]);
    }
  }

  lemma NoPicks(c: Case, buyers: seq<Address>)
    requires buyers == []
    ensures Picks(c, buyers) == [] && SumBy(Picks(c, buyers), EntryAmount) == 0
  {
  }

  lemma PickIsChoice(c: Case, b: Address)
    ensures PickFor(c, b) == Map(Tag(b), Choice(Candidates(c, b), Target(c, b)))
  {
  }

  /** Reaching every ledger target already reaches the aggregate coverage. */
  lemma {:induction false} PicksCover(c: Case, buyers: seq<Address>)
    requires forall b :: b in buyers ==> Coverable(c, b)
    ensures SumBy(Picks(c, buyers), EntryAmount) * (BPS + EPSILON_LEDGER_BPS) >= SumBy(buyers, SettledIn(c)) * BPS
  {
    hide Choice, RequiredFunding, Settled, PickFor;
    if buyers == [] {
      NoPicks(c, buyers);
    } else {
      var init, last := buyers[..|buyers| - 1], buyers[|buyers| - 1];
      PicksCover(c, init);
      SumByConcat(Picks(c, init), PickFor(c, last), EntryAmount);
      TaggedAmount(last, Choice(Candidates(c, last), Target(c, last)));
      ChoiceIsOptimal(Candidates(c, last), Target(c, last));
      PickIsChoice(c, last);
      var funded := SumBy(PickFor(c, last), EntryAmount);
      var balance := EndBalance(c, last);
      RequiredFundingIsLeast(Settled(c, last), balance, funded);
      assert Coverable(c, last);
      assert Ledgers.ExactLedger(balance, Settled(c, last), funded);
      assert SumBy(buyers, SettledIn(c)) == SumBy(init, SettledIn(c)) + Settled(c, last);
      assert SumBy(Picks(c, buyers), EntryAmount) == SumBy(Picks(c, init), EntryAmount) + funded;
    }
  }

  /** So the top-up loop has nothing to do. */
  lemma AggregateIsReached(c: Case, buyers: seq<Address>)
    requires forall b :: b in buyers ==> Coverable(c, b)
    ensures SumBy(Picks(c, buyers), EntryAmount) >= AggregateTarget(c, buyers)
  {
    PicksCover(c, buyers);
    CeilDivIsLeast(SumBy(buyers, SettledIn(c)) * ALPHA_FUND_BPS, BPS, SumBy(Picks(c, buyers), EntryAmount));
  }

  // ── The selection, spelled out ────────────────────────────────────────

  /** The largest first, equal amounts by hash. */
  ghost predicate Ranked(s: seq<Entry>) {
    forall i, j :: 0 <= i < j < |s| ==>
      s[i].amount > s[j].amount || (s[i].amount == s[j].amount && s[i].tx <= s[j].tx)
  }

  /** Of the ranked candidates `chosen + rest`, `chosen` is the shortest start worth `needed` at 105%. */
  ghost predicate Chosen(chosen: seq<Entry>, rest: seq<Entry>, candidates: seq<Entry>, needed: nat) {
    && multiset(chosen) + multiset(rest) == multiset(candidates) && Ranked(chosen + rest)
    && Funding(chosen) * 10_500 >= needed * 10_000
    && (chosen != [] ==> Funding(chosen[..|chosen| - 1]) * 10_500 < needed * 10_000)
  }

  ghost predicate IsChoice(chosen: seq<Entry>, candidates: seq<Entry>, needed: nat) {
    exists rest: seq<Entry> :: Chosen(chosen, rest, candidates, needed)
  }

  /** There is one way to rank candidates. */
  lemma {:induction false} RankedUnique(a: seq<Entry>, b: seq<Entry>)
    requires multiset(a) == multiset(b) && Ranked(a) && Ranked(b)
    ensures a == b
    decreases |a|
  {
    hide Ranked;
    if a == [] {
      assert multiset(b) == multiset{};
    } else {
      assert a[0] in multiset(b);
      SameFirst(a, b);
      RankedTail(a);
      RankedTail(b);
      HeadAndTail(a);
      HeadAndTail(b);
      assert multiset(a[1..]) == multiset(a) - multiset{a[0]} && multiset(b[1..]) == multiset(b) - multiset{b[0]};
      RankedUnique(a[1..], b[1..]);
    }
  }

  lemma RankedTail(s: seq<Entry>)
    requires Ranked(s) && s != []
    ensures Ranked(s[1..])
  {
  }

  lemma SameFirst(a: seq<Entry>, b: seq<Entry>)
    requires multiset(a) == multiset(b) && Ranked(a) && Ranked(b) && a != [] && b != []
    ensures a[0] == b[0]
  {
    assert a[0] in multiset(b) && b[0] in multiset(a);
    var i :| 0 <= i < |a| && a[i] == b[0];
    var j :| 0 <= j < |b| && b[j] == a[0];
  }

  /** The target in terms of the amounts. */
  lemma TargetIs(settled: nat, balance: nat, funded: nat)
    ensures funded >= RequiredFunding(settled, balance) <==> funded * 10_500 >= (balance + settled) * 10_000
  {
    RequiredFundingIsLeast(settled, balance, funded);
  }

  lemma ShortestStart(sorted: seq<Entry>, target: nat, m: nat)
    requires m <= |sorted| && Funding(sorted[..m]) >= target && (m > 0 ==> Funding(sorted[..m - 1]) < target)
    ensures Taken(sorted, target, 0) == m
  {
    hide SumBy;
    TakenStops(sorted, target, 0);
    var n := Taken(sorted, target, 0);
    hide Taken;
    if n < m {
      assert sorted[..m - 1][..n] == sorted[..n];
      SumByPrefix(sorted[..m - 1], AmountOf, n);
    } else if m < n {
      assert sorted[..n - 1][..m] == sorted[..m];
      SumByPrefix(sorted[..n - 1], AmountOf, m);
    }
  }

  /** The greedy choice is the only one of this kind, and there is one exactly when the candidates are worth enough. */
  lemma ChoiceIff(candidates: seq<Entry>, settled: nat, balance: nat, chosen: seq<Entry>)
    ensures IsChoice(chosen, candidates, balance + settled) <==>
      && Funding(candidates) * 10_500 >= (balance + settled) * 10_000
      && chosen == Choice(candidates, RequiredFunding(settled, balance))
  {
    hide SumBy, LargestFirst, Taken, RequiredFunding, Ranked, Chosen;
    var target, sorted, needed := RequiredFunding(settled, balance), LargestFirst(candidates), balance + settled;
    LargestFirstSorts(candidates);
    SortedIsRanked(sorted);
    TargetIs(settled, balance, Funding(candidates));
    if rest: seq<Entry> :| Chosen(chosen, rest, candidates, needed) {
      ChosenIsTaken(sorted, chosen, rest, candidates, settled, balance);
      ChoiceIsOptimal(candidates, target);
    }
    if chosen == Choice(candidates, target) && Funding(candidates) >= target {
      ChoiceIsOptimal(candidates, target);
      TakenIsChosen(sorted, chosen, candidates, settled, balance);
      assert Chosen(chosen, sorted[|chosen|..], candidates, needed);
    }
  }

  lemma ChosenIsTaken(sorted: seq<Entry>, chosen: seq<Entry>, rest: seq<Entry>, candidates: seq<Entry>, settled: nat,
                      balance: nat)
    requires Chosen(chosen, rest, candidates, balance + settled)
    requires Ranked(sorted) && multiset(sorted) == multiset(candidates)
    ensures var target := RequiredFunding(settled, balance);
      chosen == sorted[..Taken(sorted, target, 0)] && Funding(chosen) >= target
  {
    hide SumBy, RequiredFunding, Ranked, Taken;
    var target := RequiredFunding(settled, balance);
    assert multiset(chosen + rest) == multiset(candidates);
    RankedUnique(chosen + rest, sorted);
    assert sorted[..|chosen|] == chosen;
    TargetIs(settled, balance, Funding(chosen));
    if chosen != [] {
      assert sorted[..|chosen| - 1] == chosen[..|chosen| - 1];
      TargetIs(settled, balance, Funding(chosen[..|chosen| - 1]));
    }
    ShortestStart(sorted, target, |chosen|);
  }

  lemma TakenIsChosen(sorted: seq<Entry>, chosen: seq<Entry>, candidates: seq<Entry>, settled: nat, balance: nat)
    requires Ranked(sorted) && multiset(sorted) == multiset(candidates)
    requires chosen == sorted[..Taken(sorted, RequiredFunding(settled, balance), 0)]
    requires Funding(chosen) >= RequiredFunding(settled, balance)
    ensures Chosen(chosen, sorted[|chosen|..], candidates, balance + settled)
  {
    hide SumBy, RequiredFunding, Ranked;
    var target, n := RequiredFunding(settled, balance), |chosen|;
    TakenStops(sorted, target, 0);
    hide Taken;
    SplitAt(sorted, n);
    assert sorted == chosen + sorted[n..];
    TargetIs(settled, balance, Funding(chosen));
    if n > 0 {
      assert sorted[..n - 1] == chosen[..n - 1];
      TargetIs(settled, balance, Funding(chosen[..n - 1]));
    }
  }

  lemma SortedIsRanked(s: seq<Entry>)
    requires SortedBy(Precedes, s)
    ensures Ranked(s)
  {
  }

  function EntryOf(s: Selected): Entry {
    s.entry
  }

  /** What is selected for buyer `b`. */
  ghost predicate PartFor(c: Case, b: Address, part: seq<Selected>) {
    && b in c.settlements && b in c.fundings && b in c.endBalances
    && (forall j :: 0 <= j < |part| ==> part[j].buyer == b)
    && IsChoice(Map(EntryOf, part), c.fundings[b], c.endBalances[b] + SumBy(c.settlements[b], Same))
  }

  ghost predicate InParts(c: Case, buyers: seq<Address>, parts: seq<seq<Selected>>) {
    |parts| == |buyers| && forall k :: 0 <= k < |buyers| ==> PartFor(c, buyers[k], parts[k])
  }

  /** One part for each buyer, in the order of the buyers. */
  ghost predicate SelectsInParts(c: Case, buyers: seq<Address>, picks: seq<Selected>) {
    exists parts: seq<seq<Selected>> :: InParts(c, buyers, parts) && picks == Concat(parts)
  }

  /** A buyer's candidates are worth what it settled and still holds, at 105%. */
  ghost predicate Worthy(c: Case, b: Address) {
    && b in c.settlements && b in c.fundings && b in c.endBalances && c.fundings[b] != []
    && Funding(c.fundings[b]) * 10_500 >= (c.endBalances[b] + SumBy(c.settlements[b], Same)) * 10_000
  }

  lemma WorthyIff(c: Case, b: Address)
    requires b in c.settlements && b in c.fundings && b in c.endBalances
    ensures Worthy(c, b) <==> Coverable(c, b)
  {
    hide SumBy, RequiredFunding;
    TargetIs(Settled(c, b), EndBalance(c, b), Funding(Candidates(c, b)));
  }

  lemma PickIsPart(c: Case, b: Address)
    requires b in c.settlements && b in c.fundings && b in c.endBalances && Coverable(c, b)
    ensures PartFor(c, b, PickFor(c, b))
  {
    hide SumBy, RequiredFunding, IsChoice, Choice;
    var choice := Choice(c.fundings[b], Target(c, b));
    TargetIs(Settled(c, b), EndBalance(c, b), Funding(Candidates(c, b)));
    ChoiceIff(c.fundings[b], Settled(c, b), EndBalance(c, b), choice);
    assert Map(EntryOf, PickFor(c, b)) == choice;
  }

  lemma {:induction false} PicksInParts(c: Case, buyers: seq<Address>) returns (parts: seq<seq<Selected>>)
    requires Known(c, buyers) && forall b :: b in buyers ==> Coverable(c, b)
    ensures InParts(c, buyers, parts) && Picks(c, buyers) == Concat(parts)
  {
    hide PartFor, PickFor, Coverable;
    if buyers == [] {
      parts := [];
    } else {
      var init, last := buyers[..|buyers| - 1], buyers[|buyers| - 1];
      var before := PicksInParts(c, init);
      PickIsPart(c, last);
      ConcatSnoc(before, PickFor(c, last));
      parts := before + [PickFor(c, last)];
    }
  }

  /** `select_case_fundings`: it succeeds exactly when every buyer can be covered, and selects the optimal choice of
      each buyer in turn, the aggregate top-up adding nothing. */
  method SelectCaseFundings(c: Case, buyers: seq<Address>) returns (r: Result<seq<Selected>>)
    requires Known(c, buyers)
    ensures r.Ok? <==> forall b :: b in buyers ==> Worthy(c, b)
    ensures r.Ok? ==> SelectsInParts(c, buyers, r.value)
    ensures r.Ok? ==> r.value == Picks(c, buyers) && forall b :: b in buyers ==> Coverable(c, b)
  {
    hide Choice, SumBy, RequiredFunding, CeilDiv, Worthy, InParts, Coverable;
    forall b | b in buyers
      ensures Worthy(c, b) <==> Coverable(c, b)
    {
      WorthyIff(c, b);
    }
    var selected: seq<Selected> := [];
    var remaining: seq<Selected> := [];
    var fundedTotal := 0;
    NoPicks(c, buyers[..0]);
    for i := 0 to |buyers|
      invariant selected == Picks(c, buyers[..i])
      invariant fundedTotal == SumBy(selected, EntryAmount)
      invariant forall k :: 0 <= k < i ==> Coverable(c, buyers[k])
    {
      var buyer := buyers[i];
      assert buyers[..i + 1][..i] == buyers[..i];
      var chosen :- SelectFor(c, buyer);
      var (picked, left) := chosen;
      SumByConcat(selected, PickFor(c, buyer), EntryAmount);
      TaggedAmount(buyer, picked);
      selected := selected + Map(Tag(buyer), picked);
      fundedTotal := fundedTotal + Funding(picked);
      remaining := remaining + Map(Tag(buyer), left);
    }
    assert buyers[..|buyers|] == buyers;
    var aggregateTarget := CeilDiv(SumBy(buyers, SettledIn(c)) * ALPHA_FUND_BPS, BPS);
    AggregateIsReached(c, buyers);
    var taken := TopUp(SortBy(EntryPrecedes, remaining), fundedTotal, aggregateTarget);
    selected := selected + SortBy(EntryPrecedes, remaining)[..taken];
    fundedTotal := fundedTotal + SumBy(SortBy(EntryPrecedes, remaining)[..taken], EntryAmount);
    if fundedTotal < aggregateTarget {
      return Err("case needs more aggregate coverage");
    }
    ghost var parts := PicksInParts(c, buyers);
    return Ok(selected);
  }

  /** The sort key of `remaining`. */
  predicate EntryPrecedes(a: Selected, b: Selected) {
    Precedes(a.entry, b.entry)
  }

  /** The top-up loop: how many further entries are taken before the aggregate target is reached. */
  method TopUp(remaining: seq<Selected>, fundedTotal: nat, target: nat) returns (taken: nat)
    ensures taken <= |remaining|
    ensures taken == |remaining| || fundedTotal + SumBy(remaining[..taken], EntryAmount) >= target
    ensures taken > 0 ==> fundedTotal + SumBy(remaining[..taken - 1], EntryAmount) < target
  {
    taken := 0;
    var total := fundedTotal;
    while taken < |remaining| && total < target
      invariant taken <= |remaining| && total == fundedTotal + SumBy(remaining[..taken], EntryAmount)
      invariant taken > 0 ==> fundedTotal + SumBy(remaining[..taken - 1], EntryAmount) < target
    {
      assert remaining[..taken + 1][..taken] == remaining[..taken];
      total := total + remaining[taken].entry.amount;
      taken := taken + 1;
    }
  }

  /** The inner loop: largest candidates until the target is reached. */
  method SelectFor(c: Case, buyer: Address) returns (r: Result<(seq<Entry>, seq<Entry>)>)
    requires buyer in c.settlements && buyer in c.fundings && buyer in c.endBalances
    ensures r.Ok? <==> Coverable(c, buyer)
    ensures r.Ok? ==> r.value.0 == Choice(Candidates(c, buyer), Target(c, buyer))
    ensures r.Ok? ==> multiset(r.value.0) + multiset(r.value.1) == multiset(Candidates(c, buyer))
  {
    hide RequiredFunding, SumBy, LargestFirst, Taken, SortedBy, Choice;
    var settled := SumBy(c.settlements[buyer], Same);
    var target := RequiredFunding(settled, c.endBalances[buyer]);
    var candidates := LargestFirst(c.fundings[buyer]);
    LargestFirstSorts(c.fundings[buyer]);
    if candidates == [] {
      return Err("buyer has no funding evidence");
    }
    var picked: seq<Entry> := [];
    var buyerTotal, count := 0, 0;
    NoFunding(candidates[..0]);
    while count < |candidates| && buyerTotal < target
      invariant count <= |candidates| && picked == candidates[..count]
      invariant buyerTotal == Funding(picked)
      invariant Taken(candidates, target, count) == Taken(candidates, target, 0)
    {
      FundingSnoc(candidates, count);
      TakenNext(candidates, target, count);
      picked := picked + [candidates[count]];
      buyerTotal := buyerTotal + candidates[count].amount;
      count := count + 1;
    }
    TakenNext(candidates, target, count);
    ChoiceIsOptimal(c.fundings[buyer], target);
    ChoiceIsPrefix(c.fundings[buyer], target);
    if buyerTotal < target {
      return Err("buyer needs more funding for ledger coverage");
    }
    SplitAt(candidates, count);
    return Ok((picked, candidates[count..]));
  }

  lemma SplitAt(s: seq<Entry>, n: nat)
    requires n <= |s|
    ensures multiset(s[..n]) + multiset(s[n..]) == multiset(s)
  {
    assert s == s[..n] + s[n..];
  }

  lemma ChoiceIsPrefix(candidates: seq<Entry>, target: nat)
    ensures Choice(candidates, target) == LargestFirst(candidates)[..Taken(LargestFirst(candidates), target, 0)]
  {
  }

  /** What the selection promises the verifier: the fundings selected for each buyer meet its exact ledger
      inequality, and no smaller subset of its candidates does. */
  lemma SelectionMeetsLedger(c: Case, buyer: Address)
    requires Coverable(c, buyer)
    ensures var choice, balance := Choice(Candidates(c, buyer), Target(c, buyer)), EndBalance(c, buyer);
      && Ledgers.ExactLedger(balance, Settled(c, buyer), Funding(choice))
      && (forall subset: seq<Entry> ::
            multiset(subset) <= multiset(Candidates(c, buyer)) &&
              Ledgers.ExactLedger(balance, Settled(c, buyer), Funding(subset))
              ==> |choice| <= |subset|)
  {
    hide Choice, RequiredFunding, Ledgers.ExactLedger;
    var balance := EndBalance(c, buyer);
    ChoiceIsOptimal(Candidates(c, buyer), Target(c, buyer));
    RequiredFundingIsLeast(Settled(c, buyer), balance, Funding(Choice(Candidates(c, buyer), Target(c, buyer))));
    forall subset: seq<Entry>
      ensures RequiredFunding(Settled(c, buyer), balance) <= Funding(subset) <==>
        Ledgers.ExactLedger(balance, Settled(c, buyer), Funding(subset))
    {
      RequiredFundingIsLeast(Settled(c, buyer), balance, Funding(subset));
    }
  }

  /** And therefore the verifier's own wrapping check passes, when the numbers are machine numbers. */
  lemma SelectionPassesVerifier(c: Case, buyer: Address)
    requires Coverable(c, buyer)
    requires var balance := EndBalance(c, buyer);
      balance < U256_LIMIT && (balance + Settled(c, buyer)) * BPS < U256_LIMIT
    requires Settled(c, buyer) < U128_LIMIT && Funding(Choice(Candidates(c, buyer), Target(c, buyer))) < U128_LIMIT
    ensures var choice := Choice(Candidates(c, buyer), Target(c, buyer));
      CL.LedgerCheck(EndBalance(c, buyer), Settled(c, buyer), Funding(choice))
  {
    hide Choice, CL.LedgerCheck, Target, Settled;
    SelectionMeetsLedger(c, buyer);
    Ledgers.LedgerCheckExactIff(EndBalance(c, buyer), Settled(c, buyer));
  }
}
