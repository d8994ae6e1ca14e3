/** The references of a closed loop, the keys its legs consume, and why no log is counted twice. */
module LoopTheorems {
  import opened Prelude
  import opened Hashing
  import opened Evidence
  import opened Booking
  import opened ClosedLoop

  // ── The references of a claim ─────────────────────────────────────────

  function FundRefs(e: FundingEvidence): seq<LogRef> {
    match e.kind
    case Usdc(transfer) => [transfer]
    case ProtocolDeposit(transfer, deposited) => [transfer, deposited]
    case Native(_, _, _) => []
  }

  function PathRefs(path: ReturnPath): seq<LogRef> {
    path.transfers
  }

  function Single(reference: LogRef): seq<LogRef> {
    [reference]
  }

  function ReturnRefs(input: ClosedLoopInput): seq<LogRef> {
    Concat(Map(PathRefs, input.returnPaths))
  }

  /** Every log reference of the FUND, SETTLE and RETURN legs. */
  function AllRefs(input: ClosedLoopInput): seq<LogRef> {
    Concat(Map(FundRefs, input.fundings)) + Concat(Map(Single, input.settlements)) + ReturnRefs(input)
  }

  function KeyAt(chain: ChainResolver): LogRef -> LogKey {
    (reference: LogRef) => if chain.Key(reference).Ok? then chain.Key(reference).value else LogKey(0, 0, 0)
  }

  ghost predicate Resolves(chain: ChainResolver, refs: seq<LogRef>) {
    forall r :: r in refs ==> chain.Key(r).Ok?
  }

  // ── Keys of the rows are the keys of the references ───────────────────

  function KeyList(rows: Rows): seq<LogKey> {
    Concat(Map(KeysOf, rows))
  }

  lemma {:induction false} UsesInKeyList(rows: Rows, k: LogKey)
    ensures Uses(rows, k) == multiset(KeyList(rows))[k]
  {
    if rows == [] {
      assert Map(KeysOf, rows) == [];
    } else {
      var init, last := rows[..|rows| - 1], rows[|rows| - 1];
      UsesInKeyList(init, k);
      var lists := Map(KeysOf, init);
      assert Map(KeysOf, rows) == lists + [KeysOf(last)];
      ConcatSnoc(lists, KeysOf(last));
    }
  }

  lemma {:induction false} KeyListOfGroups(chain: ChainResolver, rows: Rows, groups: seq<seq<LogRef>>)
    requires |rows| == |groups|
    requires forall k :: 0 <= k < |rows| ==>
      KeysOf(rows[k]) == Map(KeyAt(chain), groups[k]) && Resolves(chain, groups[k])
    ensures KeyList(rows) == Map(KeyAt(chain), Concat(groups))
    ensures Resolves(chain, Concat(groups))
  {
    if rows != [] {
      KeyListOfGroups(chain, rows[1..], groups[1..]);
      assert Map(KeysOf, rows)[1..] == Map(KeysOf, rows[1..]);
      MapConcat(KeyAt(chain), groups[0], Concat(groups[1..]));
    }
  }

  lemma FundRowKeys(o: Oracle, input: ClosedLoopInput, e: FundingEvidence)
    requires FundRow(o, input, e).Some?
    ensures KeysOf(FundRow(o, input, e)) == Map(KeyAt(Chain(o, input)), FundRefs(e))
    ensures Resolves(Chain(o, input), FundRefs(e))
  {
    hide ChainResolver.Key, ChainResolver.UsdcTransfer, ChainResolver.ProtocolDeposit, ChainResolver.Timestamp,
      ChainResolver.SignedBy;
  }

  lemma SettleRowKeys(o: Oracle, input: ClosedLoopInput, reference: LogRef)
    requires SettleRow(o, input, reference).Some?
    ensures KeysOf(SettleRow(o, input, reference)) == Map(KeyAt(Chain(o, input)), Single(reference))
    ensures Resolves(Chain(o, input), Single(reference))
  {
    hide ChainResolver.Key, ChainResolver.SettlementAt, ChainResolver.Timestamp, FundRows;
  }

  lemma HopKeyOfRef(o: Oracle, input: ClosedLoopInput, reference: LogRef)
    requires HopAt(o, input, reference).Some?
    ensures Chain(o, input).Key(reference) == Ok(HopAt(o, input, reference).value.key)
  {
    hide ChainResolver.Key, ChainResolver.UsdcTransfer, ChainResolver.Timestamp;
  }

  lemma PathRowKeys(o: Oracle, input: ClosedLoopInput, path: ReturnPath)
    requires PathRow(o, input, path).Some?
    ensures KeysOf(PathRow(o, input, path)) == Map(KeyAt(Chain(o, input)), PathRefs(path))
    ensures Resolves(Chain(o, input), PathRefs(path))
  {
    hide ChainResolver.Key, HopAt, Continues, SettleRows;
    var hops := HopsOf(o, input, path);
    forall k | 0 <= k < |hops|
      ensures Chain(o, input).Key(path.transfers[k]) == Ok(HopKey(hops[k]))
    {
      assert HopHolds(hops, k, input.seller, Earliest(SettleRows(o, input)));
      HopKeyOfRef(o, input, path.transfers[k]);
    }
  }

  /** When all three legs are accepted, the keys they consume are the keys of their references, in order. */
  lemma KeyLists(o: Oracle, input: ClosedLoopInput)
    requires AllAccepted(FundRows(o, input)) && AllAccepted(SettleRows(o, input)) && AllAccepted(PathRows(o, input))
    ensures KeyList(FundRows(o, input)) + KeyList(SettleRows(o, input)) + KeyList(PathRows(o, input))
      == Map(KeyAt(Chain(o, input)), AllRefs(input))
    ensures Resolves(Chain(o, input), AllRefs(input))
  {
    hide FundRow, SettleRow, PathRow, KeyAt, Concat;
    var chain := Chain(o, input);
    var funds, settles, paths := FundRows(o, input), SettleRows(o, input), PathRows(o, input);
    forall k | 0 <= k < |funds|
      ensures KeysOf(funds[k]) == Map(KeyAt(chain), Map(FundRefs, input.fundings)[k])
      ensures Resolves(chain, Map(FundRefs, input.fundings)[k])
    {
      assert funds[k] in funds;
      FundRowKeys(o, input, input.fundings[k]);
    }
    forall k | 0 <= k < |settles|
      ensures KeysOf(settles[k]) == Map(KeyAt(chain), Map(Single, input.settlements)[k])
      ensures Resolves(chain, Map(Single, input.settlements)[k])
    {
      assert settles[k] in settles;
      SettleRowKeys(o, input, input.settlements[k]);
    }
    forall k | 0 <= k < |paths|
      ensures KeysOf(paths[k]) == Map(KeyAt(chain), Map(PathRefs, input.returnPaths)[k])
      ensures Resolves(chain, Map(PathRefs, input.returnPaths)[k])
    {
      assert paths[k] in paths;
      PathRowKeys(o, input, input.returnPaths[k]);
    }
    var f, s, p := Concat(Map(FundRefs, input.fundings)), Concat(Map(Single, input.settlements)), ReturnRefs(input);
    KeyListOfGroups(chain, funds, Map(FundRefs, input.fundings));
    KeyListOfGroups(chain, settles, Map(Single, input.settlements));
    KeyListOfGroups(chain, paths, Map(PathRefs, input.returnPaths));
    MapConcat(KeyAt(chain), f, s);
    MapConcat(KeyAt(chain), f + s, p);
  }

  // ── No log is counted twice ───────────────────────────────────────────

  lemma DistinctMap<T, U>(f: T -> U, s: seq<T>)
    requires forall a, b :: a in s && b in s && f(a) == f(b) ==> a == b
    ensures Distinct(Map(f, s)) <==> Distinct(s)
  {
  }

  /** Among references that resolve in authenticated blocks, distinct keys are distinct references. */
  lemma DistinctKeysAreDistinctRefs(chain: ChainResolver, periodStart: nat, periodEnd: nat, refs: seq<LogRef>)
    requires Authentic(chain.oracle, chain.blocks, periodStart, periodEnd) && Resolves(chain, refs)
    ensures Distinct(Map(KeyAt(chain), refs)) <==> Distinct(refs)
  {
    hide ChainResolver.Key;
    forall a, b | a in refs && b in refs && KeyAt(chain)(a) == KeyAt(chain)(b)
      ensures a == b
    {
      KeyInjective(chain, periodStart, periodEnd, a, b);
    }
    DistinctMap(KeyAt(chain), refs);
  }

  /** Three legs booked one after the other: all evidence accepted, no key used twice across the legs, and the
      three totals within u128. */
  lemma ThreeLegs(f: Rows, s: Rows, p: Rows)
    ensures Booked(f, {}) && Booked(s, Consumed(f)) && Booked(p, Consumed(f) + Consumed(s))
      <==>
      && AllAccepted(f) && AllAccepted(s) && AllAccepted(p)
      && Distinct(KeyList(f) + KeyList(s) + KeyList(p))
      && Total(f) < U128_LIMIT && Total(s) < U128_LIMIT && Total(p) < U128_LIMIT
  {
    hide Booked, Consumed, Uses, KeyList, Total;
    BookedIff(f, {});
    BookedIff(s, Consumed(f));
    BookedIff(p, Consumed(f) + Consumed(s));
    var keys := KeyList(f) + KeyList(s) + KeyList(p);
    DistinctCount(keys);
    forall k
      ensures multiset(keys)[k] == Uses(f, k) + Uses(s, k) + Uses(p, k)
      ensures k in Consumed(f) <==> Uses(f, k) > 0
      ensures k in Consumed(s) <==> Uses(s, k) > 0
    {
      UsesInKeyList(f, k);
      UsesInKeyList(s, k);
      UsesInKeyList(p, k);
      ConsumedUses(f, k);
      ConsumedUses(s, k);
    }
  }

  lemma PathHoldsAgainst(hops: seq<Option<Hop>>, seller: Address, funder: Address, a: u64, b: u64)
    requires PathHolds(hops, seller, funder, a)
    requires hops[0].Some? && hops[0].value.time > b
    ensures PathHolds(hops, seller, funder, b)
  {
    forall k | 0 <= k < |hops|
      ensures HopHolds(hops, k, seller, b)
    {
      assert HopHolds(hops, k, seller, a);
    }
  }
}
