/** Extending verified evidence in place with further receipts and blocks, so that more return paths can be
    referenced: nothing that was referenced before may move, and nothing proven before may change. */
module Extension {
  import opened Prelude
  import opened Hashing
  import opened Evidence
  import opened Booking
  import opened ClosedLoop
  import Receipts
  import opened Seller
  import opened Merkle
  import LoopBounds
  import opened Decoding
  import Conservation

  /** The headers and transactions stay, receipts are only appended, and blocks are only appended. */
  ghost predicate Grows(x: seq<EvidenceBlock>, y: seq<EvidenceBlock>) {
    && |x| <= |y|
    && forall i :: 0 <= i < |x| ==> BlockGrows(x[i], y[i])
  }

  ghost predicate BlockGrows(a: EvidenceBlock, b: EvidenceBlock) {
    a.header == b.header && a.transactions == b.transactions && a.receipts <= b.receipts
  }

  lemma GrowsTransitive(x: seq<EvidenceBlock>, y: seq<EvidenceBlock>, z: seq<EvidenceBlock>)
    requires Grows(x, y) && Grows(y, z)
    ensures Grows(x, z)
  {
    forall i | 0 <= i < |x|
      ensures BlockGrows(x[i], z[i])
    {
      assert BlockGrows(x[i], y[i]) && BlockGrows(y[i], z[i]);
    }
  }

  ghost predicate DistinctReceipts(b: EvidenceBlock) {
    DistinctIndexes(b.receipts)
  }

  ghost predicate DistinctIndexes(receipts: seq<ReceiptProof>) {
    forall i, j :: 0 <= i < j < |receipts| ==> receipts[i].txIndex != receipts[j].txIndex
  }

  ghost predicate HasReceipt(b: EvidenceBlock, txIndex: nat) {
    HasIndex(b.receipts, txIndex)
  }

  ghost predicate HasIndex(receipts: seq<ReceiptProof>, txIndex: nat) {
    exists k :: 0 <= k < |receipts| && receipts[k].txIndex == txIndex
  }

  ghost predicate HasHeader(blocks: seq<EvidenceBlock>, h: Header) {
    exists i :: 0 <= i < |blocks| && blocks[i].header == h
  }

  /** One header per block number. */
  ghost predicate HeadersAgree(blocks: seq<EvidenceBlock>) {
    forall i, j :: 0 <= i < j < |blocks| && blocks[i].header.number == blocks[j].header.number ==>
      blocks[i].header == blocks[j].header
  }

  lemma AgreeSnoc(blocks: seq<EvidenceBlock>, b: EvidenceBlock)
    requires HeadersAgree(blocks)
    ensures HeadersAgree(blocks + [b]) <==>
      forall h :: HasHeader(blocks, h) && h.number == b.header.number ==> h == b.header
    ensures forall h :: HasHeader(blocks + [b], h) <==> HasHeader(blocks, h) || h == b.header
  {
    var all := blocks + [b];
    assert all[|blocks|] == b;
    forall i | 0 <= i < |blocks|
      ensures all[i] == blocks[i] && HasHeader(blocks, all[i].header)
    {
    }
    forall h | HasHeader(blocks, h)
      ensures HasHeader(all, h)
    {
      var i :| 0 <= i < |blocks| && blocks[i].header == h;
      assert all[i].header == h;
    }
  }

  lemma AgreePrefix(blocks: seq<EvidenceBlock>, n: nat)
    requires HeadersAgree(blocks) && n <= |blocks|
    ensures HeadersAgree(blocks[..n])
  {
  }

  ghost predicate EachAuthentic(o: Oracle, blocks: seq<EvidenceBlock>, periodStart: nat, periodEnd: nat) {
    forall i :: 0 <= i < |blocks| ==> AuthenticBlock(o, blocks[i], periodStart, periodEnd)
  }

  /** `b` is `a` with further receipts of the same block, each index once. */
  ghost predicate Supplements(a: EvidenceBlock, b: EvidenceBlock, more: EvidenceBlock) {
    && BlockGrows(a, b) && a.header == more.header && DistinctReceipts(b)
    && forall k :: |a.receipts| <= k < |b.receipts| ==> b.receipts[k] in more.receipts
  }

  /** The only ways in which adding `block` changes the list. */
  ghost predicate Adds(x: seq<EvidenceBlock>, y: seq<EvidenceBlock>, block: EvidenceBlock) {
    || y == x + [block]
    || (|y| == |x| && forall i :: 0 <= i < |x| ==> y[i] == x[i] || Supplements(x[i], y[i], block))
  }

  lemma AddsKeepsAuthentic(o: Oracle, x: seq<EvidenceBlock>, y: seq<EvidenceBlock>, block: EvidenceBlock, s: nat,
                           e: nat)
    requires Adds(x, y, block) && EachAuthentic(o, x, s, e) && AuthenticBlock(o, block, s, e)
    ensures EachAuthentic(o, y, s, e)
  {
    hide ReceiptIncluded;
    forall i | 0 <= i < |y|
      ensures AuthenticBlock(o, y[i], s, e)
    {
      if i < |x| && y[i] != x[i] {
        assert AuthenticBlock(o, x[i], s, e);
        forall k | 0 <= k < |y[i].receipts|
          ensures ReceiptIncluded(o, y[i].header, y[i].receipts[k])
        {
          assert k < |x[i].receipts| ==> y[i].receipts[k] == x[i].receipts[k];
        }
      }
    }
  }

  lemma AddsHeader(x: seq<EvidenceBlock>, y: seq<EvidenceBlock>, block: EvidenceBlock, h: Header)
    requires Adds(x, y, block) && HasHeader(y, block.header)
    ensures HasHeader(y, h) <==> HasHeader(x, h) || h == block.header
  {
    if HasHeader(y, h) {
      var i :| 0 <= i < |y| && y[i].header == h;
      assert i < |x| ==> x[i].header == h;
    }
    if HasHeader(x, h) {
      var i :| 0 <= i < |x| && x[i].header == h;
      assert y[i].header == h;
    }
  }

  lemma OwnReceipt(b: EvidenceBlock, k: nat)
    requires k < |b.receipts|
    ensures HasReceipt(b, b.receipts[k].txIndex)
  {
  }

  /** A fetched receipt is now available under its block number and transaction index. */
  ghost predicate Available(blocks: seq<EvidenceBlock>, number: nat, txIndex: nat) {
    exists i :: 0 <= i < |blocks| && blocks[i].header.number == number && HasReceipt(blocks[i], txIndex)
  }

  lemma AvailableKept(x: seq<EvidenceBlock>, y: seq<EvidenceBlock>, number: nat, txIndex: nat)
    requires Grows(x, y) && Available(x, number, txIndex)
    ensures Available(y, number, txIndex)
  {
    var i :| 0 <= i < |x| && x[i].header.number == number && HasReceipt(x[i], txIndex);
    assert BlockGrows(x[i], y[i]);
    var k :| 0 <= k < |x[i].receipts| && x[i].receipts[k].txIndex == txIndex;
    assert y[i].receipts[k] == x[i].receipts[k];
    assert HasReceipt(y[i], txIndex);
  }

  /** The evidence being extended, with the position of each block number. */
  class Extender {
    var blocks: seq<EvidenceBlock>
    var positions: map<nat, nat>

    ghost predicate Valid()
      reads this
    {
      && (forall i :: 0 <= i < |blocks| ==>
        blocks[i].header.number in positions && positions[blocks[i].header.number] == i)
      && (forall n :: n in positions ==> positions[n] < |blocks| && blocks[positions[n]].header.number == n)
      && (forall i :: 0 <= i < |blocks| ==> DistinctReceipts(blocks[i]))
    }

    constructor (initial: seq<EvidenceBlock>)
      requires DistinctNumbers(initial) && forall i :: 0 <= i < |initial| ==> DistinctReceipts(initial[i])
      ensures Valid() && blocks == initial
    {
      blocks := initial;
      positions := map i | 0 <= i < |initial| :: initial[i].header.number := i;
    }

    /** One fetched block: appended, or its new receipts appended to the block already there. */
    method Add(block: EvidenceBlock) returns (r: Result<()>)
      requires Valid() && DistinctReceipts(block)
      modifies this
      ensures Valid() && Grows(old(blocks), blocks)
      ensures r.Err? <==> Conflicts(old(blocks), block)
      ensures r.Err? ==> blocks == old(blocks)
      ensures r.Ok? ==> Adds(old(blocks), blocks, block) && HasHeader(blocks, block.header)
      ensures r.Ok? ==> forall k :: 0 <= k < |block.receipts| ==>
        Available(blocks, block.header.number, block.receipts[k].txIndex)
      ensures block.header.number !in old(positions) ==> blocks == old(blocks) + [block]
      ensures block.header.number in old(positions) ==>
        |blocks| == |old(blocks)| && forall i :: 0 <= i < |blocks| && i != old(positions)[block.header.number] ==>
          blocks[i] == old(blocks)[i]
      ensures r.Ok? && block.header.number in old(positions) ==>
        var i := old(positions)[block.header.number];
        AppendsFresh(old(blocks)[i].receipts, block.receipts, blocks[i].receipts)
    {
      hide DistinctIndexes, HasIndex, AppendsFresh;
      var number := block.header.number;
      if number in positions {
        var position := positions[number];
        if HeaderHash(blocks[position].header) != HeaderHash(block.header) {
          return Err("conflicting block header");
        }
        var receipts := AppendReceipts(blocks[position].receipts, block.receipts);
        var extended := blocks[position].(receipts := receipts);
        blocks := blocks[position := extended];
        assert blocks[position].header == block.header;
        forall k | 0 <= k < |block.receipts|
          ensures Available(blocks, number, block.receipts[k].txIndex)
        {
          assert HasReceipt(blocks[position], block.receipts[k].txIndex);
        }
      } else {
        positions := positions[number := |blocks|];
        blocks := blocks + [block];
        assert blocks[|blocks| - 1].header == block.header;
        forall k | 0 <= k < |block.receipts|
          ensures Available(blocks, number, block.receipts[k].txIndex)
        {
          assert HasReceipt(blocks[|blocks| - 1], block.receipts[k].txIndex) by { OwnReceipt(block, k); }
        }
      }
      return Ok(());
    }

    /** All fetched blocks in turn: it fails exactly when two blocks of one number have different headers. */
    method Extend(fetched: seq<EvidenceBlock>) returns (r: Result<()>)
      requires Valid() && forall i :: 0 <= i < |fetched| ==> DistinctReceipts(fetched[i])
      modifies this
      ensures Valid() && Grows(old(blocks), blocks)
      ensures r.Ok? <==> HeadersAgree(old(blocks) + fetched)
      ensures r.Ok? ==> Extends(old(blocks), blocks, fetched)
    {
      hide Extends, Adds, Grows, HeadersAgree;
      ghost var initial := blocks;
      NothingExtends(initial);
      assert fetched[..0] == [];
      for n := 0 to |fetched|
        invariant Valid() && Extends(initial, blocks, fetched[..n])
      {
        ghost var before := blocks;
        r := Add(fetched[n]);
        if r.Err? {
          ConflictSpoils(initial, before, fetched, n);
          ExtendsGrows(initial, before, fetched[..n]);
          return;
        }
        ExtendStep(initial, before, blocks, fetched, n);
      }
      assert fetched[..|fetched|] == fetched;
      ExtendsGrows(initial, blocks, fetched);
      return Ok(());
    }
  }

  /** Some block there has another header for this number. */
  ghost predicate Conflicts(blocks: seq<EvidenceBlock>, b: EvidenceBlock) {
    exists i :: 0 <= i < |blocks| && blocks[i].header.number == b.header.number && blocks[i].header != b.header
  }

  /** What extending `x` with `fetched` has made of it: it has grown, the headers are those of both, every fetched
      receipt is available, and if everything was authentic it still is. */
  ghost predicate Extends(x: seq<EvidenceBlock>, y: seq<EvidenceBlock>, fetched: seq<EvidenceBlock>) {
    && Grows(x, y) && HeadersAgree(x + fetched)
    && (forall h :: HasHeader(y, h) <==> HasHeader(x + fetched, h))
    && (forall i, k :: 0 <= i < |fetched| && 0 <= k < |fetched[i].receipts| ==>
          Available(y, fetched[i].header.number, fetched[i].receipts[k].txIndex))
    && (forall o, s, e :: EachAuthentic(o, x, s, e) && EachAuthentic(o, fetched, s, e) ==> EachAuthentic(o, y, s, e))
  }

  lemma ExtendsGrows(x: seq<EvidenceBlock>, y: seq<EvidenceBlock>, fetched: seq<EvidenceBlock>)
    requires Extends(x, y, fetched)
    ensures Grows(x, y) && HeadersAgree(x + fetched)
  {
  }

  lemma NothingExtends(x: seq<EvidenceBlock>)
    requires DistinctNumbers(x)
    ensures Extends(x, x, [])
  {
    hide EachAuthentic;
    assert x + [] == x;
  }

  lemma ConflictSpoils(x: seq<EvidenceBlock>, y: seq<EvidenceBlock>, fetched: seq<EvidenceBlock>, n: nat)
    requires n < |fetched| && Extends(x, y, fetched[..n]) && Conflicts(y, fetched[n])
    ensures !HeadersAgree(x + fetched)
  {
    hide HeadersAgree, EachAuthentic, Grows, Available;
    var i :| 0 <= i < |y| && y[i].header.number == fetched[n].header.number && y[i].header != fetched[n].header;
    assert HasHeader(y, y[i].header);
    var before := x + fetched[..n];
    AgreeSnoc(before, fetched[n]);
    assert (x + fetched)[..|x| + n + 1] == before + [fetched[n]];
    if HeadersAgree(x + fetched) {
      AgreePrefix(x + fetched, |x| + n + 1);
    }
  }

  lemma ExtendStep(x: seq<EvidenceBlock>, y: seq<EvidenceBlock>, z: seq<EvidenceBlock>, fetched: seq<EvidenceBlock>,
                   n: nat)
    requires n < |fetched| && Extends(x, y, fetched[..n])
    requires Grows(y, z) && Adds(y, z, fetched[n]) && HasHeader(z, fetched[n].header) && !Conflicts(y, fetched[n])
    requires forall k :: 0 <= k < |fetched[n].receipts| ==>
      Available(z, fetched[n].header.number, fetched[n].receipts[k].txIndex)
    ensures Extends(x, z, fetched[..n + 1])
  {
    hide EachAuthentic, Grows, Available, Adds, HeadersAgree;
    var (block, before) := (fetched[n], x + fetched[..n]);
    GrowsTransitive(x, y, z);
    assert x + fetched[..n + 1] == before + [block];
    AgreeSnoc(before, block);
    NoConflict(y, block);
    forall h
      ensures HasHeader(z, h) <==> HasHeader(y, h) || h == block.header
    {
      AddsHeader(y, z, block, h);
    }
    forall i, k | 0 <= i < n && 0 <= k < |fetched[i].receipts|
      ensures Available(z, fetched[i].header.number, fetched[i].receipts[k].txIndex)
    {
      assert fetched[..n][i] == fetched[i];
      AvailableKept(y, z, fetched[i].header.number, fetched[i].receipts[k].txIndex);
    }
    forall o, s, e | EachAuthentic(o, x, s, e) && EachAuthentic(o, fetched[..n + 1], s, e)
      ensures EachAuthentic(o, z, s, e)
    {
      AuthenticPrefix(o, fetched[..n + 1], s, e);
      assert fetched[..n + 1][..n] == fetched[..n] && fetched[..n + 1][n] == block;
      AddsKeepsAuthentic(o, y, z, block, s, e);
    }
  }

  lemma NoConflict(y: seq<EvidenceBlock>, b: EvidenceBlock)
    requires !Conflicts(y, b)
    ensures forall h :: HasHeader(y, h) && h.number == b.header.number ==> h == b.header
  {
  }

  lemma AuthenticPrefix(o: Oracle, blocks: seq<EvidenceBlock>, s: nat, e: nat)
    requires blocks != [] && EachAuthentic(o, blocks, s, e)
    ensures EachAuthentic(o, blocks[..|blocks| - 1], s, e) && AuthenticBlock(o, blocks[|blocks| - 1], s, e)
  {
  }

  /** `added` are the receipts at the positions `at` of `more`: in their order, each the first of its index there, and
      none with an index of `existing`; and no other index is left out. */
  ghost predicate Fresh(existing: seq<ReceiptProof>, more: seq<ReceiptProof>, added: seq<ReceiptProof>, at: seq<nat>) {
    && |at| == |added| && Increasing(at)
    && (forall i :: 0 <= i < |at| ==> at[i] < |more| && added[i] == more[at[i]])
    && (forall k :: 0 <= k < |more| ==> (k in at <==> NewIndex(existing, more, k)))
  }

  ghost predicate NewIndex(existing: seq<ReceiptProof>, more: seq<ReceiptProof>, k: nat)
    requires k < |more|
  {
    && (forall i :: 0 <= i < |existing| ==> existing[i].txIndex != more[k].txIndex)
    && (forall i :: 0 <= i < k ==> more[i].txIndex != more[k].txIndex)
  }

  /** The receipts whose index is not there yet, appended in order. */
  ghost predicate AppendsFresh(existing: seq<ReceiptProof>, more: seq<ReceiptProof>, all: seq<ReceiptProof>) {
    existing <= all && exists at: seq<nat> :: Fresh(existing, more, all[|existing|..], at)
  }

  method AppendReceipts(existing: seq<ReceiptProof>, more: seq<ReceiptProof>) returns (all: seq<ReceiptProof>)
    requires DistinctIndexes(existing)
    ensures existing <= all && AppendsFresh(existing, more, all)
    ensures DistinctIndexes(all)
    ensures forall k :: 0 <= k < |more| ==> HasIndex(all, more[k].txIndex)
    ensures forall i :: |existing| <= i < |all| ==> all[i] in more
  {
    hide Fresh, HasIndex, DistinctIndexes;
    all := existing;
    ghost var at: seq<nat> := [];
    assert more[..0] == [];
    NothingFresh(existing);
    for k := 0 to |more|
      invariant existing <= all && Fresh(existing, more[..k], all[|existing|..], at)
    {
      ghost var before := all;
      AvailableIffFresh(existing, more, k, all, at);
      var found := FindReceipt(all, more[k].txIndex);
      if found.None? {
        all := all + [more[k]];
      }
      at := MoreFresh(existing, more, k, before[|existing|..], at);
      assert all[|existing|..] == before[|existing|..] + if found.None? then [more[k]] else [];
    }
    assert more[..|more|] == more;
    FreshMeans(existing, more, all, at);
  }

  lemma NothingFresh(existing: seq<ReceiptProof>)
    ensures Fresh(existing, [], existing[|existing|..], [])
  {
  }

  /** An index is there already exactly when it is not new. */
  lemma AvailableIffFresh(existing: seq<ReceiptProof>, more: seq<ReceiptProof>, k: nat, all: seq<ReceiptProof>,
                          at: seq<nat>)
    requires k < |more| && existing <= all && Fresh(existing, more[..k], all[|existing|..], at)
    ensures (forall i :: 0 <= i < |all| ==> all[i].txIndex != more[k].txIndex) <==> NewIndex(existing, more, k)
  {
    var added := all[|existing|..];
    if NewIndex(existing, more, k) {
      forall i | 0 <= i < |all|
        ensures all[i].txIndex != more[k].txIndex
      {
        if i >= |existing| {
          assert all[i] == added[i - |existing|] == more[..k][at[i - |existing|]] == more[at[i - |existing|]];
        }
      }
    }
    if forall i :: 0 <= i < |all| ==> all[i].txIndex != more[k].txIndex {
      forall i | 0 <= i < |existing|
        ensures existing[i].txIndex != more[k].txIndex
      {
        assert all[i] == existing[i];
      }
      forall i | 0 <= i < k
        ensures more[i].txIndex != more[k].txIndex
      {
        var first := FirstWith(more[..k], more[i].txIndex, i);
        if NewIndex(existing, more[..k], first) {
          var n :| 0 <= n < |at| && at[n] == first;
          assert added[n] == all[|existing| + n];
        } else {
          var e :| 0 <= e < |existing| && existing[e].txIndex == more[..k][first].txIndex;
          assert all[e] == existing[e];
        }
      }
    }
  }

  lemma {:induction false} FirstWith(more: seq<ReceiptProof>, txIndex: nat, i: nat) returns (first: nat)
    requires i < |more| && more[i].txIndex == txIndex
    ensures first <= i && more[first].txIndex == txIndex
    ensures forall j :: 0 <= j < first ==> more[j].txIndex != txIndex
    decreases i
  {
    first := i;
    if j :| 0 <= j < i && more[j].txIndex == txIndex {
      first := FirstWith(more, txIndex, j);
    }
  }

  lemma MoreFresh(existing: seq<ReceiptProof>, more: seq<ReceiptProof>, k: nat, added: seq<ReceiptProof>, at: seq<nat>)
    returns (next: seq<nat>)
    requires k < |more| && Fresh(existing, more[..k], added, at)
    ensures Fresh(existing, more[..k + 1], added + (if NewIndex(existing, more, k) then [more[k]] else []), next)
  {
    var (before, after) := (more[..k], more[..k + 1]);
    next := if NewIndex(existing, more, k) then at + [k] else at;
    forall m | 0 <= m < |after|
      ensures m in next <==> NewIndex(existing, after, m)
    {
      if m < k {
        assert NewIndex(existing, after, m) <==> NewIndex(existing, before, m);
        assert m in next <==> m in at;
      } else {
        assert NewIndex(existing, after, m) <==> NewIndex(existing, more, k);
        assert k !in at;
      }
    }
  }

  lemma FreshMeans(existing: seq<ReceiptProof>, more: seq<ReceiptProof>, all: seq<ReceiptProof>, at: seq<nat>)
    requires DistinctIndexes(existing) && existing <= all && Fresh(existing, more, all[|existing|..], at)
    ensures DistinctIndexes(all) && AppendsFresh(existing, more, all)
    ensures forall k :: 0 <= k < |more| ==> HasIndex(all, more[k].txIndex)
    ensures forall i :: |existing| <= i < |all| ==> all[i] in more
  {
    var added := all[|existing|..];
    forall i | |existing| <= i < |all|
      ensures all[i] in more
      ensures all[i] == more[at[i - |existing|]] && NewIndex(existing, more, at[i - |existing|])
    {
      assert all[i] == added[i - |existing|] && at[i - |existing|] in at;
    }
    assert more[..|more|] == more;
    forall k | 0 <= k < |more|
      ensures HasIndex(all, more[k].txIndex)
    {
      var first := FirstWith(more, more[k].txIndex, k);
      if NewIndex(existing, more, first) {
        var n :| 0 <= n < |at| && at[n] == first;
        assert all[|existing| + n] == added[n];
      } else {
        var e :| 0 <= e < |existing| && existing[e].txIndex == more[first].txIndex;
        assert all[e] == existing[e];
      }
    }
  }

  // ── Frame: what resolved before resolves to the same ──────────────────

  lemma SameLog(o: Oracle, x: seq<EvidenceBlock>, y: seq<EvidenceBlock>, r: LogRef)
    requires Grows(x, y) && ChainResolver(o, x).Log(r).Ok?
    ensures var a, b := ChainResolver(o, x).Log(r), ChainResolver(o, y).Log(r);
      && b.Ok? && a.value.log == b.value.log && a.value.receipt == b.value.receipt
      && a.value.block.header == b.value.block.header && a.value.block.transactions == b.value.block.transactions
  {
    hide Receipts.ReceiptLog, Receipts.ReceiptSuccess;
    assert BlockGrows(x[r.block], y[r.block]);
    assert x[r.block].receipts[r.receipt] == y[r.block].receipts[r.receipt];
  }

  /** Every decoding of a prior reference is unchanged. */
  lemma SameDecoding(o: Oracle, x: seq<EvidenceBlock>, y: seq<EvidenceBlock>, r: LogRef)
    requires Grows(x, y) && ChainResolver(o, x).Log(r).Ok?
    ensures ChainResolver(o, y).Key(r) == ChainResolver(o, x).Key(r)
    ensures ChainResolver(o, y).UsdcTransfer(r) == ChainResolver(o, x).UsdcTransfer(r)
    ensures ChainResolver(o, y).SettlementAt(r) == ChainResolver(o, x).SettlementAt(r)
    ensures ChainResolver(o, y).ProtocolDeposit(r) == ChainResolver(o, x).ProtocolDeposit(r)
    ensures ChainResolver(o, y).Timestamp(r) == ChainResolver(o, x).Timestamp(r)
    ensures forall expected :: ChainResolver(o, y).SignedBy(expected, r) == ChainResolver(o, x).SignedBy(expected, r)
  {
    SameLog(o, x, y, r);
    SameTimestamp(o, x, y, r);
    hide ChainResolver.Log;
    var at := ChainResolver(o, x).Log(r).value;
    SameTransactions(ChainResolver(o, x), ChainResolver(o, y), at.block.transactions, at.receipt.txIndex);
  }

  lemma SameTimestamp(o: Oracle, x: seq<EvidenceBlock>, y: seq<EvidenceBlock>, r: LogRef)
    requires Grows(x, y) && ChainResolver(o, x).Log(r).Ok?
    ensures ChainResolver(o, y).Timestamp(r) == ChainResolver(o, x).Timestamp(r)
  {
    hide Receipts.ReceiptLog, Receipts.ReceiptSuccess;
    assert BlockGrows(x[r.block], y[r.block]);
  }

  /** A prior state read is unchanged. */
  lemma SameRead(o: Oracle, x: seq<EvidenceBlock>, y: seq<EvidenceBlock>, read: StateRead, n: nat, account: Address,
                 slot: Slot)
    requires Grows(x, y) && read.block < |x|
    ensures ChainResolver(o, y).StorageValue(read, n, account, slot) ==
      ChainResolver(o, x).StorageValue(read, n, account, slot)
  {
    assert BlockGrows(x[read.block], y[read.block]);
  }

  // ── Legs ──────────────────────────────────────────────────────────────

  /** The same claim over grown blocks, with other return paths. */
  ghost predicate Extended(a: ClosedLoopInput, b: ClosedLoopInput) {
    Grows(a.blocks, b.blocks) && b == a.(blocks := b.blocks, returnPaths := b.returnPaths)
  }

  lemma KeyNeedsLog(chain: ChainResolver, r: LogRef)
    requires chain.Key(r).Ok?
    ensures chain.Log(r).Ok?
  {
    hide ChainResolver.Log;
  }

  lemma SameFundRow(o: Oracle, a: ClosedLoopInput, b: ClosedLoopInput, e: FundingEvidence)
    requires Extended(a, b) && FundRow(o, a, e).Some?
    ensures FundRow(o, b, e) == FundRow(o, a, e)
  {
    hide ChainResolver.Key, ChainResolver.UsdcTransfer, ChainResolver.ProtocolDeposit, ChainResolver.Timestamp,
      ChainResolver.SignedBy, ChainResolver.Log;
    match e.kind {
      case Usdc(t) =>
        KeyNeedsLog(Chain(o, a), t);
        SameDecoding(o, a.blocks, b.blocks, t);
      case ProtocolDeposit(t, d) =>
        KeyNeedsLog(Chain(o, a), t);
        KeyNeedsLog(Chain(o, a), d);
        SameDecoding(o, a.blocks, b.blocks, t);
        SameDecoding(o, a.blocks, b.blocks, d);
      case Native(_, _, _) =>
    }
  }

  lemma SameFundRows(o: Oracle, a: ClosedLoopInput, b: ClosedLoopInput)
    requires Extended(a, b) && AllAccepted(FundRows(o, a))
    ensures FundRows(o, b) == FundRows(o, a)
  {
    hide FundRow;
    forall k | 0 <= k < |a.fundings|
      ensures FundRows(o, b)[k] == FundRows(o, a)[k]
    {
      assert FundRows(o, a)[k] in FundRows(o, a);
      SameFundRow(o, a, b, a.fundings[k]);
    }
  }

  lemma SameSettleRow(o: Oracle, a: ClosedLoopInput, b: ClosedLoopInput, r: LogRef)
    requires Extended(a, b) && AllAccepted(FundRows(o, a)) && SettleRow(o, a, r).Some?
    ensures SettleRow(o, b, r) == SettleRow(o, a, r)
  {
    hide ChainResolver.Key, ChainResolver.SettlementAt, ChainResolver.Timestamp, ChainResolver.Log, FundRows;
    SameFundRows(o, a, b);
    KeyNeedsLog(Chain(o, a), r);
    SameDecoding(o, a.blocks, b.blocks, r);
  }

  lemma SameSettleRows(o: Oracle, a: ClosedLoopInput, b: ClosedLoopInput)
    requires Extended(a, b) && AllAccepted(FundRows(o, a)) && AllAccepted(SettleRows(o, a))
    ensures SettleRows(o, b) == SettleRows(o, a)
  {
    hide SettleRow, FundRows;
    forall k | 0 <= k < |a.settlements|
      ensures SettleRows(o, b)[k] == SettleRows(o, a)[k]
    {
      assert SettleRows(o, a)[k] in SettleRows(o, a);
      SameSettleRow(o, a, b, a.settlements[k]);
    }
  }

  /** Extending the evidence of an accepted claim changes neither its funding nor its settlement rows, nor any
      ledger; so if the extended claim is accepted, it proves the same volume with the same records. */
  lemma ExtensionKeepsLegs(o: Oracle, a: ClosedLoopInput, b: ClosedLoopInput)
    requires Extended(a, b) && LoopHolds(o, a)
    ensures FundRows(o, b) == FundRows(o, a) && SettleRows(o, b) == SettleRows(o, a)
    ensures LedgersHold(o, b)
    ensures LoopHolds(o, b) ==> LoopJournal(o, b).subjects == LoopJournal(o, a).subjects
    ensures LoopHolds(o, b) <==>
      && Authentic(o, b.blocks, b.periodStart, b.periodEnd)
      && ReturnsHold(o, b, Consumed(FundRows(o, a)) + Consumed(SettleRows(o, a)))
  {
    hide FundRow, SettleRow, FundRows, SettleRows, PathRows, Booked, LedgerCheck, Authentic, ReturnsHold, PartyTotal,
      EndBalance;
    BookedIff(FundRows(o, a), {});
    BookedIff(SettleRows(o, a), Consumed(FundRows(o, a)));
    SameFundRows(o, a, b);
    SameSettleRows(o, a, b);
    forall k | 0 <= k < |a.buyers|
      ensures LedgerHolds(o, b, k)
    {
      assert LedgerHolds(o, a, k);
      SameEndBalance(o, a, b, k);
    }
  }

  /** And when the evidence it started from and everything fetched is authentic, the extended claim is accepted exactly
      when its blocks are not too many and its new return paths hold. */
  lemma ExtensionAcceptedIff(o: Oracle, a: ClosedLoopInput, b: ClosedLoopInput, fetched: seq<EvidenceBlock>)
    requires Extended(a, b) && Extends(a.blocks, b.blocks, fetched) && DistinctNumbers(b.blocks)
    requires LoopHolds(o, a) && EachAuthentic(o, fetched, a.periodStart, a.periodEnd)
    ensures LoopHolds(o, b) <==>
      && |b.blocks| <= MAX_BLOCK_REFS
      && ReturnsHold(o, b, Consumed(FundRows(o, a)) + Consumed(SettleRows(o, a)))
  {
    hide FundsHold, SettlementsHold, FundRows, SettleRows, LedgersHold, ReturnsHold, Consumed, Total;
    ExtensionKeepsLegs(o, a, b);
    hide LoopHolds;
    ExtendsKeepsAuthentic(o, a, b, fetched);
  }

  lemma ExtendsKeepsAuthentic(o: Oracle, a: ClosedLoopInput, b: ClosedLoopInput, fetched: seq<EvidenceBlock>)
    requires Extended(a, b) && Extends(a.blocks, b.blocks, fetched) && DistinctNumbers(b.blocks)
    requires LoopHolds(o, a) && EachAuthentic(o, fetched, a.periodStart, a.periodEnd)
    ensures Authentic(o, b.blocks, b.periodStart, b.periodEnd) <==> |b.blocks| <= MAX_BLOCK_REFS
  {
    hide FundsHold, SettlementsHold, FundRows, SettleRows, LedgersHold, ReturnsHold, Consumed, Total, AuthenticBlock;
    assert EachAuthentic(o, a.blocks, a.periodStart, a.periodEnd);
    assert EachAuthentic(o, b.blocks, b.periodStart, b.periodEnd);
  }

  /** What a seller proof commits does not change either: the original and the extended claim prove the same volume out
      of the same total, for the same settlements. */
  lemma ExtensionKeepsCommitted(o: Oracle, x: SellerProofInput, y: SellerProofInput, v: VerifiedSeller,
                                w: VerifiedSeller)
    requires x.evidence.ClosedLoop? && y.evidence.ClosedLoop? && y == x.(evidence := y.evidence)
    requires Extended(x.evidence.loop, y.evidence.loop)
    requires Commits(o, x, v) && Commits(o, y, w)
    ensures w.journal.provenWashVolume == v.journal.provenWashVolume
    ensures w.journal.totalSellerVolume == v.journal.totalSellerVolume
    ensures w.journal.evidenceDigest == v.journal.evidenceDigest
  {
    CommittedOf(o, x, v);
    CommittedOf(o, y, w);
    hide LoopHolds, LoopJournal, MapOfRecords, Counter, Commits, Extended;
    ExtensionKeepsLegs(o, x.evidence.loop, y.evidence.loop);
    SameCounter(o, x, y);
  }

  /** What a proof over a closed loop commits, in terms of the journal of the loop. */
  lemma CommittedOf(o: Oracle, x: SellerProofInput, v: VerifiedSeller)
    requires x.evidence.ClosedLoop? && Commits(o, x, v)
    ensures LoopHolds(o, x.evidence.loop) && Some(v.journal.totalSellerVolume) == Counter(o, x)
    ensures |LoopJournal(o, x.evidence.loop).subjects| == 1
    ensures var s := LoopJournal(o, x.evidence.loop).subjects[0];
      && v.journal.provenWashVolume == s.washVolume
      && v.journal.evidenceDigest == EvidenceDigest(x.seller, x.periodStart, x.periodEnd, MapOfRecords(s.settlements))
  {
    hide LoopHolds, SettleRows, MapOfRecords, Counter, JournalRefs, RecordOf, Root, Leaves, Chunks;
  }

  lemma SameEndBalance(o: Oracle, a: ClosedLoopInput, b: ClosedLoopInput, k: nat)
    requires Extended(a, b) && k < |a.ledgers| && k < |a.buyers| && EndBalance(o, a, k).Ok?
    ensures EndBalance(o, b, k) == EndBalance(o, a, k)
  {
    SameRead(o, a.blocks, b.blocks, a.ledgers[k].end, a.periodEnd, DEPOSITS_ADDRESS, BuyerSlot(a.buyers[k]));
  }

  // ── Referencing the selected paths ────────────────────────────────────

  datatype SelectedHop = SelectedHop(from: Address, to: Address, amount: u128, time: u64, block: nat, transaction: nat,
                                     log: nat)

  /** The position of a receipt by its transaction index. */
  method FindReceipt(receipts: seq<ReceiptProof>, txIndex: nat) returns (r: Option<nat>)
    ensures r.None? <==> forall k :: 0 <= k < |receipts| ==> receipts[k].txIndex != txIndex
    ensures r.Some? ==> r.value < |receipts| && receipts[r.value].txIndex == txIndex
  {
    for k := 0 to |receipts|
      invariant forall j :: 0 <= j < k ==> receipts[j].txIndex != txIndex
    {
      if receipts[k].txIndex == txIndex {
        return Some(k);
      }
    }
    return None;
  }

  /** A reference that denotes exactly the selected on-chain position and carries the selected transfer. */
  ghost predicate Denotes(chain: ChainResolver, r: LogRef, hop: SelectedHop) {
    && chain.Key(r) == Ok(LogKey(hop.block, hop.transaction, hop.log))
    && chain.UsdcTransfer(r) == Ok(Transfer(hop.from, hop.to, hop.amount, hop.block))
    && chain.Timestamp(r) == Ok(hop.time)
  }

  /** Exactly when it finds, at the hop's place and time, a USDC transfer of the hop's amount
      between its two addresses. */
  lemma DenotesIff(chain: ChainResolver, r: LogRef, hop: SelectedHop)
    ensures Denotes(chain, r, hop) <==>
      && Found(chain, r).Some?
      && var e := Found(chain, r).value;
      && e.number == hop.block && e.transaction == hop.transaction && e.log == hop.log && e.time == hop.time
      && IsTransfer(e.content, hop.from, hop.to, hop.amount)
  {
    hide ChainResolver.Key, ChainResolver.UsdcTransfer, ChainResolver.Timestamp, Found, IsTransfer;
    ResolvesIff(chain, r);
    TransferIff(chain, r, Transfer(hop.from, hop.to, hop.amount, hop.block));
  }

  /** Some reference denotes the selected hop. */
  ghost predicate Referable(chain: ChainResolver, hop: SelectedHop) {
    exists r :: Denotes(chain, r, hop)
  }

  ghost predicate PathDenotes(chain: ChainResolver, path: ReturnPath, hops: seq<SelectedHop>) {
    && |path.transfers| == |hops|
    && forall k :: 0 <= k < |hops| ==> Denotes(chain, path.transfers[k], hops[k])
  }

  /** A reference that denotes a hop can only be the one found through the positions. */
  lemma OnlyReference(e: Extender, o: Oracle, r: LogRef, hop: SelectedHop)
    requires e.Valid() && Denotes(ChainResolver(o, e.blocks), r, hop)
    ensures hop.block in e.positions && r.block == e.positions[hop.block] && r.log == hop.log
    ensures forall k :: 0 <= k < |e.blocks[r.block].receipts| ==>
      (e.blocks[r.block].receipts[k].txIndex == hop.transaction ==> r.receipt == k)
    ensures r.receipt < |e.blocks[r.block].receipts| && e.blocks[r.block].receipts[r.receipt].txIndex == hop.transaction
  {
    hide Receipts.ReceiptLog, Receipts.ReceiptSuccess, ChainResolver.UsdcTransfer;
    var chain := ChainResolver(o, e.blocks);
    assert chain.Key(r) == Ok(LogKey(hop.block, hop.transaction, hop.log));
    assert DistinctReceipts(e.blocks[r.block]);
  }

  /** One selected path turned into references: it succeeds exactly when every hop can be referenced. */
  method ReferencePath(e: Extender, o: Oracle, hops: seq<SelectedHop>) returns (r: Result<ReturnPath>)
    requires e.Valid()
    ensures r.Ok? <==> PathReferable(ChainResolver(o, e.blocks), hops)
    ensures r.Ok? ==> PathDenotes(ChainResolver(o, e.blocks), r.value, hops)
  {
    hide Denotes;
    var transfers: seq<LogRef> := [];
    var chain := ChainResolver(o, e.blocks);
    for k := 0 to |hops|
      invariant |transfers| == k && forall j :: 0 <= j < k ==> Denotes(chain, transfers[j], hops[j])
    {
      var reference :- ReferenceHop(e, o, hops[k]);
      transfers := transfers + [reference];
    }
    assert forall k :: 0 <= k < |hops| ==> Denotes(chain, transfers[k], hops[k]);
    return Ok(ReturnPath(transfers));
  }

  method ReferenceHop(e: Extender, o: Oracle, hop: SelectedHop) returns (r: Result<LogRef>)
    requires e.Valid()
    ensures r.Ok? <==> Referable(ChainResolver(o, e.blocks), hop)
    ensures r.Ok? ==> Denotes(ChainResolver(o, e.blocks), r.value, hop)
  {
    hide Receipts.ReceiptLog, Receipts.ReceiptSuccess;
    var chain := ChainResolver(o, e.blocks);
    ghost var denoted: Option<LogRef> := None;
    if Referable(chain, hop) {
      ghost var d :| Denotes(chain, d, hop);
      OnlyReference(e, o, d, hop);
      denoted := Some(d);
    }
    if hop.block !in e.positions {
      return Err("missing block");
    }
    var block := e.positions[hop.block];
    var receipt := FindReceipt(e.blocks[block].receipts, hop.transaction);
    if receipt.None? {
      return Err("missing receipt");
    }
    var reference := LogRef(block, receipt.value, hop.log);
    assert denoted.Some? ==> denoted.value == reference;
    var t :- chain.UsdcTransfer(reference);
    if t.from != hop.from || t.to != hop.to || t.amount != hop.amount || chain.Timestamp(reference) != Ok(hop.time) {
      return Err("authenticated transfer differs from candidate");
    }
    assert Denotes(chain, reference, hop);
    return Ok(reference);
  }

  // ── Expanding the selected paths ──────────────────────────────────────

  ghost predicate Asks(targets: map<nat, set<nat>>, number: nat, txIndex: nat) {
    number in targets && txIndex in targets[number]
  }

  ghost predicate Wants(hops: seq<SelectedHop>, number: nat, txIndex: nat) {
    exists k :: 0 <= k < |hops| && hops[k].block == number && hops[k].transaction == txIndex
  }

  /** The receipts of one path that are not there yet, added to the targets. */
  method AddTargets(e: Extender, targets: map<nat, set<nat>>, hops: seq<SelectedHop>) returns (out: map<nat, set<nat>>)
    requires e.Valid()
    ensures forall n, t :: Asks(out, n, t) <==> Asks(targets, n, t) || (Wants(hops, n, t) && !Available(e.blocks, n, t))
  {
    out := targets;
    assert hops[..0] == [];
    for k := 0 to |hops|
      invariant forall n, t :: Asks(out, n, t) <==>
        Asks(targets, n, t) || (Wants(hops[..k], n, t) && !Available(e.blocks, n, t))
    {
      var hop := hops[k];
      WantsSnoc(hops, k);
      var present := IsPresent(e, hop.block, hop.transaction);
      if !present {
        out := out[hop.block := (if hop.block in out then out[hop.block] else {}) + {hop.transaction}];
      }
    }
    assert hops[..|hops|] == hops;
  }

  lemma WantsSnoc(hops: seq<SelectedHop>, k: nat)
    requires k < |hops|
    ensures forall n, t :: Wants(hops[..k + 1], n, t) <==>
      Wants(hops[..k], n, t) || (hops[k].block == n && hops[k].transaction == t)
  {
    var before, after := hops[..k], hops[..k + 1];
    assert after[k] == hops[k];
    forall n, t | Wants(before, n, t)
      ensures Wants(after, n, t)
    {
      var j :| 0 <= j < k && before[j].block == n && before[j].transaction == t;
      assert after[j] == before[j];
    }
  }

  method IsPresent(e: Extender, number: nat, txIndex: nat) returns (present: bool)
    requires e.Valid()
    ensures present <==> Available(e.blocks, number, txIndex)
  {
    if number !in e.positions {
      return false;
    }
    var found := FindReceipt(e.blocks[e.positions[number]].receipts, txIndex);
    return found.Some?;
  }

  /** The fetched blocks hold a receipt for every target. */
  ghost predicate Answers(fetched: seq<EvidenceBlock>, targets: map<nat, set<nat>>) {
    && (forall i :: 0 <= i < |fetched| ==> DistinctReceipts(fetched[i]))
    && (forall n, t :: Asks(targets, n, t) ==> Available(fetched, n, t))
  }

  /** All targets of all paths. */
  method MissingTargets(e: Extender, paths: seq<seq<SelectedHop>>) returns (targets: map<nat, set<nat>>)
    requires e.Valid()
    ensures forall n, t :: Asks(targets, n, t) <==>
      !Available(e.blocks, n, t) && exists p :: 0 <= p < |paths| && Wants(paths[p], n, t)
  {
    hide Available, Asks, Wants;
    targets := map[];
    NothingAsked();
    for p := 0 to |paths|
      invariant forall n, t :: Asks(targets, n, t) <==>
        !Available(e.blocks, n, t) && exists q :: 0 <= q < p && Wants(paths[q], n, t)
    {
      targets := AddTargets(e, targets, paths[p]);
    }
  }

  lemma NothingAsked()
    ensures forall n, t :: !Asks(map[], n, t)
  {
  }

  /** The whole expansion: exactly what is missing is fetched, and appended unless two headers conflict; then every
      receipt a path names is there, and the expansion succeeds exactly when every hop can be referenced. */
  method Expand(e: Extender, o: Oracle, paths: seq<seq<SelectedHop>>,
                fetch: map<nat, set<nat>> -> Result<seq<EvidenceBlock>>)
    returns (r: Result<seq<ReturnPath>>, targets: map<nat, set<nat>>)
    requires e.Valid()
    requires forall targets :: fetch(targets).Ok? ==> Answers(fetch(targets).value, targets)
    modifies e
    ensures e.Valid() && DistinctNumbers(e.blocks) && Grows(old(e.blocks), e.blocks)
    ensures forall n, t :: Asks(targets, n, t) <==>
      !Available(old(e.blocks), n, t) && exists p :: 0 <= p < |paths| && Wants(paths[p], n, t)
    ensures var fetched := fetch(targets);
      fetched.Ok? && HeadersAgree(old(e.blocks) + fetched.value) ==>
        && Extends(old(e.blocks), e.blocks, fetched.value)
        && forall p :: 0 <= p < |paths| ==> AllAvailable(e.blocks, paths[p])
    ensures r.Ok? <==>
      && fetch(targets).Ok? && HeadersAgree(old(e.blocks) + fetch(targets).value)
      && forall p :: 0 <= p < |paths| ==> PathReferable(ChainResolver(o, e.blocks), paths[p])
    ensures r.Ok? ==> |r.value| == |paths| && forall p :: 0 <= p < |paths| ==>
      PathDenotes(ChainResolver(o, e.blocks), r.value[p], paths[p])
  {
    hide Available, Denotes, Grows, Asks, PathDenotes, PathReferable, Wants, Extends, HeadersAgree, AllAvailable;
    GrowsSame(e.blocks);
    ghost var before := e.blocks;
    targets := MissingTargets(e, paths);
    var fetched := fetch(targets);
    if fetched.Err? {
      return Err(fetched.message), targets;
    }
    assert Answers(fetched.value, targets);
    var extended := e.Extend(fetched.value);
    if extended.Err? {
      return Err(extended.message), targets;
    }
    forall p | 0 <= p < |paths|
      ensures AllAvailable(e.blocks, paths[p])
    {
      NowAvailable(before, e.blocks, fetched.value, targets, paths[p]);
    }
    var referenced: seq<ReturnPath> := [];
    ghost var after := e.blocks;
    for p := 0 to |paths|
      invariant e.Valid() && e.blocks == after
      invariant |referenced| == p
      invariant forall q :: 0 <= q < p ==>
        PathDenotes(ChainResolver(o, after), referenced[q], paths[q]) &&
          PathReferable(ChainResolver(o, after), paths[q])
    {
      var path := ReferencePath(e, o, paths[p]);
      if path.Err? {
        return Err(path.message), targets;
      }
      referenced := referenced + [path.value];
    }
    return Ok(referenced), targets;
  }

  ghost predicate AllAvailable(blocks: seq<EvidenceBlock>, hops: seq<SelectedHop>) {
    forall k :: 0 <= k < |hops| ==> Available(blocks, hops[k].block, hops[k].transaction)
  }

  /** Every hop of the path can be referenced. */
  ghost predicate PathReferable(chain: ChainResolver, hops: seq<SelectedHop>) {
    forall k :: 0 <= k < |hops| ==> Referable(chain, hops[k])
  }

  lemma GrowsSame(x: seq<EvidenceBlock>)
    ensures Grows(x, x)
  {
  }

  /** What was asked for and fetched is there after the extension. */
  lemma NowAvailable(x: seq<EvidenceBlock>, y: seq<EvidenceBlock>, fetched: seq<EvidenceBlock>,
                     targets: map<nat, set<nat>>, hops: seq<SelectedHop>)
    requires Extends(x, y, fetched) && Answers(fetched, targets)
    requires forall n, t :: Wants(hops, n, t) && !Available(x, n, t) ==> Asks(targets, n, t)
    ensures AllAvailable(y, hops)
  {
    forall k | 0 <= k < |hops|
      ensures Available(y, hops[k].block, hops[k].transaction)
    {
      var (n, t) := (hops[k].block, hops[k].transaction);
      assert Wants(hops, n, t);
      if Available(x, n, t) {
        AvailableKept(x, y, n, t);
      } else {
        var i :| 0 <= i < |fetched| && fetched[i].header.number == n && HasReceipt(fetched[i], t);
        var j :| 0 <= j < |fetched[i].receipts| && fetched[i].receipts[j].txIndex == t;
      }
    }
  }

  // ── The recomputed credit ─────────────────────────────────────────────

  /** The report's own loop over one accepted path gives the credit the verifier gave it. */
  method RecomputeCredit(o: Oracle, input: ClosedLoopInput, path: ReturnPath) returns (r: Result<u128>)
    requires PathRow(o, input, path).Some?
    ensures r == Ok(PathRow(o, input, path).value.amount)
  {
    hide HopAt, SettleRows, HopHolds, ChainResolver.UsdcTransfer, Bottleneck;
    var minimum: u128 := U128_LIMIT - 1;
    ghost var hops := HopsOf(o, input, path);
    LoopBounds.PathIsWalk(hops, input.seller, input.funder, Earliest(SettleRows(o, input)));
    EmptyPath({});
    assert hops[..0] == [];
    for k := 0 to |path.transfers|
      invariant minimum == Bottleneck(hops[..k])
    {
      assert hops[k] == HopAt(o, input, path.transfers[k]);
      HopAmount(o, input, path.transfers[k]);
      TakeHop(hops, k, {});
      var t := Chain(o, input).UsdcTransfer(path.transfers[k]);
      minimum := Min(minimum, t.value.amount);
    }
    assert hops[..|hops|] == hops;
    return Ok(minimum);
  }

  lemma HopAmount(o: Oracle, input: ClosedLoopInput, r: LogRef)
    requires HopAt(o, input, r).Some?
    ensures Chain(o, input).UsdcTransfer(r).Ok?
    ensures Chain(o, input).UsdcTransfer(r).value.amount == HopAt(o, input, r).value.amount
  {
    hide ChainResolver.Key, ChainResolver.UsdcTransfer, ChainResolver.Timestamp;
  }

  /** Over all paths, the reported credit is the sum `verify_returns` compared with the volume, and it cannot
      overflow. */
  method RecomputeCredits(o: Oracle, input: ClosedLoopInput) returns (r: Result<u128>)
    requires LoopHolds(o, input)
    ensures r == Ok(Total(PathRows(o, input)))
    ensures r == Ok(SumBy(input.returnPaths, Conservation.Worth(o, input)))
  {
    hide PathRow, Booked, SumBy, FundRows, SettleRows, LedgersHold, FundsHold, SettlementsHold, Authentic, Consumed;
    ghost var rows := PathRows(o, input);
    BookedIff(rows, Consumed(FundRows(o, input)) + Consumed(SettleRows(o, input)));
    Conservation.ReturnTotal(o, input);
    var credit: u128 := 0;
    NothingBooked(rows[..0], {});
    for k := 0 to |input.returnPaths|
      invariant credit == Total(rows[..k])
    {
      assert rows[k] == PathRow(o, input, input.returnPaths[k]) && rows[k] in rows;
      CreditSnoc(rows, k);
      SumByPrefix(rows, AmountOf, k + 1);
      var minimum := RecomputeCredit(o, input, input.returnPaths[k]);
      var sum := CheckedAdd(credit, minimum.value);
      credit := sum.value;
    }
    assert rows[..|rows|] == rows;
    return Ok(credit);
  }

  lemma CreditSnoc(rows: Rows, k: nat)
    requires k < |rows|
    ensures Total(rows[..k + 1]) == Total(rows[..k]) + AmountOf(rows[k])
  {
    assert rows[..k + 1][..k] == rows[..k];
  }
}
