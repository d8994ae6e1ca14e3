/** The block-evidence cache: entries for other target sets of the same block are merged in place of a fetch. When
    the entries are true extracts of their block, a merge gives exactly what a direct fetch would. */
module Cache {
  import opened Prelude
  import opened Hashing

  const CACHE_VERSION: nat := 1

  datatype CachedBlock = CachedBlock(
    version: nat,
    blockNumber: nat,
    receiptTargets: seq<nat>,
    transactionTargets: seq<nat>,
    evidence: EvidenceBlock,
    logPositions: map<nat, nat>)

  /** Everything that can be proven about one block. */
  datatype FullBlock = FullBlock(receipts: map<nat, ReceiptProof>, transactions: map<nat, TransactionProof>,
                                 logPositions: map<nat, nat>)

  function ReceiptIndex(p: ReceiptProof): nat {
    p.txIndex
  }

  function TransactionIndex(p: TransactionProof): nat {
    p.txIndex
  }

  // ── Targets ───────────────────────────────────────────────────────────

  function Indexes(s: seq<nat>): set<nat> {
    set x | x in s
  }

  /** `canonical_targets`: sorted, without repetitions. */
  function CanonicalTargets(targets: seq<nat>): seq<nat> {
    Sorted(Indexes(targets))
  }

  lemma CanonicalOfIncreasing(s: seq<nat>)
    requires Increasing(s)
    ensures CanonicalTargets(s) == s && |Indexes(s)| == |s|
  {
    IncreasingUnique(Sorted(Indexes(s)), s);
  }

  // ── Direct fetch ──────────────────────────────────────────────────────

  ghost function Extract<P>(proofs: map<nat, P>, targets: seq<nat>): seq<P>
    requires forall t :: t in targets ==> t in proofs
  {
    seq(|targets|, i requires 0 <= i < |targets| => assert targets[i] in targets; proofs[targets[i]])
  }

  ghost predicate InRange(full: FullBlock, receiptTargets: seq<nat>, transactionTargets: seq<nat>) {
    && (forall t :: t in receiptTargets ==> t in full.receipts)
    && (forall t :: t in transactionTargets ==> t in full.transactions)
  }

  /** `block_evidence`: the proofs of the targets, in target order. */
  ghost function Direct(header: Header, full: FullBlock, receiptTargets: seq<nat>,
                        transactionTargets: seq<nat>): EvidenceBlock
    requires InRange(full, receiptTargets, transactionTargets)
  {
    EvidenceBlock(header, Extract(full.receipts, receiptTargets), Extract(full.transactions, transactionTargets))
  }

  // ── Merging ───────────────────────────────────────────────────────────

  predicate Usable(e: CachedBlock, number: nat) {
    e.version == CACHE_VERSION && e.blockNumber == number && e.evidence.header.number == number
  }

  /** The indexes of the proofs that are targets. */
  ghost function Wanted<P>(proofs: seq<P>, index: P -> nat, targets: seq<nat>): set<nat> {
    set p | p in proofs && index(p) in targets :: index(p)
  }

  /** `or_insert` of the wanted proofs: earlier ones stay. */
  method MergeProofs<P>(m: map<nat, P>, proofs: seq<P>, index: P -> nat, targets: seq<nat>) returns (out: map<nat, P>)
    ensures Merged(m, out, proofs, index, Wanted(proofs, index, targets))
  {
    out := m;
    for i := 0 to |proofs|
      invariant out.Keys == m.Keys + (set p | p in proofs[..i] && index(p) in targets :: index(p))
      invariant forall k :: k in m ==> k in out && out[k] == m[k]
      invariant forall k :: k in out && k !in m ==> out[k] in proofs && index(out[k]) == k
    {
      var p := proofs[i];
      assert proofs[..i + 1] == proofs[..i] + [p];
      if index(p) in targets && index(p) !in out {
        out := out[index(p) := p];
      }
    }
    assert proofs[..|proofs|] == proofs;
  }

  /** `into_values` of an ordered map. */
  function Values<P>(m: map<nat, P>): seq<P> {
    var keys := Sorted(m.Keys);
    seq(|keys|, i requires 0 <= i < |keys| => assert keys[i] in keys; m[keys[i]])
  }

  /** An entry that was cut out of its block. */
  ghost predicate Projects(chain: Header -> FullBlock, e: CachedBlock) {
    var full := chain(e.evidence.header);
    && (forall p :: p in e.evidence.receipts ==> p.txIndex in full.receipts && full.receipts[p.txIndex] == p)
    && (forall p :: p in e.evidence.transactions ==>
      p.txIndex in full.transactions && full.transactions[p.txIndex] == p)
    && (e.evidence.receipts != [] ==> e.logPositions == full.logPositions)
    && (e.logPositions == map[] || e.logPositions == full.logPositions)
  }

  ghost predicate AllProject(chain: Header -> FullBlock, files: seq<Option<CachedBlock>>, number: nat) {
    forall f :: f in files && f.Some? && Usable(f.value, number) ==> Projects(chain, f.value)
  }

  /** The header the merge settles on: that of the first usable entry. */
  function ChosenHeader(files: seq<Option<CachedBlock>>, number: nat): Option<Header> {
    if files == [] then None
    else
      var before := ChosenHeader(files[..|files| - 1], number);
      var last := files[|files| - 1];
      if before.Some? then before
      else if last.Some? && Usable(last.value, number) then Some(last.value.evidence.header)
      else None
  }

  /** An entry that takes part: usable and of the chosen block. */
  predicate TakesPart(f: Option<CachedBlock>, number: nat, header: Option<Header>) {
    f.Some? && Usable(f.value, number) && header == Some(f.value.evidence.header)
  }

  ghost function CoveredReceipts(files: seq<Option<CachedBlock>>, number: nat, header: Option<Header>,
                                 targets: seq<nat>): set<nat> {
    set f, p | f in files && TakesPart(f, number, header) && p in f.value.evidence.receipts &&
      p.txIndex in targets :: p.txIndex
  }

  ghost function CoveredTransactions(files: seq<Option<CachedBlock>>, number: nat, header: Option<Header>,
                                     targets: seq<nat>): set<nat> {
    set f, p | f in files && TakesPart(f, number, header) && p in f.value.evidence.transactions &&
      p.txIndex in targets :: p.txIndex
  }

  /** The entries of the chosen block together hold every target. */
  ghost predicate Covers(files: seq<Option<CachedBlock>>, number: nat, receiptTargets: seq<nat>,
                         transactionTargets: seq<nat>) {
    var header := ChosenHeader(files, number);
    && header.Some?
    && CoveredReceipts(files, number, header, receiptTargets) == Indexes(receiptTargets)
    && CoveredTransactions(files, number, header, transactionTargets) == Indexes(transactionTargets)
  }

  /** Some entry that takes part carries log positions. */
  ghost predicate Carries(files: seq<Option<CachedBlock>>, number: nat, header: Option<Header>) {
    exists f :: f in files && TakesPart(f, number, header) && f.value.logPositions != map[]
  }

  /** After the first `n` files, and not before, the targets are covered: this is where a merge stops reading. */
  ghost predicate FirstCovers(files: seq<Option<CachedBlock>>, n: nat, number: nat, receiptTargets: seq<nat>,
                              transactionTargets: seq<nat>) {
    && 1 <= n <= |files| && Covers(files[..n], number, receiptTargets, transactionTargets)
    && !Covers(files[..n - 1], number, receiptTargets, transactionTargets)
  }

  /** Log positions are picked up before a merge stops reading. */
  ghost predicate MergeCarries(files: seq<Option<CachedBlock>>, number: nat, receiptTargets: seq<nat>,
                               transactionTargets: seq<nat>) {
    exists n: nat :: FirstCovers(files, n, number, receiptTargets, transactionTargets)
      && Carries(files[..n], number, ChosenHeader(files[..n], number))
  }

  /** Every entry of one map is the entry of the other. */
  ghost predicate Agrees<P>(m: map<nat, P>, full: map<nat, P>) {
    forall k :: k in m ==> k in full && m[k] == full[k]
  }

  datatype Partial = Partial(
    header: Option<Header>, receipts: map<nat, ReceiptProof>, transactions: map<nat, TransactionProof>,
      logPositions: map<nat, nat>)

  /** What has been gathered from the files so far. */
  ghost predicate Gathered(s: Partial, chain: Header -> FullBlock, files: seq<Option<CachedBlock>>, number: nat,
                           receiptTargets: seq<nat>, transactionTargets: seq<nat>) {
    && s.header == ChosenHeader(files, number)
    && s.receipts.Keys == CoveredReceipts(files, number, s.header, receiptTargets)
    && s.transactions.Keys == CoveredTransactions(files, number, s.header, transactionTargets)
    && (s.header.None? ==> s.logPositions == map[])
    && (s.logPositions != map[] <==> Carries(files, number, s.header))
    && (s.header.Some? ==>
          var full := chain(s.header.value);
          && s.header.value.number == number
          && Agrees(s.receipts, full.receipts) && Agrees(s.transactions, full.transactions)
          && (s.receipts.Keys != {} ==> s.logPositions == full.logPositions)
          && (s.logPositions == map[] || s.logPositions == full.logPositions))
  }

  lemma NothingGathered(chain: Header -> FullBlock, number: nat, receiptTargets: seq<nat>, transactionTargets: seq<nat>)
    ensures Gathered(Partial(None, map[], map[], map[]), chain, [], number, receiptTargets, transactionTargets)
    ensures !Covers([], number, receiptTargets, transactionTargets)
  {
  }

  /** A file that takes no part changes nothing. */
  lemma SkipFile(s: Partial, chain: Header -> FullBlock, before: seq<Option<CachedBlock>>, f: Option<CachedBlock>,
                 number: nat, receiptTargets: seq<nat>, transactionTargets: seq<nat>)
    requires Gathered(s, chain, before, number, receiptTargets, transactionTargets)
    requires !(f.Some? && Usable(f.value, number)) || (s.header.Some? && s.header != Some(f.value.evidence.header))
    ensures Gathered(s, chain, before + [f], number, receiptTargets, transactionTargets)
  {
    var after := before + [f];
    assert after[..|after| - 1] == before;
    assert forall g :: g in after <==> g in before || g == f;
    assert CoveredReceipts(after, number, s.header, receiptTargets) ==
      CoveredReceipts(before, number, s.header, receiptTargets);
    assert CoveredTransactions(after, number, s.header, transactionTargets) ==
      CoveredTransactions(before, number, s.header, transactionTargets);
    assert Carries(after, number, s.header) <==> Carries(before, number, s.header);
  }

  lemma ChosenGrows(before: seq<Option<CachedBlock>>, f: Option<CachedBlock>, number: nat)
    requires f.Some? && Usable(f.value, number)
    requires ChosenHeader(before, number).None? || ChosenHeader(before, number) == Some(f.value.evidence.header)
    ensures ChosenHeader(before + [f], number) == Some(f.value.evidence.header)
    ensures ChosenHeader(before, number).None? ==> forall g :: g in before ==>
      !TakesPart(g, number, Some(f.value.evidence.header))
  {
    var after := before + [f];
    assert after[..|after| - 1] == before;
    if ChosenHeader(before, number).None? {
      NoneUsable(before, number);
    }
  }

  lemma CoveredGrows(before: seq<Option<CachedBlock>>, f: Option<CachedBlock>, number: nat, chosen: Option<Header>,
                     receiptTargets: seq<nat>, transactionTargets: seq<nat>)
    requires f.Some? && Usable(f.value, number) && (chosen.None? || chosen == Some(f.value.evidence.header))
    requires chosen == ChosenHeader(before, number)
    ensures var h := Some(f.value.evidence.header);
      && ChosenHeader(before + [f], number) == h
      && CoveredReceipts(before + [f], number, h, receiptTargets) ==
        CoveredReceipts(before, number, chosen, receiptTargets)
           + Wanted(f.value.evidence.receipts, ReceiptIndex, receiptTargets)
      && CoveredTransactions(before + [f], number, h, transactionTargets) ==
        CoveredTransactions(before, number, chosen, transactionTargets)
           + Wanted(f.value.evidence.transactions, TransactionIndex, transactionTargets)
      && (Carries(before + [f], number, h) <==> Carries(before, number, chosen) || f.value.logPositions != map[])
  {
    ChosenGrows(before, f, number);
    hide ChosenHeader, Usable;
    assert forall g :: g in before + [f] <==> g in before || g == f;
  }

  lemma {:induction false} NoneUsable(files: seq<Option<CachedBlock>>, number: nat)
    requires ChosenHeader(files, number).None?
    ensures forall f :: f in files && f.Some? ==> !Usable(f.value, number)
  {
    if files != [] {
      NoneUsable(files[..|files| - 1], number);
      assert files == files[..|files| - 1] + [files[|files| - 1]];
    }
  }

  /** Proofs added by a merge. */
  ghost predicate Merged<P>(m: map<nat, P>, out: map<nat, P>, proofs: seq<P>, index: P -> nat, wanted: set<nat>) {
    && out.Keys == m.Keys + wanted
    && (forall k :: k in m ==> out[k] == m[k])
    && (forall k :: k in out && k !in m ==> out[k] in proofs && index(out[k]) == k)
  }

  lemma MergedAgrees<P>(m: map<nat, P>, out: map<nat, P>, proofs: seq<P>, index: P -> nat, wanted: set<nat>,
                        full: map<nat, P>)
    requires Merged(m, out, proofs, index, wanted)
    requires Agrees(m, full) && forall p :: p in proofs ==> index(p) in full && full[index(p)] == p
    ensures Agrees(out, full)
  {
  }

  /** A usable file of the chosen block adds its wanted proofs. */
  lemma TakeFile(s: Partial, s': Partial, chain: Header -> FullBlock, before: seq<Option<CachedBlock>>, e: CachedBlock,
                 number: nat, receiptTargets: seq<nat>, transactionTargets: seq<nat>)
    requires Gathered(s, chain, before, number, receiptTargets, transactionTargets)
    requires Usable(e, number) && Projects(chain, e) && (s.header.None? || s.header == Some(e.evidence.header))
    requires s'.header == Some(e.evidence.header) && s'.logPositions == s.logPositions + e.logPositions
    requires Merged(s.receipts, s'.receipts, e.evidence.receipts, ReceiptIndex,
      Wanted(e.evidence.receipts, ReceiptIndex, receiptTargets))
    requires Merged(s.transactions, s'.transactions, e.evidence.transactions, TransactionIndex,
      Wanted(e.evidence.transactions, TransactionIndex, transactionTargets))
    ensures Gathered(s', chain, before + [Some(e)], number, receiptTargets, transactionTargets)
  {
    hide CoveredReceipts, CoveredTransactions, ChosenHeader, Projects, Merged, Agrees, Carries;
    var full := chain(e.evidence.header);
    CoveredGrows(before, Some(e), number, s.header, receiptTargets, transactionTargets);
    SoFar(s, chain, before, e, number, receiptTargets, transactionTargets);
    ProjectedParts(s, s', chain, e, receiptTargets, transactionTargets);
  }

  lemma ProjectedParts(s: Partial, s': Partial, chain: Header -> FullBlock, e: CachedBlock, receiptTargets: seq<nat>,
                       transactionTargets: seq<nat>)
    requires Projects(chain, e) && s'.logPositions == s.logPositions + e.logPositions
    requires Merged(s.receipts, s'.receipts, e.evidence.receipts, ReceiptIndex,
      Wanted(e.evidence.receipts, ReceiptIndex, receiptTargets))
    requires Merged(s.transactions, s'.transactions, e.evidence.transactions, TransactionIndex,
      Wanted(e.evidence.transactions, TransactionIndex, transactionTargets))
    requires var full := chain(e.evidence.header);
      && Agrees(s.receipts, full.receipts) && Agrees(s.transactions, full.transactions)
      && (s.receipts.Keys != {} ==> s.logPositions == full.logPositions)
      && (s.logPositions == map[] || s.logPositions == full.logPositions)
    ensures var full := chain(e.evidence.header);
      && s'.receipts.Keys == s.receipts.Keys + Wanted(e.evidence.receipts, ReceiptIndex, receiptTargets)
      && s'.transactions.Keys == s.transactions.Keys +
        Wanted(e.evidence.transactions, TransactionIndex, transactionTargets)
      && Agrees(s'.receipts, full.receipts) && Agrees(s'.transactions, full.transactions)
      && (s'.receipts.Keys != {} ==> s'.logPositions == full.logPositions)
      && (s'.logPositions == map[] || s'.logPositions == full.logPositions)
  {
    var full := chain(e.evidence.header);
    MergedAgrees(s.receipts, s'.receipts, e.evidence.receipts, ReceiptIndex,
      Wanted(e.evidence.receipts, ReceiptIndex, receiptTargets), full.receipts);
    MergedAgrees(s.transactions, s'.transactions, e.evidence.transactions, TransactionIndex,
      Wanted(e.evidence.transactions, TransactionIndex, transactionTargets), full.transactions);
    hide Agrees;
    assert map[] + full.logPositions == full.logPositions && full.logPositions + full.logPositions == full.logPositions;
    assert s.logPositions + map[] == s.logPositions;
    if Wanted(e.evidence.receipts, ReceiptIndex, receiptTargets) != {} {
      assert e.evidence.receipts != [];
    }
  }

  lemma SoFar(s: Partial, chain: Header -> FullBlock, before: seq<Option<CachedBlock>>, e: CachedBlock, number: nat,
              receiptTargets: seq<nat>, transactionTargets: seq<nat>)
    requires Gathered(s, chain, before, number, receiptTargets, transactionTargets)
    requires s.header.None? || s.header == Some(e.evidence.header)
    ensures var full := chain(e.evidence.header);
      && Agrees(s.receipts, full.receipts) && Agrees(s.transactions, full.transactions)
      && (s.receipts.Keys != {} ==> s.logPositions == full.logPositions)
      && (s.logPositions == map[] || s.logPositions == full.logPositions)
  {
    if s.header.None? {
      NoneUsable(before, number);
      assert s.receipts.Keys == {} && s.transactions.Keys == {};
    }
  }

  /** A finished gathering is the direct extract. */
  lemma GatheredIsDirect(s: Partial, chain: Header -> FullBlock, files: seq<Option<CachedBlock>>, number: nat,
                         receiptTargets: seq<nat>, transactionTargets: seq<nat>)
    requires Increasing(receiptTargets) && Increasing(transactionTargets)
    requires Gathered(s, chain, files, number, receiptTargets, transactionTargets) && s.header.Some?
    ensures |s.receipts| == |receiptTargets| && |s.transactions| == |transactionTargets|
      <==> s.receipts.Keys == Indexes(receiptTargets) && s.transactions.Keys == Indexes(transactionTargets)
    ensures |s.receipts| == |receiptTargets| && |s.transactions| == |transactionTargets| ==>
      && InRange(chain(s.header.value), receiptTargets, transactionTargets)
      && EvidenceBlock(s.header.value, Values(s.receipts), Values(s.transactions))
           == Direct(s.header.value, chain(s.header.value), receiptTargets, transactionTargets)
  {
    hide ChosenHeader, Sorted, Values, Extract;
    CanonicalOfIncreasing(receiptTargets);
    CanonicalOfIncreasing(transactionTargets);
    SubsetOfSameSize(s.receipts.Keys, Indexes(receiptTargets));
    SubsetOfSameSize(s.transactions.Keys, Indexes(transactionTargets));
    if |s.receipts| == |receiptTargets| && |s.transactions| == |transactionTargets| {
      ValuesAreExtract(s.receipts, chain(s.header.value).receipts, receiptTargets);
      ValuesAreExtract(s.transactions, chain(s.header.value).transactions, transactionTargets);
    }
  }

  lemma ValuesAreExtract<P>(m: map<nat, P>, full: map<nat, P>, targets: seq<nat>)
    requires Increasing(targets) && m.Keys == Indexes(targets) && Agrees(m, full)
    ensures forall t :: t in targets ==> t in full
    ensures Values(m) == Extract(full, targets)
  {
    CanonicalOfIncreasing(targets);
    forall t | t in targets
      ensures t in m
    {
      assert t in Indexes(targets);
    }
  }

  lemma {:induction false} SubsetOfSameSize(a: set<nat>, b: set<nat>)
    requires a <= b
    ensures |a| <= |b|
    ensures |a| == |b| <==> a == b
  {
    if a == {} {
      assert |b| == 0 <==> b == {};
    } else {
      var x :| x in a;
      SubsetOfSameSize(a - {x}, b - {x});
      assert a - {x} == b - {x} ==> a == b;
    }
  }

  /** Coverage, once reached, stays: more files only add. */
  lemma CoverageKept(files: seq<Option<CachedBlock>>, n: nat, number: nat, receiptTargets: seq<nat>,
                     transactionTargets: seq<nat>)
    requires n <= |files| && Covers(files[..n], number, receiptTargets, transactionTargets)
    ensures Covers(files, number, receiptTargets, transactionTargets)
  {
    ChosenKept(files, n, number);
    var header := ChosenHeader(files[..n], number);
    assert forall f :: f in files[..n] ==> f in files;
    assert CoveredReceipts(files[..n], number, header, receiptTargets) <=
      CoveredReceipts(files, number, header, receiptTargets);
    assert CoveredTransactions(files[..n], number, header, transactionTargets) <=
      CoveredTransactions(files, number, header, transactionTargets);
    assert CoveredReceipts(files, number, header, receiptTargets) <= Indexes(receiptTargets);
    assert CoveredTransactions(files, number, header, transactionTargets) <= Indexes(transactionTargets);
  }

  lemma {:induction false} ChosenKept(files: seq<Option<CachedBlock>>, n: nat, number: nat)
    requires n <= |files| && ChosenHeader(files[..n], number).Some?
    ensures ChosenHeader(files, number) == ChosenHeader(files[..n], number)
    decreases |files|
  {
    if n == |files| {
      assert files[..n] == files;
    } else {
      var init := files[..|files| - 1];
      assert init[..n] == files[..n];
      ChosenKept(init, n, number);
    }
  }

  /** There is one point where the targets are first covered. */
  lemma CarriesWhenCovered(files: seq<Option<CachedBlock>>, n: nat, number: nat, receiptTargets: seq<nat>,
                           transactionTargets: seq<nat>)
    requires FirstCovers(files, n, number, receiptTargets, transactionTargets)
    ensures MergeCarries(files, number, receiptTargets, transactionTargets)
      <==> Carries(files[..n], number, ChosenHeader(files[..n], number))
  {
    hide Covers, Carries, ChosenHeader;
    forall m: nat | FirstCovers(files, m, number, receiptTargets, transactionTargets)
      ensures m == n
    {
      if m < n {
        assert files[..n - 1][..m] == files[..m];
        CoverageKept(files[..n - 1], m, number, receiptTargets, transactionTargets);
      } else if n < m {
        assert files[..m - 1][..n] == files[..n];
        CoverageKept(files[..m - 1], n, number, receiptTargets, transactionTargets);
      }
    }
  }

  /** What a merge of `files` for the targets of `k` gives: one block's direct evidence. Its log positions are those
      of a direct fetch if and only if receipts were asked for, or none were picked up before the targets were
      covered. */
  ghost predicate MergesTo(chain: Header -> FullBlock, files: seq<Option<CachedBlock>>, k: Key, e: CachedBlock) {
    && e == CachedBlock(CACHE_VERSION, k.number, k.receiptTargets, k.transactionTargets, e.evidence, e.logPositions)
    && ChosenHeader(files, k.number) == Some(e.evidence.header)
    && IsExtract(chain, k, Fetched(e.evidence, e.logPositions))
    && (IsDirect(chain, k, Fetched(e.evidence, e.logPositions)) <==>
          k.receiptTargets != [] || !MergeCarries(files, k.number, k.receiptTargets, k.transactionTargets))
  }

  /** `merge_cached_block_evidence` on canonical targets: it succeeds exactly when the entries of the chosen block
      cover the targets, and then returns, from that one block hash, the very receipts and transactions a direct
      fetch of it would return. */
  method MergeCachedBlockEvidence(ghost chain: Header -> FullBlock, files: seq<Option<CachedBlock>>, number: nat,
                                  receiptTargets: seq<nat>, transactionTargets: seq<nat>)
    returns (r: Option<CachedBlock>)
    requires Increasing(receiptTargets) && Increasing(transactionTargets)
    requires AllProject(chain, files, number)
    ensures r.Some? <==> Covers(files, number, receiptTargets, transactionTargets)
    ensures r.Some? <==> ServedTogether(files, number, receiptTargets, transactionTargets)
    ensures r.Some? ==> MergesTo(chain, files, Key(number, receiptTargets, transactionTargets), r.value)
  {
    hide Gathered, Covers, Projects, Values, Direct, Extract, ChosenHeader, Increasing, Wanted, MergesTo,
      ServedTogether, Merged, Finished, Usable, AllProject;
    CoversIff(files, number, receiptTargets, transactionTargets);
    var k := Key(number, receiptTargets, transactionTargets);
    var s := Partial(None, map[], map[], map[]);
    NothingGathered(chain, number, receiptTargets, transactionTargets);
    assert files[..0] == [];
    for i := 0 to |files|
      invariant Gathered(s, chain, files[..i], number, receiptTargets, transactionTargets)
      invariant !Covers(files[..i], number, receiptTargets, transactionTargets)
    {
      assert files[..i + 1] == files[..i] + [files[i]];
      if files[i].None? || !Usable(files[i].value, number)
         || (s.header.Some? && HeaderHash(s.header.value) != HeaderHash(files[i].value.evidence.header)) {
        SkipFile(s, chain, files[..i], files[i], number, receiptTargets, transactionTargets);
        StillUncovered(s, chain, files, i, number, receiptTargets, transactionTargets);
        continue;
      }
      var e := files[i].value;
      ProjectsAt(chain, files, number, i);
      var receipts := MergeProofs(s.receipts, e.evidence.receipts, ReceiptIndex, receiptTargets);
      var transactions := MergeProofs(s.transactions, e.evidence.transactions, TransactionIndex, transactionTargets);
      var header := if s.header.Some? then s.header.value else e.evidence.header;
      var next := Partial(Some(header), receipts, transactions, s.logPositions + e.logPositions);
      TakeFile(s, next, chain, files[..i], e, number, receiptTargets, transactionTargets);
      s := next;
      GatheredCovers(s, chain, files[..i + 1], number, receiptTargets, transactionTargets);
      if |s.receipts| == |receiptTargets| && |s.transactions| == |transactionTargets| {
        CoverageKept(files, i + 1, number, receiptTargets, transactionTargets);
        MergeIsDone(s, chain, files, i + 1, k);
        return Some(Finished(s, k));
      }
    }
    assert files[..|files|] == files;
    return None;
  }

  lemma ProjectsAt(chain: Header -> FullBlock, files: seq<Option<CachedBlock>>, number: nat, i: nat)
    requires i < |files| && files[i].Some? && Usable(files[i].value, number) && AllProject(chain, files, number)
    ensures Projects(chain, files[i].value)
  {
    hide Projects;
    assert files[i] in files;
  }

  /** The targets are covered exactly when as many proofs were gathered as were asked for. */
  lemma GatheredCovers(s: Partial, chain: Header -> FullBlock, files: seq<Option<CachedBlock>>, number: nat,
                       receiptTargets: seq<nat>, transactionTargets: seq<nat>)
    requires Increasing(receiptTargets) && Increasing(transactionTargets)
    requires Gathered(s, chain, files, number, receiptTargets, transactionTargets) && s.header.Some?
    ensures Covers(files, number, receiptTargets, transactionTargets)
      <==> |s.receipts| == |receiptTargets| && |s.transactions| == |transactionTargets|
  {
    hide ChosenHeader, Values, Extract, Carries, Agrees;
    GatheredIsDirect(s, chain, files, number, receiptTargets, transactionTargets);
  }

  /** The cache entry made of what was gathered. */
  function Finished(s: Partial, k: Key): CachedBlock
    requires s.header.Some?
  {
    CachedBlock(
      CACHE_VERSION, k.number, k.receiptTargets, k.transactionTargets,
      EvidenceBlock(s.header.value, Values(s.receipts), Values(s.transactions)), s.logPositions)
  }

  lemma MergeIsDone(s: Partial, chain: Header -> FullBlock, files: seq<Option<CachedBlock>>, n: nat, k: Key)
    requires Canonical(k) && FirstCovers(files, n, k.number, k.receiptTargets, k.transactionTargets)
    requires Gathered(s, chain, files[..n], k.number, k.receiptTargets, k.transactionTargets) && s.header.Some?
    requires |s.receipts| == |k.receiptTargets| && |s.transactions| == |k.transactionTargets|
    ensures MergesTo(chain, files, k, Finished(s, k))
  {
    hide ChosenHeader, Values, Extract, Carries, Agrees, MergeCarries, Direct;
    ChosenKept(files, n, k.number);
    CarriesWhenCovered(files, n, k.number, k.receiptTargets, k.transactionTargets);
    GatheredIsDirect(s, chain, files[..n], k.number, k.receiptTargets, k.transactionTargets);
    PositionsGathered(s, chain, files[..n], k);
  }

  lemma PositionsGathered(s: Partial, chain: Header -> FullBlock, files: seq<Option<CachedBlock>>, k: Key)
    requires Gathered(s, chain, files, k.number, k.receiptTargets, k.transactionTargets) && s.header.Some?
    ensures k.receiptTargets != [] && s.receipts.Keys == Indexes(k.receiptTargets) ==>
      s.logPositions == chain(s.header.value).logPositions
    ensures s.logPositions == map[] || s.logPositions == chain(s.header.value).logPositions
    ensures s.logPositions != map[] <==> Carries(files, k.number, ChosenHeader(files, k.number))
  {
    if k.receiptTargets != [] {
      assert k.receiptTargets[0] in Indexes(k.receiptTargets);
    }
  }

  lemma StillUncovered(s: Partial, chain: Header -> FullBlock, files: seq<Option<CachedBlock>>, i: nat, number: nat,
                       receiptTargets: seq<nat>, transactionTargets: seq<nat>)
    requires i < |files| && !Covers(files[..i], number, receiptTargets, transactionTargets)
    requires Gathered(s, chain, files[..i], number, receiptTargets, transactionTargets)
    requires Gathered(s, chain, files[..i + 1], number, receiptTargets, transactionTargets)
    ensures !Covers(files[..i + 1], number, receiptTargets, transactionTargets)
  {
  }

  /** A merge that stops early is the merge of all the files. */
  lemma MergeOfMore(chain: Header -> FullBlock, files: seq<Option<CachedBlock>>, n: nat, k: Key, e: CachedBlock)
    requires FirstCovers(files, n, k.number, k.receiptTargets, k.transactionTargets)
    requires MergesTo(chain, files[..n], k, e)
    ensures MergesTo(chain, files, k, e) && Covers(files, k.number, k.receiptTargets, k.transactionTargets)
  {
    hide ChosenHeader, Covers, Carries, IsExtract, IsDirect, MergeCarries;
    var start := files[..n];
    assert start[..n] == start && start[..n - 1] == files[..n - 1];
    ChosenOfCovers(start, k);
    ChosenKept(files, n, k.number);
    CarriesWhenCovered(files, n, k.number, k.receiptTargets, k.transactionTargets);
    CarriesWhenCovered(start, n, k.number, k.receiptTargets, k.transactionTargets);
    CoverageKept(files, n, k.number, k.receiptTargets, k.transactionTargets);
  }

  lemma ChosenOfCovers(files: seq<Option<CachedBlock>>, k: Key)
    requires Covers(files, k.number, k.receiptTargets, k.transactionTargets)
    ensures ChosenHeader(files, k.number).Some?
  {
  }

  // ── Files, spelled out ────────────────────────────────────────────────

  /** A readable file of version 1 for block `number`, whose header says so too. */
  predicate Current(f: Option<CachedBlock>, number: nat) {
    f.Some? && f.value.version == 1 && f.value.blockNumber == number && f.value.evidence.header.number == number
  }

  /** The first such file: its header decides the block. */
  ghost predicate Leads(files: seq<Option<CachedBlock>>, i: nat, number: nat) {
    i < |files| && Current(files[i], number) && forall j :: 0 <= j < i ==> !Current(files[j], number)
  }

  ghost predicate Serves(f: Option<CachedBlock>, number: nat, header: Header) {
    Current(f, number) && f.value.evidence.header == header
  }

  ghost predicate ServesReceipt(files: seq<Option<CachedBlock>>, number: nat, header: Header, p: ReceiptProof) {
    exists f :: f in files && Serves(f, number, header) && p in f.value.evidence.receipts
  }

  ghost predicate ServesTransaction(files: seq<Option<CachedBlock>>, number: nat, header: Header, p: TransactionProof) {
    exists f :: f in files && Serves(f, number, header) && p in f.value.evidence.transactions
  }

  /** Files of one block hash, that of the first, together hold a proof for every target. */
  ghost predicate Together(files: seq<Option<CachedBlock>>, number: nat, header: Header, receiptTargets: seq<nat>,
                           transactionTargets: seq<nat>) {
    && (forall t :: t in receiptTargets ==>
          exists p: ReceiptProof :: p.txIndex == t && ServesReceipt(files, number, header, p))
    && (forall t :: t in transactionTargets ==>
          exists p: TransactionProof :: p.txIndex == t && ServesTransaction(files, number, header, p))
  }

  ghost predicate ServedTogether(files: seq<Option<CachedBlock>>, number: nat, receiptTargets: seq<nat>,
                                 transactionTargets: seq<nat>) {
    exists i: nat ::
      && Leads(files, i, number)
      && Together(files, number, files[i].value.evidence.header, receiptTargets, transactionTargets)
  }

  lemma {:induction false} LeadIsChosen(files: seq<Option<CachedBlock>>, number: nat)
    ensures forall i: nat :: Leads(files, i, number) ==>
      ChosenHeader(files, number) == Some(files[i].value.evidence.header)
    ensures ChosenHeader(files, number).Some? ==> exists i: nat :: Leads(files, i, number)
  {
    if files != [] {
      var init, n := files[..|files| - 1], |files| - 1;
      LeadIsChosen(init, number);
      if ChosenHeader(init, number).Some? {
        var j: nat :| Leads(init, j, number);
        assert Leads(files, j, number);
        assert forall i: nat :: Leads(files, i, number) ==> i == j;
      } else {
        NoneUsable(init, number);
        forall m | 0 <= m < n
          ensures !Current(files[m], number)
        {
          assert init[m] in init;
        }
        assert ChosenHeader(files, number).Some? ==> Leads(files, n, number);
      }
    }
  }

  /** Coverage in terms of the files alone. */
  lemma CoversIff(files: seq<Option<CachedBlock>>, number: nat, receiptTargets: seq<nat>, transactionTargets: seq<nat>)
    ensures Covers(files, number, receiptTargets, transactionTargets)
      <==> ServedTogether(files, number, receiptTargets, transactionTargets)
  {
    hide ChosenHeader, Leads, Together;
    LeadIsChosen(files, number);
    var chosen := ChosenHeader(files, number);
    if chosen.Some? {
      TogetherIff(files, number, chosen.value, receiptTargets, transactionTargets);
      var i: nat :| Leads(files, i, number);
      LeadHas(files, i, number);
      if Together(files, number, chosen.value, receiptTargets, transactionTargets) {
        assert Leads(files, i, number) &&
          Together(files, number, files[i].value.evidence.header, receiptTargets, transactionTargets);
      }
    }
  }

  lemma LeadHas(files: seq<Option<CachedBlock>>, i: nat, number: nat)
    requires Leads(files, i, number)
    ensures i < |files| && files[i].Some?
  {
  }

  lemma TogetherIff(files: seq<Option<CachedBlock>>, number: nat, header: Header, receiptTargets: seq<nat>,
                    transactionTargets: seq<nat>)
    ensures Together(files, number, header, receiptTargets, transactionTargets) <==>
      && CoveredReceipts(files, number, Some(header), receiptTargets) == Indexes(receiptTargets)
      && CoveredTransactions(files, number, Some(header), transactionTargets) == Indexes(transactionTargets)
  {
    var receipts := CoveredReceipts(files, number, Some(header), receiptTargets);
    var transactions := CoveredTransactions(files, number, Some(header), transactionTargets);
    assert forall f :: TakesPart(f, number, Some(header)) <==> Serves(f, number, header);
    forall t
      ensures t in receipts <==>
        t in receiptTargets && exists p: ReceiptProof :: p.txIndex == t && ServesReceipt(files, number, header, p)
    {
      if t in receiptTargets {
        if p: ReceiptProof :| p.txIndex == t && ServesReceipt(files, number, header, p) {
          var f :| f in files && Serves(f, number, header) && p in f.value.evidence.receipts;
          assert TakesPart(f, number, Some(header));
        }
      }
    }
    forall t
      ensures t in transactions <==>
        && t in transactionTargets
        && exists p: TransactionProof :: p.txIndex == t && ServesTransaction(files, number, header, p)
    {
      if t in transactionTargets {
        if p: TransactionProof :| p.txIndex == t && ServesTransaction(files, number, header, p) {
          var f :| f in files && Serves(f, number, header) && p in f.value.evidence.transactions;
          assert TakesPart(f, number, Some(header));
        }
      }
    }
  }

  /** Where the proofs of a merge come from: each was in a current file with the header of the first one, and there is
      one for each target, in target order. */
  lemma MergedFromFiles(chain: Header -> FullBlock, files: seq<Option<CachedBlock>>, k: Key, e: CachedBlock)
    requires AllProject(chain, files, k.number) && WellIndexed(chain(e.evidence.header))
    requires MergesTo(chain, files, k, e) && Covers(files, k.number, k.receiptTargets, k.transactionTargets)
    ensures e.version == 1 && e.blockNumber == e.evidence.header.number == k.number
    ensures e.receiptTargets == k.receiptTargets && e.transactionTargets == k.transactionTargets
    ensures exists i: nat :: Leads(files, i, k.number) && files[i].value.evidence.header == e.evidence.header
    ensures Map(ReceiptIndex, e.evidence.receipts) == k.receiptTargets
    ensures Map(TransactionIndex, e.evidence.transactions) == k.transactionTargets
    ensures forall p :: p in e.evidence.receipts ==> ServesReceipt(files, k.number, e.evidence.header, p)
    ensures forall p :: p in e.evidence.transactions ==> ServesTransaction(files, k.number, e.evidence.header, p)
  {
    hide ChosenHeader, Projects, WellIndexed, MergeCarries, Together, Covers, AllProject;
    LeadIsChosen(files, k.number);
    CoversIff(files, k.number, k.receiptTargets, k.transactionTargets);
    var i: nat :| Leads(files, i, k.number)
      && Together(files, k.number, files[i].value.evidence.header, k.receiptTargets, k.transactionTargets);
    DirectIndexes(chain(e.evidence.header), k);
    DirectServed(chain, files, e.evidence.header, k);
  }

  lemma DirectIndexes(full: FullBlock, k: Key)
    requires WellIndexed(full) && InRange(full, k.receiptTargets, k.transactionTargets)
    ensures Map(ReceiptIndex, Extract(full.receipts, k.receiptTargets)) == k.receiptTargets
    ensures Map(TransactionIndex, Extract(full.transactions, k.transactionTargets)) == k.transactionTargets
  {
    assert forall t :: t in k.receiptTargets ==> full.receipts[t].txIndex == t;
    assert forall t :: t in k.transactionTargets ==> full.transactions[t].txIndex == t;
  }

  lemma DirectServed(chain: Header -> FullBlock, files: seq<Option<CachedBlock>>, header: Header, k: Key)
    requires AllProject(chain, files, k.number) && InRange(chain(header), k.receiptTargets, k.transactionTargets)
    requires Together(files, k.number, header, k.receiptTargets, k.transactionTargets)
    ensures var direct := Direct(header, chain(header), k.receiptTargets, k.transactionTargets);
      && (forall p :: p in direct.receipts ==> ServesReceipt(files, k.number, header, p))
      && (forall p :: p in direct.transactions ==> ServesTransaction(files, k.number, header, p))
  {
    var full := chain(header);
    var receipts, transactions :=
      Extract(full.receipts, k.receiptTargets), Extract(full.transactions, k.transactionTargets);
    forall p | p in receipts
      ensures ServesReceipt(files, k.number, header, p)
    {
      var n :| 0 <= n < |receipts| && receipts[n] == p;
      assert k.receiptTargets[n] in k.receiptTargets;
      var q: ReceiptProof :| q.txIndex == k.receiptTargets[n] && ServesReceipt(files, k.number, header, q);
      ServedReceiptIsOwn(chain, files, k.number, header, q);
    }
    forall p | p in transactions
      ensures ServesTransaction(files, k.number, header, p)
    {
      var n :| 0 <= n < |transactions| && transactions[n] == p;
      assert k.transactionTargets[n] in k.transactionTargets;
      var q: TransactionProof :| q.txIndex == k.transactionTargets[n] && ServesTransaction(files, k.number, header, q);
      ServedTransactionIsOwn(chain, files, k.number, header, q);
    }
  }

  lemma ServedReceiptIsOwn(chain: Header -> FullBlock, files: seq<Option<CachedBlock>>, number: nat, header: Header,
                           p: ReceiptProof)
    requires AllProject(chain, files, number) && ServesReceipt(files, number, header, p)
    ensures p.txIndex in chain(header).receipts && chain(header).receipts[p.txIndex] == p
  {
    var f :| f in files && Serves(f, number, header) && p in f.value.evidence.receipts;
    assert Usable(f.value, number);
  }

  lemma ServedTransactionIsOwn(chain: Header -> FullBlock, files: seq<Option<CachedBlock>>, number: nat,
                               header: Header, p: TransactionProof)
    requires AllProject(chain, files, number) && ServesTransaction(files, number, header, p)
    ensures p.txIndex in chain(header).transactions && chain(header).transactions[p.txIndex] == p
  {
    var f :| f in files && Serves(f, number, header) && p in f.value.evidence.transactions;
    assert Usable(f.value, number);
  }

  // ── Loading ───────────────────────────────────────────────────────────

  /** `load_cached_block_evidence` on a readable file. */
  function Load(cached: CachedBlock, number: nat, receiptTargets: seq<nat>,
                transactionTargets: seq<nat>): Option<CachedBlock> {
    if && Usable(cached, number)
       && cached.receiptTargets == receiptTargets && cached.transactionTargets == transactionTargets
       && CanonicalTargets(Map(ReceiptIndex, cached.evidence.receipts)) == receiptTargets
       && CanonicalTargets(Map(TransactionIndex, cached.evidence.transactions)) == transactionTargets
    then Some(cached) else None
  }

  /** The indexes of the proofs are these, in any order and however often. */
  ghost predicate Indexing(indexes: seq<nat>, targets: seq<nat>) {
    Increasing(targets) && forall t :: t in targets <==> t in indexes
  }

  /** A file loads exactly when it is current, was written for these very targets, and holds proofs for them and for
      nothing else; and it loads as it is. */
  lemma LoadIff(cached: CachedBlock, number: nat, receiptTargets: seq<nat>, transactionTargets: seq<nat>)
    ensures Load(cached, number, receiptTargets, transactionTargets) ==
      if && Current(Some(cached), number)
         && cached.receiptTargets == receiptTargets && cached.transactionTargets == transactionTargets
         && Indexing(Map((p: ReceiptProof) => p.txIndex as nat, cached.evidence.receipts), receiptTargets)
         && Indexing(Map((p: TransactionProof) => p.txIndex as nat, cached.evidence.transactions), transactionTargets)
      then Some(cached) else None
  {
    assert Map((p: ReceiptProof) => p.txIndex as nat, cached.evidence.receipts)
      == Map(ReceiptIndex, cached.evidence.receipts);
    assert Map((p: TransactionProof) => p.txIndex as nat, cached.evidence.transactions)
      == Map(TransactionIndex, cached.evidence.transactions);
    CanonicalIff(Map(ReceiptIndex, cached.evidence.receipts), receiptTargets);
    CanonicalIff(Map(TransactionIndex, cached.evidence.transactions), transactionTargets);
  }

  lemma CanonicalIff(indexes: seq<nat>, targets: seq<nat>)
    ensures CanonicalTargets(indexes) == targets <==> Indexing(indexes, targets)
  {
    hide Sorted;
    var sorted := Sorted(Indexes(indexes));
    if Indexing(indexes, targets) {
      IncreasingUnique(sorted, targets);
    }
  }

  /** Proofs filed under their own index. */
  ghost predicate WellIndexed(full: FullBlock) {
    && (forall k :: k in full.receipts ==> full.receipts[k].txIndex == k)
    && (forall k :: k in full.transactions ==> full.transactions[k].txIndex == k)
  }

  /** A direct extract, cached under its own targets, passes the loading check: what a merge writes is accepted
      when it is read back. */
  lemma ExtractLoads(header: Header, full: FullBlock, number: nat, receiptTargets: seq<nat>,
                     transactionTargets: seq<nat>, logPositions: map<nat, nat>)
    requires Increasing(receiptTargets) && Increasing(transactionTargets)
    requires InRange(full, receiptTargets, transactionTargets) && WellIndexed(full) && header.number == number
    ensures var cached := CachedBlock(CACHE_VERSION, number, receiptTargets, transactionTargets,
        Direct(header, full, receiptTargets, transactionTargets), logPositions);
      Load(cached, number, receiptTargets, transactionTargets) == Some(cached)
  {
    assert Map(ReceiptIndex, Extract(full.receipts, receiptTargets)) == receiptTargets;
    assert Map(TransactionIndex, Extract(full.transactions, transactionTargets)) == transactionTargets;
    CanonicalOfIncreasing(receiptTargets);
    CanonicalOfIncreasing(transactionTargets);
  }

  /** Conversely, an extract of its block that loads for some targets is a permutation-free copy of them: it holds a
      proof for each target and for nothing else. */
  lemma LoadedHoldsTargets(chain: Header -> FullBlock, cached: CachedBlock, number: nat, receiptTargets: seq<nat>,
                           transactionTargets: seq<nat>)
    requires Projects(chain, cached) && Load(cached, number, receiptTargets, transactionTargets).Some?
    ensures Increasing(receiptTargets) && Increasing(transactionTargets)
    ensures InRange(chain(cached.evidence.header), receiptTargets, transactionTargets)
    ensures forall p :: p in cached.evidence.receipts ==>
      p.txIndex in receiptTargets && p == chain(cached.evidence.header).receipts[p.txIndex]
  {
    var receipts, transactions :=
      Map(ReceiptIndex, cached.evidence.receipts), Map(TransactionIndex, cached.evidence.transactions);
    forall t | t in receiptTargets
      ensures t in chain(cached.evidence.header).receipts
    {
      assert t in Indexes(receipts);
      var k :| 0 <= k < |receipts| && receipts[k] == t;
      assert cached.evidence.receipts[k] in cached.evidence.receipts;
    }
    forall t | t in transactionTargets
      ensures t in chain(cached.evidence.header).transactions
    {
      assert t in Indexes(transactions);
      var k :| 0 <= k < |transactions| && transactions[k] == t;
      assert cached.evidence.transactions[k] in cached.evidence.transactions;
    }
    forall p | p in cached.evidence.receipts
      ensures p.txIndex in receiptTargets
    {
      var k :| 0 <= k < |cached.evidence.receipts| && cached.evidence.receipts[k] == p;
      assert receipts[k] in Indexes(receipts);
    }
  }

  // ── The cache over time ───────────────────────────────────────────────

  /** What a cache file is named after. */
  datatype Key = Key(number: nat, receiptTargets: seq<nat>, transactionTargets: seq<nat>)

  datatype Fetched = Fetched(evidence: EvidenceBlock, logPositions: map<nat, nat>)

  /** The node under the client: one direct fetch. */
  type Fetch = (nat, seq<nat>, seq<nat>) -> Result<Fetched>

  ghost predicate Canonical(k: Key) {
    Increasing(k.receiptTargets) && Increasing(k.transactionTargets)
  }

  /** The evidence of one block for exactly the wanted targets; its log positions may be left out, or be there unasked,
      when no receipts are wanted. */
  ghost predicate IsExtract(chain: Header -> FullBlock, k: Key, f: Fetched) {
    var header := f.evidence.header;
    && header.number == k.number
    && InRange(chain(header), k.receiptTargets, k.transactionTargets)
    && f.evidence == Direct(header, chain(header), k.receiptTargets, k.transactionTargets)
    && (k.receiptTargets != [] ==> f.logPositions == chain(header).logPositions)
    && (f.logPositions == map[] || f.logPositions == chain(header).logPositions)
  }

  /** What `block_evidence` returns: without receipt targets no receipt is read and no log position is known. */
  ghost predicate IsDirect(chain: Header -> FullBlock, k: Key, f: Fetched) {
    && IsExtract(chain, k, f)
    && f.logPositions == if k.receiptTargets == [] then map[] else chain(f.evidence.header).logPositions
  }

  ghost predicate Genuine(chain: Header -> FullBlock, fetch: Fetch) {
    forall n, rs, ts :: fetch(n, rs, ts).Ok? ==> IsDirect(chain, Key(n, rs, ts), fetch(n, rs, ts).value)
  }

  ghost predicate Faithful(chain: Header -> FullBlock, k: Key, e: CachedBlock) {
    && Canonical(k) && e == CachedBlock(CACHE_VERSION, k.number, k.receiptTargets, k.transactionTargets, e.evidence,
      e.logPositions)
    && IsExtract(chain, k, Fetched(e.evidence, e.logPositions))
  }

  lemma InExtract<P>(proofs: map<nat, P>, targets: seq<nat>, index: P -> nat)
    requires forall t :: t in targets ==> t in proofs
    requires forall t :: t in proofs ==> index(proofs[t]) == t
    ensures forall p :: p in Extract(proofs, targets) ==> index(p) in proofs && proofs[index(p)] == p
  {
    var extract := Extract(proofs, targets);
    forall p | p in extract
      ensures index(p) in proofs && proofs[index(p)] == p
    {
      var i :| 0 <= i < |extract| && extract[i] == p;
      assert targets[i] in targets;
    }
  }

  /** A faithful entry loads under its own name, and is an extract a merge may use. */
  lemma FaithfulProjects(chain: Header -> FullBlock, k: Key, e: CachedBlock)
    requires Faithful(chain, k, e) && WellIndexed(chain(e.evidence.header))
    ensures Projects(chain, e)
    ensures Load(e, k.number, k.receiptTargets, k.transactionTargets) == Some(e)
  {
    hide CanonicalTargets, Load, Increasing, Extract;
    var full := chain(e.evidence.header);
    ExtractLoads(e.evidence.header, full, k.number, k.receiptTargets, k.transactionTargets, e.logPositions);
    InExtract(full.receipts, k.receiptTargets, ReceiptIndex);
    InExtract(full.transactions, k.transactionTargets, TransactionIndex);
    NoExtract(full.receipts, k.receiptTargets);
  }

  lemma NoExtract<P>(proofs: map<nat, P>, targets: seq<nat>)
    requires forall t :: t in targets ==> t in proofs
    ensures Extract(proofs, targets) != [] ==> targets != []
  {
  }

  /** The cache directory. */
  class BlockCache {
    var files: map<Key, CachedBlock>

    ghost predicate Valid(chain: Header -> FullBlock)
      reads this
    {
      forall k :: k in files ==> Faithful(chain, k, files[k])
    }

    constructor ()
      ensures files == map[]
    {
      files := map[];
    }

    /** The files behind a list of paths; one that is gone cannot be read. */
    function Read(paths: seq<Key>): (r: seq<Option<CachedBlock>>)
      reads this
      ensures |r| == |paths|
      ensures forall i :: 0 <= i < |paths| ==> r[i] == if paths[i] in files then Some(files[paths[i]]) else None
    {
      seq(|paths|, i requires 0 <= i < |paths| reads this => if paths[i] in files then Some(files[paths[i]]) else None)
    }

    /** `cached_block_evidence`: load, else merge the listed files, else fetch; what was merged or fetched is written.
        Over any sequence of calls on a cache that starts empty, a call answers with a direct extract of one block,
        writes nothing but its own file, and answers the same from then on. A first answer is that of a direct fetch,
        log positions included, exactly when receipts were asked for or no merge picked up positions unasked. */
    method CachedBlockEvidence(ghost chain: Header -> FullBlock, fetch: Fetch, paths: seq<Key>, k: Key)
      returns (r: Result<Fetched>)
      requires Valid(chain) && Canonical(k)
      requires Genuine(chain, fetch) && forall h :: WellIndexed(chain(h))
      modifies this
      ensures Valid(chain)
      ensures r.Ok? ==> IsExtract(chain, k, r.value)
      ensures r.Ok? && k !in old(files) ==> (IsDirect(chain, k, r.value) <==>
        || k.receiptTargets != []
        || !Covers(old(Read(paths)), k.number, k.receiptTargets, k.transactionTargets)
        || !MergeCarries(old(Read(paths)), k.number, k.receiptTargets, k.transactionTargets))
      ensures r.Ok? ==>
        k in files && files == old(files)[k := files[k]] && Fetched(files[k].evidence, files[k].logPositions) == r.value
      ensures r.Err? ==> files == old(files) && fetch(k.number, k.receiptTargets, k.transactionTargets).Err?
      ensures k in old(files) ==> r == Ok(Fetched(old(files)[k].evidence, old(files)[k].logPositions))
      ensures k !in old(files) && Covers(old(Read(paths)), k.number, k.receiptTargets, k.transactionTargets) ==>
        r.Ok? && MergesTo(chain, old(Read(paths)), k, files[k])
      ensures k !in old(files) && !Covers(old(Read(paths)), k.number, k.receiptTargets, k.transactionTargets) ==>
        r == fetch(k.number, k.receiptTargets, k.transactionTargets)
    {
      hide Direct, InRange, WellIndexed, Load, Covers, Projects, Increasing, MergeCarries, ChosenHeader;
      if k in files {
        FaithfulProjects(chain, k, files[k]);
        var loaded := Load(files[k], k.number, k.receiptTargets, k.transactionTargets);
        if loaded.Some? {
          return Ok(Fetched(loaded.value.evidence, loaded.value.logPositions));
        }
      }
      ReadProjects(chain, this, paths, k.number);
      var merged := MergeCachedBlockEvidence(chain, Read(paths), k.number, k.receiptTargets, k.transactionTargets);
      if merged.Some? {
        files := files[k := merged.value];
        return Ok(Fetched(merged.value.evidence, merged.value.logPositions));
      }
      var fetched :- fetch(k.number, k.receiptTargets, k.transactionTargets);
      files := files[k := CachedBlock(CACHE_VERSION, k.number, k.receiptTargets, k.transactionTargets,
        fetched.evidence, fetched.logPositions)];
      return Ok(fetched);
    }
  }

  lemma ReadProjects(chain: Header -> FullBlock, cache: BlockCache, paths: seq<Key>, number: nat)
    requires cache.Valid(chain) && forall h :: WellIndexed(chain(h))
    ensures AllProject(chain, cache.Read(paths), number)
  {
    hide Faithful, Projects, WellIndexed;
    var files := cache.Read(paths);
    forall f | f in files && f.Some? && Usable(f.value, number)
      ensures Projects(chain, f.value)
    {
      var i :| 0 <= i < |paths| && files[i] == f;
      FaithfulProjects(chain, paths[i], f.value);
    }
  }

  // ── A merge exists ────────────────────────────────────────────────────

  lemma {:induction false} MergedExists<P>(m: map<nat, P>, proofs: seq<P>, index: P -> nat, targets: seq<nat>)
    returns (out: map<nat, P>)
    ensures Merged(m, out, proofs, index, Wanted(proofs, index, targets))
  {
    if proofs == [] {
      out := m;
    } else {
      var init, p := proofs[..|proofs| - 1], proofs[|proofs| - 1];
      assert proofs == init + [p];
      out := MergedExists(m, init, index, targets);
      if index(p) in targets && index(p) !in out {
        out := out[index(p) := p];
      }
    }
  }

  lemma {:induction false} GatheredExists(chain: Header -> FullBlock, files: seq<Option<CachedBlock>>, k: Key)
    returns (s: Partial)
    requires AllProject(chain, files, k.number)
    ensures Gathered(s, chain, files, k.number, k.receiptTargets, k.transactionTargets)
  {
    hide Gathered, Merged, Projects;
    if files == [] {
      s := Partial(None, map[], map[], map[]);
      NothingGathered(chain, k.number, k.receiptTargets, k.transactionTargets);
    } else {
      var init, f := files[..|files| - 1], files[|files| - 1];
      assert files == init + [f] && f in files;
      var before := GatheredExists(chain, init, k);
      if f.None? || !Usable(f.value, k.number) ||
        (before.header.Some? && before.header != Some(f.value.evidence.header)) {
        s := before;
        SkipFile(before, chain, init, f, k.number, k.receiptTargets, k.transactionTargets);
      } else {
        var e := f.value;
        var receipts := MergedExists(before.receipts, e.evidence.receipts, ReceiptIndex, k.receiptTargets);
        var transactions :=
          MergedExists(before.transactions, e.evidence.transactions, TransactionIndex, k.transactionTargets);
        s := Partial(Some(e.evidence.header), receipts, transactions, before.logPositions + e.logPositions);
        TakeFile(before, s, chain, init, e, k.number, k.receiptTargets, k.transactionTargets);
      }
    }
  }

  lemma {:induction false} FirstCoverExists(files: seq<Option<CachedBlock>>, k: Key) returns (n: nat)
    requires Covers(files, k.number, k.receiptTargets, k.transactionTargets)
    ensures FirstCovers(files, n, k.number, k.receiptTargets, k.transactionTargets)
  {
    hide Covers;
    NothingCovered(k.number, k.receiptTargets, k.transactionTargets);
    assert files[..|files|] == files;
    var init := files[..|files| - 1];
    if Covers(init, k.number, k.receiptTargets, k.transactionTargets) {
      n := FirstCoverExists(init, k);
      assert init[..n] == files[..n] && init[..n - 1] == files[..n - 1];
    } else {
      n := |files|;
    }
  }

  /** Files that cover the targets have a merge. */
  lemma MergeExists(chain: Header -> FullBlock, files: seq<Option<CachedBlock>>, k: Key) returns (e: CachedBlock)
    requires Canonical(k) && AllProject(chain, files, k.number)
    requires Covers(files, k.number, k.receiptTargets, k.transactionTargets)
    ensures MergesTo(chain, files, k, e)
  {
    hide Gathered, MergesTo, Projects;
    var n := FirstCoverExists(files, k);
    assert forall f :: f in files[..n] ==> f in files;
    var s := GatheredExists(chain, files[..n], k);
    GatheredHeader(s, chain, files[..n], k);
    GatheredCovers(s, chain, files[..n], k.number, k.receiptTargets, k.transactionTargets);
    MergeIsDone(s, chain, files, n, k);
    e := Finished(s, k);
  }

  lemma GatheredHeader(s: Partial, chain: Header -> FullBlock, files: seq<Option<CachedBlock>>, k: Key)
    requires Gathered(s, chain, files, k.number, k.receiptTargets, k.transactionTargets)
    requires Covers(files, k.number, k.receiptTargets, k.transactionTargets)
    ensures s.header.Some?
  {
  }

  // ── Where a merge and a fetch differ ──────────────────────────────────

  /** Where nothing is asked for, the first usable entry covers it. */
  lemma NoTargetsCovered(e: CachedBlock, number: nat)
    requires Usable(e, number) && e.logPositions != map[]
    ensures Covers([Some(e)], number, [], []) && MergeCarries([Some(e)], number, [], [])
  {
    var files := [Some(e)];
    assert files[..0] == [] && files[..1] == files;
    var header := ChosenHeader(files, number);
    assert CoveredReceipts(files, number, header, []) == {} == Indexes([]);
    assert CoveredTransactions(files, number, header, []) == {} == Indexes([]);
    assert FirstCovers(files, 1, number, [], []);
    assert files[0] in files && TakesPart(files[0], number, header);
    assert Carries(files[..1], number, header);
  }

  const SAMPLE_HEADER: Header := Header(7, 0, ZeroHash, ZeroHash, ZeroHash, 0)

  const SAMPLE_RECEIPT: ReceiptProof := ReceiptProof(0, [], [])

  const SAMPLE_BLOCK: FullBlock := FullBlock(map[0 := SAMPLE_RECEIPT], map[], map[5 := 0])

  function SampleChain(h: Header): FullBlock {
    SAMPLE_BLOCK
  }

  /** A node that serves receipt 0 of block 7, and that block without any targets. */
  function SampleFetch(n: nat, rs: seq<nat>, ts: seq<nat>): Result<Fetched> {
    if n != 7 || ts != [] then Err("not served")
    else if rs == [] then Ok(Fetched(EvidenceBlock(SAMPLE_HEADER, [], []), map[]))
    else if rs == [0] then Ok(Fetched(EvidenceBlock(SAMPLE_HEADER, [SAMPLE_RECEIPT], []), SAMPLE_BLOCK.logPositions))
    else Err("not served")
  }

  lemma SampleIsGenuine()
    ensures Genuine(SampleChain, SampleFetch)
    ensures forall h :: WellIndexed(SampleChain(h))
  {
    forall n, rs, ts | SampleFetch(n, rs, ts).Ok?
      ensures IsDirect(SampleChain, Key(n, rs, ts), SampleFetch(n, rs, ts).value)
    {
    }
  }

  lemma NothingCovered(number: nat, receiptTargets: seq<nat>, transactionTargets: seq<nat>)
    ensures !Covers([], number, receiptTargets, transactionTargets)
  {
  }

  /** What the sample entry for receipt 0 merges to when nothing is asked for. */
  lemma SampleMerges(e: CachedBlock, m: CachedBlock)
    requires Usable(e, 7) && e.evidence.header == SAMPLE_HEADER && e.logPositions == SAMPLE_BLOCK.logPositions
    requires MergesTo(SampleChain, [Some(e)], Key(7, [], []), m)
    ensures m.evidence == EvidenceBlock(SAMPLE_HEADER, [], []) && m.logPositions != map[]
  {
    var files := [Some(e)];
    assert files[..0] == [];
    assert 5 in e.logPositions;
    NoTargetsCovered(e, 7);
  }

  /** A run of the cache: after the receipt of transaction 0 has been cached, a request for no targets at all is
      answered by a merge with the log positions of the block, where a direct fetch returns none. */
  method MergedPositionsDiffer() returns (merged: Result<Fetched>, fetched: Result<Fetched>)
    ensures merged.Ok? && fetched.Ok? && merged.value.evidence == fetched.value.evidence
    ensures merged.value.logPositions != map[] && fetched.value.logPositions == map[]
  {
    SampleIsGenuine();
    NothingCovered(7, [0], []);
    hide Genuine, SampleChain, WellIndexed, Covers, MergeCarries, MergesTo, IsExtract, Load;
    var asked, none := Key(7, [0], []), Key(7, [], []);
    var cache := new BlockCache();
    assert cache.Read([]) == [];
    var first := cache.CachedBlockEvidence(SampleChain, SampleFetch, [], asked);
    ghost var e := cache.files[asked];
    assert cache.Read([asked]) == [Some(e)];
    EntryOf(SampleChain, asked, e);
    assert 5 in e.logPositions;
    NoTargetsCovered(e, 7);
    merged := cache.CachedBlockEvidence(SampleChain, SampleFetch, [asked], none);
    SampleMerges(e, cache.files[none]);
    fetched := SampleFetch(7, [], []);
  }

  lemma EntryOf(chain: Header -> FullBlock, k: Key, e: CachedBlock)
    requires Faithful(chain, k, e)
    ensures Usable(e, k.number)
  {
  }
}
