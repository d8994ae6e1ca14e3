# Wash-loop verification

A Dafny model of the verifier that decides whether a bundle of authenticated chain logs is a conserved USDC value loop,
of the block-authentication scheme its journal commits to, of the receipt encoding the evidence rests on, and of the
host tools that select and assemble that evidence — with proofs of what each of them guarantees.

`dafny verify dfyconfig.toml` checks everything. Nothing here executes the original program.

## What is modelled

* **Evidence and references** (`Hashing`, `Evidence`). Blocks of receipt and transaction proofs are authenticated
  against their headers; a log reference resolves to a decoded log and to a log key (block, transaction, log). Keccak is
  an ideal hash: `Hash` is a free datatype, so different inputs never collide and no digest is the zero word; claim
  identifiers are terms over the whole claim. Trie inclusion, signer recovery and storage proofs are arbitrary
  deterministic functions gathered in `Oracle`; the theorems hold for all of them (`Example` and `PairExample` fix one).
* **What a reference stands for** (`Decoding`): the log it finds, the event that log spells out, byte range by byte
  range, and who signed its transaction. The resolver is proved to read exactly this.
* **The closed loop** (`Booking`, `ClosedLoop`, `Ledgers`, `LoopTheorems`, `Conservation`, `LoopBounds`). Four
  imperative passes — FUND, SETTLE, LEDGER, RETURN — share one set of used logs. A decoded and checked piece of evidence
  is a *row* (`FundRow`, `SettleRow`, `PathRow`: the logs consumed, the party, the amount, the time), and each pass is
  proved to accept exactly when its rows are *booked*. `Conservation` states the loop once more from the evidence alone,
  as one predicate over found logs with every constant written out and no order of processing, and proves that the
  passes accept exactly that. On top of it: no log counted twice, the flow and cut bound on returns, the ledgers
  implying the funding coverage, and the compound retention of a path.
* **The reciprocal pair** (`Reciprocal`, `PairConservation`): sales in both directions, deposits financed by the pair,
  and the self-financing inequality, and the same predicate stated from the evidence alone.
* **The seller proof** (`Seller`, `Journal`, `Acceptance`): the re-check of a claim journal, the boundary reading, and
  the committed journal. The verifier is proved to accept one short condition and to commit one explicit journal.
* **Order independence** (`Reorder`), for both kinds of evidence.
* **Small claims** (`Samples`, `Example`, `PairExample`): a loop of one funding, by transfer or by deposit, one
  settlement and one return path of two hops, and a pair of one sale each way and at most one deposit, as real encoded
  receipts in blocks with roots of their own, in a world whose proofs hold for the one right root, key and value. Each
  is accepted exactly when its rules hold, for every sender, recipient, credited buyer, signer, status, amount, place,
  time and balance that can vary.
* **Block authentication** (`Merkle`): chunks of 100 references, index-bound leaves, odd nodes paired with themselves.
* **RLP and receipts** (`Rlp`, `Receipts`, `Parsing`). The item reader is the one of Appendix B of the Ethereum Yellow
  Paper, accepting canonical encodings only; typed envelopes are those of EIP-2718. The parser's language is stated as
  bytes that begin with the encodings of fields.
* **The evidence selector and the log scanners** (`Selector`, `Scan`).
* **Host assembly** (`WorkerPool`, `Cache`, `SharedCache`, `EvidencePool`, `Extension`): the block-evidence worker pool
  as interleaved steps, the cache merge, the cache directory over time and under overlapping calls, pool and cache
  together, and the in-place extension of verified evidence.

Machine arithmetic is explicit: `u64` and `u128` are bounded subset types, checked additions fail past the limit, U256
products wrap (`Wrap`), and the `as u32` cast of a chunk index truncates (`CastU32`).

## Results that come out differently from a first reading

* The U256 products of the ledger check and of the self-financing check wrap for huge period-end balances.
  `Ledgers.LedgerCheckExactIff` and `Reciprocal.SelfFinancedExactIff` say exactly when each check decides the exact
  inequality; `Example.WrappedLedgers` and `PairExample.WrappedPair` are whole accepted claims that pass only because of
  the wrap.
* That the ledgers imply the funding coverage, and that a pair deposited nine tenths of its volume, therefore hold under
  exact conditions on balances and settled amounts: the least fundings that pass must cover or not fit u128
  (`LoopBounds.LedgersCoverIff`), and the most deposits that fall short must not pass
  (`Reciprocal.InternallyFinancedIff`). Balances that do not wrap meet both; some that wrap do too
  (`Ledgers.WrapMayStillCover`).
* A chunk index is cast to `u32`. The verifier is sound and complete for every valid list, of any length
  (`Merkle.ChunkAcceptedIff`), and the root of valid lists is injective (`Merkle.RootInjective`); what stops at 2^32
  chunks is only that every *emitted* chunk is accepted (`Merkle.EmittedChunksAcceptedIff`). Lists that are not sorted
  collide for one list of 3 * 2^32 chunks and one of 4 * 2^32 (`Merkle.UnsortedRootsCollide`); up to 2^32 they do not
  (`Merkle.RootInjectiveOnAnyLists`), and no root of an unsorted list is committed. A committed journal has at most 656
  chunks (`Seller.CommittedChunkCount`).
* The receipt parser reads a first byte below 0xc0 as a type. A receipt of transaction type `ty` survives the round trip
  if and only if its type byte is below 0xc0 (`Receipts.RoundTripIff`); EIP-2718 types are.
* Of the checks of the seller proof after a claim verified, only those on identity, the counter and the boundary can fail;
  the aggregate top-up of the selector never selects anything; and the funding ratio checked before the ledgers is implied
  by them exactly under the condition above.
* A merge from the cache has the receipts and transactions of a direct fetch, but not always its log positions: they agree
  if and only if receipts were asked for, or no entry read before the targets were covered carries positions
  (`Cache.MergeCachedBlockEvidence`). `Cache.MergedPositionsDiffer` is a run where they differ. The difference reaches no
  claim: host/src/main.rs and wash-trading-expand-returns.rs ask for a receipt of every block, and
  wash-trading-materialize-p0.rs, which may ask the period-end block for none, looks up a log position only after it has
  found its receipt in the block.
* Rearranging the evidence can change the claim identifier, which hashes it as it is ordered, but neither acceptance nor
  the seller journal.

## Model

| member | source | states |
|---|---|---|
| Conservation.LoopHoldsIff | predicate/src/closed_loop.rs:38-388 | the four stateful passes with their shared set of used logs accept exactly the claims of one declarative predicate over the logs the references find: authentic blocks, every funding, settlement and path as their own rules say, all references of the three legs pairwise distinct, exact totals within u128, ledgers and ratios, with every constant written out |
| Conservation.FundRowIff | predicate/src/closed_loop.rs:128-187 | a funding is accepted, with its amount and time, exactly when the found log is an in-period USDC transfer of a positive amount from the funder to a cohort buyer, or from the funder to the deposits contract, credited to that buyer for the same amount later in the same receipt and signed by the funder |
| LoopTheorems.ThreeLegs | predicate/src/closed_loop.rs:61-77 | legs booked one after the other on a growing set of used keys are the same as one list of pairwise distinct keys with three totals within u128 |
| LoopTheorems.KeyLists | predicate/src/closed_loop.rs:61-77 | the keys an accepted claim consumes are the keys of its references, leg by leg and in order |
| LoopTheorems.DistinctKeysAreDistinctRefs | predicate/src/resolver.rs:60-63 | on authenticated blocks distinct log keys are distinct references |
| Conservation.SettleRowIff | predicate/src/closed_loop.rs:231-264 | a settlement is accepted, with its buyer, amount and time, exactly when the found log is an in-period settlement of a positive amount from a cohort buyer to the seller, later than some funding of that buyer |
| Conservation.PathRowIff | predicate/src/closed_loop.rs:325-383 | a return path is accepted, for the least amount it carries, exactly when its hops are a walk as below that begins after some settlement |
| Conservation.PathIff | predicate/src/closed_loop.rs:325-383 | a walk: 1 to 9 in-period transfers of positive amounts from the seller to the funder, each leaving the address the one before reached, every later one after every earlier one in (block, transaction, log), within 259200 seconds of the first, and passing on at least 28% |
| Conservation.WalksIff | predicate/src/closed_loop.rs:336-376 | checking each hop against the one before is the same as ordering all pairs of hops and bounding every hop by the first |
| Conservation.CoveredIff | predicate/src/closed_loop.rs:277-304 | a ledger holds exactly when the balance at slot 9 under the period-end state root, read as one number with what the buyer settled, is within 105% of what it was funded with, in arithmetic modulo 2^256 |
| Decoding.ResolvesIff | predicate/src/resolver.rs:31-63 | a reference resolves exactly when its block, receipt and log exist and the receipt succeeded, to the log key of the header number, the receipt's transaction index and the log position |
| Decoding.TransferIff | predicate/src/resolver.rs:132-151 | a transfer is decoded, with its parties and amount, exactly where the log is one: emitter, event topic, the last 20 bytes of its two topics, and one data word below 2^128 |
| Decoding.SettlementIff | predicate/src/resolver.rs:153-174 | the same for a settlement, whose amount is the second data word |
| Decoding.DepositIff | predicate/src/resolver.rs:176-193 | the same for a deposit |
| Decoding.SignedByIff | predicate/src/resolver.rs:84-130 | the signer check passes exactly when one and only one transaction proof of the block has the log's transaction index, and it recovers to the expected address |
| LoopBounds.JournalVolume | predicate/src/closed_loop.rs:78-99 | the journal of an accepted loop is, field by field, its identity and period, the positive sum of its settlement logs, one record per settlement carrying its place and amount, and the references of its blocks |
| Ledgers.LedgerCheckExactIff | predicate/src/closed_loop.rs:293-301 | the wrapping ledger check decides the exact inequality for every funding if and only if the left product does not wrap or wraps above every possible allowance |
| Ledgers.LedgerCheckWraps | predicate/src/closed_loop.rs:293-301 | a balance of 2^256-1 passes with nothing funded, although the exact inequality fails |
| Ledgers.LeastFundingIsLeast | predicate/src/closed_loop.rs:293-301 | the wrapping check passes exactly from a least funding on |
| Ledgers.RatioForcedIff | predicate/src/closed_loop.rs:277-304 | every funding of a cohort that passes its checks within u128 reaches a ratio of the settled volume if and only if the least one does or does not fit |
| Ledgers.LeastWithoutWrap | predicate/src/closed_loop.rs:277-304 | without wrapping balances the least funding covers the settled volume up to the tolerance |
| Ledgers.WrapMayStillCover | predicate/src/closed_loop.rs:293-301 | a wrapping balance whose least passing funding still covers nine tenths |
| LoopBounds.PartySplit | predicate/src/closed_loop.rs:277-304 | the per-buyer totals of a cohort add up to the total |
| LoopBounds.LedgersBoundSettlements | predicate/src/closed_loop.rs:277-304 | the ledgers together bound the settled volume by 1.05 times the funding, whenever the least fundings reach that or do not fit u128 |
| LoopBounds.LedgersCoverIff | predicate/src/closed_loop.rs:69-74 | for the balances and settled amounts of a claim, every funding its ledgers accept covers nine tenths if and only if the least one does or does not fit u128 |
| LoopBounds.FittingBalancesForce | predicate/src/closed_loop.rs:277-304 | balances that do not wrap meet both conditions |
| LoopBounds.LedgersImplyCoverage | predicate/src/closed_loop.rs:69-74 | under that exact condition the funding coverage ratio of a claim follows from its ledgers |
| LoopBounds.ReturnsBoundedByCut | predicate/src/closed_loop.rs:310-388 | for every address set with the seller and without the funder, the credited returns are at most the referenced transfers leaving the set, each log once, so that cut carries at least 30% of the settled volume |
| LoopBounds.PathAcrossCut | predicate/src/closed_loop.rs:325-383 | the bottleneck credit of one path is at most what the path carries across any cut |
| LoopBounds.LoopRefsDistinct | predicate/src/closed_loop.rs:61-77 | the FUND, SETTLE and RETURN references of an accepted claim are pairwise distinct |
| LoopBounds.CompoundRetention | predicate/src/closed_loop.rs:326-383 | a credited path has 1 to 9 hops and credits at least 0.28^(hops-1) of the first amount |
| ClosedLoop.VerifyClosedLoop | predicate/src/closed_loop.rs:38-100 | accepts exactly the claims that hold and emits exactly their journal |
| ClosedLoop.VerifyFunding | predicate/src/closed_loop.rs:128-187 | one funding passes exactly when its row is accepted (Conservation.FundRowIff) and its logs are fresh; it consumes exactly those logs |
| ClosedLoop.VerifyFundings | predicate/src/closed_loop.rs:110-208 | FUND accepts exactly booked rows that cover every buyer; its maps hold the exact per-buyer sums, the total and the earliest times |
| ClosedLoop.VerifySettlement | predicate/src/closed_loop.rs:231-264 | one settlement passes exactly when its row is accepted and its log is fresh |
| ClosedLoop.VerifySettlements | predicate/src/closed_loop.rs:217-275 | SETTLE accepts exactly a nonempty booked leg; its summary holds the exact sums, the earliest time and the records in order |
| ClosedLoop.VerifyLedgers | predicate/src/closed_loop.rs:277-304 | LEDGER accepts exactly when each buyer has one witness whose authenticated balance and exact sums meet the wrapping inequality |
| ClosedLoop.VerifyHop | predicate/src/closed_loop.rs:336-376 | one transfer passes exactly when it decodes, its key is fresh, and it continues the path (Conservation.WalksIff) in address, order, retained share and time window |
| ClosedLoop.WalkPath | predicate/src/closed_loop.rs:325-379 | one path passes exactly when every hop holds against the previous one, it ends at the funder and its logs are fresh; its credit is the bottleneck |
| ClosedLoop.VerifyReturns | predicate/src/closed_loop.rs:310-388 | RETURN accepts exactly an empty list when seller and funder coincide, and otherwise at most 512 booked paths whose credits reach 30% of the settled total |
| Booking.BookedIff | predicate/src/closed_loop.rs:110-388 | a leg is booked exactly when all its evidence is accepted, no log is used twice or again, and its total fits u128, whatever the order |
| Booking.ClaimedIff | predicate/src/closed_loop.rs:131-175 | going row by row over fresh keys is the same as counting every key at most once |
| Booking.EarliestForIsLeast | predicate/src/closed_loop.rs:193-197 | the recorded time of a buyer exists exactly when it was funded, and is the earliest of its fundings |
| Booking.EarliestIsLeast | predicate/src/closed_loop.rs:259 | the recorded settlement time is the earliest of all settlements |
| Reciprocal.VerifyReciprocal | predicate/src/reciprocal.rs:53-212 | accepts exactly the pairs that hold and emits exactly their journal |
| PairConservation.PairHoldsIff | predicate/src/reciprocal.rs:53-212 | the loops with their shared set of used logs accept exactly the pairs of one declarative predicate over the logs the references find, with every constant written out: both sums from the sales, within u128 and within 80% of each other, distinct references, and the self-financing inequality modulo 2^256 |
| PairConservation.SaleRowIff | predicate/src/reciprocal.rs:75-95 | a sale is accepted, with its seller and amount, exactly when the found log is an in-period settlement of a positive amount from one member to the other |
| PairConservation.DepositRowIff | predicate/src/reciprocal.rs:121-158 | a deposit is accepted, with its amount, exactly when one of the members sent it to the deposits contract in the period and signed for it, and the contract credits it to the named member for the same positive amount later in the same receipt |
| PairConservation.PairJournalIs | predicate/src/reciprocal.rs:185-212 | the journal of an accepted pair, field by field: one subject for each member with exactly the sum of its sales and one record each, in order |
| Reciprocal.VerifySale | predicate/src/reciprocal.rs:75-95 | one settlement passes exactly when it is a fresh, nonzero, in-period settlement between the two members |
| Reciprocal.VerifySales | predicate/src/reciprocal.rs:70-111 | each direction gets its exact checked sum and its records in evidence order |
| Reciprocal.VerifyDeposit | predicate/src/reciprocal.rs:121-158 | one deposit passes exactly when its row is accepted (PairConservation.DepositRowIff) and both logs are fresh |
| Reciprocal.VerifyDeposits | predicate/src/reciprocal.rs:119-160 | the internal total is the exact sum of booked deposits |
| Reciprocal.BothDirectionsSell | predicate/src/reciprocal.rs:74-117 | acceptance implies both directions are positive and 9 min >= 4 total, and the two directions are everything |
| Reciprocal.SelfFinancedExactIff | predicate/src/reciprocal.rs:162-183 | the wrapping check decides the exact self-financing inequality for every internal total if and only if the left product does not wrap or wraps above every possible allowance |
| Reciprocal.SelfFinancedWraps | predicate/src/reciprocal.rs:162-183 | at the least volume of a pair, balances that wrap pass with no internal deposit at all |
| Reciprocal.InternallyFinancedIff | predicate/src/reciprocal.rs:162-183 | for given balances and volume the check implies that internal deposits are nine tenths of the volume if and only if the most deposits that fall short do not pass |
| Reciprocal.FittingBalancesForce | predicate/src/reciprocal.rs:162-183 | which is so whenever the product does not wrap |
| Reciprocal.InternallyFinanced | predicate/src/reciprocal.rs:162-183 | under that exact condition the internal deposits of an accepted pair are at least nine tenths of its volume |
| Reciprocal.MembersAreDisjoint | predicate/src/reciprocal.rs:95-110 | the two members have disjoint, unrepeated settlement identities, and their volumes add up to the whole |
| Seller.VerifySeller | predicate/src/seller.rs:169-237 | accepts exactly: verified claim for this seller and period, nonzero source claim, authenticated counter, boundary header among the evidence headers; and commits exactly the subject's volume, the counter, one reference per evidence block, and the root of the references; every other error branch is unreachable |
| Acceptance.SellerAcceptsIff | predicate/src/seller.rs:169-237 | what the seller proof accepts, from its input alone: a named seller and period, a loop or a pair as declared above about exactly them, from a named source, a counter at the period end, and its header among the evidence |
| Acceptance.CommittedIs | predicate/src/seller.rs:193-236 | and every field of the journal it commits: the sum of this seller's settlements and the digest of their records, the counter, one reference per block, chunks of 100 and their root |
| Acceptance.CounterIff | predicate/src/seller.rs:287-322 | the counter is read under the period-end state root from slot 4 of the staking contract, a nonzero agent, and slot 11 offset 1 of the channels contract, below 2^128 |
| Seller.VerifyClaim | predicate/src/seller.rs:173-176 | the claim journal is that of the predicate the evidence is for |
| Seller.ValidateEvidence | predicate/src/seller.rs:324-382 | for any journal: passes exactly with the right identity and nonzero claim identifiers, one matching subject, distinct nonzero records adding up to its volume, and consistent nonzero block hashes |
| Seller.CollectSettlements | predicate/src/seller.rs:351-368 | the settlement loop accepts exactly distinct nonzero records that add up to a positive volume, and its map sums to that volume |
| Seller.CollectRefs | predicate/src/seller.rs:370-380 | the reference loop accepts exactly references with nonzero hashes and no block number under two hashes |
| Seller.ProperIsValid | predicate/src/seller.rs:324-382 | on a journal of either predicate the re-check depends only on period, source and seller; duplicate, total and conflict errors cannot occur |
| Seller.LoopJournalProper | predicate/src/closed_loop.rs:78-99 | a closed-loop journal has distinct nonzero records adding up to its volume and strictly sorted references that include the period-end block |
| Seller.PairJournalProper | predicate/src/reciprocal.rs:185-212 | the same for both subjects of a pair journal |
| Seller.SumSettlements | predicate/src/seller.rs:470-476 | the checked fold over a map succeeds exactly when the map's sum fits u128, and is that sum, in any iteration order |
| Seller.VerifyTotalVolumeBoundary | predicate/src/seller.rs:287-322 | succeeds exactly when the boundary is the period-end block, both storage proofs hold and the counter fits u128, and returns the agent (zero for an unstaked seller) and the counter |
| Seller.VerifyTotalVolume | predicate/src/seller.rs:258-280 | the boundary joins the references exactly when the seller is staked and its hash conflicts with none |
| Seller.BoundaryIsEvidenceBlock | predicate/src/seller.rs:265-278 | the collected hash at the boundary is the boundary's exactly when its header is one of the evidence headers |
| Seller.RefsThroughMap | predicate/src/seller.rs:190-200 | strictly sorted references survive the ordered map |
| Seller.CommitJournal | predicate/src/seller.rs:193-236 | from collected maps, the journal is built without any failing conversion and commits the counts and root of the references |
| Seller.CommittedChunkCount | predicate/src/seller.rs:219-234 | a committed journal counts one reference per evidence block, at most 65536, and the least number of chunks that holds them, at most 656 |
| Seller.MemberProofsAreDisjoint | predicate/src/seller.rs:340-368 | two seller proofs over one pair, one per member, commit to disjoint settlement maps, and their proven volumes add up to everything the pair sold |
| Example.AcceptedIff | predicate/src/closed_loop.rs:38-100 | the claim of one funding, by either kind, one settlement and one two-hop path is accepted exactly when its rules hold: who sent, received, was credited and signed, a successful receipt, order and window of the hops, 28% passed on, 90% funded, the ledger, 30% returned |
| Example.ProvenIff | predicate/src/seller.rs:169-237 | its seller proof goes through exactly then, for this seller, this period and this header only, when the counter fits |
| Example.ProvenJournal | predicate/src/seller.rs:193-236 | committing one journal, given field by field |
| Example.WrappedLedgers | predicate/src/closed_loop.rs:293-301 | with a balance of 2^256-1 a claim is accepted that settles more than 1.05 times its funding, and the ledgers alone do not imply the coverage |
| PairExample.AcceptedIff | predicate/src/reciprocal.rs:53-212 | the pair of one sale each way and at most one deposit is accepted exactly when both amounts are positive, fit, are within 80% of each other, the deposit, if claimed, was paid and signed by either member, sent to the deposits contract and credited to the named member for the same amount, and the self-financing inequality holds |
| PairExample.ProvenIff | predicate/src/seller.rs:169-237 | a seller proof over it goes through exactly then, for its two members, its period and its header only, when that member's counter fits |
| PairExample.ProvenJournal | predicate/src/seller.rs:193-236 | committing one journal for each member, given field by field |
| PairExample.WrappedPair | predicate/src/reciprocal.rs:162-183 | with balances that wrap, every such pair that sold one unit each way is accepted with no deposit from within it |
| Reorder.LoopReordered | predicate/src/closed_loop.rs:110-388 | permuting fundings, settlements and paths, and blocks with references renumbered, does not change acceptance of a loop |
| Reorder.PairPermutes | predicate/src/reciprocal.rs:53-212 | permuting settlements and deposits, and blocks with references renumbered, changes neither acceptance of a pair nor what either member sold |
| Reorder.SellerReordered | predicate/src/seller.rs:169-237 | for either kind of evidence, rearranging it changes neither acceptance of the seller proof nor its journal and block references |
| Reorder.BookedPermutes | predicate/src/closed_loop.rs:110-388 | booking, totals, per-party totals and consumed logs depend on the rows as a multiset only |
| Reorder.AuthenticPermutes | predicate/src/lib.rs:318-355 | permuted blocks authenticate alike and give the same sorted references |
| Reorder.RecordMapPermutes | predicate/src/seller.rs:351-363 | the settlement map does not depend on the order of the records |
| Reorder.RecordsPermute | predicate/src/reciprocal.rs:95-110 | the records of a member are the same up to order |
| Evidence.AuthenticateBlocks | predicate/src/lib.rs:318-355 | accepts exactly 1 to 65536 blocks with distinct numbers in the window, each with distinct included receipts and transactions, and returns the sorted references |
| Evidence.AuthenticIff | predicate/src/lib.rs:318-355 | authentic blocks, spelled out: 1 to 65536 of them, distinct numbers, from one before the period start to its end, each receipt and each transaction proven under its own root at the RLP of its index, no index twice |
| Evidence.AuthenticateReceipts | predicate/src/lib.rs:337-343 | accepts exactly receipts with distinct indexes, each proven by its nodes under the receipts root at the key that is the RLP of its index |
| Evidence.AuthenticateTransactions | predicate/src/lib.rs:344-350 | the same for transactions under the transactions root |
| Evidence.JournalRefsExact | predicate/src/lib.rs:351-354 | the sorted references are strictly sorted, exactly one per block |
| Evidence.StrictlySortedUnique | predicate/src/lib.rs:351-354 | a strictly sorted list is determined by its elements |
| Evidence.KeyInjective | predicate/src/resolver.rs:60-63 | on authenticated blocks a log key names one reference |
| Evidence.ValidateSortedUniqueAddresses | predicate/src/lib.rs:294-313 | accepts exactly strictly ascending nonzero addresses of permitted length |
| Merkle.ChunkAcceptedIff | predicate/src/seller.rs:393-468 | for every valid list and every u32 index, some proof of any length makes the verifier accept (index, references) exactly when that pair is a chunk of the list |
| Merkle.AcceptedIsAtPosition | predicate/src/seller.rs:442-468 | an accepted proof shows the leaf at the position it claims, however many chunks there are |
| Merkle.RootInjective | predicate/src/seller.rs:422-440 | valid lists with equal roots are equal, despite duplicated nodes and possibly different heights |
| Merkle.RootInjectiveOnAnyLists | predicate/src/seller.rs:422-440 | up to 2^32 chunks the same holds of arbitrary lists |
| Merkle.UnsortedRootsCollide | predicate/src/seller.rs:422-440 | an arbitrary list of 3 * 2^32 chunks and an invalid one of 4 * 2^32, with repeated references, share a root |
| Merkle.EmittedChunksAcceptedIff | predicate/src/seller.rs:406-419 | every emitted chunk is accepted if and only if the chunk count is at most 2^32 |
| Merkle.AcceptedIsLeaf | predicate/src/seller.rs:442-468 | an accepted chunk hashes to one of the leaves, whatever its index and proof |
| Merkle.ProofFolds | predicate/src/seller.rs:492-510 | the proof built for a position folds back to the root |
| Merkle.RootAtoms | predicate/src/seller.rs:478-490 | at every height and with every duplication, the leaf terms under the root are exactly the leaves |
| Merkle.ChunksPartition | predicate/src/seller.rs:406-419 | concatenating the chunks gives the list back, and each has 1 to 100 references |
| Merkle.ChunkAt | predicate/src/seller.rs:406-419 | chunk i is the slice from 100 i |
| Merkle.ChunkCount | predicate/src/seller.rs:406-419 | there are as many chunks as the length needs and no more |
| Merkle.MerkleRoot | predicate/src/seller.rs:478-490 | the level loop computes the root of the recursive tree, and none for no leaves |
| Merkle.RootIsTop | predicate/src/seller.rs:478-490 | the root built level by level is the top node of the tree defined downwards: node i of a level joins nodes 2i and 2i+1 of the one below, or 2i with itself at the end |
| Merkle.RootOfFive | predicate/src/seller.rs:478-490 | the root of five leaves, written out |
| Merkle.ValidRefsIff | predicate/src/seller.rs:422-440 | valid references: not empty, no zero hash, every later number larger than every earlier one |
| Merkle.MerkleProof | predicate/src/seller.rs:492-510 | the level loop collects the siblings of the recursive tree |
| Merkle.VerifyBlockAuthenticationChunk | predicate/src/seller.rs:442-468 | accepts exactly nonzero roots and valid chunks of at most 100 references whose fold is the root |
| Merkle.BlockAuthenticationChunks | predicate/src/seller.rs:393-420 | accepts exactly valid references and emits every chunk with its truncated index and its proof |
| Rlp.NextItemExact | core/src/lib.rs:76-84 | the reader returns an item if and only if the buffer starts with the encoder's one spelling of it |
| Rlp.ReadsEncoded | core/src/lib.rs:355-388 | an encoded item is read back whatever follows it |
| Rlp.OnlyEncodedIsRead | core/src/lib.rs:76-84 | nothing is read that the encoder would not write |
| Rlp.SignificantExact | core/src/lib.rs:355-381 | the stripped big-endian bytes keep the value and have no leading zero |
| Rlp.TrieIndexKeyIsRlp | core/src/lib.rs:160-175 | the trie key is the RLP encoding of the index |
| Rlp.TrieIndexKeyPrefixFree | core/src/lib.rs:160-175 | no trie key is a prefix of another |
| Rlp.ReadAllIff | core/src/lib.rs:76-84 | a buffer reads as a list of fields exactly when it is the concatenation of their encodings |
| Rlp.KnownStrings | core/src/lib.rs:367-376 | fixed vectors: the empty string, a word, and one byte on either side of 0x80 |
| Rlp.KnownIntegers | core/src/lib.rs:377-382 | fixed vectors: 0, 15 and 1024 |
| Rlp.KnownLists | core/src/lib.rs:383-388 | fixed vectors: the empty list, a list of two words, and nested empty lists |
| Rlp.KnownLengths | core/src/lib.rs:355-366 | payloads of 56 bytes and more carry the length of their length |
| Receipts.RoundTripIff | core/src/lib.rs:87-156 | status and every log survive encoding for every receipt of a type if and only if its type byte is below 0xc0 |
| Receipts.LogsRoundTrip | host/src/rpc.rs:779-822 | log i of an encoded receipt is log i, an index past the end is an error, with any type byte below 0xc0 and any deposit fields |
| Receipts.StatusRoundTrip | core/src/lib.rs:102-106 | an encoded receipt is successful exactly when its status is 1 |
| Receipts.ListByteMisread | core/src/lib.rs:87-98 | a type byte from 0xc0 is read as a list header and loses status and logs |
| Receipts.EncodeReceipt | host/src/rpc.rs:779-822 | the pushing loops build bytes that read back, item by item, as exactly the receipt: the type byte unless the type is zero, then one list of status, cumulative gas, bloom and logs, and for type 0x7e with deposit fields the nonce and the version, with nothing after |
| Receipts.EncodingSpells | host/src/rpc.rs:779-822 | the same of the encoding function, for every receipt whose encoding is shorter than 2^64 bytes |
| Receipts.OnlyEncodingSpells | host/src/rpc.rs:779-822 | and no other bytes read back as that receipt |
| Receipts.ParseReceiptLog | core/src/lib.rs:113-131 | the cursor loop over the receipt fields finds what the recursive reader finds |
| Receipts.ParseLogList | core/src/lib.rs:126-135 | the scan over the log list stops at the wanted log |
| Receipts.ParseLogBody | core/src/lib.rs:135-156 | the topic loop reads every 32-byte topic and then the data |
| Parsing.ReceiptLogIff | core/src/lib.rs:113-156 | the language of the parser: it returns log i exactly when after an optional type byte a list begins whose fourth field is a list in which the item after i others begins with a 20-byte address, a list of 32-byte topics and the data |
| Parsing.BodyIff | core/src/lib.rs:87-98 | the body opens with a list, after one type byte if the first byte is below 0xc0 |
| Parsing.StatusIff | core/src/lib.rs:102-111 | a receipt has a status exactly when its body begins with an item, and it succeeded exactly when that item is the single byte 1 |
| Parsing.ReadLogIff | core/src/lib.rs:135-156 | exactly which bytes read as which log |
| Parsing.ScanIff | core/src/lib.rs:126-135 | the scan passes over exactly `index` items |
| Selector.SelectCaseFundings | scripts/build-case.py:422-474 | succeeds exactly when each buyer has candidates worth, at 105%, what it settled and still holds, and selects for each buyer in turn the shortest start of its candidates, the largest first and equal amounts by hash, that is worth as much; the top-up adds nothing |
| Selector.ChoiceIff | scripts/build-case.py:433-447 | that start exists exactly when all candidates are worth enough, is unique, and is the greedy choice |
| Selector.ChoiceIsOptimal | scripts/build-case.py:433-447 | the greedy choice is part of the candidates, reaches the target whenever they can, and no smaller part does |
| Selector.RequiredFundingIsLeast | scripts/build-case.py:417-419 | the target is the least funding that meets the ledger inequality |
| Prelude.CeilDivIsLeast | scripts/build-case.py:57-58 | the quotient is the least one whose multiple reaches the numerator |
| Selector.AggregateIsReached | scripts/build-case.py:458-473 | meeting every ledger target already reaches the aggregate target |
| Selector.PicksCover | scripts/build-case.py:458-473 | the selected fundings cover the settled volume up to the ledger tolerance |
| Selector.SelectionMeetsLedger | predicate/src/closed_loop.rs:293-297 | the selection meets the exact ledger inequality and no smaller subset does |
| Selector.SelectionPassesVerifier | predicate/src/closed_loop.rs:293-297 | and so passes the verifier's wrapping check when the product does not wrap |
| Selector.SelectFor | scripts/build-case.py:430-456 | the inner loop takes the optimal choice, leaves the rest, and fails exactly when the buyer cannot be covered |
| Selector.TopUp | scripts/build-case.py:463-468 | the top-up stops at the first moment the target is reached |
| Selector.CohortFits | scripts/build-case.py:412-414 | the cohort is exactly the buyers funded and settled, ascending and without the funder |
| Scan.GetLogs | scripts/build-case.py:148-173 | for every pattern of refusals a finished scan returns the full-range log list in order through served windows that tile the range; its calls follow the span policy exactly, from 2000000 blocks, doubled after an answer and quartered after a refusal, between 10000 and 2000000, and it ends with every block read, on a failure, or on a refusal it cannot narrow |
| Scan.TilesCover | scripts/build-case.py:148-173 | tiling windows are disjoint, ordered, and contain exactly the blocks of the range |
| Scan.FindSettlementLogs | host/src/rpc.rs:124-160 | returns the first `max` logs of the range in order; its calls are consecutive windows of 100000 blocks, and it stops as soon as it has enough |
| Scan.RangeSplit | scripts/build-case.py:155-169 | the logs of adjacent windows concatenate to the logs of their union |
| WorkerPool.RunInv | host/src/rpc.rs:290-337 | the invariant of every reachable state of every interleaving: indexes taken in order, each held by one worker or stored, each stored value evidence for its own target |
| WorkerPool.TakenAndStoredOnce | host/src/rpc.rs:297-335 | no index is taken twice and no slot is written twice |
| WorkerPool.JoinedIsMap | host/src/rpc.rs:336-344 | after the join every slot holds evidence for its own target, for any worker count and schedule |
| WorkerPool.JoinedIffAllSteps | host/src/rpc.rs:295-337 | a run has joined exactly when it took 3 n + workers steps, and no run is longer |
| WorkerPool.WorkersAre | host/src/rpc.rs:299 | as many idle threads as asked for, at least one and no more than targets |
| WorkerPool.StepEnabled | host/src/rpc.rs:295-337 | no thread waits for another: each that has not left its loop has a step of its own, and which |
| WorkerPool.Collect | host/src/rpc.rs:338-343 | the collection is the list of values, or the first failure |
| Cache.MergeCachedBlockEvidence | host/src/rpc.rs:453-518 | succeeds exactly when the entries of the chosen block cover the targets, and then has exactly the receipts and transactions of a direct fetch, all from one block hash; its log positions are the fetched ones if and only if receipts were asked for or none were picked up before coverage |
| Cache.CoversIff | host/src/rpc.rs:464-500 | coverage in terms of the files: those of version 1 for this block number with the header of the first such file together hold a proof for every target |
| Cache.MergedFromFiles | host/src/rpc.rs:464-515 | every proof of a merge was in such a file, and there is one for each target, in target order |
| Cache.LoadIff | host/src/rpc.rs:546-601 | a file loads, as it is, exactly when it is of version 1 for this block, was written for these very targets, and holds proofs for them and for nothing else |
| Cache.MergeProofs | host/src/rpc.rs:486-497 | the wanted proofs are added and earlier ones stay |
| Cache.BlockCache.CachedBlockEvidence | host/src/rpc.rs:346-379 | a file answers as it is; without one, files that cover the targets answer with their merge and otherwise the fetch answers; every file stays an extract of its block, and only the call's own file is written |
| Cache.MergedPositionsDiffer | host/src/rpc.rs:346-379 | a run of the cache in which a merge has log positions and the direct fetch none |
| SharedCache.RunInv | host/src/rpc.rs:290-379 | under overlapping calls, with every file access its own step and a merge known to be right only for files that are extracts, every file and every entry about to be written is an extract of its block for its own targets |
| SharedCache.AnswersAreExtracts | host/src/rpc.rs:346-379 | so is every answer, with the log positions of a direct fetch when receipts were asked for |
| SharedCache.ReadFilesProject | host/src/rpc.rs:466-498 | every file a merge reads, at whatever moment, is an extract it may rely on |
| SharedCache.RunIsBounded | host/src/rpc.rs:346-379 | no schedule of the calls takes more steps than the listed files and three for each call |
| SharedCache.EndedIffStuck | host/src/rpc.rs:346-379 | a run can go on exactly while some call has not ended |
| SharedCache.AloneIsSequential | host/src/rpc.rs:346-379 | a call that no other interrupts ends as the sequential method: its own file answers as it is, otherwise the listed files with their merge if they cover the targets, otherwise the fetch, and only its own file is written |
| Cache.MergeExists | host/src/rpc.rs:453-518 | files that are extracts and cover the targets have a merge |
| EvidencePool.JoinedHoldsEvidence | host/src/rpc.rs:278-344 | with each worker running the cache call of the target it took, step by step, after the join slot i holds the answer of the call for target i, which is the evidence of one block for it, or an error exactly where that call failed, under every schedule |
| EvidencePool.RunIsBounded | host/src/rpc.rs:295-337 | every such schedule ends within three steps a target, one a worker, and the steps of the calls |
| EvidencePool.StepEnabled | host/src/rpc.rs:295-337 | and each worker that has not left, or the call it runs, has a step |
| Cache.ExtractLoads | host/src/rpc.rs:546-601 | what a fetch or merge writes passes the loading check |
| Cache.LoadedHoldsTargets | host/src/rpc.rs:546-601 | a loaded extract holds proofs for the targets and for nothing else |
| Cache.FaithfulProjects | host/src/rpc.rs:546-601 | a file written by the cache loads under its own key and may be merged |
| Cache.CanonicalOfIncreasing | host/src/rpc.rs:520-525 | canonical targets are a fixed point of sorting and deduplication |
| Extension.ExtensionKeepsLegs | host/src/bin/wash-trading-expand-returns.rs:157-170 | extending accepted evidence keeps FUND, SETTLE and LEDGER and the proven volume; acceptance then depends on authentication and the new returns only |
| Extension.ExtensionAcceptedIff | host/src/bin/wash-trading-expand-returns.rs:157-170 | when everything fetched is authentic, the extended claim is accepted exactly when its blocks are at most 65536 and its new return paths hold |
| Extension.ExtensionKeepsCommitted | host/src/bin/wash-trading-expand-returns.rs:165-170 | the committed journals of the original and the extended claim have the same proven volume, total volume and evidence digest |
| Extension.SameDecoding | host/src/bin/wash-trading-expand-returns.rs:103-122 | every earlier log reference keeps its key, decodings, time and signer |
| Extension.SameRead | host/src/bin/wash-trading-expand-returns.rs:103-122 | every earlier state read keeps its value |
| Extension.Extender.Add | host/src/bin/wash-trading-expand-returns.rs:104-121 | one fetched block is appended, or its new receipts are appended to the block of its number; earlier positions stay, numbers and indexes stay unique, its receipts become available, and it fails exactly on a conflicting header |
| Extension.Extender.Extend | host/src/bin/wash-trading-expand-returns.rs:103-122 | fails exactly when two blocks of one number have different headers; otherwise the evidence has grown by the fetched headers and receipts, and authentic evidence stays authentic |
| Extension.AppendReceipts | host/src/bin/wash-trading-expand-returns.rs:109-117 | appended are exactly the receipts whose index is not there yet, the first of each, in their order |
| Extension.FindReceipt | host/src/bin/wash-trading-expand-returns.rs:130-134 | a position is found exactly when the index is there |
| Extension.ReferencePath | host/src/bin/wash-trading-expand-returns.rs:126-155 | a path is referenced exactly when each hop has a reference with its position, transfer and time, and then by such references |
| Extension.OnlyReference | host/src/bin/wash-trading-expand-returns.rs:127-139 | that reference is unique |
| Extension.DenotesIff | host/src/bin/wash-trading-expand-returns.rs:136-152 | a reference denotes a hop exactly when it finds, at the hop's place and time, a USDC transfer of its amount between its two addresses |
| Extension.AddTargets | host/src/bin/wash-trading-expand-returns.rs:76-93 | exactly the unavailable receipts of a path are added to what is asked for |
| Extension.MissingTargets | host/src/bin/wash-trading-expand-returns.rs:75-93 | exactly the wanted and unavailable receipts of all paths are asked for |
| Extension.Expand | host/src/bin/wash-trading-expand-returns.rs:69-156 | succeeds exactly when the fetch does, no headers conflict and every hop can be referenced in the extended blocks; then every path denotes its hops; once extended, every receipt the paths name is there |
| Extension.RecomputeCredit | host/src/bin/wash-trading-expand-returns.rs:179-187 | the recomputed minimum of an accepted path is its credit |
| Extension.RecomputeCredits | host/src/bin/wash-trading-expand-returns.rs:177-189 | the recomputed credit is the sum inside the return check, the least amount of each path added up, and cannot overflow |

## Left out

* Error texts: contracts say exactly when an operation fails, not with which message.
* Trie proofs, transaction decoding, signer recovery and storage proofs: arbitrary deterministic functions (`Oracle`).
* ABI and JSON encodings: claim identifiers, the cohort hash, the evidence hash and the evidence digest are free terms over
  what is encoded, and the constant chain, predicate and version fields are left out of them.
* RLP of account leaves, storage slot hashing and `leaf_value`: behind the storage oracle.
- Receipts.LogsRoundTrip: for encodings below 2^64 bytes, 20-byte addresses, 32-byte topics and 64-bit status and gas, as the types of the original fix them; hex parsing of the JSON fields is not modelled.
- Selector.SelectCaseFundings: buyers missing from one of the maps (a key error in the original) are a precondition; amounts are unbounded as in the original; transaction hashes are compared as numbers.
- Scan.GetLogs: the client's retries, timeouts and error-text matching are folded into the node's answer to one call.
- WorkerPool.JoinedIsMap: progress counters, poisoned locks and panicking workers are not steps of the model; one computation step gives any evidence for the target, and EvidencePool puts the steps of the cache calls in its place.
- Cache.BlockCache.CachedBlockEvidence: file names are the targets themselves rather than their digest; unreadable files count as absent; overlapping calls are in SharedCache.
- SharedCache.RunInv: a write puts the whole file in place in one step, as a rename does; failures of file access other than a missing file are not steps.
- Extension.Expand: the final floor on the recomputed credit and the report files are left out.
* `_trace_chain` and `find_returns`: a heuristic search with floating-point thresholds that promises no completeness.
* SP1 proving, network requests, pricing, checkpoints, artifact files and command-line handling.
* That the proven volume is at most the seller's total volume: the program does not check it.
