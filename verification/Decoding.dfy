/** What a reference stands for, in terms of the bytes of the evidence alone: the log it finds, the event the log spells
    out, and who signed its transaction. The resolver is proved to read exactly this. */
module Decoding {
  import opened Prelude
  import opened Hashing
  import opened Rlp
  import opened Receipts
  import opened Evidence

  // ── Low bytes ─────────────────────────────────────────────────────────

  lemma {:induction false} BeNatConcat(a: Bytes, b: Bytes)
    ensures BeNat(a + b) == BeNat(a) * Power(256, |b|) + BeNat(b)
  {
    if b == [] {
      assert a + b == a;
    } else {
      var init, last := b[..|b| - 1], b[|b| - 1];
      assert (a + b)[..|a + b| - 1] == a + init;
      BeNatConcat(a, init);
      ShiftDigit(BeNat(a), Power(256, |init|), BeNat(init), last);
    }
  }

  lemma ShiftDigit(x: nat, p: nat, y: nat, last: nat)
    ensures (x * p + y) * 256 + last == x * (256 * p) + (y * 256 + last)
  {
  }

  lemma {:induction false} AddMultiple(x: nat, y: nat)
    requires y < ADDRESS_LIMIT
    ensures (x * ADDRESS_LIMIT + y) % ADDRESS_LIMIT == y
    decreases x
  {
    if x > 0 {
      AddMultiple(x - 1, y);
      assert x * ADDRESS_LIMIT + y == (x - 1) * ADDRESS_LIMIT + y + ADDRESS_LIMIT;
    }
  }

  lemma AddressLimit()
    ensures Power(256, 20) == ADDRESS_LIMIT
  {
    Pow256Values();
    assert Power(256, 20) == U128_LIMIT * U32_LIMIT;
  }

  /** The address of a topic is its last 20 bytes. */
  lemma TopicAddressIs(topic: Bytes)
    requires |topic| == 32
    ensures TopicAddress(topic) == BeNat(topic[12..]) < ADDRESS_LIMIT
  {
    assert topic == topic[..12] + topic[12..];
    BeNatConcat(topic[..12], topic[12..]);
    BeNatBound(topic[12..]);
    AddressLimit();
    AddMultiple(BeNat(topic[..12]), BeNat(topic[12..]));
  }

  // ── Events ────────────────────────────────────────────────────────────

  /** `Transfer(from, to, amount)` of the USDC contract. */
  predicate IsTransfer(log: ParsedLog, from: Address, to: Address, amount: nat) {
    && BeNat(log.address) == 0x833589fCD6eDb6E08f4c7C32D4f71b54bdA02913
    && |log.topics| == 3 && |log.topics[1]| == |log.topics[2]| == 32
    && BeNat(log.topics[0]) == 0xddf252ad1be2c89b69c2b068fc378daa952ba7f163c4a11628f55a4df523b3ef
    && BeNat(log.topics[1][12..]) == from && BeNat(log.topics[2][12..]) == to
    && |log.data| == 32 && BeNat(log.data) == amount < 0x1_0000_0000_0000_0000_0000_0000_0000_0000
  }

  /** `ChannelSettled(channel, buyer, seller, .., amount, ..)` of the channels contract: the amount
      is the second word. */
  predicate IsSettlement(log: ParsedLog, buyer: Address, seller: Address, amount: nat) {
    && BeNat(log.address) == 0xBA66d3b4fbCf472F6F11D6F9F96aaCE96516F09d
    && |log.topics| == 4 && |log.topics[2]| == |log.topics[3]| == 32
    && BeNat(log.topics[0]) == 0x0b287f37d8bd14ef37f2966734ab387c243cc1a1663616a25a4cc259877736b1
    && BeNat(log.topics[2][12..]) == buyer && BeNat(log.topics[3][12..]) == seller
    && |log.data| >= 64 && BeNat(log.data[32..64]) == amount < 0x1_0000_0000_0000_0000_0000_0000_0000_0000
  }

  /** `Deposited(buyer, amount)` of the deposits contract. */
  predicate IsDeposit(log: ParsedLog, buyer: Address, amount: nat) {
    && BeNat(log.address) == 0x0F7a3a8f4Da01637d1202bb5443fcF7F88F99fD2
    && |log.topics| == 2 && |log.topics[1]| == 32
    && BeNat(log.topics[0]) == 0x2da466a7b24304f47e87fa2e1e5a81b9831ce54fec19055ce277ca2f39ba42c4
    && BeNat(log.topics[1][12..]) == buyer
    && |log.data| == 32 && BeNat(log.data) == amount < 0x1_0000_0000_0000_0000_0000_0000_0000_0000
  }

  // ── Found logs ────────────────────────────────────────────────────────

  /** A log at its place on chain. */
  datatype Event = Event(number: nat, transaction: nat, log: nat, time: nat, content: ParsedLog)

  /** The log a reference finds: in a receipt that succeeded. */
  function Found(chain: ChainResolver, r: LogRef): Option<Event> {
    if r.block < |chain.blocks| && r.receipt < |chain.blocks[r.block].receipts| then
      var block := chain.blocks[r.block];
      var receipt := block.receipts[r.receipt];
      match (ReceiptSuccess(receipt.value), ReceiptLog(receipt.value, r.log))
      case (Ok(true), Ok(content)) =>
        Some(Event(block.header.number, receipt.txIndex, r.log, block.header.timestamp, content))
      case _ => None
    else None
  }

  /** Before, in the order of the chain. */
  predicate Earlier(a: Event, b: Event) {
    || a.number < b.number
    || (a.number == b.number && a.transaction < b.transaction)
    || (a.number == b.number && a.transaction == b.transaction && a.log < b.log)
  }

  lemma {:induction false} TopicsAreWords(buf: Bytes)
    requires ReadTopics(buf).Ok?
    ensures forall t :: 0 <= t < |ReadTopics(buf).value| ==> |ReadTopics(buf).value[t]| == 32
    decreases |buf|
  {
    if buf != [] {
      NextItemShrinks(buf);
      TopicsAreWords(NextItem(buf).value.rest);
    }
  }

  lemma {:induction false} ScannedIsWellTyped(logs: Bytes, index: nat)
    requires ScanLogs(logs, index).Ok?
    ensures WellTypedLog(ScanLogs(logs, index).value)
    decreases |logs|
  {
    NextItemShrinks(logs);
    var i := NextItem(logs).value;
    if index == 0 {
      TopicsAreWords(NextItem(NextItem(i.payload).value.rest).value.payload);
    } else {
      ScannedIsWellTyped(i.rest, index - 1);
    }
  }

  /** A parsed log has a 20-byte address and 32-byte topics. */
  lemma ParsedIsWellTyped(receipt: Bytes, index: nat)
    requires ReceiptLog(receipt, index).Ok?
    ensures WellTypedLog(ReceiptLog(receipt, index).value)
  {
    hide NextItem, ScanLogs;
    var tail := Skip(ReceiptBody(receipt).value, 3).value;
    ScannedIsWellTyped(NextItem(tail).value.payload, index);
  }

  /** The resolver finds exactly the logs of successful receipts, at their place. */
  lemma ResolvesIff(chain: ChainResolver, r: LogRef)
    ensures chain.Log(r).Ok? <==> Found(chain, r).Some?
    ensures chain.Key(r).Ok? <==> Found(chain, r).Some?
    ensures Found(chain, r).Some? ==>
      var e := Found(chain, r).value;
      && chain.Log(r).value.log == e.content && WellTypedLog(e.content)
      && chain.Log(r).value.block == chain.blocks[r.block]
      && chain.Log(r).value.receipt == chain.blocks[r.block].receipts[r.receipt]
      && chain.Key(r) == Ok(LogKey(e.number, e.transaction, e.log))
      && chain.Timestamp(r) == Ok(e.time)
  {
    hide ReceiptSuccess, ReceiptLog;
    if Found(chain, r).Some? {
      ParsedIsWellTyped(chain.blocks[r.block].receipts[r.receipt].value, r.log);
    }
  }

  /** The resolver decodes a transfer exactly where the log is one. */
  lemma TransferIff(chain: ChainResolver, r: LogRef, t: Transfer)
    ensures chain.UsdcTransfer(r) == Ok(t)
      <==> Found(chain, r).Some? && IsTransfer(Found(chain, r).value.content, t.from, t.to, t.amount)
           && t.block == Found(chain, r).value.number
  {
    ResolvesIff(chain, r);
    hide ChainResolver.Log, Found, TopicAddress;
    if Found(chain, r).Some? && |Found(chain, r).value.content.topics| == 3 {
      TopicAddressIs(Found(chain, r).value.content.topics[1]);
      TopicAddressIs(Found(chain, r).value.content.topics[2]);
      NumberIs(chain, r);
    }
  }

  lemma NumberIs(chain: ChainResolver, r: LogRef)
    requires Found(chain, r).Some?
    ensures chain.blocks[r.block].header.number == Found(chain, r).value.number
  {
  }

  lemma SettlementIff(chain: ChainResolver, r: LogRef, s: Settlement)
    ensures chain.SettlementAt(r) == Ok(s)
      ==> Found(chain, r).Some? && IsSettlement(Found(chain, r).value.content, s.buyer, s.seller, s.amount)
          && s.block == Found(chain, r).value.number
    ensures Found(chain, r).Some? && IsSettlement(Found(chain, r).value.content, s.buyer, s.seller, s.amount)
      ==> chain.SettlementAt(r).Ok? && chain.SettlementAt(r).value.(channel := 0)
          == Settlement(0, s.buyer, s.seller, s.amount, Found(chain, r).value.number)
  {
    ResolvesIff(chain, r);
    hide ChainResolver.Log, Found, TopicAddress;
    if Found(chain, r).Some? && |Found(chain, r).value.content.topics| == 4 {
      TopicAddressIs(Found(chain, r).value.content.topics[2]);
      TopicAddressIs(Found(chain, r).value.content.topics[3]);
      NumberIs(chain, r);
    }
  }

  lemma DepositIff(chain: ChainResolver, r: LogRef, d: Deposit)
    ensures chain.ProtocolDeposit(r) == Ok(d)
      <==> Found(chain, r).Some? && IsDeposit(Found(chain, r).value.content, d.buyer, d.amount)
           && d.block == Found(chain, r).value.number
  {
    ResolvesIff(chain, r);
    hide ChainResolver.Log, Found, TopicAddress;
    if Found(chain, r).Some? && |Found(chain, r).value.content.topics| == 2 {
      TopicAddressIs(Found(chain, r).value.content.topics[1]);
      NumberIs(chain, r);
    }
  }

  // ── Signatures ────────────────────────────────────────────────────────

  /** Transaction proof `k` is the only one with this index, and recovers to `who`. */
  ghost predicate OnlySigned(o: Oracle, transactions: seq<TransactionProof>, txIndex: nat, who: Address, k: nat) {
    && k < |transactions| && transactions[k].txIndex == txIndex && o.signer(transactions[k].value) == Ok(who)
    && forall j :: 0 <= j < |transactions| && j != k ==> transactions[j].txIndex != txIndex
  }

  /** The transaction of the log is proven once, and signed by `who`. */
  ghost predicate Signs(chain: ChainResolver, r: LogRef, who: Address) {
    && Found(chain, r).Some?
    && exists k :: OnlySigned(chain.oracle, chain.blocks[r.block].transactions, Found(chain, r).value.transaction,
      who, k)
  }

  lemma {:induction false} CountsOnce(chain: ChainResolver, t: seq<TransactionProof>, txIndex: nat)
    ensures chain.CountTransactions(t, txIndex) == 0 <==> forall j :: 0 <= j < |t| ==> t[j].txIndex != txIndex
    ensures chain.TransactionAt(t, txIndex).Some? ==>
      exists k :: 0 <= k < |t| && FirstAt(t, txIndex, k, chain.TransactionAt(t, txIndex).value)
    ensures chain.TransactionAt(t, txIndex).None? <==> chain.CountTransactions(t, txIndex) == 0
    ensures chain.CountTransactions(t, txIndex) == 1 <==> exists k :: 0 <= k < |t| && OnlyAt(t, txIndex, k)
  {
    if t != [] {
      CountsOnce(chain, t[1..], txIndex);
      var rest := t[1..];
      if t[0].txIndex == txIndex {
        assert FirstAt(t, txIndex, 0, t[0]);
        if chain.CountTransactions(rest, txIndex) == 0 {
          assert OnlyAt(t, txIndex, 0) by {
            forall j | 0 < j < |t|
              ensures t[j].txIndex != txIndex
            {
              assert rest[j - 1] == t[j];
            }
          }
        } else {
          var j :| 0 <= j < |rest| && rest[j].txIndex == txIndex;
          assert t[j + 1].txIndex == txIndex;
        }
      } else {
        if chain.TransactionAt(rest, txIndex).Some? {
          var k :| 0 <= k < |rest| && FirstAt(rest, txIndex, k, chain.TransactionAt(rest, txIndex).value);
          assert FirstAt(t, txIndex, k + 1, chain.TransactionAt(rest, txIndex).value) by {
            forall j | 0 <= j < k + 1
              ensures t[j].txIndex != txIndex
            {
              assert j > 0 ==> rest[j - 1] == t[j];
            }
          }
        }
        if exists k :: 0 <= k < |rest| && OnlyAt(rest, txIndex, k) {
          var k :| 0 <= k < |rest| && OnlyAt(rest, txIndex, k);
          assert OnlyAt(t, txIndex, k + 1) by {
            forall j | 0 <= j < |t| && j != k + 1
              ensures t[j].txIndex != txIndex
            {
              assert j > 0 ==> rest[j - 1] == t[j];
            }
          }
        }
        if exists k :: 0 <= k < |t| && OnlyAt(t, txIndex, k) {
          var k :| 0 <= k < |t| && OnlyAt(t, txIndex, k);
          assert OnlyAt(rest, txIndex, k - 1) by {
            forall j | 0 <= j < |rest| && j != k - 1
              ensures rest[j].txIndex != txIndex
            {
              assert rest[j] == t[j + 1];
            }
          }
        }
      }
    }
  }

  ghost predicate OnlyAt(t: seq<TransactionProof>, txIndex: nat, k: nat) {
    && k < |t| && t[k].txIndex == txIndex
    && forall j :: 0 <= j < |t| && j != k ==> t[j].txIndex != txIndex
  }

  ghost predicate FirstAt(t: seq<TransactionProof>, txIndex: nat, k: nat, p: TransactionProof) {
    && k < |t| && t[k] == p && p.txIndex == txIndex
    && forall j :: 0 <= j < k ==> t[j].txIndex != txIndex
  }

  /** The resolver's signer check. */
  lemma SignedByIff(chain: ChainResolver, r: LogRef, who: Address)
    ensures chain.SignedBy(who, r) <==> Signs(chain, r, who)
  {
    ResolvesIff(chain, r);
    hide ChainResolver.Log;
    if Found(chain, r).Some? {
      var t, index := chain.blocks[r.block].transactions, Found(chain, r).value.transaction;
      hide Found;
      CountsOnce(chain, t, index);
      SignedOnce(chain, t, index, who);
    }
  }

  lemma SignedOnce(chain: ChainResolver, t: seq<TransactionProof>, index: nat, who: Address)
    ensures (exists k :: OnlySigned(chain.oracle, t, index, who, k))
      <==> chain.CountTransactions(t, index) == 1 && chain.TransactionAt(t, index).Some?
           && chain.oracle.signer(chain.TransactionAt(t, index).value.value) == Ok(who)
  {
    CountsOnce(chain, t, index);
    if chain.CountTransactions(t, index) == 1 && chain.TransactionAt(t, index).Some? {
      var k :| 0 <= k < |t| && FirstAt(t, index, k, chain.TransactionAt(t, index).value);
      var m :| 0 <= m < |t| && OnlyAt(t, index, m);
      assert k == m;
      if chain.oracle.signer(t[k].value) == Ok(who) {
        assert OnlySigned(chain.oracle, t, index, who, k);
      }
    }
    if k :| OnlySigned(chain.oracle, t, index, who, k) {
      assert OnlyAt(t, index, k);
    }
  }
}
