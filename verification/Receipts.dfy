/** Receipts: the host's trie-value encoder and the guest's parser. The parser only interprets the status and
    the log list; the theorems say it recovers exactly what was encoded. */
module Receipts {
  import opened Prelude
  import opened Rlp

  datatype ParsedLog = ParsedLog(address: Bytes, topics: seq<Bytes>, data: Bytes)

  datatype DepositFields = DepositFields(nonce: u64, version: u64)

  datatype Receipt = Receipt(
    ty: u64,
    status: u64,
    cumulativeGas: u64,
    bloom: Bytes,
    logs: seq<ParsedLog>,
    deposit: Option<DepositFields>)

  const DEPOSIT_TYPE: nat := 0x7e

  // ── Encoder ───────────────────────────────────────────────────────────

  function LogItems(log: ParsedLog): seq<Bytes> {
    [RlpBytes(log.address), RlpList(Map(RlpBytes, log.topics)), RlpBytes(log.data)]
  }

  function EncodeLog(log: ParsedLog): Bytes {
    RlpList(LogItems(log))
  }

  function DepositTail(r: Receipt): seq<Bytes> {
    if r.ty == DEPOSIT_TYPE && r.deposit.Some? then
      [RlpUint(r.deposit.value.nonce), RlpUint(r.deposit.value.version)]
    else []
  }

  function Fields(r: Receipt): seq<Bytes> {
    [RlpUint(r.status), RlpUint(r.cumulativeGas), RlpBytes(r.bloom), RlpList(Map(EncodeLog, r.logs))] + DepositTail(r)
  }

  function Envelope(r: Receipt): Bytes {
    if r.ty == 0 then [] else [r.ty % 256]
  }

  function Encoding(r: Receipt): Bytes {
    Envelope(r) + RlpList(Fields(r))
  }

  // ── What an encoding spells ───────────────────────────────────────────

  /** A canonical integer. */
  predicate IsInteger(f: Field, v: nat) {
    !f.list && BeNat(f.payload) == v && (f.payload != [] ==> f.payload[0] != 0)
  }

  /** Address, topics and data, and nothing else. */
  ghost predicate SpellsLog(f: Field, log: ParsedLog) {
    && f.list && ReadAll(f.payload).Ok?
    && var items := ReadAll(f.payload).value;
    && |items| == 3 && items[0] == Field(false, log.address) && items[2] == Field(false, log.data)
    && items[1].list && ReadAll(items[1].payload).Ok?
    && var topics := ReadAll(items[1].payload).value;
    && |topics| == |log.topics| && forall t :: 0 <= t < |topics| ==> topics[t] == Field(false, log.topics[t])
  }

  /** The type byte unless the type is zero, then one list, read item by item: status, cumulative gas, bloom, logs, and
      for a deposit that has them the nonce and the version. */
  ghost predicate Spells(out: Bytes, r: Receipt) {
    && (r.ty != 0 ==> out != [] && out[0] == r.ty % 256)
    && var whole := ReadAll(if r.ty == 0 then out else out[1..]);
    && whole.Ok? && |whole.value| == 1 && whole.value[0].list
    && ReadAll(whole.value[0].payload).Ok?
    && var items := ReadAll(whole.value[0].payload).value;
    && |items| == (if r.ty == 0x7e && r.deposit.Some? then 6 else 4)
    && IsInteger(items[0], r.status) && IsInteger(items[1], r.cumulativeGas) && items[2] == Field(false, r.bloom)
    && items[3].list && ReadAll(items[3].payload).Ok?
    && var logs := ReadAll(items[3].payload).value;
    && |logs| == |r.logs| && (forall k :: 0 <= k < |logs| ==> SpellsLog(logs[k], r.logs[k]))
    && (|items| == 6 ==> IsInteger(items[4], r.deposit.value.nonce) && IsInteger(items[5], r.deposit.value.version))
  }

  function BytesField(b: Bytes): Field {
    Field(false, b)
  }

  function UintField(v: nat): Field {
    Field(false, Significant(v, 16))
  }

  function LogFields(log: ParsedLog): seq<Field> {
    [BytesField(log.address), Field(true, Concat(Map(RlpBytes, log.topics))), BytesField(log.data)]
  }

  function LogField(log: ParsedLog): Field {
    Field(true, Concat(LogItems(log)))
  }

  function ReceiptFields(r: Receipt): seq<Field> {
    [UintField(r.status), UintField(r.cumulativeGas), BytesField(r.bloom), Field(true, Concat(Map(EncodeLog, r.logs)))]
    + (if r.ty == DEPOSIT_TYPE && r.deposit.Some?
       then [UintField(r.deposit.value.nonce), UintField(r.deposit.value.version)] else [])
  }

  lemma EncodedField(f: Field)
    ensures Encoded(f) == if f.list then LenPrefix(0xc0, |f.payload|) + f.payload else RlpBytes(f.payload)
    ensures |f.payload| <= |Encoded(f)|
  {
  }

  lemma {:induction false} EncodedFit(fields: seq<Field>)
    requires |Concat(Map(Encoded, fields))| < U64_LIMIT
    ensures FieldsFit(fields)
  {
    forall k | 0 <= k < |fields|
      ensures |fields[k].payload| < U64_LIMIT
    {
      ConcatLength(Map(Encoded, fields), k);
      EncodedField(fields[k]);
    }
  }

  lemma SpelledUint(v: u64)
    ensures IsInteger(UintField(v), v)
  {
    Pow256Values();
    Pow256Monotone(8, 16);
    SignificantExact(v, 16);
  }

  lemma TopicsAreFields(topics: seq<Bytes>)
    ensures Map(RlpBytes, topics) == Map(Encoded, Map(BytesField, topics))
  {
  }

  lemma LogSpelled(log: ParsedLog)
    requires |Concat(LogItems(log))| < U64_LIMIT
    ensures SpellsLog(LogField(log), log)
  {
    hide LenPrefix, RlpBytes, Concat;
    var fields, topics := LogFields(log), Map(BytesField, log.topics);
    assert Map(Encoded, fields) == LogItems(log);
    EncodedFit(fields);
    ReadAllIff(Concat(LogItems(log)), fields);
    TopicsAreFields(log.topics);
    assert |fields[1].payload| < U64_LIMIT;
    EncodedFit(topics);
    ReadAllIff(fields[1].payload, topics);
  }

  lemma LogsSpelled(logs: seq<ParsedLog>)
    requires |Concat(Map(EncodeLog, logs))| < U64_LIMIT
    ensures ReadAll(Concat(Map(EncodeLog, logs))) == Ok(Map(LogField, logs))
    ensures forall k :: 0 <= k < |logs| ==> SpellsLog(LogField(logs[k]), logs[k])
  {
    hide LenPrefix, Concat, LogItems;
    var fields := Map(LogField, logs);
    assert Map(Encoded, fields) == Map(EncodeLog, logs);
    EncodedFit(fields);
    ReadAllIff(Concat(Map(EncodeLog, logs)), fields);
    forall k | 0 <= k < |logs|
      ensures SpellsLog(LogField(logs[k]), logs[k])
    {
      assert |fields[k].payload| < U64_LIMIT;
      LogSpelled(logs[k]);
    }
  }

  lemma WholeSpelled(r: Receipt)
    requires |Encoding(r)| < U64_LIMIT
    ensures ReadAll(if r.ty == 0 then Encoding(r) else Encoding(r)[1..]) == Ok([Field(true, Concat(Fields(r)))])
    ensures |Concat(Fields(r))| < U64_LIMIT
  {
    hide LenPrefix, RlpBytes, Concat, Fields;
    var inner, whole := RlpList(Fields(r)), [Field(true, Concat(Fields(r)))];
    assert Map(Encoded, whole) == [inner];
    OneItem();
    EncodedField(whole[0]);
    ReadAllIff(inner, whole);
    assert (if r.ty == 0 then Encoding(r) else Encoding(r)[1..]) == inner;
  }

  lemma FieldsSpelled(r: Receipt)
    requires |Concat(Fields(r))| < U64_LIMIT
    ensures ReadAll(Concat(Fields(r))) == Ok(ReceiptFields(r))
    ensures |Concat(Map(EncodeLog, r.logs))| < U64_LIMIT
  {
    hide LenPrefix, RlpBytes, Concat, Significant, EncodeLog;
    var fields := ReceiptFields(r);
    assert Map(Encoded, fields) == Fields(r);
    EncodedFit(fields);
    ReadAllIff(Concat(Fields(r)), fields);
    assert |fields[3].payload| < U64_LIMIT;
  }

  /** The encoding spells its receipt. */
  lemma EncodingSpells(r: Receipt)
    requires |Encoding(r)| < U64_LIMIT
    ensures Spells(Encoding(r), r)
  {
    hide LenPrefix, RlpBytes, Concat, SpellsLog, IsInteger, Significant, EncodeLog, ReadAll, RlpList;
    WholeSpelled(r);
    FieldsSpelled(r);
    LogsSpelled(r.logs);
    SpelledUint(r.status);
    SpelledUint(r.cumulativeGas);
    if r.deposit.Some? {
      SpelledUint(r.deposit.value.nonce);
      SpelledUint(r.deposit.value.version);
    }
    assert r.ty != 0 ==> Encoding(r)[0] == r.ty % 256;
  }

  lemma OneInteger(f: Field, v: u64)
    requires IsInteger(f, v)
    ensures f == UintField(v)
  {
    SpelledUint(v);
    BeNatInjective(f.payload, UintField(v).payload);
  }

  lemma OneLog(f: Field, log: ParsedLog)
    requires SpellsLog(f, log)
    ensures f == LogField(log)
  {
    hide LenPrefix, RlpBytes, Concat, ReadAll;
    var items := ReadAll(f.payload).value;
    ReadAllIff(f.payload, items);
    var topics := ReadAll(items[1].payload).value;
    ReadAllIff(items[1].payload, topics);
    assert topics == Map(BytesField, log.topics);
    TopicsAreFields(log.topics);
    assert items == LogFields(log);
    assert Map(Encoded, items) == LogItems(log);
  }

  lemma OneLogList(payload: Bytes, logs: seq<ParsedLog>)
    requires ReadAll(payload).Ok? && |ReadAll(payload).value| == |logs|
    requires forall k :: 0 <= k < |logs| ==> SpellsLog(ReadAll(payload).value[k], logs[k])
    ensures payload == Concat(Map(EncodeLog, logs))
  {
    hide LenPrefix, RlpBytes, Concat, ReadAll, SpellsLog, LogItems;
    var fields := ReadAll(payload).value;
    ReadAllIff(payload, fields);
    forall k | 0 <= k < |logs|
      ensures fields[k] == LogField(logs[k])
    {
      OneLog(fields[k], logs[k]);
    }
    assert Map(Encoded, fields) == Map(EncodeLog, logs);
  }

  /** And nothing else spells it. */
  lemma OnlyEncodingSpells(out: Bytes, r: Receipt)
    requires Spells(out, r)
    ensures out == Encoding(r)
  {
    hide LenPrefix, RlpBytes, Concat, SpellsLog, IsInteger, Significant, EncodeLog, ReadAll;
    var whole := ReadAll(if r.ty == 0 then out else out[1..]).value;
    ReadAllIff(if r.ty == 0 then out else out[1..], whole);
    var items := ReadAll(whole[0].payload).value;
    ReadAllIff(whole[0].payload, items);
    OneInteger(items[0], r.status);
    OneInteger(items[1], r.cumulativeGas);
    OneLogList(items[3].payload, r.logs);
    if |items| == 6 {
      OneInteger(items[4], r.deposit.value.nonce);
      OneInteger(items[5], r.deposit.value.version);
    }
    assert items == ReceiptFields(r);
    assert Map(Encoded, items) == Fields(r);
    assert Map(Encoded, whole) == [RlpList(Fields(r))];
    OneItem();
    assert r.ty != 0 ==> out == [out[0]] + out[1..];
  }

  /** One log of `encode_receipt`. */
  method EncodeOneLog(log: ParsedLog) returns (out: Bytes)
    ensures out == EncodeLog(log)
  {
    hide RlpBytes, RlpList;
    var topics: seq<Bytes> := [];
    for t := 0 to |log.topics|
      invariant topics == Map(RlpBytes, log.topics[..t])
    {
      topics := topics + [RlpBytes(log.topics[t])];
    }
    assert log.topics[..|log.topics|] == log.topics;
    out := RlpList([RlpBytes(log.address), RlpList(topics), RlpBytes(log.data)]);
  }

  method EncodeReceipt(r: Receipt) returns (out: Bytes)
    ensures out == Encoding(r)
    ensures |out| < U64_LIMIT ==> Spells(out, r)
  {
    hide Spells, RlpBytes, RlpList, RlpUint, EncodeLog;
    var logItems: seq<Bytes> := [];
    for i := 0 to |r.logs|
      invariant logItems == Map(EncodeLog, r.logs[..i])
    {
      var item := EncodeOneLog(r.logs[i]);
      logItems := logItems + [item];
    }
    assert r.logs[..|r.logs|] == r.logs;
    var fields := [RlpUint(r.status), RlpUint(r.cumulativeGas), RlpBytes(r.bloom), RlpList(logItems)];
    if r.ty == DEPOSIT_TYPE {
      if r.deposit.Some? {
        fields := fields + [RlpUint(r.deposit.value.nonce)];
        fields := fields + [RlpUint(r.deposit.value.version)];
      }
    }
    assert fields == Fields(r);
    var inner := RlpList(fields);
    out := if r.ty == 0 then inner else [r.ty % 256] + inner;
    if |Encoding(r)| < U64_LIMIT {
      EncodingSpells(r);
    }
  }

  // ── Parser ────────────────────────────────────────────────────────────

  /** Strip an optional type byte and open the receipt list. */
  function ReceiptBody(receipt: Bytes): Result<Bytes> {
    var buf := if receipt != [] && receipt[0] < 0xc0 then receipt[1..] else receipt;
    match NextItem(buf)
    case Err(m) => Err(m)
    case Ok(i) => if i.list then Ok(i.payload) else Err("receipt: not a list")
  }

  function ReceiptSuccess(receipt: Bytes): Result<bool> {
    match ReceiptBody(receipt)
    case Err(m) => Err(m)
    case Ok(body) =>
      match NextItem(body)
      case Err(m) => Err(m)
      case Ok(i) => Ok(i.payload == [1])
  }

  /** Drop `n` items. */
  function Skip(buf: Bytes, n: nat): Result<Bytes> {
    if n == 0 then Ok(buf)
    else
      match NextItem(buf)
      case Err(m) => Err(m)
      case Ok(i) => Skip(i.rest, n - 1)
  }

  lemma NextItemShrinks(buf: Bytes)
    requires NextItem(buf).Ok?
    ensures |NextItem(buf).value.rest| < |buf|
  {
  }

  function ReadTopics(buf: Bytes): Result<seq<Bytes>>
    decreases |buf|
  {
    if buf == [] then Ok([])
    else
      match NextItem(buf)
      case Err(m) => Err(m)
      case Ok(i) =>
        NextItemShrinks(buf);
        if |i.payload| != 32 then Err("log: bad topic")
        else
          match ReadTopics(i.rest)
          case Err(m) => Err(m)
          case Ok(more) => Ok([i.payload] + more)
  }

  function ReadLog(log: Bytes): Result<ParsedLog> {
    var address :- NextItem(log);
    if |address.payload| != 20 then Err("log: bad address") else
    var topics :- NextItem(address.rest);
    if !topics.list then Err("log: topics not a list") else
    var words :- ReadTopics(topics.payload);
    var data :- NextItem(topics.rest);
    Ok(ParsedLog(address.payload, words, data.payload))
  }

  /** The log list scanned from its front; logs before the wanted one are only stepped over. */
  function ScanLogs(logs: Bytes, index: nat): Result<ParsedLog>
    decreases |logs|
  {
    if logs == [] then Err("receipt: log index out of range")
    else
      match NextItem(logs)
      case Err(m) => Err(m)
      case Ok(i) =>
        NextItemShrinks(logs);
        if !i.list then Err("receipt: log not a list")
        else if index == 0 then ReadLog(i.payload)
        else ScanLogs(i.rest, index - 1)
  }

  function ReceiptLog(receipt: Bytes, index: nat): Result<ParsedLog> {
    var body :- ReceiptBody(receipt);
    var tail :- Skip(body, 3);
    var logs :- NextItem(tail);
    if !logs.list then Err("receipt: logs not a list") else ScanLogs(logs.payload, index)
  }

  /** The cursor loops of `receipt_log`. */
  method ParseReceiptLog(receipt: Bytes, logIndex: nat) returns (r: Result<ParsedLog>)
    ensures r.Ok? <==> ReceiptLog(receipt, logIndex).Ok?
    ensures r.Ok? ==> r == ReceiptLog(receipt, logIndex)
  {
    hide NextItem;
    var body :- ReceiptBody(receipt);
    var k := 0;
    var cursor := body;
    while k < 3
      invariant 0 <= k <= 3
      invariant Skip(cursor, 3 - k) == Skip(body, 3)
    {
      var item :- NextItem(cursor);
      cursor := item.rest;
      k := k + 1;
    }
    var list :- NextItem(cursor);
    if !list.list {
      return Err("receipt: logs not a list");
    }
    r := ParseLogList(list.payload, logIndex);
  }

  method ParseLogList(payload: Bytes, logIndex: nat) returns (r: Result<ParsedLog>)
    ensures r.Ok? <==> ScanLogs(payload, logIndex).Ok?
    ensures r.Ok? ==> r == ScanLogs(payload, logIndex)
  {
    var logs := payload;
    var i := 0;
    while logs != []
      invariant i <= logIndex
      invariant ScanLogs(logs, logIndex - i) == ScanLogs(payload, logIndex)
      decreases |logs|
    {
      var log :- NextItem(logs);
      NextItemShrinks(logs);
      if !log.list {
        return Err("receipt: log not a list");
      }
      if i == logIndex {
        r := ParseLogBody(log.payload);
        return;
      }
      logs := log.rest;
      i := i + 1;
    }
    return Err("receipt: log index out of range");
  }

  method ParseLogBody(log: Bytes) returns (r: Result<ParsedLog>)
    ensures r.Ok? <==> ReadLog(log).Ok?
    ensures r.Ok? ==> r == ReadLog(log)
  {
    var address :- NextItem(log);
    if |address.payload| != 20 {
      return Err("log: bad address");
    }
    var list :- NextItem(address.rest);
    if !list.list {
      return Err("log: topics not a list");
    }
    var buf := list.payload;
    var topics: seq<Bytes> := [];
    while buf != []
      invariant ReadTopics(list.payload).Ok? <==> ReadTopics(buf).Ok?
      invariant ReadTopics(buf).Ok? ==> ReadTopics(list.payload).value == topics + ReadTopics(buf).value
      decreases |buf|
    {
      var topic :- NextItem(buf);
      NextItemShrinks(buf);
      if |topic.payload| != 32 {
        return Err("log: bad topic");
      }
      topics := topics + [topic.payload];
      buf := topic.rest;
    }
    assert topics + [] == topics;
    var data :- NextItem(list.rest);
    return Ok(ParsedLog(address.payload, topics, data.payload));
  }

  // ── Round trip ────────────────────────────────────────────────────────

  /** What the types of the original fix: 20-byte addresses and 32-byte topics. */
  predicate WellTyped(r: Receipt) {
    forall k :: 0 <= k < |r.logs| ==> WellTypedLog(r.logs[k])
  }

  predicate WellTypedLog(log: ParsedLog) {
    |log.address| == 20 && forall t :: 0 <= t < |log.topics| ==> |log.topics[t]| == 32
  }

  /** The encoding fits in memory. */
  predicate Fits(r: Receipt) {
    |Encoding(r)| < U64_LIMIT
  }

  /** The transaction type, as a byte, is below the RLP list codes (EIP-2718 allows 0 to 0x7f). */
  predicate TypeByteFits(ty: nat) {
    ty % 256 < 0xc0
  }

  lemma {:induction false} ConcatLength(items: seq<Bytes>, k: nat)
    requires k < |items|
    ensures |items[k]| <= |Concat(items)|
  {
    if k > 0 {
      ConcatLength(items[1..], k - 1);
    }
  }

  lemma ReadsList(items: seq<Bytes>, rest: Bytes)
    requires |RlpList(items)| < U64_LIMIT
    ensures NextItem(RlpList(items) + rest) == Ok(Item(true, Concat(items), rest))
  {
    ReadsEncoded(true, Concat(items), rest);
  }

  lemma ReadsBytes(payload: Bytes, rest: Bytes)
    requires |RlpBytes(payload)| < U64_LIMIT
    ensures NextItem(RlpBytes(payload) + rest) == Ok(Item(false, payload, rest))
  {
    ReadsEncoded(false, payload, rest);
  }

  lemma {:induction false} TopicsRoundTrip(topics: seq<Bytes>)
    requires forall t :: 0 <= t < |topics| ==> |topics[t]| == 32
    ensures ReadTopics(Concat(Map(RlpBytes, topics))) == Ok(topics)
  {
    var encoded := Map(RlpBytes, topics);
    if topics == [] {
      assert encoded == [];
    } else {
      assert encoded[1..] == Map(RlpBytes, topics[1..]);
      assert |RlpBytes(topics[0])| == 33;
      ReadsBytes(topics[0], Concat(encoded[1..]));
      TopicsRoundTrip(topics[1..]);
      assert topics == [topics[0]] + topics[1..];
    }
  }

  lemma LogRoundTrip(log: ParsedLog)
    requires WellTypedLog(log)
    requires |EncodeLog(log)| < U64_LIMIT
    ensures ReadLog(Concat(LogItems(log))) == Ok(log)
  {
    var topics := RlpList(Map(RlpBytes, log.topics));
    var items := [RlpBytes(log.address), topics, RlpBytes(log.data)];
    ConcatLength(items, 0);
    ConcatLength(items, 1);
    ConcatLength(items, 2);
    assert items[1..] == [topics, RlpBytes(log.data)];
    assert items[1..][1..] == [RlpBytes(log.data)];
    assert Concat([RlpBytes(log.data)]) == RlpBytes(log.data) + [];
    ReadsBytes(log.address, Concat(items[1..]));
    ReadsList(Map(RlpBytes, log.topics), Concat(items[1..][1..]));
    ReadsBytes(log.data, []);
    TopicsRoundTrip(log.topics);
  }

  lemma ScanNone(index: nat)
    ensures ScanLogs([], index).Err?
  {
  }

  lemma ScanStep(items: seq<Bytes>, rest: Bytes, index: nat)
    requires |RlpList(items)| < U64_LIMIT
    ensures ScanLogs(RlpList(items) + rest, index) == if index == 0 then ReadLog(Concat(items))
      else ScanLogs(rest, index - 1)
  {
    ReadsList(items, rest);
    assert RlpList(items) != [];
    hide NextItem, ReadLog, RlpList;
  }

  lemma {:induction false} ScanRoundTrip(logs: seq<ParsedLog>, index: nat)
    requires forall k :: 0 <= k < |logs| ==> WellTypedLog(logs[k])
    requires |Concat(Map(EncodeLog, logs))| < U64_LIMIT
    ensures var r := ScanLogs(Concat(Map(EncodeLog, logs)), index);
      if index < |logs| then r == Ok(logs[index]) else r.Err?
    decreases |logs|
  {
    hide ScanLogs, LogItems, RlpList, ReadLog;
    var encoded := Map(EncodeLog, logs);
    if logs == [] {
      assert encoded == [];
      ScanNone(index);
    } else {
      var tail := Map(EncodeLog, logs[1..]);
      assert encoded[1..] == tail;
      assert Concat(encoded) == EncodeLog(logs[0]) + Concat(tail);
      LogRoundTrip(logs[0]);
      ScanStep(LogItems(logs[0]), Concat(tail), index);
      if index > 0 {
        ScanRoundTrip(logs[1..], index - 1);
      }
    }
  }

  /** The body of an encoded receipt is its field list, whatever the type byte below 0xc0. */
  lemma BodyRoundTrip(r: Receipt)
    requires TypeByteFits(r.ty) && Fits(r)
    ensures ReceiptBody(Encoding(r)) == Ok(Concat(Fields(r)))
    ensures |Concat(Fields(r))| < U64_LIMIT
  {
    var inner := RlpList(Fields(r));
    ReadsList(Fields(r), []);
    assert inner + [] == inner;
    assert inner[0] >= 0xc0;
    if r.ty == 0 {
      assert Encoding(r) == inner;
    } else {
      assert Encoding(r)[1..] == inner;
    }
  }

  lemma UintFits(v: nat)
    requires v < U64_LIMIT
    ensures |RlpUint(v)| < U64_LIMIT && BeNat(Significant(v, 16)) == v
    ensures Significant(v, 16) == [1] <==> v == 1
  {
    Pow256Values();
    Pow256Monotone(8, 16);
    SignificantExact(v, 16);
    assert BeNat([1]) == 1 by { assert [1][..0] == []; assert BeNat([]) == 0; }
    if v == 1 {
      BeNatInjective(Significant(1, 16), [1]);
    }
  }

  /** Log `i` of an encoded receipt is log `i` of the receipt, and an index past the end is an error. */
  lemma LogsRoundTrip(r: Receipt, index: nat)
    requires WellTyped(r) && TypeByteFits(r.ty) && Fits(r)
    ensures var parsed := ReceiptLog(Encoding(r), index);
      if index < |r.logs| then parsed == Ok(r.logs[index]) else parsed.Err?
  {
    hide NextItem, ScanLogs;
    BodyRoundTrip(r);
    var fields := Fields(r);
    UintFits(r.status);
    UintFits(r.cumulativeGas);
    var logs := Map(EncodeLog, r.logs);
    var f1, f2, f3 := fields[1..], fields[2..], fields[3..];
    assert f1[1..] == f2 && f2[1..] == f3 && f3[1..] == DepositTail(r);
    ConcatLength(fields, 2);
    ConcatLength(fields, 3);
    ReadsBytes(Significant(r.status, 16), Concat(f1));
    ReadsBytes(Significant(r.cumulativeGas, 16), Concat(f2));
    ReadsBytes(r.bloom, Concat(f3));
    ReadsList(logs, Concat(DepositTail(r)));
    assert Skip(Concat(f3), 0) == Ok(Concat(f3));
    assert Skip(Concat(f2), 1) == Ok(Concat(f3));
    assert Skip(Concat(f1), 2) == Ok(Concat(f3));
    assert Skip(Concat(fields), 3) == Ok(Concat(f3));
    ScanRoundTrip(r.logs, index);
  }

  lemma StatusRoundTrip(r: Receipt)
    requires WellTyped(r) && TypeByteFits(r.ty) && Fits(r)
    ensures ReceiptSuccess(Encoding(r)) == Ok(r.status == 1)
  {
    BodyRoundTrip(r);
    UintFits(r.status);
    ReadsBytes(Significant(r.status, 16), Concat(Fields(r)[1..]));
  }

  // ── The type byte is the only condition ───────────────────────────────

  ghost predicate StatusSurvives(ty: u64) {
    forall r: Receipt :: r.ty == ty && WellTyped(r) && Fits(r) ==> ReceiptSuccess(Encoding(r)) == Ok(r.status == 1)
  }

  ghost predicate LogsSurvive(ty: u64) {
    forall r: Receipt, i: nat :: r.ty == ty && WellTyped(r) && Fits(r) ==>
      var parsed := ReceiptLog(Encoding(r), i);
      if i < |r.logs| then parsed == Ok(r.logs[i]) else parsed.Err?
  }

  /** A successful receipt of type `ty` with one all-zero log: its field list is short. */
  function Probe(ty: u64): Receipt {
    Receipt(ty, 1, 0, [], [ParsedLog(seq(20, _ => 0), [], [])], None)
  }

  lemma ProbeFields(ty: u64)
    requires ty % 256 >= 0xc0
    ensures 2 <= |Concat(Fields(Probe(ty)))| <= 55
  {
    var r := Probe(ty);
    ProbeLog(r.logs[0]);
    assert Map(EncodeLog, r.logs) == [EncodeLog(r.logs[0])];
    ConcatLengths([EncodeLog(r.logs[0])]);
    SmallUints();
    ConcatLengths(Fields(r));
  }

  lemma SmallUints()
    ensures |RlpUint(0)| == |RlpUint(1)| == |RlpBytes([])| == 1
  {
    Pow256Values();
    UintFits(1);
    SignificantExact(0, 16);
  }

  lemma ProbeLog(log: ParsedLog)
    requires |log.address| == 20 && log.topics == [] && log.data == []
    ensures |EncodeLog(log)| == 24
  {
    assert Map(RlpBytes, log.topics) == [];
    ConcatLengths([]);
    ConcatLengths([RlpBytes(log.address), RlpList([]), RlpBytes([])]);
  }

  lemma ProbeEncoding(ty: u64)
    requires ty % 256 >= 0xc0
    ensures WellTyped(Probe(ty)) && Fits(Probe(ty))
    ensures var body := Concat(Fields(Probe(ty)));
      2 <= |body| <= 55 && Encoding(Probe(ty)) == [ty % 256, 0xc0 + |body|] + body
  {
    ProbeFields(ty);
    hide Fields, Concat;
    var body := Concat(Fields(Probe(ty)));
    ShortList(Fields(Probe(ty)), ty % 256);
  }

  lemma ShortList(items: seq<Bytes>, t: byte)
    requires |Concat(items)| <= 55
    ensures [t] + RlpList(items) == [t, 0xc0 + |Concat(items)|] + Concat(items)
  {
  }

  lemma ConcatLengths(items: seq<Bytes>)
    requires |items| <= 4
    ensures |Concat(items)| ==
      (if |items| > 0 then |items[0]| else 0) + (if |items| > 1 then |items[1]| else 0)
      + (if |items| > 2 then |items[2]| else 0) + (if |items| > 3 then |items[3]| else 0)
  {
    if |items| > 0 {
      ConcatLengths(items[1..]);
    }
  }

  /** A type byte from 0xc0 up is read as a list header: neither the status nor any log is found. */
  lemma ListByteMisread(t: byte, body: Bytes, index: nat)
    requires t >= 0xc0 && 2 <= |body| <= 55
    ensures ReceiptSuccess([t, 0xc0 + |body|] + body) != Ok(true)
    ensures ReceiptLog([t, 0xc0 + |body|] + body, index).Err?
  {
    var inner := [0xc0 + |body|] + body;
    var buf := [t] + inner;
    assert buf == [t, 0xc0 + |body|] + body;
    if ReceiptBody(buf).Ok? {
      var content := ReceiptBody(buf).value;
      if t < 0xf8 {
        assert content == inner[..t - 0xc0];
        if NextItem(content).Ok? {
          assert content == inner;
          assert NextItem(content).value.payload == body;
          assert NextItem(content).value.rest == [];
          assert Skip(content, 3) == Skip([], 2);
        }
      }
    }
  }

  /** Status and logs survive the round trip, for every receipt of a transaction type, exactly when its type byte
      is below 0xc0. */
  lemma RoundTripIff(ty: u64)
    ensures StatusSurvives(ty) <==> TypeByteFits(ty)
    ensures LogsSurvive(ty) <==> TypeByteFits(ty)
  {
    if TypeByteFits(ty) {
      forall r: Receipt | r.ty == ty && WellTyped(r) && Fits(r)
        ensures ReceiptSuccess(Encoding(r)) == Ok(r.status == 1)
      {
        StatusRoundTrip(r);
      }
      forall r: Receipt, i: nat | r.ty == ty && WellTyped(r) && Fits(r)
        ensures var parsed := ReceiptLog(Encoding(r), i);
          if i < |r.logs| then parsed == Ok(r.logs[i]) else parsed.Err?
      {
        LogsRoundTrip(r, i);
      }
    } else {
      ProbeEncoding(ty);
      var r := Probe(ty);
      var body := Concat(Fields(r));
      ListByteMisread(ty % 256, body, 0);
      assert r.ty == ty && WellTyped(r) && Fits(r);
      assert ReceiptLog(Encoding(r), 0).Err?;
    }
  }
}
