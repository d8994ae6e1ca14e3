/** Exactly what the guest's parser accepts: the byte strings that hold a status, or a log, in their places, with
    whatever the parser does not look at left open. */
module Parsing {
  import opened Prelude
  import opened Rlp
  import opened Receipts

  /** `buf` begins with these items; `rest` follows. */
  ghost predicate Begins(buf: Bytes, fields: seq<Field>, rest: Bytes) {
    FieldsFit(fields) && buf == Concat(Map(Encoded, fields)) + rest
  }

  lemma BeginsOne(buf: Bytes, f: Field, rest: Bytes)
    ensures Begins(buf, [f], rest) <==> NextItem(buf) == Ok(Item(f.list, f.payload, rest))
  {
    hide NextItem, RlpItem;
    assert Map(Encoded, [f]) == [Encoded(f)];
    OneItem();
    if |f.payload| < U64_LIMIT {
      NextItemExact(buf, f.list, f.payload, rest);
    } else if NextItem(buf).Ok? {
      ItemFits(buf);
    }
    if FieldsFit([f]) {
      assert |[f][0].payload| < U64_LIMIT;
    }
  }

  lemma BeginsMore(buf: Bytes, f: Field, middle: Bytes, more: seq<Field>, rest: Bytes)
    requires Begins(buf, [f], middle) && Begins(middle, more, rest)
    ensures Begins(buf, [f] + more, rest)
  {
    hide RlpItem;
    assert Map(Encoded, [f]) == [Encoded(f)];
    OneItem();
    assert Map(Encoded, [f] + more) == [Encoded(f)] + Map(Encoded, more);
    assert ([Encoded(f)] + Map(Encoded, more))[1..] == Map(Encoded, more);
    assert |[f][0].payload| < U64_LIMIT;
  }

  lemma BeginsSplit(buf: Bytes, fields: seq<Field>, rest: Bytes) returns (middle: Bytes)
    requires fields != [] && Begins(buf, fields, rest)
    ensures Begins(buf, [fields[0]], middle) && Begins(middle, fields[1..], rest)
  {
    hide RlpItem;
    var more := fields[1..];
    middle := Concat(Map(Encoded, more)) + rest;
    assert Map(Encoded, fields)[1..] == Map(Encoded, more);
    assert Map(Encoded, [fields[0]]) == [Encoded(fields[0])];
    OneItem();
    assert buf == Encoded(fields[0]) + middle;
    assert |fields[0].payload| < U64_LIMIT;
  }

  /** Skipping items. */
  lemma {:induction false} SkipIff(buf: Bytes, n: nat, rest: Bytes)
    ensures Skip(buf, n) == Ok(rest) <==> exists fields: seq<Field> :: |fields| == n && Begins(buf, fields, rest)
    decreases n
  {
    hide NextItem, RlpItem;
    if n == 0 {
      var none: seq<Field> := [];
      assert Begins(buf, none, buf) && |none| == 0;
      if fields: seq<Field> :| |fields| == 0 && Begins(buf, fields, rest) {
        assert fields == [] && Map(Encoded, fields) == [];
        assert Concat<byte>([]) == [];
        assert buf == [] + rest == rest;
      }
    } else {
      if Skip(buf, n) == Ok(rest) {
        var i := NextItem(buf).value;
        var f := Field(i.list, i.payload);
        BeginsOne(buf, f, i.rest);
        SkipIff(i.rest, n - 1, rest);
        var more: seq<Field> :| |more| == n - 1 && Begins(i.rest, more, rest);
        BeginsMore(buf, f, i.rest, more, rest);
        assert |[f] + more| == n;
      }
      if fields: seq<Field> :| |fields| == n && Begins(buf, fields, rest) {
        var middle := BeginsSplit(buf, fields, rest);
        BeginsOne(buf, fields[0], middle);
        SkipIff(middle, n - 1, rest);
        assert |fields[1..]| == n - 1;
      }
    }
  }

  // ── Body and status ───────────────────────────────────────────────────

  /** After a first byte below 0xc0, or from the start, the receipt begins with a list that holds `body`. */
  ghost predicate Opens(receipt: Bytes, body: Bytes) {
    exists rest :: OpensBefore(receipt, body, rest)
  }

  ghost predicate OpensBefore(receipt: Bytes, body: Bytes, rest: Bytes) {
    Begins(if receipt != [] && receipt[0] < 0xc0 then receipt[1..] else receipt, [Field(true, body)], rest)
  }

  lemma BodyIff(receipt: Bytes, body: Bytes)
    ensures ReceiptBody(receipt) == Ok(body) <==> Opens(receipt, body)
  {
    hide NextItem, RlpItem, Begins;
    var buf := if receipt != [] && receipt[0] < 0xc0 then receipt[1..] else receipt;
    if ReceiptBody(receipt) == Ok(body) {
      BeginsOne(buf, Field(true, body), NextItem(buf).value.rest);
      assert OpensBefore(receipt, body, NextItem(buf).value.rest);
    }
    if rest :| OpensBefore(receipt, body, rest) {
      BeginsOne(buf, Field(true, body), rest);
    }
  }

  /** A receipt has a status if its body begins with an item, and it succeeded if that item is the single byte 1. */
  lemma StatusIff(receipt: Bytes, succeeded: bool)
    ensures ReceiptSuccess(receipt) == Ok(succeeded) <==>
      exists body, status: Field, rest ::
        Opens(receipt, body) && Begins(body, [status], rest) && succeeded == (status.payload == [1])
  {
    hide NextItem, RlpItem, Begins, ReceiptBody, Opens;
    if ReceiptSuccess(receipt) == Ok(succeeded) {
      var body := ReceiptBody(receipt).value;
      var i := NextItem(body).value;
      BodyIff(receipt, body);
      BeginsOne(body, Field(i.list, i.payload), i.rest);
    }
    if body, status: Field, rest :|
      Opens(receipt, body) && Begins(body, [status], rest) && succeeded == (status.payload == [1]) {
      BodyIff(receipt, body);
      BeginsOne(body, status, rest);
    }
  }

  // ── Logs ──────────────────────────────────────────────────────────────

  /** Items with these payloads, whether strings or lists. */
  ghost predicate Carry(fields: seq<Field>, payloads: seq<Bytes>) {
    |fields| == |payloads| && forall k :: 0 <= k < |fields| ==> fields[k].payload == payloads[k]
  }

  lemma {:induction false} TopicsIff(buf: Bytes, topics: seq<Bytes>)
    ensures ReadTopics(buf) == Ok(topics) <==>
      && (forall k :: 0 <= k < |topics| ==> |topics[k]| == 32)
      && ReadAll(buf).Ok? && Carry(ReadAll(buf).value, topics)
    decreases |buf|
  {
    hide NextItem;
    if buf != [] && NextItem(buf).Ok? {
      var i := NextItem(buf).value;
      NextItemShrinks(buf);
      if topics != [] {
        TopicsIff(i.rest, topics[1..]);
        if ReadAll(buf).Ok? {
          var fields := ReadAll(buf).value;
          assert fields[1..] == ReadAll(i.rest).value;
          assert forall k :: 0 < k < |fields| ==> fields[k] == fields[1..][k - 1];
          assert forall k :: 0 < k < |topics| ==> topics[k] == topics[1..][k - 1];
        }
        assert topics == [topics[0]] + topics[1..];
      }
    }
  }

  /** A log: an item of 20 bytes, a list of items of 32 bytes, an item of data, and anything after it. */
  ghost predicate HoldsLog(content: Bytes, log: ParsedLog) {
    && |log.address| == 20 && (forall k :: 0 <= k < |log.topics| ==> |log.topics[k]| == 32)
    && exists first: bool, topics, third: bool, rest ::
         && Begins(content, [Field(first, log.address), Field(true, topics), Field(third, log.data)], rest)
         && ReadAll(topics).Ok? && Carry(ReadAll(topics).value, log.topics)
  }

  lemma ThreeItems(content: Bytes, a: Field, b: Field, c: Field, rest: Bytes)
    ensures Begins(content, [a, b, c], rest) <==>
      && NextItem(content).Ok? && NextItem(NextItem(content).value.rest).Ok?
      && var second := NextItem(NextItem(content).value.rest).value;
      && Field(NextItem(content).value.list, NextItem(content).value.payload) == a &&
        Field(second.list, second.payload) == b
      && NextItem(second.rest) == Ok(Item(c.list, c.payload, rest))
  {
    hide NextItem, RlpItem, Begins;
    if Begins(content, [a, b, c], rest) {
      var x := BeginsSplit(content, [a, b, c], rest);
      assert [a, b, c][1..] == [b, c];
      var y := BeginsSplit(x, [b, c], rest);
      assert [b, c][1..] == [c];
      BeginsOne(content, a, x);
      BeginsOne(x, b, y);
      BeginsOne(y, c, rest);
    }
    if NextItem(content).Ok? && NextItem(NextItem(content).value.rest).Ok? {
      var i := NextItem(content).value;
      var j := NextItem(i.rest).value;
      BeginsOne(content, Field(i.list, i.payload), i.rest);
      BeginsOne(i.rest, Field(j.list, j.payload), j.rest);
      BeginsOne(j.rest, c, rest);
      if NextItem(j.rest) == Ok(Item(c.list, c.payload, rest)) {
        BeginsMore(i.rest, Field(j.list, j.payload), j.rest, [c], rest);
        assert [Field(j.list, j.payload)] + [c] == [Field(j.list, j.payload), c];
        BeginsMore(content, Field(i.list, i.payload), i.rest, [Field(j.list, j.payload), c], rest);
        assert [Field(i.list, i.payload)] + [Field(j.list, j.payload), c] ==
          [Field(i.list, i.payload), Field(j.list, j.payload), c];
      }
    }
  }

  lemma ReadLogIff(content: Bytes, log: ParsedLog)
    ensures ReadLog(content) == Ok(log) <==> HoldsLog(content, log)
  {
    hide NextItem, Begins, Carry;
    if ReadLog(content) == Ok(log) {
      var i := NextItem(content).value;
      var j := NextItem(i.rest).value;
      var k := NextItem(j.rest).value;
      TopicsIff(j.payload, log.topics);
      ThreeItems(content, Field(i.list, i.payload), Field(j.list, j.payload), Field(k.list, k.payload), k.rest);
      assert Begins(content, [Field(i.list, log.address), Field(true, j.payload), Field(k.list, log.data)], k.rest);
    }
    if HoldsLog(content, log) {
      var first: bool, topics, third: bool, rest :|
        && Begins(content, [Field(first, log.address), Field(true, topics), Field(third, log.data)], rest)
        && ReadAll(topics).Ok? && Carry(ReadAll(topics).value, log.topics);
      ThreeItems(content, Field(first, log.address), Field(true, topics), Field(third, log.data), rest);
      TopicsIff(topics, log.topics);
    }
  }

  /** Log `index` of a list payload: after that many lists comes a list that holds the log. */
  ghost predicate HoldsAt(logs: Bytes, index: nat, log: ParsedLog) {
    exists before: seq<Field>, content, rest ::
      && |before| == index && (forall k :: 0 <= k < index ==> before[k].list)
      && Begins(logs, before + [Field(true, content)], rest) && HoldsLog(content, log)
  }

  lemma {:induction false} ScanIff(logs: Bytes, index: nat, log: ParsedLog)
    ensures ScanLogs(logs, index) == Ok(log) <==> HoldsAt(logs, index, log)
    decreases |logs|
  {
    hide NextItem, Begins, ReadLog, HoldsLog;
    if ScanLogs(logs, index) == Ok(log) {
      ScanHolds(logs, index, log);
    }
    if HoldsAt(logs, index, log) {
      var before: seq<Field>, content, rest :|
        && |before| == index && (forall k :: 0 <= k < index ==> before[k].list)
        && Begins(logs, before + [Field(true, content)], rest) && HoldsLog(content, log);
      var fields := before + [Field(true, content)];
      var middle := BeginsSplit(logs, fields, rest);
      BeginsOne(logs, fields[0], middle);
      NotEmpty(logs, fields, rest);
      NextItemShrinks(logs);
      if index == 0 {
        ReadLogIff(content, log);
      } else {
        assert fields[1..] == before[1..] + [Field(true, content)];
        assert HoldsAt(middle, index - 1, log);
        ScanIff(middle, index - 1, log);
      }
    }
  }

  lemma NotEmpty(buf: Bytes, fields: seq<Field>, rest: Bytes)
    requires fields != [] && Begins(buf, fields, rest)
    ensures buf != []
  {
    hide RlpItem;
    ItemIsSome(fields[0].list, fields[0].payload);
  }

  lemma {:induction false} ScanHolds(logs: Bytes, index: nat, log: ParsedLog)
    requires ScanLogs(logs, index) == Ok(log)
    ensures HoldsAt(logs, index, log)
    decreases |logs|
  {
    hide NextItem, Begins, ReadLog, HoldsLog;
    NextItemShrinks(logs);
    var i := NextItem(logs).value;
    var f := Field(i.list, i.payload);
    BeginsOne(logs, f, i.rest);
    if index == 0 {
      ReadLogIff(i.payload, log);
      assert [] + [Field(true, i.payload)] == [f];
    } else {
      ScanHolds(i.rest, index - 1, log);
      var before: seq<Field>, content, rest :|
        && |before| == index - 1 && (forall k :: 0 <= k < index - 1 ==> before[k].list)
        && Begins(i.rest, before + [Field(true, content)], rest) && HoldsLog(content, log);
      BeginsMore(logs, f, i.rest, before + [Field(true, content)], rest);
      assert [f] + (before + [Field(true, content)]) == ([f] + before) + [Field(true, content)];
      assert |[f] + before| == index;
    }
  }

  /** The parser finds a log exactly in a receipt whose body begins with three items and a list of
      logs that holds it. */
  lemma ReceiptLogIff(receipt: Bytes, index: nat, log: ParsedLog)
    ensures ReceiptLog(receipt, index) == Ok(log) <==>
      exists body, three: seq<Field>, logs, rest ::
        && Opens(receipt, body) && |three| == 3 && Begins(body, three + [Field(true, logs)], rest)
        && HoldsAt(logs, index, log)
  {
    hide NextItem, Begins, ScanLogs, HoldsAt, ReceiptBody, Opens, Skip;
    if ReceiptLog(receipt, index) == Ok(log) {
      var body := ReceiptBody(receipt).value;
      var tail := Skip(body, 3).value;
      var i := NextItem(tail).value;
      BodyIff(receipt, body);
      SkipIff(body, 3, tail);
      var three: seq<Field> :| |three| == 3 && Begins(body, three, tail);
      BeginsOne(tail, Field(i.list, i.payload), i.rest);
      BeginsJoin(body, three, tail, [Field(true, i.payload)], i.rest);
      ScanIff(i.payload, index, log);
    }
    if body, three: seq<Field>, logs, rest :|
      && Opens(receipt, body) && |three| == 3 && Begins(body, three + [Field(true, logs)], rest)
      && HoldsAt(logs, index, log) {
      BodyIff(receipt, body);
      var tail := BeginsApart(body, three, [Field(true, logs)], rest);
      SkipIff(body, 3, tail);
      BeginsOne(tail, Field(true, logs), rest);
      ScanIff(logs, index, log);
    }
  }

  lemma BeginsJoin(buf: Bytes, a: seq<Field>, middle: Bytes, b: seq<Field>, rest: Bytes)
    requires Begins(buf, a, middle) && Begins(middle, b, rest)
    ensures Begins(buf, a + b, rest)
  {
    hide RlpItem;
    MapConcat(Encoded, a, b);
    ConcatSplit(Map(Encoded, a), Map(Encoded, b));
  }

  lemma BeginsApart(buf: Bytes, a: seq<Field>, b: seq<Field>, rest: Bytes) returns (middle: Bytes)
    requires Begins(buf, a + b, rest)
    ensures Begins(buf, a, middle) && Begins(middle, b, rest)
  {
    hide RlpItem;
    MapConcat(Encoded, a, b);
    ConcatSplit(Map(Encoded, a), Map(Encoded, b));
    middle := Concat(Map(Encoded, b)) + rest;
    forall k | 0 <= k < |a|
      ensures |a[k].payload| < U64_LIMIT
    {
      assert (a + b)[k] == a[k];
    }
    forall k | 0 <= k < |b|
      ensures |b[k].payload| < U64_LIMIT
    {
      assert (a + b)[|a| + k] == b[k];
    }
  }
}
