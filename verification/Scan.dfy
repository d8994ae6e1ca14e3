/** The adaptive log scan: windows widen while the node keeps up and narrow when a response is too large. Whatever
    the node refuses, a scan that finishes has read every block of the range once, in order. */
module Scan {
  import opened Prelude

  const CHUNK: nat := 10_000
  const MAX_CHUNK: nat := 2_000_000

  /** How the node answers one call, after the client's own retries: the logs, a refusal because there were too many,
      or any other failure. */
  datatype Answer = Served | TooLarge | Failed

  /** The node: block by block, the logs that match; and its answer to call number `n` for a block range. */
  datatype Node<!L> = Node(logs: nat -> seq<L>, answer: (nat, nat, nat) -> Answer)

  /** One served window. */
  datatype Window = Window(first: nat, last: nat)

  /** The matching logs of the blocks `first` to `last`, in order. */
  function Range<L>(node: Node<L>, first: nat, last: int): seq<L>
    decreases last - first
  {
    if last < first then [] else Range(node, first, last - 1) + node.logs(last)
  }

  lemma {:induction false} RangeSplit<L>(node: Node<L>, first: nat, middle: nat, last: int)
    requires first <= middle && middle <= last + 1
    ensures Range(node, first, middle - 1) + Range(node, middle, last) == Range(node, first, last)
    decreases last - middle
  {
    if middle <= last {
      RangeSplit(node, first, middle, last - 1);
    } else {
      assert Range(node, middle, last) == [];
    }
  }

  /** The windows tile the blocks from `first` up to, not including, `next`: nonempty, adjacent, at most MAX_CHUNK. */
  ghost predicate Tiles(windows: seq<Window>, first: nat, next: nat) {
    if windows == [] then first == next
    else
      var w := windows[|windows| - 1];
      && first <= w.first <= w.last && w.last + 1 == next && w.last - w.first < MAX_CHUNK
      && Tiles(windows[..|windows| - 1], first, w.first)
  }

  /** Every block of the tiled range lies in exactly one window. */
  lemma {:induction false} TilesCover(windows: seq<Window>, first: nat, next: nat, block: nat)
    requires Tiles(windows, first, next)
    ensures first <= block < next <==> exists k :: 0 <= k < |windows| && windows[k].first <= block <= windows[k].last
    ensures forall j, k :: 0 <= j < k < |windows| ==> windows[j].last < windows[k].first
    ensures first <= next
    ensures forall k :: 0 <= k < |windows| ==> first <= windows[k].first <= windows[k].last < next
  {
    if windows != [] {
      var n := |windows| - 1;
      TilesCover(windows[..n], first, windows[n].first, block);
      assert forall k :: 0 <= k < n ==> windows[..n][k] == windows[k];
      if exists k :: 0 <= k < n && windows[..n][k].first <= block <= windows[..n][k].last {
        var k :| 0 <= k < n && windows[..n][k].first <= block <= windows[..n][k].last;
        assert windows[k].first <= block <= windows[k].last;
      }
    }
  }

  /** The calls made so far, and how each was answered. */
  datatype Call = Call(first: nat, last: nat)

  function AnswerTo<L>(node: Node<L>, calls: seq<Call>, n: nat): Answer
    requires n < |calls|
  {
    node.answer(n, calls[n].first, calls[n].last)
  }

  /** The windows of the calls that were served, in order. */
  function ServedWindows<L>(node: Node<L>, calls: seq<Call>): seq<Window> {
    if calls == [] then []
    else
      var n, before := |calls| - 1, ServedWindows(node, calls[..|calls| - 1]);
      if AnswerTo(node, calls, n) == Served then before + [Window(calls[n].first, calls[n].last)] else before
  }

  /** The calls of a scan with the span each was made with: from the first block on, each window as wide as the span and
      the range allow; twice the span and the next block after a served call, a quarter of it and the same block after a
      refusal, between 10 000 and 2 000 000 blocks. */
  ghost predicate Adapts<L>(node: Node<L>, calls: seq<Call>, spans: seq<nat>, fromBlock: nat, toBlock: nat) {
    && |spans| == |calls|
    && (calls != [] ==> calls[0].first == fromBlock && spans[0] == 2_000_000)
    && (forall n :: 0 <= n < |calls| ==> EndsRight(calls[n], spans[n], toBlock))
    && (forall n :: 0 <= n < |calls| - 1 ==>
      Follows(AnswerTo(node, calls, n), calls[n], spans[n], calls[n + 1], spans[n + 1]))
  }

  ghost predicate EndsRight(call: Call, span: nat, toBlock: nat) {
    && call.first <= toBlock
    && call.last == if call.first + span - 1 <= toBlock then call.first + span - 1 else toBlock
  }

  ghost predicate Follows(answer: Answer, call: Call, span: nat, next: Call, nextSpan: nat) {
    match answer
    case Served =>
      next.first == call.last + 1 && nextSpan == if span * 2 <= 2_000_000 then span * 2 else 2_000_000
    case TooLarge =>
      span > 10_000 && next.first == call.first && nextSpan == if span / 4 >= 10_000 then span / 4 else 10_000
    case Failed => false
  }

  /** How a scan ends: with every block read, or on a failure, or on a refusal it cannot narrow. */
  ghost predicate Ends<L>(node: Node<L>, calls: seq<Call>, spans: seq<nat>, fromBlock: nat, toBlock: nat, ok: bool)
    requires |spans| == |calls|
  {
    if calls == [] then ok && toBlock < fromBlock
    else
      var n := |calls| - 1;
      match AnswerTo(node, calls, n)
      case Served => ok && calls[n].last == toBlock
      case TooLarge => !ok && spans[n] <= 10_000
      case Failed => !ok
  }

  /** Where the scan goes on. */
  ghost predicate Resumes<L>(node: Node<L>, calls: seq<Call>, spans: seq<nat>, fromBlock: nat, next: nat,
                             nextSpan: nat) {
    && |spans| == |calls|
    && if calls == [] then next == fromBlock && nextSpan == 2_000_000
       else
         var n := |calls| - 1;
         Follows(AnswerTo(node, calls, n), calls[n], spans[n], Call(next, next), nextSpan)
  }

  lemma NothingRead<L>(node: Node<L>, fromBlock: nat, toBlock: nat)
    ensures Range(node, fromBlock, fromBlock - 1) == []
    ensures toBlock < fromBlock ==> Range(node, fromBlock, toBlock) == []
    ensures Tiles(ServedWindows(node, []), fromBlock, fromBlock) && Adapts(node, [], [], fromBlock, toBlock)
  {
  }

  /** One more call: what it leaves of the windows and the policy. */
  lemma AdaptsOnce<L>(node: Node<L>, calls: seq<Call>, spans: seq<nat>, b: nat, end: nat, span: nat, fromBlock: nat,
                      toBlock: nat)
    requires Adapts(node, calls, spans, fromBlock, toBlock) && Resumes(node, calls, spans, fromBlock, b, span)
    requires fromBlock <= b <= toBlock && 0 < span <= MAX_CHUNK && end == Min(b + span - 1, toBlock)
    requires Tiles(ServedWindows(node, calls), fromBlock, b)
    requires forall n :: 0 <= n < |calls| ==> AnswerTo(node, calls, n) != Failed
    ensures var (all, allSpans, answer) := (calls + [Call(b, end)], spans + [span], node.answer(|calls|, b, end));
      && Adapts(node, all, allSpans, fromBlock, toBlock) && AnswerTo(node, all, |calls|) == answer
      && all[|calls|] == Call(b, end) && allSpans[|calls|] == span
      && Tiles(ServedWindows(node, all), fromBlock, if answer == Served then end + 1 else b)
      && (answer != Failed ==> forall n :: 0 <= n < |all| ==> AnswerTo(node, all, n) != Failed)
  {
    hide Tiles;
    var (all, allSpans) := (calls + [Call(b, end)], spans + [span]);
    forall n | 0 <= n < |calls|
      ensures AnswerTo(node, all, n) == AnswerTo(node, calls, n) && all[n] == calls[n] && allSpans[n] == spans[n]
    {
    }
    assert all[..|all| - 1] == calls;
    TilesOnce(ServedWindows(node, calls), fromBlock, b, end);
  }

  lemma TilesOnce(windows: seq<Window>, first: nat, b: nat, end: nat)
    requires Tiles(windows, first, b) && first <= b <= end && end - b < MAX_CHUNK
    ensures Tiles(windows + [Window(b, end)], first, end + 1)
  {
    var more := windows + [Window(b, end)];
    assert more[..|more| - 1] == windows;
  }

  lemma GivenUp<L>(node: Node<L>, calls: seq<Call>, spans: seq<nat>, fromBlock: nat, toBlock: nat)
    requires Adapts(node, calls, spans, fromBlock, toBlock) && calls != []
    requires var n := |calls| - 1;
      && AnswerTo(node, calls, n) != Served && (AnswerTo(node, calls, n) == TooLarge ==> spans[n] <= CHUNK)
      && spans[n] > 0 && fromBlock <= calls[n].first && Tiles(ServedWindows(node, calls), fromBlock, calls[n].first)
    ensures GivesUp(node, calls, fromBlock, toBlock) && Scans(node, calls, fromBlock, toBlock, false)
  {
    hide Tiles, ServedWindows, Adapts;
    LastEnds(node, calls, spans, fromBlock, toBlock);
    assert Ends(node, calls, spans, fromBlock, toBlock, false);
  }

  lemma LastEnds<L>(node: Node<L>, calls: seq<Call>, spans: seq<nat>, fromBlock: nat, toBlock: nat)
    requires Adapts(node, calls, spans, fromBlock, toBlock) && calls != []
    ensures |spans| == |calls| && EndsRight(calls[|calls| - 1], spans[|calls| - 1], toBlock)
  {
  }

  lemma ReadAll<L>(node: Node<L>, calls: seq<Call>, spans: seq<nat>, fromBlock: nat, toBlock: nat, b: nat, span: nat)
    requires Adapts(node, calls, spans, fromBlock, toBlock) && Resumes(node, calls, spans, fromBlock, b, span)
    requires toBlock < b <= Max(fromBlock, toBlock + 1)
    ensures Scans(node, calls, fromBlock, toBlock, true)
  {
    hide Adapts;
    if calls != [] {
      LastEnds(node, calls, spans, fromBlock, toBlock);
    }
    assert Ends(node, calls, spans, fromBlock, toBlock, true);
  }

  ghost predicate Scans<L>(node: Node<L>, calls: seq<Call>, fromBlock: nat, toBlock: nat, ok: bool) {
    exists spans: seq<nat> :: Adapts(node, calls, spans, fromBlock, toBlock)
      && Ends(node, calls, spans, fromBlock, toBlock, ok)
  }

  /** `get_logs`: a finished scan returns the logs of the whole range in order, read through windows that tile it;
      the windows are exactly the served calls. A scan gives up only on a failure, or on a refusal of a window no
      wider than CHUNK. */
  method GetLogs<L>(node: Node<L>, fromBlock: nat, toBlock: nat) returns (r: Result<seq<L>>, calls: seq<Call>)
    ensures r.Ok? ==> r.value == Range(node, fromBlock, toBlock)
    ensures r.Ok? ==> Tiles(ServedWindows(node, calls), fromBlock, Max(fromBlock, toBlock + 1))
    ensures r.Ok? ==> forall n :: 0 <= n < |calls| ==> AnswerTo(node, calls, n) != Failed
    ensures r.Err? ==> GivesUp(node, calls, fromBlock, toBlock)
    ensures Scans(node, calls, fromBlock, toBlock, r.Ok?)
  {
    hide Range, Adapts, Ends, Tiles, ServedWindows;
    var all: seq<L> := [];
    var b, span := fromBlock, MAX_CHUNK;
    ghost var spans: seq<nat> := [];
    calls := [];
    NothingRead(node, fromBlock, toBlock);
    while b <= toBlock
      invariant fromBlock <= b <= Max(fromBlock, toBlock + 1)
      invariant CHUNK <= span <= MAX_CHUNK
      invariant Adapts(node, calls, spans, fromBlock, toBlock)
      invariant Resumes(node, calls, spans, fromBlock, b, span)
      invariant all == Range(node, fromBlock, b - 1)
      invariant Tiles(ServedWindows(node, calls), fromBlock, b)
      invariant forall n :: 0 <= n < |calls| ==> AnswerTo(node, calls, n) != Failed
      decreases toBlock + 1 - b, span
    {
      var end := Min(b + span - 1, toBlock);
      var answer := node.answer(|calls|, b, end);
      ghost var before, spansBefore := calls, spans;
      calls := calls + [Call(b, end)];
      spans := spans + [span];
      AdaptsOnce(node, before, spansBefore, b, end, span, fromBlock, toBlock);
      if answer != Served {
        if span > CHUNK && answer == TooLarge {
          span := Max(CHUNK, span / 4);
          continue;
        }
        GivenUp(node, calls, spans, fromBlock, toBlock);
        return Err("eth_getLogs failed"), calls;
      }
      RangeSplit(node, fromBlock, b, end);
      all := all + Range(node, b, end);
      b := end + 1;
      if span < MAX_CHUNK {
        span := Min(MAX_CHUNK, span * 2);
      }
    }
    ReadAll(node, calls, spans, fromBlock, toBlock, b, span);
    return Ok(all), calls;
  }

  /** The last call was not served, and could not be narrowed. */
  ghost predicate GivesUp<L>(node: Node<L>, calls: seq<Call>, fromBlock: nat, toBlock: nat) {
    && calls != []
    && var n := |calls| - 1;
    && calls[n].first <= calls[n].last <= toBlock
    && Tiles(ServedWindows(node, calls), fromBlock, calls[n].first)
    && (AnswerTo(node, calls, n) == Failed ||
      (AnswerTo(node, calls, n) == TooLarge && calls[n].last - calls[n].first < CHUNK))
  }

  // ── The host's fixed-window search ────────────────────────────────────

  const WINDOW: nat := 100_000

  function First<L>(s: seq<L>, max: nat): seq<L> {
    if |s| <= max then s else s[..max]
  }

  /** A first part that is full stays as it is. */
  lemma FirstMore<L>(a: seq<L>, b: seq<L>, max: nat)
    ensures First(First(a, max) + b, max) == First(a + b, max) && |First(a, max)| <= max
    ensures |First(a, max)| < max ==> First(a, max) == a
    ensures |First(a, max)| == max ==> First(a + b, max) == First(a, max) && |a| >= max
  {
  }

  lemma WindowIs(n: nat, b: nat, fromBlock: nat, toBlock: nat)
    requires b == fromBlock + 100_000 * n
    ensures HundredThousand(n, fromBlock, toBlock) == Call(b, if b + 99_999 <= toBlock then b + 99_999 else toBlock)
  {
  }

  lemma NothingYet<L>(node: Node<L>, first: nat, last: int)
    requires last < first
    ensures Range(node, first, last) == []
  {
  }

  /** `find_settlement_logs`: the first `max` matching logs of the range, in order. It fails only on a window it
      still needed: one that starts where fewer than `max` logs have been found. */
  method FindSettlementLogs<L>(node: Node<L>, fromBlock: nat, toBlock: nat, max: nat)
    returns (r: Result<seq<L>>, calls: seq<Call>)
    ensures r.Ok? ==> r.value == First(Range(node, fromBlock, toBlock), max)
    ensures r.Ok? ==> forall n :: 0 <= n < |calls| ==> AnswerTo(node, calls, n) == Served
    ensures forall n :: 0 <= n < |calls| ==> Needed(node, calls[n], fromBlock, toBlock, max)
    ensures r.Err? ==> calls != [] && AnswerTo(node, calls, |calls| - 1) != Served
    ensures forall n :: 0 <= n < |calls| ==> calls[n] == HundredThousand(n, fromBlock, toBlock)
    ensures r.Ok? ==>
      fromBlock + 100_000 * |calls| > toBlock || |Range(node, fromBlock, fromBlock + 100_000 * |calls| - 1)| >= max
  {
    hide Range, First, HundredThousand;
    var out: seq<L> := [];
    var b := fromBlock;
    calls := [];
    NothingYet(node, fromBlock, fromBlock - 1);
    FirstMore<L>([], [], max);
    while b <= toBlock && |out| < max
      invariant fromBlock <= b <= Max(fromBlock, toBlock + 1)
      invariant out == First(Range(node, fromBlock, b - 1), max)
      invariant forall n :: 0 <= n < |calls| ==> AnswerTo(node, calls, n) == Served
      invariant forall n :: 0 <= n < |calls| ==> Needed(node, calls[n], fromBlock, toBlock, max)
      invariant forall n :: 0 <= n < |calls| ==> calls[n] == HundredThousand(n, fromBlock, toBlock)
      invariant if b <= toBlock then b == fromBlock + 100_000 * |calls| else fromBlock + 100_000 * |calls| > toBlock
      decreases toBlock + 1 - b
    {
      var end := Min(b + WINDOW - 1, toBlock);
      var answer := node.answer(|calls|, b, end);
      ghost var before := calls;
      calls := calls + [Call(b, end)];
      FirstMore(Range(node, fromBlock, b - 1), Range(node, b, end), max);
      WindowIs(|before|, b, fromBlock, toBlock);
      assert forall n :: 0 <= n < |before| ==> AnswerTo(node, calls, n) == AnswerTo(node, before, n);
      assert AnswerTo(node, calls, |before|) == answer;
      if answer != Served {
        return Err("eth_getLogs failed"), calls;
      }
      RangeSplit(node, fromBlock, b, end);
      out := CollectUpTo(out, Range(node, b, end), max);
      b := end + 1;
    }
    FirstMore(Range(node, fromBlock, b - 1), if b <= toBlock then Range(node, b, toBlock) else [], max);
    if b <= toBlock {
      RangeSplit(node, fromBlock, b, toBlock);
    } else if toBlock < fromBlock {
      NothingYet(node, fromBlock, toBlock);
    }
    return Ok(out), calls;
  }

  /** Window `n` of the range, in steps of 100 000 blocks. */
  function HundredThousand(n: nat, fromBlock: nat, toBlock: nat): Call {
    var first := fromBlock + 100_000 * n;
    Call(first, if first + 99_999 <= toBlock then first + 99_999 else toBlock)
  }

  /** A window of the range that starts before `max` logs have been found. */
  ghost predicate Needed<L>(node: Node<L>, call: Call, fromBlock: nat, toBlock: nat, max: nat) {
    && fromBlock <= call.first <= call.last <= toBlock && call.last - call.first < WINDOW
    && |Range(node, fromBlock, call.first - 1)| < max
  }

  /** Pushing the logs of one answer until `max` are held. */
  method CollectUpTo<L>(found: seq<L>, logs: seq<L>, max: nat) returns (out: seq<L>)
    requires |found| <= max
    ensures out == First(found + logs, max)
  {
    out := found;
    for i := 0 to |logs|
      invariant out == found + logs[..i] && |out| <= max
    {
      if |out| >= max {
        return;
      }
      out := out + [logs[i]];
    }
    assert logs[..|logs|] == logs;
  }
}
