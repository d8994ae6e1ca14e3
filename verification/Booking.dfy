/** Bookkeeping shared by the three legs of a loop. One piece of evidence, once decoded and checked, is a row:
    the logs it consumes, the party it concerns, its amount and its time; `None` is evidence that was refused.
    A leg is booked when every row was accepted, no log is used twice, and the amounts add up within u128. */
module Booking {
  import opened Prelude
  import opened Hashing
  import opened Evidence

  datatype Row = Row(keys: seq<LogKey>, party: Address, amount: u128, time: u64)

  type Rows = seq<Option<Row>>

  function KeysOf(r: Option<Row>): seq<LogKey> {
    if r.Some? then r.value.keys else []
  }

  function AmountOf(r: Option<Row>): nat {
    if r.Some? then r.value.amount else 0
  }

  function AmountFor(party: Address): Option<Row> -> nat {
    (r: Option<Row>) => if r.Some? && r.value.party == party then r.value.amount else 0
  }

  function Total(rows: Rows): nat {
    SumBy(rows, AmountOf)
  }

  function PartyTotal(rows: Rows, party: Address): nat {
    SumBy(rows, AmountFor(party))
  }

  ghost function Consumed(rows: Rows): set<LogKey> {
    set r, k | r in rows && k in KeysOf(r) :: k
  }

  function Elements(keys: seq<LogKey>): set<LogKey> {
    set k | k in keys
  }

  ghost predicate Fresh(keys: seq<LogKey>, used: set<LogKey>) {
    Distinct(keys) && forall i :: 0 <= i < |keys| ==> keys[i] !in used
  }

  /** Row by row: accepted, and on logs not used before. */
  ghost predicate Claimed(rows: Rows, used: set<LogKey>) {
    rows == [] ||
    var init, last := rows[..|rows| - 1], rows[|rows| - 1];
    Claimed(init, used) && last.Some? && Fresh(last.value.keys, used + Consumed(init))
  }

  ghost predicate Booked(rows: Rows, used: set<LogKey>) {
    Claimed(rows, used) && Total(rows) < U128_LIMIT
  }

  /** The earliest time recorded for a party. */
  function EarliestFor(rows: Rows, party: Address): Option<u64> {
    if rows == [] then None
    else
      var before := EarliestFor(rows[..|rows| - 1], party);
      var last := rows[|rows| - 1];
      if last.None? || last.value.party != party then before
      else if before.None? then Some(last.value.time)
      else Some(Min(before.value, last.value.time))
  }

  /** The earliest time of all, starting from the largest u64. */
  function Earliest(rows: Rows): u64 {
    if rows == [] then U64_LIMIT - 1
    else
      var before := Earliest(rows[..|rows| - 1]);
      var last := rows[|rows| - 1];
      if last.None? then before else Min(before, last.value.time)
  }

  /** The log keys already consumed, shared by the passes. */
  class UsedLogs {
    var keys: set<LogKey>

    constructor ()
      ensures keys == {}
    {
      keys := {};
    }

    /** `BTreeSet::insert`: whether the key was new. */
    method Insert(key: LogKey) returns (added: bool)
      modifies this
      ensures added == (key !in old(keys))
      ensures keys == old(keys) + {key}
    {
      added := key !in keys;
      keys := keys + {key};
    }
  }

  // ── Going through the rows one at a time ──────────────────────────────

  lemma {:induction false} ClaimedPrefix(rows: Rows, used: set<LogKey>, n: nat)
    requires Claimed(rows, used) && n <= |rows|
    ensures Claimed(rows[..n], used)
    decreases |rows|
  {
    if n == |rows| {
      assert rows[..n] == rows;
    } else {
      ClaimedPrefix(rows[..|rows| - 1], used, n);
      assert rows[..|rows| - 1][..n] == rows[..n];
    }
  }

  /** What taking in row `n` does to every quantity, and the two ways it refuses the whole leg. */
  lemma TakeClaim(rows: Rows, used: set<LogKey>, n: nat)
    requires n < |rows| && Claimed(rows[..n], used)
    ensures rows[n].None? ==> !Claimed(rows, used)
    ensures rows[n].Some? && !Fresh(rows[n].value.keys, used + Consumed(rows[..n])) ==> !Claimed(rows, used)
    ensures rows[n].Some? ==>
      && Consumed(rows[..n + 1]) == Consumed(rows[..n]) + Elements(rows[n].value.keys)
      && Total(rows[..n + 1]) == Total(rows[..n]) + rows[n].value.amount
      && (Fresh(rows[n].value.keys, used + Consumed(rows[..n])) ==> Claimed(rows[..n + 1], used))
      && Earliest(rows[..n + 1]) == Min(Earliest(rows[..n]), rows[n].value.time)
  {
    var next := rows[..n + 1];
    assert next[..n] == rows[..n] && next == rows[..n] + [rows[n]];
    if Claimed(rows, used) {
      ClaimedPrefix(rows, used, n + 1);
    }
    if rows[n].Some? {
      assert Consumed(next) == Consumed(rows[..n]) + Elements(rows[n].value.keys) by {
        forall k | k in Consumed(next)
          ensures k in Consumed(rows[..n]) + Elements(rows[n].value.keys)
        {
          var r :| r in next && k in KeysOf(r);
          assert r in rows[..n] || r == rows[n];
        }
        forall k | k in Elements(rows[n].value.keys)
          ensures k in Consumed(next)
        {
          assert next[n] in next && k in KeysOf(next[n]);
        }
      }
    }
  }

  /** The same for a booked leg, where a running total past u128 refuses it too. */
  lemma TakeRow(rows: Rows, used: set<LogKey>, n: nat)
    requires n < |rows| && Booked(rows[..n], used)
    ensures rows[n].None? ==> !Booked(rows, used)
    ensures rows[n].Some? && !Fresh(rows[n].value.keys, used + Consumed(rows[..n])) ==> !Booked(rows, used)
    ensures rows[n].Some? && Total(rows[..n]) + rows[n].value.amount >= U128_LIMIT ==> !Booked(rows, used)
    ensures rows[n].Some? ==>
      && Consumed(rows[..n + 1]) == Consumed(rows[..n]) + Elements(rows[n].value.keys)
      && Total(rows[..n + 1]) == Total(rows[..n]) + rows[n].value.amount
      && (Fresh(rows[n].value.keys, used + Consumed(rows[..n])) && Total(rows[..n + 1]) < U128_LIMIT ==>
            Booked(rows[..n + 1], used))
      && Earliest(rows[..n + 1]) == Min(Earliest(rows[..n]), rows[n].value.time)
  {
    hide Claimed, Fresh, Consumed, Earliest;
    TakeClaim(rows, used, n);
    SumByPrefix(rows, AmountOf, n + 1);
  }

  lemma NothingBooked(rows: Rows, used: set<LogKey>)
    requires rows == []
    ensures Booked(rows, used) && Consumed(rows) == {} && Total(rows) == 0 && Earliest(rows) == U64_LIMIT - 1
    ensures forall b :: PartyTotal(rows, b) == 0 && EarliestFor(rows, b).None?
  {
  }

  lemma TakeRowFor(rows: Rows, n: nat, party: Address)
    requires n < |rows| && rows[n].Some?
    ensures PartyTotal(rows[..n + 1], party) ==
      PartyTotal(rows[..n], party) + if rows[n].value.party == party then rows[n].value.amount else 0
    ensures EarliestFor(rows[..n + 1], party) ==
      if rows[n].value.party != party then EarliestFor(rows[..n], party)
      else Some(if EarliestFor(rows[..n], party).None? then rows[n].value.time
                else Min(EarliestFor(rows[..n], party).value, rows[n].value.time))
  {
    assert rows[..n + 1][..n] == rows[..n];
  }

  lemma {:induction false} PartyWithinTotal(rows: Rows, party: Address)
    ensures PartyTotal(rows, party) <= Total(rows)
  {
    if rows != [] {
      PartyWithinTotal(rows[..|rows| - 1], party);
    }
  }

  lemma {:induction false} EarliestForIsLeast(rows: Rows, party: Address, time: u64)
    ensures EarliestFor(rows, party).Some? <==> exists r :: r in rows && r.Some? && r.value.party == party
    ensures EarliestFor(rows, party).Some? && EarliestFor(rows, party).value < time
      <==> exists r :: r in rows && r.Some? && r.value.party == party && r.value.time < time
  {
    if rows != [] {
      var init, last := rows[..|rows| - 1], rows[|rows| - 1];
      EarliestForIsLeast(init, party, time);
      assert rows == init + [last];
      assert forall r :: r in rows <==> r in init || r == last;
    }
  }

  lemma {:induction false} EarliestIsLeast(rows: Rows, time: u64)
    ensures Earliest(rows) < time <==> exists r :: r in rows && r.Some? && r.value.time < time
  {
    if rows != [] {
      var init, last := rows[..|rows| - 1], rows[|rows| - 1];
      EarliestIsLeast(init, time);
      assert rows == init + [last];
      assert forall r :: r in rows <==> r in init || r == last;
    }
  }

  // ── The same, without an order ────────────────────────────────────────

  function KeyCount(k: LogKey): Option<Row> -> nat {
    (r: Option<Row>) => multiset(KeysOf(r))[k]
  }

  /** How many times a log is used by a leg. */
  function Uses(rows: Rows, k: LogKey): nat {
    SumBy(rows, KeyCount(k))
  }

  ghost predicate AllAccepted(rows: Rows) {
    forall r :: r in rows ==> r.Some?
  }

  lemma {:induction false} ConsumedUses(rows: Rows, k: LogKey)
    ensures k in Consumed(rows) <==> Uses(rows, k) > 0
  {
    if rows != [] {
      var init, last := rows[..|rows| - 1], rows[|rows| - 1];
      ConsumedUses(init, k);
      assert rows == init + [last];
      assert k in Consumed(rows) <==> k in Consumed(init) || k in KeysOf(last) by {
        if k in KeysOf(last) { assert last in rows; }
        if k in Consumed(rows) {
          var r :| r in rows && k in KeysOf(r);
          assert r in init || r == last;
        }
      }
    }
  }

  /** A key list is fresh exactly when no key occurs twice, counting the keys already used. */
  lemma FreshCount(keys: seq<LogKey>, used: set<LogKey>)
    ensures Fresh(keys, used) <==> forall k :: multiset(keys)[k] + (if k in used then 1 else 0) <= 1
  {
    DistinctCount(keys);
    if Fresh(keys, used) {
      forall k
        ensures multiset(keys)[k] + (if k in used then 1 else 0) <= 1
      {
        if k in multiset(keys) { assert k in keys; }
      }
    }
    if forall k :: multiset(keys)[k] + (if k in used then 1 else 0) <= 1 {
      forall i | 0 <= i < |keys|
        ensures keys[i] !in used
      {
        assert keys[i] in multiset(keys);
      }
    }
  }

  /** A leg is claimed if and only if all its evidence is accepted and every log is used at most once (and not at
      all if used before). */
  lemma {:induction false} ClaimedIff(rows: Rows, used: set<LogKey>)
    ensures Claimed(rows, used) <==>
      AllAccepted(rows) && forall k :: Uses(rows, k) + (if k in used then 1 else 0) <= 1
  {
    if rows != [] {
      var init, last := rows[..|rows| - 1], rows[|rows| - 1];
      ClaimedIff(init, used);
      assert rows == init + [last];
      assert AllAccepted(rows) <==> AllAccepted(init) && last.Some? by {
        assert last in rows;
        assert forall r :: r in rows <==> r in init || r == last;
      }
      forall k
        ensures Uses(rows, k) == Uses(init, k) + multiset(KeysOf(last))[k]
      {
      }
      if Claimed(init, used) && last.Some? {
        FreshStep(rows, used);
      } else if AllAccepted(rows) {
        assert exists k :: Uses(init, k) + (if k in used then 1 else 0) > 1;
      }
    }
  }

  /** A leg is booked if and only if all its evidence is accepted, every log is used at most once (and not at
      all if used before), and the total fits u128: nothing depends on the order of the rows. */
  lemma BookedIff(rows: Rows, used: set<LogKey>)
    ensures Booked(rows, used) <==>
      && AllAccepted(rows)
      && (forall k :: Uses(rows, k) + (if k in used then 1 else 0) <= 1)
      && Total(rows) < U128_LIMIT
  {
    ClaimedIff(rows, used);
  }

  lemma FreshStep(rows: Rows, used: set<LogKey>)
    requires rows != [] && rows[|rows| - 1].Some?
    requires forall k :: Uses(rows[..|rows| - 1], k) + (if k in used then 1 else 0) <= 1
    ensures Fresh(KeysOf(rows[|rows| - 1]), used + Consumed(rows[..|rows| - 1]))
      <==> forall k :: Uses(rows, k) + (if k in used then 1 else 0) <= 1
  {
    var init, last := rows[..|rows| - 1], rows[|rows| - 1];
    var before := used + Consumed(init);
    FreshCount(KeysOf(last), before);
    forall k
      ensures multiset(KeysOf(last))[k] + (if k in before then 1 else 0) <= 1
        <==> Uses(rows, k) + (if k in used then 1 else 0) <= 1
    {
      ConsumedUses(init, k);
      assert Uses(rows, k) == Uses(init, k) + multiset(KeysOf(last))[k];
    }
  }
}
