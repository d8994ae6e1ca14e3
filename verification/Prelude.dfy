/** Shared vocabulary: optional and failing results, the machine integer limits of the original,
    and sums over sequences that do not depend on the order of the elements. */
module Prelude {

  datatype Option<+T> = None | Some(value: T)

  datatype Result<+T> = Ok(value: T) | Err(message: string) {
    predicate IsFailure() {
      Err?
    }

    function PropagateFailure<U>(): Result<U>
      requires Err?
    {
      Err(message)
    }

    function Extract(): T
      requires Ok?
    {
      value
    }
  }

  const U32_LIMIT: nat := 0x1_0000_0000
  const U64_LIMIT: nat := 0x1_0000_0000_0000_0000
  const U128_LIMIT: nat := 0x1_0000_0000_0000_0000_0000_0000_0000_0000
  const U256_LIMIT: nat := U128_LIMIT * U128_LIMIT

  type u64 = n: nat | n < U64_LIMIT
  type u128 = n: nat | n < U128_LIMIT
  type u256 = n: nat | n < U256_LIMIT

  type byte = b: int | 0 <= b < 256
  type Bytes = seq<byte>

  /** `u128::checked_add`. */
  function CheckedAdd(a: u128, b: u128): Option<u128> {
    if a + b < U128_LIMIT then Some(a + b) else None
  }

  /** U256 arithmetic wraps. */
  function Wrap(n: nat): u256 {
    if n < U256_LIMIT then n else n % U256_LIMIT
  }

  lemma {:induction false} SubtractMultiple(n: nat, k: nat)
    requires n >= k * U256_LIMIT
    ensures (n - k * U256_LIMIT) % U256_LIMIT == n % U256_LIMIT
    decreases k
  {
    if k > 0 {
      SubtractMultiple(n - U256_LIMIT, k - 1);
      assert n - U256_LIMIT - (k - 1) * U256_LIMIT == n - k * U256_LIMIT;
      assert (n - U256_LIMIT) % U256_LIMIT == n % U256_LIMIT;
    }
  }

  lemma SmallMod(n: nat)
    requires n < U256_LIMIT
    ensures n % U256_LIMIT == n
  {
  }

  function Min(a: int, b: int): int {
    if a <= b then a else b
  }

  function Max(a: int, b: int): int {
    if a <= b then b else a
  }

  function CeilDiv(numerator: nat, denominator: nat): nat
    requires denominator > 0
  {
    (numerator + denominator - 1) / denominator
  }

  lemma CeilDivIsLeast(n: nat, d: nat, x: nat)
    requires d > 0
    ensures CeilDiv(n, d) <= x <==> n <= x * d
  {
    var q := (n + d - 1) / d;
    assert q * d <= n + d - 1 < q * d + d;
    if q <= x {
      MulOrder(q, x, d);
    } else {
      MulOrder(x + 1, q, d);
      assert (x + 1) * d == x * d + d;
    }
  }

  lemma MulOrder(a: nat, b: nat, d: nat)
    requires a <= b
    ensures a * d <= b * d
  {
  }

  function Same(n: nat): nat {
    n
  }

  /** The same function applied to every element. */
  function Map<T, U>(f: T -> U, s: seq<T>): (r: seq<U>)
    ensures |r| == |s|
    ensures forall k :: 0 <= k < |s| ==> r[k] == f(s[k])
  {
    seq(|s|, k requires 0 <= k < |s| => f(s[k]))
  }

  /** The sum of `f` over a sequence. */
  function SumBy<T>(s: seq<T>, f: T -> nat): nat {
    if s == [] then 0 else SumBy(s[..|s| - 1], f) + f(s[|s| - 1])
  }

  lemma {:induction false} SumByConcat<T>(a: seq<T>, b: seq<T>, f: T -> nat)
    ensures SumBy(a + b, f) == SumBy(a, f) + SumBy(b, f)
  {
    if b == [] {
      assert a + b == a;
    } else {
      assert (a + b)[..|a + b| - 1] == a + b[..|b| - 1];
      SumByConcat(a, b[..|b| - 1], f);
    }
  }

  lemma {:induction false} SumOfMapped<T, U>(s: seq<T>, g: T -> U, f: U -> nat, h: T -> nat)
    requires forall k :: 0 <= k < |s| ==> f(g(s[k])) == h(s[k])
    ensures SumBy(Map(g, s), f) == SumBy(s, h)
  {
    if s != [] {
      var init := s[..|s| - 1];
      SumOfMapped(init, g, f, h);
      assert Map(g, s)[..|s| - 1] == Map(g, init);
    }
  }

  lemma {:induction false} SumIndexed<T, U>(s: seq<T>, f: T -> nat, t: seq<U>, g: U -> nat)
    requires |s| == |t| && forall k :: 0 <= k < |s| ==> f(s[k]) == g(t[k])
    ensures SumBy(s, f) == SumBy(t, g)
    decreases |s|
  {
    if s != [] {
      SumIndexed(s[..|s| - 1], f, t[..|t| - 1], g);
    }
  }

  /** A sum bounds each of its terms. */
  lemma {:induction false} SumByTerm<T>(s: seq<T>, f: T -> nat, k: nat)
    requires k < |s|
    ensures f(s[k]) <= SumBy(s, f)
  {
    if k < |s| - 1 {
      SumByTerm(s[..|s| - 1], f, k);
    }
  }

  lemma {:induction false} SumByPrefix<T>(s: seq<T>, f: T -> nat, n: nat)
    requires n <= |s|
    ensures SumBy(s[..n], f) <= SumBy(s, f)
  {
    assert s == s[..n] + s[n..];
    SumByConcat(s[..n], s[n..], f);
  }

  lemma {:induction false} SumByUpdate<T>(s: seq<T>, i: nat, x: T, f: T -> nat)
    requires i < |s|
    ensures SumBy(s[i := x], f) + f(s[i]) == SumBy(s, f) + f(x)
  {
    var t := s[i := x];
    if i == |s| - 1 {
      assert t[..|t| - 1] == s[..|s| - 1];
    } else {
      assert t[..|t| - 1] == s[..|s| - 1][i := x];
      SumByUpdate(s[..|s| - 1], i, x, f);
    }
  }

  /** If `t` rearranges `init + [x]`, then `t` with some `x` taken out rearranges `init`. */
  lemma TakeOut<T>(init: seq<T>, x: T, t: seq<T>) returns (i: nat)
    requires multiset(init + [x]) == multiset(t)
    ensures i < |t| && t[i] == x && t == t[..i] + [x] + t[i + 1..]
    ensures multiset(init) == multiset(t[..i] + t[i + 1..])
  {
    assert x in multiset(init + [x]);
    i :| 0 <= i < |t| && t[i] == x;
    assert t == t[..i] + [x] + t[i + 1..];
    var rest := t[..i] + t[i + 1..];
    assert multiset(t) == multiset(rest) + multiset{x};
    assert multiset(init + [x]) == multiset(init) + multiset{x};
    assert multiset(init) == multiset(t) - multiset{x};
  }

  /** A sum sees only how often each element occurs, never where. */
  lemma {:induction false} SumByPermutation<T>(s: seq<T>, t: seq<T>, f: T -> nat)
    requires multiset(s) == multiset(t)
    ensures SumBy(s, f) == SumBy(t, f)
    decreases |s|
  {
    if s == [] {
      assert |multiset(t)| == 0;
    } else {
      var x := s[|s| - 1];
      var init := s[..|s| - 1];
      assert s == init + [x];
      var i := TakeOut(init, x, t);
      var rest := t[..i] + t[i + 1..];
      SumByPermutation(init, rest, f);
      SumByConcat(t[..i], t[i + 1..], f);
      SumByConcat(t[..i], [x], f);
      SumByConcat(t[..i] + [x], t[i + 1..], f);
      assert SumBy([x], f) == SumBy<T>([], f) + f(x);
    }
  }

  /** Mapping keeps permutations: if `t` rearranges `s`, then `f` of one rearranges `f` of the other. */
  lemma {:induction false} MapPermutation<T, U>(f: T -> U, s: seq<T>, t: seq<T>)
    requires multiset(s) == multiset(t)
    ensures multiset(Map(f, s)) == multiset(Map(f, t))
    decreases |s|
  {
    if s == [] {
      assert |multiset(t)| == 0;
    } else {
      var x := s[|s| - 1];
      var init := s[..|s| - 1];
      assert s == init + [x];
      var i := TakeOut(init, x, t);
      var rest := t[..i] + t[i + 1..];
      MapPermutation(f, init, rest);
      MapConcat(f, init, [x]);
      MapConcat(f, t[..i], t[i + 1..]);
      MapConcat(f, t[..i] + [x], t[i + 1..]);
      MapConcat(f, t[..i], [x]);
      var (a, b) := (Map(f, t[..i]), Map(f, t[i + 1..]));
      assert Map(f, [x]) == [f(x)];
      assert multiset(Map(f, init) + [f(x)]) == multiset(a + b) + multiset{f(x)} == multiset(a + [f(x)] + b);
    }
  }

  lemma MapConcat<T, U>(f: T -> U, a: seq<T>, b: seq<T>)
    ensures Map(f, a + b) == Map(f, a) + Map(f, b)
  {
  }

  function Power(b: nat, n: nat): nat {
    if n == 0 then 1 else b * Power(b, n - 1)
  }

  function Concat<T>(parts: seq<seq<T>>): seq<T> {
    if parts == [] then [] else parts[0] + Concat(parts[1..])
  }

  lemma {:induction false} ConcatSplit<T>(a: seq<seq<T>>, b: seq<seq<T>>)
    ensures Concat(a + b) == Concat(a) + Concat(b)
  {
    if a == [] {
      assert a + b == b;
    } else {
      assert (a + b)[1..] == a[1..] + b;
      ConcatSplit(a[1..], b);
    }
  }

  lemma ConcatSnoc<T>(a: seq<seq<T>>, x: seq<T>)
    ensures Concat(a + [x]) == Concat(a) + x
  {
    ConcatSplit(a, [x]);
    assert [x][1..] == [];
    assert Concat([x]) == x + Concat<T>([]);
  }

  ghost predicate Distinct<T>(s: seq<T>) {
    forall i, j :: 0 <= i < j < |s| ==> s[i] != s[j]
  }

  lemma {:induction false} DistinctCount<T>(s: seq<T>)
    ensures Distinct(s) <==> forall x :: multiset(s)[x] <= 1
  {
    if s != [] {
      var init, last := s[..|s| - 1], s[|s| - 1];
      DistinctCount(init);
      assert s == init + [last];
      if forall x :: multiset(s)[x] <= 1 {
        forall x
          ensures multiset(init)[x] <= 1
        {
          assert multiset(init)[x] <= multiset(s)[x];
        }
        assert multiset(s)[last] <= 1;
        assert last !in multiset(init);
      }
      if Distinct(s) {
        assert last !in init;
        assert multiset(init)[last] == 0;
      }
    }
  }

  // ── Sorting ───────────────────────────────────────────────────────────

  function InsertBy<T>(le: (T, T) -> bool, x: T, s: seq<T>): seq<T> {
    if s == [] || le(x, s[0]) then [x] + s else [s[0]] + InsertBy(le, x, s[1..])
  }

  /** A stable sort. */
  function SortBy<T>(le: (T, T) -> bool, s: seq<T>): seq<T> {
    if s == [] then [] else InsertBy(le, s[0], SortBy(le, s[1..]))
  }

  ghost predicate SortedBy<T>(le: (T, T) -> bool, s: seq<T>) {
    forall i, j :: 0 <= i < j < |s| ==> le(s[i], s[j])
  }

  ghost predicate Orders<T(!new)>(le: (T, T) -> bool) {
    && (forall x, y :: le(x, y) || le(y, x))
    && (forall x, y, z :: le(x, y) && le(y, z) ==> le(x, z))
  }

  lemma HeadAndTail<T>(s: seq<T>)
    requires s != []
    ensures s == [s[0]] + s[1..] && multiset(s) == multiset{s[0]} + multiset(s[1..])
  {
    assert s == [s[0]] + s[1..];
  }

  lemma {:induction false} InsertByKeeps<T>(le: (T, T) -> bool, x: T, s: seq<T>)
    ensures multiset(InsertBy(le, x, s)) == multiset(s) + multiset{x}
  {
    if s != [] && !le(x, s[0]) {
      InsertByKeeps(le, x, s[1..]);
      HeadAndTail(s);
      assert InsertBy(le, x, s) == [s[0]] + InsertBy(le, x, s[1..]);
    }
  }

  lemma {:induction false} InsertBySorts<T(!new)>(le: (T, T) -> bool, x: T, s: seq<T>)
    requires Orders(le) && SortedBy(le, s)
    ensures SortedBy(le, InsertBy(le, x, s))
  {
    if s != [] && le(x, s[0]) {
      var r := [x] + s;
      forall k | 0 <= k < |s|
        ensures le(x, s[k])
      {
        assert k == 0 || le(s[0], s[k]);
      }
    } else if s != [] {
      var t := InsertBy(le, x, s[1..]);
      InsertBySorts(le, x, s[1..]);
      InsertByKeeps(le, x, s[1..]);
      hide InsertBy;
      forall k | 0 <= k < |t|
        ensures le(s[0], t[k])
      {
        assert t[k] in multiset(t);
        assert t[k] == x || t[k] in s[1..];
      }
    }
  }

  lemma {:induction false} SortByKeeps<T>(le: (T, T) -> bool, s: seq<T>)
    ensures multiset(SortBy(le, s)) == multiset(s) && |SortBy(le, s)| == |s|
  {
    if s != [] {
      SortByKeeps(le, s[1..]);
      InsertByKeeps(le, s[0], SortBy(le, s[1..]));
      HeadAndTail(s);
    }
    assert |multiset(SortBy(le, s))| == |multiset(s)|;
  }

  lemma {:induction false} SortBySorts<T(!new)>(le: (T, T) -> bool, s: seq<T>)
    requires Orders(le)
    ensures SortedBy(le, SortBy(le, s)) && multiset(SortBy(le, s)) == multiset(s) && |SortBy(le, s)| == |s|
  {
    SortByKeeps(le, s);
    if s != [] {
      SortBySorts(le, s[1..]);
      InsertBySorts(le, s[0], SortBy(le, s[1..]));
    }
  }

  // ── Ordered containers ────────────────────────────────────────────────

  ghost predicate Increasing(s: seq<nat>) {
    forall i, j :: 0 <= i < j < |s| ==> s[i] < s[j]
  }

  lemma {:induction false} LeastExists(s: set<nat>)
    requires s != {}
    ensures exists x :: x in s && forall y :: y in s ==> x <= y
  {
    var x :| x in s;
    if s != {x} {
      var rest := s - {x};
      LeastExists(rest);
      var m :| m in rest && forall y :: y in rest ==> m <= y;
      forall y | y in s ensures Min(x, m) <= y {
        assert y == x || y in rest;
      }
      assert Min(x, m) in s;
    } else {
      assert forall y :: y in s ==> x <= y;
    }
  }

  function Least(s: set<nat>): (m: nat)
    requires s != {}
    ensures m in s && forall y :: y in s ==> m <= y
  {
    LeastExists(s);
    var m :| m in s && forall y :: y in s ==> m <= y;
    m
  }

  /** The iteration order of an ordered set. */
  function Sorted(s: set<nat>): (r: seq<nat>)
    ensures Increasing(r)
    ensures forall x :: x in r <==> x in s
    ensures |r| == |s|
  {
    if s == {} then [] else
    var m := Least(s);
    var rest := Sorted(s - {m});
    assert forall k :: 0 <= k < |rest| ==> rest[k] in s - {m};
    [m] + rest
  }

  /** Two increasing sequences with the same elements are the same sequence. */
  lemma {:induction false} IncreasingUnique(a: seq<nat>, b: seq<nat>)
    requires Increasing(a) && Increasing(b)
    requires forall x :: x in a <==> x in b
    ensures a == b
    decreases |a|
  {
    assert forall k :: 0 <= k < |a| ==> a[k] in b;
    assert forall k :: 0 <= k < |b| ==> b[k] in a;
    if a != [] && b != [] {
      assert a[0] in b;
      assert b[0] in a;
      assert a[0] == b[0];
      forall x ensures x in a[1..] <==> x in b[1..] {
        assert x in a[1..] <==> x in a && x != a[0];
        assert x in b[1..] <==> x in b && x != b[0];
      }
      IncreasingUnique(a[1..], b[1..]);
    }
  }
}
