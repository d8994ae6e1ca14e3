/** The block-evidence worker pool: threads draw indexes from an atomic counter, compute, and store under a lock. It is
    a state machine whose steps interleave freely; whatever the schedule, it refines a sequential map. */
module WorkerPool {
  import opened Prelude

  /** What one thread is doing. */
  datatype Worker<R> = Idle | Taken(index: nat) | Computed(index: nat, result: R) | Stopped

  /** The shared state, with the order in which indexes were handed out and slots were written. */
  datatype Pool<R> = Pool(
    next: nat,
    workers: seq<Worker<R>>,
    results: seq<Option<R>>,
    taken: seq<nat>,
    stored: seq<nat>)

  /** A task: how many targets, and which results are evidence for which target (a cached and a fetched result may
      both be). */
  datatype Task<!R> = Task(size: nat, ok: (nat, R) -> bool)

  // ── Steps ─────────────────────────────────────────────────────────────

  function Workers(concurrency: nat, size: nat): nat {
    Min(Max(concurrency, 1), Max(size, 1))
  }

  ghost predicate Init<R(!new)>(t: Task<R>, concurrency: nat, s: Pool<R>) {
    && s.next == 0 && s.taken == [] && s.stored == []
    && s.workers == seq(Workers(concurrency, t.size), _ => Idle)
    && s.results == seq(t.size, _ => None)
  }

  /** `next.fetch_add(1)`: the counter always moves on; past the end the thread leaves its loop. */
  ghost predicate Take<R(!new)>(t: Task<R>, s: Pool<R>, s': Pool<R>, w: nat) {
    && w < |s.workers| && s.workers[w].Idle?
    && if s.next < t.size
       then s' == s.(next := s.next + 1, workers := s.workers[w := Taken(s.next)], taken := s.taken + [s.next])
       else s' == s.(next := s.next + 1, workers := s.workers[w := Stopped])
  }

  ghost predicate Compute<R(!new)>(t: Task<R>, s: Pool<R>, s': Pool<R>, w: nat, r: R) {
    && w < |s.workers| && s.workers[w].Taken?
    && t.ok(s.workers[w].index, r)
    && s' == s.(workers := s.workers[w := Computed(s.workers[w].index, r)])
  }

  /** The store under the lock. */
  ghost predicate Store<R(!new)>(t: Task<R>, s: Pool<R>, s': Pool<R>, w: nat) {
    && w < |s.workers| && s.workers[w].Computed? && s.workers[w].index < |s.results|
    && s' == s.(
         workers := s.workers[w := Idle],
         results := s.results[s.workers[w].index := Some(s.workers[w].result)],
         stored := s.stored + [s.workers[w].index])
  }

  ghost predicate Step<R(!new)>(t: Task<R>, s: Pool<R>, s': Pool<R>, w: nat) {
    Take(t, s, s', w) || Store(t, s, s', w) || exists r :: Compute(t, s, s', w, r)
  }

  ghost predicate Next<R(!new)>(t: Task<R>, s: Pool<R>, s': Pool<R>) {
    exists w: nat :: Step(t, s, s', w)
  }

  ghost predicate Run<R(!new)>(t: Task<R>, concurrency: nat, states: seq<Pool<R>>) {
    && states != [] && Init(t, concurrency, states[0])
    && forall i :: 0 <= i < |states| - 1 ==> Next(t, states[i], states[i + 1])
  }

  /** The scope joins when every thread has left its loop. */
  ghost predicate Joined<R(!new)>(s: Pool<R>) {
    forall w :: 0 <= w < |s.workers| ==> s.workers[w].Stopped?
  }

  // ── Invariant ─────────────────────────────────────────────────────────

  predicate Holds<R(!new)>(w: Worker<R>, i: nat) {
    (w.Taken? || w.Computed?) && w.index == i
  }

  ghost predicate SomeHolder<R(!new)>(s: Pool<R>, i: nat) {
    exists w :: 0 <= w < |s.workers| && Holds(s.workers[w], i)
  }

  ghost predicate Inv<R(!new)>(t: Task<R>, s: Pool<R>) {
    && s.workers != [] && |s.results| == t.size
    && |s.taken| == Min(s.next, t.size)
    && (forall k :: 0 <= k < |s.taken| ==> s.taken[k] == k)
    && Distinct(s.stored)
    && (forall i :: i in s.stored ==> i < |s.taken|)
    && (forall i :: 0 <= i < t.size ==> (s.results[i].Some? <==> i in s.stored))
    && (forall i :: 0 <= i < t.size && s.results[i].Some? ==> t.ok(i, s.results[i].value))
    && (forall w :: 0 <= w < |s.workers| ==> WorkerInv(t, s, s.workers[w]))
    && (forall v, w, i :: 0 <= v < w < |s.workers| && Holds(s.workers[v], i) ==> !Holds(s.workers[w], i))
    && (forall i :: 0 <= i < |s.taken| ==> i in s.stored || SomeHolder(s, i))
  }

  ghost predicate WorkerInv<R(!new)>(t: Task<R>, s: Pool<R>, w: Worker<R>) {
    match w
    case Idle => true
    case Taken(i) => i < |s.taken| && i !in s.stored
    case Computed(i, r) => i < |s.taken| && i !in s.stored && t.ok(i, r)
    case Stopped => s.next > t.size
  }

  lemma InitInv<R(!new)>(t: Task<R>, concurrency: nat, s: Pool<R>)
    requires Init(t, concurrency, s)
    ensures Inv(t, s)
  {
  }

  /** Other workers keep what they hold. */
  lemma OtherHolders<R(!new)>(s: Pool<R>, s': Pool<R>, w: nat, x: Worker<R>, i: nat)
    requires w < |s.workers| && s'.workers == s.workers[w := x]
    requires SomeHolder(s, i) && (Holds(s.workers[w], i) ==> Holds(x, i))
    ensures SomeHolder(s', i)
  {
    var v :| 0 <= v < |s.workers| && Holds(s.workers[v], i);
    assert Holds(s'.workers[v], i);
  }

  lemma TakeInv<R(!new)>(t: Task<R>, s: Pool<R>, s': Pool<R>, w: nat)
    requires Inv(t, s) && Take(t, s, s', w)
    ensures Inv(t, s')
  {
    var x := s'.workers[w];
    forall v | 0 <= v < |s'.workers|
      ensures WorkerInv(t, s', s'.workers[v])
    {
      assert v != w ==> WorkerInv(t, s, s.workers[v]);
    }
    forall i | 0 <= i < |s'.taken|
      ensures i in s'.stored || SomeHolder(s', i)
    {
      if i == s.next {
        assert Holds(s'.workers[w], i);
      } else if i !in s.stored {
        OtherHolders(s, s', w, x, i);
      }
    }
    forall u, v, i | 0 <= u < v < |s'.workers| && Holds(s'.workers[u], i)
      ensures !Holds(s'.workers[v], i)
    {
      assert u != w ==> WorkerInv(t, s, s.workers[u]);
      assert v != w ==> WorkerInv(t, s, s.workers[v]);
    }
  }

  lemma ComputeInv<R(!new)>(t: Task<R>, s: Pool<R>, s': Pool<R>, w: nat, r: R)
    requires Inv(t, s) && Compute(t, s, s', w, r)
    ensures Inv(t, s')
  {
    assert WorkerInv(t, s, s.workers[w]);
    forall v | 0 <= v < |s'.workers|
      ensures WorkerInv(t, s', s'.workers[v])
    {
      assert v != w ==> WorkerInv(t, s, s.workers[v]);
    }
    forall i | 0 <= i < |s'.taken|
      ensures i in s'.stored || SomeHolder(s', i)
    {
      if i !in s.stored {
        OtherHolders(s, s', w, s'.workers[w], i);
      }
    }
    forall v, i | 0 <= v < |s.workers|
      ensures Holds(s'.workers[v], i) <==> Holds(s.workers[v], i)
    {
    }
  }

  lemma StoreInv<R(!new)>(t: Task<R>, s: Pool<R>, s': Pool<R>, w: nat)
    requires Inv(t, s) && Store(t, s, s', w)
    ensures Inv(t, s')
  {
    var i := s.workers[w].index;
    assert WorkerInv(t, s, s.workers[w]);
    assert Holds(s.workers[w], i);
    forall v | 0 <= v < |s'.workers|
      ensures WorkerInv(t, s', s'.workers[v])
    {
      if v != w {
        assert WorkerInv(t, s, s.workers[v]);
        assert !Holds(s.workers[v], i);
      }
    }
    forall k | 0 <= k < |s'.taken|
      ensures k in s'.stored || SomeHolder(s', k)
    {
      if k == i {
        assert s'.stored[|s.stored|] == i;
      } else if k in s.stored {
        assert k in s'.stored;
      } else {
        OtherHolders(s, s', w, Idle, k);
      }
    }
  }

  lemma NextInv<R(!new)>(t: Task<R>, s: Pool<R>, s': Pool<R>)
    requires Inv(t, s) && Next(t, s, s')
    ensures Inv(t, s')
  {
    hide Inv;
    var w: nat :| Step(t, s, s', w);
    if Take(t, s, s', w) {
      TakeInv(t, s, s', w);
    } else if Store(t, s, s', w) {
      StoreInv(t, s, s', w);
    } else {
      var r :| Compute(t, s, s', w, r);
      ComputeInv(t, s, s', w, r);
    }
  }

  lemma {:induction false} RunInv<R(!new)>(t: Task<R>, concurrency: nat, states: seq<Pool<R>>, k: nat)
    requires Run(t, concurrency, states) && k < |states|
    ensures Inv(t, states[k])
  {
    hide Inv, Init, Next;
    if k == 0 {
      InitInv(t, concurrency, states[0]);
    } else {
      RunInv(t, concurrency, states, k - 1);
      assert Next(t, states[k - 1], states[k - 1 + 1]);
      NextInv(t, states[k - 1], states[k]);
    }
  }

  // ── Main results ──────────────────────────────────────────────────────

  /** Safety of every interleaving: indexes are handed out once each, in order; no slot is written twice. */
  lemma TakenAndStoredOnce<R(!new)>(t: Task<R>, concurrency: nat, states: seq<Pool<R>>, k: nat)
    requires Run(t, concurrency, states) && k < |states|
    ensures Distinct(states[k].taken) && Distinct(states[k].stored)
    ensures forall i :: i in states[k].stored ==> i in states[k].taken
  {
    RunInv(t, concurrency, states, k);
    var s := states[k];
    forall i | i in s.stored
      ensures i in s.taken
    {
      assert s.taken[i] == i;
    }
  }

  /** Refinement: once the threads have joined, every slot holds evidence for its own target, whatever the worker
      count and the schedule; no slot is missing. */
  lemma JoinedIsMap<R(!new)>(t: Task<R>, concurrency: nat, states: seq<Pool<R>>)
    requires Run(t, concurrency, states) && Joined(states[|states| - 1])
    ensures var last := states[|states| - 1];
      && |last.results| == t.size
      && (forall i :: 0 <= i < t.size ==> last.results[i].Some? && t.ok(i, last.results[i].value) && i in last.stored)
  {
    RunInv(t, concurrency, states, |states| - 1);
    JoinedHolds(t, states[|states| - 1]);
  }

  lemma JoinedHolds<R(!new)>(t: Task<R>, s: Pool<R>)
    requires Inv(t, s) && Joined(s)
    ensures |s.results| == t.size
    ensures forall i :: 0 <= i < t.size ==> s.results[i].Some? && t.ok(i, s.results[i].value) && i in s.stored
  {
    assert WorkerInv(t, s, s.workers[0]);
    forall i | 0 <= i < t.size
      ensures i in s.stored
    {
      assert !SomeHolder(s, i) by {
        assert forall w :: 0 <= w < |s.workers| ==> !Holds(s.workers[w], i);
      }
    }
  }

  /** Work left per thread. */
  function Weight<R>(): Worker<R> -> nat {
    (w: Worker<R>) => match w
      case Idle => 1
      case Taken(_) => 3
      case Computed(_, _) => 2
      case Stopped => 0
  }

  function Measure<R>(t: Task<R>, s: Pool<R>): nat {
    3 * (t.size - Min(s.next, t.size)) + SumBy(s.workers, Weight())
  }

  /** Every step does one unit of work. */
  lemma StepMeasure<R(!new)>(t: Task<R>, s: Pool<R>, s': Pool<R>)
    requires Next(t, s, s')
    ensures Measure(t, s) == Measure(t, s') + 1
  {
    var w: nat :| Step(t, s, s', w);
    assert w < |s.workers| && s'.workers == s.workers[w := s'.workers[w]] by {
      if exists r :: Compute(t, s, s', w, r) {
        var r :| Compute(t, s, s', w, r);
      }
    }
    SumByUpdate(s.workers, w, s'.workers[w], Weight());
    if !Take(t, s, s', w) && !Store(t, s, s', w) {
      var r :| Compute(t, s, s', w, r);
    }
  }

  lemma {:induction false} IdleWeight<R>(n: nat)
    ensures SumBy(seq(n, (_: int) => Worker<R>.Idle), Weight()) == n
  {
    var s := seq(n, (_: int) => Worker<R>.Idle);
    if n > 0 {
      IdleWeight<R>(n - 1);
      assert s[..n - 1] == seq(n - 1, (_: int) => Worker<R>.Idle);
    }
  }

  lemma {:induction false} StoppedWeight<R(!new)>(workers: seq<Worker<R>>)
    ensures SumBy(workers, Weight()) == 0 <==> forall w :: 0 <= w < |workers| ==> workers[w].Stopped?
  {
    if workers != [] {
      StoppedWeight(workers[..|workers| - 1]);
    }
  }

  /** Termination of every schedule: after `k` steps exactly `k` units of the initial `3 n + workers` are gone. */
  lemma {:induction false} RunMeasure<R(!new)>(t: Task<R>, concurrency: nat, states: seq<Pool<R>>, k: nat)
    requires Run(t, concurrency, states) && k < |states|
    ensures Measure(t, states[k]) + k == 3 * t.size + Workers(concurrency, t.size)
  {
    hide Measure, Next;
    if k == 0 {
      InitMeasure(t, concurrency, states[0]);
    } else {
      RunMeasure(t, concurrency, states, k - 1);
      assert Next(t, states[k - 1], states[k - 1 + 1]);
      StepMeasure(t, states[k - 1], states[k]);
    }
  }

  lemma InitMeasure<R(!new)>(t: Task<R>, concurrency: nat, s: Pool<R>)
    requires Init(t, concurrency, s)
    ensures Measure(t, s) == 3 * t.size + Workers(concurrency, t.size)
  {
    IdleWeight<R>(Workers(concurrency, t.size));
    assert s.workers == seq(Workers(concurrency, t.size), (_: int) => Worker<R>.Idle);
  }

  /** A run has joined exactly when it has taken `3 n + workers` steps: no schedule runs longer, and none joins
      earlier. */
  lemma JoinedIffAllSteps<R(!new)>(t: Task<R>, concurrency: nat, states: seq<Pool<R>>)
    requires Run(t, concurrency, states)
    ensures |states| - 1 <= 3 * t.size + Workers(concurrency, t.size)
    ensures Joined(states[|states| - 1]) <==> |states| - 1 == 3 * t.size + Workers(concurrency, t.size)
  {
    var last := states[|states| - 1];
    RunMeasure(t, concurrency, states, |states| - 1);
    RunInv(t, concurrency, states, |states| - 1);
    StoppedWeight(last.workers);
    if Joined(last) {
      assert WorkerInv(t, last, last.workers[0]);
    }
  }

  ghost predicate HasEvidence<R(!new)>(t: Task<R>, i: nat) {
    exists r :: t.ok(i, r)
  }

  /** How many threads: as many as asked for, but one at least, and no more than there are targets. */
  lemma WorkersAre<R(!new)>(t: Task<R>, concurrency: nat, states: seq<Pool<R>>)
    requires Run(t, concurrency, states)
    ensures |states[0].workers| ==
      if concurrency <= 1 || t.size <= 1 then 1 else if concurrency <= t.size then concurrency else t.size
    ensures forall w :: 0 <= w < |states[0].workers| ==> states[0].workers[w].Idle?
  {
  }

  /** No thread ever waits for another: each that has not left its loop has a step of its own, whatever the others are
      doing, which keeps what they hold. An idle one takes the next index, or leaves when there is none. */
  lemma StepEnabled<R(!new)>(t: Task<R>, concurrency: nat, states: seq<Pool<R>>, w: nat) returns (s': Pool<R>)
    requires forall i :: 0 <= i < t.size ==> HasEvidence(t, i)
    requires Run(t, concurrency, states) && w < |states[|states| - 1].workers|
    requires !states[|states| - 1].workers[w].Stopped?
    ensures Step(t, states[|states| - 1], s', w) && Next(t, states[|states| - 1], s')
    ensures s'.workers == states[|states| - 1].workers[w := s'.workers[w]]
    ensures var s := states[|states| - 1];
      match s.workers[w]
      case Idle => s'.workers[w] == (if s.next < t.size then Taken(s.next) else Stopped) && s'.results == s.results
      case Taken(i) => s'.workers[w].Computed? && s'.workers[w].index == i && s'.results == s.results
      case Computed(i, r) => s'.workers[w] == Idle && i < |s.results| && s'.results == s.results[i := Some(r)]
  {
    var s := states[|states| - 1];
    RunInv(t, concurrency, states, |states| - 1);
    assert WorkerInv(t, s, s.workers[w]);
    match s.workers[w] {
      case Idle =>
        s' := if s.next < t.size
          then s.(next := s.next + 1, workers := s.workers[w := Taken(s.next)], taken := s.taken + [s.next])
          else s.(next := s.next + 1, workers := s.workers[w := Stopped]);
        assert Step(t, s, s', w);
      case Taken(i) =>
        assert HasEvidence(t, i);
        var r :| t.ok(i, r);
        s' := s.(workers := s.workers[w := Computed(i, r)]);
        assert Compute(t, s, s', w, r) && Step(t, s, s', w);
      case Computed(i, r) =>
        s' := s.(workers := s.workers[w := Idle], results := s.results[i := Some(r)], stored := s.stored + [i]);
        assert Step(t, s, s', w);
    }
  }

  // ── After the join ────────────────────────────────────────────────────

  ghost predicate FirstFailure<E>(results: seq<Option<Result<E>>>, i: nat, message: string)
    requires i < |results|
  {
    && (forall j :: 0 <= j < i ==> results[j].Some? && results[j].value.Ok?)
    && (results[i].None? || results[i].value == Err(message))
  }

  /** The final collection: the first missing or failed slot is the error, otherwise the list of values. */
  method Collect<E>(results: seq<Option<Result<E>>>) returns (r: Result<seq<E>>)
    ensures r.Ok? <==> forall i :: 0 <= i < |results| ==> results[i].Some? && results[i].value.Ok?
    ensures r.Ok? ==> |r.value| == |results| && forall i :: 0 <= i < |results| ==> results[i] == Some(Ok(r.value[i]))
    ensures r.Err? ==> exists i :: 0 <= i < |results| && FirstFailure(results, i, r.message)
  {
    var values: seq<E> := [];
    for i := 0 to |results|
      invariant |values| == i && forall j :: 0 <= j < i ==> results[j] == Some(Ok(values[j]))
    {
      match results[i]
      case None =>
        assert FirstFailure(results, i, "block evidence worker did not return");
        return Err("block evidence worker did not return");
      case Some(Err(m)) =>
        assert FirstFailure(results, i, m);
        return Err(m);
      case Some(Ok(v)) =>
        values := values + [v];
    }
    return Ok(values);
  }
}
