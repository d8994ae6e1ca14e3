/** The worker pool and the shared cache together: a worker that has taken target `i` runs the cache call for it, step
    by step, between the steps of all the others. Every schedule ends, and leaves in slot `i` an error or evidence for
    target `i`. */
module EvidencePool {
  import opened Prelude
  import opened Cache
  import SC = SharedCache
  import WP = WorkerPool

  type Slot = Result<Fetched>

  datatype State = State(pool: WP.Pool<Slot>, cache: SC.State)

  /** What a call comes to. */
  function Outcome(call: SC.Call): Slot {
    if call.Answered? then Ok(call.answer) else Err("block evidence failed")
  }

  /** A slot holds an error, or evidence of one block for its own target. */
  ghost predicate SlotOk(chain: SC.Chain, targets: seq<Key>, i: nat, r: Slot) {
    i < |targets| && (r.Ok? ==> IsExtract(chain, targets[i], r.value))
  }

  ghost function TaskOf(chain: SC.Chain, targets: seq<Key>): WP.Task<Slot> {
    WP.Task(|targets|, (i: nat, r: Slot) => SlotOk(chain, targets, i, r))
  }

  // ── Steps ─────────────────────────────────────────────────────────────

  /** One call for each target, none begun, on a cache of extracts. */
  ghost predicate Init(chain: SC.Chain, targets: seq<Key>, concurrency: nat, s: State) {
    && WP.Init(TaskOf(chain, targets), concurrency, s.pool)
    && SC.Init(chain, s.cache)
    && Assigned(targets, s)
  }

  ghost predicate Assigned(targets: seq<Key>, s: State) {
    |s.cache.calls| == |targets| && forall i :: 0 <= i < |targets| ==> s.cache.calls[i].k == targets[i]
  }

  /** A worker takes an index, or stores what it has computed. */
  ghost predicate PoolStep(chain: SC.Chain, targets: seq<Key>, s: State, s': State, w: nat) {
    && s'.cache == s.cache
    && (WP.Take(TaskOf(chain, targets), s.pool, s'.pool, w) || WP.Store(TaskOf(chain, targets), s.pool, s'.pool, w))
  }

  /** The call of the target it has taken makes a step. */
  ghost predicate CallStep(chain: SC.Chain, s: State, s': State, w: nat) {
    && s'.pool == s.pool
    && w < |s.pool.workers| && s.pool.workers[w].Taken?
    && SC.Step(chain, s.cache, s'.cache, s.pool.workers[w].index)
  }

  /** That call has ended, and its outcome is the worker's result, whatever it is. */
  ghost predicate Finish(s: State, s': State, w: nat) {
    && s'.cache == s.cache
    && w < |s.pool.workers| && s.pool.workers[w].Taken? && s.pool.workers[w].index < |s.cache.calls|
    && var i := s.pool.workers[w].index;
    && SC.Ended(s.cache.calls[i])
    && s'.pool == s.pool.(workers := s.pool.workers[w := WP.Computed(i, Outcome(s.cache.calls[i]))])
  }

  ghost predicate Step(chain: SC.Chain, targets: seq<Key>, s: State, s': State, w: nat) {
    PoolStep(chain, targets, s, s', w) || CallStep(chain, s, s', w) || Finish(s, s', w)
  }

  ghost predicate Next(chain: SC.Chain, targets: seq<Key>, s: State, s': State) {
    exists w: nat :: Step(chain, targets, s, s', w)
  }

  ghost predicate Run(chain: SC.Chain, targets: seq<Key>, concurrency: nat, states: seq<State>) {
    && states != [] && Init(chain, targets, concurrency, states[0])
    && forall i :: 0 <= i < |states| - 1 ==> Next(chain, targets, states[i], states[i + 1])
  }

  // ── Invariant ─────────────────────────────────────────────────────────

  ghost predicate Inv(chain: SC.Chain, targets: seq<Key>, s: State) {
    WP.Inv(TaskOf(chain, targets), s.pool) && SC.Inv(chain, s.cache) && Assigned(targets, s)
  }

  /** What a call that has ended came to is right for its target. */
  lemma OutcomeOk(chain: SC.Chain, targets: seq<Key>, s: State, i: nat)
    requires SC.Inv(chain, s.cache) && Assigned(targets, s) && i < |targets|
    ensures SlotOk(chain, targets, i, Outcome(s.cache.calls[i]))
  {
    assert SC.CallInv(chain, s.cache.files, s.cache.calls[i]);
  }

  /** So a finishing worker makes a step of the pool alone. */
  lemma FinishIsCompute(chain: SC.Chain, targets: seq<Key>, s: State, s': State, w: nat)
    requires Inv(chain, targets, s) && Finish(s, s', w)
    ensures WP.Compute(TaskOf(chain, targets), s.pool, s'.pool, w, Outcome(s.cache.calls[s.pool.workers[w].index]))
  {
    hide WP.Inv, SC.Inv, SlotOk;
    OutcomeOk(chain, targets, s, s.pool.workers[w].index);
  }

  lemma StepInv(chain: SC.Chain, targets: seq<Key>, s: State, s': State, w: nat)
    requires SC.Indexed(chain) && Inv(chain, targets, s) && Step(chain, targets, s, s', w)
    ensures Inv(chain, targets, s')
  {
    hide WP.Inv, SC.Inv, WP.Take, WP.Store, WP.Compute, SC.Step, SC.Indexed, TaskOf;
    if PoolStep(chain, targets, s, s', w) {
      assert WP.Step(TaskOf(chain, targets), s.pool, s'.pool, w);
      WP.NextInv(TaskOf(chain, targets), s.pool, s'.pool);
    } else if CallStep(chain, s, s', w) {
      SC.StepKeepsInv(chain, s.cache, s'.cache, s.pool.workers[w].index);
    } else {
      FinishIsCompute(chain, targets, s, s', w);
      assert WP.Step(TaskOf(chain, targets), s.pool, s'.pool, w);
      WP.NextInv(TaskOf(chain, targets), s.pool, s'.pool);
    }
  }

  lemma {:induction false} RunInv(chain: SC.Chain, targets: seq<Key>, concurrency: nat, states: seq<State>, i: nat)
    requires SC.Indexed(chain) && Run(chain, targets, concurrency, states) && i < |states|
    ensures Inv(chain, targets, states[i])
  {
    hide WP.Inv, SC.Inv, WP.Init, SC.Init, Step, SC.Indexed;
    if i == 0 {
      WP.InitInv(TaskOf(chain, targets), concurrency, states[0].pool);
      SC.InitInv(chain, states[0].cache);
    } else {
      RunInv(chain, targets, concurrency, states, i - 1);
      assert Next(chain, targets, states[i - 1], states[i - 1 + 1]);
      var w: nat :| Step(chain, targets, states[i - 1], states[i], w);
      StepInv(chain, targets, states[i - 1], states[i], w);
    }
  }

  // ── Main results ──────────────────────────────────────────────────────

  /** The result is what the call came to: its answer, or an error if it failed. */
  ghost predicate Reports(call: SC.Call, r: Slot) {
    || (call.Answered? && r == Ok(call.answer))
    || (call.Failed? && r.Err?)
  }

  /** Whatever has been computed or stored for a target reports the call of that target. */
  ghost predicate AllReport(s: State) {
    && (forall i :: 0 <= i < |s.pool.results| && s.pool.results[i].Some? ==> ReportsAt(s, i, s.pool.results[i].value))
    && (forall w :: 0 <= w < |s.pool.workers| && s.pool.workers[w].Computed? ==>
          ReportsAt(s, s.pool.workers[w].index, s.pool.workers[w].result))
  }

  ghost predicate ReportsAt(s: State, i: nat, r: Slot) {
    i < |s.cache.calls| && Reports(s.cache.calls[i], r)
  }

  lemma StepReports(chain: SC.Chain, targets: seq<Key>, s: State, s': State, w: nat)
    requires SC.Indexed(chain) && Inv(chain, targets, s) && Step(chain, targets, s, s', w) && AllReport(s)
    ensures AllReport(s')
  {
    hide WP.Inv, SC.Inv, SC.Step, SC.Indexed, SlotOk, Assigned;
    if CallStep(chain, s, s', w) {
      EndedStays(chain, s, s', s.pool.workers[w].index);
    } else if Finish(s, s', w) {
      assert Reports(s.cache.calls[s.pool.workers[w].index], Outcome(s.cache.calls[s.pool.workers[w].index]));
    } else {
      PoolStepReports(chain, targets, s, s', w);
    }
  }

  lemma PoolStepReports(chain: SC.Chain, targets: seq<Key>, s: State, s': State, w: nat)
    requires PoolStep(chain, targets, s, s', w) && AllReport(s)
    ensures AllReport(s')
  {
    hide Reports, SlotOk;
  }

  /** A call that has reported makes no further step. */
  lemma EndedStays(chain: SC.Chain, s: State, s': State, c: nat)
    requires SC.Step(chain, s.cache, s'.cache, c)
    ensures forall i: nat, r :: ReportsAt(s, i, r) ==> ReportsAt(s', i, r)
  {
    var next := SC.OneMoves(chain, s.cache, s'.cache, c);
    hide SC.Step;
    assert s'.cache.calls == s.cache.calls[c := next] && !SC.Ended(s.cache.calls[c]);
  }

  lemma {:induction false} RunReports(chain: SC.Chain, targets: seq<Key>, concurrency: nat, states: seq<State>, i: nat)
    requires SC.Indexed(chain) && Run(chain, targets, concurrency, states) && i < |states|
    ensures AllReport(states[i])
  {
    hide WP.Inv, SC.Inv, SC.Init, Step, SC.Indexed, Assigned, ReportsAt;
    if i > 0 {
      RunReports(chain, targets, concurrency, states, i - 1);
      RunInv(chain, targets, concurrency, states, i - 1);
      assert Next(chain, targets, states[i - 1], states[i - 1 + 1]);
      var w: nat :| Step(chain, targets, states[i - 1], states[i], w);
      StepReports(chain, targets, states[i - 1], states[i], w);
    }
  }

  /** After the join every slot is filled, with the answer of its own target's call, the evidence of one block for it,
      or with an error where that call failed. */
  lemma JoinedHoldsEvidence(chain: SC.Chain, targets: seq<Key>, concurrency: nat, states: seq<State>)
    requires SC.Indexed(chain) && Run(chain, targets, concurrency, states)
    requires WP.Joined(states[|states| - 1].pool)
    ensures var (results, calls) := (states[|states| - 1].pool.results, states[|states| - 1].cache.calls);
      && |results| == |calls| == |targets|
      && forall i :: 0 <= i < |targets| ==>
           && results[i].Some? && calls[i].k == targets[i]
           && (results[i].value.Ok? ==> IsExtract(chain, targets[i], results[i].value.value))
           && (calls[i].Answered? ==> results[i] == Some(Ok(calls[i].answer)))
           && (if calls[i].Failed? then results[i].value.Err? else calls[i].Answered?)
  {
    hide WP.Inv, SC.Inv, SC.Indexed;
    RunInv(chain, targets, concurrency, states, |states| - 1);
    WP.JoinedHolds(TaskOf(chain, targets), states[|states| - 1].pool);
    RunReports(chain, targets, concurrency, states, |states| - 1);
    var (results, calls) := (states[|states| - 1].pool.results, states[|states| - 1].cache.calls);
    forall i | 0 <= i < |targets|
      ensures Reports(calls[i], results[i].value)
      ensures results[i].value.Ok? ==> IsExtract(chain, targets[i], results[i].value.value)
    {
      assert ReportsAt(states[|states| - 1], i, results[i].value);
      assert SlotOk(chain, targets, i, results[i].value);
    }
  }

  ghost function Work(chain: SC.Chain, targets: seq<Key>, s: State): nat {
    WP.Measure(TaskOf(chain, targets), s.pool) + SC.AllLeft(s.cache)
  }

  /** Every step, of a worker or of a call, uses up some of the work. */
  lemma StepWork(chain: SC.Chain, targets: seq<Key>, s: State, s': State, w: nat)
    requires Inv(chain, targets, s) && Step(chain, targets, s, s', w)
    ensures Work(chain, targets, s') < Work(chain, targets, s)
  {
    hide WP.Inv, SC.Inv, WP.Take, WP.Store, WP.Compute, SC.Step, WP.Measure, SC.AllLeft, TaskOf;
    if PoolStep(chain, targets, s, s', w) {
      assert WP.Step(TaskOf(chain, targets), s.pool, s'.pool, w);
      WP.StepMeasure(TaskOf(chain, targets), s.pool, s'.pool);
    } else if CallStep(chain, s, s', w) {
      SC.StepUses(chain, s.cache, s'.cache, s.pool.workers[w].index);
    } else {
      FinishIsCompute(chain, targets, s, s', w);
      assert WP.Step(TaskOf(chain, targets), s.pool, s'.pool, w);
      WP.StepMeasure(TaskOf(chain, targets), s.pool, s'.pool);
    }
  }

  /** Termination of every schedule: it takes at most three steps a target and one a worker, and the steps of the
      calls. */
  lemma {:induction false} RunIsBounded(chain: SC.Chain, targets: seq<Key>, concurrency: nat, states: seq<State>,
                                        i: nat)
    requires SC.Indexed(chain) && Run(chain, targets, concurrency, states) && i < |states|
    ensures i + Work(chain, targets, states[i])
      <= 3 * |targets| + WP.Workers(concurrency, |targets|) + SC.AllLeft(states[0].cache)
  {
    hide WP.Init, SC.Init, Step, WP.Measure, SC.AllLeft, Inv, SC.Indexed;
    if i == 0 {
      WP.InitMeasure(TaskOf(chain, targets), concurrency, states[0].pool);
      } else {
      RunIsBounded(chain, targets, concurrency, states, i - 1);
      RunInv(chain, targets, concurrency, states, i - 1);
      assert Next(chain, targets, states[i - 1], states[i - 1 + 1]);
      var w: nat :| Step(chain, targets, states[i - 1], states[i], w);
      StepWork(chain, targets, states[i - 1], states[i], w);
    }
  }

  /** No worker ever waits for another: each that has not left, or the call it runs, has a step. */
  lemma StepEnabled(chain: SC.Chain, targets: seq<Key>, concurrency: nat, states: seq<State>,
                    w: nat) returns (s': State)
    requires SC.Indexed(chain) && Run(chain, targets, concurrency, states)
    requires w < |states[|states| - 1].pool.workers| && !states[|states| - 1].pool.workers[w].Stopped?
    ensures Step(chain, targets, states[|states| - 1], s', w) && Next(chain, targets, states[|states| - 1], s')
  {
    hide SC.Inv, SC.Step, SC.Indexed;
    var s := states[|states| - 1];
    RunInv(chain, targets, concurrency, states, |states| - 1);
    assert WP.WorkerInv(TaskOf(chain, targets), s.pool, s.pool.workers[w]);
    match s.pool.workers[w] {
      case Idle =>
        var pool := if s.pool.next < |targets|
          then s.pool.(next := s.pool.next + 1, workers := s.pool.workers[w := WP.Taken(s.pool.next)],
                       taken := s.pool.taken + [s.pool.next])
          else s.pool.(next := s.pool.next + 1, workers := s.pool.workers[w := WP.Stopped]);
        s' := s.(pool := pool);
        assert Step(chain, targets, s, s', w);
      case Taken(i) =>
        if SC.Ended(s.cache.calls[i]) {
          s' := s.(pool := s.pool.(workers := s.pool.workers[w := WP.Computed(i, Outcome(s.cache.calls[i]))]));
          assert Finish(s, s', w) && Step(chain, targets, s, s', w);
        } else {
          var cache := SC.CallEnabled(chain, s.cache, i);
          s' := s.(cache := cache);
          assert CallStep(chain, s, s', w) && Step(chain, targets, s, s', w);
        }
      case Computed(i, r) =>
        s' := s.(pool := s.pool.(workers := s.pool.workers[w := WP.Idle], results := s.pool.results[i := Some(r)],
                                 stored := s.pool.stored + [i]));
        assert Step(chain, targets, s, s', w);
    }
  }
}
