/** The cache directory under the worker pool: calls overlap, and every file access of one call may fall between those
    of another. Whatever the schedule, every file and every answer is the evidence of one block for its own targets. */
module SharedCache {
  import opened Prelude
  import opened Hashing
  import opened Cache

  type Chain = Header -> FullBlock

  /** Every block files its proofs under their own index. */
  ghost predicate Indexed(chain: Chain) {
    forall h :: WellIndexed(chain(h))
  }

  /** Where one call of `cached_block_evidence` stands. */
  datatype Call =
    | Loading(k: Key, paths: seq<Key>)
    | Merging(k: Key, paths: seq<Key>, seen: seq<Option<CachedBlock>>)
    | Writing(k: Key, entry: CachedBlock)
    | Answered(k: Key, answer: Fetched)
    | Failed(k: Key)

  datatype State = State(files: map<Key, CachedBlock>, calls: seq<Call>)

  function FileAt(s: State, k: Key): Option<CachedBlock> {
    if k in s.files then Some(s.files[k]) else None
  }

  function EntryFor(k: Key, f: Fetched): CachedBlock {
    CachedBlock(CACHE_VERSION, k.number, k.receiptTargets, k.transactionTargets, f.evidence, f.logPositions)
  }

  function Moved(s: State, c: nat, next: Call): State
    requires c < |s.calls|
  {
    s.(calls := s.calls[c := next])
  }

  // ── Steps ─────────────────────────────────────────────────────────────

  /** The call's own file is read: an answer, or on to the merge. */
  ghost predicate Load(s: State, s': State, c: nat) {
    && c < |s.calls| && s.calls[c].Loading?
    && var k := s.calls[c].k;
    && var loaded := if k in s.files then Cache.Load(s.files[k], k.number, k.receiptTargets, k.transactionTargets)
      else None;
    && s' == Moved(s, c,
         if loaded.Some? then Answered(k, Fetched(loaded.value.evidence, loaded.value.logPositions))
         else Merging(k, s.calls[c].paths, []))
  }

  /** The targets are covered by the files read so far. */
  ghost predicate Covered(call: Call)
    requires call.Merging?
  {
    Covers(call.seen, call.k.number, call.k.receiptTargets, call.k.transactionTargets)
  }

  /** The next listed file is read, as it is now. */
  ghost predicate Read(s: State, s': State, c: nat) {
    && c < |s.calls| && s.calls[c].Merging? && |s.calls[c].seen| < |s.calls[c].paths| && !Covered(s.calls[c])
    && var call := s.calls[c];
    && s' == Moved(s, c, Merging(call.k, call.paths, call.seen + [FileAt(s, call.paths[|call.seen|])]))
  }

  /** The files read cover the targets: their merge is to be written. Nothing is known of it unless the files are
      extracts of their blocks, which is all that `MergeCachedBlockEvidence` promises. */
  ghost predicate Merge(chain: Chain, s: State, s': State, c: nat, entry: CachedBlock) {
    && c < |s.calls| && s.calls[c].Merging? && Covered(s.calls[c])
    && (AllProject(chain, s.calls[c].seen, s.calls[c].k.number) ==>
          MergesTo(chain, s.calls[c].seen, s.calls[c].k, entry))
    && s' == Moved(s, c, Writing(s.calls[c].k, entry))
  }

  /** All listed files were read in vain: a fetch, which may fail. */
  ghost predicate Fetch(chain: Chain, s: State, s': State, c: nat, fetched: Result<Fetched>) {
    && c < |s.calls| && s.calls[c].Merging? && |s.calls[c].seen| == |s.calls[c].paths| && !Covered(s.calls[c])
    && (fetched.Ok? ==> IsDirect(chain, s.calls[c].k, fetched.value))
    && s' == Moved(s, c,
         if fetched.Ok? then Writing(s.calls[c].k, EntryFor(s.calls[c].k, fetched.value)) else Failed(s.calls[c].k))
  }

  /** The file is put in place at once, over any other call's. */
  ghost predicate Write(s: State, s': State, c: nat) {
    && c < |s.calls| && s.calls[c].Writing?
    && var (k, e) := (s.calls[c].k, s.calls[c].entry);
    && s' == Moved(s, c, Answered(k, Fetched(e.evidence, e.logPositions))).(files := s.files[k := e])
  }

  ghost predicate Step(chain: Chain, s: State, s': State, c: nat) {
    || Load(s, s', c) || Read(s, s', c) || Write(s, s', c)
    || (exists entry :: Merge(chain, s, s', c, entry))
    || (exists fetched :: Fetch(chain, s, s', c, fetched))
  }

  ghost predicate Next(chain: Chain, s: State, s': State) {
    exists c: nat :: Step(chain, s, s', c)
  }

  ghost predicate Init(chain: Chain, s: State) {
    && (forall k :: k in s.files ==> Faithful(chain, k, s.files[k]))
    && (forall c :: 0 <= c < |s.calls| ==> s.calls[c].Loading? && Canonical(s.calls[c].k))
  }

  ghost predicate Run(chain: Chain, states: seq<State>) {
    && states != [] && Init(chain, states[0])
    && forall i :: 0 <= i < |states| - 1 ==> Next(chain, states[i], states[i + 1])
  }

  // ── Invariant ─────────────────────────────────────────────────────────

  /** What was read is what some call wrote. */
  ghost predicate Genuinely(chain: Chain, f: Option<CachedBlock>) {
    f.Some? ==> exists k :: Faithful(chain, k, f.value)
  }

  ghost predicate CallInv(chain: Chain, files: map<Key, CachedBlock>, call: Call) {
    && Canonical(call.k)
    && match call
       case Loading(_, _) => true
       case Merging(_, paths, seen) => |seen| <= |paths| && forall i :: 0 <= i < |seen| ==> Genuinely(chain, seen[i])
       case Writing(k, entry) => Faithful(chain, k, entry)
       case Answered(k, answer) => k in files && IsExtract(chain, k, answer)
       case Failed(_) => true
  }

  ghost predicate Inv(chain: Chain, s: State) {
    && (forall k :: k in s.files ==> Faithful(chain, k, s.files[k]))
    && (forall c :: 0 <= c < |s.calls| ==> CallInv(chain, s.files, s.calls[c]))
  }

  /** A step of one call keeps the invariant of all when it keeps its own and only adds a faithful file. */
  lemma MoveInv(chain: Chain, s: State, s': State, c: nat)
    requires Inv(chain, s) && c < |s.calls| == |s'.calls| && s'.calls == s.calls[c := s'.calls[c]]
    requires s'.files == s.files || exists k, e :: s'.files == s.files[k := e] && Faithful(chain, k, e)
    requires CallInv(chain, s'.files, s'.calls[c])
    ensures Inv(chain, s')
  {
    hide Faithful, IsExtract, Genuinely;
    forall d | 0 <= d < |s'.calls|
      ensures CallInv(chain, s'.files, s'.calls[d])
    {
      assert d != c ==> CallInv(chain, s.files, s.calls[d]);
    }
  }

  lemma NextInv(chain: Chain, s: State, s': State)
    requires Indexed(chain) && Inv(chain, s) && Next(chain, s, s')
    ensures Inv(chain, s')
  {
    hide Step;
    var c: nat :| Step(chain, s, s', c);
    StepKeepsInv(chain, s, s', c);
  }

  /** A step of call `c` keeps the invariant, and what every call is for. */
  lemma StepKeepsInv(chain: Chain, s: State, s': State, c: nat)
    requires Indexed(chain) && Inv(chain, s) && Step(chain, s, s', c)
    ensures Inv(chain, s')
    ensures |s'.calls| == |s.calls| && forall d :: 0 <= d < |s.calls| ==> s'.calls[d].k == s.calls[d].k
    ensures c < |s.calls| && s'.calls == s.calls[c := s'.calls[c]]
  {
    hide Faithful, IsExtract, MergesTo, Canonical, Cache.Load, Covered, AllProject, Indexed;
    assert CallInv(chain, s.files, s.calls[c]);
    StepInv(chain, s, s', c);
    MoveInv(chain, s, s', c);
  }

  /** What one call has read are extracts of their blocks. */
  lemma SeenProject(chain: Chain, files: map<Key, CachedBlock>, call: Call)
    requires Indexed(chain) && call.Merging? && CallInv(chain, files, call)
    ensures AllProject(chain, call.seen, call.k.number)
  {
    hide Faithful, Projects, WellIndexed;
    forall f | f in call.seen && f.Some? && Usable(f.value, call.k.number)
      ensures Projects(chain, f.value)
    {
      var n :| 0 <= n < |call.seen| && call.seen[n] == f;
      assert Genuinely(chain, call.seen[n]);
      var k :| Faithful(chain, k, f.value);
      FaithfulProjects(chain, k, f.value);
    }
  }

  lemma StepInv(chain: Chain, s: State, s': State, c: nat)
    requires Indexed(chain)
    requires Inv(chain, s) && c < |s.calls| && CallInv(chain, s.files, s.calls[c]) && Step(chain, s, s', c)
    ensures |s'.calls| == |s.calls| && s'.calls == s.calls[c := s'.calls[c]]
    ensures CallInv(chain, s'.files, s'.calls[c]) && s'.calls[c].k == s.calls[c].k
    ensures s'.files == s.files || exists k, e :: s'.files == s.files[k := e] && Faithful(chain, k, e)
  {
    hide Canonical, AllProject, Indexed, Covered;
    if Load(s, s', c) {
      if s.calls[c].k in s.files {
        LoadedIsOwn(s.calls[c].k, s.files);
      }
    } else if Read(s, s', c) {
    } else if Write(s, s', c) {
    } else if exists entry :: Merge(chain, s, s', c, entry) {
      var entry :| Merge(chain, s, s', c, entry);
      SeenProject(chain, s.files, s.calls[c]);
    } else {
      var fetched :| Fetch(chain, s, s', c, fetched);
    }
  }

  lemma LoadedIsOwn(k: Key, files: map<Key, CachedBlock>)
    requires k in files
    ensures var loaded := Cache.Load(files[k], k.number, k.receiptTargets, k.transactionTargets);
      loaded.Some? ==> loaded.value == files[k]
  {
  }

  // ── Main results ──────────────────────────────────────────────────────

  lemma {:induction false} RunInv(chain: Chain, states: seq<State>, i: nat)
    requires Indexed(chain) && Run(chain, states) && i < |states|
    ensures Inv(chain, states[i])
  {
    hide Faithful, CallInv, Next, Indexed;
    if i == 0 {
      InitInv(chain, states[0]);
    } else {
      RunInv(chain, states, i - 1);
      assert Next(chain, states[i - 1], states[i - 1 + 1]);
      NextInv(chain, states[i - 1], states[i]);
    }
  }

  lemma InitInv(chain: Chain, s: State)
    requires Init(chain, s)
    ensures Inv(chain, s)
  {
  }

  /** However the calls overlap: each answer is the evidence of one block for the targets of its own call, with the log
      positions of a direct fetch when receipts were asked for, and a file for those targets is there. */
  lemma AnswersAreExtracts(chain: Chain, states: seq<State>, i: nat, c: nat)
    requires Indexed(chain) && Run(chain, states)
    requires i < |states| && c < |states[i].calls| && states[i].calls[c].Answered?
    ensures var call := states[i].calls[c];
      && call.k in states[i].files && IsExtract(chain, call.k, call.answer)
      && (call.k.receiptTargets != [] ==> IsDirect(chain, call.k, call.answer))
  {
    hide Faithful;
    RunInv(chain, states, i);
    assert CallInv(chain, states[i].files, states[i].calls[c]);
  }

  /** Every file a merge has read is an extract of its block, however old or new: the merge may rely on it. */
  lemma ReadFilesProject(chain: Chain, states: seq<State>, i: nat, c: nat)
    requires Indexed(chain) && Run(chain, states)
    requires i < |states| && c < |states[i].calls| && states[i].calls[c].Merging?
    ensures AllProject(chain, states[i].calls[c].seen, states[i].calls[c].k.number)
  {
    hide Faithful, AllProject, Indexed, Run;
    RunInv(chain, states, i);
    assert CallInv(chain, states[i].files, states[i].calls[c]);
    SeenProject(chain, states[i].files, states[i].calls[c]);
  }

  // ── Every call ends ───────────────────────────────────────────────────

  predicate Ended(call: Call) {
    call.Answered? || call.Failed?
  }

  /** At most how many steps a call still takes: its own file, the listed ones, a merge or fetch, a write. */
  function StepsLeft(call: Call): nat {
    match call
    case Loading(_, paths) => |paths| + 3
    case Merging(_, paths, seen) => (if |seen| <= |paths| then |paths| - |seen| else 0) + 2
    case Writing(_, _) => 1
    case Answered(_, _) => 0
    case Failed(_) => 0
  }

  function AllLeft(s: State): nat {
    SumBy(s.calls, StepsLeft)
  }

  /** Every step uses up some of them. */
  lemma StepUses(chain: Chain, s: State, s': State, c: nat)
    requires Step(chain, s, s', c)
    ensures AllLeft(s') < AllLeft(s)
  {
    hide Covered, Cache.Load, AllProject, MergesTo, IsDirect;
    var next: Call := OneMoves(chain, s, s', c);
    SumByUpdate(s.calls, c, next, StepsLeft);
  }

  lemma OneMoves(chain: Chain, s: State, s': State, c: nat) returns (next: Call)
    requires Step(chain, s, s', c)
    ensures c < |s.calls| && s'.calls == s.calls[c := next] && StepsLeft(next) < StepsLeft(s.calls[c])
  {
    hide Covered, Cache.Load, AllProject, MergesTo, IsDirect;
    if exists entry :: Merge(chain, s, s', c, entry) {
      var entry :| Merge(chain, s, s', c, entry);
    } else if exists fetched :: Fetch(chain, s, s', c, fetched) {
      var fetched :| Fetch(chain, s, s', c, fetched);
    }
    next := s'.calls[c];
  }

  /** No schedule runs longer than the files listed and three steps for every call. */
  lemma {:induction false} RunIsBounded(chain: Chain, states: seq<State>, i: nat)
    requires Run(chain, states) && i < |states|
    ensures i + AllLeft(states[i]) <= AllLeft(states[0])
  {
    hide Init, Step, AllLeft;
    if i > 0 {
      RunIsBounded(chain, states, i - 1);
      assert Next(chain, states[i - 1], states[i - 1 + 1]);
      var c: nat :| Step(chain, states[i - 1], states[i], c);
      StepUses(chain, states[i - 1], states[i], c);
    }
  }

  /** A call that has not ended has a step, whatever the others do. */
  lemma CallEnabled(chain: Chain, s: State, c: nat) returns (s': State)
    requires Indexed(chain) && Inv(chain, s) && c < |s.calls| && !Ended(s.calls[c])
    ensures Step(chain, s, s', c)
  {
    hide Faithful, MergesTo, AllProject, Covered, Indexed, Canonical;
    var call := s.calls[c];
    assert CallInv(chain, s.files, call);
    match call {
      case Loading(k, paths) =>
        var loaded := if k in s.files then Cache.Load(s.files[k], k.number, k.receiptTargets, k.transactionTargets)
          else None;
        s' := Moved(s, c,
          if loaded.Some? then Answered(k, Fetched(loaded.value.evidence, loaded.value.logPositions))
          else Merging(k, paths, []));
        assert Load(s, s', c);
      case Merging(k, paths, seen) =>
        if Covered(call) {
          SeenProject(chain, s.files, call);
          var entry := MergeOf(chain, call);
          s' := Moved(s, c, Writing(k, entry));
          assert Merge(chain, s, s', c, entry);
        } else if |seen| < |paths| {
          s' := Moved(s, c, Merging(k, paths, seen + [FileAt(s, paths[|seen|])]));
          assert Read(s, s', c);
        } else {
          s' := Moved(s, c, Failed(k));
          assert Fetch(chain, s, s', c, Err("fetch failed"));
        }
      case Writing(k, entry) =>
        s' := Moved(s, c, Answered(k, Fetched(entry.evidence, entry.logPositions))).(files := s.files[k := entry]);
        assert Write(s, s', c);
    }
  }

  lemma MergeOf(chain: Chain, call: Call) returns (entry: CachedBlock)
    requires call.Merging? && Canonical(call.k) && AllProject(chain, call.seen, call.k.number) && Covered(call)
    ensures MergesTo(chain, call.seen, call.k, entry)
  {
    hide MergesTo, AllProject, Canonical, Covers;
    entry := MergeExists(chain, call.seen, call.k);
  }

  /** A run that cannot go on has ended every call, and the other way round. */
  lemma EndedIffStuck(chain: Chain, states: seq<State>)
    requires Indexed(chain) && Run(chain, states)
    ensures var last := states[|states| - 1];
      (forall s' :: !Next(chain, last, s')) <==> forall c :: 0 <= c < |last.calls| ==> Ended(last.calls[c])
  {
    hide Inv, Indexed;
    var last := states[|states| - 1];
    RunInv(chain, states, |states| - 1);
    if c :| 0 <= c < |last.calls| && !Ended(last.calls[c]) {
      var s' := CallEnabled(chain, last, c);
      assert Next(chain, last, s');
    }
    forall s' | Next(chain, last, s')
      ensures exists c :: 0 <= c < |last.calls| && !Ended(last.calls[c])
    {
      var c: nat :| Step(chain, last, s', c);
      var next := OneMoves(chain, last, s', c);
      assert !Ended(last.calls[c]);
    }
  }

  // ── A call on its own ─────────────────────────────────────────────────

  /** Steps of one call only. */
  ghost predicate Alone(chain: Chain, states: seq<State>, c: nat) {
    states != [] && forall i :: 0 <= i < |states| - 1 ==> Step(chain, states[i], states[i + 1], c)
  }

  ghost function Listed(s: State, paths: seq<Key>): seq<Option<CachedBlock>> {
    seq(|paths|, j requires 0 <= j < |paths| => FileAt(s, paths[j]))
  }

  ghost predicate CoversFor(files: seq<Option<CachedBlock>>, k: Key) {
    Covers(files, k.number, k.receiptTargets, k.transactionTargets)
  }

  /** What the call is about to write, or has written: the merge of the listed files if they cover the targets,
      otherwise what was fetched. */
  ghost predicate Obtained(chain: Chain, listed: seq<Option<CachedBlock>>, k: Key, f: Fetched) {
    if CoversFor(listed, k) then MergesTo(chain, listed, k, EntryFor(k, f)) else IsDirect(chain, k, f)
  }

  /** Where call `c`, which began in `s`, stands in `now`. */
  ghost predicate Progress(chain: Chain, s: State, now: State, c: nat, k: Key, paths: seq<Key>) {
    var listed := Listed(s, paths);
    && c < |now.calls| && now.calls[c].k == k
    && match now.calls[c]
       case Loading(_, listing) => listing == paths && now.files == s.files
       case Merging(_, listing, seen) =>
         && listing == paths && now.files == s.files && k !in s.files && seen <= listed
         && forall m :: 0 <= m < |seen| ==> !CoversFor(listed[..m], k)
       case Writing(_, entry) =>
         && now.files == s.files && k !in s.files
         && entry == EntryFor(k, Fetched(entry.evidence, entry.logPositions))
         && Obtained(chain, listed, k, Fetched(entry.evidence, entry.logPositions))
       case Answered(_, answer) =>
         if k in s.files then now.files == s.files && answer == Fetched(s.files[k].evidence, s.files[k].logPositions)
         else now.files == s.files[k := EntryFor(k, answer)] && Obtained(chain, listed, k, answer)
       case Failed(_) => now.files == s.files && k !in s.files && !CoversFor(listed, k)
  }

  lemma ProgressStep(chain: Chain, s: State, now: State, next: State, c: nat, k: Key, paths: seq<Key>)
    requires Indexed(chain) && Inv(chain, now) && Progress(chain, s, now, c, k, paths) && Step(chain, now, next, c)
    ensures Progress(chain, s, next, c, k, paths)
  {
    hide Inv, Indexed, CoversFor, Cache.Load, MergesTo, IsDirect, AllProject, Covered;
    if Load(now, next, c) {
      OwnFileLoads(chain, now, k);
    } else if Read(now, next, c) {
      var call := now.calls[c];
      assert CoversFor(call.seen, k) <==> Covered(call) by { CoveredIs(call); }
      var m := |call.seen|;
      assert Listed(s, paths)[..m] == call.seen && Listed(s, paths)[m] == FileAt(s, paths[m]) == FileAt(now, paths[m]);
    } else if exists entry :: Merge(chain, now, next, c, entry) {
      var entry :| Merge(chain, now, next, c, entry);
      MergeProgress(chain, s, now, c, k, paths, entry);
    } else if exists fetched :: Fetch(chain, now, next, c, fetched) {
      var fetched :| Fetch(chain, now, next, c, fetched);
      CoveredIs(now.calls[c]);
      assert now.calls[c].seen == Listed(s, paths);
    }
  }

  lemma CoveredIs(call: Call)
    requires call.Merging?
    ensures Covered(call) <==> CoversFor(call.seen, call.k)
  {
  }

  /** A faithful file loads. */
  lemma OwnFileLoads(chain: Chain, s: State, k: Key)
    requires Indexed(chain) && Inv(chain, s)
    ensures k in s.files ==>
      Cache.Load(s.files[k], k.number, k.receiptTargets, k.transactionTargets) == Some(s.files[k])
  {
    hide Faithful, WellIndexed;
    if k in s.files {
      FaithfulProjects(chain, k, s.files[k]);
    }
  }

  lemma MergeProgress(chain: Chain, s: State, now: State, c: nat, k: Key, paths: seq<Key>, entry: CachedBlock)
    requires Indexed(chain) && Inv(chain, now) && Progress(chain, s, now, c, k, paths) && now.calls[c].Merging?
    requires Covered(now.calls[c])
    requires AllProject(chain, now.calls[c].seen, k.number) ==> MergesTo(chain, now.calls[c].seen, k, entry)
    ensures entry == EntryFor(k, Fetched(entry.evidence, entry.logPositions))
    ensures Obtained(chain, Listed(s, paths), k, Fetched(entry.evidence, entry.logPositions))
  {
    hide Indexed, AllProject, MergesTo, Covers, Canonical;
    var (seen, listed) := (now.calls[c].seen, Listed(s, paths));
    var n := |seen|;
    assert CallInv(chain, now.files, now.calls[c]);
    SeenProject(chain, now.files, now.calls[c]);
    assert listed[..n] == seen;
    if n == 0 {
      NothingCovered(k.number, k.receiptTargets, k.transactionTargets);
    }
    assert !CoversFor(listed[..n - 1], k);
    MergeOfMore(chain, listed, n, k, entry);
    MergedEntry(chain, listed, k, entry);
  }

  lemma MergedEntry(chain: Chain, files: seq<Option<CachedBlock>>, k: Key, e: CachedBlock)
    requires MergesTo(chain, files, k, e)
    ensures e == EntryFor(k, Fetched(e.evidence, e.logPositions))
  {
  }

  lemma {:induction false} AloneProgress(chain: Chain, states: seq<State>, c: nat, k: Key, paths: seq<Key>, i: nat)
    requires Indexed(chain) && Alone(chain, states, c) && i < |states| && Inv(chain, states[0])
    requires c < |states[0].calls| && states[0].calls[c] == Loading(k, paths)
    ensures Inv(chain, states[i]) && Progress(chain, states[0], states[i], c, k, paths)
  {
    hide Inv, Indexed, Step, CoversFor;
    if i > 0 {
      AloneProgress(chain, states, c, k, paths, i - 1);
      assert Step(chain, states[i - 1], states[i - 1 + 1], c);
      StepKeepsInv(chain, states[i - 1], states[i], c);
      ProgressStep(chain, states[0], states[i - 1], states[i], c, k, paths);
    }
  }

  /** Refinement: a call that no other interrupts ends as the method `CachedBlockEvidence` does. Its own file answers as
      it is; otherwise the listed files answer with their merge if they cover the targets, and only if not is anything
      fetched; what was merged or fetched is written under its own name, and nothing else is. */
  lemma AloneIsSequential(chain: Chain, states: seq<State>, c: nat, k: Key, paths: seq<Key>)
    requires Indexed(chain) && Alone(chain, states, c) && Inv(chain, states[0])
    requires c < |states[0].calls| && states[0].calls[c] == Loading(k, paths)
    requires var last := states[|states| - 1]; c < |last.calls| && Ended(last.calls[c])
    ensures var (first, last) := (states[0], states[|states| - 1]);
      var (call, covered) := (last.calls[c], CoversFor(Listed(first, paths), k));
      if k in first.files then
        && last.files == first.files
        && call == Answered(k, Fetched(first.files[k].evidence, first.files[k].logPositions))
      else if call.Failed? then
        !covered && last.files == first.files
      else
        && call.Answered? && last.files == first.files[k := EntryFor(k, call.answer)]
        && if covered then MergesTo(chain, Listed(first, paths), k, EntryFor(k, call.answer))
           else IsDirect(chain, k, call.answer)
  {
    hide Inv, Indexed, Step, CoversFor, MergesTo, IsDirect;
    AloneProgress(chain, states, c, k, paths, |states| - 1);
  }
}
