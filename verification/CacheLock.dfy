/** The build-cache lock of script/build-omob.ts as a small-step protocol.

    Every file-system call, every liveness probe and every crash is one atomic
    step, and steps of different processes interleave freely.  A pid may be
    reused: a dead pid can start again as a new process.  */
module CacheLock {

  type Pid = nat

  /** The lock file.  `File(p, false)` was created by `p` but its pid is not
      written yet, so it reads as the empty string. */
  datatype LockFile = Absent | File(owner: Pid, written: bool)

  /** Where a process is in `acquireCacheLock` or in `release`. */
  datatype Pc =
    | Dead
    | Idle
    | Created                        // first claim created the file, pid not written
    | WantReclaim                    // first claim met EEXIST
    | Checking                       // owns the reclaim directory, before existsSync
    | Reading                        // the lock file existed, before readFileSync
    | Probing(holder: Pid)           // read a pid, before processIsAlive
    | Unlinking                      // the holder was reported dead, before rmSync
    | Claiming                       // before the second claim
    | CreatedAgain                   // second claim created the file, pid not written
    | Cleanup(ok: bool)              // the finally block, before the directory is removed
    | Held
    | ReleaseChecking                // release() called, before existsSync
    | ReleaseReading
    | ReleaseUnlinking

  datatype State = State(file: LockFile, reclaimDir: bool, procs: map<Pid, Pc>)

  datatype Action =
    | Start(p: Pid) | Crash(p: Pid)
    | Create(p: Pid) | Write(p: Pid)
    | MakeDir(p: Pid) | Exists(p: Pid) | Read(p: Pid) | Probe(p: Pid) | Unlink(p: Pid) | RemoveDir(p: Pid)
    | BeginRelease(p: Pid) | ReleaseExists(p: Pid) | ReleaseRead(p: Pid) | ReleaseUnlink(p: Pid)

  const INIT := State(Absent, false, map[])

  function At(s: State, p: Pid): Pc {
    if p in s.procs then s.procs[p] else Dead
  }

  function Goto(s: State, p: Pid, pc: Pc): State {
    s.(procs := s.procs[p := pc])
  }

  predicate Enabled(s: State, a: Action) {
    var pc := At(s, a.p);
    match a
    case Start(p) => pc.Dead? && p > 0
    case Crash(_) => !pc.Dead?
    case Create(_) => pc.Idle? || pc.Claiming?
    case Write(_) => pc.Created? || pc.CreatedAgain?
    case MakeDir(_) => pc.WantReclaim?
    case Exists(_) => pc.Checking?
    case Read(_) => pc.Reading?
    case Probe(_) => pc.Probing?
    case Unlink(_) => pc.Unlinking?
    case RemoveDir(_) => pc.Cleanup?
    case BeginRelease(_) => pc.Held?
    case ReleaseExists(_) => pc.ReleaseChecking?
    case ReleaseRead(_) => pc.ReleaseReading?
    case ReleaseUnlink(_) => pc.ReleaseUnlinking?
  }

  /** The effect of one step; a call that throws goes to the code that runs next. */
  function Next(s: State, a: Action): State
    requires Enabled(s, a)
  {
    var p := a.p;
    match a
    case Start(_) => Goto(s, p, Idle)
    case Crash(_) => Goto(s, p, Dead)
    case Create(_) =>
      // open with flag "wx": fails exactly when the file exists
      if s.file.File? then Goto(s, p, if At(s, p).Idle? then WantReclaim else Cleanup(false))
      else Goto(s.(file := File(p, false)), p, if At(s, p).Idle? then Created else CreatedAgain)
    case Write(_) =>
      // the descriptor writes this process's pid; if the path was unlinked meanwhile the bytes are lost
      var file := if s.file == File(p, false) then File(p, true) else s.file;
      Goto(s.(file := file), p, if At(s, p).Created? then Held else Cleanup(true))
    case MakeDir(_) =>
      if s.reclaimDir then Goto(s, p, Idle) else Goto(s.(reclaimDir := true), p, Checking)
    case Exists(_) => Goto(s, p, if s.file.File? then Reading else Claiming)
    case Read(_) =>
      // ENOENT, and an incomplete claim (parsed as NaN), both throw into the finally block
      Goto(s, p, if s.file.File? && s.file.written then Probing(s.file.owner) else Cleanup(false))
    case Probe(_) =>
      Goto(s, p, if At(s, At(s, p).holder).Dead? then Unlinking else Cleanup(false))
    case Unlink(_) =>
      // rmSync without force throws when the file is gone
      Goto(s.(file := Absent), p, if s.file.File? then Claiming else Cleanup(false))
    case RemoveDir(_) =>
      Goto(s.(reclaimDir := false), p, if At(s, p).ok then Held else Idle)
    case BeginRelease(_) => Goto(s, p, ReleaseChecking)
    case ReleaseExists(_) => Goto(s, p, if s.file.File? then ReleaseReading else Idle)
    case ReleaseRead(_) => Goto(s, p, if s.file == File(p, true) then ReleaseUnlinking else Idle)
    case ReleaseUnlink(_) => Goto(s.(file := Absent), p, Idle)
  }

  // ----- runs

  ghost predicate ValidRun(s: State, run: seq<Action>)
    decreases |run|
  {
    run == [] || (Enabled(s, run[0]) && ValidRun(Next(s, run[0]), run[1..]))
  }

  ghost function Final(s: State, run: seq<Action>): State
    requires ValidRun(s, run)
    decreases |run|
  {
    if run == [] then s else Final(Next(s, run[0]), run[1..])
  }

  // ----- what must hold

  /** Between a successful acquisition and the end of its release. */
  predicate Holds(pc: Pc) {
    pc.Held? || pc == Cleanup(true) || pc.ReleaseChecking? || pc.ReleaseReading? || pc.ReleaseUnlinking?
  }

  predicate Claims(pc: Pc) {
    pc.Created? || pc.CreatedAgain? || Holds(pc)
  }

  ghost predicate MutualExclusion(s: State) {
    forall p, q :: Holds(At(s, p)) && Holds(At(s, q)) ==> p == q
  }

  /** The file is a leftover: its creator died and is not the process now using that pid. */
  predicate Orphan(s: State) {
    s.file.File? && !Claims(At(s, s.file.owner))
  }

  /** Some reclaimer is about to unlink although the lock file is gone or is a live claim. */
  ghost predicate Stale(s: State) {
    exists r :: At(s, r).Unlinking? && !Orphan(s)
  }

  /** The guard to check just before a probe: its "dead" answer would be about a file that is no longer there. */
  predicate ProbeIsStale(s: State, a: Action)
    requires Enabled(s, a)
  {
    a.Probe? && At(s, At(s, a.p).holder).Dead? && !Orphan(s)
  }

  ghost predicate NoStaleProbe(s: State, run: seq<Action>)
    requires ValidRun(s, run)
    decreases |run|
  {
    run == [] || (!ProbeIsStale(s, run[0]) && NoStaleProbe(Next(s, run[0]), run[1..]))
  }

  predicate InReclaim(pc: Pc) {
    pc.Checking? || pc.Reading? || pc.Probing? || pc.Unlinking? || pc.Claiming? || pc.CreatedAgain? || pc.Cleanup?
  }

  /** Whether a claim at this point has written its pid. */
  predicate Written(pc: Pc) {
    !pc.Created? && !pc.CreatedAgain?
  }

  /** The part of the invariant that survives a stale probe. */
  ghost predicate Base(s: State) {
    && (forall p :: Claims(At(s, p)) ==> s.file == File(p, Written(At(s, p))))
    && (forall p, q :: InReclaim(At(s, p)) && InReclaim(At(s, q)) ==> p == q && s.reclaimDir)
  }

  ghost predicate Inv(s: State) {
    Base(s) && !Stale(s)
  }

  lemma BaseExcludes(s: State)
    requires Base(s)
    ensures MutualExclusion(s)
  {
    forall p, q | Holds(At(s, p)) && Holds(At(s, q)) ensures p == q {
      assert Claims(At(s, p)) && Claims(At(s, q));
    }
  }

  /** A claim that exists after a step owns the file after it. */
  lemma StepKeepsClaim(s: State, a: Action, q: Pid)
    requires Inv(s) && Enabled(s, a)
    requires Claims(At(Next(s, a), q))
    ensures Next(s, a).file == File(q, Written(At(Next(s, a), q)))
  {
    var p := a.p;
    if q != p {
      assert At(Next(s, a), q) == At(s, q) && Claims(At(s, q));
      assert Claims(At(s, p)) ==> s.file == File(p, Written(At(s, p)));
      assert At(s, p).Unlinking? ==> Orphan(s);
    } else {
      assert Claims(At(s, p)) || a.Create?;
    }
  }

  lemma StepKeepsDir(s: State, a: Action, q: Pid, r: Pid)
    requires Inv(s) && Enabled(s, a)
    requires InReclaim(At(Next(s, a), q)) && InReclaim(At(Next(s, a), r))
    ensures q == r && Next(s, a).reclaimDir
  {
    var p := a.p;
    assert InReclaim(At(s, q)) || (q == p && a.MakeDir? && !s.reclaimDir);
    assert InReclaim(At(s, r)) || (r == p && a.MakeDir? && !s.reclaimDir);
    assert a.RemoveDir? ==> InReclaim(At(s, p));
  }

  lemma StepKeepsOrphan(s: State, a: Action, r: Pid)
    requires Inv(s) && Enabled(s, a) && !ProbeIsStale(s, a)
    requires At(Next(s, a), r).Unlinking?
    ensures Orphan(Next(s, a))
  {
    var p, t := a.p, Next(s, a);
    if r != p {
      assert At(s, r).Unlinking? && InReclaim(At(s, r));
      assert Orphan(s);
      assert InReclaim(At(s, p)) ==> p == r;
      assert Claims(At(s, p)) ==> s.file == File(p, Written(At(s, p)));
      assert t.file == s.file;
    }
  }

  /** Every step from a good state keeps the invariant, unless it is a stale probe,
      and then only the "not stale" half is lost. */
  lemma StepKeeps(s: State, a: Action)
    requires Inv(s) && Enabled(s, a)
    ensures Base(Next(s, a))
    ensures Stale(Next(s, a)) <==> ProbeIsStale(s, a)
  {
    var t := Next(s, a);
    forall q | Claims(At(t, q)) ensures t.file == File(q, Written(At(t, q))) { StepKeepsClaim(s, a, q); }
    forall q, r | InReclaim(At(t, q)) && InReclaim(At(t, r)) ensures q == r && t.reclaimDir {
      StepKeepsDir(s, a, q, r);
    }
    if ProbeIsStale(s, a) {
      ProbeOnlyMoves(s, a);
      assert At(t, a.p).Unlinking?;
    } else {
      forall r | At(t, r).Unlinking? ensures Orphan(t) { StepKeepsOrphan(s, a, r); }
    }
  }

  lemma ProbeOnlyMoves(s: State, a: Action)
    requires Enabled(s, a) && ProbeIsStale(s, a)
    ensures At(Next(s, a), a.p).Unlinking? && !Orphan(Next(s, a))
  {
  }

  // ----- safety over whole runs

  /** Some run from the empty cache directory reaches `s` without a stale probe. */
  ghost predicate ReachedCleanly(s: State) {
    exists run :: ValidRun(INIT, run) && NoStaleProbe(INIT, run) && Final(INIT, run) == s
  }

  lemma {:induction false} RunKeepsInv(s: State, run: seq<Action>)
    requires Inv(s) && ValidRun(s, run) && NoStaleProbe(s, run)
    ensures Inv(Final(s, run))
    decreases |run|
  {
    if run != [] {
      StepKeeps(s, run[0]);
      RunKeepsInv(Next(s, run[0]), run[1..]);
    }
  }

  lemma CleanStatesAreGood(s: State)
    requires ReachedCleanly(s)
    ensures Inv(s)
  {
    var run :| ValidRun(INIT, run) && NoStaleProbe(INIT, run) && Final(INIT, run) == s;
    assert forall p :: At(INIT, p).Dead?;
    RunKeepsInv(INIT, run);
  }

  /** In every interleaving with crashes and pid reuse, from the empty cache directory, at
      most one process holds the lock as long as no stale probe happened; the next unlink by a
      reclaimer takes a leftover file, and the next unlink by a release takes the releaser's own. */
  lemma MutualExclusionOverRuns(s: State)
    requires ReachedCleanly(s)
    ensures MutualExclusion(s)
    ensures forall r :: At(s, r).Unlinking? ==> Orphan(s)
    ensures forall p :: At(s, p).ReleaseUnlinking? ==> s.file == File(p, true)
  {
    CleanStatesAreGood(s);
    BaseExcludes(s);
    forall p | At(s, p).ReleaseUnlinking? ensures s.file == File(p, true) {
      assert Claims(At(s, p));
    }
  }

  // ----- a stale probe does break exclusion

  /** `run` leads from `s` to two holders without any further stale probe. */
  ghost predicate Breaks(s: State, run: seq<Action>) {
    ValidRun(s, run) && NoStaleProbe(s, run) && !MutualExclusion(Final(s, run))
  }

  lemma BreaksPrepend(s: State, a: Action, run: seq<Action>)
    requires Enabled(s, a) && !a.Probe? && Breaks(Next(s, a), run)
    ensures Breaks(s, [a] + run)
  {
    assert ([a] + run)[1..] == run;
  }

  /** Two holders already: the empty run is enough. */
  lemma TwoHoldersBreak(s: State, p: Pid, q: Pid)
    requires p != q && Holds(At(s, p)) && Holds(At(s, q))
    ensures Breaks(s, [])
  {
  }

  /** With a holder `q` in place, a reclaimer that believes its holder dead unlinks and claims. */
  lemma ReclaimerStealsFrom(s: State, r: Pid, q: Pid) returns (run: seq<Action>)
    requires r != q && At(s, r).Unlinking? && Holds(At(s, q)) && s.file == File(q, true)
    ensures Breaks(s, run)
  {
    var s1 := Next(s, Unlink(r));
    var s2 := Next(s1, Create(r));
    var s3 := Next(s2, Write(r));
    assert Holds(At(s3, r)) && Holds(At(s3, q));
    TwoHoldersBreak(s3, r, q);
    BreaksPrepend(s2, Write(r), []);
    BreaksPrepend(s1, Create(r), [Write(r)] + []);
    run := [Unlink(r)] + ([Create(r)] + ([Write(r)] + []));
    BreaksPrepend(s, Unlink(r), [Create(r)] + ([Write(r)] + []));
  }

  /** A pid that no process of `s` ever used. */
  lemma FreshPid(procs: map<Pid, Pc>, r: Pid) returns (q: Pid)
    ensures q > 0 && q != r && q !in procs
  {
    q := r + 1;
    var rest := procs.Keys;
    while q in procs
      invariant q > r
      invariant rest <= procs.Keys
      invariant forall k :: k in procs && k >= q ==> k in rest
      decreases |rest|
    {
      rest := rest - {q};
      q := q + 1;
    }
  }

  lemma StaleBreaks(s: State, r: Pid) returns (run: seq<Action>)
    requires Base(s) && At(s, r).Unlinking? && !Orphan(s)
    ensures Breaks(s, run)
  {
    if s.file.File? {
      var q := s.file.owner;
      assert InReclaim(At(s, r)) && (InReclaim(At(s, q)) ==> q == r);
      if At(s, q).Created? {
        var tail := ReclaimerStealsFrom(Next(s, Write(q)), r, q);
        BreaksPrepend(s, Write(q), tail);
        run := [Write(q)] + tail;
      } else {
        run := ReclaimerStealsFrom(s, r, q);
      }
    } else {
      var q := FreshPid(s.procs, r);
      var s1 := Next(s, Start(q));
      var s2 := Next(s1, Create(q));
      var tail := ReclaimerStealsFrom(Next(s2, Write(q)), r, q);
      BreaksPrepend(s2, Write(q), tail);
      BreaksPrepend(s1, Create(q), [Write(q)] + tail);
      BreaksPrepend(s, Start(q), [Create(q)] + ([Write(q)] + tail));
      run := [Start(q)] + ([Create(q)] + ([Write(q)] + tail));
    }
  }

  /** The exact condition.  In any state reached without a stale probe, a step is a stale probe
      if and only if exclusion can then be broken without any further stale probe. */
  lemma ExactCondition(s: State, a: Action)
    requires ReachedCleanly(s) && Enabled(s, a)
    ensures ProbeIsStale(s, a) <==> exists later :: Breaks(Next(s, a), later)
  {
    CleanStatesAreGood(s);
    StepKeeps(s, a);
    var t := Next(s, a);
    if ProbeIsStale(s, a) {
      var r :| At(t, r).Unlinking? && !Orphan(t);
      var later := StaleBreaks(t, r);
    } else {
      forall later | ValidRun(t, later) && NoStaleProbe(t, later) ensures !Breaks(t, later) {
        RunKeepsInv(t, later);
        BaseExcludes(Final(t, later));
      }
    }
  }

  // ----- the failing run, step by step

  lemma {:induction false} RunAppend(s: State, run: seq<Action>, a: Action)
    requires ValidRun(s, run) && NoStaleProbe(s, run)
    requires Enabled(Final(s, run), a) && !ProbeIsStale(Final(s, run), a)
    ensures ValidRun(s, run + [a]) && NoStaleProbe(s, run + [a])
    ensures Final(s, run + [a]) == Next(Final(s, run), a)
    decreases |run|
  {
    if run == [] {
      assert run + [a] == [a] && [a][1..] == [];
    } else {
      assert (run + [a])[1..] == run[1..] + [a];
      RunAppend(Next(s, run[0]), run[1..], a);
    }
  }

  lemma CleanStep(s: State, a: Action) returns (t: State)
    requires ReachedCleanly(s) && Enabled(s, a) && !a.Probe?
    ensures t == Next(s, a) && ReachedCleanly(t)
    ensures forall q :: q != a.p ==> At(t, q) == At(s, q)
  {
    var run :| ValidRun(INIT, run) && NoStaleProbe(INIT, run) && Final(INIT, run) == s;
    RunAppend(INIT, run, a);
    t := Next(s, a);
  }

  /** Builder 1 takes the lock. */
  lemma FirstBuilderHolds() returns (s: State)
    ensures ReachedCleanly(s) && s.file == File(1, true) && !s.reclaimDir
    ensures At(s, 1) == Held && At(s, 2) == Dead
  {
    assert ValidRun(INIT, []) && NoStaleProbe(INIT, []) && Final(INIT, []) == INIT;
    s := CleanStep(INIT, Start(1));
    s := CleanStep(s, Create(1));
    s := CleanStep(s, Write(1));
  }

  /** Process 2 meets the lock and reads the holder's pid. */
  lemma HolderIsRead() returns (s: State)
    ensures ReachedCleanly(s) && s.file == File(1, true)
    ensures At(s, 1) == Held && At(s, 2) == Probing(1)
  {
    s := FirstBuilderHolds();
    s := CleanStep(s, Start(2));
    s := CleanStep(s, Create(2));
    s := CleanStep(s, MakeDir(2));
    s := CleanStep(s, Exists(2));
    s := CleanStep(s, Read(2));
  }

  /** Builder 1 then releases and exits: the pending probe of 2 is stale.  So the code does not
      give mutual exclusion on all runs, and `ExactCondition` names the step to blame. */
  lemma StaleProbeIsReachable() returns (s: State)
    ensures ReachedCleanly(s) && Enabled(s, Probe(2)) && ProbeIsStale(s, Probe(2))
    ensures exists later :: Breaks(Next(s, Probe(2)), later)
  {
    s := HolderIsRead();
    s := CleanStep(s, BeginRelease(1));
    s := CleanStep(s, ReleaseExists(1));
    s := CleanStep(s, ReleaseRead(1));
    s := CleanStep(s, ReleaseUnlink(1));
    s := CleanStep(s, Crash(1));
    ExactCondition(s, Probe(2));
  }
}
