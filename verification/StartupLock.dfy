/** The daemon's startup lock, packages/lsp-daemon/src/lock.ts, as an interleaving protocol with crashes: creating the
    file, writing the pid, reading it, probing it and unlinking it are separate steps. */
module StartupLock {
  import opened Text

  /** How far one process is; `n` counts the attempts of `tryAcquireLock`. */
  datatype Phase =
    | Trying(n: nat)
    | Writing                    // created the file, pid not yet written
    | Looking(n: nat)            // the file existed
    | Probing(n: nat, pid: nat)  // read a pid
    | Unlinking(n: nat)          // no pid, or a dead one
    | Holding
    | Out

  datatype Claim = Claim(who: nat, written: bool)

  /** Processes are numbered; a number stands for a pid that is not reused. */
  datatype State = State(phase: map<nat, Phase>, alive: set<nat>, file: Option<Claim>)

  const INIT := State(map[], {}, None)

  datatype Event =
    | Spawn(who: nat)
    | Create(who: nat)
    | Write(who: nat)
    | Look(who: nat)
    | Probe(who: nat, alive: bool)
    | Unlink(who: nat)
    | Release(who: nat)
    | Crash(who: nat)

  predicate Enabled(s: State, e: Event) {
    if e.Spawn? then e.who !in s.phase
    else
      && e.who in s.phase && e.who in s.alive
      && var p := s.phase[e.who];
      match e
      case Create(_) => p.Trying?
      case Write(_) => p.Writing?
      case Look(_) => p.Looking?
      case Probe(_, alive) => p.Probing? && (p.pid in s.alive ==> alive)
      case Unlink(_) => p.Unlinking?
      case Release(_) => p.Holding?
      case Crash(_) => true
  }

  function To(s: State, d: nat, p: Phase): State { s.(phase := s.phase[d := p]) }

  function Step(s: State, e: Event): State
    requires Enabled(s, e)
  {
    match e
    case Spawn(d) => State(s.phase[d := Trying(0)], s.alive + {d}, s.file)
    case Create(d) =>
      if s.file.None? then To(s, d, Writing).(file := Some(Claim(d, false))) else To(s, d, Looking(s.phase[d].n))
    case Write(d) =>
      To(s, d, Holding).(file := if s.file == Some(Claim(d, false)) then Some(Claim(d, true)) else s.file)
    case Look(d) =>
      if s.file.Some? && s.file.value.written then To(s, d, Probing(s.phase[d].n, s.file.value.who))
      else To(s, d, Unlinking(s.phase[d].n))
    case Probe(d, alive) => To(s, d, if alive then Out else Unlinking(s.phase[d].n))
    case Unlink(d) => To(s, d, if s.phase[d].n == 0 then Trying(1) else Out).(file := None)
    case Release(d) => To(s, d, Out).(file := None)
    case Crash(d) => s.(alive := s.alive - {d})
  }

  /** In the lock, or about to be. */
  predicate Claims(s: State, d: nat) {
    d in s.alive && d in s.phase && (s.phase[d].Writing? || s.phase[d].Holding?)
  }

  /** The step removes the claim of another live process. */
  predicate StealsClaim(s: State, e: Event) {
    (e.Unlink? || e.Release?) && s.file.Some? && s.file.value.who != e.who && Claims(s, s.file.value.who)
  }

  predicate Clean(s: State, e: Event) { Enabled(s, e) && !StealsClaim(s, e) }

  ghost predicate CleanFrom(s: State, events: seq<Event>)
    decreases |events|
  {
    events == [] || (Clean(s, events[0]) && CleanFrom(Step(s, events[0]), events[1..]))
  }

  ghost function RunFrom(s: State, events: seq<Event>): State
    requires CleanFrom(s, events)
    decreases |events|
  {
    if events == [] then s else RunFrom(Step(s, events[0]), events[1..])
  }

  // ----- without a stolen claim the lock excludes

  ghost predicate Inv(s: State) {
    && s.alive <= s.phase.Keys
    && (forall d :: d in s.alive && s.phase[d].Writing? ==> s.file == Some(Claim(d, false)))
    && (forall d :: d in s.alive && s.phase[d].Holding? ==> s.file == Some(Claim(d, true)))
  }

  lemma {:induction false} StepKeeps(s: State, e: Event)
    requires Inv(s) && Clean(s, e)
    ensures Inv(Step(s, e))
  {
  }

  lemma {:induction false} RunKeeps(s: State, events: seq<Event>)
    requires Inv(s) && CleanFrom(s, events)
    ensures Inv(RunFrom(s, events))
    decreases |events|
  {
    hide Inv, Enabled, StealsClaim, Step;
    if events != [] {
      StepKeeps(s, events[0]);
      RunKeeps(Step(s, events[0]), events[1..]);
    }
  }

  ghost predicate Excludes(s: State) {
    forall a, b :: Holds(s, a) && Holds(s, b) ==> a == b
  }

  predicate Holds(s: State, d: nat) { d in s.alive && d in s.phase && s.phase[d].Holding? }

  /** Over all interleavings and crashes in which no step removes a live claim, at most one live process holds the
      lock. */
  lemma {:induction false} ExclusionOverRuns(events: seq<Event>)
    requires CleanFrom(INIT, events)
    ensures Excludes(RunFrom(INIT, events))
  {
    RunKeeps(INIT, events);
    InvExcludes(RunFrom(INIT, events));
  }

  lemma InvExcludes(s: State)
    requires Inv(s)
    ensures Excludes(s)
  {
  }

  // ----- and that is exactly when it does

  ghost predicate Breakable(s: State) {
    exists events :: CleanFrom(s, events) && !Excludes(RunFrom(s, events))
  }

  lemma {:induction false} Cons(s: State, e: Event, events: seq<Event>)
    requires Clean(s, e) && CleanFrom(Step(s, e), events)
    ensures CleanFrom(s, [e] + events) && RunFrom(s, [e] + events) == RunFrom(Step(s, e), events)
  {
    hide Clean, Step;
    assert ([e] + events)[1..] == events;
  }

  lemma Nothing(s: State)
    ensures CleanFrom(s, []) && RunFrom(s, []) == s
  {
  }

  /** A free file and a live claim: the next process that comes along is let in. */
  lemma {:induction false} NewcomerEnters(s: State, c: nat, d: nat)
    requires s.file.None? && Claims(s, c) && d !in s.phase && s.alive <= s.phase.Keys
    ensures Breakable(s)
  {
    hide CleanFrom, RunFrom;
    var s1 := Step(s, Spawn(d));
    var s2 := Step(s1, Create(d));
    var s3 := Step(s2, Write(d));
    assert s3.phase[c] == s.phase[c] && c in s3.alive && c != d;
    var last: seq<Event> := [];
    if s.phase[c].Writing? {
      Nothing(Step(s3, Write(c)));
      Cons(s3, Write(c), []);
      last := [Write(c)] + [];
    } else {
      Nothing(s3);
    }
    var t := RunFrom(s3, last);
    assert Holds(t, c) && Holds(t, d);
    Cons(s2, Write(d), last);
    Cons(s1, Create(d), [Write(d)] + last);
    Cons(s, Spawn(d), [Create(d)] + ([Write(d)] + last));
    assert !Excludes(RunFrom(s, [Spawn(d)] + ([Create(d)] + ([Write(d)] + last))));
  }

  lemma {:induction false} SomeNewProcess(s: State) returns (d: nat)
    ensures d !in s.phase
  {
    d := FreshAbove(s.phase.Keys);
  }

  lemma {:induction false} FreshAbove(used: set<nat>) returns (d: nat)
    ensures forall x :: x in used ==> x < d
    decreases |used|
  {
    if used == {} {
      d := 0;
    } else {
      var x :| x in used;
      var rest := FreshAbove(used - {x});
      d := if x < rest then rest else x + 1;
      forall y | y in used ensures y < d { if y != x { assert y in used - {x}; } }
    }
  }

  /** After any clean run, a step removes a live claim if and only if the lock can then be broken without
      another such step. */
  lemma {:induction false} ExactCondition(events: seq<Event>, e: Event)
    requires CleanFrom(INIT, events) && Enabled(RunFrom(INIT, events), e)
    ensures StealsClaim(RunFrom(INIT, events), e) <==> Breakable(Step(RunFrom(INIT, events), e))
  {
    hide CleanFrom, RunFrom, Excludes;
    RunKeepsFromInit(events);
    var s := RunFrom(INIT, events);
    var t := Step(s, e);
    if StealsClaim(s, e) {
      var d := SomeNewProcess(t);
      NewcomerEnters(t, s.file.value.who, d);
    } else {
      StepKeeps(s, e);
      forall more | CleanFrom(t, more) ensures Excludes(RunFrom(t, more)) {
        RunKeeps(t, more);
        InvExcludes(RunFrom(t, more));
      }
    }
  }

  lemma RunKeepsFromInit(events: seq<Event>)
    requires CleanFrom(INIT, events)
    ensures Inv(RunFrom(INIT, events))
  {
    RunKeeps(INIT, events);
  }

  /** The condition can fail: a process that has created its lock file and not yet written its pid is taken
      for stale, and its claim is unlinked. */
  lemma {:induction false} HalfWrittenClaimIsStolen() returns (events: seq<Event>, e: Event)
    ensures CleanFrom(INIT, events) && Enabled(RunFrom(INIT, events), e) && StealsClaim(RunFrom(INIT, events), e)
  {
    hide CleanFrom, RunFrom;
    var s1 := Step(INIT, Spawn(0));
    var s2 := Step(s1, Spawn(1));
    var s3 := Step(s2, Create(0));
    var s4 := Step(s3, Create(1));
    var s5 := Step(s4, Look(1));
    e := Unlink(1);
    assert s5 == State(map[0 := Writing, 1 := Unlinking(0)], {0, 1}, Some(Claim(0, false)));
    Nothing(s5);
    Cons(s4, Look(1), []);
    Cons(s3, Create(1), [Look(1)] + []);
    Cons(s2, Create(0), [Create(1)] + ([Look(1)] + []));
    Cons(s1, Spawn(1), [Create(0)] + ([Create(1)] + ([Look(1)] + [])));
    Cons(INIT, Spawn(0), [Spawn(1)] + ([Create(0)] + ([Create(1)] + ([Look(1)] + []))));
    events := [Spawn(0)] + ([Spawn(1)] + ([Create(0)] + ([Create(1)] + ([Look(1)] + []))));
  }
}
