/** Many daemons of one version on one machine: the startup lease of packages/lsp-daemon/src/ownership.ts, its use in
    daemon-server.ts and the clean-up on close, as an interleaving protocol with crashes and reused pids.  The
    state holds the lock, the owner record and the socket path; binding a path that exists fails. */
module Daemons {
  import opened Text

  /** How far one daemon process is.  From `Reading` to `Recorded` it holds the startup lock. */
  datatype Phase =
    | Starting
    | Reading                    // about to read the owner record
    | Asked(owner: nat)          // read a record, waiting for the ping
    | Unanswered(owner: nat)     // no answer, about to probe the pid
    | FoundDead(owner: nat)      // the pid was dead, about to read the record again
    | SameAgain(owner: nat)      // the same record twice, about to unlink the socket
    | Cleaning(owner: nat)       // about to unlink the record
    | Granted                    // the lease, about to listen
    | Listening                  // the server accepts connections
    | Truncated                  // opened the owner file for writing
    | Recorded                   // wrote it, about to ping itself
    | Serving                    // the start returned a handle
    | Orphan                     // the start threw behind `listen`; the server is still open
    | Closing                    // server closed, about to read the record
    | Leaving                    // the record is its own, about to unlink the socket path
    | LeavingRecord              // about to unlink the record
    | Gone

  /** Processes are numbered; `pid` may repeat among processes that are not alive together.  `record` is the process
      named by the owner file, `socket` the one that bound the path, `holder` the last to take the lock file. */
  datatype State = State(phase: map<nat, Phase>, pid: map<nat, nat>, alive: set<nat>,
                         record: Option<nat>, holder: Option<nat>, socket: Option<nat>)

  const INIT := State(map[], map[], {}, None, None, None)

  datatype Answer = Matching | Other | Silence

  datatype Event =
    | Spawn(who: nat, pid: nat)
    | TakeLock(who: nat)
    | ReadRecord(who: nat)
    | Ping(who: nat, answer: Answer)
    | Probe(who: nat, alive: bool)
    | ReadAgain(who: nat)
    | CleanSocket(who: nat)
    | CleanRecord(who: nat)
    | Listen(who: nat)
    | Truncate(who: nat)
    | WriteRecord(who: nat)
    | Open(who: nat)
    | GiveUp(who: nat)           // any error before the start returns; the lock is released if held
    | Close(who: nat)            // closing the server also unlinks its path
    | CheckRecord(who: nat)
    | UnlinkSocket(who: nat)
    | UnlinkRecord(who: nat)
    | Crash(who: nat)

  /** Holds the lock and has no listener yet. */
  predicate Preparing(p: Phase) {
    p.Reading? || p.Asked? || p.Unanswered? || p.FoundDead? || p.SameAgain? || p.Cleaning? || p.Granted?
  }

  predicate HoldsLock(p: Phase) { Preparing(p) || p.Listening? || p.Truncated? || p.Recorded? }

  predicate Listens(p: Phase) { p.Listening? || p.Truncated? || p.Recorded? || p.Serving? || p.Orphan? }

  predicate ShuttingDown(p: Phase) { p.Closing? || p.Leaving? || p.LeavingRecord? }

  predicate HasRecord(p: Phase) { p.Recorded? || p.Serving? || ShuttingDown(p) }

  predicate NoneWithPid(s: State, pid: nat) { forall x :: x in s.alive && x in s.pid ==> s.pid[x] != pid }

  predicate Enabled(s: State, e: Event) {
    if e.Spawn? then e.who !in s.phase && NoneWithPid(s, e.pid)
    else e.who in s.phase && e.who in s.alive && Ready(s, s.phase[e.who], e)
  }

  predicate Ready(s: State, p: Phase, e: Event) {
    match e
    case Spawn(_, _) => false
    case TakeLock(_) => p.Starting?
    case ReadRecord(_) => p.Reading?
    case Ping(_, _) => p.Asked?
    // a pid is found dead only when no live process has it
    case Probe(_, alive) => p.Unanswered? && (!alive ==> p.owner in s.pid && NoneWithPid(s, s.pid[p.owner]))
    case ReadAgain(_) => p.FoundDead?
    case CleanSocket(_) => p.SameAgain?
    case CleanRecord(_) => p.Cleaning?
    // binding fails while the path exists
    case Listen(_) => p.Granted? && s.socket.None?
    case Truncate(_) => p.Listening?
    case WriteRecord(_) => p.Truncated?
    // its own nonce answers only from its own listener
    case Open(who) => p.Recorded? && s.socket == Some(who)
    case GiveUp(_) => p.Starting? || HoldsLock(p)
    case Close(_) => p.Serving?
    case CheckRecord(_) => p.Closing?
    case UnlinkSocket(_) => p.Leaving?
    case UnlinkRecord(_) => p.LeavingRecord?
    case Crash(_) => true
  }

  function To(s: State, d: nat, p: Phase): State { s.(phase := s.phase[d := p]) }

  /** `release` unlinks the lock file; a process that never took the lock releases nothing. */
  function Released(s: State, d: nat, p: Phase): State
    requires d in s.phase
  {
    s.(phase := s.phase[d := p], holder := if HoldsLock(s.phase[d]) then None else s.holder)
  }

  function Step(s: State, e: Event): State
    requires Enabled(s, e)
  {
    match e
    case Spawn(d, pid) => s.(phase := s.phase[d := Starting], pid := s.pid[d := pid], alive := s.alive + {d})
    case TakeLock(d) => To(s, d, Reading).(holder := Some(d))
    case ReadRecord(d) => To(s, d, if s.record.None? then Granted else Asked(s.record.value))
    case Ping(d, answer) =>
      if answer.Matching? then Released(s, d, Gone)
      else To(s, d, if answer.Other? then Reading else Unanswered(s.phase[d].owner))
    case Probe(d, alive) => if alive then Released(s, d, Gone) else To(s, d, FoundDead(s.phase[d].owner))
    case ReadAgain(d) =>
      if s.record == Some(s.phase[d].owner) then To(s, d, SameAgain(s.phase[d].owner)) else Released(s, d, Gone)
    case CleanSocket(d) => To(s, d, Cleaning(s.phase[d].owner)).(socket := None)
    case CleanRecord(d) => To(s, d, Granted).(record := None)
    case Listen(d) => To(s, d, Listening).(socket := Some(d))
    case Truncate(d) => To(s, d, Truncated).(record := None)
    case WriteRecord(d) => To(s, d, Recorded).(record := Some(d))
    case Open(d) => Released(s, d, Serving)
    case GiveUp(d) => Released(s, d, if Listens(s.phase[d]) then Orphan else Gone)
    case Close(d) => To(s, d, Closing).(socket := None)
    case CheckRecord(d) => To(s, d, if s.record == Some(d) then Leaving else Gone)
    case UnlinkSocket(d) => To(s, d, LeavingRecord).(socket := None)
    case UnlinkRecord(d) => To(s, d, Gone).(record := None)
    case Crash(d) => s.(alive := s.alive - {d})
  }

  // ----- the three steps that matter

  predicate ListensAt(s: State, d: nat) { d in s.alive && d in s.phase && Listens(s.phase[d]) }

  /** The lock is taken while another live process holds it. */
  predicate SharesLock(s: State, e: Event) {
    e.TakeLock? && s.holder.Some? && s.holder.value != e.who && s.holder.value in s.alive
  }

  /** The socket path of another live listener is unlinked. */
  predicate StealsSocket(s: State, e: Event) {
    && (e.CleanSocket? || e.Close? || e.UnlinkSocket?)
    && s.socket.Some? && s.socket.value != e.who && ListensAt(s, s.socket.value)
  }

  /** A start fails between `listen` and the owner record: its server stays open and nothing names it. */
  predicate DesertsSocket(s: State, e: Event) {
    e.GiveUp? && e.who in s.phase && (s.phase[e.who].Listening? || s.phase[e.who].Truncated?)
  }

  /** Which of them a run may not contain. */
  datatype Rule = Rule(exclusive: bool, noTheft: bool, noDesertion: bool)

  const ANY := Rule(false, false, false)
  const EXCLUSIVE := Rule(true, false, false)

  predicate Allowed(rule: Rule, s: State, e: Event) {
    && Enabled(s, e)
    && (rule.exclusive ==> !SharesLock(s, e))
    && (rule.noTheft ==> !StealsSocket(s, e))
    && (rule.noDesertion ==> !DesertsSocket(s, e))
  }

  /** The state after some events; an event that is not enabled does nothing. */
  ghost function After(s: State, events: seq<Event>): State {
    if events == [] then s
    else
      var before := After(s, events[..|events| - 1]);
      if Enabled(before, events[|events| - 1]) then Step(before, events[|events| - 1]) else before
  }

  ghost predicate Runs(rule: Rule, s: State, events: seq<Event>) {
    events == [] ||
    (Runs(rule, s, events[..|events| - 1]) && Allowed(rule, After(s, events[..|events| - 1]), events[|events| - 1]))
  }

  ghost predicate Reaches(rule: Rule, s: State, t: State) {
    exists events :: Runs(rule, s, events) && After(s, events) == t
  }

  lemma {:induction false} Stay(rule: Rule, s: State)
    ensures Reaches(rule, s, s)
  {
    assert Runs(rule, s, []) && After(s, []) == s;
  }

  lemma {:induction false} Go(rule: Rule, s: State, t: State, e: Event)
    requires Reaches(rule, s, t) && Allowed(rule, t, e)
    ensures Reaches(rule, s, Step(t, e))
  {
    hide Enabled, Step, SharesLock, StealsSocket, DesertsSocket;
    var events :| Runs(rule, s, events) && After(s, events) == t;
    var all := events + [e];
    assert all[..|all| - 1] == events && all[|all| - 1] == e;
    assert Runs(rule, s, all) && After(s, all) == Step(t, e);
  }

  // ----- listeners, with any lock

  ghost predicate Bound(s: State) {
    && s.alive <= s.phase.Keys && s.pid.Keys == s.phase.Keys
    && forall d: nat :: ListensAt(s, d) ==> s.socket == Some(d)
  }

  lemma {:induction false} StepKeepsBound(s: State, e: Event)
    requires Bound(s) && Enabled(s, e) && !StealsSocket(s, e)
    ensures Bound(Step(s, e))
  {
    hide Enabled, Step, StealsSocket;
    var t := Step(s, e);
    StepKeepsKeys(s, e);
    forall d: nat | ListensAt(t, d) ensures t.socket == Some(d) { StaysBound(s, e, d); }
  }

  /** Who is there and alive, and with which pids. */
  lemma StepChanges(s: State, e: Event)
    requires Enabled(s, e)
    ensures Step(s, e).phase.Keys == s.phase.Keys + {e.who}
    ensures Step(s, e).pid == if e.Spawn? then s.pid[e.who := e.pid] else s.pid
    ensures Step(s, e).alive == if e.Spawn? then s.alive + {e.who} else if e.Crash? then s.alive - {e.who} else s.alive
  {
    hide NoneWithPid, Ready, HoldsLock, Listens;
  }

  lemma StepKeepsKeys(s: State, e: Event)
    requires s.alive <= s.phase.Keys && s.pid.Keys == s.phase.Keys && Enabled(s, e)
    ensures Step(s, e).alive <= Step(s, e).phase.Keys && Step(s, e).pid.Keys == Step(s, e).phase.Keys
    ensures Step(s, e).alive <= s.alive + {e.who}
  {
    hide Step, NoneWithPid, Ready;
    StepChanges(s, e);
  }

  lemma {:induction false} StaysBound(s: State, e: Event, d: nat)
    requires Bound(s) && Enabled(s, e) && !StealsSocket(s, e) && ListensAt(Step(s, e), d)
    ensures Step(s, e).socket == Some(d)
  {
    hide NoneWithPid;
    if d != e.who { assert ListensAt(s, d); }
  }

  lemma {:induction false} RunKeepsBound(s: State, events: seq<Event>)
    requires Bound(s) && Runs(Rule(false, true, false), s, events)
    ensures Bound(After(s, events))
  {
    hide Bound, Enabled, StealsSocket, Step;
    if events != [] {
      RunKeepsBound(s, events[..|events| - 1]);
      StepKeepsBound(After(s, events[..|events| - 1]), events[|events| - 1]);
    }
  }

  lemma InitIsBound()
    ensures Bound(INIT)
  {
  }

  ghost predicate OneListens(s: State) { forall a: nat, b: nat :: ListensAt(s, a) && ListensAt(s, b) ==> a == b }

  /** Over all interleavings, crashes, reused pids and failing starts, and with any lock: as long as no step
      unlinks the path of another live listener, at most one live process listens. */
  lemma {:induction false} AtMostOneListener(events: seq<Event>)
    requires Runs(Rule(false, true, false), INIT, events)
    ensures OneListens(After(INIT, events))
  {
    InitIsBound();
    RunKeepsBound(INIT, events);
  }

  ghost predicate TwoCanListen(s: State) {
    exists t :: Reaches(Rule(false, true, false), s, t) && !OneListens(t)
  }

  lemma {:induction false} CleanerListens(s: State, d: nat, x: nat)
    requires d in s.alive && d in s.phase && s.phase[d].Cleaning? && s.socket.None? && ListensAt(s, x)
    ensures TwoCanListen(s)
  {
    var rule := Rule(false, true, false);
    hide Reaches;
    Stay(rule, s);
    Go(rule, s, s, CleanRecord(d));
    var s1 := Step(s, CleanRecord(d));
    Go(rule, s, s1, Listen(d));
    var s2 := Step(s1, Listen(d));
    assert ListensAt(s2, x) && ListensAt(s2, d);
  }

  lemma {:induction false} NewcomerListens(s: State, d: nat, x: nat, n: nat, pid: nat)
    requires s.alive <= s.phase.Keys && d in s.alive && s.phase[d].LeavingRecord? && s.socket.None? && ListensAt(s, x)
    requires n !in s.phase && NoneWithPid(s, pid)
    ensures TwoCanListen(s)
  {
    var rule := Rule(false, true, false);
    hide Reaches, NoneWithPid;
    Stay(rule, s);
    Go(rule, s, s, Spawn(n, pid));
    var s1 := Step(s, Spawn(n, pid));
    Go(rule, s, s1, UnlinkRecord(d));
    var s2 := Step(s1, UnlinkRecord(d));
    Go(rule, s, s2, TakeLock(n));
    var s3 := Step(s2, TakeLock(n));
    Go(rule, s, s3, ReadRecord(n));
    var s4 := Step(s3, ReadRecord(n));
    Go(rule, s, s4, Listen(n));
    var s5 := Step(s4, Listen(n));
    assert ListensAt(s5, x) && ListensAt(s5, n);
  }

  lemma {:induction false} Above(used: set<nat>) returns (n: nat)
    ensures forall x :: x in used ==> x < n
    decreases |used|
  {
    if used == {} {
      n := 0;
    } else {
      var x :| x in used;
      var rest := Above(used - {x});
      n := if x < rest then rest else x + 1;
      forall y | y in used ensures y < n { if y != x { assert y in used - {x}; } }
    }
  }

  lemma {:induction false} Newcomer(s: State) returns (n: nat, pid: nat)
    ensures n !in s.phase && pid !in s.pid.Values && NoneWithPid(s, pid)
  {
    n := Above(s.phase.Keys);
    pid := Above(s.pid.Values);
    assert forall x :: x in s.pid ==> s.pid[x] in s.pid.Values;
  }

  /** After any such run, a step unlinks the path of another live listener if and only if two processes can
      then come to listen without another such step. */
  lemma {:induction false} ListenersExact(events: seq<Event>, e: Event)
    requires Runs(Rule(false, true, false), INIT, events) && Enabled(After(INIT, events), e)
    ensures StealsSocket(After(INIT, events), e) <==> TwoCanListen(Step(After(INIT, events), e))
  {
    hide Runs, After, Reaches, NoneWithPid;
    InitIsBound();
    RunKeepsBound(INIT, events);
    var s := After(INIT, events);
    var t := Step(s, e);
    if StealsSocket(s, e) {
      var x := s.socket.value;
      TheftIsUnlink(s, e);
      if e.CleanSocket? {
        CleanerListens(t, e.who, x);
      } else {
        var n, pid := Newcomer(t);
        NewcomerListens(t, e.who, x, n, pid);
      }
    } else {
      StepKeepsBound(s, e);
      NeverTwo(t);
    }
  }

  lemma {:induction false} TheftIsUnlink(s: State, e: Event)
    requires Bound(s) && Enabled(s, e) && StealsSocket(s, e)
    ensures e.CleanSocket? || e.UnlinkSocket?
    ensures var t := Step(s, e);
            t.alive <= t.phase.Keys && t.socket.None? && ListensAt(t, s.socket.value) && e.who in t.alive
            && if e.CleanSocket? then t.phase[e.who].Cleaning? else t.phase[e.who].LeavingRecord?
  {
    hide NoneWithPid;
    assert s.phase[e.who].Serving? ==> ListensAt(s, e.who);
  }

  lemma {:induction false} NeverTwo(s: State)
    requires Bound(s)
    ensures !TwoCanListen(s)
  {
    hide Runs, After, Bound;
    forall t | Reaches(Rule(false, true, false), s, t) ensures OneListens(t) {
      var events :| Runs(Rule(false, true, false), s, events) && After(s, events) == t;
      RunKeepsBound(s, events);
      BoundIsOne(t);
    }
  }

  lemma BoundIsOne(s: State)
    requires Bound(s)
    ensures OneListens(s)
  {
  }

  // ----- with an exclusive lock

  /** What may be said about one live process. */
  ghost predicate Sound(s: State, d: nat) {
    d in s.alive && d in s.phase ==>
      var p := s.phase[d];
      && d in s.pid
      && (HoldsLock(p) ==> s.holder == Some(d))
      && (Listens(p) ==> s.socket == Some(d))
      && (HasRecord(p) ==> s.record == Some(d))
      && (ShuttingDown(p) || p.Cleaning? ==> s.socket.None?)
      && (p.Granted? || p.Listening? || p.Truncated? ==> s.record.None?)
      && (p.Orphan? ==> s.record.None? || s.record == Some(d))
      && (Doubts(p) ==> p.owner in s.pid)
      && (p.FoundDead? || p.SameAgain? || p.Cleaning? ==> p.owner !in s.alive)
      && (p.SameAgain? || p.Cleaning? ==> s.record == Some(p.owner))
  }

  /** Busy with the record of an older process. */
  predicate Doubts(p: Phase) { p.Asked? || p.Unanswered? || p.FoundDead? || p.SameAgain? || p.Cleaning? }

  predicate Keyed(s: State) {
    && s.alive <= s.phase.Keys && s.pid.Keys == s.phase.Keys
    && (s.record.Some? ==> s.record.value in s.phase)
  }

  ghost predicate Inv(s: State) {
    && Keyed(s)
    && (s.socket.Some? ==> s.socket.value in s.phase)
    && (s.socket.Some? && s.socket.value in s.alive ==> ListensAt(s, s.socket.value))
    && forall d :: d in s.alive ==> Sound(s, d)
  }

  predicate Asking(e: Event) { e.TakeLock? || e.ReadRecord? || e.Ping? || e.Probe? }
  predicate Replacing(e: Event) { e.ReadAgain? || e.CleanSocket? || e.CleanRecord? }
  predicate Opening(e: Event) { e.Spawn? || e.Listen? || e.Truncate? || e.WriteRecord? || e.Open? }

  lemma {:induction false} AskingKeepsSelf(s: State, e: Event)
    requires Keyed(s) && Enabled(s, e) && e.who in Step(s, e).alive && Asking(e) && Sound(s, e.who)
    ensures Sound(Step(s, e), e.who)
  {
  }

  lemma {:induction false} ReplacingKeepsSelf(s: State, e: Event)
    requires Keyed(s) && Enabled(s, e) && e.who in Step(s, e).alive && Replacing(e) && Sound(s, e.who)
    ensures Sound(Step(s, e), e.who)
  {
    hide NoneWithPid;
  }

  lemma {:induction false} OpeningKeepsSelf(s: State, e: Event)
    requires Keyed(s) && Enabled(s, e) && e.who in Step(s, e).alive && Opening(e) && (e.Spawn? || Sound(s, e.who))
    ensures Sound(Step(s, e), e.who)
  {
    hide NoneWithPid;
  }

  lemma {:induction false} EndingKeepsSelf(s: State, e: Event)
    requires Keyed(s) && Enabled(s, e) && e.who in Step(s, e).alive && Sound(s, e.who)
    requires !Asking(e) && !Replacing(e) && !Opening(e)
    ensures Sound(Step(s, e), e.who)
  {
    hide NoneWithPid;
  }

  lemma {:induction false} StepKeepsSelf(s: State, e: Event)
    requires Inv(s) && Allowed(EXCLUSIVE, s, e) && e.who in Step(s, e).alive
    ensures Sound(Step(s, e), e.who)
  {
    hide Step, Sound, Ready, Asking, Replacing, Opening, StealsSocket, SharesLock, DesertsSocket, NoneWithPid, Keyed,
         ListensAt;
    assert e.Spawn? || Sound(s, e.who);
    if e.Spawn? { SpawnOpens(e); }
    if Asking(e) {
      AskingKeepsSelf(s, e);
    } else if Replacing(e) {
      ReplacingKeepsSelf(s, e);
    } else if Opening(e) {
      OpeningKeepsSelf(s, e);
    } else {
      EndingKeepsSelf(s, e);
    }
  }

  lemma SpawnOpens(e: Event)
    requires e.Spawn?
    ensures Opening(e) && !Asking(e) && !Replacing(e)
  {
  }

  lemma {:induction false} StartKeepsOther(s: State, e: Event, d: nat)
    requires Inv(s) && Allowed(EXCLUSIVE, s, e) && d in s.alive && d != e.who && (Asking(e) || Replacing(e))
    ensures Sound(Step(s, e), d)
  {
    hide NoneWithPid, StealsSocket, DesertsSocket, ListensAt;
    assert Sound(s, d) && Sound(s, e.who);
  }

  lemma {:induction false} RestKeepsOther(s: State, e: Event, d: nat)
    requires Inv(s) && Allowed(EXCLUSIVE, s, e) && d in s.alive && d != e.who && !Asking(e) && !Replacing(e)
    ensures Sound(Step(s, e), d)
  {
    hide NoneWithPid, StealsSocket, SharesLock, DesertsSocket, ListensAt;
    assert Sound(s, d);
    if !e.Spawn? { assert Sound(s, e.who); }
  }

  lemma {:induction false} StepKeepsOther(s: State, e: Event, d: nat)
    requires Inv(s) && Allowed(EXCLUSIVE, s, e) && d in s.alive && d != e.who
    ensures Sound(Step(s, e), d)
  {
    hide Inv, Step, Sound, Ready, Asking, Replacing, StealsSocket, SharesLock, DesertsSocket, NoneWithPid;
    if Asking(e) || Replacing(e) { StartKeepsOther(s, e, d); } else { RestKeepsOther(s, e, d); }
  }

  lemma {:induction false} StepKeepsFrame(s: State, e: Event)
    requires Inv(s) && Enabled(s, e)
    ensures var t := Step(s, e);
            && (t.record.Some? ==> t.record.value in t.phase)
            && (t.socket.Some? ==> t.socket.value in t.phase)
            && (t.socket.Some? && t.socket.value in t.alive ==> ListensAt(t, t.socket.value))
  {
    hide NoneWithPid, Sound;
    if ListensAt(s, e.who) { SoundListener(s, e.who); }
  }

  lemma SoundListener(s: State, d: nat)
    requires Sound(s, d) && ListensAt(s, d)
    ensures s.socket == Some(d)
  {
  }

  /** With an exclusive lock every step of every process keeps the invariant, failing starts included. */
  lemma {:induction false} StepKeeps(s: State, e: Event)
    requires Inv(s) && Allowed(EXCLUSIVE, s, e)
    ensures Inv(Step(s, e))
  {
    hide Enabled, Step, Sound, SharesLock, StealsSocket, DesertsSocket;
    StepKeepsKeys(s, e);
    StepKeepsFrame(s, e);
    var t := Step(s, e);
    forall d | d in t.alive ensures Sound(t, d) {
      if d == e.who { StepKeepsSelf(s, e); } else { StepKeepsOther(s, e, d); }
    }
  }

  lemma {:induction false} RunKeeps(s: State, events: seq<Event>)
    requires Inv(s) && Runs(EXCLUSIVE, s, events)
    ensures Inv(After(s, events))
  {
    hide Inv, Enabled, Step, SharesLock, StealsSocket, DesertsSocket;
    if events != [] {
      RunKeeps(s, events[..|events| - 1]);
      StepKeeps(After(s, events[..|events| - 1]), events[|events| - 1]);
    }
  }

  lemma InitIsSound()
    ensures Inv(INIT)
  {
  }

  /** With an exclusive lock no step unlinks the path of another live listener, so at most one live process
      listens, whatever starts fail or crash. */
  lemma {:induction false} ExclusiveLockSuffices(events: seq<Event>, e: Event)
    requires Runs(EXCLUSIVE, INIT, events)
    ensures OneListens(After(INIT, events))
    ensures Allowed(EXCLUSIVE, After(INIT, events), e) ==> !StealsSocket(After(INIT, events), e)
  {
    hide Runs, After, Enabled;
    InitIsSound();
    RunKeeps(INIT, events);
    var s := After(INIT, events);
    forall a: nat, b: nat | ListensAt(s, a) && ListensAt(s, b) ensures a == b {
      assert Sound(s, a) && Sound(s, b);
    }
    if Allowed(EXCLUSIVE, s, e) && StealsSocket(s, e) { NoTheft(s, e); }
  }

  lemma {:induction false} NoTheft(s: State, e: Event)
    requires Inv(s) && Enabled(s, e)
    ensures !StealsSocket(s, e)
  {
    hide NoneWithPid;
    if s.socket.Some? && ListensAt(s, s.socket.value) {
      assert Sound(s, s.socket.value);
      if !e.Spawn? { assert Sound(s, e.who); }
    }
  }

  /** A lease, an open server, or a server shutting down. */
  predicate Reigns(s: State, d: nat) {
    d in s.alive && d in s.phase && (s.phase[d].Granted? || Listens(s.phase[d]) || ShuttingDown(s.phase[d]))
  }

  ghost predicate OneReigns(s: State) { forall a: nat, b: nat :: Reigns(s, a) && Reigns(s, b) ==> a == b }

  lemma {:induction false} RecordMoves(s: State, e: Event)
    requires Inv(s) && Allowed(EXCLUSIVE, s, e)
    requires s.record.Some? && Reigns(s, s.record.value) && Step(s, e).record != s.record
    ensures e == UnlinkRecord(s.record.value)
  {
    hide NoneWithPid, StealsSocket, SharesLock, DesertsSocket;
    assert Sound(s, s.record.value);
    if !e.Spawn? { assert Sound(s, e.who); }
  }

  /** The record of a live daemon changes only when that daemon unlinks it: closing another daemon, cleaning
      up after one, or starting one never touches it. */
  lemma {:induction false} RecordIsSafe(events: seq<Event>, e: Event)
    requires Runs(EXCLUSIVE, INIT, events) && Allowed(EXCLUSIVE, After(INIT, events), e)
    ensures var s := After(INIT, events);
            s.record.Some? && Reigns(s, s.record.value) && Step(s, e).record != s.record
            ==> e == UnlinkRecord(s.record.value)
  {
    hide Runs, After, Allowed, Enabled, Step, Inv, Reigns;
    InitIsSound();
    RunKeeps(INIT, events);
    var s := After(INIT, events);
    AllowedIsEnabled(EXCLUSIVE, s, e);
    if s.record.Some? && Reigns(s, s.record.value) && Step(s, e).record != s.record { RecordMoves(s, e); }
  }

  lemma AllowedIsEnabled(rule: Rule, s: State, e: Event)
    requires Allowed(rule, s, e)
    ensures Enabled(s, e)
  {
  }

  /** What is unlinked is one's own record on close, and the socket and record of a dead daemon on clean-up. */
  lemma {:induction false} UnlinksAreJustified(events: seq<Event>, d: nat)
    requires Runs(EXCLUSIVE, INIT, events)
    ensures var s := After(INIT, events);
            && (Enabled(s, UnlinkSocket(d)) || Enabled(s, UnlinkRecord(d)) ==> s.record == Some(d))
            && (Enabled(s, CleanSocket(d)) || Enabled(s, CleanRecord(d)) ==>
                 s.record == Some(s.phase[d].owner) && s.record.value !in s.alive)
  {
    hide Runs, After, NoneWithPid;
    InitIsSound();
    RunKeeps(INIT, events);
    var s := After(INIT, events);
    if d in s.alive { assert Sound(s, d); }
  }

  // ----- when there is only one daemon

  const ORDERLY := Rule(true, false, true)

  predicate NamedOrphan(s: State, d: nat) { d in s.alive && d in s.phase && s.phase[d].Orphan? ==> s.record == Some(d) }

  /** Every server that outlived its failed start is on record. */
  ghost predicate Strict(s: State) { Inv(s) && forall d: nat :: NamedOrphan(s, d) }

  lemma {:induction false} SelfIsNamed(s: State, e: Event)
    requires NamedOrphan(s, e.who) && Allowed(ORDERLY, s, e) && !e.Spawn? && Sound(s, e.who)
    ensures NamedOrphan(Step(s, e), e.who)
  {
    hide NoneWithPid, StealsSocket, SharesLock;
  }

  lemma {:induction false} OrphanStaysNamed(s: State, e: Event, d: nat)
    requires Strict(s) && Allowed(ORDERLY, s, e)
    ensures NamedOrphan(Step(s, e), d)
  {
    hide NoneWithPid, StealsSocket, SharesLock, DesertsSocket, Inv;
    assert NamedOrphan(s, d);
    if d == e.who && !e.Spawn? {
      LiveIsSound(s, d);
      SelfIsNamed(s, e);
    } else if s.record == Some(d) && Reigns(s, d) && Step(s, e).record != s.record {
      RecordMoves(s, e);
    }
  }

  lemma LiveIsSound(s: State, d: nat)
    requires Inv(s)
    ensures Sound(s, d)
  {
  }

  lemma {:induction false} StepKeepsStrict(s: State, e: Event)
    requires Strict(s) && Allowed(ORDERLY, s, e)
    ensures Strict(Step(s, e))
  {
    hide Inv, Enabled, Step, NamedOrphan, SharesLock, StealsSocket, DesertsSocket;
    StepKeeps(s, e);
    forall d: nat ensures NamedOrphan(Step(s, e), d) { OrphanStaysNamed(s, e, d); }
  }

  lemma {:induction false} RunKeepsStrict(s: State, events: seq<Event>)
    requires Strict(s) && Runs(ORDERLY, s, events)
    ensures Strict(After(s, events))
  {
    hide Strict, Allowed, Enabled, Step;
    if events != [] {
      var front := events[..|events| - 1];
      RunKeepsStrict(s, front);
      AllowedIsEnabled(ORDERLY, After(s, front), events[|events| - 1]);
      StepKeepsStrict(After(s, front), events[|events| - 1]);
    }
  }

  lemma InitIsStrict()
    ensures Strict(INIT)
  {
  }

  lemma {:induction false} StrictIsOne(s: State)
    requires Strict(s)
    ensures OneReigns(s)
  {
    hide NamedOrphan;
    forall a: nat, b: nat | Reigns(s, a) && Reigns(s, b) ensures a == b {
      assert Sound(s, a) && Sound(s, b);
      assert NamedOrphan(s, a) && NamedOrphan(s, b);
      PairIsOne(s, a, b);
    }
  }

  lemma {:induction false} PairIsOne(s: State, a: nat, b: nat)
    requires Reigns(s, a) && Reigns(s, b) && Sound(s, a) && Sound(s, b) && NamedOrphan(s, a) && NamedOrphan(s, b)
    ensures a == b
  {
  }

  /** With an exclusive lock, over all interleavings, crashes and reused pids in which no start fails between
      `listen` and its owner record, at most one live process has a lease, serves, or is shutting down. */
  lemma {:induction false} AtMostOneDaemon(events: seq<Event>)
    requires Runs(ORDERLY, INIT, events)
    ensures OneReigns(After(INIT, events))
  {
    hide Runs, After, Strict, OneReigns;
    InitIsStrict();
    RunKeepsStrict(INIT, events);
    StrictIsOne(After(INIT, events));
  }

  ghost predicate TwoCanReign(s: State) { exists t :: Reaches(ORDERLY, s, t) && !OneReigns(t) }

  /** And that is exactly the condition: after any such run, a step is such a failure if and only if two
      processes can then reign without another one. */
  lemma {:induction false} DaemonsExact(events: seq<Event>, e: Event)
    requires Runs(ORDERLY, INIT, events) && Allowed(EXCLUSIVE, After(INIT, events), e)
    ensures DesertsSocket(After(INIT, events), e) <==> TwoCanReign(Step(After(INIT, events), e))
  {
    hide Runs, After, Strict, Step, Enabled, DesertsSocket, StealsSocket, SharesLock, TwoCanReign;
    InitIsStrict();
    RunKeepsStrict(INIT, events);
    var s := After(INIT, events);
    if DesertsSocket(s, e) {
      var n, pid := Newcomer(Step(s, e));
      LeaseBesideOrphan(s, e, n, pid);
    } else {
      StepKeepsStrict(s, e);
      NeverTwoReign(Step(s, e));
    }
  }

  lemma {:induction false} NeverTwoReign(s: State)
    requires Strict(s)
    ensures !TwoCanReign(s)
  {
    hide Runs, After, Strict, OneReigns;
    forall t | Reaches(ORDERLY, s, t) ensures OneReigns(t) {
      var events :| Runs(ORDERLY, s, events) && After(s, events) == t;
      RunKeepsStrict(s, events);
      StrictIsOne(t);
    }
  }

  lemma {:induction false} LeaseBesideOrphan(s: State, e: Event, n: nat, pid: nat)
    requires Strict(s) && Enabled(s, e) && DesertsSocket(s, e)
    requires n !in Step(s, e).phase && NoneWithPid(Step(s, e), pid)
    ensures TwoCanReign(Step(s, e))
  {
    assert Sound(s, e.who);
    NewcomerIsGranted(Step(s, e), e.who, n, pid);
  }

  lemma {:induction false} NewcomerIsGranted(s: State, d: nat, n: nat, pid: nat)
    requires d in s.alive && d in s.phase && s.phase[d].Orphan? && s.record.None? && s.holder.None?
    requires n !in s.phase && NoneWithPid(s, pid)
    ensures TwoCanReign(s)
  {
    hide Reaches, NoneWithPid;
    Stay(ORDERLY, s);
    Go(ORDERLY, s, s, Spawn(n, pid));
    var s1 := Step(s, Spawn(n, pid));
    Go(ORDERLY, s, s1, TakeLock(n));
    var s2 := Step(s1, TakeLock(n));
    Go(ORDERLY, s, s2, ReadRecord(n));
    var s3 := Step(s2, ReadRecord(n));
    assert Reigns(s3, d) && Reigns(s3, n);
  }

  // ----- stretches of a start, for the runs below

  predicate Free(rule: Rule) { !rule.noTheft }

  predicate At(s: State, d: nat, p: Phase) { d in s.alive && d in s.phase && s.phase[d] == p }

  /** From the lock to the same dead record read twice. */
  lemma {:induction false} Inspect(rule: Rule, s: State, t: State, d: nat, o: nat) returns (u: State)
    requires Reaches(rule, s, t) && At(t, d, Reading) && t.record == Some(o)
    requires o in t.pid && NoneWithPid(t, t.pid[o])
    ensures u == To(t, d, SameAgain(o)) && Reaches(rule, s, u)
  {
    hide Reaches, NoneWithPid;
    PhaseIsIrrelevant(t, t.pid[o]);
    Go(rule, s, t, ReadRecord(d));
    var t1 := Step(t, ReadRecord(d));
    assert t1 == To(t, d, Asked(o));
    Go(rule, s, t1, Ping(d, Silence));
    var t2 := Step(t1, Ping(d, Silence));
    assert t2 == To(t, d, Unanswered(o));
    u := FindSame(rule, s, t2, d, o);
    assert u.phase == t.phase[d := SameAgain(o)];
  }

  lemma PhaseIsIrrelevant(s: State, pid: nat)
    requires NoneWithPid(s, pid)
    ensures forall phase :: NoneWithPid(s.(phase := phase), pid)
  {
  }

  lemma {:induction false} FindSame(rule: Rule, s: State, t: State, d: nat, o: nat) returns (u: State)
    requires Reaches(rule, s, t) && At(t, d, Unanswered(o)) && t.record == Some(o)
    requires o in t.pid && NoneWithPid(t, t.pid[o])
    ensures u == To(t, d, SameAgain(o)) && Reaches(rule, s, u)
  {
    hide Reaches, NoneWithPid;
    Go(rule, s, t, Probe(d, false));
    var t1 := Step(t, Probe(d, false));
    assert t1 == To(t, d, FoundDead(o));
    Go(rule, s, t1, ReadAgain(d));
    u := Step(t1, ReadAgain(d));
    assert u.phase == t.phase[d := SameAgain(o)];
  }

  lemma {:induction false} CleanUp(rule: Rule, s: State, t: State, d: nat, o: nat) returns (u: State)
    requires Free(rule) && Reaches(rule, s, t) && At(t, d, SameAgain(o))
    ensures u == To(t, d, Granted).(socket := None, record := None) && Reaches(rule, s, u)
  {
    hide Reaches, NoneWithPid;
    Go(rule, s, t, CleanSocket(d));
    var t1 := Step(t, CleanSocket(d));
    Go(rule, s, t1, CleanRecord(d));
    u := Step(t1, CleanRecord(d));
    assert u.phase == t.phase[d := Granted];
  }

  /** From the open server to the handle. */
  lemma {:induction false} Publish(rule: Rule, s: State, t: State, d: nat) returns (u: State)
    requires Reaches(rule, s, t) && At(t, d, Listening) && t.socket == Some(d)
    ensures u == To(t, d, Serving).(record := Some(d), holder := None) && Reaches(rule, s, u)
  {
    hide Reaches, NoneWithPid;
    Go(rule, s, t, Truncate(d));
    var t1 := Step(t, Truncate(d));
    Go(rule, s, t1, WriteRecord(d));
    var t2 := Step(t1, WriteRecord(d));
    Go(rule, s, t2, Open(d));
    u := Step(t2, Open(d));
    assert u.phase == t.phase[d := Serving];
  }

  /** From the lease to the handle. */
  lemma {:induction false} Rise(rule: Rule, s: State, t: State, d: nat) returns (u: State)
    requires Reaches(rule, s, t) && At(t, d, Granted) && t.socket.None?
    ensures u == To(t, d, Serving).(record := Some(d), holder := None, socket := Some(d)) && Reaches(rule, s, u)
  {
    hide Reaches, NoneWithPid;
    Go(rule, s, t, Listen(d));
    var t1 := Step(t, Listen(d));
    u := Publish(rule, s, t1, d);
    assert u.phase == t.phase[d := Serving];
  }

  /** A new process takes a lock that nobody alive holds. */
  lemma {:induction false} Enter(rule: Rule, s: State, t: State, n: nat, pid: nat) returns (u: State)
    requires Reaches(rule, s, t) && n !in t.phase && NoneWithPid(t, pid)
    requires t.holder.Some? ==> t.holder.value !in t.alive
    ensures u == t.(phase := t.phase[n := Reading], pid := t.pid[n := pid], alive := t.alive + {n}, holder := Some(n))
    ensures Reaches(rule, s, u)
  {
    hide Reaches, NoneWithPid;
    Go(rule, s, t, Spawn(n, pid));
    var t1 := Step(t, Spawn(n, pid));
    Go(rule, s, t1, TakeLock(n));
    u := Step(t1, TakeLock(n));
    assert u.phase == t.phase[n := Reading];
  }

  // ----- the runs that break it

  /** A daemon that served and crashed: its record and its socket path stay. */
  lemma {:induction false} Crashed(rule: Rule) returns (u: State)
    ensures Reaches(rule, INIT, u)
    ensures u == State(map[0 := Serving], map[0 := 10], {}, Some(0), None, Some(0))
  {
    hide Reaches, NoneWithPid;
    Stay(rule, INIT);
    NobodyYet(10);
    var t := Enter(rule, INIT, INIT, 0, 10);
    Go(rule, INIT, t, ReadRecord(0));
    t := Rise(rule, INIT, Step(t, ReadRecord(0)), 0);
    Go(rule, INIT, t, Crash(0));
    u := Step(t, Crash(0));
    assert u.alive == {} && u.phase == map[0 := Serving];
  }

  lemma NobodyYet(pid: nat)
    ensures NoneWithPid(INIT, pid)
  {
  }

  /** Behind it two processes are let in by a lock that does not exclude. */
  lemma {:induction false} BothEnter() returns (u: State)
    ensures Reaches(ANY, INIT, u)
    ensures u == State(map[0 := Serving, 1 := Reading, 2 := Reading], map[0 := 10, 1 := 11, 2 := 12], {1, 2},
                       Some(0), Some(2), Some(0))
  {
    hide Reaches;
    var t := Crashed(ANY);
    t := Enter(ANY, INIT, t, 1, 11);
    Go(ANY, INIT, t, Spawn(2, 12));
    t := Step(t, Spawn(2, 12));
    Go(ANY, INIT, t, TakeLock(2));
    u := Step(t, TakeLock(2));
    assert u.alive == {1, 2} && u.pid == map[0 := 10, 1 := 11, 2 := 12];
    assert u.phase == map[0 := Serving, 1 := Reading, 2 := Reading];
  }

  /** Both read the dead record twice. */
  lemma {:induction false} BothInspect() returns (u: State)
    ensures Reaches(ANY, INIT, u)
    ensures u == State(map[0 := Serving, 1 := SameAgain(0), 2 := SameAgain(0)], map[0 := 10, 1 := 11, 2 := 12], {1, 2},
                       Some(0), Some(2), Some(0))
  {
    hide Reaches;
    var t := BothEnter();
    t := Inspect(ANY, INIT, t, 1, 0);
    u := Inspect(ANY, INIT, t, 2, 0);
    assert u.phase == map[0 := Serving, 1 := SameAgain(0), 2 := SameAgain(0)];
  }

  /** One cleans up and serves; the other then unlinks the new socket and record and serves, too. */
  lemma {:induction false} SharedLockBreaksIt() returns (u: State)
    ensures Reaches(ANY, INIT, u) && At(u, 1, Serving) && At(u, 2, Serving) && u.socket == Some(2)
  {
    hide Reaches, NoneWithPid;
    var t := BothInspect();
    t := CleanUp(ANY, INIT, t, 1, 0);
    t := Rise(ANY, INIT, t, 1);
    assert At(t, 1, Serving) && At(t, 2, SameAgain(0));
    t := CleanUp(ANY, INIT, t, 2, 0);
    u := Rise(ANY, INIT, t, 2);
  }

  lemma {:induction false} StartFails() returns (u: State)
    ensures Reaches(EXCLUSIVE, INIT, u)
    ensures u == State(map[0 := Orphan], map[0 := 10], {0}, None, None, Some(0))
  {
    hide Reaches, NoneWithPid;
    Stay(EXCLUSIVE, INIT);
    NobodyYet(10);
    var t := Enter(EXCLUSIVE, INIT, INIT, 0, 10);
    Go(EXCLUSIVE, INIT, t, ReadRecord(0));
    t := Step(t, ReadRecord(0));
    Go(EXCLUSIVE, INIT, t, Listen(0));
    t := Step(t, Listen(0));
    Go(EXCLUSIVE, INIT, t, GiveUp(0));
    u := Step(t, GiveUp(0));
    assert u.phase == map[0 := Orphan] && u.alive == {0};
  }

  /** With an exclusive lock: a start that fails behind `listen` goes on serving, and the next one gets the lease. */
  lemma {:induction false} FailedStartServesOn() returns (u: State)
    ensures Reaches(EXCLUSIVE, INIT, u) && At(u, 0, Orphan) && u.socket == Some(0) && At(u, 1, Granted)
  {
    hide Reaches;
    var t := StartFails();
    t := Enter(EXCLUSIVE, INIT, t, 1, 11);
    Go(EXCLUSIVE, INIT, t, ReadRecord(1));
    u := Step(t, ReadRecord(1));
  }

  // ----- when a daemon can still come up

  /** The path is bound, and neither its process nor a record will ever have it unlinked. */
  predicate Stuck(s: State) {
    s.record.None? && s.socket.Some? &&
    (s.socket.value in s.alive ==> s.socket.value in s.phase && s.phase[s.socket.value].Orphan?)
  }

  ghost predicate CanServe(s: State) { exists t, d :: Reaches(EXCLUSIVE, s, t) && At(t, d, Serving) }

  lemma {:induction false} StaysStuck(s: State, e: Event)
    requires Inv(s) && Stuck(s) && Allowed(EXCLUSIVE, s, e)
    ensures Stuck(Step(s, e))
  {
    hide NoneWithPid, StealsSocket, SharesLock, DesertsSocket;
    if !e.Spawn? { assert Sound(s, e.who); }
  }

  lemma {:induction false} RunStaysStuck(s: State, events: seq<Event>)
    requires Inv(s) && Stuck(s) && Runs(EXCLUSIVE, s, events)
    ensures Inv(After(s, events)) && Stuck(After(s, events))
  {
    hide Inv, Stuck, Allowed, Enabled, Step;
    if events != [] {
      var front := events[..|events| - 1];
      RunStaysStuck(s, front);
      AllowedIsEnabled(EXCLUSIVE, After(s, front), events[|events| - 1]);
      StepKeeps(After(s, front), events[|events| - 1]);
      StaysStuck(After(s, front), events[|events| - 1]);
    }
  }

  lemma {:induction false} StuckNeverServes(s: State)
    requires Inv(s) && Stuck(s)
    ensures !CanServe(s)
  {
    hide Runs, After, Inv, Stuck;
    forall t, d: nat | Reaches(EXCLUSIVE, s, t) ensures !At(t, d, Serving) {
      var events :| Runs(EXCLUSIVE, s, events) && After(s, events) == t;
      RunStaysStuck(s, events);
      NoneServesStuck(t, d);
    }
  }

  lemma NoneServesStuck(s: State, d: nat)
    requires Inv(s) && Stuck(s)
    ensures !At(s, d, Serving)
  {
    if d in s.alive { assert Sound(s, d); }
  }

  lemma {:induction false} AllCrash(s: State, t: State) returns (u: State)
    requires Reaches(EXCLUSIVE, s, t) && t.alive <= t.phase.Keys
    ensures u == t.(alive := {}) && Reaches(EXCLUSIVE, s, u)
    decreases |t.alive|
  {
    hide Reaches, NoneWithPid;
    if t.alive == {} {
      u := t;
    } else {
      var x :| x in t.alive;
      Go(EXCLUSIVE, s, t, Crash(x));
      var t1 := Step(t, Crash(x));
      u := AllCrash(s, t1);
    }
  }

  /** With everybody gone, a new process serves unless a path is left without a record. */
  lemma {:induction false} FreshStart(s: State, t: State)
    requires Reaches(EXCLUSIVE, s, t) && t.alive == {} && Keyed(t) && (t.record.None? ==> t.socket.None?)
    ensures CanServe(s)
  {
    hide Reaches;
    var n, pid := Newcomer(t);
    var u := Enter(EXCLUSIVE, s, t, n, pid);
    if t.record.None? {
      Go(EXCLUSIVE, s, u, ReadRecord(n));
      u := Step(u, ReadRecord(n));
    } else {
      var o := t.record.value;
      assert t.pid[o] in t.pid.Values;
      u := Inspect(EXCLUSIVE, s, u, n, o);
      u := CleanUp(EXCLUSIVE, s, u, n, o);
    }
    u := Rise(EXCLUSIVE, s, u, n);
    assert At(u, n, Serving);
  }

  /** A start that has its server open can finish. */
  lemma {:induction false} OpenStartFinishes(s: State, d: nat)
    requires s.socket == Some(d) && ListensAt(s, d) && !s.phase[d].Orphan?
    ensures CanServe(s)
  {
    hide Reaches, NoneWithPid;
    Stay(EXCLUSIVE, s);
    var t := s;
    if t.phase[d].Listening? {
      t := Publish(EXCLUSIVE, s, t, d);
    } else {
      if t.phase[d].Truncated? {
        Go(EXCLUSIVE, s, t, WriteRecord(d));
        t := Step(t, WriteRecord(d));
      }
      if t.phase[d].Recorded? {
        Go(EXCLUSIVE, s, t, Open(d));
        t := Step(t, Open(d));
      }
    }
    assert At(t, d, Serving);
  }

  /** After any run with an exclusive lock, some daemon can still come to serve if and only if there is a record,
      or the socket path is free, or an unfinished start holds it. */
  lemma {:induction false} CanServeExactly(events: seq<Event>)
    requires Runs(EXCLUSIVE, INIT, events)
    ensures CanServe(After(INIT, events)) <==> !Stuck(After(INIT, events))
  {
    hide Runs, After, Reaches, CanServe;
    InitIsSound();
    RunKeeps(INIT, events);
    var s := After(INIT, events);
    if Stuck(s) {
      StuckNeverServes(s);
    } else if s.socket.Some? && ListensAt(s, s.socket.value) && !s.phase[s.socket.value].Orphan? {
      OpenStartFinishes(s, s.socket.value);
    } else {
      Stay(EXCLUSIVE, s);
      var t := AllCrash(s, s);
      FreshStart(s, t);
    }
  }

  /** A step makes every later start fail if and only if a process fails or dies between `listen` and its owner
      record. */
  lemma {:induction false} StuckExactly(events: seq<Event>, e: Event)
    requires Runs(EXCLUSIVE, INIT, events) && Allowed(EXCLUSIVE, After(INIT, events), e) && !Stuck(After(INIT, events))
    ensures Stuck(Step(After(INIT, events), e)) <==>
            (e.GiveUp? || e.Crash?) && (var p := After(INIT, events).phase[e.who]; p.Listening? || p.Truncated?)
  {
    hide Runs, After, Inv;
    InitIsSound();
    RunKeeps(INIT, events);
    GetsStuck(After(INIT, events), e);
  }

  lemma {:induction false} GetsStuck(s: State, e: Event)
    requires Inv(s) && Allowed(EXCLUSIVE, s, e) && !Stuck(s)
    ensures Stuck(Step(s, e)) <==>
            (e.GiveUp? || e.Crash?) && (var p := s.phase[e.who]; p.Listening? || p.Truncated?)
  {
    hide NoneWithPid, StealsSocket, SharesLock, DesertsSocket;
    if !e.Spawn? { assert Sound(s, e.who); }
  }
}
