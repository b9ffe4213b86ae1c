/** One daemon start against an adversarial file system and ping: `acquireStartupLease` of
    packages/lsp-daemon/src/ownership.ts and its use in `startDaemonServer` of daemon-server.ts.
    Every outside call is an event; at time `t` the environment answers, or lets the call throw, as it likes. */
module Lease {
  import opened Text

  datatype Endpoint = Unix(path: string, dev: int, ino: int) | Windows(path: string) | Missing(path: string)

  datatype Owner = Owner(pid: int, nonce: string, startedAt: string, endpoint: Endpoint)

  /** Everything but the start time identifies an owner. */
  predicate SameOwner(a: Owner, b: Owner) { a.pid == b.pid && a.nonce == b.nonce && a.endpoint == b.endpoint }

  /** The process that answered is the one on record. */
  predicate Answers(ping: Owner, owner: Owner) { owner.nonce == ping.nonce && owner.endpoint == ping.endpoint }

  datatype Event =
    | Prepare
    | Lock(got: bool)
    | ReadToken(token: Option<string>)
    | GetToken(auth: string)
    | ReadOwner(owner: Option<Owner>)
    | Ping(answer: Option<Owner>)
    | Probe(pid: int, alive: bool)
    | CleanUp(dead: Owner)
    | Rotate(renewed: string)
    | NewOwner(self: Owner)
    | Listen
    | WriteOwner(written: Owner)
    | SelfProbe(reply: Option<Owner>)
    | Release
    | Threw

  datatype Reason = LockBusy | OwnerLiveUnreachable | OwnerChanged | OwnerMismatch | SelfProbeFailed

  datatype Outcome = Granted(token: string, self: Owner) | AlreadyRunning | Deferred(reason: Reason) | Failed

  datatype Verdict = Valid(token: string) | Refused(outcome: Outcome)

  datatype Env = Env(throws: nat -> bool, yes: nat -> bool, owner: nat -> Option<Owner>, token: nat -> Option<string>,
                     secret: nat -> string, self: nat -> Owner)

  datatype Run<T> = Run(events: seq<Event>, result: T)

  // ----- the code as functions of the answers

  /** Behind a dead silence: probe, read again, clean up, rotate the token. */
  function Bury(env: Env, owner: Owner, past: seq<Event>): Run<Verdict> {
    var t := |past|;
    if env.throws(t) then Run(past + [Threw], Refused(Failed))
    else if env.yes(t) then Run(past + [Probe(owner.pid, true)], Refused(Deferred(OwnerLiveUnreachable)))
    else Reread(env, owner, past + [Probe(owner.pid, false)])
  }

  function Reread(env: Env, owner: Owner, past: seq<Event>): Run<Verdict> {
    var t := |past|;
    if env.throws(t) then Run(past + [Threw], Refused(Failed))
    else
      var again := env.owner(t);
      var read := past + [ReadOwner(again)];
      if again.None? || !SameOwner(again.value, owner) then Run(read, Refused(Deferred(OwnerChanged)))
      else Replace(env, owner, read)
  }

  function Replace(env: Env, owner: Owner, past: seq<Event>): Run<Verdict> {
    var t := |past|;
    if env.throws(t) then Run(past + [Threw], Refused(Failed))
    else
      var cleaned := past + [CleanUp(owner)];
      if env.throws(t + 1) then Run(cleaned + [Threw], Refused(Failed))
      else Run(cleaned + [Rotate(env.secret(t + 1))], Valid(env.secret(t + 1)))
  }

  /** The loop of `validateExistingOwner` with `left` attempts to go. */
  function Validate(env: Env, token: string, left: nat, past: seq<Event>): Run<Verdict> {
    var t := |past|;
    if left == 0 then Run(past, Refused(Deferred(OwnerMismatch)))
    else if env.throws(t) then Run(past + [Threw], Refused(Failed))
    else
      var owner := env.owner(t);
      var read := past + [ReadOwner(owner)];
      if owner.None? then Run(read, Valid(token))
      else if env.throws(t + 1) then Run(read + [Threw], Refused(Failed))
      else
        var ping := env.owner(t + 1);
        var asked := read + [Ping(ping)];
        if ping.None? then Bury(env, owner.value, asked)
        else if Answers(ping.value, owner.value) then Run(asked, Refused(AlreadyRunning))
        else Validate(env, token, left - 1, asked)
  }

  /** `validateExistingOwner`. */
  function ValidateOwner(env: Env, past: seq<Event>): Run<Verdict> {
    var t := |past|;
    if env.throws(t) then Run(past + [Threw], Refused(Failed))
    else Validate(env, env.secret(t), 2, past + [GetToken(env.secret(t))])
  }

  /** With the lock taken: validate, then hand the lock to the lease or release it. */
  function Locked(env: Env, past: seq<Event>): Run<Outcome> {
    var r := ValidateOwner(env, past);
    match r.result
    case Refused(outcome) => Run(r.events + [Release], outcome)
    case Valid(token) =>
      var t := |r.events|;
      if env.throws(t) then Run(r.events + [Threw, Release], Failed)
      else Run(r.events + [NewOwner(env.self(t))], Granted(token, env.self(t)))
  }

  function Busy(env: Env, past: seq<Event>): Run<Outcome> {
    var t := |past|;
    var token := env.token(t);
    var read := past + [ReadToken(token)];
    if token.None? then Run(read, Deferred(LockBusy))
    else if env.throws(t + 1) then Run(read + [Threw], Failed)
    else
      var ping := env.owner(t + 1);
      Run(read + [Ping(ping)], if ping.Some? then AlreadyRunning else Deferred(LockBusy))
  }

  /** `acquireStartupLease`. */
  function Acquire(env: Env): Run<Outcome> {
    if env.throws(0) then Run([Threw], Failed)
    else if env.throws(1) then Run([Prepare, Threw], Failed)
    else if env.yes(1) then Locked(env, [Prepare, Lock(true)])
    else Busy(env, [Prepare, Lock(false)])
  }

  /** A start returns a handle or throws; when it throws, the listener it opened may still be open. */
  datatype Started = HandleFor(owner: Owner) | NotStarted(outcome: Outcome, listening: bool)

  /** What `startDaemonServer` does with the lease. */
  function Serve(env: Env, self: Owner, past: seq<Event>): Run<Started> {
    var t := |past|;
    if env.throws(t) then Run(past + [Threw, Release], NotStarted(Failed, false))
    else
      var owner := self.(endpoint := env.self(t).endpoint);
      var heard := past + [Listen];
      if env.throws(t + 1) then Run(heard + [Threw, Release], NotStarted(Failed, true))
      else
        var written := heard + [WriteOwner(owner)];
        if env.throws(t + 2) then Run(written + [Threw, Release], NotStarted(Failed, true))
        else
          var reply := env.owner(t + 2);
          var probed := written + [SelfProbe(reply), Release];
          if reply.Some? && reply.value.nonce == owner.nonce then Run(probed, HandleFor(owner))
          else Run(probed, NotStarted(Deferred(SelfProbeFailed), true))
  }

  /** `startDaemonServer` up to its return. */
  function Start(env: Env): Run<Started> {
    var r := Acquire(env);
    match r.result
    case Granted(_, self) => Serve(env, self, r.events)
    case _ => Run(r.events, NotStarted(r.result, false))
  }

  // ----- when a lease may be granted

  /** The four answers that prove an owner dead: read, silent, pid dead, read again unchanged. */
  ghost predicate ProvedDead(events: seq<Event>, i: nat, owner: Owner)
    requires i <= |events|
  {
    && i >= 4 && events[i - 4] == ReadOwner(Some(owner)) && events[i - 3] == Ping(None)
    && events[i - 2] == Probe(owner.pid, false)
    && events[i - 1].ReadOwner? && events[i - 1].owner.Some? && SameOwner(events[i - 1].owner.value, owner)
  }

  /** Just before the new owner is made up: the owner file was read empty, or its owner was proved dead, its
      metadata removed and the token replaced. */
  ghost predicate MayGrant(events: seq<Event>, token: string) {
    var n := |events|;
    || (n >= 1 && events[n - 1] == ReadOwner(None) && GetToken(token) in events)
    || (n >= 2 && events[n - 1] == Rotate(token) && events[n - 2].CleanUp?
        && ProvedDead(events, n - 2, events[n - 2].dead))
  }

  /** Metadata is removed only behind a proof of death. */
  ghost predicate CleansTheDead(events: seq<Event>) {
    forall i :: 0 <= i < |events| && events[i].CleanUp? ==> ProvedDead(events, i, events[i].dead)
  }

  predicate OpensNothing(e: Event) { !e.Listen? && !e.WriteOwner? }

  predicate Quiet(e: Event) { !e.Lock? && !e.Release? && !e.CleanUp? && OpensNothing(e) }

  /** What the validation may have done to the trace it started from. */
  ghost predicate Extends(past: seq<Event>, events: seq<Event>) {
    && past <= events
    && (forall i :: |past| <= i < |events| ==> !events[i].Lock? && !events[i].Release? && OpensNothing(events[i]))
    && (CleansTheDead(past) ==> CleansTheDead(events))
  }

  lemma {:induction false} ExtendsQuiet(past: seq<Event>, e: Event)
    requires Quiet(e)
    ensures Extends(past, past + [e])
  {
    var all := past + [e];
    assert forall i :: 0 <= i < |past| ==> all[i] == past[i];
    forall i | 0 <= i < |all| && CleansTheDead(past) && all[i].CleanUp? ensures ProvedDead(all, i, all[i].dead) {
      assert ProvedDead(past, i, past[i].dead);
    }
  }

  lemma {:induction false} ExtendsTwice(a: seq<Event>, b: seq<Event>, c: seq<Event>)
    requires Extends(a, b) && Extends(b, c)
    ensures Extends(a, c)
  {
    hide CleansTheDead;
    assert forall i :: 0 <= i < |b| ==> c[i] == b[i];
  }

  lemma {:induction false} CleanUpExtends(past: seq<Event>, owner: Owner)
    requires ProvedDead(past, |past|, owner)
    ensures Extends(past, past + [CleanUp(owner)])
  {
    var all := past + [CleanUp(owner)];
    assert forall i :: 0 <= i < |past| ==> all[i] == past[i];
    forall i | 0 <= i < |all| && CleansTheDead(past) && all[i].CleanUp? ensures ProvedDead(all, i, all[i].dead) {
      if i < |past| { assert ProvedDead(past, i, past[i].dead); }
    }
  }

  /** What the verdict says about the trace. */
  ghost predicate VerdictFits(r: Run<Verdict>) {
    var e, n := r.events, |r.events|;
    match r.result
    case Valid(token) => MayGrant(e, token)
    case Refused(AlreadyRunning) =>
      n >= 2 && e[n - 2].ReadOwner? && e[n - 2].owner.Some? && e[n - 1].Ping? && e[n - 1].answer.Some?
      && Answers(e[n - 1].answer.value, e[n - 2].owner.value)
    case Refused(Deferred(OwnerLiveUnreachable)) =>
      && n >= 3 && e[n - 3].ReadOwner? && e[n - 3].owner.Some?
      && e[n - 2] == Ping(None) && e[n - 1] == Probe(e[n - 3].owner.value.pid, true)
    case Refused(Deferred(OwnerChanged)) => n >= 1 && e[n - 1].ReadOwner?
    case Refused(Deferred(OwnerMismatch)) => n >= 1 && e[n - 1].Ping? && e[n - 1].answer.Some?
    case Refused(Failed) => n >= 1 && e[n - 1] == Threw
    case _ => false
  }

  lemma {:induction false} ReplaceIsSound(env: Env, owner: Owner, past: seq<Event>)
    requires ProvedDead(past, |past|, owner)
    ensures Extends(past, Replace(env, owner, past).events) && VerdictFits(Replace(env, owner, past))
  {
    hide Extends;
    var cleaned := past + [CleanUp(owner)];
    var next := if env.throws(|past| + 1) then Threw else Rotate(env.secret(|past| + 1));
    ExtendsQuiet(past, Threw);
    CleanUpExtends(past, owner);
    ExtendsQuiet(cleaned, next);
    ExtendsTwice(past, cleaned, cleaned + [next]);
    assert ProvedDead(cleaned + [next], |past|, owner);
  }

  lemma {:induction false} RereadIsSound(env: Env, owner: Owner, past: seq<Event>)
    requires |past| >= 3 && past[|past| - 3] == ReadOwner(Some(owner)) && past[|past| - 2] == Ping(None)
    requires past[|past| - 1] == Probe(owner.pid, false)
    ensures Extends(past, Reread(env, owner, past).events) && VerdictFits(Reread(env, owner, past))
  {
    hide Extends, Replace;
    var again := env.owner(|past|);
    var read := past + [ReadOwner(again)];
    ExtendsQuiet(past, Threw);
    ExtendsQuiet(past, ReadOwner(again));
    if again.Some? && SameOwner(again.value, owner) {
      ReplaceIsSound(env, owner, read);
      ExtendsTwice(past, read, Replace(env, owner, read).events);
    }
  }

  lemma {:induction false} BuryIsSound(env: Env, owner: Owner, past: seq<Event>)
    requires |past| >= 2 && past[|past| - 2] == ReadOwner(Some(owner)) && past[|past| - 1] == Ping(None)
    ensures Extends(past, Bury(env, owner, past).events) && VerdictFits(Bury(env, owner, past))
  {
    hide Extends, Reread;
    var next := Probe(owner.pid, env.yes(|past|));
    ExtendsQuiet(past, Threw);
    ExtendsQuiet(past, next);
    if !next.alive {
      RereadIsSound(env, owner, past + [next]);
      ExtendsTwice(past, past + [next], Reread(env, owner, past + [next]).events);
    }
  }

  lemma {:induction false} ValidateIsSound(env: Env, token: string, left: nat, past: seq<Event>)
    requires GetToken(token) in past
    requires left == 0 ==> past != [] && past[|past| - 1].Ping? && past[|past| - 1].answer.Some?
    ensures Extends(past, Validate(env, token, left, past).events) && VerdictFits(Validate(env, token, left, past))
  {
    hide Extends, Bury, ProvedDead, OpensNothing, Answers;
    var t := |past|;
    if left == 0 {
      ExtendsItself(past);
    } else {
      var owner, ping := env.owner(t), env.owner(t + 1);
      var read := past + [ReadOwner(owner)];
      var asked := read + [Ping(ping)];
      ExtendsQuiet(past, Threw);
      ExtendsQuiet(past, ReadOwner(owner));
      ExtendsQuiet(read, Threw);
      ExtendsTwice(past, read, read + [Threw]);
      ExtendsQuiet(read, Ping(ping));
      ExtendsTwice(past, read, asked);
      if owner.Some? && ping.None? {
        BuryIsSound(env, owner.value, asked);
        ExtendsTwice(past, asked, Bury(env, owner.value, asked).events);
      } else if owner.Some? && !Answers(ping.value, owner.value) {
        ValidateIsSound(env, token, left - 1, asked);
        ExtendsTwice(past, asked, Validate(env, token, left - 1, asked).events);
      }
    }
  }

  lemma ExtendsItself(past: seq<Event>)
    ensures Extends(past, past)
  {
  }

  lemma {:induction false} ValidateOwnerIsSound(env: Env, past: seq<Event>)
    ensures Extends(past, ValidateOwner(env, past).events) && VerdictFits(ValidateOwner(env, past))
  {
    hide Extends, Validate;
    var got := past + [GetToken(env.secret(|past|))];
    ExtendsQuiet(past, Threw);
    ExtendsQuiet(past, GetToken(env.secret(|past|)));
    assert GetToken(env.secret(|past|)) in got;
    ValidateIsSound(env, env.secret(|past|), 2, got);
    ExtendsTwice(past, got, Validate(env, env.secret(|past|), 2, got).events);
  }

  // ----- the lock

  predicate Took(events: seq<Event>) { Lock(true) in events }

  predicate ReleasedOnce(events: seq<Event>) {
    events != [] && events[|events| - 1] == Release && Release !in events[..|events| - 1]
  }

  /** Either the lease holds the lock, or it was released exactly once and last, or it was never taken. */
  predicate Balanced(events: seq<Event>, held: bool) {
    if held then Took(events) && Release !in events
    else if Took(events) then ReleasedOnce(events)
    else Release !in events
  }

  lemma {:induction false} ReleaseBalances(past: seq<Event>, more: seq<Event>)
    requires Balanced(past, true) && Release !in more
    ensures Balanced(past + more + [Release], false) && Took(past + more + [Release])
  {
    var all := past + more + [Release];
    assert all[..|all| - 1] == past + more;
    var k :| 0 <= k < |past| && past[k] == Lock(true);
    assert all[k] == Lock(true);
  }

  lemma {:induction false} LockStaysHeld(past: seq<Event>, events: seq<Event>)
    requires Balanced(past, true) && past <= events && forall i :: |past| <= i < |events| ==> events[i] != Release
    ensures Balanced(events, true)
  {
    var k :| 0 <= k < |past| && past[k] == Lock(true);
    assert events[k] == Lock(true);
    assert forall i :: 0 <= i < |past| ==> events[i] == past[i] && past[i] in past;
  }

  /** Neither listening nor recording has begun. */
  predicate Deaf(events: seq<Event>) { forall e :: e in events ==> OpensNothing(e) }

  lemma {:induction false} StaysDeaf(past: seq<Event>, events: seq<Event>)
    requires Deaf(past) && past <= events && forall i :: |past| <= i < |events| ==> OpensNothing(events[i])
    ensures Deaf(events)
  {
    hide OpensNothing;
    assert forall i :: 0 <= i < |past| ==> events[i] == past[i] && past[i] in past;
  }

  lemma {:induction false} LockedIsSound(env: Env, past: seq<Event>)
    requires Balanced(past, true) && CleansTheDead(past) && Deaf(past)
    ensures var r := Locked(env, past);
            && Deaf(r.events)
            && Balanced(r.events, r.result.Granted?) && CleansTheDead(r.events) && Took(r.events)
            && (r.result.Granted? ==> r.events != [] && MayGrant(r.events[..|r.events| - 1], r.result.token))
            && (r.result.AlreadyRunning? ==> OwnerAnswered(r.events))
  {
    hide ValidateOwner, CleansTheDead, MayGrant, Balanced, Took, OwnerAnswered, Deaf;
    var v, r := ValidateOwner(env, past), Locked(env, past);
    ValidateOwnerIsSound(env, past);
    LockStaysHeld(past, v.events);
    StaysDeaf(past, v.events);
    StaysDeaf(v.events, r.events);
    AddsNoCleanUp(v.events, r.events);
    if v.result.Refused? {
      assert v.events + [] + [Release] == r.events;
      ReleaseBalances(v.events, []);
      if v.result.outcome.AlreadyRunning? { LastPingAnswered(v.events, r.events); }
    } else if env.throws(|v.events|) {
      assert v.events + [Threw] + [Release] == r.events;
      ReleaseBalances(v.events, [Threw]);
    } else {
      assert r.events[..|r.events| - 1] == v.events;
      LockStaysHeld(v.events, r.events);
      HeldIsTaken(r.events);
    }
  }

  lemma HeldIsTaken(events: seq<Event>)
    requires Balanced(events, true)
    ensures Took(events)
  {
  }

  /** The process on record answered a ping. */
  ghost predicate OwnerAnswered(events: seq<Event>) {
    exists i :: 0 <= i < |events| - 1 && events[i].ReadOwner? && events[i].owner.Some?
      && events[i + 1].Ping? && events[i + 1].answer.Some? && Answers(events[i + 1].answer.value, events[i].owner.value)
  }

  lemma {:induction false} LastPingAnswered(past: seq<Event>, events: seq<Event>)
    requires past <= events && VerdictFits(Run(past, Refused(AlreadyRunning)))
    ensures OwnerAnswered(events)
  {
    var i := |past| - 2;
    assert events[i] == past[i] && events[i + 1] == past[i + 1];
  }

  lemma NothingCleaned(events: seq<Event>)
    requires forall e :: e in events ==> !e.CleanUp?
    ensures CleansTheDead(events)
  {
  }

  lemma {:induction false} AddsNoCleanUp(past: seq<Event>, events: seq<Event>)
    requires past <= events && CleansTheDead(past) && forall i :: |past| <= i < |events| ==> !events[i].CleanUp?
    ensures CleansTheDead(events)
  {
    forall i | 0 <= i < |events| && events[i].CleanUp? ensures ProvedDead(events, i, events[i].dead) {
      assert past[i] == events[i];
      assert ProvedDead(past, i, past[i].dead);
    }
  }

  /** Against every environment: a lease is granted only when the owner file was read empty, or after the
      same owner was read twice with no answer to a ping and a dead pid in between, its metadata removed and
      the token rotated; metadata is removed in that case only; the lock is handed to the lease or released,
      once, on every other path that took it; "already running" means that the process on record answered,
      or, with the lock busy, that somebody did. */
  lemma {:induction false} LeaseIsJustified(env: Env)
    ensures var r := Acquire(env);
            && Deaf(r.events)
            && Balanced(r.events, r.result.Granted?)
            && CleansTheDead(r.events)
            && (r.result.Granted? ==> r.events != [] && MayGrant(r.events[..|r.events| - 1], r.result.token))
            && (r.result.AlreadyRunning? && Took(r.events) ==> OwnerAnswered(r.events))
            && (r.result.AlreadyRunning? && !Took(r.events) ==> exists p :: Ping(Some(p)) in r.events)
  {
    hide Locked, CleansTheDead, MayGrant, Balanced, Took, OwnerAnswered, Deaf;
    if env.throws(0) || env.throws(1) || !env.yes(1) {
      EarlyEnd(env);
    } else {
      var past := [Prepare, Lock(true)];
      JustLocked(past);
      LockedIsSound(env, past);
    }
  }

  lemma JustLocked(past: seq<Event>)
    requires past == [Prepare, Lock(true)]
    ensures Balanced(past, true) && CleansTheDead(past) && Deaf(past)
  {
    assert past[1] in past;
  }

  lemma {:induction false} EarlyEnd(env: Env)
    requires env.throws(0) || env.throws(1) || !env.yes(1)
    ensures var r := Acquire(env);
            && Deaf(r.events)
            && Balanced(r.events, false) && CleansTheDead(r.events) && !r.result.Granted? && !Took(r.events)
            && (r.result.AlreadyRunning? ==> exists p :: Ping(Some(p)) in r.events)
  {
    hide Locked, CleansTheDead;
    var e := Acquire(env).events;
    NothingCleaned(e);
    if Acquire(env).result.AlreadyRunning? { assert e[3].Ping? && e[3].answer.Some? && e[3] in e; }
  }

  /** `startDaemonServer` releases the lock exactly once whenever it was taken, whether it returns a handle
      or throws; it returns a handle only when it answered its own ping with the identity it wrote. */
  lemma {:induction false} LockIsAlwaysReleased(env: Env)
    ensures var r := Start(env);
            && Balanced(r.events, false)
            && CleansTheDead(r.events)
            && (r.result.HandleFor? ==> Took(r.events) && AnsweredItself(r.events, r.result.owner))
  {
    hide Acquire, Serve, CleansTheDead, Balanced, Took, AnsweredItself;
    LeaseIsJustified(env);
    var a := Acquire(env);
    if a.result.Granted? { ServeIsSound(env, a.result.self, a.events); }
  }

  /** The last thing that happened was a failure right behind `listen`. */
  predicate EndsDeserted(events: seq<Event>) {
    var n := |events|;
    n >= 3 && events[n - 3] == Listen && events[n - 2] == Threw && events[n - 1] == Release
  }

  predicate Records(events: seq<Event>) { exists e :: e in events && e.WriteOwner? }

  /** A start that throws leaves a listener open if and only if it had opened one, because no failing path
      closes it; and it leaves one behind that no record names exactly when it failed right behind opening it. */
  lemma {:induction false} ListenerStaysOpen(env: Env)
    ensures var r := Start(env);
            && (r.result.NotStarted? ==> (r.result.listening <==> Listen in r.events))
            && (r.result.HandleFor? ==> Listen in r.events && Records(r.events))
            && (Listen in r.events && !Records(r.events) <==> EndsDeserted(r.events))
  {
    hide Acquire, Serve, CleansTheDead, Balanced, Took, Deaf, MayGrant, OwnerAnswered, Records;
    LeaseIsJustified(env);
    var a := Acquire(env);
    if a.result.Granted? {
      ServeListens(env, a.result.self, a.events);
    } else {
      DeafEnds(a.events);
    }
  }

  lemma {:induction false} DeafEnds(events: seq<Event>)
    requires Deaf(events)
    ensures Listen !in events && !Records(events) && !EndsDeserted(events)
  {
    if |events| >= 3 { assert events[|events| - 3] in events; }
  }

  lemma {:induction false} ServeListens(env: Env, self: Owner, past: seq<Event>)
    requires Deaf(past)
    ensures var r := Serve(env, self, past);
            && (r.result.NotStarted? ==> (r.result.listening <==> Listen in r.events))
            && (r.result.HandleFor? ==> Listen in r.events && Records(r.events))
            && (Listen in r.events && !Records(r.events) <==> EndsDeserted(r.events))
  {
    hide Deaf, Records, EndsDeserted;
    var t := |past|;
    var owner := self.(endpoint := env.self(t).endpoint);
    var r := Serve(env, self, past);
    if env.throws(t) {
      DeafTail(past, [Threw, Release]);
      assert r.events == past + [Threw, Release];
    } else {
      var end := if env.throws(t + 2) then [Threw, Release] else [SelfProbe(env.owner(t + 2)), Release];
      var more := if env.throws(t + 1) then [Listen, Threw, Release] else [Listen, WriteOwner(owner)] + end;
      assert r.events == past + more;
      if env.throws(t + 1) { DeafTail(past, more); } else { RecordedTail(past, owner, end); }
    }
  }

  lemma {:induction false} DeafTail(past: seq<Event>, more: seq<Event>)
    requires Deaf(past) && (more == [Threw, Release] || more == [Listen, Threw, Release])
    ensures !Records(past + more)
    ensures (Listen in past + more <==> more[0] == Listen) && (EndsDeserted(past + more) <==> more[0] == Listen)
  {
    hide Deaf;
    DeafEnds(past);
    BehindDeaf(past, more);
    RecordsAre(more);
    if more[0] == Listen { assert more[0] in more; } else { TwoBehindDeaf(past, more); }
  }

  lemma TwoBehindDeaf(past: seq<Event>, more: seq<Event>)
    requires Deaf(past) && |more| == 2
    ensures !EndsDeserted(past + more)
  {
    if past != [] { assert past[|past| - 1] in past; }
  }

  lemma {:induction false} RecordedTail(past: seq<Event>, owner: Owner, end: seq<Event>)
    requires Deaf(past) && |end| == 2
    ensures var e := past + ([Listen, WriteOwner(owner)] + end);
            Listen in e && Records(e) && !EndsDeserted(e)
  {
    hide Deaf;
    var e := past + ([Listen, WriteOwner(owner)] + end);
    assert e[|past|] == Listen && e[|past| + 1] == WriteOwner(owner);
    RecordsSome(e, |past| + 1);
    assert e[|past|] in e;
  }

  lemma RecordsAre(events: seq<Event>)
    requires events == [Threw, Release] || events == [Listen, Threw, Release]
    ensures !Records(events)
  {
  }

  lemma RecordsSome(events: seq<Event>, i: nat)
    requires i < |events| && events[i].WriteOwner?
    ensures Records(events)
  {
    assert events[i] in events;
  }

  lemma {:induction false} BehindDeaf(past: seq<Event>, more: seq<Event>)
    requires Deaf(past)
    ensures Listen in past + more <==> Listen in more
    ensures Records(past + more) <==> Records(more)
  {
    assert forall e :: e in past + more <==> e in past || e in more;
    DeafEnds(past);
  }

  /** The owner was written and then a ping answered with its nonce. */
  ghost predicate AnsweredItself(events: seq<Event>, owner: Owner) {
    exists i :: 0 <= i < |events| - 1 && events[i] == WriteOwner(owner)
      && events[i + 1].SelfProbe? && events[i + 1].reply.Some? && events[i + 1].reply.value.nonce == owner.nonce
  }

  lemma {:induction false} ServeIsSound(env: Env, self: Owner, past: seq<Event>)
    requires Balanced(past, true) && CleansTheDead(past)
    ensures var r := Serve(env, self, past);
            && Balanced(r.events, false)
            && CleansTheDead(r.events)
            && (r.result.HandleFor? ==> Took(r.events) && AnsweredItself(r.events, r.result.owner))
  {
    hide CleansTheDead, Balanced, Took, Serve;
    var e := Serve(env, self, past).events;
    var more := ServeEvents(env, self, past);
    ReleaseBalances(past, more);
    assert forall i :: |past| <= i < |e| - 1 ==> e[i] == more[i - |past|];
    AddsNoCleanUp(past, e);
  }

  lemma {:induction false} ServeEvents(env: Env, self: Owner, past: seq<Event>) returns (more: seq<Event>)
    ensures var r := Serve(env, self, past);
            && r.events == past + more + [Release]
            && (forall i :: 0 <= i < |more| ==> !more[i].Release? && !more[i].CleanUp?)
            && (r.result.HandleFor? ==> AnsweredItself(r.events, r.result.owner))
  {
    var t := |past|;
    var owner := self.(endpoint := env.self(t).endpoint);
    if env.throws(t) {
      more := [Threw];
    } else if env.throws(t + 1) {
      more := [Listen, Threw];
    } else if env.throws(t + 2) {
      more := [Listen, WriteOwner(owner), Threw];
    } else {
      more := [Listen, WriteOwner(owner), SelfProbe(env.owner(t + 2))];
      var e := past + more + [Release];
      assert e[t + 1] == more[1] && e[t + 2] == more[2];
    }
    assert Serve(env, self, past).events == past + more + [Release];
  }

  // ----- the code

  /** One start: the answers, and the calls made so far. */
  class Startup {
    const env: Env
    var trace: seq<Event>
    var listening: bool          // the server socket is open

    constructor (env: Env)
      ensures this.env == env && trace == [] && !listening
    {
      this.env := env;
      trace, listening := [], false;
    }

    /** Whether the next call throws. */
    method Fails() returns (r: bool)
      modifies this`trace
      ensures r == env.throws(|old(trace)|) && trace == if r then old(trace) + [Threw] else old(trace)
    {
      r := env.throws(|trace|);
      if r { trace := trace + [Threw]; }
    }

    /** `validateExistingOwner`. */
    method ValidateExistingOwner() returns (v: Verdict)
      modifies this`trace
      ensures Run(trace, v) == ValidateOwner(env, old(trace))
    {
      hide Bury, SameOwner, Answers;
      var threw := Fails();
      if threw { return Refused(Failed); }
      var token := env.secret(|trace|);
      trace := trace + [GetToken(token)];
      var attempt := 0;
      ghost var start := trace;
      while attempt < 2
        invariant 0 <= attempt <= 2
        invariant Validate(env, token, 2, start) == Validate(env, token, 2 - attempt, trace)
      {
        threw := Fails();
        if threw { return Refused(Failed); }
        var owner := env.owner(|trace|);
        trace := trace + [ReadOwner(owner)];
        if owner.None? { return Valid(token); }
        threw := Fails();
        if threw { return Refused(Failed); }
        var ping := env.owner(|trace|);
        trace := trace + [Ping(ping)];
        if ping.Some? && Answers(ping.value, owner.value) { return Refused(AlreadyRunning); }
        if ping.None? {
          v := BuryOwner(owner.value);
          return;
        }
        attempt := attempt + 1;
      }
      v := Refused(Deferred(OwnerMismatch));
    }

    /** The part of the loop body behind an unanswered ping. */
    method BuryOwner(owner: Owner) returns (v: Verdict)
      modifies this`trace
      ensures Run(trace, v) == Bury(env, owner, old(trace))
    {
      var threw := Fails();
      if threw { return Refused(Failed); }
      var alive := env.yes(|trace|);
      trace := trace + [Probe(owner.pid, alive)];
      if alive { return Refused(Deferred(OwnerLiveUnreachable)); }
      threw := Fails();
      if threw { return Refused(Failed); }
      var again := env.owner(|trace|);
      trace := trace + [ReadOwner(again)];
      if again.None? || !SameOwner(again.value, owner) { return Refused(Deferred(OwnerChanged)); }
      threw := Fails();
      if threw { return Refused(Failed); }
      trace := trace + [CleanUp(owner)];
      threw := Fails();
      if threw { return Refused(Failed); }
      var token := env.secret(|trace|);
      trace := trace + [Rotate(token)];
      v := Valid(token);
    }

    /** `acquireStartupLease`. */
    method AcquireStartupLease() returns (r: Outcome)
      requires trace == []
      modifies this`trace
      ensures Run(trace, r) == Acquire(env)
    {
      hide ValidateOwner;
      var threw := Fails();
      if threw { return Failed; }
      trace := trace + [Prepare];
      threw := Fails();
      if threw { return Failed; }
      var got := env.yes(|trace|);
      trace := trace + [Lock(got)];
      if !got {
        assert trace == [Prepare, Lock(false)];
        var token := env.token(|trace|);
        trace := trace + [ReadToken(token)];
        if token.None? { return Deferred(LockBusy); }
        threw := Fails();
        if threw { return Failed; }
        var ping := env.owner(|trace|);
        trace := trace + [Ping(ping)];
        return if ping.Some? then AlreadyRunning else Deferred(LockBusy);
      }
      assert trace == [Prepare, Lock(true)];
      var v := ValidateExistingOwner();
      if v.Refused? {
        trace := trace + [Release];
        return v.outcome;
      }
      ghost var valid := trace;
      threw := Fails();
      if threw {
        trace := trace + [Release];
        assert trace == valid + [Threw, Release];
        return Failed;
      }
      var self := env.self(|trace|);
      trace := trace + [NewOwner(self)];
      r := Granted(v.token, self);
    }

    /** `startDaemonServer` up to its return. */
    method StartDaemonServer() returns (r: Started)
      requires trace == [] && !listening
      modifies this
      ensures Run(trace, r) == Start(env)
      ensures if r.NotStarted? then r.listening == listening else listening
    {
      hide Acquire;
      var lease := AcquireStartupLease();
      if !lease.Granted? { return NotStarted(lease, listening); }
      ghost var past := trace;
      var threw := Fails();
      if threw {
        trace := trace + [Release];
        assert trace == past + [Threw, Release];
        return NotStarted(Failed, listening);
      }
      var owner := lease.self.(endpoint := env.self(|trace|).endpoint);
      trace, listening := trace + [Listen], true;
      threw := Fails();
      if threw {
        trace := trace + [Release];
        assert trace == past + [Listen] + [Threw, Release];
        return NotStarted(Failed, listening);
      }
      trace := trace + [WriteOwner(owner)];
      threw := Fails();
      if threw {
        trace := trace + [Release];
        assert trace == past + [Listen] + [WriteOwner(owner)] + [Threw, Release];
        return NotStarted(Failed, listening);
      }
      var reply := env.owner(|trace|);
      trace := trace + [SelfProbe(reply)];
      var ok := reply.Some? && reply.value.nonce == owner.nonce;
      trace := trace + [Release];
      assert trace == past + [Listen] + [WriteOwner(owner)] + [SelfProbe(reply), Release];
      r := if ok then HandleFor(owner) else NotStarted(Deferred(SelfProbeFailed), listening);
    }
  }
}
