/** The sweep that retires other versions of the daemon: packages/lsp-daemon/src/version-reap.ts.
    Every question to the operating system is an event; the environment answers the question asked at
    time `t` as it likes.  Directories are named by their entry in the base directory. */
module Reap {
  import opened Text

  datatype Status = Terminated | Removed | Deferred | Spared

  datatype Entry = Entry(name: string, isDirectory: bool)

  datatype Event =
    | ReadOwner(dir: string, owner: Option<int>)
    | ReadLock(dir: string, holder: Option<int>)
    | Probe(pid: int, alive: bool)
    | Attest(pid: int, attested: bool)
    | Signal(pid: int, kill: bool, sent: bool)
    | Wait(pid: int, exited: bool)
    | Remove(dir: string, done: bool)

  /** The answers, by time. */
  datatype Env = Env(owner: nat -> Option<int>, holder: nat -> Option<int>, yes: nat -> bool)

  datatype Visit = Visit(events: seq<Event>, status: Option<Status>)  // no status: removing the directory threw

  // ----- which directories are looked at

  predicate IsAlnum(c: char) { '0' <= c <= '9' || 'A' <= c <= 'Z' || 'a' <= c <= 'z' }

  /** `VERSION_ENTRY_PATTERN`. */
  predicate IsVersionEntry(name: string) {
    && 2 <= |name| <= 129 && name[0] == 'v' && IsAlnum(name[1])
    && forall i :: 2 <= i < |name| ==> IsAlnum(name[i]) || name[i] in "._+-"
  }

  predicate IsSibling(own: string, e: Entry) { e.name != "v" + own && IsVersionEntry(e.name) && e.isDirectory }

  // ----- one version, as a function of the answers

  function Removing(env: Env, t: nat, dir: string, events: seq<Event>, status: Status): Visit {
    var done := env.yes(t + |events|);
    Visit(events + [Remove(dir, done)], if done then Some(status) else None)
  }

  function Orphan(env: Env, t: nat, dir: string): Visit {
    var holder := env.holder(t + 1);
    var events := [ReadOwner(dir, None), ReadLock(dir, holder)];
    if holder.None? then Removing(env, t, dir, events, Removed)
    else
      var alive := env.yes(t + 2);
      var probed := events + [Probe(holder.value, alive)];
      if alive then Visit(probed, Some(Spared)) else Removing(env, t, dir, probed, Removed)
  }

  function Owned(env: Env, t: nat, win32: bool, dir: string, pid: int): Visit {
    var alive := env.yes(t + 1);
    var probed := [ReadOwner(dir, Some(pid)), Probe(pid, alive)];
    if !alive then Removing(env, t, dir, probed, Removed)
    else if win32 then Visit(probed, Some(Deferred))
    else
      var attested := env.yes(t + 2);
      var events := probed + [Attest(pid, attested)];
      if !attested then Visit(events, Some(Spared)) else Ended(env, t, dir, pid, events)
  }

  /** `terminateAttestedOwner`. */
  function Ended(env: Env, t: nat, dir: string, pid: int, events: seq<Event>): Visit {
    var sent := env.yes(t + |events|);
    var asked := events + [Signal(pid, false, sent)];
    if !sent then Removing(env, t, dir, asked, Removed)
    else
      var exited := env.yes(t + |asked|);
      var waited := asked + [Wait(pid, exited)];
      if exited then Removing(env, t, dir, waited, Terminated) else Forced(env, t, dir, pid, waited)
  }

  /** Its escalation to SIGKILL. */
  function Forced(env: Env, t: nat, dir: string, pid: int, waited: seq<Event>): Visit {
    var killed := env.yes(t + |waited|);
    var forced := waited + [Signal(pid, true, killed)];
    if !killed then Visit(forced, Some(Deferred))
    else
      var gone := env.yes(t + |forced|);
      var over := forced + [Wait(pid, gone)];
      if !gone then Visit(over, Some(Deferred)) else Removing(env, t, dir, over, Terminated)
  }

  function VisitOf(env: Env, t: nat, win32: bool, dir: string): Visit {
    match env.owner(t)
    case None => Orphan(env, t, dir)
    case Some(pid) => Owned(env, t, win32, dir, pid)
  }

  // ----- what a visit may do, judged from its events alone

  /** The three answers that make a process fair game: the directory's owner, found alive, then attested. */
  function Attested(dir: string, pid: int): (r: seq<Event>)
    ensures |r| == 3
  {
    [ReadOwner(dir, Some(pid)), Probe(pid, true), Attest(pid, true)]
  }

  /** The answers that precede a removal: no readable owner and no live lock holder, or an owner that was found
      dead, could not be signalled after it was attested, or was seen to exit. */
  ghost predicate LooksUnused(dir: string, past: seq<Event>) {
    || (ReadOwner(dir, None) in past && ReadLock(dir, None) in past)
    || (exists pid :: ReadOwner(dir, None) in past && ReadLock(dir, Some(pid)) in past && Probe(pid, false) in past)
    || (exists pid :: ReadOwner(dir, Some(pid)) in past && Probe(pid, false) in past)
    || (exists pid :: Attested(dir, pid) <= past && Signal(pid, false, false) in past)
    || (exists pid :: ReadOwner(dir, Some(pid)) in past && Wait(pid, true) in past)
  }

  /** A signal needs those three answers; a kill also a delivered SIGTERM and a failed wait. */
  ghost predicate MaySignal(dir: string, past: seq<Event>, pid: int, kill: bool) {
    && Attested(dir, pid) <= past
    && (kill ==> Attested(dir, pid) + [Signal(pid, false, true), Wait(pid, false)] <= past)
  }

  ghost predicate Allowed(win32: bool, dir: string, past: seq<Event>, next: Event) {
    match next
    case Remove(d, _) => d == dir && LooksUnused(dir, past)
    case Signal(pid, kill, _) => !win32 && MaySignal(dir, past, pid, kill)
    case ReadOwner(d, _) => d == dir && past == []
    case ReadLock(d, _) => d == dir
    case _ => true
  }

  ghost predicate Untouched(events: seq<Event>) { forall e :: e in events ==> !e.Remove? }

  /** Every event was allowed by what came before it, and a removal is the last one. */
  ghost predicate Lawful(win32: bool, dir: string, events: seq<Event>) {
    && events != [] && events[0].ReadOwner?
    && (forall i :: 0 <= i < |events| ==> Allowed(win32, dir, events[..i], events[i]))
    && Untouched(events[..|events| - 1])
  }

  /** What the reported status says about the events. */
  ghost predicate StatusFits(dir: string, v: Visit) {
    && (v.status == Some(Spared) || v.status == Some(Deferred) <==> Untouched(v.events))
    && (v.status == Some(Removed) || v.status == Some(Terminated) <==> Remove(dir, true) in v.events)
    && (v.status == None <==> Remove(dir, false) in v.events)
    && (v.status == Some(Terminated) ==> ExitSeen(dir, v.events))
    && (v.status == Some(Removed) ==> !ExitSeen(dir, v.events))
    && (v.status == Some(Spared) ==> InDoubt(dir, v.events))
  }

  ghost predicate ExitSeen(dir: string, events: seq<Event>) {
    exists pid :: ReadOwner(dir, Some(pid)) in events && Wait(pid, true) in events
  }

  /** A live lock holder, or a live owner that could not be attested. */
  ghost predicate InDoubt(dir: string, events: seq<Event>) {
    exists pid :: Probe(pid, true) in events && (ReadLock(dir, Some(pid)) in events || Attest(pid, false) in events)
  }

  ghost predicate FoundAlive(dir: string, events: seq<Event>) {
    exists pid :: ReadOwner(dir, Some(pid)) in events && Probe(pid, true) in events
  }

  predicate EndsRefused(events: seq<Event>) {
    events != [] && events[|events| - 1].Signal? && !events[|events| - 1].kill && !events[|events| - 1].sent
  }

  /** The owner was found alive and not seen to exit if and only if the last answer was a refused SIGTERM. */
  ghost predicate ReasonFits(dir: string, past: seq<Event>) {
    FoundAlive(dir, past) && !ExitSeen(dir, past) <==> EndsRefused(past)
  }

  /** A removal is the last event, and its reason is `ReasonFits`. */
  ghost predicate RemovalFits(dir: string, events: seq<Event>) {
    events != [] && events[|events| - 1].Remove? ==> ReasonFits(dir, events[..|events| - 1])
  }

  ghost predicate IsSafe(win32: bool, dir: string, v: Visit) {
    Lawful(win32, dir, v.events) && StatusFits(dir, v) && RemovalFits(dir, v.events)
  }

  lemma {:induction false} Begin(win32: bool, dir: string, owner: Option<int>)
    ensures var events := [ReadOwner(dir, owner)];
            Lawful(win32, dir, events) && Untouched(events)
  {
  }

  lemma {:induction false} Grow(win32: bool, dir: string, past: seq<Event>, next: Event)
    requires Lawful(win32, dir, past) && Untouched(past) && Allowed(win32, dir, past, next)
    ensures Lawful(win32, dir, past + [next]) && (!next.Remove? ==> Untouched(past + [next]))
  {
    hide Allowed, LooksUnused, MaySignal;
    var events := past + [next];
    forall i | 0 <= i < |events| ensures Allowed(win32, dir, events[..i], events[i]) {
      if i < |past| { assert events[..i] == past[..i]; } else { assert events[..i] == past; }
    }
    assert events[..|events| - 1] == past;
  }

  lemma ExitStays(dir: string, past: seq<Event>, next: Event)
    requires next.Remove?
    ensures ExitSeen(dir, past + [next]) <==> ExitSeen(dir, past)
  {
    assert forall x :: x in past + [next] <==> x in past || x == next;
  }

  lemma {:induction false} RemovalStatusFits(dir: string, past: seq<Event>, done: bool, status: Status)
    requires Untouched(past)
    requires (status == Terminated && ExitSeen(dir, past)) || (status == Removed && !ExitSeen(dir, past))
    ensures StatusFits(dir, Visit(past + [Remove(dir, done)], if done then Some(status) else None))
  {
    hide ExitSeen, InDoubt;
    var e := past + [Remove(dir, done)];
    ExitStays(dir, past, Remove(dir, done));
    assert e[|past|] == Remove(dir, done) && e[|past|] in e;
    assert Remove(dir, !done) !in e;
  }

  lemma {:induction false} RemovingIsSafe(env: Env, t: nat, win32: bool, dir: string, past: seq<Event>, status: Status)
    requires Lawful(win32, dir, past) && Untouched(past) && LooksUnused(dir, past) && ReasonFits(dir, past)
    requires (status == Terminated && ExitSeen(dir, past)) || (status == Removed && !ExitSeen(dir, past))
    ensures IsSafe(win32, dir, Removing(env, t, dir, past, status))
  {
    hide Lawful, LooksUnused, ReasonFits, ExitSeen, StatusFits, Untouched;
    var done := env.yes(t + |past|);
    Grow(win32, dir, past, Remove(dir, done));
    RemovalStatusFits(dir, past, done, status);
    var e := past + [Remove(dir, done)];
    assert e[..|e| - 1] == past;
  }

  lemma {:induction false} KeepingIsSafe(win32: bool, dir: string, past: seq<Event>, status: Status)
    requires Lawful(win32, dir, past) && Untouched(past)
    requires status == Deferred || (status == Spared && InDoubt(dir, past))
    ensures IsSafe(win32, dir, Visit(past, Some(status)))
  {
    hide Lawful;
    assert past != [] ==> past[|past| - 1] in past;
  }

  lemma {:induction false} OrphanIsSafe(env: Env, t: nat, win32: bool, dir: string)
    ensures IsSafe(win32, dir, Orphan(env, t, dir))
  {
    hide IsSafe, Lawful, Untouched, Removing;
    var holder := env.holder(t + 1);
    Begin(win32, dir, None);
    Grow(win32, dir, [ReadOwner(dir, None)], ReadLock(dir, holder));
    var events := [ReadOwner(dir, None), ReadLock(dir, holder)];
    assert [ReadOwner(dir, None)] + [ReadLock(dir, holder)] == events;
    assert events[0] in events && events[1] in events;
    if holder.None? {
      RemovingIsSafe(env, t, win32, dir, events, Removed);
    } else {
      var alive := env.yes(t + 2);
      var probed := events + [Probe(holder.value, alive)];
      Grow(win32, dir, events, Probe(holder.value, alive));
      assert probed[0] in probed && probed[1] in probed && probed[2] in probed;
      if alive {
        KeepingIsSafe(win32, dir, probed, Spared);
      } else {
        RemovingIsSafe(env, t, win32, dir, probed, Removed);
      }
    }
  }

  lemma {:induction false} OwnedIsSafe(env: Env, t: nat, win32: bool, dir: string, pid: int)
    ensures IsSafe(win32, dir, Owned(env, t, win32, dir, pid))
  {
    hide IsSafe, Lawful, Untouched, Removing, Ended;
    var alive, attested := env.yes(t + 1), env.yes(t + 2);
    Begin(win32, dir, Some(pid));
    Grow(win32, dir, [ReadOwner(dir, Some(pid))], Probe(pid, alive));
    var probed := [ReadOwner(dir, Some(pid)), Probe(pid, alive)];
    assert [ReadOwner(dir, Some(pid))] + [Probe(pid, alive)] == probed;
    assert probed[0] in probed && probed[1] in probed;
    if !alive {
      RemovingIsSafe(env, t, win32, dir, probed, Removed);
    } else if win32 {
      KeepingIsSafe(win32, dir, probed, Deferred);
    } else {
      var events := probed + [Attest(pid, attested)];
      Grow(win32, dir, probed, Attest(pid, attested));
      assert events[1] == Probe(pid, true) && events[1] in events && events[2] in events;
      if attested {
        assert events == Attested(dir, pid);
        EndedIsSafe(env, t, dir, pid);
      } else {
        KeepingIsSafe(win32, dir, events, Spared);
      }
    }
  }

  lemma {:induction false} SignalsAreSafe(dir: string, pid: int, sent: bool)
    ensures var asked := Attested(dir, pid) + [Signal(pid, false, sent)];
            Lawful(false, dir, asked) && Untouched(asked) && !ExitSeen(dir, asked) && ReadOwner(dir, Some(pid)) in asked
  {
    hide Lawful, Untouched;
    var a := Attested(dir, pid);
    Begin(false, dir, Some(pid));
    Grow(false, dir, [ReadOwner(dir, Some(pid))], Probe(pid, true));
    assert [ReadOwner(dir, Some(pid))] + [Probe(pid, true)] == [ReadOwner(dir, Some(pid)), Probe(pid, true)];
    Grow(false, dir, [ReadOwner(dir, Some(pid)), Probe(pid, true)], Attest(pid, true));
    assert [ReadOwner(dir, Some(pid)), Probe(pid, true)] + [Attest(pid, true)] == a;
    Grow(false, dir, a, Signal(pid, false, sent));
    assert a[0] in a + [Signal(pid, false, sent)];
  }

  lemma {:induction false} EndedIsSafe(env: Env, t: nat, dir: string, pid: int)
    ensures IsSafe(false, dir, Ended(env, t, dir, pid, Attested(dir, pid)))
  {
    hide IsSafe, Lawful, Untouched, Removing, Attested, Forced;
    var a, sent, exited := Attested(dir, pid), env.yes(t + 3), env.yes(t + 4);
    var asked := a + [Signal(pid, false, sent)];
    SignalsAreSafe(dir, pid, sent);
    AttestedStarts(dir, pid);
    assert asked[0] == a[0] && asked[1] == a[1];
    if !sent {
      assert a <= asked && asked[3] in asked;
      assert asked[0] in asked && asked[1] in asked;
      RemovingIsSafe(env, t, false, dir, asked, Removed);
    } else {
      var waited := asked + [Wait(pid, exited)];
      Grow(false, dir, asked, Wait(pid, exited));
      if exited {
        assert waited[4] == Wait(pid, true);
        ExitIsReason(dir, waited, 0, 4, pid);
        RemovingIsSafe(env, t, false, dir, waited, Terminated);
      } else {
        assert waited == a + [Signal(pid, false, true), Wait(pid, false)];
        ForcedIsSafe(env, t, dir, pid, waited);
      }
    }
  }

  lemma AttestedStarts(dir: string, pid: int)
    ensures Attested(dir, pid)[0] == ReadOwner(dir, Some(pid)) && Attested(dir, pid)[1] == Probe(pid, true)
  {
  }

  lemma ExitIsReason(dir: string, past: seq<Event>, i: nat, j: nat, pid: int)
    requires i < |past| && j < |past| && past[i] == ReadOwner(dir, Some(pid)) && past[j] == Wait(pid, true)
    ensures LooksUnused(dir, past) && ExitSeen(dir, past)
  {
    assert past[i] in past && past[j] in past;
  }

  lemma {:induction false} ForcedIsSafe(env: Env, t: nat, dir: string, pid: int, waited: seq<Event>)
    requires waited == Attested(dir, pid) + [Signal(pid, false, true), Wait(pid, false)]
    requires Lawful(false, dir, waited) && Untouched(waited)
    ensures IsSafe(false, dir, Forced(env, t, dir, pid, waited))
  {
    hide IsSafe, Lawful, Untouched, Removing, LooksUnused, ExitSeen, InDoubt;
    var killed, gone := env.yes(t + 5), env.yes(t + 6);
    var forced := waited + [Signal(pid, true, killed)];
    assert Attested(dir, pid) <= waited;
    Grow(false, dir, waited, Signal(pid, true, killed));
    if !killed {
      KeepingIsSafe(false, dir, forced, Deferred);
    } else {
      var over := forced + [Wait(pid, gone)];
      Grow(false, dir, forced, Wait(pid, gone));
      assert over[0] == ReadOwner(dir, Some(pid)) && over[6] == Wait(pid, gone);
      if gone {
        ExitIsReason(dir, over, 0, 6, pid);
        RemovingIsSafe(env, t, false, dir, over, Terminated);
      } else {
        KeepingIsSafe(false, dir, over, Deferred);
      }
    }
  }

  lemma {:induction false} VisitIsSafe(env: Env, t: nat, win32: bool, dir: string)
    ensures IsSafe(win32, dir, VisitOf(env, t, win32, dir))
  {
    hide Orphan, Owned, IsSafe;
    match env.owner(t)
    case None => OrphanIsSafe(env, t, win32, dir);
    case Some(pid) => OwnedIsSafe(env, t, win32, dir, pid);
  }

  // ----- the sweep

  datatype Finding = Finding(dir: string, visit: Visit)

  /** The visits in order, up to the first that threw. */
  datatype Sweep = Sweep(findings: seq<Finding>, threw: bool)

  function EventsOf(findings: seq<Finding>): seq<Event> {
    if findings == [] then [] else EventsOf(findings[..|findings| - 1]) + findings[|findings| - 1].visit.events
  }

  function SweepOf(env: Env, t: nat, win32: bool, own: string, entries: seq<Entry>): Sweep {
    if entries == [] then Sweep([], false)
    else
      var before, e := SweepOf(env, t, win32, own, entries[..|entries| - 1]), entries[|entries| - 1];
      if before.threw || !IsSibling(own, e) then before
      else
        var v := VisitOf(env, t + |EventsOf(before.findings)|, win32, e.name);
        Sweep(before.findings + [Finding(e.name, v)], v.status.None?)
  }

  /** Trace safety over any entries and any answers: every visit is to a sibling version's directory, every
      event of it is allowed by what was seen before, and its status is true; unless a removal throws, every
      sibling is visited. */
  lemma {:induction false} SweepIsSafe(env: Env, t: nat, win32: bool, own: string, entries: seq<Entry>)
    ensures var s := SweepOf(env, t, win32, own, entries);
            && (forall f :: f in s.findings ==> IsSafe(win32, f.dir, f.visit))
            && (forall f :: f in s.findings ==> IsSibling(own, Entry(f.dir, true)) && Entry(f.dir, true) in entries)
            && (!s.threw ==> forall f :: f in s.findings ==> f.visit.status.Some?)
            && (!s.threw ==>
                 forall e :: e in entries && IsSibling(own, e) ==> exists f :: f in s.findings && f.dir == e.name)
  {
    hide VisitOf, IsSafe, IsSibling, EventsOf;
    if entries != [] {
      var front, e := entries[..|entries| - 1], entries[|entries| - 1];
      SweepIsSafe(env, t, win32, own, front);
      var before := SweepOf(env, t, win32, own, front);
      assert entries == front + [e];
      if !before.threw && IsSibling(own, e) {
        VisitIsSafe(env, t + |EventsOf(before.findings)|, win32, e.name);
        SiblingIsDirectory(own, e);
        var s := SweepOf(env, t, win32, own, entries);
        assert s.findings[|s.findings| - 1] in s.findings && s.findings[|s.findings| - 1].dir == e.name;
        assert forall f :: f in before.findings ==> f in s.findings;
      }
    }
  }

  lemma SiblingIsDirectory(own: string, e: Entry)
    requires IsSibling(own, e)
    ensures e == Entry(e.name, true)
  {
  }

  lemma {:induction false} EventHasVisit(findings: seq<Finding>, e: Event)
    requires e in EventsOf(findings)
    ensures exists f :: f in findings && e in f.visit.events
  {
    var front, last := findings[..|findings| - 1], findings[|findings| - 1];
    if e in EventsOf(front) {
      EventHasVisit(front, e);
      var f :| f in front && e in f.visit.events;
      assert f in findings;
    } else {
      assert last in findings;
    }
  }

  /** Over any set of entries and any answers: the sweep's own directory is never removed, and whatever is
      removed is a version directory right under the base directory. */
  lemma {:induction false} OwnVersionStays(env: Env, t: nat, win32: bool, own: string, entries: seq<Entry>,
                                           dir: string, done: bool)
    requires Remove(dir, done) in EventsOf(SweepOf(env, t, win32, own, entries).findings)
    ensures dir != "v" + own && Entry(dir, true) in entries && IsVersionEntry(dir) && '/' !in dir && '\\' !in dir
  {
    hide SweepOf, EventsOf, IsVersionEntry;
    var s := SweepOf(env, t, win32, own, entries);
    SweepIsSafe(env, t, win32, own, entries);
    EventHasVisit(s.findings, Remove(dir, done));
    var f :| f in s.findings && Remove(dir, done) in f.visit.events;
    var i :| 0 <= i < |f.visit.events| && f.visit.events[i] == Remove(dir, done);
    assert Allowed(win32, f.dir, f.visit.events[..i], f.visit.events[i]);
    StaysInside(dir);
  }

  lemma {:induction false} StaysInside(name: string)
    requires IsVersionEntry(name)
    ensures '/' !in name && '\\' !in name
  {
  }

  /** A directory that is reported as spared or deferred is not touched anywhere in the sweep, and one that
      is reported as removed or terminated is gone. */
  lemma {:induction false} ReportIsTrue(env: Env, t: nat, win32: bool, own: string, entries: seq<Entry>, f: Finding)
    requires forall i, j :: 0 <= i < j < |entries| ==> entries[i].name != entries[j].name
    requires f in SweepOf(env, t, win32, own, entries).findings
    ensures var events := EventsOf(SweepOf(env, t, win32, own, entries).findings);
            && (f.visit.status == Some(Spared) || f.visit.status == Some(Deferred) ==>
                 forall done :: Remove(f.dir, done) !in events)
            && (f.visit.status == Some(Removed) || f.visit.status == Some(Terminated) ==> Remove(f.dir, true) in events)
  {
    hide SweepOf, EventsOf;
    var s := SweepOf(env, t, win32, own, entries);
    SweepIsSafe(env, t, win32, own, entries);
    DirsDiffer(env, t, win32, own, entries);
    forall done | Remove(f.dir, done) in EventsOf(s.findings)
      ensures f.visit.status != Some(Spared) && f.visit.status != Some(Deferred)
    {
      EventHasVisit(s.findings, Remove(f.dir, done));
      var g :| g in s.findings && Remove(f.dir, done) in g.visit.events;
      var i :| 0 <= i < |g.visit.events| && g.visit.events[i] == Remove(f.dir, done);
      assert Allowed(win32, g.dir, g.visit.events[..i], g.visit.events[i]);
      assert g == f;
    }
    if Remove(f.dir, true) in f.visit.events { VisitEventsListed(s.findings, f, Remove(f.dir, true)); }
  }

  lemma {:induction false} VisitEventsListed(findings: seq<Finding>, f: Finding, e: Event)
    requires f in findings && e in f.visit.events
    ensures e in EventsOf(findings)
  {
    var front, last := findings[..|findings| - 1], findings[|findings| - 1];
    assert findings == front + [last];
    if f != last { VisitEventsListed(front, f, e); }
  }

  lemma {:induction false} DirsDiffer(env: Env, t: nat, win32: bool, own: string, entries: seq<Entry>)
    requires forall i, j :: 0 <= i < j < |entries| ==> entries[i].name != entries[j].name
    ensures var s := SweepOf(env, t, win32, own, entries);
            forall f, g :: f in s.findings && g in s.findings && f.dir == g.dir ==> f == g
  {
    hide VisitOf, IsSibling, EventsOf, IsSafe;
    if entries != [] {
      var front, e := entries[..|entries| - 1], entries[|entries| - 1];
      DirsDiffer(env, t, win32, own, front);
      SweepIsSafe(env, t, win32, own, front);
      var before := SweepOf(env, t, win32, own, front);
      forall f | f in before.findings ensures f.dir != e.name {
        assert Entry(f.dir, true) in front;
        var i :| 0 <= i < |front| && front[i] == Entry(f.dir, true);
        assert entries[i].name != entries[|front|].name;
      }
    }
  }

  /** In a sweep, a directory whose owner was found alive and not seen to exit is removed exactly when its
      attested owner could not be sent a SIGTERM. */
  lemma {:induction false} LiveOwnerLosesDirectory(env: Env, t: nat, win32: bool, own: string, entries: seq<Entry>,
                                                   f: Finding)
    requires f in SweepOf(env, t, win32, own, entries).findings
    requires f.visit.events != [] && f.visit.events[|f.visit.events| - 1].Remove?
    ensures var past := f.visit.events[..|f.visit.events| - 1];
            FoundAlive(f.dir, past) && !ExitSeen(f.dir, past) <==> EndsRefused(past)
  {
    hide SweepOf, Lawful, StatusFits, FoundAlive, ExitSeen, EndsRefused;
    SweepIsSafe(env, t, win32, own, entries);
  }

  /** One such visit: the owner is alive and attested, and the signal is refused. */
  lemma {:induction false} RefusedSignalRemoves(dir: string) returns (env: Env)
    ensures VisitOf(env, 0, false, dir)
         == Visit(Attested(dir, 7) + [Signal(7, false, false), Remove(dir, true)], Some(Removed))
  {
    env := Env(_ => Some(7), _ => None, n => n != 3);
    assert [ReadOwner(dir, Some(7)), Probe(7, true)] + [Attest(7, true)] == Attested(dir, 7);
    assert Attested(dir, 7) + [Signal(7, false, false)] + [Remove(dir, true)]
        == Attested(dir, 7) + [Signal(7, false, false), Remove(dir, true)];
  }

  // ----- the code

  /** The operating system: answers from the environment, and the events so far. */
  class System {
    const env: Env
    var trace: seq<Event>

    constructor (env: Env)
      ensures this.env == env && trace == []
    {
      this.env := env;
      trace := [];
    }

    method OwnerOf(dir: string) returns (r: Option<int>)
      modifies this
      ensures r == env.owner(|old(trace)|) && trace == old(trace) + [ReadOwner(dir, r)]
    {
      r := env.owner(|trace|);
      trace := trace + [ReadOwner(dir, r)];
    }

    method LockPidOf(dir: string) returns (r: Option<int>)
      modifies this
      ensures r == env.holder(|old(trace)|) && trace == old(trace) + [ReadLock(dir, r)]
    {
      r := env.holder(|trace|);
      trace := trace + [ReadLock(dir, r)];
    }

    method IsAlive(pid: int) returns (r: bool)
      modifies this
      ensures r == env.yes(|old(trace)|) && trace == old(trace) + [Probe(pid, r)]
    {
      r := env.yes(|trace|);
      trace := trace + [Probe(pid, r)];
    }

    method AttestCli(pid: int) returns (r: bool)
      modifies this
      ensures r == env.yes(|old(trace)|) && trace == old(trace) + [Attest(pid, r)]
    {
      r := env.yes(|trace|);
      trace := trace + [Attest(pid, r)];
    }

    method SendSignal(pid: int, kill: bool) returns (r: bool)
      modifies this
      ensures r == env.yes(|old(trace)|) && trace == old(trace) + [Signal(pid, kill, r)]
    {
      r := env.yes(|trace|);
      trace := trace + [Signal(pid, kill, r)];
    }

    method WaitForExit(pid: int) returns (r: bool)
      modifies this
      ensures r == env.yes(|old(trace)|) && trace == old(trace) + [Wait(pid, r)]
    {
      r := env.yes(|trace|);
      trace := trace + [Wait(pid, r)];
    }

    method RemoveDir(dir: string) returns (r: bool)
      modifies this
      ensures r == env.yes(|old(trace)|) && trace == old(trace) + [Remove(dir, r)]
    {
      r := env.yes(|trace|);
      trace := trace + [Remove(dir, r)];
    }

    /** Removes the directory and reports, or fails. */
    method Retire(dir: string, status: Status, ghost start: nat, ghost events: seq<Event>) returns (r: Option<Status>)
      requires start <= |trace| && trace == trace[..start] + events
      modifies this
      ensures var v := Removing(env, start, dir, events, status);
              trace == old(trace)[..start] + v.events && r == v.status
    {
      ghost var before := trace[..start];
      var done := RemoveDir(dir);
      assert trace == before + (events + [Remove(dir, done)]);
      r := if done then Some(status) else None;
    }

    /** `terminateAttestedOwner`, behind the three questions of its caller. */
    method TerminateAttestedOwner(dir: string, pid: int, ghost start: nat, ghost events: seq<Event>)
      returns (status: Option<Status>)
      requires start <= |trace| && trace == trace[..start] + events
      modifies this
      ensures var v := Ended(env, start, dir, pid, events);
              trace == old(trace)[..start] + v.events && status == v.status
    {
      hide Removing, Forced;
      ghost var before := trace[..start];
      var sent := SendSignal(pid, false);
      ghost var asked := events + [Signal(pid, false, sent)];
      assert trace == before + asked && trace[..start] == before;
      if !sent {
        status := Retire(dir, Removed, start, asked);
        return;
      }
      var exited := WaitForExit(pid);
      ghost var waited := asked + [Wait(pid, exited)];
      assert trace == before + waited && trace[..start] == before;
      if exited {
        status := Retire(dir, Terminated, start, waited);
      } else {
        status := EscalateToKill(dir, pid, start, waited);
      }
    }

    method EscalateToKill(dir: string, pid: int, ghost start: nat, ghost waited: seq<Event>)
      returns (status: Option<Status>)
      requires start <= |trace| && trace == trace[..start] + waited
      modifies this
      ensures var v := Forced(env, start, dir, pid, waited);
              trace == old(trace)[..start] + v.events && status == v.status
    {
      hide Removing;
      ghost var before := trace[..start];
      var killed := SendSignal(pid, true);
      ghost var forced := waited + [Signal(pid, true, killed)];
      assert trace == before + forced;
      if !killed { return Some(Deferred); }
      var gone := WaitForExit(pid);
      ghost var over := forced + [Wait(pid, gone)];
      assert trace == before + over && trace[..start] == before;
      if !gone { return Some(Deferred); }
      status := Retire(dir, Terminated, start, over);
    }

    /** `reapOneVersion`. */
    method ReapOneVersion(win32: bool, dir: string) returns (status: Option<Status>)
      modifies this
      ensures var v := VisitOf(env, |old(trace)|, win32, dir);
              trace == old(trace) + v.events && status == v.status
    {
      hide Ended;
      ghost var start := |trace|;
      var owner := OwnerOf(dir);
      if owner.None? {
        var holder := LockPidOf(dir);
        if holder.Some? {
          var held := IsAlive(holder.value);
          if held { return Some(Spared); }
        }
        var done := RemoveDir(dir);
        return if done then Some(Removed) else None;
      }
      var alive := IsAlive(owner.value);
      if !alive {
        var done := RemoveDir(dir);
        return if done then Some(Removed) else None;
      }
      if win32 { return Some(Deferred); }
      var attested := AttestCli(owner.value);
      if !attested { return Some(Spared); }
      ghost var events := [ReadOwner(dir, owner), Probe(owner.value, true)] + [Attest(owner.value, true)];
      assert trace == old(trace) + events && trace[..start] == old(trace);
      status := TerminateAttestedOwner(dir, owner.value, start, events);
    }

    /** `reapStaleDaemonVersions` on the sorted directory entries. */
    method ReapStaleDaemonVersions(win32: bool, own: string, entries: seq<Entry>)
      returns (r: Option<seq<(string, Status)>>, ghost sweep: Sweep)
      modifies this
      ensures sweep == SweepOf(env, |old(trace)|, win32, own, entries)
      ensures trace == old(trace) + EventsOf(sweep.findings)
      ensures r.None? <==> sweep.threw
      ensures r.Some? ==> Reports(r.value, sweep.findings)
    {
      hide VisitOf, IsSibling, EventsOf, SweepOf, Reports;
      NoEvents();
      NoReports(env, |trace|, win32, own);
      assert entries[..0] == [];
      var results: seq<(string, Status)> := [];
      sweep := Sweep([], false);
      var i := 0;
      while i < |entries|
        invariant 0 <= i <= |entries| && !sweep.threw
        invariant sweep == SweepOf(env, |old(trace)|, win32, own, entries[..i])
        invariant trace == old(trace) + EventsOf(sweep.findings)
        invariant Reports(results, sweep.findings)
      {
        var e := entries[i];
        SweepSnoc(env, |old(trace)|, win32, own, entries, i);
        if IsSibling(own, e) {
          SiblingNameStarts(own, e);
          ghost var v := VisitOf(env, |trace|, win32, e.name);
          var status := ReapOneVersion(win32, e.name);
          EventsSnoc(sweep.findings, Finding(e.name, v));
          sweep := Sweep(sweep.findings + [Finding(e.name, v)], status.None?);
          if status.None? {
            SweepStops(env, |old(trace)|, win32, own, entries, i + 1);
            return None, sweep;
          }
          ReportsSnoc(results, sweep.findings[..|sweep.findings| - 1], e.name[1..], v, status.value);
          results := results + [(e.name[1..], status.value)];
        }
        i := i + 1;
      }
      assert entries[..i] == entries;
      r := Some(results);
    }
  }

  /** The result list names each visited version and its status. */
  predicate Reports(results: seq<(string, Status)>, findings: seq<Finding>) {
    && |results| == |findings|
    && forall i :: 0 <= i < |results| ==>
         "v" + results[i].0 == findings[i].dir && Some(results[i].1) == findings[i].visit.status
  }

  lemma NoReports(env: Env, t: nat, win32: bool, own: string)
    ensures Reports([], []) && SweepOf(env, t, win32, own, []) == Sweep([], false)
  {
  }

  lemma {:induction false} ReportsSnoc(results: seq<(string, Status)>, findings: seq<Finding>, version: string,
                                       v: Visit, status: Status)
    requires Reports(results, findings) && v.status == Some(status)
    ensures Reports(results + [(version, status)], findings + [Finding("v" + version, v)])
  {
  }

  lemma {:induction false} SweepSnoc(env: Env, t: nat, win32: bool, own: string, entries: seq<Entry>, i: nat)
    requires i < |entries|
    ensures var before, e := SweepOf(env, t, win32, own, entries[..i]), entries[i];
            SweepOf(env, t, win32, own, entries[..i + 1]) ==
            if before.threw || !IsSibling(own, e) then before
            else
              var v := VisitOf(env, t + |EventsOf(before.findings)|, win32, e.name);
              Sweep(before.findings + [Finding(e.name, v)], v.status.None?)
  {
    hide VisitOf, IsSibling, EventsOf;
    assert entries[..i + 1][..i] == entries[..i];
  }

  lemma NoEvents()
    ensures EventsOf([]) == []
  {
  }

  lemma SiblingNameStarts(own: string, e: Entry)
    requires IsSibling(own, e)
    ensures e.name != "" && "v" + e.name[1..] == e.name
  {
  }

  lemma {:induction false} EventsSnoc(findings: seq<Finding>, f: Finding)
    ensures EventsOf(findings + [f]) == EventsOf(findings) + f.visit.events
  {
    assert (findings + [f])[..|findings|] == findings;
  }

  lemma {:induction false} SweepStops(env: Env, t: nat, win32: bool, own: string, entries: seq<Entry>, k: nat)
    requires k <= |entries| && SweepOf(env, t, win32, own, entries[..k]).threw
    ensures SweepOf(env, t, win32, own, entries) == SweepOf(env, t, win32, own, entries[..k])
  {
    hide VisitOf, IsSibling, EventsOf;
    if k < |entries| {
      var front := entries[..|entries| - 1];
      assert front[..k] == entries[..k];
      SweepStops(env, t, win32, own, front, k);
    } else {
      assert entries[..k] == entries;
    }
  }
}
