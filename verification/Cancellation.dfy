/** Cancellation bookkeeping of one daemon connection: the `activeRequests` map of
    packages/lsp-daemon/src/request-routing.ts and its use in daemon-server.ts.
    Requests are numbered in the order they start; a request's number stands for its AbortController.
    A request whose id is null or missing has no key: it runs without a controller and without an entry. */
module Cancellation {
  import opened Text

  datatype Event = Start(key: Option<string>) | Finish(request: nat) | Cancel(target: string)

  /** `keys[r]` is the key of request `r`, if it has one. */
  datatype State = State(active: map<string, nat>, keys: seq<Option<string>>, finished: set<nat>, aborted: set<nat>)

  const INIT := State(map[], [], {}, {})

  predicate Enabled(s: State, e: Event) {
    e.Finish? ==> e.request < |s.keys| && e.request !in s.finished
  }

  function Entered(active: map<string, nat>, key: Option<string>, r: nat): map<string, nat> {
    if key.Some? then active[key.value := r] else active
  }

  function Left(active: map<string, nat>, key: Option<string>, r: nat): map<string, nat> {
    if key.Some? && key.value in active && active[key.value] == r then active - {key.value} else active
  }

  function Step(s: State, e: Event): State
    requires Enabled(s, e)
  {
    match e
    case Start(key) => s.(active := Entered(s.active, key, |s.keys|), keys := s.keys + [key])
    case Finish(r) => s.(active := Left(s.active, s.keys[r], r), finished := s.finished + {r})
    case Cancel(target) =>
      if target in s.active then s.(aborted := s.aborted + {s.active[target]}) else s
  }

  /** Closing the socket aborts every controller still in the map. */
  function Close(s: State): State { s.(active := map[], aborted := s.aborted + s.active.Values) }

  /** The state after some events; an event that is not enabled does nothing. */
  ghost function Run(events: seq<Event>): State {
    if events == [] then INIT
    else
      var before := Run(events[..|events| - 1]);
      if Enabled(before, events[|events| - 1]) then Step(before, events[|events| - 1]) else before
  }

  ghost predicate ValidRun(events: seq<Event>) {
    events == [] || (ValidRun(events[..|events| - 1]) && Enabled(Run(events[..|events| - 1]), events[|events| - 1]))
  }

  // ----- what the map means

  predicate HasKey(s: State, r: nat) { r < |s.keys| && s.keys[r].Some? }

  /** `r` is the last request started with its key. */
  predicate Latest(s: State, r: nat) {
    HasKey(s, r) && forall q :: r < q < |s.keys| ==> s.keys[q] != s.keys[r]
  }

  predicate InFlight(s: State, r: nat) { r < |s.keys| && r !in s.finished }

  predicate Holds(s: State, key: string, r: nat) { key in s.active && s.active[key] == r }

  predicate Owns(s: State, key: string, r: nat) { Latest(s, r) && InFlight(s, r) && s.keys[r] == Some(key) }

  /** An entry exists for a key exactly when the latest request with that key is unfinished, and is that request. */
  ghost predicate Exact(s: State) {
    && (forall key, r: nat :: Holds(s, key, r) <==> Owns(s, key, r))
    && (forall r :: r in s.finished ==> r < |s.keys|)
  }

  lemma {:induction false} StartKeeps(s: State, key: Option<string>, k: string, r: nat)
    requires Exact(s)
    ensures var t := Step(s, Start(key)); Holds(t, k, r) <==> Owns(t, k, r)
  {
    var t, n := Step(s, Start(key)), |s.keys|;
    assert Holds(s, k, r) <==> Owns(s, k, r);
    assert t.keys[n] == key && forall q :: 0 <= q < n ==> t.keys[q] == s.keys[q];
    if r < n {
      assert HasKey(t, r) <==> HasKey(s, r);
      assert Latest(t, r) <==> Latest(s, r) && s.keys[r] != key;
    }
  }

  lemma {:induction false} FinishKeeps(s: State, f: nat, k: string, r: nat)
    requires Exact(s) && Enabled(s, Finish(f))
    ensures var t := Step(s, Finish(f)); Holds(t, k, r) <==> Owns(t, k, r)
  {
    var t, key := Step(s, Finish(f)), s.keys[f];
    assert Holds(s, k, r) <==> Owns(s, k, r);
    if key.Some? { assert Holds(s, key.value, f) <==> Owns(s, key.value, f); }
    assert HasKey(t, r) <==> HasKey(s, r);
    assert Latest(t, r) <==> Latest(s, r);
  }

  lemma {:induction false} StepKeepsExact(s: State, e: Event)
    requires Exact(s) && Enabled(s, e)
    ensures Exact(Step(s, e))
  {
    var t := Step(s, e);
    forall k, r: nat ensures Holds(t, k, r) <==> Owns(t, k, r) {
      match e
      case Start(key) => StartKeeps(s, key, k, r);
      case Finish(f) => FinishKeeps(s, f, k, r);
      case Cancel(_) =>
        assert Holds(s, k, r) <==> Owns(s, k, r);
        assert HasKey(t, r) <==> HasKey(s, r);
        assert Latest(t, r) <==> Latest(s, r);
    }
  }

  /** Over every interleaving of starts, finishes and cancels, with reused and missing keys. */
  lemma {:induction false} MapIsExact(events: seq<Event>)
    requires ValidRun(events)
    ensures Exact(Run(events))
  {
    if events != [] {
      MapIsExact(events[..|events| - 1]);
      StepKeepsExact(Run(events[..|events| - 1]), events[|events| - 1]);
    }
  }

  /** The map is empty exactly when every request that is the latest with its key has finished. */
  lemma {:induction false} EmptyWhenIdle(events: seq<Event>)
    requires ValidRun(events)
    ensures Run(events).active == map[] <==> forall r: nat :: Latest(Run(events), r) ==> !InFlight(Run(events), r)
  {
    hide Run, Latest, InFlight;
    MapIsExact(events);
    var s := Run(events);
    forall r: nat | Latest(s, r) && InFlight(s, r) ensures s.active != map[] {
      LatestHasKey(s, r);
      assert Owns(s, s.keys[r].value, r);
      assert Holds(s, s.keys[r].value, r);
    }
    forall key | key in s.active ensures Latest(s, s.active[key]) && InFlight(s, s.active[key]) {
      assert Holds(s, key, s.active[key]);
      assert Owns(s, key, s.active[key]);
    }
  }

  lemma LatestHasKey(s: State, r: nat)
    requires Latest(s, r)
    ensures HasKey(s, r)
  {
  }

  /** A cancel aborts exactly the latest request with that key, if it is still running. */
  lemma {:induction false} CancelHitsLatest(events: seq<Event>, target: string, r: nat)
    requires ValidRun(events) && r !in Run(events).aborted
    ensures r in Step(Run(events), Cancel(target)).aborted <==> Owns(Run(events), target, r)
  {
    hide Run;
    MapIsExact(events);
    assert Holds(Run(events), target, r) <==> Owns(Run(events), target, r);
  }

  /** Closing reaches a running request that was not cancelled before exactly when it has a key and no
      newer request, finished or not, took that key over. */
  lemma {:induction false} CloseHitsLatest(events: seq<Event>, r: nat)
    requires ValidRun(events) && InFlight(Run(events), r) && r !in Run(events).aborted
    ensures r in Close(Run(events)).aborted <==> Latest(Run(events), r)
  {
    hide Run;
    MapIsExact(events);
    var s := Run(events);
    if HasKey(s, r) { assert Holds(s, s.keys[r].value, r) <==> Owns(s, s.keys[r].value, r); }
    if r in s.active.Values {
      var key :| key in s.active && s.active[key] == r;
      assert Holds(s, key, r) && Owns(s, key, r);
    }
  }

  /** So closing leaves no running request alive if and only if each of them that was not cancelled before
      has a key and is the latest request with it. */
  lemma {:induction false} CloseAbortsAllExactly(events: seq<Event>)
    requires ValidRun(events)
    ensures (forall r: nat :: InFlight(Run(events), r) ==> r in Close(Run(events)).aborted)
        <==> (forall r: nat :: InFlight(Run(events), r) && r !in Run(events).aborted ==>
               HasKey(Run(events), r) && Latest(Run(events), r))
  {
    hide Run;
    var s := Run(events);
    forall r: nat | InFlight(s, r) && r !in s.aborted
      ensures r in Close(s).aborted <==> Latest(s, r)
    {
      CloseHitsLatest(events, r);
    }
  }

  ghost predicate DistinctInFlight(s: State) {
    forall p: nat, q: nat :: InFlight(s, p) && InFlight(s, q) && HasKey(s, p) && s.keys[p] == s.keys[q] ==> p == q
  }

  /** Distinct keys among the running requests are not enough: a newer request with the same id that
      already finished has taken the older one's entry with it, and closing then misses the older one. */
  lemma {:induction false} ReusedIdEscapesClose() returns (events: seq<Event>)
    ensures ValidRun(events) && DistinctInFlight(Run(events))
    ensures InFlight(Run(events), 0) && 0 !in Close(Run(events)).aborted
  {
    hide Run, ValidRun;
    var key := Some("1");
    events := [];
    NoEvents();
    RunSnoc(events, Start(key));
    events := events + [Start(key)];
    assert Run(events) == State(map["1" := 0], [key], {}, {});
    RunSnoc(events, Start(key));
    events := events + [Start(key)];
    assert Run(events) == State(map["1" := 1], [key, key], {}, {});
    RunSnoc(events, Finish(1));
    events := events + [Finish(1)];
    assert Run(events).active == map[];
  }

  lemma NoEvents()
    ensures ValidRun([]) && Run([]) == INIT
  {
  }

  lemma {:induction false} RunSnoc(events: seq<Event>, e: Event)
    requires ValidRun(events) && Enabled(Run(events), e)
    ensures ValidRun(events + [e]) && Run(events + [e]) == Step(Run(events), e)
  {
    hide Step, Enabled;
    var all := events + [e];
    assert all[..|all| - 1] == events;
  }

  /** A request without an id is never in the map, so no cancel and no close reaches it, in any run. */
  lemma {:induction false} NoKeyNoAbort(events: seq<Event>, r: nat)
    requires ValidRun(events) && r < |Run(events).keys| && !HasKey(Run(events), r)
    ensures r !in Run(events).aborted && r !in Close(Run(events)).aborted
  {
    var s := Run(events);
    MapIsExact(events);
    if events != [] {
      var front, last := events[..|events| - 1], events[|events| - 1];
      var before := Run(front);
      MapIsExact(front);
      if r < |before.keys| {
        NoKeyNoAbort(front, r);
      } else {
        AbortedHaveStarted(front, r);
      }
      if last.Cancel? && last.target in before.active {
        assert Holds(before, last.target, before.active[last.target]);
        assert Owns(before, last.target, before.active[last.target]);
      }
    }
    forall key | key in s.active ensures s.active[key] != r {
      assert Holds(s, key, s.active[key]);
      assert Owns(s, key, s.active[key]);
    }
  }

  lemma {:induction false} AbortedHaveStarted(events: seq<Event>, r: nat)
    requires ValidRun(events) && r >= |Run(events).keys|
    ensures r !in Run(events).aborted
  {
    if events != [] {
      var front, last := events[..|events| - 1], events[|events| - 1];
      AbortedHaveStarted(front, r);
      MapIsExact(front);
      var before := Run(front);
      if last.Cancel? && last.target in before.active {
        assert Holds(before, last.target, before.active[last.target]);
        assert Owns(before, last.target, before.active[last.target]);
      }
    }
  }

  /** The other way to escape: one running request, sent without an id. */
  lemma {:induction false} RequestWithoutIdEscapesClose() returns (events: seq<Event>)
    ensures ValidRun(events) && (forall r: nat :: InFlight(Run(events), r) ==> r == 0)
    ensures InFlight(Run(events), 0) && 0 !in Close(Run(events)).aborted
  {
    events := [Start(None)];
    assert events[..0] == [] && ValidRun([]);
    assert Run(events) == State(map[], [None], {}, {});
  }

  // ----- the handlers

  /** The controllers of all keys but `rest`. */
  function Values(active: map<string, nat>, rest: set<string>): set<nat> {
    set key | key in active && key !in rest :: active[key]
  }

  lemma ValuesOfNone(active: map<string, nat>)
    ensures Values(active, active.Keys) == {}
  {
  }

  lemma {:induction false} ValuesGrow(active: map<string, nat>, rest: set<string>, key: string)
    requires key in rest && key in active
    ensures Values(active, rest - {key}) == Values(active, rest) + {active[key]}
  {
    assert forall k :: k !in rest - {key} <==> k !in rest || k == key;
  }

  lemma {:induction false} AllValues(active: map<string, nat>)
    ensures Values(active, {}) == active.Values
  {
    assert forall k :: k in active ==> active[k] in active.Values;
  }

  /** One connection: the map, the abort flags, and the history the map is judged by. */
  class Connection {
    var activeRequests: map<string, nat>
    var aborted: set<nat>
    var next: nat
    ghost var keys: seq<Option<string>>
    ghost var finished: set<nat>

    ghost predicate Valid()
      reads this
    {
      next == |keys| && Exact(View())
    }

    ghost function View(): State
      reads this
    {
      State(activeRequests, keys, finished, aborted)
    }

    constructor ()
      ensures Valid() && View() == INIT
    {
      activeRequests, aborted, next, keys, finished := map[], {}, 0, [], {};
    }

    /** A request arrives; with a key it gets a controller and an entry, without one only its number. */
    method Register(key: Option<string>) returns (controller: nat)
      requires Valid()
      modifies this
      ensures Valid() && View() == Step(old(View()), Start(key)) && controller == old(next)
    {
      StepKeepsExact(View(), Start(key));
      controller := next;
      if key.Some? { activeRequests := activeRequests[key.value := controller]; }
      next, keys := next + 1, keys + [key];
    }

    /** The `finally` of a request: only its own entry is removed. */
    method Finished(key: Option<string>, controller: nat)
      requires Valid() && controller < next && keys[controller] == key && controller !in finished
      modifies this
      ensures Valid() && View() == Step(old(View()), Finish(controller))
    {
      StepKeepsExact(View(), Finish(controller));
      if key.Some? && key.value in activeRequests && activeRequests[key.value] == controller {
        activeRequests := activeRequests - {key.value};
      }
      finished := finished + {controller};
    }

    /** `$/cancelRequest`. */
    method CancelRequest(target: string)
      requires Valid()
      modifies this
      ensures Valid() && View() == Step(old(View()), Cancel(target))
    {
      StepKeepsExact(View(), Cancel(target));
      if target in activeRequests { aborted := aborted + {activeRequests[target]}; }
    }

    /** The socket's "close" handler. */
    method CloseSocket()
      requires Valid()
      modifies this
      ensures View() == Close(old(View()))
    {
      hide Exact, Values;
      ValuesOfNone(activeRequests);
      var rest := activeRequests.Keys;
      while rest != {}
        invariant rest <= activeRequests.Keys
        invariant View() == old(View()).(aborted := aborted)
        invariant aborted == old(aborted) + Values(activeRequests, rest)
        decreases |rest|
      {
        var key :| key in rest;
        ValuesGrow(activeRequests, rest, key);
        aborted := aborted + {activeRequests[key]};
        rest := rest - {key};
      }
      AllValues(activeRequests);
      activeRequests := map[];
    }
  }
}
