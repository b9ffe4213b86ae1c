/** The bounded-parallel build scheduler `runGraph` of script/build.ts.
    Child processes are an environment that settles running nodes in any order. */
module Scheduler {
  import opened Text

  datatype Node = Node(id: string, deps: seq<string>)

  /** The `byId` map, reduced to dependencies: the last node with an id wins. */
  type Graph = map<string, seq<string>>

  datatype Event = Started(id: string) | Finished(id: string) | Failed(id: string)

  datatype Outcome = Completed | Stuck(pending: seq<string>) | Rejected(id: string)

  datatype Settlement = Settlement(id: string, ok: bool)

  /** Which unsettled nodes settle, and how, while the `n`-th await lasts. */
  type Environment = (nat, set<string>) -> seq<Settlement>

  ghost predicate Plausible(batch: seq<Settlement>, unsettled: set<string>) {
    && batch != []
    && (forall i :: 0 <= i < |batch| ==> batch[i].id in unsettled)
    && (forall i, j :: 0 <= i < j < |batch| ==> batch[i].id != batch[j].id)
  }

  ghost predicate PlausibleEnvironment(env: Environment) {
    forall n: nat, unsettled: set<string> :: unsettled != {} ==> Plausible(env(n, unsettled), unsettled)
  }

  function ById(nodes: seq<Node>): (g: Graph)
    ensures forall n :: n in nodes ==> n.id in g
    ensures g.Keys == set n | n in nodes :: n.id
  {
    if nodes == [] then map[]
    else
      var last := nodes[|nodes| - 1];
      assert nodes == nodes[..|nodes| - 1] + [last];
      ById(nodes[..|nodes| - 1])[last.id := last.deps]
  }

  // ----- legal traces

  function StartedIn(t: seq<Event>): set<string> { set e | e in t && e.Started? :: e.id }
  function FinishedIn(t: seq<Event>): set<string> { set e | e in t && e.Finished? :: e.id }
  function FailedIn(t: seq<Event>): set<string> { set e | e in t && e.Failed? :: e.id }

  /** Nodes in the `running` map: a rejected node is never taken out of it. */
  function RunningIn(t: seq<Event>): set<string> { StartedIn(t) - FinishedIn(t) }

  predicate AllIn(deps: seq<string>, done: set<string>) {
    forall d :: d in deps ==> d in done
  }

  ghost predicate LegalEvent(g: Graph, limit: nat, before: seq<Event>, e: Event) {
    match e
    case Started(x) =>
      x in g && x !in StartedIn(before) && AllIn(g[x], FinishedIn(before)) && |RunningIn(before)| < limit
    case Finished(x) => x in RunningIn(before) && x !in FailedIn(before)
    case Failed(x) => x in RunningIn(before) && x !in FailedIn(before)
  }

  /** Every event of the trace was legal when it happened. */
  ghost predicate Legal(g: Graph, limit: nat, t: seq<Event>) {
    t == [] || (Legal(g, limit, t[..|t| - 1]) && LegalEvent(g, limit, t[..|t| - 1], t[|t| - 1]))
  }

  lemma {:induction false} EventSets(t: seq<Event>, e: Event)
    ensures StartedIn(t + [e]) == StartedIn(t) + (if e.Started? then {e.id} else {})
    ensures FinishedIn(t + [e]) == FinishedIn(t) + (if e.Finished? then {e.id} else {})
    ensures FailedIn(t + [e]) == FailedIn(t) + (if e.Failed? then {e.id} else {})
  {
    var u := t + [e];
    assert forall x :: x in u <==> x in t || x == e;
    assert forall x :: x in StartedIn(u) <==> Started(x) in u;
    assert forall x :: x in FinishedIn(u) <==> Finished(x) in u;
    assert forall x :: x in FailedIn(u) <==> Failed(x) in u;
  }

  lemma {:induction false} LegalSnoc(g: Graph, limit: nat, t: seq<Event>, e: Event)
    requires Legal(g, limit, t) && LegalEvent(g, limit, t, e)
    ensures Legal(g, limit, t + [e])
  {
    hide LegalEvent;
    assert (t + [e])[..|t|] == t;
  }

  lemma {:induction false} LegalPrefix(g: Graph, limit: nat, t: seq<Event>, i: nat)
    requires Legal(g, limit, t) && i <= |t|
    ensures Legal(g, limit, t[..i])
  {
    hide LegalEvent;
    if i == |t| {
      assert t[..i] == t;
    } else {
      var front := t[..|t| - 1];
      LegalPrefix(g, limit, front, i);
      assert front[..i] == t[..i];
    }
  }

  lemma {:induction false} LegalAt(g: Graph, limit: nat, t: seq<Event>, i: nat)
    requires Legal(g, limit, t) && i < |t|
    ensures LegalEvent(g, limit, t[..i], t[i])
  {
    hide LegalEvent;
    LegalPrefix(g, limit, t, i + 1);
    assert t[..i + 1][..i] == t[..i];
  }

  lemma {:induction false} StartsOnce(g: Graph, limit: nat, t: seq<Event>, i: nat, j: nat)
    requires Legal(g, limit, t) && i < j < |t| && t[i].Started?
    ensures t[j] != t[i]
  {
    assert t[..j][i] == t[i];
    LegalAt(g, limit, t, j);
  }

  lemma {:induction false} FinishedWasStarted(g: Graph, limit: nat, t: seq<Event>, d: string)
    requires Legal(g, limit, t) && Finished(d) in t
    ensures Started(d) in t
  {
    var k :| 0 <= k < |t| && t[k] == Finished(d);
    LegalAt(g, limit, t, k);
    assert d in StartedIn(t[..k]);
    assert Started(d) in t[..k];
  }

  /** A node starts only after all its dependencies have started and finished. */
  lemma {:induction false} DependenciesFirst(g: Graph, limit: nat, t: seq<Event>, i: nat, d: string)
    requires Legal(g, limit, t) && i < |t| && t[i].Started? && t[i].id in g && d in g[t[i].id]
    ensures Finished(d) in t[..i] && Started(d) in t[..i]
  {
    LegalAt(g, limit, t, i);
    assert d in FinishedIn(t[..i]);
    assert Finished(d) in t[..i];
    LegalPrefix(g, limit, t, i);
    FinishedWasStarted(g, limit, t[..i], d);
  }

  lemma {:induction false} FailedNeverFinishes(g: Graph, limit: nat, t: seq<Event>, i: nat, j: nat)
    requires Legal(g, limit, t) && i < |t| && j < |t| && t[i].Failed?
    ensures t[j] != Finished(t[i].id)
  {
    hide Legal, AllIn;
    var x := t[i].id;
    if i < j {
      assert t[..j][i] == Failed(x);
      assert x in FailedIn(t[..j]);
      LegalAt(g, limit, t, j);
    } else {
      assert j < i ==> t[..i][j] == t[j];
      assert j < i && t[j] == Finished(x) ==> x in FinishedIn(t[..i]);
      LegalAt(g, limit, t, i);
    }
  }

  /** Dependents of a failed node never start. */
  lemma {:induction false} FailedBlocksDependents(g: Graph, limit: nat, t: seq<Event>, d: string, x: string)
    requires Legal(g, limit, t) && Failed(d) in t && x in g && d in g[x]
    ensures Started(x) !in t
  {
    if Started(x) in t {
      var i :| 0 <= i < |t| && t[i] == Started(x);
      DependenciesFirst(g, limit, t, i, d);
      var j :| 0 <= j < i && t[j] == Finished(d);
      var k :| 0 <= k < |t| && t[k] == Failed(d);
      FailedNeverFinishes(g, limit, t, k, j);
    }
  }

  lemma {:induction false} RunningSnoc(t: seq<Event>, e: Event)
    ensures RunningIn(t + [e]) <= RunningIn(t) + {e.id}
    ensures !e.Started? ==> RunningIn(t + [e]) <= RunningIn(t)
  {
    hide StartedIn, FinishedIn, FailedIn;
    EventSets(t, e);
  }

  lemma {:induction false} RunningStep(g: Graph, limit: nat, t: seq<Event>, e: Event)
    requires LegalEvent(g, limit, t, e) && |RunningIn(t)| <= limit
    ensures |RunningIn(t + [e])| <= limit
  {
    RunningSnoc(t, e);
    hide RunningIn;
    if e.Started? {
      assert |RunningIn(t) + {e.id}| <= |RunningIn(t)| + 1;
      CardinalityOfSubset(RunningIn(t + [e]), RunningIn(t) + {e.id});
    } else {
      CardinalityOfSubset(RunningIn(t + [e]), RunningIn(t));
    }
  }

  lemma {:induction false} NothingRunsYet()
    ensures StartedIn([]) == {} && FinishedIn([]) == {} && FailedIn([]) == {} && RunningIn([]) == {}
  {
  }

  /** At every moment at most `limit` nodes are in the running map. */
  lemma {:induction false} LimitHolds(g: Graph, limit: nat, t: seq<Event>)
    requires Legal(g, limit, t)
    ensures |RunningIn(t)| <= limit
  {
    hide RunningIn, LegalEvent, Legal;
    if t == [] {
      NothingRunsYet();
    } else {
      var before, e := t[..|t| - 1], t[|t| - 1];
      LegalPrefix(g, limit, t, |t| - 1);
      LimitHolds(g, limit, before);
      LegalAt(g, limit, t, |t| - 1);
      assert t == before + [e];
      RunningStep(g, limit, before, e);
    }
  }

  lemma {:induction false} CardinalityOfSubset<T>(a: set<T>, b: set<T>)
    requires a <= b
    ensures |a| <= |b|
    ensures |a| == |b| ==> a == b
  {
    assert |b| == |a| + |b - a| by { assert a + (b - a) == b; }
    if |b - a| == 0 { assert b - a == {}; assert a == b; }
  }

  // ----- dependency cones

  predicate Edge(g: Graph, x: string, d: string) {
    x in g && d in g[x]
  }

  /** A chain of dependencies, each node but the last one in the graph. */
  ghost predicate IsPath(g: Graph, p: seq<string>) {
    && p != []
    && forall i, j :: 0 <= i < j < |p| && j == i + 1 ==> Edge(g, p[i], p[j])
  }

  ghost predicate Distinct<T>(s: seq<T>) {
    forall i, j :: 0 <= i < j < |s| ==> s[i] != s[j]
  }

  /** Everything `x` depends on, directly or not, is in the graph, and no chain runs in a circle. */
  ghost predicate SoundCone(g: Graph, x: string) {
    forall p :: IsPath(g, p) && p[0] == x ==> p[|p| - 1] in g && Distinct(p)
  }

  ghost function SoundNodes(g: Graph): set<string> {
    set x | x in g && SoundCone(g, x)
  }

  /** Along a chain from a started node, every node started, each one earlier. */
  lemma {:induction false} StartTimesFall(g: Graph, limit: nat, t: seq<Event>, p: seq<string>, n: nat)
    returns (times: seq<nat>)
    requires Legal(g, limit, t) && IsPath(g, p) && Started(p[0]) in t && n < |p|
    ensures |times| == n + 1
    ensures forall i :: 0 <= i <= n ==> times[i] < |t| && t[times[i]] == Started(p[i])
    ensures forall i, j :: 0 <= i < j <= n ==> times[j] < times[i]
  {
    hide Legal;
    if n == 0 {
      var k :| 0 <= k < |t| && t[k] == Started(p[0]);
      times := [k];
    } else {
      times := StartTimesFall(g, limit, t, p, n - 1);
      var k := times[n - 1];
      assert Edge(g, p[n - 1], p[n]);
      DependenciesFirst(g, limit, t, k, p[n]);
      var m :| 0 <= m < k && t[..k][m] == Started(p[n]);
      assert t[m] == Started(p[n]);
      times := times + [m];
    }
  }

  /** A node that started has a sound cone. */
  lemma {:induction false} StartedIsSound(g: Graph, limit: nat, t: seq<Event>, x: string)
    requires Legal(g, limit, t) && Started(x) in t
    ensures x in SoundNodes(g)
  {
    hide Legal;
    forall p | IsPath(g, p) && p[0] == x ensures p[|p| - 1] in g && Distinct(p) {
      var times := StartTimesFall(g, limit, t, p, |p| - 1);
      forall i, j | 0 <= i < j < |p| ensures p[i] != p[j] { StartsOnce(g, limit, t, times[j], times[i]); }
      StartedInGraph(g, limit, t, times[|p| - 1]);
    }
    var k :| 0 <= k < |t| && t[k] == Started(x);
    StartedInGraph(g, limit, t, k);
  }

  lemma {:induction false} StartedInGraph(g: Graph, limit: nat, t: seq<Event>, i: nat)
    requires Legal(g, limit, t) && i < |t| && t[i].Started?
    ensures t[i].id in g
  {
    LegalAt(g, limit, t, i);
  }

  ghost predicate NoneReady(g: Graph, done: set<string>) {
    forall x :: x in g && x !in done ==> !AllIn(g[x], done)
  }

  /** From an undone node with a sound cone, undone chains of any length start. */
  lemma {:induction false} UndoneChain(g: Graph, done: set<string>, x: string, n: nat) returns (p: seq<string>)
    requires x in g && x !in done && SoundCone(g, x) && NoneReady(g, done)
    ensures IsPath(g, p) && p[0] == x && |p| == n + 1
    ensures forall y :: y in p ==> y in g.Keys - done
  {
    if n == 0 {
      p := [x];
    } else {
      var q := UndoneChain(g, done, x, n - 1);
      var last := q[|q| - 1];
      assert last in q && !AllIn(g[last], done);
      var d :| d in g[last] && d !in done;
      p := q + [d];
      forall i, j | 0 <= i < j < |p| && j == i + 1 ensures Edge(g, p[i], p[j]) {
        if j < |q| { assert Edge(g, q[i], q[j]); }
      }
      assert p[|p| - 1] in g;
    }
  }

  lemma {:induction false} DistinctFits<T>(p: seq<T>, s: set<T>)
    requires Distinct(p) && forall y :: y in p ==> y in s
    ensures |p| <= |s|
  {
    if p != [] {
      var last := p[|p| - 1];
      assert p == p[..|p| - 1] + [last];
      assert last in p;
      DistinctFits(p[..|p| - 1], s - {last});
    }
  }

  /** When nothing is ready, exactly the nodes with a sound cone are done. */
  lemma {:induction false} StuckDoneIsSound(g: Graph, limit: nat, t: seq<Event>)
    requires Legal(g, limit, t) && NoneReady(g, FinishedIn(t))
    ensures FinishedIn(t) == SoundNodes(g)
  {
    var done := FinishedIn(t);
    forall x | x in done ensures x in SoundNodes(g) {
      assert Finished(x) in t;
      FinishedWasStarted(g, limit, t, x);
      StartedIsSound(g, limit, t, x);
    }
    forall x | x in SoundNodes(g) ensures x in done {
      if x !in done {
        var u := g.Keys - done;
        var p := UndoneChain(g, done, x, |u|);
        DistinctFits(p, u);
      }
    }
  }

  // ----- the scheduler

  /** The scheduler's variables agree with its trace; pending, running and done partition the ids. */
  ghost predicate Consistent(g: Graph, limit: nat, t: seq<Event>,
                             pending: seq<string>, running: set<string>, rejected: set<string>, done: set<string>)
  {
    && Legal(g, limit, t)
    && running == RunningIn(t) && rejected == FailedIn(t) && done == FinishedIn(t)
    && Distinct(pending)
    && (forall x :: x in pending <==> x in g && x !in StartedIn(t))
    && rejected <= running && done <= StartedIn(t) <= g.Keys
  }

  lemma {:induction false} StartIsLegal(g: Graph, limit: nat, t: seq<Event>, pending: seq<string>, x: string,
                     running: set<string>, rejected: set<string>, done: set<string>)
    requires Consistent(g, limit, t, pending, running, rejected, done)
    requires x in pending && x in g && AllIn(g[x], done) && |running| < limit
    ensures Legal(g, limit, t + [Started(x)]) && x !in done && x !in running
  {
    hide StartedIn, FinishedIn, FailedIn, Legal, AllIn, Distinct;
    LegalSnoc(g, limit, t, Started(x));
  }

  lemma {:induction false} StartStep(g: Graph, limit: nat, t: seq<Event>, pending: seq<string>,
                                     pending': seq<string>, x: string,
                  running: set<string>, rejected: set<string>, done: set<string>)
    requires Consistent(g, limit, t, pending, running, rejected, done)
    requires x in pending && x in g && AllIn(g[x], done) && |running| < limit
    requires Distinct(pending') && forall y :: y in pending' <==> y in pending && y != x
    ensures Consistent(g, limit, t + [Started(x)], pending', running + {x}, rejected, done)
  {
    hide StartedIn, FinishedIn, FailedIn, Legal, AllIn, Distinct;
    StartIsLegal(g, limit, t, pending, x, running, rejected, done);
    EventSets(t, Started(x));
    assert RunningIn(t + [Started(x)]) == RunningIn(t) + {x};
    assert StartedIn(t + [Started(x)]) == StartedIn(t) + {x};
    assert FinishedIn(t + [Started(x)]) == FinishedIn(t) && FailedIn(t + [Started(x)]) == FailedIn(t);
  }

  lemma {:induction false} RemoveAt<T>(s: seq<T>, k: nat)
    requires Distinct(s) && k < |s|
    ensures Distinct(s[..k] + s[k + 1..])
    ensures forall x :: x in s[..k] + s[k + 1..] <==> x in s && x != s[k]
  {
    var r := s[..k] + s[k + 1..];
    forall x | x in s && x != s[k] ensures x in r {
      var i :| 0 <= i < |s| && s[i] == x;
      assert x == r[if i < k then i else i - 1];
    }
  }

  lemma {:induction false} FinishStep(g: Graph, limit: nat, t: seq<Event>, pending: seq<string>,
                   running: set<string>, rejected: set<string>, done: set<string>, x: string)
    requires Consistent(g, limit, t, pending, running, rejected, done)
    requires x in running && x !in rejected
    ensures Consistent(g, limit, t + [Finished(x)], pending, running - {x}, rejected, done + {x})
  {
    hide StartedIn, FinishedIn, FailedIn, Legal, AllIn;
    LegalSnoc(g, limit, t, Finished(x));
    EventSets(t, Finished(x));
    assert RunningIn(t + [Finished(x)]) == running - {x};
  }

  lemma {:induction false} FailStep(g: Graph, limit: nat, t: seq<Event>, pending: seq<string>,
                 running: set<string>, rejected: set<string>, done: set<string>, x: string)
    requires Consistent(g, limit, t, pending, running, rejected, done)
    requires x in running && x !in rejected
    ensures Consistent(g, limit, t + [Failed(x)], pending, running, rejected + {x}, done)
  {
    hide StartedIn, FinishedIn, FailedIn, Legal, AllIn;
    LegalSnoc(g, limit, t, Failed(x));
    EventSets(t, Failed(x));
    assert RunningIn(t + [Failed(x)]) == running;
  }

  /** The launch loop: it starts ready nodes in pending order until the limit is reached. */
  method LaunchReady(g: Graph, limit: nat, trace: seq<Event>, pending: seq<string>,
                     running: set<string>, ghost rejected: set<string>, done: set<string>)
    returns (trace': seq<Event>, pending': seq<string>, running': set<string>)
    requires Consistent(g, limit, trace, pending, running, rejected, done)
    ensures Consistent(g, limit, trace', pending', running', rejected, done)
    ensures running <= running'
    ensures |running'| >= limit || forall x :: x in pending' ==> !AllIn(g[x], done)
  {
    hide Consistent, Distinct;
    trace', pending', running' := trace, pending, running;
    var k := 0;
    while k < |pending'|
      invariant 0 <= k <= |pending'|
      invariant Consistent(g, limit, trace', pending', running', rejected, done)
      invariant running <= running'
      invariant forall i :: 0 <= i < k ==> pending'[i] in g && !AllIn(g[pending'[i]], done)
      decreases |pending'| - k
    {
      if |running'| >= limit { break; }
      var id := pending'[k];
      PendingInGraph(g, limit, trace', pending', running', rejected, done, k);
      if AllIn(g[id], done) {
        DistinctPending(g, limit, trace', pending', running', rejected, done);
        RemoveAt(pending', k);
        var rest := pending'[..k] + pending'[k + 1..];
        StartStep(g, limit, trace', pending', rest, id, running', rejected, done);
        trace', pending', running' := trace' + [Started(id)], rest, running' + {id};
      } else {
        k := k + 1;
      }
    }
  }

  lemma {:induction false} DistinctPending(g: Graph, limit: nat, t: seq<Event>, pending: seq<string>,
                        running: set<string>, rejected: set<string>, done: set<string>)
    requires Consistent(g, limit, t, pending, running, rejected, done)
    ensures Distinct(pending)
  {
  }

  lemma {:induction false} PendingInGraph(g: Graph, limit: nat, t: seq<Event>, pending: seq<string>,
                       running: set<string>, rejected: set<string>, done: set<string>, k: nat)
    requires Consistent(g, limit, t, pending, running, rejected, done) && k < |pending|
    ensures pending[k] in g
  {
    assert pending[k] in pending;
  }

  /** What happens to the running nodes while one await lasts. */
  method SettleBatch(g: Graph, ghost limit: nat, trace: seq<Event>, ghost pending: seq<string>,
                     running: set<string>, rejected: set<string>, done: set<string>, batch: seq<Settlement>)
    returns (trace': seq<Event>, running': set<string>, rejected': set<string>, done': set<string>)
    requires Consistent(g, limit, trace, pending, running, rejected, done)
    requires Plausible(batch, running - rejected)
    ensures Consistent(g, limit, trace', pending, running', rejected', done')
    ensures rejected <= rejected' && done <= done'
    ensures if batch[0].ok then batch[0].id in done' - done else batch[0].id in rejected'
  {
    hide Consistent;
    trace', running', rejected', done' := trace, running, rejected, done;
    assert batch[0].id !in done by { NotYetDone(g, limit, trace, pending, running, rejected, done, batch[0].id); }
    var i := 0;
    while i < |batch|
      invariant 0 <= i <= |batch|
      invariant Consistent(g, limit, trace', pending, running', rejected', done')
      invariant rejected <= rejected' && done <= done'
      invariant i > 0 ==> if batch[0].ok then batch[0].id in done' else batch[0].id in rejected'
      invariant forall j :: i <= j < |batch| ==> batch[j].id in running' && batch[j].id !in rejected'
    {
      var x := batch[i].id;
      if batch[i].ok {
        FinishStep(g, limit, trace', pending, running', rejected', done', x);
        trace', running', done' := trace' + [Finished(x)], running' - {x}, done' + {x};
      } else {
        FailStep(g, limit, trace', pending, running', rejected', done', x);
        trace', rejected' := trace' + [Failed(x)], rejected' + {x};
      }
      i := i + 1;
    }
  }

  lemma {:induction false} NotYetDone(g: Graph, limit: nat, t: seq<Event>, pending: seq<string>,
                   running: set<string>, rejected: set<string>, done: set<string>, x: string)
    requires Consistent(g, limit, t, pending, running, rejected, done) && x in running
    ensures x !in done
  {
  }

  lemma {:induction false} ListedIds(nodes: seq<Node>, id: string)
    ensures id in ById(nodes) <==> id in Ids(nodes)
  {
    assert forall i :: 0 <= i < |nodes| ==> Ids(nodes)[i] == nodes[i].id && nodes[i] in nodes;
  }

  lemma {:induction false} ByIdSnoc(front: seq<Node>, last: Node)
    ensures ById(front + [last]) == ById(front)[last.id := last.deps]
    ensures Ids(front + [last]) == Ids(front) + [last.id]
  {
    assert (front + [last])[..|front|] == front;
  }

  lemma {:induction false} DistinctSnoc<T>(s: seq<T>, x: T)
    ensures Distinct(s + [x]) <==> Distinct(s) && x !in s
  {
    assert forall i :: 0 <= i < |s| ==> (s + [x])[i] == s[i];
    assert (s + [x])[|s|] == x;
  }

  /** There are as many map entries as listed nodes exactly when no id repeats. */
  lemma {:induction false} NoMoreNodesThanListed(nodes: seq<Node>)
    ensures |ById(nodes)| <= |nodes|
    ensures |ById(nodes)| == |nodes| <==> Distinct(Ids(nodes))
  {
    if nodes != [] {
      var front, last := nodes[..|nodes| - 1], nodes[|nodes| - 1];
      assert nodes == front + [last];
      NoMoreNodesThanListed(front);
      hide ById, Ids, Distinct;
      ByIdSnoc(front, last);
      ListedIds(front, last.id);
      DistinctSnoc(Ids(front), last.id);
      var m := ById(front);
      assert m[last.id := last.deps].Keys == m.Keys + {last.id};
      assert |m| == |m.Keys|;
    }
  }

  function Ids(nodes: seq<Node>): (r: seq<string>)
    ensures |r| == |nodes| && forall i :: 0 <= i < |r| ==> r[i] == nodes[i].id
  {
    seq(|nodes|, i requires 0 <= i < |nodes| => nodes[i].id)
  }

  /** `new Set(ids)` in insertion order. */
  function Unique(s: seq<string>): (r: seq<string>)
    ensures Distinct(r)
    ensures forall x :: x in r <==> x in s
  {
    if s == [] then []
    else
      var front, last := s[..|s| - 1], s[|s| - 1];
      assert s == front + [last];
      var r := Unique(front);
      if last in r then r else (DistinctSnoc(r, last); r + [last])
  }

  lemma {:induction false} Initially(nodes: seq<Node>, limit: nat)
    ensures Consistent(ById(nodes), limit, [], Unique(Ids(nodes)), {}, {}, {})
  {
    NothingRunsYet();
    var g := ById(nodes);
    forall x ensures x in Unique(Ids(nodes)) <==> x in g { ListedIds(nodes, x); }
    assert StartedIn([]) == {};
  }

  /** With nothing running, a launch that starts nothing proves that no undone node is ready. */
  lemma {:induction false} NothingLeftToStart(g: Graph, limit: nat, t: seq<Event>, pending: seq<string>,
                                              done: set<string>)
    requires Consistent(g, limit, t, pending, {}, {}, done)
    requires forall x :: x in pending ==> !AllIn(g[x], done)
    ensures NoneReady(g, FinishedIn(t)) && FailedIn(t) == {}
    ensures forall x :: x in pending <==> x in g && x !in FinishedIn(t)
  {
    hide StartedIn, FinishedIn, FailedIn, Legal;
    forall x | x in StartedIn(t) ensures x in FinishedIn(t) {
      assert x !in RunningIn(t);
    }
    assert StartedIn(t) == FinishedIn(t);
  }

  lemma {:induction false} AllDone(nodes: seq<Node>, limit: nat, t: seq<Event>, pending: seq<string>,
                running: set<string>, rejected: set<string>, done: set<string>)
    requires Consistent(ById(nodes), limit, t, pending, running, rejected, done)
    requires |done| >= |nodes|
    ensures FinishedIn(t) == ById(nodes).Keys && NoneReady(ById(nodes), FinishedIn(t)) && FailedIn(t) == {}
    ensures Distinct(Ids(nodes))
  {
    hide StartedIn, FinishedIn, FailedIn, Legal, ById;
    var g := ById(nodes);
    NoMoreNodesThanListed(nodes);
    assert |g| == |g.Keys|;
    CardinalityOfSubset(done, g.Keys);
    assert running == {} by { assert RunningIn(t) == StartedIn(t) - FinishedIn(t); }
  }

  lemma {:induction false} UndoneOrRepeated(nodes: seq<Node>, done: set<string>)
    requires done <= ById(nodes).Keys && |done| < |nodes|
    ensures !(done == ById(nodes).Keys && Distinct(Ids(nodes)))
  {
    NoMoreNodesThanListed(nodes);
    assert |ById(nodes)| == |ById(nodes).Keys|;
  }

  /** `runGraph` for every graph, limit and completion order.  The trace is legal; a run ends by
      rejection exactly when some node failed; otherwise exactly the nodes with a sound cone are
      done, and the run completes if and only if that is every node and no id repeats. */
  method RunGraph(nodes: seq<Node>, limit: nat, env: Environment) returns (outcome: Outcome, trace: seq<Event>)
    requires limit >= 1 && PlausibleEnvironment(env)
    ensures Legal(ById(nodes), limit, trace)
    ensures outcome.Rejected? <==> FailedIn(trace) != {}
    ensures outcome.Rejected? ==> outcome.id in FailedIn(trace)
    ensures !outcome.Rejected? ==> FinishedIn(trace) == SoundNodes(ById(nodes))
    ensures outcome.Completed? ==> SoundNodes(ById(nodes)) == ById(nodes).Keys && Distinct(Ids(nodes))
    ensures outcome.Stuck? ==> !(SoundNodes(ById(nodes)) == ById(nodes).Keys && Distinct(Ids(nodes)))
    ensures outcome.Stuck? ==> forall x :: x in outcome.pending <==> x in ById(nodes) && x !in FinishedIn(trace)
  {
    hide Consistent, ById, SoundNodes, NoneReady, FinishedIn, FailedIn, StartedIn, Legal, Distinct, Plausible, AllIn;
    var g := ById(nodes);
    var pending := Unique(Ids(nodes));
    var running: set<string>, rejected: set<string>, done: set<string> := {}, {}, {};
    trace := [];
    Initially(nodes, limit);
    var round := 0;
    while |done| < |nodes|
      invariant Consistent(g, limit, trace, pending, running, rejected, done)
      invariant done <= g.Keys
      decreases g.Keys - done
    {
      trace, pending, running := LaunchReady(g, limit, trace, pending, running, rejected, done);
      Unpack(g, limit, trace, pending, running, rejected, done);
      if running == {} {
        assert rejected == {};
        NothingLeftToStart(g, limit, trace, pending, done);
        StuckDoneIsSound(g, limit, trace);
        UndoneOrRepeated(nodes, done);
        return Stuck(pending), trace;
      }
      if rejected != {} {
        // a promise that rejected during an earlier await settles this race at once
        var x :| x in rejected;
        return Rejected(x), trace;
      }
      var batch := env(round, running - rejected);
      assert Plausible(batch, running - rejected);
      BatchStarts(batch, running - rejected);
      ghost var before := done;
      trace, running, rejected, done := SettleBatch(g, limit, trace, pending, running, rejected, done, batch);
      Unpack(g, limit, trace, pending, running, rejected, done);
      if !batch[0].ok { return Rejected(batch[0].id), trace; }
      assert g.Keys - done < g.Keys - before by { assert batch[0].id in (g.Keys - before) - (g.Keys - done); }
      round := round + 1;
    }
    Unpack(g, limit, trace, pending, running, rejected, done);
    AllDone(nodes, limit, trace, pending, running, rejected, done);
    StuckDoneIsSound(g, limit, trace);
    outcome := Completed;
  }

  lemma {:induction false} BatchStarts(batch: seq<Settlement>, unsettled: set<string>)
    requires Plausible(batch, unsettled)
    ensures batch != [] && batch[0].id in unsettled
  {
  }

  lemma {:induction false} Unpack(g: Graph, limit: nat, t: seq<Event>, pending: seq<string>,
               running: set<string>, rejected: set<string>, done: set<string>)
    requires Consistent(g, limit, t, pending, running, rejected, done)
    ensures Legal(g, limit, t) && rejected == FailedIn(t) && done == FinishedIn(t)
    ensures rejected <= running && done <= g.Keys
  {
  }
}
