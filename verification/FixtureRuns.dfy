/**
 What the runs of `FixtureLifecycle` come to, read off the fixture graph, the cluster's behaviour and the requests:
 which fixtures a run reaches, which of them work, and what is left when it ends.
 */
module FixtureRuns {
  import opened FixtureLifecycle

  // ----- What a run does, read off the graph before it

  /** Whether the fixture's own code gets to its yield, once its dependencies do. */
  predicate Own(e: Env, live: set<nat>, f: nat)
    requires WellFormed(e) && f < |e.graph|
  {
    if e.options.postUpgrade then !e.graph[f].kind.Resource? || (f in live && e.outcomes[f].Fine?)
    else e.outcomes[f].Fine?
  }

  predicate DepsWork(e: Env, live: set<nat>, f: nat)
    requires WellFormed(e) && f < |e.graph|
    decreases f, 0
  {
    forall i | 0 <= i < |e.graph[f].deps| :: Works(e, live, e.graph[f].deps[i])
  }

  /** Whether a request succeeds: the fixture and all it depends on do their part. */
  predicate Works(e: Env, live: set<nat>, f: nat)
    requires WellFormed(e) && f < |e.graph|
    decreases f, 1
  {
    Own(e, live, f) && DepsWork(e, live, f)
  }

  /** Whether a set-up gives its resource up. */
  predicate Leaks(e: Env, live: set<nat>, f: nat)
    requires WellFormed(e) && f < |e.graph|
  {
    && !e.options.postUpgrade && e.outcomes[f].FailsAfterDeploy? && DepsWork(e, live, f)
    && (e.graph[f].kind.Project? || !e.options.Teardown())
  }

  /** The fixtures a request gets to: itself, and its dependencies up to the first that fails. */
  function Reached(e: Env, live: set<nat>, f: nat): set<nat>
    requires WellFormed(e) && f < |e.graph|
    decreases f, 1, 0
  {
    {f} + ReachedAll(e, live, e.graph[f].deps, f)
  }

  function ReachedAll(e: Env, live: set<nat>, fs: seq<nat>, bound: nat): set<nat>
    requires WellFormed(e) && bound <= |e.graph| && Below(fs, bound)
    decreases bound, 0, |fs|
  {
    if fs == [] then {}
    else
      Reached(e, live, fs[0]) + if Works(e, live, fs[0]) then ReachedAll(e, live, fs[1..], bound) else {}
  }

  /** The fixtures a session gets to: every request is made. */
  function ReachedBy(e: Env, live: set<nat>, requests: seq<nat>): set<nat>
    requires WellFormed(e) && Below(requests, |e.graph|)
    decreases |requests|
  {
    if requests == [] then {} else Reached(e, live, requests[0]) + ReachedBy(e, live, requests[1..])
  }

  function Seen(st: State): set<nat> {
    Elems(st.active) + st.failed
  }

  /** The bookkeeping of a run agrees with the graph. */
  ghost predicate Tracked(e: Env, live: set<nat>, st: State) {
    && WellFormed(e) && (e.options.postUpgrade ==> st.live == live)
    && (forall g | g in Seen(st) :: g < |e.graph|)
    && (forall g | g in st.active && g < |e.graph| :: Works(e, live, g))
    && (forall g | g in st.failed && g < |e.graph| :: !Works(e, live, g))
    && (forall g | g in Seen(st) && g < |e.graph| :: Reached(e, live, g) <= Seen(st))
    && (forall g :: g in st.leaked <==> g in st.failed && g < |e.graph| && Leaks(e, live, g))
  }

  lemma BeginTracked(e: Env, live: set<nat>)
    requires WellFormed(e)
    ensures Tracked(e, live, Begin(live))
  {
  }

  lemma SetUpTracked(e: Env, live: set<nat>, st: State, f: nat)
    requires Tracked(e, live, st) && f < |e.graph| && f !in Seen(st)
    requires DepsWork(e, live, f) && Reached(e, live, f) <= Seen(st) + {f}
    ensures var (next, ok) := SetUp(e, st, f);
            Tracked(e, live, next) && (ok <==> Works(e, live, f)) && Seen(next) == Seen(st) + {f}
  {
    var (next, ok) := SetUp(e, st, f);
    if ok {
      assert next.active == st.active + [f] && next.failed == st.failed;
      assert Elems(st.active + [f]) == Elems(st.active) + {f};
    } else {
      assert next.active == st.active && next.failed == st.failed + {f};
    }
    assert Seen(next) == Seen(st) + {f};
  }

  lemma SetUpSkipped(e: Env, live: set<nat>, st: State, f: nat)
    requires Tracked(e, live, st) && f < |e.graph| && f !in Seen(st)
    requires !DepsWork(e, live, f) && Reached(e, live, f) <= Seen(st) + {f}
    ensures var next := st.(failed := st.failed + {f});
            Tracked(e, live, next) && Seen(next) == Seen(st) + {f}
  {
  }

  /** A request does what the graph says, whatever was requested before. */
  lemma {:induction false} RequestExactly(e: Env, live: set<nat>, st: State, f: nat)
    requires Tracked(e, live, st) && f < |e.graph|
    ensures var (next, ok) := Request(e, st, f);
            Tracked(e, live, next) && (ok <==> Works(e, live, f)) && Seen(next) == Seen(st) + Reached(e, live, f)
    ensures forall g | g in Seen(Request(e, st, f).0) && g !in Seen(st) :: g <= f
    decreases f, 1, 0
  {
    if f in Seen(st) {
      assert Seen(st) + Reached(e, live, f) == Seen(st);
    } else {
      var deps := e.graph[f].deps;
      RequestAllExactly(e, live, st, deps, f);
      var (ready, ok) := RequestAll(e, st, deps, f);
      if ok {
        SetUpTracked(e, live, ready, f);
      } else {
        SetUpSkipped(e, live, ready, f);
      }
      assert Seen(st) + ReachedAll(e, live, deps, f) + {f} == Seen(st) + Reached(e, live, f);
    }
  }

  lemma {:induction false} RequestAllExactly(e: Env, live: set<nat>, st: State, fs: seq<nat>, bound: nat)
    requires Tracked(e, live, st) && bound <= |e.graph| && Below(fs, bound)
    ensures var (next, ok) := RequestAll(e, st, fs, bound);
            && Tracked(e, live, next) && (ok <==> forall i | 0 <= i < |fs| :: Works(e, live, fs[i]))
            && Seen(next) == Seen(st) + ReachedAll(e, live, fs, bound)
    ensures forall g | g in Seen(RequestAll(e, st, fs, bound).0) && g !in Seen(st) :: g < bound
    decreases bound, 0, |fs|
  {
    if fs != [] {
      RequestExactly(e, live, st, fs[0]);
      var (next, ok) := Request(e, st, fs[0]);
      assert forall i | 0 < i < |fs| :: fs[i] == fs[1..][i - 1];
      if ok {
        RequestAllExactly(e, live, next, fs[1..], bound);
      }
    }
  }

  lemma {:induction false} SessionExactly(e: Env, live: set<nat>, st: State, requests: seq<nat>)
    requires Tracked(e, live, st) && Below(requests, |e.graph|)
    ensures Tracked(e, live, Session(e, st, requests))
    ensures Seen(Session(e, st, requests)) == Seen(st) + ReachedBy(e, live, requests)
    decreases |requests|
  {
    if requests != [] {
      RequestExactly(e, live, st, requests[0]);
      SessionExactly(e, live, Request(e, st, requests[0]).0, requests[1..]);
    }
  }

  lemma {:induction false} ReachedByRequests(e: Env, live: set<nat>, requests: seq<nat>, i: nat)
    requires WellFormed(e) && Below(requests, |e.graph|) && i < |requests|
    ensures requests[i] in ReachedBy(e, live, requests)
    decreases |requests|
  {
    if i > 0 {
      ReachedByRequests(e, live, requests[1..], i - 1);
    }
  }

  /** A project that appears and is given up before its yield. */
  predicate GivenUp(e: Env, f: nat)
    requires |e.outcomes| == |e.graph| && f < |e.graph|
  {
    e.graph[f].kind.Project? && e.outcomes[f].FailsAfterDeploy?
  }

  /** What a deleting run leaves behind: projects given up, and what worked until its finalizer raised. */
  ghost function StaysBy(e: Env, live: set<nat>, requests: seq<nat>): set<nat>
    requires WellFormed(e) && Below(requests, |e.graph|)
  {
    set f | f in ReachedBy(e, live, requests) && f < |e.graph| && (GivenUp(e, f) || (Works(e, live, f) && f in e.stuck))
  }

  /**
   Whatever tests request, however set-ups fail and whatever finalizers raise, a deleting run on a cluster without
   these resources ends with the live set it started with, the projects the requests get to that fail once created,
   and what worked but has a finalizer that raises: with the same set exactly when there are none of either.
   Prerequisites are live at every step exactly when what stays depends on what stays only.
   */
  lemma FreshRunRestores(e: Env, initial: set<nat>, requests: seq<nat>)
    requires Fresh(e) && e.options.Teardown() && Clean(e, initial) && Below(requests, |e.graph|)
    ensures var s := Session(e, Begin(initial), requests);
            var stays := StaysBy(e, initial, requests);
            && Below(s.active, |e.graph|)
            && Close(e, s).live == initial + stays
            && (Close(e, s).live == initial <==> stays == {})
            && (AllClosed(e, Close(e, s)) <==> SelfContained(e, stays))
  {
    var s := Session(e, Begin(initial), requests);
    SessionKeeps(e, initial, Begin(initial), requests);
    CloseFresh(e, initial, s);
    BeginTracked(e, initial);
    SessionExactly(e, initial, Begin(initial), requests);
    var stays := StaysBy(e, initial, requests);
    StaysIsLeft(e, initial, requests, s);
    assert initial - s.created == initial;
    assert (initial - s.created) + s.leaked + Elems(s.active) * e.stuck == initial + stays;
    assert stays !! initial;
    StaysClosed(e, initial, stays);
    if stays != {} {
      var f :| f in stays;
      assert f in initial + stays && f !in initial;
    }
  }

  lemma StaysIsLeft(e: Env, initial: set<nat>, requests: seq<nat>, s: State)
    requires Fresh(e) && e.options.Teardown() && Below(requests, |e.graph|)
    requires Tracked(e, initial, s) && Seen(s) == ReachedBy(e, initial, requests)
    ensures StaysBy(e, initial, requests) == s.leaked + Elems(s.active) * e.stuck
  {
    forall f | f in Seen(s) ensures f in s.leaked <==> GivenUp(e, f) {
      if GivenUp(e, f) {
        assert DepsWork(e, initial, f) && !Works(e, initial, f);
      }
    }
    forall f | f in Seen(s) ensures f in s.active <==> Works(e, initial, f) {
    }
  }

  /** A requested project that fails once created is left behind. */
  lemma RequestedProjectStays(e: Env, initial: set<nat>, requests: seq<nat>, i: nat)
    requires Fresh(e) && e.options.Teardown() && Clean(e, initial) && Below(requests, |e.graph|)
    requires i < |requests| && GivenUp(e, requests[i])
    ensures var s := Session(e, Begin(initial), requests);
            Below(s.active, |e.graph|) && requests[i] in Close(e, s).live && Close(e, s).live != initial
  {
    FreshRunRestores(e, initial, requests);
    ReachedByRequests(e, initial, requests, i);
    assert requests[i] in StaysBy(e, initial, requests);
  }

  /** So is a requested fixture that works and whose finalizer raises. */
  lemma StuckFixtureStays(e: Env, initial: set<nat>, requests: seq<nat>, i: nat)
    requires Fresh(e) && e.options.Teardown() && Clean(e, initial) && Below(requests, |e.graph|)
    requires i < |requests| && Works(e, initial, requests[i]) && requests[i] in e.stuck
    ensures var s := Session(e, Begin(initial), requests);
            Below(s.active, |e.graph|) && requests[i] in Close(e, s).live && Close(e, s).live != initial
  {
    FreshRunRestores(e, initial, requests);
    ReachedByRequests(e, initial, requests, i);
    assert requests[i] in StaysBy(e, initial, requests);
  }

  /** Without a project given up and with finalizers that get to their deletion every deleting run restores the
      cluster, whatever else fails, and prerequisites are live at every step. */
  lemma NothingStays(e: Env, initial: set<nat>, requests: seq<nat>)
    requires Fresh(e) && e.options.Teardown() && Clean(e, initial) && Below(requests, |e.graph|)
    requires forall f | 0 <= f < |e.graph| :: !GivenUp(e, f) && f !in e.stuck
    ensures var s := Session(e, Begin(initial), requests);
            Below(s.active, |e.graph|) && Close(e, s).live == initial && AllClosed(e, Close(e, s))
  {
    FreshRunRestores(e, initial, requests);
  }

  // ----- Upgrade with any requests before and after

  /** What a run that keeps its resources leaves behind: what it set up, and what it gave up. */
  ghost function LeftBy(e: Env, live: set<nat>, requests: seq<nat>): set<nat>
    requires WellFormed(e) && Below(requests, |e.graph|)
  {
    set f | f in ReachedBy(e, live, requests) && f < |e.graph| && (Works(e, live, f) || Leaks(e, live, f))
  }

  /** What a run over existing resources finds, hence deletes. */
  ghost function FoundBy(e: Env, live: set<nat>, requests: seq<nat>): set<nat>
    requires WellFormed(e) && Below(requests, |e.graph|)
  {
    set f | f in ReachedBy(e, live, requests) && f < |e.graph| && Works(e, live, f)
  }

  ghost predicate Upgrade(pre: Env, post: Env, initial: set<nat>, preRequests: seq<nat>, postRequests: seq<nat>) {
    && Fresh(pre) && !pre.options.Teardown() && Post(post) && post.graph == pre.graph && Clean(pre, initial)
    && Below(preRequests, |pre.graph|) && Below(postRequests, |pre.graph|)
  }

  lemma KeepingRun(pre: Env, initial: set<nat>, requests: seq<nat>)
    requires Fresh(pre) && !pre.options.Teardown() && Clean(pre, initial) && Below(requests, |pre.graph|)
    ensures var s := Session(pre, Begin(initial), requests);
            && FreshInv(pre, initial, s) && Close(pre, s).live == initial + LeftBy(pre, initial, requests)
            && AllClosed(pre, Close(pre, s)) && Closed(pre, Close(pre, s).live)
  {
    var s := Session(pre, Begin(initial), requests);
    SessionKeeps(pre, initial, Begin(initial), requests);
    CloseFresh(pre, initial, s);
    FreshClosed(pre, initial, s);
    BeginTracked(pre, initial);
    SessionExactly(pre, initial, Begin(initial), requests);
    assert initial - s.created == initial;
    assert Elems(s.active) + s.leaked == LeftBy(pre, initial, requests);
  }

  lemma LookingRun(post: Env, live: set<nat>, requests: seq<nat>)
    requires WellFormed(post) && post.options.postUpgrade && Below(requests, |post.graph|)
    ensures var t := Session(post, Begin(live), requests);
            && Below(t.active, |post.graph|) && t.live == live && t.trace == [live]
            && Elems(t.active) == FoundBy(post, live, requests)
            && t.failed == ReachedBy(post, live, requests) - FoundBy(post, live, requests)
            && Ordered(post, t.active)
  {
    var t := Session(post, Begin(live), requests);
    BeginTracked(post, live);
    SessionExactly(post, live, Begin(live), requests);
    SessionLooks(post, Begin(live), requests);
    assert Seen(t) == ReachedBy(post, live, requests);
    forall i | 0 <= i < |t.active| ensures t.active[i] < |post.graph| {
      assert t.active[i] in Seen(t);
    }
    assert Elems(t.active) == FoundBy(post, live, requests);
    SessionOrdered(post, Begin(live), requests);
  }

  lemma FindingRun(post: Env, live: set<nat>, requests: seq<nat>)
    requires Post(post) && Below(requests, |post.graph|)
    ensures var t := Session(post, Begin(live), requests);
            && Below(t.active, |post.graph|) && t.live == live && t.trace == [live]
            && Elems(t.active) == FoundBy(post, live, requests)
            && t.failed == ReachedBy(post, live, requests) - FoundBy(post, live, requests)
            && Close(post, t).live == live - (FoundBy(post, live, requests) - post.stuck)
            && Ordered(post, t.active)
  {
    LookingRun(post, live, requests);
    ClosePost(post, Session(post, Begin(live), requests));
  }

  // ----- Which options delete, and what

  /** A run without upgrade, or before one and asked to delete: it ends with what it started with, the projects given
      up and what has a finalizer that raises. */
  lemma DeletingRunEnds(e: Env, initial: set<nat>, requests: seq<nat>)
    requires WellFormed(e) && Clean(e, initial) && Below(requests, |e.graph|)
    requires !e.options.postUpgrade && (!e.options.preUpgrade || e.options.deletePreUpgradeResources)
    ensures var s := Session(e, Begin(initial), requests);
            Below(s.active, |e.graph|) && Close(e, s).live == initial +
              set f | f in ReachedBy(e, initial, requests) && f < |e.graph|
                && ((e.graph[f].kind.Project? && e.outcomes[f].FailsAfterDeploy?)
                    || (Works(e, initial, f) && f in e.stuck))
  {
    FreshRunRestores(e, initial, requests);
  }

  /** A run before an upgrade not asked to delete: whatever appeared stays, whether its fixture worked or not. */
  lemma KeepingRunEnds(e: Env, initial: set<nat>, requests: seq<nat>)
    requires WellFormed(e) && Clean(e, initial) && Below(requests, |e.graph|)
    requires !e.options.postUpgrade && e.options.preUpgrade && !e.options.deletePreUpgradeResources
    ensures var s := Session(e, Begin(initial), requests);
            Below(s.active, |e.graph|) && Close(e, s).live == initial +
              set f | f in ReachedBy(e, initial, requests) && f < |e.graph|
                && DepsWork(e, initial, f) && !e.outcomes[f].DeployFails?
  {
    KeepingRun(e, initial, requests);
  }

  /** A run after an upgrade, the phase before it selected as well or not: resources and administrator namespaces it
      found are deleted whatever was asked for, and projects unless the run also keeps what it creates. */
  lemma FindingRunEnds(e: Env, live: set<nat>, requests: seq<nat>)
    requires WellFormed(e) && Below(requests, |e.graph|) && e.options.postUpgrade
    ensures var s := Session(e, Begin(live), requests);
            Below(s.active, |e.graph|) && Close(e, s).live == live -
              set f | f in ReachedBy(e, live, requests) && f < |e.graph| && Works(e, live, f) && f !in e.stuck
                && (!e.graph[f].kind.Project? || !e.options.preUpgrade || e.options.deletePreUpgradeResources)
  {
    var s := Session(e, Begin(live), requests);
    LookingRun(e, live, requests);
    CloseLive(e, s);
    DeletedByOptions(e, s.active);
    assert forall f :: f in s.active <==> f in Elems(s.active);
  }

  lemma {:induction false} SessionLooks(e: Env, st: State, requests: seq<nat>)
    requires WellFormed(e) && e.options.postUpgrade && Below(requests, |e.graph|)
    ensures var next := Session(e, st, requests); next.live == st.live && next.trace == st.trace
    decreases |requests|
  {
    if requests != [] {
      PostRequestLooks(e, st, requests[0]);
      SessionLooks(e, Request(e, st, requests[0]).0, requests[1..]);
    }
  }

  /** What is left after both phases: what the second did not find, and what its finalizers raised on. */
  ghost function StaysAfter(post: Env, initial: set<nat>, left: set<nat>, requests: seq<nat>): set<nat>
    requires WellFormed(post) && Below(requests, |post.graph|)
  {
    left - (FoundBy(post, initial + left, requests) - post.stuck)
  }

  /**
   Whatever the two phases request, whatever fails in them and whatever finalizers raise, the second ends with the
   live set of before the first exactly when it finds, and gets to delete, everything the first left behind.
   Prerequisites are live at every step of the first, and of the second exactly when what stays depends on what
   stays only.
   */
  lemma UpgradeRestoresExactly(pre: Env, post: Env, initial: set<nat>, preRequests: seq<nat>, postRequests: seq<nat>)
    requires Upgrade(pre, post, initial, preRequests, postRequests)
    ensures var left := LeftBy(pre, initial, preRequests);
            var stays := StaysAfter(post, initial, left, postRequests);
            var s := Session(pre, Begin(initial), preRequests);
            var t := Session(post, Begin(initial + left), postRequests);
            && Below(s.active, |pre.graph|) && Close(pre, s).live == initial + left && AllClosed(pre, Close(pre, s))
            && Below(t.active, |pre.graph|)
            && Close(post, t).live == initial + stays
            && ((Close(post, t).live == initial)
                  <==> (left <= FoundBy(post, initial + left, postRequests) - post.stuck))
            && (AllClosed(post, Close(post, t)) <==> SelfContained(post, stays))
  {
    var left := LeftBy(pre, initial, preRequests);
    KeepingRun(pre, initial, preRequests);
    FindingRun(post, initial + left, postRequests);
    var found := FoundBy(post, initial + left, postRequests);
    var stays := StaysAfter(post, initial, left, postRequests);
    assert initial !! found && initial !! left;
    assert initial + left - (found - post.stuck) == initial + stays;
    if initial + stays == initial {
      assert forall f | f in stays :: f in initial + stays;
    }
    var t := Session(post, Begin(initial + left), postRequests);
    StaysClosed(post, initial, stays);
    SameGraphClosed(pre, post, initial + left);
    assert forall live | live in t.trace :: live == initial + left;
    CloseClosed(post, t);
  }

  lemma SameGraphClosed(pre: Env, post: Env, live: set<nat>)
    requires post.graph == pre.graph
    ensures Closed(pre, live) <==> Closed(post, live)
  {
  }

  /** A fixture and all it depends on, directly or not. */
  function Closure(e: Env, f: nat): set<nat>
    requires WellFormed(e) && f < |e.graph|
    decreases f, 1, 0
  {
    {f} + ClosureAll(e, e.graph[f].deps, f)
  }

  function ClosureAll(e: Env, fs: seq<nat>, bound: nat): set<nat>
    requires WellFormed(e) && bound <= |e.graph| && Below(fs, bound)
    decreases bound, 0, |fs|
  {
    if fs == [] then {} else Closure(e, fs[0]) + ClosureAll(e, fs[1..], bound)
  }

  lemma {:induction false} ClosureBounded(e: Env, f: nat)
    requires WellFormed(e) && f < |e.graph|
    ensures f in Closure(e, f) && forall g | g in Closure(e, f) :: g <= f
    decreases f, 1, 0
  {
    ClosureAllBounded(e, e.graph[f].deps, f);
  }

  lemma {:induction false} ClosureAllBounded(e: Env, fs: seq<nat>, bound: nat)
    requires WellFormed(e) && bound <= |e.graph| && Below(fs, bound)
    ensures Elems(fs) <= ClosureAll(e, fs, bound) && forall g | g in ClosureAll(e, fs, bound) :: g < bound
    decreases bound, 0, |fs|
  {
    if fs != [] {
      ClosureBounded(e, fs[0]);
      ClosureAllBounded(e, fs[1..], bound);
      assert fs == [fs[0]] + fs[1..];
    }
  }

  predicate AllOwn(e: Env, live: set<nat>, fs: set<nat>)
    requires WellFormed(e)
  {
    forall g | g in fs && g < |e.graph| :: Own(e, live, g)
  }

  predicate AllWork(e: Env, live: set<nat>, fs: set<nat>)
    requires WellFormed(e)
  {
    forall g | g in fs && g < |e.graph| :: Works(e, live, g)
  }

  /** A request succeeds exactly when everything in its closure does its own part, and then reaches all of it. */
  lemma {:induction false} WorksByClosure(e: Env, live: set<nat>, f: nat)
    requires WellFormed(e) && f < |e.graph|
    ensures Works(e, live, f) <==> AllOwn(e, live, Closure(e, f))
    ensures Works(e, live, f) ==> Reached(e, live, f) == Closure(e, f) && AllWork(e, live, Closure(e, f))
    decreases f, 1, 0
  {
    ClosureBounded(e, f);
    WorksByClosureAll(e, live, e.graph[f].deps, f);
    assert f in Closure(e, f);
  }

  lemma {:induction false} WorksByClosureAll(e: Env, live: set<nat>, fs: seq<nat>, bound: nat)
    requires WellFormed(e) && bound <= |e.graph| && Below(fs, bound)
    ensures (forall i | 0 <= i < |fs| :: Works(e, live, fs[i])) <==> AllOwn(e, live, ClosureAll(e, fs, bound))
    ensures (forall i | 0 <= i < |fs| :: Works(e, live, fs[i])) ==>
      ReachedAll(e, live, fs, bound) == ClosureAll(e, fs, bound) && AllWork(e, live, ClosureAll(e, fs, bound))
    decreases bound, 0, |fs|
  {
    if fs != [] {
      WorksByClosure(e, live, fs[0]);
      WorksByClosureAll(e, live, fs[1..], bound);
      assert (forall i | 0 <= i < |fs| :: Works(e, live, fs[i]))
        <==> (Works(e, live, fs[0]) && forall i | 0 <= i < |fs[1..]| :: Works(e, live, fs[1..][i]));
    }
  }

  /** Over a session: everything reached works exactly when the whole closure does its part. */
  lemma {:induction false} SessionByClosure(e: Env, live: set<nat>, requests: seq<nat>)
    requires WellFormed(e) && Below(requests, |e.graph|)
    ensures forall g | g in ReachedBy(e, live, requests) :: g < |e.graph|
    ensures AllWork(e, live, ReachedBy(e, live, requests)) <==> AllOwn(e, live, ClosureAll(e, requests, |e.graph|))
    ensures AllWork(e, live, ReachedBy(e, live, requests)) ==>
      ReachedBy(e, live, requests) == ClosureAll(e, requests, |e.graph|)
    decreases |requests|
  {
    if requests != [] {
      var f := requests[0];
      ReachedBounded(e, live, f);
      WorksByClosure(e, live, f);
      SessionByClosure(e, live, requests[1..]);
      assert f in Reached(e, live, f);
    }
  }

  lemma {:induction false} ReachedBounded(e: Env, live: set<nat>, f: nat)
    requires WellFormed(e) && f < |e.graph|
    ensures forall g | g in Reached(e, live, f) :: g <= f
    decreases f, 1, 0
  {
    ReachedAllBounded(e, live, e.graph[f].deps, f);
  }

  lemma {:induction false} ReachedAllBounded(e: Env, live: set<nat>, fs: seq<nat>, bound: nat)
    requires WellFormed(e) && bound <= |e.graph| && Below(fs, bound)
    ensures forall g | g in ReachedAll(e, live, fs, bound) :: g < bound
    decreases bound, 0, |fs|
  {
    if fs != [] {
      ReachedBounded(e, live, fs[0]);
      ReachedAllBounded(e, live, fs[1..], bound);
    }
  }

  // ----- Both phases in one run

  /**
   Any run over existing resources: the cluster stays as it is until the finalizers, and a request succeeds exactly
   when each resource of its closure is there and behaves.
   */
  lemma LookingRunExactly(e: Env, live: set<nat>, requests: seq<nat>, f: nat)
    requires WellFormed(e) && e.options.postUpgrade && Below(requests, |e.graph|) && f < |e.graph|
    ensures var s := Session(e, Begin(live), requests);
            && s.live == live && s.created == {}
            && Request(e, s, f).0.live == live
            && (Request(e, s, f).1 <==> forall g | g in Closure(e, f) && g < |e.graph| ::
                  !e.graph[g].kind.Resource? || (g in live && e.outcomes[g].Fine?))
  {
    var s := Session(e, Begin(live), requests);
    BeginTracked(e, live);
    SessionExactly(e, live, Begin(live), requests);
    SessionLooks(e, Begin(live), requests);
    SessionCreatesNothing(e, Begin(live), requests);
    RequestExactly(e, live, s, f);
    PostRequestLooks(e, s, f);
    WorksByClosure(e, live, f);
  }

  lemma {:induction false} RequestCreatesNothing(e: Env, st: State, f: nat)
    requires WellFormed(e) && e.options.postUpgrade && f < |e.graph|
    ensures Request(e, st, f).0.created == st.created
    decreases f, 1, 0
  {
    AllCreateNothing(e, st, e.graph[f].deps, f);
  }

  lemma {:induction false} AllCreateNothing(e: Env, st: State, fs: seq<nat>, bound: nat)
    requires WellFormed(e) && e.options.postUpgrade && bound <= |e.graph| && Below(fs, bound)
    ensures RequestAll(e, st, fs, bound).0.created == st.created
    decreases bound, 0, |fs|
  {
    if fs != [] {
      RequestCreatesNothing(e, st, fs[0]);
      AllCreateNothing(e, Request(e, st, fs[0]).0, fs[1..], bound);
    }
  }

  lemma {:induction false} SessionCreatesNothing(e: Env, st: State, requests: seq<nat>)
    requires WellFormed(e) && e.options.postUpgrade && Below(requests, |e.graph|)
    ensures Session(e, st, requests).created == st.created
    decreases |requests|
  {
    if requests != [] {
      RequestCreatesNothing(e, st, requests[0]);
      SessionCreatesNothing(e, Request(e, st, requests[0]).0, requests[1..]);
    }
  }

  /**
   With both phases selected in one run on a cluster without the resources, nothing is created, and a request
   succeeds exactly when neither it nor anything it depends on is more than a namespace.
   */
  lemma BothPhasesFindNothing(e: Env, live: set<nat>, requests: seq<nat>, f: nat)
    requires WellFormed(e) && e.options.preUpgrade && e.options.postUpgrade
    requires Clean(e, live) && Below(requests, |e.graph|) && f < |e.graph|
    ensures var s := Session(e, Begin(live), requests);
            && s.live == live && s.created == {}
            && (Request(e, s, f).1 <==> !e.graph[f].kind.Resource?)
  {
    LookingRunExactly(e, live, requests, f);
    ClosureBounded(e, f);
    if !e.graph[f].kind.Resource? {
      assert Closure(e, f) == {f};
    }
  }

  lemma FineLeft(pre: Env, initial: set<nat>, requests: seq<nat>)
    requires Fresh(pre) && AllFine(pre) && Below(requests, |pre.graph|)
    ensures LeftBy(pre, initial, requests) == ClosureAll(pre, requests, |pre.graph|)
  {
    SessionByClosure(pre, initial, requests);
    ClosureAllBounded(pre, requests, |pre.graph|);
    AllFineWork(pre, initial, ClosureAll(pre, requests, |pre.graph|));
  }

  lemma AllFineWork(pre: Env, live: set<nat>, fs: set<nat>)
    requires Fresh(pre) && AllFine(pre)
    ensures AllOwn(pre, live, fs)
  {
  }

  /** A request only appends, and only up to itself. */
  predicate Appended(e: Env, active: seq<nat>, next: seq<nat>, bound: nat) {
    && Ordered(e, next) && active <= next
    && forall g | g in next && g !in active :: g < bound
  }

  lemma AppendOne(e: Env, active: seq<nat>, ready: seq<nat>, f: nat)
    requires WellFormed(e) && f < |e.graph| && Appended(e, active, ready, f) && f !in active
    requires Elems(e.graph[f].deps) <= Elems(ready)
    ensures Appended(e, active, ready + [f], f + 1)
  {
    OrderedAppend(e, ready, f);
    assert active <= ready + [f];
  }

  lemma SetUpAppends(e: Env, ready: State, f: nat)
    requires WellFormed(e) && f < |e.graph|
    ensures var (next, ok) := SetUp(e, ready, f);
            next.active == if ok then ready.active + [f] else ready.active
  {
  }

  lemma {:induction false} RequestOrdered(e: Env, st: State, f: nat)
    requires WellFormed(e) && Ordered(e, st.active) && f < |e.graph|
    ensures var (next, ok) := Request(e, st, f); Appended(e, st.active, next.active, f + 1) && (ok ==> f in next.active)
    decreases f, 1, 0
  {
    if f !in st.active && f !in st.failed {
      var deps := e.graph[f].deps;
      AllOrdered(e, st, deps, f);
      var (ready, ok) := RequestAll(e, st, deps, f);
      if ok {
        SetUpAppends(e, ready, f);
        AppendOne(e, st.active, ready.active, f);
      }
    }
  }

  lemma AppendedTwice(e: Env, active: seq<nat>, mid: seq<nat>, next: seq<nat>, bound: nat, head: nat)
    requires Appended(e, active, mid, head + 1) && Appended(e, mid, next, bound) && head < bound
    ensures Appended(e, active, next, bound)
  {
  }

  lemma {:induction false} AllOrdered(e: Env, st: State, fs: seq<nat>, bound: nat)
    requires WellFormed(e) && Ordered(e, st.active) && bound <= |e.graph| && Below(fs, bound)
    ensures var (next, ok) := RequestAll(e, st, fs, bound);
            Appended(e, st.active, next.active, bound) && (ok ==> Elems(fs) <= Elems(next.active))
    decreases bound, 0, |fs|
  {
    if fs != [] {
      RequestOrdered(e, st, fs[0]);
      var (mid, ok) := Request(e, st, fs[0]);
      if ok {
        AllOrdered(e, mid, fs[1..], bound);
        AppendedTwice(e, st.active, mid.active, RequestAll(e, mid, fs[1..], bound).0.active, bound, fs[0]);
        assert fs == [fs[0]] + fs[1..];
      }
    }
  }

  lemma {:induction false} SessionOrdered(e: Env, st: State, requests: seq<nat>)
    requires WellFormed(e) && Ordered(e, st.active) && Below(requests, |e.graph|)
    ensures Ordered(e, Session(e, st, requests).active)
    decreases |requests|
  {
    if requests != [] {
      RequestOrdered(e, st, requests[0]);
      SessionOrdered(e, Request(e, st, requests[0]).0, requests[1..]);
    }
  }

  /** The fixtures of the second closure that the first has not: nothing to look up among them. */
  predicate NothingNew(e: Env, before: set<nat>, after: set<nat>) {
    forall f | f in after && f !in before && f < |e.graph| :: !e.graph[f].kind.Resource?
  }

  /**
   With no set-up failing by itself: the second phase finds everything it asks for and ends where the first began
   exactly when the two phases request the same closure, up to namespaces only the second asks for, and no finalizer
   raises on what the first left. In that case prerequisites are live at every step of both.
   */
  lemma UpgradeRestores(pre: Env, post: Env, initial: set<nat>, preRequests: seq<nat>, postRequests: seq<nat>)
    requires Upgrade(pre, post, initial, preRequests, postRequests) && AllFine(pre) && AllFine(post)
    ensures var before := ClosureAll(pre, preRequests, |pre.graph|);
            var after := ClosureAll(post, postRequests, |post.graph|);
            var s := Session(pre, Begin(initial), preRequests);
            var t := Session(post, Begin(initial + before), postRequests);
            && Below(s.active, |pre.graph|) && Close(pre, s).live == initial + before && AllClosed(pre, Close(pre, s))
            && Below(t.active, |pre.graph|)
            && (t.failed == {} <==> NothingNew(post, before, after))
            && ((t.failed == {} && Close(post, t).live == initial)
                  <==> (NothingNew(post, before, after) && before <= after && before !! post.stuck))
            && (t.failed == {} && Close(post, t).live == initial ==> AllClosed(post, Close(post, t)))
  {
    var before := ClosureAll(pre, preRequests, |pre.graph|);
    var after := ClosureAll(post, postRequests, |post.graph|);
    var kept := initial + before;
    KeepingRun(pre, initial, preRequests);
    FineLeft(pre, initial, preRequests);
    FindingRun(post, kept, postRequests);
    FoundAll(pre, post, initial, before, postRequests);
    UpgradeRestoresExactly(pre, post, initial, preRequests, postRequests);
    assert before <= after - post.stuck <==> before <= after && before !! post.stuck;
  }

  lemma FoundAll(pre: Env, post: Env, initial: set<nat>, before: set<nat>, requests: seq<nat>)
    requires Post(post) && AllFine(post) && Clean(post, initial) && Below(requests, |post.graph|)
    ensures var kept := initial + before;
            var missed := ReachedBy(post, kept, requests) - FoundBy(post, kept, requests);
            var after := ClosureAll(post, requests, |post.graph|);
            && (missed == {} <==> NothingNew(post, before, after))
            && (missed == {} ==> FoundBy(post, kept, requests) == after)
  {
    var kept := initial + before;
    SessionByClosure(post, kept, requests);
    var reached, found := ReachedBy(post, kept, requests), FoundBy(post, kept, requests);
    NothingMissed(post, kept, requests);
    var after := ClosureAll(post, requests, |post.graph|);
    assert AllOwn(post, kept, after) <==> NothingNew(post, before, after);
    if AllWork(post, kept, reached) {
      assert found == reached;
    }
  }

  lemma NothingMissed(post: Env, live: set<nat>, requests: seq<nat>)
    requires WellFormed(post) && Below(requests, |post.graph|)
    ensures ReachedBy(post, live, requests) - FoundBy(post, live, requests) == {}
            <==> AllWork(post, live, ReachedBy(post, live, requests))
  {
    SessionByClosure(post, live, requests);
    var reached, found := ReachedBy(post, live, requests), FoundBy(post, live, requests);
    if reached - found == {} {
      forall g | g in reached && g < |post.graph| ensures Works(post, live, g) {
        assert g !in reached - found;
      }
    }
  }

  /** The vector database fixtures: namespace 0, secret 1, etcd deployment and service 2 and 3, Milvus 4
      and 5, PGVector 6 and 7, Qdrant 8 and 9, each with the fixtures it takes as arguments, in order. */
  const VECTOR_IO: seq<Fixture> := [
    Fixture(Project, []), Fixture(Resource, [0]), Fixture(Resource, [0]), Fixture(Resource, [0]),
    Fixture(Resource, [0, 2, 3, 1]), Fixture(Resource, [0, 4]),
    Fixture(Resource, [0, 1]), Fixture(Resource, [0, 6]),
    Fixture(Resource, [0, 1]), Fixture(Resource, [0, 8])
  ]

  function Pre(): Env {
    Env(VECTOR_IO, Options(true, false, false), seq(10, i => Fine), {})
  }

  function Post10(stuck: set<nat>): Env {
    Env(VECTOR_IO, Options(false, true, false), seq(10, i => Fine), stuck)
  }

  /** The vector database fixtures, with any tests asking for any of them before and after the upgrade. */
  lemma VectorIoUpgrade(initial: set<nat>, preRequests: seq<nat>, postRequests: seq<nat>, stuck: set<nat>)
    requires (forall r | r in initial :: r >= 10) && Below(preRequests, 10) && Below(postRequests, 10)
    ensures WellFormed(Pre()) && WellFormed(Post10(stuck))
    ensures var before, after := ClosureAll(Pre(), preRequests, 10), ClosureAll(Post10(stuck), postRequests, 10);
            var t := Session(Post10(stuck), Begin(initial + before), postRequests);
            && Below(t.active, 10)
            && ((t.failed == {} && Close(Post10(stuck), t).live == initial)
                  <==> (before <= after && after <= before + {0} && before !! stuck))
  {
    VectorIoEnvs(stuck);
    UpgradeRestores(Pre(), Post10(stuck), initial, preRequests, postRequests);
    ClosureAllBounded(Post10(stuck), postRequests, 10);
    OnlyNamespaceNew(ClosureAll(Pre(), preRequests, 10), ClosureAll(Post10(stuck), postRequests, 10), stuck);
  }

  lemma VectorIoEnvs(stuck: set<nat>)
    ensures WellFormed(Pre()) && WellFormed(Post10(stuck)) && AllFine(Pre()) && AllFine(Post10(stuck))
    ensures Fresh(Pre()) && !Pre().options.Teardown() && Post(Post10(stuck))
  {
  }

  lemma OnlyNamespaceNew(before: set<nat>, after: set<nat>, stuck: set<nat>)
    requires forall f | f in after :: f < 10
    ensures NothingNew(Post10(stuck), before, after) <==> after <= before + {0}
  {
    assert forall f: nat | f < 10 :: VECTOR_IO[f].kind.Resource? <==> f != 0;
  }

  lemma SecretClosure()
    ensures WellFormed(Pre()) && ClosureAll(Pre(), [1], 10) == {0, 1}
  {
    VectorIoEnvs({});
    assert Pre().graph[1].deps == [0] && [0][1..] == [] && [1][1..] == [];
    assert Closure(Pre(), 0) == {0};
    assert ClosureAll(Pre(), [0], 1) == {0};
    assert Closure(Pre(), 1) == {0, 1};
  }

  /** Asked for before and not after, the secret and its namespace stay. */
  lemma OneSidedRequest()
    ensures WellFormed(Pre()) && WellFormed(Post10({})) && ClosureAll(Pre(), [1], 10) == {0, 1}
    ensures Close(Post10({}), Session(Post10({}), Begin({0, 1}), [])).live == {0, 1}
  {
    VectorIoEnvs({});
    SecretClosure();
  }

  /** Asked for the namespace alone, the second phase deletes it under the secret. */
  lemma NamespaceFirst()
    ensures WellFormed(Pre()) && WellFormed(Post10({})) && ClosureAll(Pre(), [1], 10) == {0, 1}
    ensures var t := Session(Post10({}), Begin({0, 1}), [0]);
            Below(t.active, 10) && Close(Post10({}), t).live == {1} && !AllClosed(Post10({}), Close(Post10({}), t))
  {
    VectorIoEnvs({});
    SecretClosure();
    var post, start := Post10({}), Begin({0, 1});
    var t := Request(post, start, 0).0;
    assert post.graph[0].deps == [] && [0][1..] == [];
    assert t == start.(active := [0]) by { assert [] + [0] == [0]; }
    assert Session(post, start, [0]) == Session(post, t, []) == t;
    var end := Close(post, t);
    assert [0][..0] == [] && {0, 1} - {0} == {1} && [{0, 1}] + [{1}] == [{0, 1}, {1}];
    var next := SetLive(t, {1}).(active := []);
    assert Deletes(post, 0) && end == Close(post, next) == next;
    assert {1} in end.trace && post.graph[1].deps == [0] && 0 in Elems([0]) && !Closed(post, {1});
  }

  /** A secret requested with both phases selected: it is looked for, and not there. */
  lemma BothPhasesWitness()
    ensures var e := Env(VECTOR_IO, Options(true, true, false), seq(10, i => Fine), {});
            WellFormed(e) && !Request(e, Begin({}), 1).1 && Request(e, Begin({}), 0).1
  {
    var e := Env(VECTOR_IO, Options(true, true, false), seq(10, i => Fine), {});
    BothPhasesFindNothing(e, {}, [], 1);
    BothPhasesFindNothing(e, {}, [], 0);
  }
}
