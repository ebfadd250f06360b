/**
 The life cycle of cluster resources owned by fixtures, in fresh, pre-upgrade and post-upgrade runs.
 The fixtures of `tests/fixtures/vector_io.py` and the namespace fixture of `tests/conftest.py` follow
 one pattern; pytest resolves their dependencies on demand and finalizes them last in, first out.
 */
module FixtureLifecycle {

  /** Projects and the namespaces of the administrator are created, found and deleted in ways of their own. */
  datatype Kind = Resource | Project | AdminNamespace

  datatype Fixture = Fixture(kind: Kind, deps: seq<nat>)

  /** What the cluster does with a fixture's set-up: succeed, refuse it, or fail it once created. */
  datatype Outcome = Fine | DeployFails | FailsAfterDeploy

  datatype Options = Options(preUpgrade: bool, postUpgrade: bool, deletePreUpgradeResources: bool) {
    /** The `teardown_resources` fixture. */
    function Teardown(): bool {
      if preUpgrade then deletePreUpgradeResources else true
    }
  }

  /** `stuck` are the fixtures whose code after the yield raises before it has deleted anything: the wait for
      serverless pods that comes first, or the deletion itself. */
  datatype Env = Env(graph: seq<Fixture>, options: Options, outcomes: seq<Outcome>, stuck: set<nat>)

  /** Fixtures are numbered so that dependencies point backwards, as in any graph pytest accepts;
      projects and namespaces hang on no other resource. */
  predicate WellFormed(e: Env) {
    && |e.outcomes| == |e.graph|
    && (forall i | 0 <= i < |e.graph| :: !e.graph[i].kind.Resource? ==> e.graph[i].deps == [])
    && forall i | 0 <= i < |e.graph| :: Below(e.graph[i].deps, i)
  }

  predicate Below(fs: seq<nat>, bound: nat) {
    forall i | 0 <= i < |fs| :: fs[i] < bound
  }

  /** `trace` lists every live set passed through; `leaked` holds what was created and given up. */
  datatype State = State(
    live: set<nat>,
    active: seq<nat>,
    failed: set<nat>,
    created: set<nat>,
    leaked: set<nat>,
    trace: seq<set<nat>>)

  function Begin(live: set<nat>): State {
    State(live, [], {}, {}, {}, [live])
  }

  function SetLive(st: State, live: set<nat>): State {
    st.(live := live, trace := st.trace + [live])
  }

  /** The fixture's own code up to its yield, its dependencies being active. */
  function SetUp(e: Env, st: State, f: nat): (State, bool)
    requires WellFormed(e) && f < |e.graph|
  {
    var fails := (st.(failed := st.failed + {f}), false);
    if e.options.postUpgrade then
      if e.graph[f].kind.Resource? && (f !in st.live || !e.outcomes[f].Fine?) then fails
      else (st.(active := st.active + [f]), true)
    else if e.outcomes[f].DeployFails? then fails
    else
      var deployed := SetLive(st, st.live + {f}).(created := st.created + {f});
      if e.outcomes[f].Fine? then (deployed.(active := st.active + [f]), true)
      else if !e.graph[f].kind.Project? && e.options.Teardown() then
        (SetLive(deployed, deployed.live - {f}).(failed := st.failed + {f}), false)
      else (deployed.(failed := st.failed + {f}, leaked := st.leaked + {f}), false)
  }

  function Request(e: Env, st: State, f: nat): (State, bool)
    requires WellFormed(e) && f < |e.graph|
    decreases f, 1, 0
  {
    if f in st.active then (st, true)
    else if f in st.failed then (st, false)
    else
      var (ready, ok) := RequestAll(e, st, e.graph[f].deps, f);
      if ok then SetUp(e, ready, f) else (ready.(failed := ready.failed + {f}), false)
  }

  /** Requests in order, up to the first that fails. */
  function RequestAll(e: Env, st: State, fs: seq<nat>, bound: nat): (State, bool)
    requires WellFormed(e) && bound <= |e.graph| && Below(fs, bound)
    decreases bound, 0, |fs|
  {
    if fs == [] then (st, true)
    else
      var (next, ok) := Request(e, st, fs[0]);
      if ok then RequestAll(e, next, fs[1..], bound) else (next, false)
  }

  /** Whether a fixture's code after its yield deletes the resource. */
  predicate Cleans(e: Env, f: nat)
    requires f < |e.graph|
  {
    (e.options.postUpgrade && !e.graph[f].kind.Project?) || e.options.Teardown()
  }

  /** Whether it gets to it. What one finalizer raises is reported; the others run all the same. */
  predicate Deletes(e: Env, f: nat)
    requires f < |e.graph|
  {
    Cleans(e, f) && f !in e.stuck
  }

  function Close(e: Env, st: State): State
    requires Below(st.active, |e.graph|)
    decreases |st.active|
  {
    if st.active == [] then st
    else
      var last := |st.active| - 1;
      var f := st.active[last];
      var cleaned := if Deletes(e, f) then SetLive(st, st.live - {f}) else st;
      Close(e, cleaned.(active := st.active[..last]))
  }

  /** Tests request fixtures one after the other; a failed request fails its test, not the session. */
  function Session(e: Env, st: State, requests: seq<nat>): State
    requires WellFormed(e) && Below(requests, |e.graph|)
    decreases |requests|
  {
    if requests == [] then st else Session(e, Request(e, st, requests[0]).0, requests[1..])
  }

  // ----- The same, as pytest performs it on its own state

  class FixtureManager {
    const env: Env
    var state: State

    ghost predicate Valid()
      reads this
    {
      WellFormed(env) && Below(state.active, |env.graph|)
    }

    constructor (env: Env, live: set<nat>)
      requires WellFormed(env)
      ensures Valid() && this.env == env && state == Begin(live)
    {
      this.env := env;
      state := Begin(live);
    }

    method GetFixtureValue(f: nat) returns (ok: bool)
      requires Valid() && f < |env.graph|
      modifies this
      ensures Valid() && (state, ok) == Request(env, old(state), f)
      decreases f
    {
      ActiveInRange(env, state, f);
      if f in state.active {
        return true;
      }
      if f in state.failed {
        return false;
      }
      var deps := env.graph[f].deps;
      var i := 0;
      ok := true;
      ghost var start := state;
      while i < |deps| && ok
        invariant 0 <= i <= |deps| && Valid()
        invariant RequestAll(env, start, deps, f) == if ok then RequestAll(env, state, deps[i..], f) else (state, false)
      {
        ok := GetFixtureValue(deps[i]);
        i := i + 1;
      }
      if ok {
        var result := SetUp(env, state, f);
        state := result.0;
        ok := result.1;
      } else {
        state := state.(failed := state.failed + {f});
      }
    }

    method Finalize()
      requires Valid()
      modifies this
      ensures Valid() && state == Close(env, old(state))
      ensures var o := env.options;
              state.live == old(state).live - set f | f in old(state).active && f < |env.graph| && f !in env.stuck
                && ((o.postUpgrade && !env.graph[f].kind.Project?) || !o.preUpgrade || o.deletePreUpgradeResources)
    {
      CloseLive(env, state);
      DeletedByOptions(env, state.active);
      while state.active != []
        invariant Valid() && Close(env, state) == Close(env, old(state))
        decreases |state.active|
      {
        var last := |state.active| - 1;
        var f := state.active[last];
        if Deletes(env, f) {
          state := SetLive(state, state.live - {f});
        }
        state := state.(active := state.active[..last]);
      }
    }
  }

  lemma {:induction false} ActiveInRange(e: Env, st: State, f: nat)
    requires WellFormed(e) && f < |e.graph| && Below(st.active, |e.graph|)
    ensures Below(Request(e, st, f).0.active, |e.graph|)
    decreases f, 1, 0
  {
    if f !in st.active && f !in st.failed {
      AllActiveInRange(e, st, e.graph[f].deps, f);
    }
  }

  lemma {:induction false} AllActiveInRange(e: Env, st: State, fs: seq<nat>, bound: nat)
    requires WellFormed(e) && bound <= |e.graph| && Below(fs, bound) && Below(st.active, |e.graph|)
    ensures Below(RequestAll(e, st, fs, bound).0.active, |e.graph|)
    decreases bound, 0, |fs|
  {
    if fs != [] {
      ActiveInRange(e, st, fs[0]);
      AllActiveInRange(e, Request(e, st, fs[0]).0, fs[1..], bound);
    }
  }

  // ----- What every step keeps

  function Elems(s: seq<nat>): set<nat> {
    set f | f in s
  }

  /** Every live resource of the graph has its prerequisites live. */
  predicate Closed(e: Env, live: set<nat>) {
    forall f | f in live && f < |e.graph| :: Elems(e.graph[f].deps) <= live
  }

  predicate AllClosed(e: Env, st: State) {
    forall live | live in st.trace :: Closed(e, live)
  }

  /** No fixture twice, every fixture after the fixtures it depends on. */
  predicate Ordered(e: Env, active: seq<nat>) {
    && Below(active, |e.graph|)
    && (forall i, j | 0 <= i < j < |active| :: active[i] != active[j])
    && forall i | 0 <= i < |active| :: Elems(e.graph[active[i]].deps) <= Elems(active[..i])
  }

  predicate Fresh(e: Env) {
    WellFormed(e) && !e.options.postUpgrade
  }

  /** A run that creates: what is live is what was there and never created here, what is active, and
      what leaked; whatever leaked hangs on active fixtures. */
  predicate FreshInv(e: Env, initial: set<nat>, st: State) {
    && Fresh(e) && Ordered(e, st.active)
    && Elems(st.active) <= st.created && st.leaked <= st.created
    && st.live == (initial - st.created) + Elems(st.active) + st.leaked
    && (forall f | f in st.leaked :: f < |e.graph| && Elems(e.graph[f].deps) <= Elems(st.active))
    && (forall f | f in st.leaked :: e.graph[f].kind.Project? || !e.options.Teardown())
    && st.leaked <= st.failed && Elems(st.active) !! st.failed
    && (forall f | f in st.created :: f < |e.graph|)
  }

  /** The graph's resources are not there yet when the run starts. */
  predicate Clean(e: Env, initial: set<nat>) {
    forall f | f in initial :: f >= |e.graph|
  }

  lemma OrderedAppend(e: Env, active: seq<nat>, f: nat)
    requires WellFormed(e) && Ordered(e, active) && f < |e.graph| && f !in active
    requires Elems(e.graph[f].deps) <= Elems(active)
    ensures Ordered(e, active + [f]) && Elems(active + [f]) == Elems(active) + {f}
  {
    var more := active + [f];
    forall i | 0 <= i < |more|
      ensures Elems(e.graph[more[i]].deps) <= Elems(more[..i])
    {
      assert more[..i] == if i < |active| then active[..i] else active;
    }
  }

  predicate Ready(e: Env, initial: set<nat>, st: State, f: nat) {
    && FreshInv(e, initial, st) && f < |e.graph| && f !in st.active && f !in st.failed
    && Elems(e.graph[f].deps) <= Elems(st.active)
  }

  lemma ActivatedKeeps(e: Env, initial: set<nat>, st: State, f: nat)
    requires Ready(e, initial, st, f)
    ensures FreshInv(e, initial, SetLive(st, st.live + {f}).(created := st.created + {f}, active := st.active + [f]))
  {
    OrderedAppend(e, st.active, f);
    SetsAfterCreation(initial, st.created, Elems(st.active), st.leaked, f);
  }

  lemma SetsAfterCreation(initial: set<nat>, created: set<nat>, active: set<nat>, leaked: set<nat>, f: nat)
    ensures (initial - created) + active + leaked + {f} == (initial - (created + {f})) + (active + {f}) + leaked
  {
  }

  lemma LeakedKeeps(e: Env, initial: set<nat>, st: State, f: nat)
    requires Ready(e, initial, st, f) && (e.graph[f].kind.Project? || !e.options.Teardown())
    ensures FreshInv(e, initial, SetLive(st, st.live + {f}).(created := st.created + {f},
                                                             failed := st.failed + {f}, leaked := st.leaked + {f}))
  {
    assert st.live + {f} == (initial - (st.created + {f})) + Elems(st.active) + (st.leaked + {f});
  }

  lemma CleanedKeeps(e: Env, initial: set<nat>, st: State, f: nat, trace: seq<set<nat>>)
    requires Ready(e, initial, st, f)
    ensures FreshInv(e, initial, st.(live := st.live + {f} - {f}, created := st.created + {f},
                                     failed := st.failed + {f}, trace := trace))
  {
    assert st.live + {f} - {f} == (initial - (st.created + {f})) + Elems(st.active) + st.leaked;
  }

  lemma SetUpKeeps(e: Env, initial: set<nat>, st: State, f: nat)
    requires Ready(e, initial, st, f)
    ensures FreshInv(e, initial, SetUp(e, st, f).0)
  {
    var next := SetUp(e, st, f).0;
    if e.outcomes[f].Fine? {
      ActivatedKeeps(e, initial, st, f);
    } else if e.outcomes[f].FailsAfterDeploy? {
      if !e.graph[f].kind.Project? && e.options.Teardown() {
        CleanedKeeps(e, initial, st, f, next.trace);
      } else {
        LeakedKeeps(e, initial, st, f);
      }
    }
  }

  lemma SetUpKeepsClosed(e: Env, initial: set<nat>, st: State, f: nat)
    requires Ready(e, initial, st, f)
    requires Clean(e, initial) && AllClosed(e, st)
    ensures AllClosed(e, SetUp(e, st, f).0)
  {
    FreshClosed(e, initial, st);
    assert f !in st.live;
    assert Closed(e, st.live + {f});
    assert st.live + {f} - {f} == st.live;
  }

  lemma FreshClosed(e: Env, initial: set<nat>, st: State)
    requires FreshInv(e, initial, st) && Clean(e, initial)
    ensures Closed(e, st.live)
  {
    forall f | f in st.live && f < |e.graph|
      ensures Elems(e.graph[f].deps) <= st.live
    {
      if f in st.active {
        var i :| 0 <= i < |st.active| && st.active[i] == f;
        assert Elems(st.active[..i]) <= Elems(st.active);
      }
    }
  }

  lemma {:induction false} RequestKeeps(e: Env, initial: set<nat>, st: State, f: nat)
    requires FreshInv(e, initial, st) && f < |e.graph|
    ensures var (next, ok) := Request(e, st, f);
            FreshInv(e, initial, next) && st.active <= next.active && (ok ==> f in next.active)
            && (forall g | g in next.failed && g !in st.failed :: g <= f)
            && (forall g | g in next.active && g !in st.active :: g <= f)
    decreases f, 1, 0
  {
    if f !in st.active && f !in st.failed {
      var deps := e.graph[f].deps;
      RequestAllKeeps(e, initial, st, deps, f);
      var (ready, ok) := RequestAll(e, st, deps, f);
      if ok {
        SetUpKeeps(e, initial, ready, f);
      }
    }
  }

  lemma {:induction false} RequestAllKeeps(e: Env, initial: set<nat>, st: State, fs: seq<nat>, bound: nat)
    requires FreshInv(e, initial, st) && bound <= |e.graph| && Below(fs, bound)
    ensures var (next, ok) := RequestAll(e, st, fs, bound);
            FreshInv(e, initial, next) && st.active <= next.active && (ok ==> Elems(fs) <= Elems(next.active))
            && (forall g | g in next.failed && g !in st.failed :: g < bound)
            && (forall g | g in next.active && g !in st.active :: g < bound)
    decreases bound, 0, |fs|
  {
    if fs != [] {
      RequestKeeps(e, initial, st, fs[0]);
      RequestAllKeeps(e, initial, Request(e, st, fs[0]).0, fs[1..], bound);
    }
  }

  /** On the way, prerequisites of what is live are live. */
  lemma {:induction false} RequestClosed(e: Env, initial: set<nat>, st: State, f: nat)
    requires FreshInv(e, initial, st) && f < |e.graph| && Clean(e, initial) && AllClosed(e, st)
    ensures AllClosed(e, Request(e, st, f).0)
    decreases f, 1, 0
  {
    if f !in st.active && f !in st.failed {
      var deps := e.graph[f].deps;
      RequestAllKeeps(e, initial, st, deps, f);
      RequestAllClosed(e, initial, st, deps, f);
      var (ready, ok) := RequestAll(e, st, deps, f);
      if ok {
        SetUpKeepsClosed(e, initial, ready, f);
      }
    }
  }

  lemma {:induction false} RequestAllClosed(e: Env, initial: set<nat>, st: State, fs: seq<nat>, bound: nat)
    requires FreshInv(e, initial, st) && bound <= |e.graph| && Below(fs, bound) && Clean(e, initial) && AllClosed(e, st)
    ensures AllClosed(e, RequestAll(e, st, fs, bound).0)
    decreases bound, 0, |fs|
  {
    if fs != [] {
      RequestKeeps(e, initial, st, fs[0]);
      RequestClosed(e, initial, st, fs[0]);
      RequestAllClosed(e, initial, Request(e, st, fs[0]).0, fs[1..], bound);
    }
  }

  lemma {:induction false} SessionKeeps(e: Env, initial: set<nat>, st: State, requests: seq<nat>)
    requires FreshInv(e, initial, st) && Below(requests, |e.graph|)
    ensures FreshInv(e, initial, Session(e, st, requests))
    ensures Clean(e, initial) && AllClosed(e, st) ==> AllClosed(e, Session(e, st, requests))
    decreases |requests|
  {
    if requests != [] {
      RequestKeeps(e, initial, st, requests[0]);
      if Clean(e, initial) && AllClosed(e, st) {
        RequestClosed(e, initial, st, requests[0]);
      }
      SessionKeeps(e, initial, Request(e, st, requests[0]).0, requests[1..]);
    }
  }

  lemma OrderedPrefix(e: Env, active: seq<nat>)
    requires active != [] && Ordered(e, active)
    ensures var last := |active| - 1;
            Ordered(e, active[..last]) && Elems(active[..last]) == Elems(active) - {active[last]}
  {
    var last := |active| - 1;
    assert forall i | 0 <= i < last :: active[..last][..i] == active[..i];
  }

  // ----- What the finalizers do

  function Deleted(e: Env, active: seq<nat>): set<nat>
    requires Below(active, |e.graph|)
  {
    set f | f in active && f < |e.graph| && Deletes(e, f)
  }

  /** Which finalizers delete, by the options of the run. */
  lemma DeletedByOptions(e: Env, active: seq<nat>)
    requires Below(active, |e.graph|)
    ensures var o := e.options;
            Deleted(e, active) == set f | f in active && f < |e.graph| && f !in e.stuck
              && ((o.postUpgrade && !e.graph[f].kind.Project?) || !o.preUpgrade || o.deletePreUpgradeResources)
  {
  }

  lemma {:induction false} CloseLive(e: Env, st: State)
    requires Below(st.active, |e.graph|)
    ensures Close(e, st).live == st.live - Deleted(e, st.active)
    ensures forall live | live in st.trace :: live in Close(e, st).trace
    decreases |st.active|
  {
    if st.active != [] {
      var last := |st.active| - 1;
      var f := st.active[last];
      var cleaned := if Deletes(e, f) then SetLive(st, st.live - {f}) else st;
      CloseLive(e, cleaned.(active := st.active[..last]));
      assert st.active == st.active[..last] + [f];
      assert Deleted(e, st.active) == Deleted(e, st.active[..last]) + if Deletes(e, f) then {f} else {};
    }
  }

  /** One finalizer deletes nothing that something needs which still stands in the end. */
  lemma FinalizerClosed(e: Env, st: State)
    requires Ordered(e, st.active) && Closed(e, st.live) && st.active != [] && Closed(e, Close(e, st).live)
    ensures Closed(e, st.live - {st.active[|st.active| - 1]} + Close(e, st).live)
  {
    CloseLive(e, st);
    var last := |st.active| - 1;
    var f := st.active[last];
    var end := Close(e, st).live;
    forall g | g in st.live - {f} + end && g < |e.graph|
      ensures Elems(e.graph[g].deps) <= st.live - {f} + end
    {
      if g !in end {
        var i :| 0 <= i < |st.active| && st.active[i] == g;
        assert Elems(e.graph[g].deps) <= Elems(st.active[..i]);
        assert f !in st.active[..i];
      }
    }
  }

  /** Finalizers run in reverse order of the set-ups, so prerequisites are live all the way exactly when they are in
      the end. */
  lemma {:induction false} CloseClosed(e: Env, st: State)
    requires Ordered(e, st.active) && Closed(e, st.live) && AllClosed(e, st)
    ensures AllClosed(e, Close(e, st)) <==> Closed(e, Close(e, st).live)
    decreases |st.active|
  {
    if st.active != [] {
      var last := |st.active| - 1;
      var f := st.active[last];
      OrderedPrefix(e, st.active);
      CloseLive(e, st);
      var cleaned := if Deletes(e, f) then SetLive(st, st.live - {f}) else st;
      var next := cleaned.(active := st.active[..last]);
      CloseLive(e, next);
      if Closed(e, Close(e, st).live) {
        FinalizerClosed(e, st);
        assert Deletes(e, f) ==> st.live - {f} + Close(e, st).live == next.live;
      } else if Deletes(e, f) {
        assert next.live in next.trace && next.live in Close(e, st).trace;
      }
      if Closed(e, next.live) {
        CloseClosed(e, next);
      }
    }
  }

  /** The finalizers of a creating run delete what it holds, up to those that raise, or nothing when it keeps it. */
  lemma CloseFresh(e: Env, initial: set<nat>, st: State)
    requires FreshInv(e, initial, st)
    ensures Close(e, st).live
         == if e.options.Teardown() then (initial - st.created) + st.leaked + Elems(st.active) * e.stuck else st.live
    ensures Clean(e, initial) && AllClosed(e, st) ==> (AllClosed(e, Close(e, st)) <==> Closed(e, Close(e, st).live))
  {
    CloseLive(e, st);
    if e.options.Teardown() {
      assert Deleted(e, st.active) == Elems(st.active) - e.stuck;
    } else {
      assert Deleted(e, st.active) == {};
    }
    if Clean(e, initial) && AllClosed(e, st) {
      FreshClosed(e, initial, st);
      CloseClosed(e, st);
    }
  }

  // ----- Upgrade: one run creates and keeps, a later one finds and deletes

  predicate Post(e: Env) {
    WellFormed(e) && e.options.postUpgrade && e.options.Teardown()
  }

  predicate AllFine(e: Env) {
    forall i | 0 <= i < |e.outcomes| :: e.outcomes[i].Fine?
  }

  /** A run over existing resources only looks until its finalizers run. */
  lemma {:induction false} PostRequestLooks(e: Env, st: State, f: nat)
    requires WellFormed(e) && e.options.postUpgrade && f < |e.graph|
    ensures var next := Request(e, st, f).0; next.live == st.live && next.trace == st.trace
    decreases f, 1, 0
  {
    if f !in st.active && f !in st.failed {
      PostRequestAllLooks(e, st, e.graph[f].deps, f);
    }
  }

  lemma {:induction false} PostRequestAllLooks(e: Env, st: State, fs: seq<nat>, bound: nat)
    requires WellFormed(e) && e.options.postUpgrade && bound <= |e.graph| && Below(fs, bound)
    ensures var next := RequestAll(e, st, fs, bound).0; next.live == st.live && next.trace == st.trace
    decreases bound, 0, |fs|
  {
    if fs != [] {
      PostRequestLooks(e, st, fs[0]);
      PostRequestAllLooks(e, Request(e, st, fs[0]).0, fs[1..], bound);
    }
  }

  /** The finalizers of such a run delete exactly what it set up, up to those that raise. */
  lemma ClosePost(e: Env, st: State)
    requires Post(e) && Below(st.active, |e.graph|)
    ensures Close(e, st).live == st.live - (Elems(st.active) - e.stuck)
  {
    CloseLive(e, st);
    assert Deleted(e, st.active) == Elems(st.active) - e.stuck;
  }

  /** With everything fine, the creating and the finding run activate the same fixtures in the same order. */
  lemma {:induction false} Twins(pre: Env, post: Env, a: State, b: State, f: nat)
    requires Paired(pre, post) && f < |pre.graph| && a.active == b.active && a.failed == {} && b.failed == {}
    requires Elems(Request(pre, a, f).0.active) <= b.live
    ensures var (x, okX) := Request(pre, a, f);
            var (y, okY) := Request(post, b, f);
            okX && okY && x.active == y.active && x.failed == {} && y.failed == {} && y.live == b.live
    ensures a.active <= Request(pre, a, f).0.active
    decreases f, 1, 0
  {
    if f !in a.active {
      var deps := pre.graph[f].deps;
      TwinsActive(pre, a, f);
      TwinsAll(pre, post, a, b, deps, f);
      var x := RequestAll(pre, a, deps, f).0;
      assert f in Elems(x.active + [f]);
      PostRequestLooks(post, b, f);
    }
  }

  predicate Paired(pre: Env, post: Env) {
    && WellFormed(pre) && !pre.options.postUpgrade && !pre.options.Teardown()
    && Post(post) && post.graph == pre.graph && AllFine(pre) && AllFine(post)
  }

  /** The creating run never fails, and only ever appends. */
  lemma {:induction false} TwinsActive(pre: Env, a: State, f: nat)
    requires Fresh(pre) && AllFine(pre) && f < |pre.graph| && a.failed == {} && f !in a.active
    ensures var (x, ok) := RequestAll(pre, a, pre.graph[f].deps, f);
            ok && x.failed == {} && Request(pre, a, f).0.active == x.active + [f] && a.active <= x.active
    decreases f, 1, 0
  {
    AppendsAll(pre, a, pre.graph[f].deps, f);
  }

  lemma {:induction false} AppendsAll(pre: Env, a: State, fs: seq<nat>, bound: nat)
    requires Fresh(pre) && AllFine(pre) && bound <= |pre.graph| && Below(fs, bound) && a.failed == {}
    ensures var (x, ok) := RequestAll(pre, a, fs, bound);
            ok && x.failed == {} && a.active <= x.active
    decreases bound, 0, |fs|
  {
    if fs != [] {
      if fs[0] !in a.active {
        TwinsActive(pre, a, fs[0]);
      }
      AppendsAll(pre, Request(pre, a, fs[0]).0, fs[1..], bound);
    }
  }

  lemma {:induction false} TwinsAll(pre: Env, post: Env, a: State, b: State, fs: seq<nat>, bound: nat)
    requires Paired(pre, post) && bound <= |pre.graph| && Below(fs, bound)
    requires a.active == b.active && a.failed == {} && b.failed == {}
    requires Elems(RequestAll(pre, a, fs, bound).0.active) <= b.live
    ensures var (x, okX) := RequestAll(pre, a, fs, bound);
            var (y, okY) := RequestAll(post, b, fs, bound);
            okX && okY && x.active == y.active && x.failed == {} && y.failed == {} && y.live == b.live
    decreases bound, 0, |fs|
  {
    if fs != [] {
      var next := Request(pre, a, fs[0]).0;
      AppendsAll(pre, a, [fs[0]], bound);
      assert RequestAll(pre, a, [fs[0]], bound).0 == next by { assert [fs[0]][1..] == []; }
      AppendsAll(pre, next, fs[1..], bound);
      Twins(pre, post, a, b, fs[0]);
      TwinsAll(pre, post, next, Request(post, b, fs[0]).0, fs[1..], bound);
    }
  }

  lemma {:induction false} SessionAppends(pre: Env, a: State, requests: seq<nat>)
    requires Fresh(pre) && AllFine(pre) && Below(requests, |pre.graph|) && a.failed == {}
    ensures a.active <= Session(pre, a, requests).active
    decreases |requests|
  {
    if requests != [] {
      if requests[0] !in a.active {
        TwinsActive(pre, a, requests[0]);
      }
      SessionAppends(pre, Request(pre, a, requests[0]).0, requests[1..]);
    }
  }

  lemma {:induction false} TwinSessions(pre: Env, post: Env, a: State, b: State, requests: seq<nat>)
    requires Paired(pre, post) && Below(requests, |pre.graph|)
    requires a.active == b.active && a.failed == {} && b.failed == {}
    requires Elems(Session(pre, a, requests).active) <= b.live
    ensures var x, y := Session(pre, a, requests), Session(post, b, requests);
            x.active == y.active && x.failed == {} && y.failed == {} && y.live == b.live && y.trace == b.trace
    decreases |requests|
  {
    if requests != [] {
      var next := Request(pre, a, requests[0]).0;
      if requests[0] !in a.active {
        TwinsActive(pre, a, requests[0]);
      }
      SessionAppends(pre, next, requests[1..]);
      Twins(pre, post, a, b, requests[0]);
      PostRequestLooks(post, b, requests[0]);
      TwinSessions(pre, post, next, Request(post, b, requests[0]).0, requests[1..]);
    }
  }

  /** What stays of a graph's resources has its prerequisites among what stays. */
  predicate SelfContained(e: Env, stays: set<nat>) {
    forall f | f in stays && f < |e.graph| :: Elems(e.graph[f].deps) <= stays
  }

  lemma StaysClosed(e: Env, initial: set<nat>, stays: set<nat>)
    requires WellFormed(e) && Clean(e, initial)
    ensures Closed(e, initial + stays) <==> SelfContained(e, stays)
  {
    forall f | f in stays && f < |e.graph|
      ensures Elems(e.graph[f].deps) <= initial + stays <==> Elems(e.graph[f].deps) <= stays
    {
      assert forall d | d in Elems(e.graph[f].deps) :: d !in initial;
    }
  }

  /** A pre-upgrade run that keeps its resources, followed by a post-upgrade run of the very same requests: the second
      finds everything it asks for, both activate the same fixtures in the same order, and what stays is what a
      finalizer of the second raised on. Prerequisites are live at every step exactly when those of what stays do. */
  lemma UpgradeSameRequests(pre: Env, post: Env, initial: set<nat>, requests: seq<nat>)
    requires Paired(pre, post) && Clean(pre, initial) && Below(requests, |pre.graph|)
    ensures var s := Session(pre, Begin(initial), requests);
            Below(s.active, |pre.graph|)
            && var kept := Close(pre, s);
               var t := Session(post, Begin(kept.live), requests);
               var stays := Elems(s.active) * post.stuck;
               && t.failed == {} && t.active == s.active
               && Close(post, t).live == initial + stays
               && AllClosed(pre, kept) && (AllClosed(post, Close(post, t)) <==> SelfContained(post, stays))
  {
    var s := Session(pre, Begin(initial), requests);
    SessionKeeps(pre, initial, Begin(initial), requests);
    CloseFresh(pre, initial, s);
    var kept := Close(pre, s).live;
    NeverFails(pre, Begin(initial), requests);
    assert initial - s.created == initial;
    assert kept == initial + Elems(s.active);
    TwinSessions(pre, post, Begin(initial), Begin(kept), requests);
    FreshClosed(pre, initial, s);
    AllFoundEnds(post, initial, Session(post, Begin(kept), requests));
  }

  /** The end of a run that found exactly what its cluster holds besides `initial`. */
  lemma AllFoundEnds(post: Env, initial: set<nat>, t: State)
    requires Post(post) && Clean(post, initial) && Ordered(post, t.active) && AllClosed(post, t)
    requires t.live == initial + Elems(t.active) && Closed(post, t.live)
    ensures var stays := Elems(t.active) * post.stuck;
            && Close(post, t).live == initial + stays
            && (AllClosed(post, Close(post, t)) <==> SelfContained(post, stays))
  {
    var stays := Elems(t.active) * post.stuck;
    ClosePost(post, t);
    CloseClosed(post, t);
    StaysClosed(post, initial, stays);
    assert t.live - (Elems(t.active) - post.stuck) == initial + stays;
  }

  lemma {:induction false} NeverFails(pre: Env, a: State, requests: seq<nat>)
    requires Fresh(pre) && AllFine(pre) && Below(requests, |pre.graph|) && a.failed == {}
    ensures Session(pre, a, requests).failed == {}
    decreases |requests|
  {
    if requests != [] {
      if requests[0] !in a.active {
        TwinsActive(pre, a, requests[0]);
      }
      NeverFails(pre, Request(pre, a, requests[0]).0, requests[1..]);
    }
  }
}
