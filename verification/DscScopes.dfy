/**
 Scoped changes of the DataScienceCluster: `update_components_in_dsc`, the nested scopes the session
 fixtures open with it, and the two-level scope of the model registry session fixture. The code patches
 the cluster and puts it back; a reader expects lexical scoping. The two are proved to agree.
 */
module DscScopes {

  datatype Field = Management(component: string) | RegistriesNamespace

  type Spec = map<Field, string>

  datatype Event = Patched(patch: Spec) | Observed(spec: Spec) | Restored(patch: Spec)

  /** Components that can be waited for; a component outside the mapping raises a key error. */
  const MAPPED := {"modelmeshserving", "kserve", "modelregistry", "llamastackoperator"}

  const REGISTRY := "modelregistry"

  /** Where the registry fixture can fail: before its first patch lands, between the two patches, after
      the second, or once everything has been put back. */
  datatype Stage = Never | OnFirstPatch | BetweenPatches | AfterSecondPatch | AfterRestore

  /**
   Test code under any nesting of scopes. `notReady` are the components whose wait inside the scope
   fails, `notReadyAfter` those whose wait after it does; a body may raise.
   */
  datatype Program =
    | Body(raises: bool)
    | Then(first: Program, second: Program)
    | Scope(components: seq<(string, string)>, wait: bool, notReady: set<string>, notReadyAfter: set<string>,
        inner: Program)
    | RegistryScope(customNamespace: string, stage: Stage, inner: Program)

  /** A dictionary has each key once. */
  predicate WellFormed(p: Program) {
    match p
    case Body(_) => true
    case Then(a, b) => WellFormed(a) && WellFormed(b)
    case Scope(cs, _, _, _, inner) =>
      UniqueNames(cs) && WellFormed(inner)
    case RegistryScope(_, _, inner) => WellFormed(inner)
  }

  function Requested(cs: seq<(string, string)>): Spec {
    if cs == [] then map[] else Requested(cs[..|cs| - 1])[Management(cs[|cs| - 1].0) := cs[|cs| - 1].1]
  }

  predicate Known(env: Spec, cs: seq<(string, string)>) {
    forall c | c in cs :: Management(c.0) in env
  }

  /** The part of a request that differs from what is there. */
  function Delta(env: Spec, wanted: Spec): Spec {
    map k | k in wanted && (k !in env || env[k] != wanted[k]) :: wanted[k]
  }

  /** What was there under the keys of a patch. */
  function Backup(env: Spec, patch: Spec): Spec {
    map k | k in patch && k in env :: env[k]
  }

  predicate AllReady(cs: seq<(string, string)>, notReady: set<string>) {
    forall c | c in cs :: c.0 in MAPPED && c.0 !in notReady
  }

  /** The wait after a scope: only for components that were changed away from Managed. */
  predicate ReconcileReady(env: Spec, cs: seq<(string, string)>, notReady: set<string>)
    requires Known(env, cs)
  {
    forall c | c in cs && env[Management(c.0)] != c.1 && env[Management(c.0)] == "Managed" ::
      c.0 in MAPPED && c.0 !in notReady
  }

  function RegistryWanted(ns: string): Spec {
    map[Management(REGISTRY) := "Managed", RegistriesNamespace := ns]
  }

  function RegistryRemoved(ns: string): Spec {
    map[Management(REGISTRY) := "Removed", RegistriesNamespace := ns]
  }

  predicate RegistryKnown(env: Spec) {
    Management(REGISTRY) in env && RegistriesNamespace in env
  }

  /** Lexical scoping: `env` is what code at this point is meant to see. Nothing is ever put back,
      because nothing outside a scope ever changes. */
  function Lexical(p: Program, env: Spec): (seq<Event>, bool)
    decreases p, 2
  {
    match p
    case Body(raises) => ([Observed(env)], raises)
    case Then(a, b) => LexicalThen(a, b, env)
    case Scope(_, _, _, _, _) => LexicalScope(p, env)
    case RegistryScope(_, _, _) => LexicalRegistry(p, env)
  }

  function LexicalThen(a: Program, b: Program, env: Spec): (seq<Event>, bool)
    decreases Then(a, b), 1
  {
    var (events, raised) := Lexical(a, env);
    if raised then (events, true)
    else var (more, raisedToo) := Lexical(b, env); (events + more, raisedToo)
  }

  function LexicalScope(p: Program, env: Spec): (seq<Event>, bool)
    requires p.Scope?
    decreases p, 1
  {
    if !Known(env, p.components) then ([], true)
    else
      var delta := Delta(env, Requested(p.components));
      if delta == map[] then Lexical(p.inner, env)
      else
        var (events, raised) :=
          if p.wait && !AllReady(p.components, p.notReady) then ([], true)
          else Lexical(p.inner, env + Requested(p.components));
        ([Patched(delta)] + events + [Restored(Backup(env, delta))],
         raised || !ReconcileReady(env, p.components, p.notReadyAfter))
  }

  function LexicalRegistry(p: Program, env: Spec): (seq<Event>, bool)
    requires p.RegistryScope?
    decreases p, 1
  {
    if !RegistryKnown(env) then ([], true)
    else if p.stage == OnFirstPatch then ([Restored(map[])], true)
    else
      var removed := RegistryRemoved(env[RegistriesNamespace]);
      var outer := Delta(env, removed);
      var (events, raised) := if p.stage == BetweenPatches then ([], true) else LexicalSecond(p, env + removed);
      ([Patched(outer)] + events + [Restored(Backup(env, outer))], raised || p.stage == AfterRestore)
  }

  function LexicalSecond(p: Program, env: Spec): (seq<Event>, bool)
    requires p.RegistryScope?
    decreases p, 0
  {
    var wanted := RegistryWanted(p.customNamespace);
    var delta := Delta(env, wanted);
    var (body, raised) := if p.stage == AfterSecondPatch then ([], true) else Lexical(p.inner, env + wanted);
    ([Patched(delta)] + body + [Restored(Backup(env, delta))], raised)
  }

  // ----- The code

  /** The library's editor: patches a resource, remembers what it changed, puts that back. */
  class ResourceEditor {
    const patch: Spec
    var backup: Spec

    constructor (patch: Spec)
      ensures this.patch == patch && backup == map[]
    {
      this.patch := patch;
      backup := map[];
    }

    method Update(dsc: DataScienceCluster)
      modifies this`backup, dsc
      ensures backup == Backup(old(dsc.spec), Delta(old(dsc.spec), patch))
      ensures dsc.spec == old(dsc.spec) + patch
      ensures dsc.events == old(dsc.events) + [Patched(Delta(old(dsc.spec), patch))]
    {
      var delta := Delta(dsc.spec, patch);
      backup := Backup(dsc.spec, delta);
      dsc.spec := dsc.spec + delta;
      dsc.events := dsc.events + [Patched(delta)];
    }

    method Restore(dsc: DataScienceCluster)
      modifies dsc
      ensures dsc.spec == old(dsc.spec) + backup
      ensures dsc.events == old(dsc.events) + [Restored(backup)]
    {
      dsc.spec := dsc.spec + backup;
      dsc.events := dsc.events + [Restored(backup)];
    }
  }

  class DataScienceCluster {
    var spec: Spec
    var events: seq<Event>

    /** Runs a program on the live cluster. Whatever is nested in whatever, and whatever fails, the
        cluster ends as it was, and every body sees, and every patch is, what lexical scoping says. */
    method Execute(p: Program) returns (raised: bool)
      requires WellFormed(p)
      modifies this
      ensures spec == old(spec)
      ensures events == old(events) + Lexical(p, old(spec)).0 && raised == Lexical(p, old(spec)).1
      decreases p, 2
    {
      match p
      case Body(raises) =>
        events := events + [Observed(spec)];
        raised := raises;
      case Then(first, second) =>
        raised := ExecuteBoth(first, second);
      case Scope(_, _, _, _, _) =>
        raised := UpdateComponents(p);
      case RegistryScope(_, _, _) =>
        raised := RegistrySession(p);
    }

    method ExecuteBoth(first: Program, second: Program) returns (raised: bool)
      requires WellFormed(first) && WellFormed(second)
      modifies this
      ensures spec == old(spec)
      ensures events == old(events) + LexicalThen(first, second, old(spec)).0
      ensures raised == LexicalThen(first, second, old(spec)).1
      decreases Then(first, second), 1
    {
      raised := Execute(first);
      if !raised {
        raised := Execute(second);
      }
    }

    /** The first loop of `update_components_in_dsc`. */
    method Differences(cs: seq<(string, string)>) returns (known: bool, patch: Spec, toReconcile: seq<(string, string)>)
      requires UniqueNames(cs)
      ensures known <==> Known(spec, cs)
      ensures known ==> patch == Delta(spec, Requested(cs)) && toReconcile == ToReconcile(spec, cs)
    {
      patch := map[];
      toReconcile := [];
      var i := 0;
      while i < |cs|
        invariant 0 <= i <= |cs| && Known(spec, cs[..i])
        invariant patch == Delta(spec, Requested(cs[..i])) && toReconcile == ToReconcile(spec, cs[..i])
      {
        var (name, desired) := cs[i];
        if Management(name) !in spec {
          assert cs[i] in cs;
          known := false;
          return;
        }
        KnownExtends(spec, cs, i);
        DeltaExtends(spec, cs, i);
        if spec[Management(name)] != desired {
          patch := patch[Management(name) := desired];
          toReconcile := toReconcile + [(name, spec[Management(name)])];
        }
        i := i + 1;
      }
      assert cs[..|cs|] == cs;
      known := true;
    }

    /** The last loop of `update_components_in_dsc`. */
    method Reconciled(toReconcile: seq<(string, string)>, notReady: set<string>) returns (ok: bool)
      ensures ok <==> forall r | r in toReconcile :: r.1 == "Managed" ==> r.0 in MAPPED && r.0 !in notReady
    {
      var j := 0;
      while j < |toReconcile|
        invariant 0 <= j <= |toReconcile|
        invariant forall k | 0 <= k < j ::
                    toReconcile[k].1 == "Managed" ==> toReconcile[k].0 in MAPPED && toReconcile[k].0 !in notReady
      {
        if toReconcile[j].1 == "Managed" && (toReconcile[j].0 !in MAPPED || toReconcile[j].0 in notReady) {
          assert toReconcile[j] in toReconcile;
          return false;
        }
        j := j + 1;
      }
      return true;
    }

    method UpdateComponents(p: Program) returns (raised: bool)
      requires WellFormed(p) && p.Scope?
      modifies this
      ensures spec == old(spec)
      ensures events == old(events) + LexicalScope(p, old(spec)).0 && raised == LexicalScope(p, old(spec)).1
      decreases p, 1
    {
      ghost var start := spec;
      var known, patch, toReconcile := Differences(p.components);
      if !known {
        return true;
      }
      if patch == map[] {
        raised := Execute(p.inner);
      } else {
        raised := UnderPatch(p, patch);
        if !raised {
          var ready := Reconciled(toReconcile, p.notReadyAfter);
          ReconcileAgrees(start, p.components, p.notReadyAfter);
          raised := !ready;
        }
      }
    }

    /** The block under the editor. */
    method UnderPatch(p: Program, patch: Spec) returns (raised: bool)
      requires WellFormed(p) && p.Scope? && Known(spec, p.components) && patch == Delta(spec, Requested(p.components))
      modifies this
      ensures spec == old(spec)
      ensures var (inner, innerRaised) :=
                if p.wait && !AllReady(p.components, p.notReady) then ([], true)
                else Lexical(p.inner, old(spec) + Requested(p.components));
              && events == old(events) + ([Patched(patch)] + inner + [Restored(Backup(old(spec), patch))])
              && raised == innerRaised
      decreases p, 0
    {
      PatchActsAsRequest(spec, p.components);
      var editor := new ResourceEditor(patch);
      editor.Update(this);
      raised := p.wait && !AllReady(p.components, p.notReady);
      if !raised {
        raised := Execute(p.inner);
      }
      editor.Restore(this);
    }

    method RegistrySession(p: Program) returns (raised: bool)
      requires WellFormed(p) && p.RegistryScope?
      modifies this
      ensures spec == old(spec)
      ensures events == old(events) + LexicalRegistry(p, old(spec)).0 && raised == LexicalRegistry(p, old(spec)).1
      decreases p, 1, 0
    {
      if !RegistryKnown(spec) {
        return true;
      }
      var editor := new ResourceEditor(RegistryRemoved(spec[RegistriesNamespace]));
      if p.stage == OnFirstPatch {
        editor.Restore(this);
        return true;
      }
      raised := RegistryFirst(p, editor);
      raised := raised || p.stage == AfterRestore;
    }

    /** The guarded block once the first patch lands, with its restoring end. */
    method RegistryFirst(p: Program, editor: ResourceEditor) returns (raised: bool)
      requires WellFormed(p) && p.RegistryScope? && RegistryKnown(spec)
      requires editor.patch == RegistryRemoved(spec[RegistriesNamespace])
      modifies this, editor
      ensures spec == old(spec)
      ensures var (inner, innerRaised) :=
                if p.stage == BetweenPatches then ([], true) else LexicalSecond(p, old(spec) + editor.patch);
              var delta := Delta(old(spec), editor.patch);
              && events == old(events) + ([Patched(delta)] + inner + [Restored(Backup(old(spec), delta))])
              && raised == innerRaised
      decreases p, 0, 1
    {
      RestoreUndoes(spec, editor.patch);
      editor.Update(this);
      raised := RegistryInner(p);
      editor.Restore(this);
    }

    /** What the first patch guards. */
    method RegistryInner(p: Program) returns (raised: bool)
      requires WellFormed(p) && p.RegistryScope? && RegistryKnown(spec)
      modifies this
      ensures spec == old(spec)
      ensures var (inner, innerRaised) := if p.stage == BetweenPatches then ([], true) else LexicalSecond(p, old(spec));
              events == old(events) + inner && raised == innerRaised
      decreases p, 0, 1, 0
    {
      if p.stage == BetweenPatches {
        assert events + [] == events;
        return true;
      }
      raised := RegistrySecond(p);
    }

    /** The inner patch and the session under it, as a context manager. */
    method RegistrySecond(p: Program) returns (raised: bool)
      requires WellFormed(p) && p.RegistryScope? && RegistryKnown(spec)
      modifies this
      ensures spec == old(spec)
      ensures events == old(events) + LexicalSecond(p, old(spec)).0 && raised == LexicalSecond(p, old(spec)).1
      decreases p, 0, 0
    {
      var wanted := RegistryWanted(p.customNamespace);
      var second := new ResourceEditor(wanted);
      RestoreUndoes(spec, wanted);
      ghost var was, delta := events, Delta(spec, wanted);
      ghost var (inner, _) := if p.stage == AfterSecondPatch then ([], true) else Lexical(p.inner, spec + wanted);
      Bracketed(was, Patched(delta), inner, Restored(Backup(spec, delta)));
      second.Update(this);
      raised := SecondInner(p);
      second.Restore(this);
    }

    /** What the second patch guards. */
    method SecondInner(p: Program) returns (raised: bool)
      requires WellFormed(p) && p.RegistryScope? && RegistryKnown(spec)
      modifies this
      ensures spec == old(spec)
      ensures var (inner, innerRaised) :=
                if p.stage == AfterSecondPatch then ([], true) else Lexical(p.inner, old(spec));
              events == old(events) + inner && raised == innerRaised
      decreases p, 0, 0, 0
    {
      if p.stage == AfterSecondPatch {
        assert events + [] == events;
        return true;
      }
      raised := Execute(p.inner);
    }
  }

  lemma Bracketed(was: seq<Event>, first: Event, inner: seq<Event>, last: Event)
    ensures was + [first] + inner + [last] == was + ([first] + inner + [last])
  {
  }

  /** Putting the backup of a patch over known fields back undoes it. */
  lemma RestoreUndoes(env: Spec, patch: Spec)
    requires patch.Keys <= env.Keys
    ensures env + patch + Backup(env, Delta(env, patch)) == env
  {
  }

  lemma {:induction false} RequestedKeys(cs: seq<(string, string)>)
    ensures Requested(cs).Keys == set c | c in cs :: Management(c.0)
  {
    if cs != [] {
      var last := |cs| - 1;
      RequestedKeys(cs[..last]);
      assert cs == cs[..last] + [cs[last]];
    }
  }

  lemma PatchActsAsRequest(env: Spec, cs: seq<(string, string)>)
    requires Known(env, cs)
    ensures var patch := Delta(env, Requested(cs));
            && env + patch == env + Requested(cs) && Delta(env, patch) == patch
            && env + patch + Backup(env, patch) == env
  {
    RequestedKeys(cs);
  }

  function ToReconcile(env: Spec, cs: seq<(string, string)>): seq<(string, string)>
    requires Known(env, cs)
  {
    if cs == [] then []
    else
      var last := |cs| - 1;
      var (name, desired) := cs[last];
      assert cs[last] in cs;
      ToReconcile(env, cs[..last])
      + if env[Management(name)] != desired then [(name, env[Management(name)])] else []
  }

  predicate UniqueNames(cs: seq<(string, string)>) {
    forall i, j | 0 <= i < j < |cs| :: cs[i].0 != cs[j].0
  }

  lemma KnownExtends(env: Spec, cs: seq<(string, string)>, i: nat)
    requires i < |cs| && Known(env, cs[..i]) && Management(cs[i].0) in env
    ensures Known(env, cs[..i + 1])
    ensures ToReconcile(env, cs[..i + 1])
         == ToReconcile(env, cs[..i]) +
             if env[Management(cs[i].0)] != cs[i].1 then [(cs[i].0, env[Management(cs[i].0)])] else []
  {
    assert cs[..i + 1] == cs[..i] + [cs[i]];
    assert cs[..i + 1][..i] == cs[..i];
  }

  lemma DeltaExtends(env: Spec, cs: seq<(string, string)>, i: nat)
    requires i < |cs| && UniqueNames(cs) && Management(cs[i].0) in env
    ensures var before, k := Delta(env, Requested(cs[..i])), Management(cs[i].0);
            Delta(env, Requested(cs[..i + 1])) == if env[k] != cs[i].1 then before[k := cs[i].1] else before
  {
    assert cs[..i + 1][..i] == cs[..i];
    RequestedKeys(cs[..i]);
    assert Management(cs[i].0) !in Requested(cs[..i]);
  }

  lemma {:induction false} ReconcileAgrees(env: Spec, cs: seq<(string, string)>, notReady: set<string>)
    requires Known(env, cs)
    ensures (forall r | r in ToReconcile(env, cs) :: r.1 == "Managed" ==> r.0 in MAPPED && r.0 !in notReady)
            <==> ReconcileReady(env, cs, notReady)
  {
    if cs != [] {
      var last := |cs| - 1;
      ReconcileAgrees(env, cs[..last], notReady);
      assert cs == cs[..last] + [cs[last]];
    }
  }

  // ----- The patches themselves

  /** Applies what was sent to the cluster, checking every observation on the way. */
  function Replay(spec: Spec, events: seq<Event>): (Spec, bool)
    decreases |events|
  {
    if events == [] then (spec, true)
    else match events[0]
         case Patched(patch) => Replay(spec + patch, events[1..])
         case Restored(patch) => Replay(spec + patch, events[1..])
         case Observed(seen) =>
           var (end, agrees) := Replay(spec, events[1..]);
           (end, agrees && seen == spec)
  }

  lemma {:induction false} ReplayConcat(spec: Spec, a: seq<Event>, b: seq<Event>)
    ensures var (mid, ok) := Replay(spec, a);
            var (end, okToo) := Replay(mid, b);
            Replay(spec, a + b) == (end, ok && okToo)
    decreases |a|
  {
    if a == [] {
      assert a + b == b;
    } else {
      assert (a + b)[0] == a[0] && (a + b)[1..] == a[1..] + b;
      var next := match a[0] case Patched(p) => spec + p case Restored(p) => spec + p case Observed(_) => spec;
      ReplayConcat(next, a[1..], b);
    }
  }

  lemma ReplayBracket(env: Spec, patch: Spec, inner: seq<Event>)
    requires patch.Keys <= env.Keys && Replay(env + patch, inner) == (env + patch, true)
    ensures Replay(env, [Patched(patch)] + inner + [Restored(Backup(env, patch))]) == (env, true)
  {
    var events := [Patched(patch)] + inner;
    var undo := [Restored(Backup(env, patch))];
    assert events[1..] == inner && undo[1..] == [];
    ReplayConcat(env, events, undo);
    assert env + patch + Backup(env, patch) == env;
  }

  /** The patches sent are enough for every body to see its lexical environment, and cancel out. */
  lemma {:induction false} PatchesSuffice(p: Program, env: Spec)
    requires WellFormed(p)
    ensures Replay(env, Lexical(p, env).0) == (env, true)
    decreases p, 2
  {
    match p
    case Body(_) => assert [Observed(env)][1..] == [];
    case Then(a, b) =>
      PatchesSuffice(a, env);
      PatchesSuffice(b, env);
      ReplayConcat(env, Lexical(a, env).0, Lexical(b, env).0);
    case Scope(cs, wait, notReady, _, inner) =>
      if Known(env, cs) {
        PatchActsAsRequest(env, cs);
        RequestedKeys(cs);
        PatchesSuffice(inner, env);
        PatchesSuffice(inner, env + Requested(cs));
        var seen := if wait && !AllReady(cs, notReady) then [] else Lexical(inner, env + Requested(cs)).0;
        ReplayBracket(env, Delta(env, Requested(cs)), seen);
      }
    case RegistryScope(ns, stage, inner) =>
      if RegistryKnown(env) {
        RegistryPatchesSuffice(p, env);
      }
  }

  /** A minimal patch, what happens under it, and its restoring, from the patched components back. */
  lemma DeltaBracket(env: Spec, wanted: Spec, inner: seq<Event>)
    requires wanted.Keys <= env.Keys && Replay(env + wanted, inner) == (env + wanted, true)
    ensures var delta := Delta(env, wanted);
            Replay(env, [Patched(delta)] + inner + [Restored(Backup(env, delta))]) == (env, true)
  {
    assert env + Delta(env, wanted) == env + wanted;
    ReplayBracket(env, Delta(env, wanted), inner);
  }

  lemma NothingRestored(env: Spec)
    ensures Replay(env, [Restored(map[])]) == (env, true)
  {
    assert [Restored(map[])][1..] == [] && env + map[] == env;
  }

  /** A session that fails before its first patch lands, or not. */
  lemma {:induction false} RegistryPatchesSuffice(p: Program, env: Spec)
    requires WellFormed(p) && p.RegistryScope? && RegistryKnown(env)
    ensures Replay(env, LexicalRegistry(p, env).0) == (env, true)
    decreases p, 1
  {
    NothingRestored(env);
    if p.stage != OnFirstPatch {
      FirstPatchSuffices(p, env);
    }
  }

  lemma {:induction false} FirstPatchSuffices(p: Program, env: Spec)
    requires WellFormed(p) && p.RegistryScope? && RegistryKnown(env) && p.stage != OnFirstPatch
    ensures Replay(env, LexicalRegistry(p, env).0) == (env, true)
    decreases p, 1, 0
  {
    var removed := RegistryRemoved(env[RegistriesNamespace]);
    if p.stage != BetweenPatches {
      SecondPatchSuffices(p, env + removed);
    }
    DeltaBracket(env, removed, if p.stage == BetweenPatches then [] else LexicalSecond(p, env + removed).0);
  }

  lemma {:induction false} SecondPatchSuffices(p: Program, env: Spec)
    requires WellFormed(p) && p.RegistryScope? && RegistryKnown(env)
    ensures Replay(env, LexicalSecond(p, env).0) == (env, true)
    decreases p, 0
  {
    var wanted := RegistryWanted(p.customNamespace);
    PatchesSuffice(p.inner, env + wanted);
    DeltaBracket(env, wanted, if p.stage == AfterSecondPatch then [] else Lexical(p.inner, env + wanted).0);
  }

  /** Proper nesting matters: two scopes closed first in, first out put the cluster back exactly when
      they changed no common field. */
  lemma CrossedScopes(env: Spec, a: Spec, b: Spec)
    requires a.Keys <= env.Keys && b.Keys <= env.Keys
    ensures var first := Delta(env, a);
            var second := Delta(env + first, b);
            var end := env + first + second + Backup(env, first) + Backup(env + first, second);
            end == env <==> first.Keys !! second.Keys
  {
    var first := Delta(env, a);
    var second := Delta(env + first, b);
    var end := env + first + second + Backup(env, first) + Backup(env + first, second);
    if !(first.Keys !! second.Keys) {
      var k :| k in first.Keys && k in second.Keys;
      assert end[k] == first[k] != env[k];
    }
  }
}
