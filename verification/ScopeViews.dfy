/**
 What the scopes of `DscScopes` deliver: the components a body finds under them, and when it is reached, in the terms
 of whoever opens the scope.
 */
module ScopeViews {
  import opened DscScopes

  /** A patch that changes each field it names. */
  predicate Minimal(env: Spec, patch: Spec) {
    forall k | k in patch :: k in env && env[k] != patch[k]
  }

  /** The second of two patches of a registry session and what runs between it and its restoring. */
  predicate Enabled(env: Spec, ns: string, events: seq<Event>) {
    && |events| >= 2 && events[0].Patched? && events[|events| - 1].Restored?
    && Minimal(env, events[0].patch)
    && env + events[0].patch == env[Management("modelregistry") := "Managed"][RegistriesNamespace := ns]
    && env + events[0].patch + events[|events| - 1].patch == env
  }

  lemma SecondDelivers(p: Program, env: Spec)
    requires p.RegistryScope? && Management("modelregistry") in env && RegistriesNamespace in env
    ensures var (events, raised) := LexicalSecond(p, env);
            var ready := env[Management("modelregistry") := "Managed"][RegistriesNamespace := p.customNamespace];
            && Enabled(env, p.customNamespace, events)
            && (p.stage == AfterSecondPatch ==> |events| == 2 && raised)
            && (p.stage != AfterSecondPatch ==>
                  events[1..|events| - 1] == Lexical(p.inner, ready).0 && raised == Lexical(p.inner, ready).1)
  {
    var wanted := RegistryWanted(p.customNamespace);
    var ready := env[Management("modelregistry") := "Managed"][RegistriesNamespace := p.customNamespace];
    assert env + wanted == ready;
    RestoreUndoes(env, wanted);
    assert env + Delta(env, wanted) == env + wanted;
  }

  /**
   A registry session, whatever runs in it and wherever it fails: between its two patches the component is removed and
   keeps its namespace, under both it is managed with the custom one, and the programs inside run there and only there.
   */
  lemma RegistryDelivers(p: Program, env: Spec)
    requires p.RegistryScope? && Management("modelregistry") in env && RegistriesNamespace in env
    ensures var (events, raised) := Lexical(p, env);
            var removed := env[Management("modelregistry") := "Removed"];
            if p.stage == OnFirstPatch then events == [Restored(map[])] && raised
            else
              && |events| >= 2 && events[0].Patched? && events[|events| - 1].Restored?
              && Minimal(env, events[0].patch) && env + events[0].patch == removed
              && removed + events[|events| - 1].patch == env
              && if p.stage == BetweenPatches then |events| == 2 && raised
                 else
                   && events[1..|events| - 1] == LexicalSecond(p, removed).0
                   && raised == (LexicalSecond(p, removed).1 || p.stage == AfterRestore)
  {
    var removed := RegistryRemoved(env[RegistriesNamespace]);
    assert env + removed == env[Management("modelregistry") := "Removed"];
    RestoreUndoes(env, removed);
    assert env + Delta(env, removed) == env + removed;
  }

  /** Test code without scopes of its own. */
  predicate Direct(p: Program) {
    p.Body? || (p.Then? && Direct(p.first) && Direct(p.second))
  }

  predicate Observes(events: seq<Event>, seen: Spec) {
    Observed(seen) in events
  }

  predicate ObservesOnly(events: seq<Event>, seen: Spec) {
    forall e | e in events && e.Observed? :: e.spec == seen
  }

  lemma {:induction false} DirectSees(p: Program, env: Spec)
    requires Direct(p)
    ensures Observes(Lexical(p, env).0, env) && ObservesOnly(Lexical(p, env).0, env)
  {
    match p
    case Body(_) =>
    case Then(a, b) =>
      DirectSees(a, env);
      DirectSees(b, env);
      var events, more := Lexical(a, env).0, Lexical(b, env).0;
      assert Lexical(p, env).0 == if Lexical(a, env).1 then events else events + more;
  }

  lemma FramedEvents(events: seq<Event>, seen: Spec)
    requires |events| >= 2 && !events[0].Observed? && !events[|events| - 1].Observed?
    ensures Observes(events, seen) <==> Observes(events[1..|events| - 1], seen)
    ensures ObservesOnly(events, seen) <==> ObservesOnly(events[1..|events| - 1], seen)
  {
    assert events == [events[0]] + events[1..|events| - 1] + [events[|events| - 1]];
  }

  lemma SecondBodySees(p: Program, env: Spec, seen: Spec)
    requires p.RegistryScope? && Direct(p.inner) && p.stage != AfterSecondPatch
    requires Management("modelregistry") in env && RegistriesNamespace in env
    requires seen == env[Management("modelregistry") := "Managed"][RegistriesNamespace := p.customNamespace]
    ensures Observes(LexicalSecond(p, env).0, seen) && ObservesOnly(LexicalSecond(p, env).0, seen)
  {
    SecondDelivers(p, env);
    DirectSees(p.inner, seen);
    FramedEvents(LexicalSecond(p, env).0, seen);
  }

  /** Test code in a registry session that starts finds the registry managed, in the custom namespace. */
  lemma RegistryBodySees(p: Program, env: Spec)
    requires p.RegistryScope? && Direct(p.inner) && (p.stage == Never || p.stage == AfterRestore)
    requires Management("modelregistry") in env && RegistriesNamespace in env
    ensures var events := Lexical(p, env).0;
            var seen := env[Management("modelregistry") := "Managed"][RegistriesNamespace := p.customNamespace];
            Observes(events, seen) && ObservesOnly(events, seen)
  {
    var seen := env[Management("modelregistry") := "Managed"][RegistriesNamespace := p.customNamespace];
    var removed := env[Management("modelregistry") := "Removed"];
    Overwritten(env, Management("modelregistry"), "Removed", "Managed");
    var events, inner := Lexical(p, env).0, LexicalSecond(p, removed).0;
    RegistryDelivers(p, env);
    SecondBodySees(p, removed, seen);
    BodyUnder(events, inner, true, seen);
  }

  lemma Overwritten(env: Spec, k: Field, first: string, second: string)
    ensures env[k := first][k := second] == env[k := second]
  {
  }

  /** The components with each requested state, and nothing else changed. */
  predicate Asked(env: Spec, cs: seq<(string, string)>, seen: Spec) {
    && seen.Keys == env.Keys
    && (forall i | 0 <= i < |cs| :: Management(cs[i].0) in seen && seen[Management(cs[i].0)] == cs[i].1)
    && forall k | k in env && (forall i | 0 <= i < |cs| :: k != Management(cs[i].0)) :: seen[k] == env[k]
  }

  lemma {:induction false} RequestedValues(cs: seq<(string, string)>)
    requires UniqueNames(cs)
    ensures forall i | 0 <= i < |cs| ::
              Management(cs[i].0) in Requested(cs) && Requested(cs)[Management(cs[i].0)] == cs[i].1
  {
    if cs != [] {
      RequestedValues(cs[..|cs| - 1]);
    }
  }

  lemma RequestIsAsked(env: Spec, cs: seq<(string, string)>)
    requires UniqueNames(cs) && Known(env, cs)
    ensures Asked(env, cs, env + Requested(cs))
    ensures Delta(env, Requested(cs)) == map[] <==>
              forall i | 0 <= i < |cs| :: Management(cs[i].0) in env && env[Management(cs[i].0)] == cs[i].1
  {
    RequestedValues(cs);
    RequestedKeys(cs);
    var delta := Delta(env, Requested(cs));
    forall i | 0 <= i < |cs| ensures Management(cs[i].0) in env {
      assert cs[i] in cs;
    }
    if delta == map[] {
      forall i | 0 <= i < |cs| ensures env[Management(cs[i].0)] == cs[i].1 {
        assert Management(cs[i].0) !in delta;
      }
    } else {
      var k :| k in delta;
      var c :| c in cs && Management(c.0) == k;
      var i :| 0 <= i < |cs| && cs[i] == c;
      assert env[Management(cs[i].0)] != cs[i].1;
    }
  }

  /** A component the cluster reports on, whose condition comes true. */
  predicate Comes(name: string, notReady: set<string>) {
    name in {"modelmeshserving", "kserve", "modelregistry", "llamastackoperator"} && name !in notReady
  }

  /**
   A scope over components: an unknown one raises at once; when each has its state already the code inside runs as it
   is; otherwise it runs, under every requested state, exactly when no wait is asked for or every component gets ready,
   and the scope raises when it does not run, when it raises, or when a component changed away from managed does not
   come back.
   */
  lemma ScopeDelivers(p: Program, env: Spec)
    requires p.Scope? && WellFormed(p)
    ensures var cs := p.components;
            var (events, raised) := Lexical(p, env);
            if exists i | 0 <= i < |cs| :: Management(cs[i].0) !in env then events == [] && raised
            else if forall i | 0 <= i < |cs| :: env[Management(cs[i].0)] == cs[i].1 then
              events == Lexical(p.inner, env).0 && raised == Lexical(p.inner, env).1
            else
              && |events| >= 2 && events[0].Patched? && events[|events| - 1].Restored?
              && var seen := env + events[0].patch;
                 var reached := !p.wait || forall i | 0 <= i < |cs| :: Comes(cs[i].0, p.notReady);
                 && Minimal(env, events[0].patch) && Asked(env, cs, seen) && seen + events[|events| - 1].patch == env
                 && events[1..|events| - 1] == (if reached then Lexical(p.inner, seen).0 else [])
                 && (raised <==>
                       || !reached || Lexical(p.inner, seen).1
                       || exists i | 0 <= i < |cs| && env[Management(cs[i].0)] == "Managed" != cs[i].1 ::
                            !Comes(cs[i].0, p.notReadyAfter))
  {
    var cs := p.components;
    KnownByIndex(env, cs);
    if Known(env, cs) {
      RequestIsAsked(env, cs);
      if Delta(env, Requested(cs)) != map[] {
        ChangingScope(p, env);
        WaitsByIndex(env, cs, p.notReady, p.notReadyAfter);
      }
    }
  }

  /** The events of a scope that changes something, and when it raises. */
  lemma ChangingScope(p: Program, env: Spec)
    requires p.Scope? && Known(env, p.components) && Delta(env, Requested(p.components)) != map[]
    ensures var (events, raised) := Lexical(p, env);
            var seen := env + Requested(p.components);
            var reached := !p.wait || AllReady(p.components, p.notReady);
            && |events| >= 2 && events[0].Patched? && events[|events| - 1].Restored?
            && Minimal(env, events[0].patch)
            && env + events[0].patch == seen && seen + events[|events| - 1].patch == env
            && events[1..|events| - 1] == (if reached then Lexical(p.inner, seen).0 else [])
            && raised == (!reached || Lexical(p.inner, seen).1 || !ReconcileReady(env, p.components, p.notReadyAfter))
  {
    var delta := Delta(env, Requested(p.components));
    PatchActsAsRequest(env, p.components);
    RequestedKeys(p.components);
    MinimalDelta(env, p.components);
    var reached := !p.wait || AllReady(p.components, p.notReady);
    var inner := if reached then Lexical(p.inner, env + Requested(p.components)).0 else [];
    InBrackets(Patched(delta), inner, Restored(Backup(env, delta)));
    assert Lexical(p, env).0 == [Patched(delta)] + inner + [Restored(Backup(env, delta))];
  }

  lemma MinimalDelta(env: Spec, cs: seq<(string, string)>)
    requires Known(env, cs)
    ensures Minimal(env, Delta(env, Requested(cs)))
  {
    RequestedKeys(cs);
  }

  lemma InBrackets(first: Event, inner: seq<Event>, last: Event)
    ensures var events := [first] + inner + [last];
            events[0] == first && events[|events| - 1] == last && events[1..|events| - 1] == inner
  {
  }

  lemma KnownByIndex(env: Spec, cs: seq<(string, string)>)
    ensures Known(env, cs) <==> forall i | 0 <= i < |cs| :: Management(cs[i].0) in env
  {
    if Known(env, cs) {
      forall i | 0 <= i < |cs| ensures Management(cs[i].0) in env {
        assert cs[i] in cs;
      }
    }
  }

  lemma WaitsByIndex(env: Spec, cs: seq<(string, string)>, notReady: set<string>, notReadyAfter: set<string>)
    requires Known(env, cs)
    ensures AllReady(cs, notReady) <==> forall i | 0 <= i < |cs| :: Comes(cs[i].0, notReady)
    ensures ReconcileReady(env, cs, notReadyAfter) <==>
              forall i | 0 <= i < |cs| && Management(cs[i].0) in env
                         && env[Management(cs[i].0)] == "Managed" != cs[i].1 :: Comes(cs[i].0, notReadyAfter)
  {
    assert forall i | 0 <= i < |cs| :: cs[i] in cs;
  }

  /** Test code in a scope that changes something, when it is reached, finds each component as requested and the others
      as they were; it is reached exactly when there is no wait or every component gets ready. */
  lemma ScopeBodySees(p: Program, env: Spec, seen: Spec)
    requires p.Scope? && WellFormed(p) && Direct(p.inner) && Asked(env, p.components, seen) && seen != env
    ensures var events := Lexical(p, env).0;
            && ObservesOnly(events, seen)
            && (Observes(events, seen) <==>
                  !p.wait || forall i | 0 <= i < |p.components| :: Comes(p.components[i].0, p.notReady))
  {
    SomethingAsked(env, p.components, seen);
    ChangingScope(p, env);
    DirectSees(p.inner, seen);
    WaitsByIndex(env, p.components, p.notReady, p.notReadyAfter);
    BodyUnder(Lexical(p, env).0, Lexical(p.inner, seen).0, !p.wait || AllReady(p.components, p.notReady), seen);
  }

  lemma BodyUnder(events: seq<Event>, body: seq<Event>, reached: bool, seen: Spec)
    requires |events| >= 2 && !events[0].Observed? && !events[|events| - 1].Observed?
    requires events[1..|events| - 1] == if reached then body else []
    requires Observes(body, seen) && ObservesOnly(body, seen)
    ensures ObservesOnly(events, seen) && (Observes(events, seen) <==> reached)
  {
    FramedEvents(events, seen);
  }

  /** Test code in a scope that asks for what is there finds what is there, whatever the wait would say. */
  lemma IdleScopeBodySees(p: Program, env: Spec)
    requires p.Scope? && WellFormed(p) && Direct(p.inner) && Asked(env, p.components, env)
    ensures Observes(Lexical(p, env).0, env) && ObservesOnly(Lexical(p, env).0, env)
  {
    ScopeDelivers(p, env);
    DirectSees(p.inner, env);
  }

  /** A request for something else is a change of it, to what is asked for. */
  lemma SomethingAsked(env: Spec, cs: seq<(string, string)>, seen: Spec)
    requires UniqueNames(cs) && Asked(env, cs, seen) && seen != env
    ensures Known(env, cs) && seen == env + Requested(cs) && Delta(env, Requested(cs)) != map[]
  {
    KnownByIndex(env, cs);
    RequestIsAsked(env, cs);
    AskedOnce(env, cs, seen, env + Requested(cs));
    if Delta(env, Requested(cs)) == map[] {
      AskedOnce(env, cs, seen, env);
    }
  }

  lemma AskedOnce(env: Spec, cs: seq<(string, string)>, a: Spec, b: Spec)
    requires Asked(env, cs, a) && Asked(env, cs, b)
    ensures a == b
  {
    forall k | k in env ensures a[k] == b[k] {
      if i :| 0 <= i < |cs| && k == Management(cs[i].0) {
      }
    }
  }
}
