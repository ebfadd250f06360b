/** One look of `verify_no_failed_pods` at the pods of an inference service. */
module PodProbe {
  import opened Wrappers

  /** The reasons of a waiting and of a terminated state, where the container is in one. */
  datatype Container = Container(waiting: Option<string>, terminated: Option<string>)

  datatype Condition = Condition(kind: string, status: string)

  datatype Pod = Pod(name: string, initContainers: seq<Container>, containers: seq<Container>, phase: string,
      conditions: seq<Condition>)

  datatype Look = Again | Done | FailedPods(names: set<string>)

  const CRASH_LOOP := "CrashLoopBackOff"

  /** A crash loop is an error unless the service is served by ModelMesh or does not say how it is served. */
  predicate CrashLoopCounts(mode: Option<string>) {
    mode.Some? && mode.value != "" && mode.value != "ModelMesh"
  }

  predicate BadContainer(c: Container, mode: Option<string>) {
    || (c.waiting.Some?
        && (c.waiting.value == "InvalidImageName" || (c.waiting.value == CRASH_LOOP && CrashLoopCounts(mode))))
    || (c.terminated.Some?
        && (c.terminated.value == "Error" || (c.terminated.value == CRASH_LOOP && CrashLoopCounts(mode))))
  }

  predicate BadPod(p: Pod, mode: Option<string>) {
    || (exists c | c in p.initContainers :: BadContainer(c, mode))
    || (exists c | c in p.containers :: BadContainer(c, mode))
    || p.phase in [CRASH_LOOP, "Failed"]
  }

  predicate Ready(p: Pod) {
    Condition("Ready", "True") in p.conditions
  }

  /** A reason a container may not be in. */
  predicate BadReason(reason: Option<string>, always: string, mode: Option<string>) {
    reason == Some(always)
    || (reason == Some("CrashLoopBackOff") && mode != None && mode != Some("") && mode != Some("ModelMesh"))
  }

  /** What makes a pod bad and what makes it ready, reason by reason and state by state. */
  lemma JudgedExactly(p: Pod, mode: Option<string>)
    ensures BadPod(p, mode) <==>
              || p.phase == "Failed" || p.phase == "CrashLoopBackOff"
              || exists c | c in p.initContainers + p.containers ::
                   BadReason(c.waiting, "InvalidImageName", mode) || BadReason(c.terminated, "Error", mode)
    ensures Ready(p) <==> exists c | c in p.conditions :: c.kind == "Ready" && c.status == "True"
  {
    if c :| c in p.initContainers + p.containers && BadContainer(c, mode) {
      assert c in p.initContainers || c in p.containers;
    }
    assert forall c | c in p.initContainers || c in p.containers :: c in p.initContainers + p.containers;
    if c :| c in p.conditions && c.kind == "Ready" && c.status == "True" {
      assert c == Condition("Ready", "True");
    }
  }

  function CountReady(pods: seq<Pod>): (n: nat)
    ensures n <= |pods|
  {
    if pods == [] then 0
    else CountReady(pods[..|pods| - 1]) + if Ready(pods[|pods| - 1]) then 1 else 0
  }

  lemma {:induction false} AllCounted(pods: seq<Pod>)
    ensures CountReady(pods) == |pods| <==> forall p | p in pods :: Ready(p)
  {
    if pods != [] {
      AllCounted(pods[..|pods| - 1]);
      assert pods == pods[..|pods| - 1] + [pods[|pods| - 1]];
    }
  }

  method LookAtPods(pods: seq<Pod>, mode: Option<string>) returns (r: Look)
    ensures r.FailedPods? <==> exists p :: p in pods && BadPod(p, mode)
    ensures r.FailedPods? ==> forall n :: n in r.names <==> exists p :: p in pods && p.name == n && BadPod(p, mode)
    ensures r.Done? <==> pods != [] && forall p | p in pods :: Ready(p) && !BadPod(p, mode)
  {
    if pods == [] {
      return Again;
    }
    var waitErrors, endErrors := ["InvalidImageName"], ["Error"];
    if mode.Some? && mode.value != "" && mode.value != "ModelMesh" {
      waitErrors, endErrors := waitErrors + [CRASH_LOOP], endErrors + [CRASH_LOOP];
    }
    var failed: set<string>, ready := {}, 0;
    var n := 0;
    while n < |pods|
      invariant 0 <= n <= |pods|
      invariant forall k | 0 <= k < n && BadPod(pods[k], mode) :: pods[k].name in failed
      invariant forall name | name in failed :: exists k :: 0 <= k < n && pods[k].name == name && BadPod(pods[k], mode)
      invariant ready == CountReady(pods[..n])
    {
      var bad := AnyBadContainer(pods[n].initContainers + pods[n].containers, waitErrors, endErrors, mode);
      if bad || pods[n].phase in [CRASH_LOOP, "Failed"] {
        assert BadPod(pods[n], mode);
        failed := failed + {pods[n].name};
      }
      assert pods[..n + 1][..n] == pods[..n];
      if Ready(pods[n]) {
        ready := ready + 1;
      }
      n := n + 1;
    }
    assert pods[..n] == pods;
    if failed != {} {
      var name :| name in failed;
      return FailedPods(failed);
    }
    AllCounted(pods);
    r := if ready == |pods| then Done else Again;
  }

  /** The inner loop, up to the first bad container. */
  method AnyBadContainer(cs: seq<Container>, waitErrors: seq<string>, endErrors: seq<string>,
      ghost mode: Option<string>) returns (bad: bool)
    requires forall r :: r in waitErrors <==> r == "InvalidImageName" || (r == CRASH_LOOP && CrashLoopCounts(mode))
    requires forall r :: r in endErrors <==> r == "Error" || (r == CRASH_LOOP && CrashLoopCounts(mode))
    ensures bad <==> exists c :: c in cs && BadContainer(c, mode)
  {
    var n := 0;
    while n < |cs|
      invariant 0 <= n <= |cs|
      invariant forall k | 0 <= k < n :: !BadContainer(cs[k], mode)
    {
      if (cs[n].waiting.Some? && cs[n].waiting.value in waitErrors)
         || (cs[n].terminated.Some? && cs[n].terminated.value in endErrors) {
        assert cs[n] in cs && BadContainer(cs[n], mode);
        return true;
      }
      n := n + 1;
    }
    bad := false;
  }
}
