/**
 Waiters that want several good samples in a row: `wait_for_mcp_catalog_api` and `wait_for_pods_running`,
 each with one counter, proved against definitions that look at whole windows of samples. The sampler is
 the sequence of samples it yields before it times out.
 */
module Stability {
  import opened Wrappers

  // ----- The catalog waiter

  /** A parsed payload; its sorted dump identifies it. */
  datatype Payload = Payload(size: int, dump: string)

  /** The last `n` samples up to `i` are one payload of positive size. */
  ghost predicate StableWindow(samples: seq<Payload>, i: nat, n: nat)
    requires i < |samples|
  {
    n <= i + 1 && samples[i].size > 0 && forall j | i - n < j <= i :: samples[j].dump == samples[i].dump
  }

  /** Payloads are determined by their dumps. */
  ghost predicate Consistent(samples: seq<Payload>) {
    forall i, j | 0 <= i < |samples| && 0 <= j < |samples| && samples[i].dump == samples[j].dump ::
        samples[i] == samples[j]
  }

  /** Length of the longest such window ending at `i`. */
  function StableLength(samples: seq<Payload>, i: nat): (n: nat)
    requires i < |samples|
    ensures n <= i + 1
  {
    if samples[i].size <= 0 then 0
    else if i > 0 && samples[i - 1].dump == samples[i].dump then 1 + StableLength(samples, i - 1)
    else 1
  }

  lemma WindowReachesBack(samples: seq<Payload>, i: nat, n: nat)
    requires i < |samples| && n > 1 && StableWindow(samples, i, n)
    ensures i > 0 && samples[i - 1].dump == samples[i].dump
  {
  }

  lemma {:induction false} StableLengthIsLongest(samples: seq<Payload>, i: nat, n: nat)
    requires i < |samples| && Consistent(samples) && n > 0
    ensures StableWindow(samples, i, n) <==> n <= StableLength(samples, i)
  {
    if n > 1 && StableWindow(samples, i, n) {
      WindowReachesBack(samples, i, n);
    }
    if samples[i].size > 0 && i > 0 && samples[i - 1].dump == samples[i].dump {
      assert samples[i - 1] == samples[i];
      if n > 1 {
        StableLengthIsLongest(samples, i - 1, n - 1);
        if StableWindow(samples, i - 1, n - 1) {
          assert StableWindow(samples, i, n);
        }
        if StableWindow(samples, i, n) {
          assert forall j | i - n < j <= i - 1 :: samples[j].dump == samples[i].dump;
          assert StableWindow(samples, i - 1, n - 1);
        }
      }
    }
  }

  /** At least one repetition is needed, whatever the argument says. */
  function Needed(checks: int): (n: nat)
    ensures n >= 2
  {
    if checks > 1 then checks + 1 else 2
  }

  /** Returns at the first sample that ends a long enough window, and keeps on past the end if none does. */
  method WaitForCatalog(samples: seq<Payload>, checks: int) returns (r: Option<nat>)
    requires Consistent(samples)
    ensures r.Some? ==> r.value < |samples| && StableWindow(samples, r.value, Needed(checks))
    ensures forall j | 0 <= j < (if r.Some? then r.value else |samples|) :: !StableWindow(samples, j, Needed(checks))
  {
    var last: Option<string> := None;
    var stable := 0;
    var i := 0;
    while i < |samples|
      invariant 0 <= i <= |samples|
      invariant last == if i == 0 then None else Some(samples[i - 1].dump)
      invariant stable == if i == 0 || StableLength(samples, i - 1) == 0 then 0 else StableLength(samples, i - 1) - 1
      invariant stable == 0 || stable < checks
      invariant forall j | 0 <= j < i :: !StableWindow(samples, j, Needed(checks))
    {
      StableLengthIsLongest(samples, i, Needed(checks));
      if samples[i].size > 0 && last == Some(samples[i].dump) {
        assert samples[i - 1] == samples[i];
        stable := stable + 1;
        if stable >= checks {
          return Some(i);
        }
      } else {
        stable := 0;
      }
      last := Some(samples[i].dump);
      i := i + 1;
    }
    return None;
  }

  // ----- The pod waiter

  /** The last `n` samples up to `i` show no unhealthy pod. */
  ghost predicate CleanWindow(clean: seq<bool>, i: nat, n: nat)
    requires i < |clean|
  {
    n <= i + 1 && forall j | i - n < j <= i :: clean[j]
  }

  datatype PodsResult = AllRunning(at: nat) | TimedOut | GaveUp

  function AtLeastOne(checks: int): (n: nat)
    ensures n >= 1
  {
    if checks > 1 then checks else 1
  }

  /** True at the first sample that ends enough clean ones; on timeout an error exactly when there was a
      last sample and it was unhealthy, and otherwise nothing. */
  method WaitForPodsRunning(clean: seq<bool>, checks: int) returns (r: PodsResult)
    ensures r.AllRunning? ==> r.at < |clean| && CleanWindow(clean, r.at, AtLeastOne(checks))
    ensures forall j | 0 <= j < (if r.AllRunning? then r.at else |clean|) :: !CleanWindow(clean, j, AtLeastOne(checks))
    ensures !r.AllRunning? ==> (r.TimedOut? <==> |clean| > 0 && !clean[|clean| - 1])
  {
    var current := 0;
    var i := 0;
    while i < |clean|
      invariant 0 <= i <= |clean| && 0 <= current <= i
      invariant forall j | i - current <= j < i :: clean[j]
      invariant current < i ==> !clean[i - current - 1]
      invariant current == 0 || current < checks
      invariant forall j | 0 <= j < i :: !CleanWindow(clean, j, AtLeastOne(checks))
    {
      if clean[i] {
        current := current + 1;
        if current >= checks {
          return AllRunning(i);
        }
        assert current <= i ==> !clean[i - current];
      } else {
        current := 0;
        assert !CleanWindow(clean, i, AtLeastOne(checks));
      }
      i := i + 1;
    }
    return if |clean| > 0 && !clean[|clean| - 1] then TimedOut else GaveUp;
  }

  // ----- One sample

  /** A pod as one look at it finds it, or gone. `waiting` lists, per container, whether it is waiting. */
  datatype Pod = Vanished | Present(name: string, waiting: seq<bool>, deleting: bool, phase: string)

  predicate ContainerError(p: Pod)
    requires p.Present?
  {
    exists w :: w in p.waiting && w
  }

  predicate BadPhase(p: Pod)
    requires p.Present?
  {
    p.deleting || (p.phase != "Running" && p.phase != "Succeeded")
  }

  predicate Healthy(p: Pod) {
    p.Present? ==> !ContainerError(p) && !BadPhase(p)
  }

  /** A pod that is there is healthy when no container waits, it is not being deleted, and it runs or is done. */
  lemma HealthyExactly(p: Pod)
    requires p.Present?
    ensures Healthy(p) <==>
              && (forall k | 0 <= k < |p.waiting| :: !p.waiting[k])
              && !p.deleting && (p.phase == "Running" || p.phase == "Succeeded")
  {
    if k :| 0 <= k < |p.waiting| && p.waiting[k] {
      assert p.waiting[k] in p.waiting;
    }
  }

  /** Pods looked at before one is found gone, which ends the sample. */
  function Seen(pods: seq<Pod>): (r: seq<Pod>)
    ensures |r| <= |pods| && r == pods[..|r|] && (forall p | p in r :: p.Present?)
    ensures |r| < |pods| ==> pods[|r|].Vanished?
  {
    if pods == [] || pods[0].Vanished? then [] else [pods[0]] + Seen(pods[1..])
  }

  /** An entry for a waiting container and another for a bad phase, in the order of the pods. */
  function Entries(pods: seq<Pod>): seq<string>
    requires forall p | p in pods :: p.Present?
  {
    if pods == [] then []
    else
      var p := pods[|pods| - 1];
      Entries(pods[..|pods| - 1])
      + (if ContainerError(p) then [p.name] else []) + (if BadPhase(p) then [p.name] else [])
  }

  method GetNotRunningPods(pods: seq<Pod>) returns (notRunning: seq<string>)
    ensures notRunning == Entries(Seen(pods))
  {
    notRunning := [];
    var i := 0;
    while i < |pods|
      invariant 0 <= i <= |Seen(pods)|
      invariant notRunning == Entries(Seen(pods)[..i])
    {
      var p := pods[i];
      if p.Vanished? {
        assert forall k | 0 <= k < |Seen(pods)| :: Seen(pods)[k] == pods[k] && Seen(pods)[k] in Seen(pods);
        assert Seen(pods)[..i] == Seen(pods);
        return;
      }
      assert Seen(pods)[..i + 1][..i] == Seen(pods)[..i] && Seen(pods)[..i + 1][i] == p;
      if ContainerError(p) {
        notRunning := notRunning + [p.name];
      }
      if BadPhase(p) {
        notRunning := notRunning + [p.name];
      }
      i := i + 1;
    }
    assert Seen(pods)[..i] == Seen(pods);
  }

  lemma {:induction false} NoEntries(pods: seq<Pod>)
    requires forall p | p in pods :: p.Present?
    ensures Entries(pods) == [] <==> forall p | p in pods :: Healthy(p)
  {
    if pods != [] {
      var before, last := pods[..|pods| - 1], pods[|pods| - 1];
      NoEntries(before);
      assert pods == before + [last] && last in pods;
      HealthyMore(before, last);
      assert Entries(pods) == [] <==> Entries(before) == [] && Healthy(last);
    }
  }

  lemma HealthyMore(before: seq<Pod>, last: Pod)
    ensures (forall p | p in before + [last] :: Healthy(p)) <==> (forall p | p in before :: Healthy(p)) && Healthy(last)
  {
    assert last in before + [last];
    assert forall p | p in before :: p in before + [last];
  }

  predicate AllHealthy(pods: seq<Pod>) {
    forall p | p in pods :: Healthy(p)
  }

  /** A sample is clean exactly when every pod before the first vanished one is healthy; a clean sample
      speaks for all pods unless an unhealthy one stands behind a vanished one. */
  lemma CleanSampleExactly(pods: seq<Pod>)
    ensures Entries(Seen(pods)) == [] <==> AllHealthy(Seen(pods))
    ensures Entries(Seen(pods)) == [] ==> (AllHealthy(pods) <==> AllHealthy(pods[|Seen(pods)|..]))
    ensures (forall p | p in pods :: p.Present?) ==> Seen(pods) == pods
  {
    var seen := Seen(pods);
    NoEntries(seen);
    assert pods == seen + pods[|seen|..];
    assert AllHealthy(pods) <==> AllHealthy(seen) && AllHealthy(pods[|seen|..]);
    if forall p | p in pods :: p.Present? {
      assert forall k | 0 <= k < |pods| :: pods[k] in pods;
    }
  }
}
