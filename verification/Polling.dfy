/**
 Waiting against a clock: the sampler library as far as it is relied on, the nested waits that share one
 time budget, and the vector store poll loop. Time is counted in whole ticks of any size.
 */
module Polling {

  /** What one probe of the cluster says: done, not yet, or an error the wait does not swallow. */
  datatype Verdict = Hit | Miss | Boom

  datatype Outcome = Success | Failed | Expired

  /** The cluster as a wait sees it: what a probe started at a time yields, and how long it takes. */
  datatype World = World(probe: int -> Verdict, latency: int -> nat)

  ghost predicate Quick(w: World, bound: nat) {
    forall t: int :: w.latency(t) <= bound
  }

  class Clock {
    var now: int

    constructor (now: int)
      ensures this.now == now
    {
      this.now := now;
    }
  }

  function Max(a: int, b: int): int {
    if a < b then b else a
  }

  /** `TimeoutWatch.remaining_time`. */
  function Remaining(deadline: int, now: int): (r: nat)
    ensures now + r == Max(now, deadline)
  {
    if now < deadline then deadline - now else 0
  }

  /** Probes at `t`, sleeps, probes again, as long as the deadline has not been reached. */
  function Poll(w: World, sleep: nat, now: int, deadline: int): (r: (Outcome, int))
    requires sleep > 0
    ensures r.1 >= now
    decreases deadline - now
  {
    if now >= deadline then (Expired, now)
    else
      var next := now + w.latency(now);
      match w.probe(now)
      case Hit => (Success, next)
      case Boom => (Failed, next)
      case Miss => Poll(w, sleep, next + sleep, deadline)
  }

  /** The moment of the deciding probe. */
  ghost predicate SeenBefore(w: World, from: int, deadline: int) {
    exists t :: from <= t < deadline && w.probe(t) == Hit
  }

  /** A probe is only started before the deadline, and a wait expires at most one round after it. */
  lemma {:induction false} PollBounds(w: World, sleep: nat, now: int, deadline: int, latency: nat)
    requires sleep > 0 && Quick(w, latency)
    ensures var (outcome, end) := Poll(w, sleep, now, deadline);
            && (outcome.Success? ==> now <= end < deadline + latency && SeenBefore(w, now, deadline))
            && (outcome.Failed? ==> now <= end < deadline + latency)
            && (outcome.Expired? ==> deadline <= end && (end == now || end < deadline + latency + sleep))
    decreases deadline - now
  {
    if now < deadline {
      assert w.latency(now) <= latency;
      if w.probe(now).Miss? {
        PollBounds(w, sleep, now + w.latency(now) + sleep, deadline, latency);
      } else if w.probe(now).Hit? {
        assert SeenBefore(w, now, deadline);
      }
    }
  }

  /** The sampler: its watch starts with the iteration. */
  method Sample(clock: Clock, w: World, sleep: nat, timeout: int) returns (outcome: Outcome)
    requires sleep > 0
    modifies clock
    ensures (outcome, clock.now) == Poll(w, sleep, old(clock.now), old(clock.now) + timeout)
  {
    var deadline := clock.now + timeout;
    while clock.now < deadline
      invariant Poll(w, sleep, clock.now, deadline) == Poll(w, sleep, old(clock.now), deadline)
      decreases deadline - clock.now
    {
      var verdict := w.probe(clock.now);
      clock.now := clock.now + w.latency(clock.now);
      match verdict {
        case Hit => return Success;
        case Boom => return Failed;
        case Miss => clock.now := clock.now + sleep;
      }
    }
    return Expired;
  }

  // ----- Nested waits on one budget

  const SLEEP := 5
  const POD_WAIT := 30
  const POD_SLEEP := 1
  const VERIFY_SLEEP := 10

  /** One deployment: looking whether it still exists, its replicas in the spec, its replicas deployed. */
  datatype Deployment = Deployment(lookUp: World, specReplicas: World, deployedReplicas: World)

  ghost predicate QuickDeployments(ds: seq<Deployment>, latency: nat) {
    forall d | d in ds ::
      Quick(d.lookUp, latency) && Quick(d.specReplicas, latency) && Quick(d.deployedReplicas, latency)
  }

  /** What reading an object of the cluster costs, by the time it starts. */
  type Cost = int -> nat

  ghost predicate Cheap(cost: Cost, bound: nat) {
    forall t: int :: cost(t) <= bound
  }

  method Read(clock: Clock, cost: Cost)
    modifies clock
    ensures clock.now == old(clock.now) + cost(old(clock.now))
  {
    clock.now := clock.now + cost(clock.now);
  }

  /** A wait on the rest of the budget is a wait up to its deadline, over at once when that has passed. */
  method SampleRest(clock: Clock, w: World, sleep: nat, deadline: int) returns (outcome: Outcome)
    requires sleep > 0
    modifies clock
    ensures (outcome, clock.now) == Poll(w, sleep, old(clock.now), deadline)
  {
    outcome := Sample(clock, w, sleep, Remaining(deadline, clock.now));
  }

  /** One deployment on the rest of a budget, as a function of what the cluster shows. */
  function OneRolled(d: Deployment, raw: bool, service: Cost, now: int, deadline: int): (Outcome, int) {
    var looked := now + d.lookUp.latency(now);
    if d.lookUp.probe(now) != Hit then (Failed, looked)
    else
      var read := looked + service(looked);
      if !raw then Poll(d.deployedReplicas, SLEEP, read, deadline)
      else
        var (scaled, then_) := Poll(d.specReplicas, SLEEP, read + service(read), deadline);
        if scaled.Success? then Poll(d.deployedReplicas, SLEEP, then_, deadline) else (scaled, then_)
  }

  /** One deployment after the other, up to the first that does not make it. */
  function AllRolled(ds: seq<Deployment>, raw: bool, service: Cost, now: int, deadline: int): (Outcome, int) {
    if ds == [] then (Success, now)
    else
      var (outcome, then_) := OneRolled(ds[0], raw, service, now, deadline);
      if outcome.Success? then AllRolled(ds[1..], raw, service, then_, deadline) else (outcome, then_)
  }

  function ReplicasWaited(listing: World, ds: seq<Deployment>, raw: bool, service: Cost, now: int, timeout: int)
    : (Outcome, int)
  {
    var (found, then_) := Poll(listing, SLEEP, now, now + timeout);
    if found.Success? then AllRolled(ds, raw, service, then_, now + timeout) else (found, then_)
  }

  /** `wait_for_inference_deployment_replicas`: finding the deployments, then for each of them the replica
      count in the spec (raw deployments only) and the deployed replicas. Every step reads the service again. */
  method WaitForInferenceDeploymentReplicas(clock: Clock, listing: World, ds: seq<Deployment>, raw: bool, service: Cost,
                                            timeout: int, ghost latency: nat)
    returns (outcome: Outcome)
    requires Quick(listing, latency) && QuickDeployments(ds, latency) && Cheap(service, latency)
    modifies clock
    ensures (outcome, clock.now) == ReplicasWaited(listing, ds, raw, service, old(clock.now), timeout)
    ensures clock.now >= old(clock.now)
    ensures outcome.Success? ==> timeout > 0 && clock.now < old(clock.now) + timeout + latency
    ensures outcome.Success? ==> forall d | d in ds :: Rolled(d, raw, old(clock.now), old(clock.now) + timeout, latency)
    ensures !outcome.Success? ==>
      clock.now == old(clock.now) || (timeout > 0 && clock.now < old(clock.now) + timeout + 4 * latency + SLEEP)
  {
    var deadline := clock.now + timeout;
    ReplicasBounds(listing, ds, raw, service, clock.now, timeout, latency);
    outcome := SampleRest(clock, listing, SLEEP, deadline);
    if outcome.Success? {
      PollBounds(listing, SLEEP, old(clock.now), deadline, latency);
      outcome := WaitForEach(clock, ds, raw, service, deadline, latency);
    }
  }

  /** The loop over the deployments. */
  method WaitForEach(clock: Clock, ds: seq<Deployment>, raw: bool, service: Cost, deadline: int, ghost latency: nat)
    returns (outcome: Outcome)
    requires QuickDeployments(ds, latency) && Cheap(service, latency) && clock.now < deadline + latency
    modifies clock
    ensures (outcome, clock.now) == AllRolled(ds, raw, service, old(clock.now), deadline)
  {
    ghost var all := AllRolled(ds, raw, service, clock.now, deadline);
    outcome := Success;
    var i := 0;
    while i < |ds| && outcome.Success?
      invariant 0 <= i <= |ds| && (outcome.Success? ==> clock.now < deadline + latency)
      invariant all == if outcome.Success? then AllRolled(ds[i..], raw, service, clock.now, deadline)
                       else (outcome, clock.now)
    {
      assert ds[i] in ds;
      assert ds[i..][0] == ds[i] && ds[i..][1..] == ds[i + 1..];
      outcome := WaitForOne(clock, ds[i], raw, service, deadline, latency);
      i := i + 1;
    }
  }

  lemma {:induction false} AllBounds(ds: seq<Deployment>, raw: bool, service: Cost, now: int, deadline: int,
                                     latency: nat)
    requires QuickDeployments(ds, latency) && Cheap(service, latency) && now < deadline + latency
    ensures var (outcome, end) := AllRolled(ds, raw, service, now, deadline);
            && end >= now
            && (outcome.Success? ==> end < deadline + latency)
            && (outcome.Success? ==>
                  forall d, from: int | d in ds && from <= now :: Rolled(d, raw, from, deadline, latency))
            && (!outcome.Success? ==> end < deadline + 4 * latency + SLEEP)
    decreases |ds|
  {
    if ds != [] {
      assert ds[0] in ds && forall d | d in ds[1..] :: d in ds;
      OneBounds(ds[0], raw, service, now, deadline, latency);
      var (outcome, then_) := OneRolled(ds[0], raw, service, now, deadline);
      if outcome.Success? {
        AllBounds(ds[1..], raw, service, then_, deadline, latency);
        assert forall d | d in ds :: d == ds[0] || d in ds[1..];
      }
    }
  }

  lemma ReplicasBounds(listing: World, ds: seq<Deployment>, raw: bool, service: Cost, now: int, timeout: int,
                       latency: nat)
    requires Quick(listing, latency) && QuickDeployments(ds, latency) && Cheap(service, latency)
    ensures var (outcome, end) := ReplicasWaited(listing, ds, raw, service, now, timeout);
            && end >= now
            && (outcome.Success? ==> timeout > 0 && end < now + timeout + latency)
            && (outcome.Success? ==> forall d | d in ds :: Rolled(d, raw, now, now + timeout, latency))
            && (!outcome.Success? ==> end == now || (timeout > 0 && end < now + timeout + 4 * latency + SLEEP))
  {
    var deadline := now + timeout;
    PollBounds(listing, SLEEP, now, deadline, latency);
    var (found, then_) := Poll(listing, SLEEP, now, deadline);
    if found.Success? {
      AllBounds(ds, raw, service, then_, deadline, latency);
    }
  }

  /** The deployment was there, and its replicas were seen within the time. */
  ghost predicate Rolled(d: Deployment, raw: bool, from: int, deadline: int, latency: nat) {
    && SeenBefore(d.lookUp, from, deadline + latency)
    && SeenBefore(d.deployedReplicas, from, deadline)
    && (raw ==> SeenBefore(d.specReplicas, from, deadline))
  }

  /** The loop body; a wait before it may have ended a little after the deadline. */
  method WaitForOne(clock: Clock, d: Deployment, raw: bool, service: Cost, deadline: int, ghost latency: nat)
    returns (outcome: Outcome)
    requires Quick(d.lookUp, latency) && Quick(d.specReplicas, latency) && Quick(d.deployedReplicas, latency)
    requires Cheap(service, latency) && clock.now < deadline + latency
    modifies clock
    ensures (outcome, clock.now) == OneRolled(d, raw, service, old(clock.now), deadline)
    ensures clock.now >= old(clock.now)
    ensures outcome.Success? ==> clock.now < deadline + latency
    ensures outcome.Success? ==> forall from: int | from <= old(clock.now) :: Rolled(d, raw, from, deadline, latency)
    ensures !outcome.Success? ==> clock.now < deadline + 4 * latency + SLEEP
  {
    OneBounds(d, raw, service, clock.now, deadline, latency);
    var there := d.lookUp.probe(clock.now) == Hit;
    Read(clock, d.lookUp.latency);
    if !there {
      return Failed;
    }
    Read(clock, service);
    if raw {
      Read(clock, service);
      outcome := SampleRest(clock, d.specReplicas, SLEEP, deadline);
      if !outcome.Success? {
        return;
      }
    }
    outcome := SampleRest(clock, d.deployedReplicas, SLEEP, deadline);
  }

  lemma OneBounds(d: Deployment, raw: bool, service: Cost, now: int, deadline: int, latency: nat)
    requires Quick(d.lookUp, latency) && Quick(d.specReplicas, latency) && Quick(d.deployedReplicas, latency)
    requires Cheap(service, latency) && now < deadline + latency
    ensures var (outcome, end) := OneRolled(d, raw, service, now, deadline);
            && end >= now
            && (outcome.Success? ==>
                  end < deadline + latency && forall from: int | from <= now :: Rolled(d, raw, from, deadline, latency))
            && (!outcome.Success? ==> end < deadline + 4 * latency + SLEEP)
  {
    var looked := now + d.lookUp.latency(now);
    assert d.lookUp.latency(now) <= latency;
    if d.lookUp.probe(now) == Hit {
      var read := looked + service(looked);
      assert service(looked) <= latency && service(read) <= latency;
      var first := if raw then read + service(read) else read;
      PollBounds(d.specReplicas, SLEEP, first, deadline, latency);
      var scaled := Poll(d.specReplicas, SLEEP, first, deadline);
      PollBounds(d.deployedReplicas, SLEEP, if raw then scaled.1 else first, deadline, latency);
    }
  }

  /** `verify_no_failed_pods` as a function of what the cluster shows: a wait of its own for pods to exist, then
      the given time for them to be ready without a failure. */
  function Verified(podsExist: World, podsReady: World, now: int, timeout: nat): (Outcome, int) {
    var (found, then_) := Poll(podsExist, POD_SLEEP, now, now + POD_WAIT);
    if found.Success? then Poll(podsReady, VERIFY_SLEEP, then_, then_ + timeout) else (found, then_)
  }

  /** The given time was measured before the first wait. */
  method VerifyNoFailedPods(clock: Clock, podsExist: World, podsReady: World, timeout: nat, ghost latency: nat)
    returns (outcome: Outcome)
    requires Quick(podsExist, latency) && Quick(podsReady, latency)
    modifies clock
    ensures (outcome, clock.now) == Verified(podsExist, podsReady, old(clock.now), timeout)
    ensures clock.now >= old(clock.now)
    ensures outcome.Success? ==> clock.now < old(clock.now) + POD_WAIT + timeout + 2 * latency
    ensures !outcome.Success? ==> clock.now <= old(clock.now) + POD_WAIT + timeout + VERIFY_SLEEP + 2 * latency
  {
    PollBounds(podsExist, POD_SLEEP, clock.now, clock.now + POD_WAIT, latency);
    outcome := Sample(clock, podsExist, POD_SLEEP, POD_WAIT);
    if outcome.Success? {
      PollBounds(podsReady, VERIFY_SLEEP, clock.now, clock.now + timeout, latency);
      outcome := Sample(clock, podsReady, VERIFY_SLEEP, timeout);
    }
  }

  /** The waits of `create_isvc` between creating the service and handing it out. */
  datatype Waits = Waits(
    forPods: bool, forReady: bool, stopResume: bool, raw: bool, service: Cost,
    podsExist: World, podsReady: World, listing: World, deployments: seq<Deployment>,
    ready: World, reportsStatus: bool, loaded: World, statusUpToDate: bool)

  ghost predicate QuickWaits(w: Waits, latency: nat) {
    && Quick(w.podsExist, latency) && Quick(w.podsReady, latency) && Quick(w.listing, latency)
    && QuickDeployments(w.deployments, latency) && Quick(w.ready, latency) && Quick(w.loaded, latency)
    && Cheap(w.service, latency)
  }

  /** The waits for the service itself: ready, then loaded when it reports a status. */
  function ReadyWaited(w: Waits, now: int, deadline: int): (Outcome, int) {
    var (ready, then_) := Poll(w.ready, SLEEP, now, deadline);
    if !ready.Success? then (ready, then_)
    else
      var read := then_ + w.service(then_);
      if !w.reportsStatus then (Success, read + w.service(read))
      else
        var (loaded, end) := Poll(w.loaded, SLEEP, read, deadline);
        if !loaded.Success? then (loaded, end)
        else (if w.statusUpToDate then Success else Failed, end + w.service(end))
  }

  /** The waits for pods and replicas; the second takes what the first has left. */
  function PodsWaited(w: Waits, now: int, timeout: nat): (Outcome, int) {
    var (verified, then_) := Verified(w.podsExist, w.podsReady, now, timeout);
    if !verified.Success? then (verified, then_)
    else ReplicasWaited(w.listing, w.deployments, w.raw, w.service, then_, Remaining(now + timeout, then_))
  }

  function IsvcWaited(w: Waits, now: int, timeout: nat): (Outcome, int) {
    if w.stopResume then (Success, now)
    else
      var (rolled, then_) := if w.forPods then PodsWaited(w, now, timeout) else (Success, now);
      if rolled.Success? && w.forReady then ReadyWaited(w, then_, now + timeout) else (rolled, then_)
  }

  /** Success is reached within the budget, although one of the waits inside may overrun it by the pod
      wait: whatever follows then has no time left. Failure stops within the budget, the pod wait and one
      round of the longest poll, latencies aside. */
  method CreateIsvcWaits(clock: Clock, w: Waits, timeout: nat, ghost latency: nat) returns (outcome: Outcome)
    requires QuickWaits(w, latency)
    modifies clock
    ensures (outcome, clock.now) == IsvcWaited(w, old(clock.now), timeout)
    ensures outcome.Success? && !w.stopResume && (w.forPods || w.forReady) ==>
      clock.now < old(clock.now) + timeout + 3 * latency
    ensures outcome.Success? && (w.stopResume || !(w.forPods || w.forReady)) ==> clock.now == old(clock.now)
    ensures outcome.Success? && w.forReady && !w.stopResume ==>
      SeenBefore(w.ready, old(clock.now), old(clock.now) + timeout) && (w.reportsStatus ==> w.statusUpToDate)
    ensures !outcome.Success? ==> clock.now <= old(clock.now) + timeout + POD_WAIT + VERIFY_SLEEP + 4 * latency
  {
    var deadline := clock.now + timeout;
    outcome := Success;
    if w.forPods && !w.stopResume {
      outcome := AwaitPods(clock, w, timeout, latency);
    }
    if outcome.Success? && w.forReady && !w.stopResume {
      outcome := AwaitReady(clock, w, deadline, latency);
    }
  }

  /** The waits for pods and replicas. */
  method AwaitPods(clock: Clock, w: Waits, timeout: nat, ghost latency: nat) returns (outcome: Outcome)
    requires QuickWaits(w, latency)
    modifies clock
    ensures (outcome, clock.now) == PodsWaited(w, old(clock.now), timeout)
    ensures clock.now >= old(clock.now)
    ensures outcome.Success? ==> clock.now < old(clock.now) + timeout + latency
    ensures !outcome.Success? ==> clock.now <= old(clock.now) + timeout + POD_WAIT + VERIFY_SLEEP + 4 * latency
  {
    var deadline := clock.now + timeout;
    outcome := VerifyNoFailedPods(clock, w.podsExist, w.podsReady, Remaining(deadline, clock.now), latency);
    if !outcome.Success? {
      return;
    }
    var rest := Remaining(deadline, clock.now);
    outcome := WaitForInferenceDeploymentReplicas(clock, w.listing, w.deployments, w.raw, w.service, rest, latency);
  }

  /** The waits for the service itself, on the rest of the budget. */
  method AwaitReady(clock: Clock, w: Waits, deadline: int, ghost latency: nat) returns (outcome: Outcome)
    requires QuickWaits(w, latency)
    modifies clock
    ensures (outcome, clock.now) == ReadyWaited(w, old(clock.now), deadline)
    ensures outcome.Success? ==> clock.now < deadline + 3 * latency
    ensures outcome.Success? ==>
      SeenBefore(w.ready, old(clock.now), deadline) && (w.reportsStatus ==> w.statusUpToDate)
    ensures !outcome.Success? ==>
      clock.now == old(clock.now) || clock.now < deadline + SLEEP + 3 * latency
  {
    ReadyBounds(w, clock.now, deadline, latency);
    outcome := SampleRest(clock, w.ready, SLEEP, deadline);
    if !outcome.Success? {
      return;
    }
    Read(clock, w.service);
    if w.reportsStatus {
      outcome := SampleRest(clock, w.loaded, SLEEP, deadline);
      if !outcome.Success? {
        return;
      }
    }
    Read(clock, w.service);
    outcome := if w.reportsStatus && !w.statusUpToDate then Failed else Success;
  }

  lemma ReadyBounds(w: Waits, now: int, deadline: int, latency: nat)
    requires QuickWaits(w, latency)
    ensures var (outcome, end) := ReadyWaited(w, now, deadline);
            && (outcome.Success? ==> end < deadline + 3 * latency && SeenBefore(w.ready, now, deadline))
            && (outcome.Success? ==> w.reportsStatus ==> w.statusUpToDate)
            && (!outcome.Success? ==> end == now || end < deadline + SLEEP + 3 * latency)
  {
    PollBounds(w.ready, SLEEP, now, deadline, latency);
    var (ready, then_) := Poll(w.ready, SLEEP, now, deadline);
    var read := then_ + w.service(then_);
    assert w.service(then_) <= latency && w.service(read) <= latency;
    PollBounds(w.loaded, SLEEP, read, deadline, latency);
    assert w.service(Poll(w.loaded, SLEEP, read, deadline).1) <= latency;
  }

  // ----- Waits on a cluster that gets ready

  /** From some time on every probe hits, and none before raises. */
  ghost predicate ReadyBy(w: World, since: int) {
    forall t: int :: w.probe(t) != Boom && (t >= since ==> w.probe(t) == Hit)
  }

  /** A wait succeeds when one interval and one probe after everything is ready there is time left. */
  lemma {:induction false} PollReady(w: World, sleep: nat, now: int, deadline: int, since: int, latency: nat)
    requires sleep > 0 && Quick(w, latency) && ReadyBy(w, since)
    requires Max(now, since - 1 + sleep + latency) < deadline
    ensures var (outcome, end) := Poll(w, sleep, now, deadline);
            outcome == Success && now <= end <= Max(now, since - 1 + sleep + latency) + latency
    decreases deadline - now
  {
    assert w.latency(now) <= latency && w.probe(now) != Boom;
    if w.probe(now).Miss? {
      PollReady(w, sleep, now + w.latency(now) + sleep, deadline, since, latency);
    }
  }

  /** What was listed stays there. */
  ghost predicate Stays(listing: World, lookUp: World) {
    forall t: int, u: int | listing.probe(t) == Hit && t <= u :: lookUp.probe(u) == Hit
  }

  ghost predicate DeploymentReady(d: Deployment, raw: bool, since: int) {
    ReadyBy(d.deployedReplicas, since) && (raw ==> ReadyBy(d.specReplicas, since))
  }

  lemma OneReady(d: Deployment, raw: bool, service: Cost, now: int, deadline: int, since: int, latency: nat)
    requires Quick(d.lookUp, latency) && Quick(d.specReplicas, latency) && Quick(d.deployedReplicas, latency)
    requires Cheap(service, latency) && d.lookUp.probe(now) == Hit && DeploymentReady(d, raw, since)
    requires Max(now, since - 1 + SLEEP + latency) + 5 * latency < deadline
    ensures var (outcome, end) := OneRolled(d, raw, service, now, deadline);
            outcome == Success && now <= end <= Max(now, since - 1 + SLEEP + latency) + 5 * latency
  {
    var looked := now + d.lookUp.latency(now);
    assert d.lookUp.latency(now) <= latency;
    var read := looked + service(looked);
    assert service(looked) <= latency && service(read) <= latency;
    if raw {
      PollReady(d.specReplicas, SLEEP, read + service(read), deadline, since, latency);
      var scaled := Poll(d.specReplicas, SLEEP, read + service(read), deadline).1;
      PollReady(d.deployedReplicas, SLEEP, scaled, deadline, since, latency);
    } else {
      PollReady(d.deployedReplicas, SLEEP, read, deadline, since, latency);
    }
  }

  lemma {:induction false} AllReady(ds: seq<Deployment>, raw: bool, service: Cost, now: int, deadline: int, since: int,
                                    latency: nat)
    requires QuickDeployments(ds, latency) && Cheap(service, latency)
    requires forall k | 0 <= k < |ds| :: DeploymentReady(ds[k], raw, since)
    requires forall k, u: int | 0 <= k < |ds| && now <= u :: ds[k].lookUp.probe(u) == Hit
    requires Max(now, since - 1 + SLEEP + latency) + 5 * latency * |ds| < deadline
    ensures var (outcome, end) := AllRolled(ds, raw, service, now, deadline);
            outcome == Success && now <= end <= Max(now, since - 1 + SLEEP + latency) + 5 * latency * |ds|
    decreases |ds|
  {
    if ds != [] {
      assert ds[0] in ds;
      assert 5 * latency * |ds| == 5 * latency + 5 * latency * |ds[1..]|;
      OneReady(ds[0], raw, service, now, deadline, since, latency);
      var then_ := OneRolled(ds[0], raw, service, now, deadline).1;
      assert forall k | 0 <= k < |ds[1..]| :: ds[1..][k] == ds[k + 1];
      AllReady(ds[1..], raw, service, then_, deadline, since, latency);
    }
  }

  /**
   The deployments are found and all replicas seen, whatever their number, when the listing and every count needed are
   right from some time on, and after it the budget leaves one interval and what the probes themselves take.
   */
  lemma ReplicasReady(listing: World, ds: seq<Deployment>, raw: bool, service: Cost, now: int, timeout: int, since: int,
                      latency: nat)
    requires Quick(listing, latency) && QuickDeployments(ds, latency) && Cheap(service, latency)
    requires ReadyBy(listing, since) && forall k | 0 <= k < |ds| :: DeploymentReady(ds[k], raw, since)
    requires forall k | 0 <= k < |ds| :: Stays(listing, ds[k].lookUp)
    requires Max(now, since - 1 + SLEEP + latency) + latency + 5 * latency * |ds| < now + timeout
    ensures var (outcome, end) := ReplicasWaited(listing, ds, raw, service, now, timeout);
            && outcome == Success
            && now <= end <= Max(now, since - 1 + SLEEP + latency) + latency + 5 * latency * |ds|
  {
    var deadline := now + timeout;
    PollReady(listing, SLEEP, now, deadline, since, latency);
    PollBounds(listing, SLEEP, now, deadline, latency);
    var then_ := Poll(listing, SLEEP, now, deadline).1;
    ListedBefore(listing, SLEEP, now, deadline);
    var t :| t <= then_ && listing.probe(t) == Hit;
    AllReady(ds, raw, service, then_, deadline, since, latency);
  }

  lemma {:induction false} ListedBefore(w: World, sleep: nat, now: int, deadline: int)
    requires sleep > 0 && Poll(w, sleep, now, deadline).0.Success?
    ensures exists t :: t <= Poll(w, sleep, now, deadline).1 && w.probe(t) == Hit
    decreases deadline - now
  {
    if w.probe(now).Miss? {
      ListedBefore(w, sleep, now + w.latency(now) + sleep, deadline);
    } else {
      assert w.probe(now) == Hit;
    }
  }

  /** Everything the service is waited for is right from some time on. */
  ghost predicate WaitsReady(w: Waits, since: int) {
    && ReadyBy(w.podsExist, since) && ReadyBy(w.podsReady, since) && ReadyBy(w.listing, since)
    && ReadyBy(w.ready, since) && ReadyBy(w.loaded, since)
    && (forall k | 0 <= k < |w.deployments| :: DeploymentReady(w.deployments[k], w.raw, since))
    && forall k | 0 <= k < |w.deployments| :: Stays(w.listing, w.deployments[k].lookUp)
  }

  lemma VerifiedReady(w: Waits, now: int, timeout: nat, since: int, latency: nat)
    requires QuickWaits(w, latency) && WaitsReady(w, since) && Max(now, since + latency) < now + POD_WAIT
    requires Max(now, since - 1 + VERIFY_SLEEP + latency) + latency < now + timeout
    ensures var (outcome, end) := Verified(w.podsExist, w.podsReady, now, timeout);
            outcome == Success && now <= end <= Max(now, since - 1 + VERIFY_SLEEP + latency) + 2 * latency
  {
    PollReady(w.podsExist, POD_SLEEP, now, now + POD_WAIT, since, latency);
    var then_ := Poll(w.podsExist, POD_SLEEP, now, now + POD_WAIT).1;
    PollReady(w.podsReady, VERIFY_SLEEP, then_, then_ + timeout, since, latency);
  }

  lemma PodsReady(w: Waits, now: int, timeout: nat, since: int, latency: nat)
    requires QuickWaits(w, latency) && WaitsReady(w, since) && Max(now, since + latency) < now + POD_WAIT
    requires Max(now, since - 1 + VERIFY_SLEEP + latency) + 3 * latency + 5 * latency * |w.deployments| < now + timeout
    ensures var (outcome, end) := PodsWaited(w, now, timeout);
            && outcome == Success
            && now <= end <= Max(now, since - 1 + VERIFY_SLEEP + latency) + 3 * latency + 5 * latency * |w.deployments|
  {
    assert 5 * latency * |w.deployments| >= 0;
    VerifiedReady(w, now, timeout, since, latency);
    var then_ := Verified(w.podsExist, w.podsReady, now, timeout).1;
    ReplicasReady(w.listing, w.deployments, w.raw, w.service, then_, now + timeout - then_, since, latency);
  }

  lemma ReadyReady(w: Waits, now: int, deadline: int, since: int, latency: nat)
    requires QuickWaits(w, latency) && WaitsReady(w, since) && (w.reportsStatus ==> w.statusUpToDate)
    requires Max(now, since - 1 + SLEEP + latency) + 2 * latency < deadline
    ensures ReadyWaited(w, now, deadline).0 == Success
  {
    PollReady(w.ready, SLEEP, now, deadline, since, latency);
    var then_ := Poll(w.ready, SLEEP, now, deadline).1;
    assert w.service(then_) <= latency;
    PollReady(w.loaded, SLEEP, then_ + w.service(then_), deadline, since, latency);
  }

  /**
   A service that gets ready is handed out: the pods appear in time for their own wait, and after everything is right
   the budget leaves one interval of the longest poll and what the probes take.
   */
  lemma IsvcReady(w: Waits, now: int, timeout: nat, since: int, latency: nat)
    requires QuickWaits(w, latency) && WaitsReady(w, since) && (w.reportsStatus ==> w.statusUpToDate)
    requires Max(now, since + latency) < now + POD_WAIT
    requires Max(now, since - 1 + VERIFY_SLEEP + latency) + 5 * latency + 5 * latency * |w.deployments| < now + timeout
    ensures IsvcWaited(w, now, timeout).0 == Success
  {
    PodsReady(w, now, timeout, since, latency);
    var then_ := if w.forPods then PodsWaited(w, now, timeout).1 else now;
    RoomLeft(now, then_, since, latency, 5 * latency * |w.deployments|, now + timeout);
    ReadyReady(w, then_, now + timeout, since, latency);
  }

  lemma RoomLeft(now: int, then_: int, since: int, latency: nat, probes: nat, deadline: int)
    requires now <= then_
    requires then_ == now || then_ <= Max(now, since - 1 + VERIFY_SLEEP + latency) + 3 * latency + probes
    requires Max(now, since - 1 + VERIFY_SLEEP + latency) + 5 * latency + probes < deadline
    ensures Max(then_, since - 1 + SLEEP + latency) + 2 * latency < deadline
  {
  }

  /** Of the moments an interval apart, the first that is not before the deadline. */
  function FirstLate(interval: nat, now: int, deadline: int): int
    requires interval > 0
    decreases deadline - now
  {
    if now >= deadline then now else FirstLate(interval, now + interval, deadline)
  }

  lemma {:induction false} FirstLateIs(interval: nat, now: int, deadline: int) returns (rounds: nat)
    requires interval > 0
    ensures var late := FirstLate(interval, now, deadline);
            late == now + rounds * interval && deadline <= late && (late == now || late - interval < deadline)
    decreases deadline - now
  {
    if now < deadline {
      var fewer := FirstLateIs(interval, now + interval, deadline);
      rounds := fewer + 1;
      assert rounds * interval == fewer * interval + interval;
    } else {
      rounds := 0;
    }
  }

  /** With probes that cost nothing, the wait succeeds exactly when the cluster is ready at the last probe before the
      deadline, if there is one. */
  lemma {:induction false} PollInstantly(w: World, sleep: nat, now: int, deadline: int, since: int)
    requires sleep > 0 && Quick(w, 0) && forall t: int :: w.probe(t) == if t >= since then Hit else Miss
    ensures Poll(w, sleep, now, deadline).0.Success?
            <==> now < deadline && since <= FirstLate(sleep, now, deadline) - sleep
    decreases deadline - now
  {
    assert w.latency(now) <= 0;
    if now < deadline {
      var rounds := FirstLateIs(sleep, now + sleep, deadline);
      assert rounds * sleep >= 0;
      if w.probe(now).Miss? {
        PollInstantly(w, sleep, now + sleep, deadline, since);
      }
    }
  }

  // ----- What the wait for pods takes from the given time

  /** The start of the probe that ends a wait with success. */
  function Decided(w: World, sleep: nat, now: int, deadline: int): (r: (bool, int))
    requires sleep > 0
    ensures r.0 <==> Poll(w, sleep, now, deadline).0.Success?
    ensures r.0 ==> now <= r.1 < deadline && Poll(w, sleep, now, deadline).1 == r.1 + w.latency(r.1)
    decreases deadline - now
  {
    if now >= deadline then (false, now)
    else match w.probe(now)
      case Hit => (true, now)
      case Boom => (false, now)
      case Miss => Decided(w, sleep, now + w.latency(now) + sleep, deadline)
  }

  /** Success is decided by a probe that starts within the time given. */
  ghost predicate InTime(podsReady: World, found: int, now: int, timeout: nat) {
    var (ready, at) := Decided(podsReady, VERIFY_SLEEP, found, found + timeout);
    ready ==> at < now + timeout
  }

  /** Ready from a given time on; the first probe takes `first`. */
  function ReadyFrom(found: int, first: nat, at: int): World {
    World(t => if t >= at then Hit else Miss, t => if t == found then first else 0)
  }

  /**
   Whatever the pods do, success is decided within the given time exactly when finding the pods took no time, or
   when there is time for one probe only and that starts within it.
   */
  lemma WithinGivenTimeExactly(found: int, now: int, timeout: nat)
    requires now <= found
    ensures (forall podsReady :: InTime(podsReady, found, now, timeout))
            <==> found == now || timeout == 0 || (timeout <= VERIFY_SLEEP && found < now + timeout)
  {
    if found == now || timeout == 0 {
    } else if timeout <= VERIFY_SLEEP {
      forall podsReady ensures InTime(podsReady, found, now, timeout) <== found < now + timeout {
        FirstProbeOnly(podsReady, found, timeout);
      }
      assert !InTime(ReadyFrom(found, 0, found), found, now, timeout) <==> found >= now + timeout;
    } else {
      var last := found + timeout - 1;
      var late := ReadyFrom(found, timeout - 1 - VERIFY_SLEEP, last);
      assert Decided(late, VERIFY_SLEEP, last, found + timeout) == (true, last);
      assert Decided(late, VERIFY_SLEEP, found, found + timeout) == (true, last);
      assert !InTime(late, found, now, timeout);
    }
  }

  lemma FirstProbeOnly(podsReady: World, found: int, timeout: nat)
    requires timeout <= VERIFY_SLEEP
    ensures var (ready, at) := Decided(podsReady, VERIFY_SLEEP, found, found + timeout); ready ==> at == found
  {
  }

  /**
   When probes cost nothing they stand at every tenth second, and the bound is what the last of them leaves:
   success ends within the given time, for any pods, exactly when finding them took no longer than that.
   */
  lemma WithinGivenTimeInstantly(found: int, now: int, timeout: nat)
    requires now <= found && timeout > 0
    ensures (forall podsReady | Quick(podsReady, 0) :: InTime(podsReady, found, now, timeout))
            <==> found - now <= (timeout - 1) % VERIFY_SLEEP
  {
    var rounds := (timeout - 1) / VERIFY_SLEEP;
    forall podsReady | Quick(podsReady, 0) && Decided(podsReady, VERIFY_SLEEP, found, found + timeout).0
      ensures Decided(podsReady, VERIFY_SLEEP, found, found + timeout).1 <= found + VERIFY_SLEEP * rounds
    {
      OnTheGrid(podsReady, found, timeout, 0);
    }
    var last := found + VERIFY_SLEEP * rounds;
    var late := ReadyFrom(found, 0, last);
    ReachesLast(late, found, last, found + timeout, rounds);
    assert Quick(late, 0);
  }

  lemma {:induction false} OnTheGrid(w: World, found: int, timeout: nat, k: nat)
    requires timeout > 0 && Quick(w, 0)
    ensures var (ready, at) := Decided(w, VERIFY_SLEEP, found + VERIFY_SLEEP * k, found + timeout);
            ready ==> at <= found + VERIFY_SLEEP * ((timeout - 1) / VERIFY_SLEEP)
    decreases timeout - VERIFY_SLEEP * k
  {
    var t := found + VERIFY_SLEEP * k;
    if t < found + timeout {
      assert w.latency(t) <= 0;
      OnTheGrid(w, found, timeout, k + 1);
    }
  }

  lemma {:induction false} ReachesLast(w: World, now: int, last: int, deadline: int, rounds: nat)
    requires last == now + VERIFY_SLEEP * rounds && last < deadline
    requires w.probe(last) == Hit && forall t: int | t < last :: w.probe(t) == Miss && w.latency(t) == 0
    ensures Decided(w, VERIFY_SLEEP, now, deadline) == (true, last)
    decreases rounds
  {
    if rounds > 0 {
      ReachesLast(w, now + VERIFY_SLEEP, last, deadline, rounds - 1);
    }
  }

  /** Fifteen seconds given: pods appear after twenty, are ready at thirty, and the check succeeds at thirty. */
  lemma OverrunWitness()
    ensures Verified(ReadyFrom(0, 0, 20), ReadyFrom(0, 0, 30), 0, 15) == (Success, 30)
  {
    PollUntil(ReadyFrom(0, 0, 20), POD_SLEEP, 0, 20, 20, POD_WAIT);
    PollUntil(ReadyFrom(0, 0, 30), VERIFY_SLEEP, 20, 30, 1, 35);
  }

  lemma {:induction false} PollUntil(w: World, sleep: nat, now: int, at: int, rounds: nat, deadline: int)
    requires sleep > 0 && at == now + sleep * rounds && at < deadline && Quick(w, 0)
    requires w.probe(at) == Hit && forall t: int | t < at :: w.probe(t) == Miss
    ensures Poll(w, sleep, now, deadline) == (Success, at)
    decreases rounds
  {
    assert w.latency(now) <= 0;
    if rounds > 0 {
      assert sleep * rounds == sleep + sleep * (rounds - 1);
      PollUntil(w, sleep, now + sleep, at, rounds - 1, deadline);
    }
  }

  // ----- The vector store poll loop

  datatype Status = InProgress | Completed | FailedFile | Cancelled | Unexpected

  /** What the service reports for the file at a time. */
  datatype Service = Service(status: int -> Status, latency: int -> nat)

  datatype Attached = File(status: Status) | TimedOut

  /** The poll loop as a function of what the service reports. */
  function Stored(service: Service, interval: nat, now: int, deadline: int): (Attached, int)
    requires interval > 0
    decreases deadline - now
  {
    var then_ := now + service.latency(now);
    if service.status(now) != InProgress then (File(service.status(now)), then_)
    else if then_ >= deadline then (TimedOut, then_)
    else Stored(service, interval, then_ + interval, deadline)
  }

  /** Finished from some time on, the file comes back whenever the calls made before that time end before the
      deadline. */
  lemma {:induction false} StoredWhenFinished(service: Service, interval: nat, now: int, deadline: int, since: int,
                                              latency: nat)
    requires interval > 0 && (forall t: int :: service.latency(t) <= latency)
    requires forall t: int | t >= since :: service.status(t) != InProgress
    requires since <= now || since + latency <= deadline
    ensures Stored(service, interval, now, deadline).0.File?
    decreases deadline - now
  {
    if service.status(now) == InProgress {
      assert service.latency(now) <= latency;
      StoredWhenFinished(service, interval, now + service.latency(now) + interval, deadline, since, latency);
    }
  }

  /** With calls that cost nothing, the file comes back exactly when it is finished by the first call that is not made
      before the deadline. */
  lemma {:induction false} StoredInstantly(service: Service, interval: nat, now: int, deadline: int, since: int)
    requires interval > 0 && (forall t: int :: service.latency(t) == 0)
    requires forall t: int :: service.status(t) == InProgress <==> t < since
    ensures Stored(service, interval, now, deadline).0.File? <==> since <= FirstLate(interval, now, deadline)
    decreases deadline - now
  {
    var rounds := FirstLateIs(interval, now, deadline);
    assert rounds * interval >= 0;
    assert service.latency(now) == 0;
    if now < deadline && service.status(now) == InProgress {
      StoredInstantly(service, interval, now + interval, deadline, since);
    }
  }

  /** A file that never finishes is timed out. */
  lemma {:induction false} NeverStored(service: Service, interval: nat, now: int, deadline: int)
    requires interval > 0 && forall t: int :: service.status(t) == InProgress
    ensures Stored(service, interval, now, deadline).0 == TimedOut
    decreases deadline - now
  {
    if now + service.latency(now) < deadline {
      NeverStored(service, interval, now + service.latency(now) + interval, deadline);
    }
  }

  /** Never an unfinished file; a timeout no earlier than the deadline and at most one interval and two
      calls later. */
  method VectorStoreCreateAndPoll(clock: Clock, service: Service, interval: nat, timeout: nat, ghost latency: nat)
    returns (r: Attached)
    requires interval > 0 && forall t: int :: service.latency(t) <= latency
    modifies clock
    ensures (r, clock.now) == Stored(service, interval, old(clock.now), old(clock.now) + timeout)
    ensures r.File? ==>
        r.status != InProgress && exists t :: old(clock.now) <= t <= clock.now && service.status(t) == r.status
    ensures r.File? ==> clock.now < Max(old(clock.now) + latency + 1, old(clock.now) + timeout + interval + latency)
    ensures r.TimedOut? ==> old(clock.now) + timeout <= clock.now
    ensures r.TimedOut? ==>
        clock.now <= Max(old(clock.now) + latency, old(clock.now) + timeout - 1 + interval + latency)
  {
    var start := clock.now;
    var asked := clock.now;
    var status := service.status(asked);
    clock.now := clock.now + service.latency(asked);
    var deadline := start + timeout;
    while status == InProgress
      invariant start <= asked <= clock.now && status == service.status(asked)
      invariant clock.now == asked + service.latency(asked)
      invariant Stored(service, interval, asked, deadline) == Stored(service, interval, start, deadline)
      invariant clock.now <= Max(start + latency, deadline - 1 + interval + latency)
      decreases deadline - clock.now, status == InProgress
    {
      if clock.now >= deadline {
        return TimedOut;
      }
      clock.now := clock.now + interval;
      asked := clock.now;
      status := service.status(asked);
      clock.now := clock.now + service.latency(asked);
    }
    return File(status);
  }
}
