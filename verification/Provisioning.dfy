/**
  From a resource plan to instances: the panel forwards each READY protocol's port, and the ports
  it also saw free, to the agent's instance handler. Ties the planner to the reconciler.
 */
module Provisioning {
  import opened Wrappers
  import opened Patterns
  import opened PortPlan
  import DnsPlan
  import Docker
  import InstanceReconcile
  import Instances

  datatype Requested = Requested(protocol: Protocol, externalPort: Port, fallbackPorts: seq<Port>)

  /** The results by protocol; of two results for one protocol the later counts. */
  function ByProtocol(plans: seq<ProtocolPlan>): (filed: map<Protocol, ProtocolPlan>)
    ensures forall p :: p in filed ==> exists i :: 0 <= i < |plans| && plans[i] == filed[p] && plans[i].protocol == p
    ensures forall i :: 0 <= i < |plans| ==> plans[i].protocol in filed
  {
    if plans == [] then map[]
    else
      var last := plans[|plans| - 1];
      ByProtocol(plans[..|plans| - 1])[last.protocol := last]
  }

  function OtherFreePorts(attempts: seq<PortAttempt>, selected: Port): seq<Port> {
    if attempts == [] then []
    else
      (if attempts[0].available && attempts[0].port != selected then [attempts[0].port] else [])
      + OtherFreePorts(attempts[1..], selected)
  }

  predicate IsForwarded(p: Requested, filed: map<Protocol, ProtocolPlan>) {
    && p.protocol in filed
    && filed[p.protocol].status == READY
    && filed[p.protocol].selectedPort.Some?
    && filed[p.protocol].network == NetworkOf(p.protocol)
  }

  function Forward(requested: seq<Requested>, filed: map<Protocol, ProtocolPlan>): seq<Requested> {
    if requested == [] then []
    else
      var p := requested[0];
      (if IsForwarded(p, filed) then
         var plan := filed[p.protocol];
         var port := plan.selectedPort.value;
         [p.(externalPort := port, fallbackPorts := OtherFreePorts(plan.attempts, port))]
       else [])
      + Forward(requested[1..], filed)
  }

  /** The plan is the last one for its protocol, and it is ready on the network of the protocol. */
  ghost predicate IsReady(plans: seq<ProtocolPlan>, i: nat, protocol: Protocol) {
    && i < |plans| && plans[i].protocol == protocol && (forall j :: i < j < |plans| ==> plans[j].protocol != protocol)
    && plans[i].status == READY && plans[i].selectedPort.Some?
    && match protocol
       case VlessReality => plans[i].network == Tcp
       case VlessTlsVision => plans[i].network == Tcp
       case Hysteria2 => plans[i].network == Udp
       case UnknownProtocol => plans[i].network == UnknownNetwork
  }

  lemma {:induction false} FiledIsLast(plans: seq<ProtocolPlan>, i: nat)
    requires i < |plans| && forall j :: i < j < |plans| ==> plans[j].protocol != plans[i].protocol
    ensures plans[i].protocol in ByProtocol(plans) && ByProtocol(plans)[plans[i].protocol] == plans[i]
  {
    if i < |plans| - 1 {
      FiledIsLast(plans[..|plans| - 1], i);
    }
  }

  lemma {:induction false} LastOf(plans: seq<ProtocolPlan>, protocol: Protocol) returns (i: nat)
    requires exists j :: 0 <= j < |plans| && plans[j].protocol == protocol
    ensures i < |plans| && plans[i].protocol == protocol
    ensures forall j :: i < j < |plans| ==> plans[j].protocol != protocol
  {
    if plans[|plans| - 1].protocol == protocol {
      i := |plans| - 1;
    } else {
      i := LastOf(plans[..|plans| - 1], protocol);
    }
  }

  /** A requested protocol is forwarded exactly when the last plan for it is ready. */
  lemma ForwardedExactly(p: Requested, plans: seq<ProtocolPlan>)
    ensures IsForwarded(p, ByProtocol(plans)) <==> exists i :: 0 <= i < |plans| && IsReady(plans, i, p.protocol)
  {
    forall i | 0 <= i < |plans| && IsReady(plans, i, p.protocol)
      ensures IsForwarded(p, ByProtocol(plans))
    {
      FiledIsLast(plans, i);
    }
    if IsForwarded(p, ByProtocol(plans)) {
      var last := LastOf(plans, p.protocol);
      FiledIsLast(plans, last);
      assert IsReady(plans, last, p.protocol);
    }
  }

  /** It is sent as requested, but with the selected port, and the other ports its plan saw free. */
  lemma ForwardsOne(p: Requested, plans: seq<ProtocolPlan>, i: nat)
    requires IsReady(plans, i, p.protocol)
    ensures Forward([p], ByProtocol(plans)) ==
            [Requested(p.protocol, plans[i].selectedPort.value,
                OtherFreePorts(plans[i].attempts, plans[i].selectedPort.value))]
  {
    ForwardedExactly(p, plans);
    FiledIsLast(plans, i);
  }

  lemma ForwardsNone(p: Requested, plans: seq<ProtocolPlan>)
    requires forall i :: 0 <= i < |plans| ==> !IsReady(plans, i, p.protocol)
    ensures Forward([p], ByProtocol(plans)) == []
  {
    ForwardedExactly(p, plans);
  }

  /** One after the other, in the order of the request. */
  lemma {:induction false} ForwardSplits(a: seq<Requested>, b: seq<Requested>, filed: map<Protocol, ProtocolPlan>)
    ensures Forward(a + b, filed) == Forward(a, filed) + Forward(b, filed)
  {
    if a == [] {
      assert a + b == b;
    } else {
      assert (a + b)[1..] == a[1..] + b;
      ForwardSplits(a[1..], b, filed);
    }
  }

  lemma {:induction false} OtherFreePortsAre(attempts: seq<PortAttempt>, selected: Port, port: Port)
    ensures port in OtherFreePorts(attempts, selected) <==>
            port != selected && exists i :: 0 <= i < |attempts| && attempts[i].available && attempts[i].port == port
  {
    if attempts != [] {
      OtherFreePortsAre(attempts[1..], selected, port);
      assert forall i :: 0 < i < |attempts| ==> attempts[i] == attempts[1..][i - 1];
    }
  }

  lemma {:induction false} ForwardedComesFrom(
    requested: seq<Requested>, filed: map<Protocol, ProtocolPlan>, out: Requested)
    requires out in Forward(requested, filed)
    ensures exists p :: p in requested && IsForwarded(p, filed) && out.protocol == p.protocol
              && out.externalPort == filed[p.protocol].selectedPort.value
              && out.fallbackPorts == OtherFreePorts(filed[p.protocol].attempts, out.externalPort)
  {
    if out in Forward(requested[1..], filed) {
      ForwardedComesFrom(requested[1..], filed, out);
    } else {
      assert requested[0] in requested;
    }
  }

  lemma {:induction false} NothingElseFree(attempts: seq<PortAttempt>, selected: Port)
    requires forall i :: 0 <= i < |attempts| ==> !attempts[i].available || attempts[i].port == selected
    ensures OtherFreePorts(attempts, selected) == []
  {
    if attempts != [] {
      NothingElseFree(attempts[1..], selected);
    }
  }

  /** A plan of the first-fit planner for this protocol: the selected port is its last attempt, all others failed. */
  ghost predicate FirstFitPlan(p: ProtocolRequest, plan: ProtocolPlan) {
    plan.status == READY ==>
      && plan.selectedPort.Some? && plan.selectedPort.value in p.candidates
      && plan.attempts != [] && plan.attempts[|plan.attempts| - 1].port == plan.selectedPort.value
      && forall i :: 0 <= i < |plan.attempts| - 1 ==> !plan.attempts[i].available
  }

  lemma PlansAreFirstFit(r: DnsPlan.Resolver, protocols: seq<ProtocolRequest>, probe: Probe, at: nat, n: nat)
    requires n < |protocols|
    ensures FirstFitPlan(protocols[n], DnsPlan.Expected(r, protocols, probe, at, n))
  {
    if DnsPlan.IsEligible(r, protocols[n]) {
      DnsPlan.EligibleAt(r, protocols, n);
      PlannedIsFirstFit(DnsPlan.Eligible(r, protocols), probe, at, |DnsPlan.Eligible(r, protocols[..n])|);
    }
  }

  lemma PlannedIsFirstFit(protocols: seq<ProtocolRequest>, probe: Probe, at: nat, n: nat)
    requires n < |protocols|
    ensures FirstFitPlan(protocols[n], PlanAll(protocols, probe, Moment(at, {}))[n])
  {
    PlanIsFirstFit(protocols, probe, at, n);
  }

  lemma PlanGivesValidPorts(p: ProtocolRequest, plan: ProtocolPlan)
    requires ValidCandidates(p.candidates) && FirstFitPlan(p, plan) && plan.status == READY
    ensures OtherFreePorts(plan.attempts, plan.selectedPort.value) == []
    ensures InstanceReconcile.PortsValid(plan.selectedPort.value, [])
  {
    NothingElseFree(plan.attempts, plan.selectedPort.value);
  }

  /**
    Every forwarded port passes the port clauses of the instance handler, and the list of fallback
    ports is always empty: first fit stops at the first port it sees free.
   */
  lemma ForwardedPortsAreAccepted(
    r: DnsPlan.Resolver, request: Request, probe: Probe, at: nat,
    plans: seq<ProtocolPlan>, requested: seq<Requested>, out: Requested)
    requires ValidRequest(request) && |plans| == |request.protocols|
    requires forall i :: 0 <= i < |plans| ==> plans[i] == DnsPlan.Expected(r, request.protocols, probe, at, i)
    requires out in Forward(requested, ByProtocol(plans))
    ensures out.fallbackPorts == []
    ensures InstanceReconcile.PortsValid(out.externalPort, out.fallbackPorts)
  {
    var filed := ByProtocol(plans);
    ForwardedComesFrom(requested, filed, out);
    var p :| p in requested && IsForwarded(p, filed) && out.protocol == p.protocol
      && out.externalPort == filed[p.protocol].selectedPort.value
      && out.fallbackPorts == OtherFreePorts(filed[p.protocol].attempts, out.externalPort);
    var i :| 0 <= i < |plans| && plans[i] == filed[p.protocol] && plans[i].protocol == p.protocol;
    PlansAreFirstFit(r, request.protocols, probe, at, i);
    assert ValidProtocol(request.protocols[i]);
    PlanGivesValidPorts(request.protocols[i], plans[i]);
  }

  /** An execution without fallback ports, and how many creations it can have issued so far. */
  predicate HasCreated(created: int, e: Instances.Execution) {
    && e.job.Reconcile? && e.job.request.fallbackPorts == []
    && match e.phase
       case Creating(attempt) => !attempt.Retry? && created == 0
       case Checking(_) => created <= 1
       case Clearing(_) => created <= 1
       case Over => created <= 1
       case _ => created == 0
  }

  lemma HasCreatedAfter(
    digest: Instances.Desired -> string, w: Docker.World, e: Instances.Execution, t: Instances.Turn, created: int)
    requires HasCreated(created, e)
    ensures HasCreated(created + if e.phase.Creating? then 1 else 0, Instances.Advance(digest, w, e, t).1)
  {
  }

  /** Exactly a creation creates. */
  lemma CreationsAdvance(
    digest: Instances.Desired -> string, w: Docker.World, e: Instances.Execution, t: Instances.Turn)
    requires e.job.Reconcile?
    ensures InstanceReconcile.Creations(Instances.Advance(digest, w, e, t).0.verbs) ==
            InstanceReconcile.Creations(w.verbs) + if e.phase.Creating? then 1 else 0
  {
    var verb := if e.phase.Creating? then Docker.Create
                else if e.phase.Starting? then Docker.Start
                else if e.phase.Removing? || e.phase.Clearing? then Docker.Remove
                else Docker.Stop;
    InstanceReconcile.CreationsAfter(w.verbs, verb);
    assert Instances.Advance(digest, w, e, t).0.verbs in {w.verbs, w.verbs + [verb]};
  }

  /** Without fallback ports no reply of the host makes an execution create a container twice. */
  lemma {:induction false} WithoutFallbackCreatesOnce(
    digest: Instances.Desired -> string, w: Docker.World, e: Instances.Execution, turns: seq<Instances.Turn>)
    requires e.phase.Looking? && e.job.Reconcile? && e.job.request.fallbackPorts == []
    ensures var (after, f) := Instances.Alone(digest, w, e, turns);
            HasCreated(InstanceReconcile.Creations(after.verbs) - InstanceReconcile.Creations(w.verbs), f)
  {
    if turns != [] {
      var front, last := turns[..|turns| - 1], turns[|turns| - 1];
      WithoutFallbackCreatesOnce(digest, w, e, front);
      var before := Instances.Alone(digest, w, e, front);
      var created := InstanceReconcile.Creations(before.0.verbs) - InstanceReconcile.Creations(w.verbs);
      CreationsAdvance(digest, before.0, before.1, last);
      HasCreatedAfter(digest, before.0, before.1, last, created);
    }
  }

  lemma OneCreation(
    digest: Instances.Desired -> string, before: Docker.World, e: Instances.Execution, turns: seq<Instances.Turn>,
    after: Docker.World)
    requires e.phase.Looking? && e.job.Reconcile? && e.job.request.fallbackPorts == []
    requires Instances.Completes(digest, before, e, turns, after)
    ensures InstanceReconcile.Creations(after.verbs) <= InstanceReconcile.Creations(before.verbs) + 1
  {
    WithoutFallbackCreatesOnce(digest, before, e, turns);
  }

  /**
    With the forwarded, empty fallback list a lost bind race is final: there is no second creation,
    and no port but the planned one is ever reported.
   */
  method ReconcileForwarded(
    h: InstanceReconcile.Handler, request: Instances.Request, around: InstanceReconcile.Surroundings)
    returns (result: Option<InstanceReconcile.Result>)
    requires Docker.Isolated(h.daemon.world.trace) && request.fallbackPorts == []
    modifies h.daemon
    ensures InstanceReconcile.Creations(h.daemon.world.verbs) <=
            InstanceReconcile.Creations(old(h.daemon.world).verbs) + 1
    ensures result.Some? ==>
              && result.value.externalPort == request.externalPort
              && result.value.configHash == h.digest(Instances.DesiredOf(request))
  {
    ghost var before, turns := h.daemon.world, [];
    result, turns := h.Execute(request, around);
    if InstanceReconcile.ValidRequest(request) && IsUuid(h.machineId) {
      var name, actor := Instances.ContainerName(request.instanceId), Docker.Actor(h.machineId, request.instanceId);
      var e := Instances.Execution(actor, name, Instances.Reconcile(request), Instances.Looking);
      OneCreation(h.digest, before, e, turns, h.daemon.world);
      if result.Some? {
        var port := result.value.externalPort;
        h.WithoutFallbackTheRequestedPort(before, request, name, around.free, port);
        assert request.(externalPort := port) == request;
      }
    }
  }
}
