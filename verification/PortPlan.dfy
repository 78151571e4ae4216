/**
  First-fit port planning: each protocol takes the first of its candidates that the host has free
  and no earlier protocol of the plan has taken. Probes are numbered: two probes of one port may
  disagree, as the host changes.
 */
module PortPlan {
  import opened Wrappers
  import opened Patterns

  datatype ProtocolRequest = ProtocolRequest(
    protocol: Protocol,
    network: Network,
    controlPort: Port,
    candidates: seq<Port>,
    requiresHttp01: bool,
    domain: string,
    expectedAddress: string)

  datatype Mode = PLAN | REVALIDATE | UnknownMode

  datatype Request = Request(planId: string, mode: Mode, protocols: seq<ProtocolRequest>)

  datatype CheckCode = CONTROL_PORT_AVAILABLE | HTTP01_PORT_AVAILABLE | DNS_ADDRESS_MATCH

  datatype Check = Check(code: CheckCode, ok: bool, message: string)

  datatype PortAttempt = PortAttempt(port: Port, available: bool, message: string)

  datatype Status = READY | BLOCKED

  datatype ErrorCode =
    | NoError
    | CONTROL_PORT_UNAVAILABLE
    | HTTP01_PORT_UNAVAILABLE
    | PORT_POOL_EXHAUSTED
    | DNS_LOOKUP_FAILED
    | DNS_ADDRESS_MISMATCH

  datatype ProtocolPlan = ProtocolPlan(
    protocol: Protocol,
    network: Network,
    status: Status,
    selectedPort: Option<Port>,
    errorCode: ErrorCode,
    checks: seq<Check>,
    attempts: seq<PortAttempt>)

  datatype Availability = Availability(free: bool, message: string)

  /** What the n-th probe of the run finds. */
  type Probe = (nat, Network, Port) -> Availability

  const RESERVED_MESSAGE := "reserved by another protocol in this plan"

  // ----- validation

  const MAX_PROTOCOLS := 3
  const MAX_CANDIDATES := 16
  const MAX_NAME_LENGTH := 253

  ghost predicate ValidCandidates(candidates: seq<Port>) {
    && 1 <= |candidates| <= MAX_CANDIDATES
    && (forall i :: 0 <= i < |candidates| ==> candidates[i] != 0 && !IsControlPort(candidates[i]))
    && Distinct(candidates)
  }

  predicate NamesConsistent(p: ProtocolRequest) {
    && (p.domain == "" <==> p.expectedAddress == "")
    && |p.domain| <= MAX_NAME_LENGTH && |p.expectedAddress| <= MAX_NAME_LENGTH
  }

  predicate DefinitionMatches(p: ProtocolRequest) {
    p.protocol != UnknownProtocol && NetworkOf(p.protocol) == p.network && ControlPortOf(p.protocol) == p.controlPort
  }

  ghost predicate ValidProtocol(p: ProtocolRequest) {
    DefinitionMatches(p) && NamesConsistent(p) && ValidCandidates(p.candidates)
  }

  ghost predicate DistinctProtocols(protocols: seq<ProtocolRequest>) {
    forall i, j :: 0 <= i < j < |protocols| ==> protocols[i].protocol != protocols[j].protocol
  }

  ghost predicate ValidRequest(r: Request) {
    && IsUuid(r.planId)
    && 1 <= |r.protocols| <= MAX_PROTOCOLS
    && r.mode != UnknownMode
    && (forall i :: 0 <= i < |r.protocols| ==> ValidProtocol(r.protocols[i]))
    && DistinctProtocols(r.protocols)
  }

  /** Three protocols on their own networks and control ports. */
  lemma DefinitionsAre(p: ProtocolRequest)
    ensures DefinitionMatches(p) <==>
            || (p.protocol == VlessReality && p.network == Tcp && p.controlPort == 2222)
            || (p.protocol == VlessTlsVision && p.network == Tcp && p.controlPort == 2223)
            || (p.protocol == Hysteria2 && p.network == Udp && p.controlPort == 2224)
  {}

  ghost predicate WithinLimits(p: ProtocolRequest) {
    && (|p.domain| == 0 <==> |p.expectedAddress| == 0) && |p.domain| < 254 && |p.expectedAddress| < 254
    && 0 < |p.candidates| < 17
    && (forall port :: port in p.candidates ==> 0 < port < 2222 || 2224 < port)
    && forall i, j :: 0 <= i < j < |p.candidates| ==> p.candidates[i] != p.candidates[j]
  }

  /** The limits of a request, in numbers. */
  lemma ValidRequestsAre(r: Request)
    ensures ValidRequest(r) <==>
            && IsUuid(r.planId) && (r.mode == PLAN || r.mode == REVALIDATE) && 0 < |r.protocols| < 4
            && (forall p :: p in r.protocols ==> DefinitionMatches(p) && WithinLimits(p))
            && forall i, j :: 0 <= i < j < |r.protocols| ==> r.protocols[i].protocol != r.protocols[j].protocol
  {
    forall p | p in r.protocols
      ensures ValidProtocol(p) <==> DefinitionMatches(p) && WithinLimits(p)
    {
      assert forall i :: 0 <= i < |p.candidates| ==> p.candidates[i] in p.candidates;
    }
    assert forall i :: 0 <= i < |r.protocols| ==> r.protocols[i] in r.protocols;
  }

  method ValidateCandidates(candidates: seq<Port>) returns (valid: bool)
    ensures valid <==> ValidCandidates(candidates)
  {
    if |candidates| == 0 || |candidates| > MAX_CANDIDATES {
      return false;
    }
    var seenCandidates := {};
    for i := 0 to |candidates|
      invariant forall port :: port in seenCandidates <==> port in candidates[..i]
      invariant forall j :: 0 <= j < i ==> candidates[j] != 0 && !IsControlPort(candidates[j])
      invariant Distinct(candidates[..i])
    {
      var candidate := candidates[i];
      if candidate == 0 || IsControlPort(candidate) {
        return false;
      }
      if candidate in seenCandidates {
        var j :| 0 <= j < i && candidates[..i][j] == candidate;
        assert candidates[j] == candidates[i];
        return false;
      }
      seenCandidates := seenCandidates + {candidate};
    }
    assert candidates[..|candidates|] == candidates;
    return true;
  }

  method ValidateRequest(r: Request) returns (valid: bool)
    ensures valid <==> ValidRequest(r)
  {
    if !IsUuid(r.planId) || |r.protocols| == 0 || |r.protocols| > MAX_PROTOCOLS || r.mode == UnknownMode {
      return false;
    }
    var seenProtocols: set<Protocol> := {};
    for i := 0 to |r.protocols|
      invariant forall p :: p in seenProtocols <==> exists j :: 0 <= j < i && r.protocols[j].protocol == p
      invariant forall j :: 0 <= j < i ==> ValidProtocol(r.protocols[j])
      invariant DistinctProtocols(r.protocols[..i])
    {
      var p := r.protocols[i];
      if !DefinitionMatches(p) {
        return false;
      }
      if p.protocol in seenProtocols {
        return false;
      }
      seenProtocols := seenProtocols + {p.protocol};
      var candidatesValid := ValidateCandidates(p.candidates);
      if !NamesConsistent(p) || !candidatesValid {
        return false;
      }
    }
    assert r.protocols[..|r.protocols|] == r.protocols;
    return true;
  }

  // ----- first fit

  type Reservation = set<(Network, Port)>

  /** A moment of the planning: the number of the next probe, and the ports taken so far. */
  datatype Moment = Moment(at: nat, reserved: Reservation) {
    function Probed(n: nat): Moment {
      this.(at := at + n)
    }
  }

  /** What trying a candidate finds; a reserved port is not probed. */
  function Tried(candidate: Port, network: Network, probe: Probe, m: Moment): Availability {
    if (network, candidate) in m.reserved then Availability(false, RESERVED_MESSAGE)
    else probe(m.at, network, candidate)
  }

  function AfterTrying(candidate: Port, network: Network, m: Moment): Moment {
    if (network, candidate) in m.reserved then m else m.Probed(1)
  }

  /** The attempts on a list of candidates, up to and including the first that can be had. */
  function Attempts(candidates: seq<Port>, network: Network, probe: Probe, m: Moment): seq<PortAttempt> {
    if candidates == [] then []
    else
      var seen := Tried(candidates[0], network, probe, m);
      [PortAttempt(candidates[0], seen.free, seen.message)] +
      (if seen.free then [] else Attempts(candidates[1..], network, probe, AfterTrying(candidates[0], network, m)))
  }

  /** How many of the attempts needed a probe. */
  function ProbesFor(attempts: seq<PortAttempt>, network: Network, reserved: Reservation): nat {
    if attempts == [] then 0
    else
      (if (network, attempts[0].port) in reserved then 0 else 1) + ProbesFor(attempts[1..], network, reserved)
  }

  function SelectedOf(attempts: seq<PortAttempt>): Option<Port> {
    if attempts != [] && attempts[|attempts| - 1].available then Some(attempts[|attempts| - 1].port) else None
  }

  function ControlCheck(p: ProtocolRequest, probe: Probe, at: nat): Check {
    var seen := probe(at, Tcp, p.controlPort);
    Check(CONTROL_PORT_AVAILABLE, seen.free, seen.message)
  }

  function HttpCheck(probe: Probe, at: nat): Check {
    var seen := probe(at, Tcp, 80);
    Check(HTTP01_PORT_AVAILABLE, seen.free, seen.message)
  }

  /** The moment after the checks that precede a protocol's candidates. */
  function AfterChecks(p: ProtocolRequest, m: Moment): Moment {
    m.Probed(if p.requiresHttp01 then 2 else 1)
  }

  function PlanOne(p: ProtocolRequest, probe: Probe, m: Moment): ProtocolPlan {
    var control := ControlCheck(p, probe, m.at);
    if !control.ok then ProtocolPlan(p.protocol, p.network, BLOCKED, None, CONTROL_PORT_UNAVAILABLE, [control], [])
    else
      var http := HttpCheck(probe, m.at + 1);
      var checks := if p.requiresHttp01 then [control, http] else [control];
      if p.requiresHttp01 && !http.ok then
        ProtocolPlan(p.protocol, p.network, BLOCKED, None, HTTP01_PORT_UNAVAILABLE, checks, [])
      else
        var attempts := Attempts(p.candidates, p.network, probe, AfterChecks(p, m));
        var selected := SelectedOf(attempts);
        if selected.Some? then ProtocolPlan(p.protocol, p.network, READY, selected, NoError, checks, attempts)
        else ProtocolPlan(p.protocol, p.network, BLOCKED, None, PORT_POOL_EXHAUSTED, checks, attempts)
  }

  function TakenBy(plan: ProtocolPlan): Reservation {
    if plan.selectedPort.Some? then {(plan.network, plan.selectedPort.value)} else {}
  }

  /** A plan took one probe for each check and for each attempt on a port that was not reserved, and its own port. */
  function After(plan: ProtocolPlan, m: Moment): Moment {
    Moment(m.at + |plan.checks| + ProbesFor(plan.attempts, plan.network, m.reserved), m.reserved + TakenBy(plan))
  }

  function PlanAll(protocols: seq<ProtocolRequest>, probe: Probe, m: Moment): (plans: seq<ProtocolPlan>)
    ensures |plans| == |protocols|
    decreases |protocols|
  {
    if protocols == [] then []
    else
      var plan := PlanOne(protocols[0], probe, m);
      [plan] + PlanAll(protocols[1..], probe, After(plan, m))
  }

  /** The moment after all these protocols are planned. */
  function AfterAll(protocols: seq<ProtocolRequest>, probe: Probe, m: Moment): Moment
    decreases |protocols|
  {
    if protocols == [] then m else AfterAll(protocols[1..], probe, After(PlanOne(protocols[0], probe, m), m))
  }

  // ----- the planner

  /** Trying the candidate at `i` moves one attempt to the front; a free port ends the attempts. */
  lemma OneAttempt(
    front: seq<PortAttempt>, candidates: seq<Port>, i: nat, network: Network, probe: Probe, m: Moment)
    requires i < |candidates|
    ensures var seen := Tried(candidates[i], network, probe, m);
            front + Attempts(candidates[i..], network, probe, m) ==
            front + [PortAttempt(candidates[i], seen.free, seen.message)]
            + (if seen.free then []
               else Attempts(candidates[i + 1..], network, probe, AfterTrying(candidates[i], network, m)))
  {
    assert candidates[i..][1..] == candidates[i + 1..];
  }

  lemma {:induction false} OneMoreProbe(
    attempts: seq<PortAttempt>, attempt: PortAttempt, network: Network, reserved: Reservation)
    ensures ProbesFor(attempts + [attempt], network, reserved) ==
            ProbesFor(attempts, network, reserved) + if (network, attempt.port) in reserved then 0 else 1
  {
    if attempts == [] {
      assert attempts + [attempt] == [attempt] && [attempt][1..] == [];
    } else {
      OneMoreProbe(attempts[1..], attempt, network, reserved);
      assert (attempts + [attempt])[1..] == attempts[1..] + [attempt];
    }
  }

  method TryCandidates(p: ProtocolRequest, probe: Probe, m: Moment)
    returns (attempts: seq<PortAttempt>, selected: Option<Port>, next: Moment)
    ensures attempts == Attempts(p.candidates, p.network, probe, m)
    ensures selected == SelectedOf(attempts)
    ensures next == m.Probed(ProbesFor(attempts, p.network, m.reserved))
  {
    attempts, selected, next := [], None, m;
    assert p.candidates[0..] == p.candidates;
    for i := 0 to |p.candidates|
      invariant attempts + Attempts(p.candidates[i..], p.network, probe, next)
             == Attempts(p.candidates, p.network, probe, m)
      invariant selected == None && SelectedOf(attempts) == None
      invariant next == m.Probed(ProbesFor(attempts, p.network, m.reserved))
    {
      var candidate := p.candidates[i];
      var seen := Tried(candidate, p.network, probe, next);
      var attempt := PortAttempt(candidate, seen.free, seen.message);
      OneAttempt(attempts, p.candidates, i, p.network, probe, next);
      OneMoreProbe(attempts, attempt, p.network, m.reserved);
      attempts, next := attempts + [attempt], AfterTrying(candidate, p.network, next);
      if seen.free {
        selected := Some(candidate);
        return;
      }
    }
  }

  method PlanProtocol(p: ProtocolRequest, probe: Probe, m: Moment) returns (planned: ProtocolPlan, next: Moment)
    ensures planned == PlanOne(p, probe, m)
    ensures next == After(planned, m).(reserved := m.reserved)
  {
    planned, next := ProtocolPlan(p.protocol, p.network, BLOCKED, None, NoError, [], []), m;
    var control := ControlCheck(p, probe, next.at);
    planned, next := planned.(checks := planned.checks + [control]), next.Probed(1);
    if !control.ok {
      return planned.(errorCode := CONTROL_PORT_UNAVAILABLE), next;
    }
    if p.requiresHttp01 {
      var http := HttpCheck(probe, next.at);
      planned, next := planned.(checks := planned.checks + [http]), next.Probed(1);
      if !http.ok {
        return planned.(errorCode := HTTP01_PORT_UNAVAILABLE), next;
      }
    }
    var attempts, selected;
    attempts, selected, next := TryCandidates(p, probe, next);
    planned := planned.(attempts := attempts, selectedPort := selected);
    planned := if selected.Some? then planned.(status := READY) else planned.(errorCode := PORT_POOL_EXHAUSTED);
  }

  /** Planning the protocol at `i` moves one plan to the front, its probes and its port to the past. */
  lemma OnePlanned(front: seq<ProtocolPlan>, protocols: seq<ProtocolRequest>, i: nat, probe: Probe, m: Moment)
    requires i < |protocols|
    ensures var planned := PlanOne(protocols[i], probe, m);
            var next, rest := After(planned, m), protocols[i + 1..];
            && front + PlanAll(protocols[i..], probe, m) == front + [planned] + PlanAll(rest, probe, next)
            && AfterAll(protocols[i..], probe, m) == AfterAll(rest, probe, next)
  {
    assert protocols[i..][1..] == protocols[i + 1..];
  }

  /** `None` for an invalid request; otherwise one plan per protocol, in order, and the moment after them. */
  method Plan(r: Request, probe: Probe, at: nat) returns (plans: Option<seq<ProtocolPlan>>, next: Moment)
    ensures plans.Some? <==> ValidRequest(r)
    ensures plans.Some? ==> plans.value == PlanAll(r.protocols, probe, Moment(at, {}))
    ensures next == if plans.Some? then AfterAll(r.protocols, probe, Moment(at, {})) else Moment(at, {})
  {
    next := Moment(at, {});
    var valid := ValidateRequest(r);
    if !valid {
      return None, next;
    }
    var result := [];
    assert r.protocols[0..] == r.protocols;
    for i := 0 to |r.protocols|
      invariant result + PlanAll(r.protocols[i..], probe, next) == PlanAll(r.protocols, probe, Moment(at, {}))
      invariant AfterAll(r.protocols[i..], probe, next) == AfterAll(r.protocols, probe, Moment(at, {}))
    {
      ghost var turn := next;
      OnePlanned(result, r.protocols, i, probe, turn);
      var planned;
      planned, next := PlanProtocol(r.protocols[i], probe, next);
      if planned.selectedPort.Some? {
        next := next.(reserved := next.reserved + {(planned.network, planned.selectedPort.value)});
      }
      assert next == After(planned, turn);
      result := result + [planned];
    }
    plans := Some(result);
  }

  // ----- what first fit means

  /** What the protocols of the given plans hold. */
  function HeldBy(plans: seq<ProtocolPlan>): Reservation {
    set i | 0 <= i < |plans| && plans[i].selectedPort.Some? :: (plans[i].network, plans[i].selectedPort.value)
  }

  /** The moment at which the i-th candidate's turn comes: only candidates that are not reserved are probed. */
  function MomentOf(candidates: seq<Port>, network: Network, m: Moment, i: nat): Moment
    requires i <= |candidates|
    decreases i
  {
    if i == 0 then m else MomentOf(candidates[1..], network, AfterTrying(candidates[0], network, m), i - 1)
  }

  /** The candidate can be had when its turn comes: it is not reserved and its probe finds it free. */
  predicate CanBeHad(candidates: seq<Port>, network: Network, probe: Probe, m: Moment, i: nat)
    requires i < |candidates|
  {
    (network, candidates[i]) !in m.reserved
      && probe(MomentOf(candidates, network, m, i).at, network, candidates[i]).free
  }

  /**
    The attempts are a prefix of the candidates; each but the last failed, and one fails exactly
    when its port is reserved or occupied; the list stops early only at the selected port.
   */
  ghost predicate FirstFit(
    attempts: seq<PortAttempt>, candidates: seq<Port>, network: Network, probe: Probe, m: Moment)
  {
    && |attempts| <= |candidates|
    && (forall i :: 0 <= i < |attempts| ==>
          && attempts[i].port == candidates[i]
          && (attempts[i].available <==> CanBeHad(candidates, network, probe, m, i)))
    && (forall i :: 0 <= i < |attempts| - 1 ==> !attempts[i].available)
    && (|attempts| < |candidates| ==> attempts != [] && attempts[|attempts| - 1].available)
  }

  lemma {:induction false} AttemptsAreFirstFit(candidates: seq<Port>, network: Network, probe: Probe, m: Moment)
    ensures FirstFit(Attempts(candidates, network, probe, m), candidates, network, probe, m)
  {
    if candidates != [] {
      var next, rest := AfterTrying(candidates[0], network, m), candidates[1..];
      AttemptsAreFirstFit(rest, network, probe, next);
      forall i | 0 < i < |candidates|
        ensures CanBeHad(candidates, network, probe, m, i) == CanBeHad(rest, network, probe, next, i - 1)
      {
      }
    }
  }

  /** The places before the n-th whose port is not reserved. */
  ghost function Unreserved(ports: seq<Port>, network: Network, reserved: Reservation, n: nat): set<nat>
    requires n <= |ports|
  {
    set k: nat | k < n && (network, ports[k]) !in reserved
  }

  lemma OneMoreUnreserved(ports: seq<Port>, network: Network, reserved: Reservation, n: nat)
    requires n < |ports|
    ensures |Unreserved(ports, network, reserved, n + 1)| ==
            |Unreserved(ports, network, reserved, n)| + if (network, ports[n]) in reserved then 0 else 1
  {
    var before, after := Unreserved(ports, network, reserved, n), Unreserved(ports, network, reserved, n + 1);
    assert after == if (network, ports[n]) in reserved then before else before + {n};
  }

  lemma {:induction false} OneMoment(candidates: seq<Port>, network: Network, m: Moment, i: nat)
    requires i < |candidates|
    ensures MomentOf(candidates, network, m, i + 1) ==
            AfterTrying(candidates[i], network, MomentOf(candidates, network, m, i))
    decreases i
  {
    var next := AfterTrying(candidates[0], network, m);
    if i > 0 {
      OneMoment(candidates[1..], network, next, i - 1);
    } else {
      assert MomentOf(candidates[1..], network, next, 0) == next;
    }
  }

  /** The turn of a candidate comes after one probe for each earlier candidate that is not reserved. */
  lemma {:induction false} MomentMeans(candidates: seq<Port>, network: Network, m: Moment, i: nat)
    requires i <= |candidates|
    ensures MomentOf(candidates, network, m, i) ==
            Moment(m.at + |Unreserved(candidates, network, m.reserved, i)|, m.reserved)
  {
    if i == 0 {
      assert Unreserved(candidates, network, m.reserved, 0) == {};
    } else {
      OneMoment(candidates, network, m, i - 1);
      MomentMeans(candidates, network, m, i - 1);
      OneMoreUnreserved(candidates, network, m.reserved, i - 1);
    }
  }

  function PortsOf(attempts: seq<PortAttempt>): (ports: seq<Port>)
    ensures |ports| == |attempts| && forall i :: 0 <= i < |ports| ==> ports[i] == attempts[i].port
  {
    seq(|attempts|, i requires 0 <= i < |attempts| => attempts[i].port)
  }

  /** Attempts on reserved ports need no probe, all others one each. */
  lemma {:induction false} ProbesMean(attempts: seq<PortAttempt>, network: Network, reserved: Reservation)
    ensures ProbesFor(attempts, network, reserved) ==
            |Unreserved(PortsOf(attempts), network, reserved, |attempts|)|
  {
    if attempts == [] {
      assert Unreserved(PortsOf(attempts), network, reserved, 0) == {};
    } else {
      var last := |attempts| - 1;
      var front := attempts[..last];
      ProbesMean(front, network, reserved);
      OneMoreProbe(front, attempts[last], network, reserved);
      assert front + [attempts[last]] == attempts;
      OneMoreUnreserved(PortsOf(attempts), network, reserved, last);
      assert Unreserved(PortsOf(attempts), network, reserved, last) ==
             Unreserved(PortsOf(front), network, reserved, last);
    }
  }

  /** An attempt tells that its port is reserved, or what the probe found whose turn it was. */
  lemma {:induction false} AttemptTells(candidates: seq<Port>, network: Network, probe: Probe, m: Moment, i: nat)
    requires i < |Attempts(candidates, network, probe, m)|
    ensures i < |candidates|
    ensures var attempt := Attempts(candidates, network, probe, m)[i];
            if (network, candidates[i]) in m.reserved
            then attempt == PortAttempt(candidates[i], false, "reserved by another protocol in this plan")
            else
              var seen := probe(MomentOf(candidates, network, m, i).at, network, candidates[i]);
              attempt == PortAttempt(candidates[i], seen.free, seen.message)
    decreases i
  {
    if i > 0 {
      AttemptTells(candidates[1..], network, probe, AfterTrying(candidates[0], network, m), i - 1);
    }
  }

  /** The control port is always checked, port 80 after it on demand; the candidates' turn comes then. */
  lemma ChecksTell(p: ProtocolRequest, probe: Probe, m: Moment)
    ensures AfterChecks(p, m) == Moment(m.at + (if p.requiresHttp01 then 2 else 1), m.reserved)
    ensures var control, http := probe(m.at, Tcp, p.controlPort), probe(m.at + 1, Tcp, 80);
            PlanOne(p, probe, m).checks ==
            [Check(CONTROL_PORT_AVAILABLE, control.free, control.message)]
            + if control.free && p.requiresHttp01 then [Check(HTTP01_PORT_AVAILABLE, http.free, http.message)] else []
  {}

  /** The next protocol's turn comes after the checks and the probed attempts, and the port is taken. */
  lemma TurnMeans(p: ProtocolRequest, probe: Probe, m: Moment)
    ensures var plan := PlanOne(p, probe, m);
            && After(plan, m).at ==
              m.at + |plan.checks| + |Unreserved(PortsOf(plan.attempts), p.network, m.reserved, |plan.attempts|)|
            && After(plan, m).reserved ==
              if plan.selectedPort.Some? then m.reserved + {(p.network, plan.selectedPort.value)} else m.reserved
  {
    var plan := PlanOne(p, probe, m);
    ProbesMean(plan.attempts, p.network, m.reserved);
  }

  /** Planning two lists one after the other: the second is planned from the moment after the first on. */
  lemma {:induction false} PlansCompose(
    a: seq<ProtocolRequest>, b: seq<ProtocolRequest>, probe: Probe, m: Moment)
    ensures PlanAll(a + b, probe, m) == PlanAll(a, probe, m) + PlanAll(b, probe, AfterAll(a, probe, m))
    decreases |a|
  {
    if a == [] {
      assert a + b == b;
    } else {
      var plan, rest := PlanOne(a[0], probe, m), a[1..];
      PlansCompose(rest, b, probe, After(plan, m));
      assert (a + b)[0] == a[0] && (a + b)[1..] == rest + b;
      assert PlanAll(a + b, probe, m) == [plan] + PlanAll(rest + b, probe, After(plan, m));
    }
  }

  lemma HeldByFirst(first: ProtocolPlan, rest: seq<ProtocolPlan>)
    ensures HeldBy([first] + rest) == TakenBy(first) + HeldBy(rest)
  {
    var plans := [first] + rest;
    assert forall i :: 0 <= i < |rest| ==> plans[i + 1] == rest[i];
    forall held | held in TakenBy(first) + HeldBy(rest)
      ensures held in HeldBy(plans)
    {
      if held !in TakenBy(first) {
        var i :| 0 <= i < |rest| && rest[i].selectedPort.Some? && held == (rest[i].network, rest[i].selectedPort.value);
        assert plans[i + 1] == rest[i];
      } else {
        assert plans[0] == first;
      }
    }
  }

  lemma {:induction false} PlansReserve(protocols: seq<ProtocolRequest>, probe: Probe, m: Moment)
    ensures AfterAll(protocols, probe, m).reserved == m.reserved + HeldBy(PlanAll(protocols, probe, m))
    decreases |protocols|
  {
    if protocols != [] {
      var plan := PlanOne(protocols[0], probe, m);
      PlansReserve(protocols[1..], probe, After(plan, m));
      HeldByFirst(plan, PlanAll(protocols[1..], probe, After(plan, m)));
    }
  }

  /** Planning fewer protocols gives the same plans for them: a later protocol never costs an earlier one its port. */
  lemma PrefixPlansAlike(protocols: seq<ProtocolRequest>, probe: Probe, m: Moment, n: nat)
    requires n <= |protocols|
    ensures PlanAll(protocols[..n], probe, m) == PlanAll(protocols, probe, m)[..n]
  {
    PlansCompose(protocols[..n], protocols[n..], probe, m);
    assert protocols[..n] + protocols[n..] == protocols;
  }

  /**
    Every protocol is planned as if alone on a host where the earlier protocols already hold their
    ports, and from the probe on at which its turn comes.
   */
  lemma EachIsPlannedAfterTheEarlier(protocols: seq<ProtocolRequest>, probe: Probe, m: Moment, n: nat)
    requires n < |protocols|
    ensures var plans, turn := PlanAll(protocols, probe, m), AfterAll(protocols[..n], probe, m);
            && plans[n] == PlanOne(protocols[n], probe, turn)
            && turn.reserved == m.reserved + HeldBy(plans[..n])
  {
    PlansCompose(protocols[..n], protocols[n..], probe, m);
    assert protocols[..n] + protocols[n..] == protocols;
    PlansReserve(protocols[..n], probe, m);
    PrefixPlansAlike(protocols, probe, m, n);
  }

  /** The checks that precede the candidates, as their probes find them. */
  predicate ControlFree(p: ProtocolRequest, probe: Probe, m: Moment) {
    probe(m.at, Tcp, p.controlPort).free
  }

  predicate HttpFree(p: ProtocolRequest, probe: Probe, m: Moment) {
    p.requiresHttp01 ==> probe(m.at + 1, Tcp, 80).free
  }

  /**
    First fit for one protocol: READY exactly when the checks pass and some candidate can be had,
    at the first such.
   */
  ghost predicate PlannedFirstFit(p: ProtocolRequest, plan: ProtocolPlan, probe: Probe, m: Moment) {
    var checked := AfterChecks(p, m);
    && plan.protocol == p.protocol && plan.network == p.network
    && (plan.status == READY <==> plan.selectedPort.Some?)
    && (plan.status == READY <==>
          && ControlFree(p, probe, m) && HttpFree(p, probe, m)
          && exists i :: 0 <= i < |p.candidates| && CanBeHad(p.candidates, p.network, probe, checked, i))
    && (plan.status == READY ==>
          && FirstFit(plan.attempts, p.candidates, p.network, probe, checked)
          && plan.attempts != [] && plan.attempts[|plan.attempts| - 1].available
          && plan.selectedPort == Some(plan.attempts[|plan.attempts| - 1].port))
  }

  lemma PlanOneIsFirstFit(p: ProtocolRequest, probe: Probe, m: Moment)
    ensures PlannedFirstFit(p, PlanOne(p, probe, m), probe, m)
  {
    var checked := AfterChecks(p, m);
    AttemptsAreFirstFit(p.candidates, p.network, probe, checked);
    var attempts := Attempts(p.candidates, p.network, probe, checked);
    if i :| 0 <= i < |p.candidates| && CanBeHad(p.candidates, p.network, probe, checked, i) {
      assert i < |attempts| ==> attempts[i].available;
    }
    if SelectedOf(attempts).Some? {
      assert CanBeHad(p.candidates, p.network, probe, checked, |attempts| - 1);
    }
  }

  /**
    Exact first fit: a READY protocol holds the first candidate that its probe finds free and no
    earlier protocol holds; a protocol whose pool is exhausted has no such candidate.
   */
  lemma PlanIsFirstFit(protocols: seq<ProtocolRequest>, probe: Probe, at: nat, n: nat)
    requires n < |protocols|
    ensures var from := Moment(at, {});
            var plans, turn := PlanAll(protocols, probe, from), AfterAll(protocols[..n], probe, from);
            && PlannedFirstFit(protocols[n], plans[n], probe, turn)
            && turn.reserved == HeldBy(plans[..n])
  {
    EachIsPlannedAfterTheEarlier(protocols, probe, Moment(at, {}), n);
    PlanOneIsFirstFit(protocols[n], probe, AfterAll(protocols[..n], probe, Moment(at, {})));
  }

  /** The error code tells the first step that failed, and a blocked protocol holds no port. */
  ghost predicate SaysWhy(p: ProtocolRequest, plan: ProtocolPlan, probe: Probe, m: Moment) {
    var controlFree, httpFree := ControlFree(p, probe, m), HttpFree(p, probe, m);
    && (plan.errorCode == CONTROL_PORT_UNAVAILABLE <==> !controlFree)
    && (plan.errorCode == HTTP01_PORT_UNAVAILABLE <==> controlFree && !httpFree)
    && (plan.errorCode == PORT_POOL_EXHAUSTED <==> controlFree && httpFree && plan.status == BLOCKED)
    && (plan.errorCode == NoError <==> plan.status == READY)
    && (plan.status == BLOCKED ==> plan.selectedPort == None)
    && (!(controlFree && httpFree) ==> plan.attempts == [])
  }

  lemma PlanOneSaysWhy(p: ProtocolRequest, probe: Probe, m: Moment)
    ensures SaysWhy(p, PlanOne(p, probe, m), probe, m)
  {
  }

  lemma BlockedSaysWhy(protocols: seq<ProtocolRequest>, probe: Probe, m: Moment, n: nat)
    requires n < |protocols|
    ensures SaysWhy(protocols[n], PlanAll(protocols, probe, m)[n], probe, AfterAll(protocols[..n], probe, m))
  {
    EachIsPlannedAfterTheEarlier(protocols, probe, m, n);
    PlanOneSaysWhy(protocols[n], probe, AfterAll(protocols[..n], probe, m));
  }

  /** No two READY protocols hold the same port of the same network. */
  lemma ReadyPortsDiffer(protocols: seq<ProtocolRequest>, probe: Probe, at: nat, i: nat, j: nat)
    requires i < j < |protocols|
    ensures var plans := PlanAll(protocols, probe, Moment(at, {}));
            plans[i].status == READY && plans[j].status == READY ==>
              (plans[i].network, plans[i].selectedPort) != (plans[j].network, plans[j].selectedPort)
  {
    var plans := PlanAll(protocols, probe, Moment(at, {}));
    PlanIsFirstFit(protocols, probe, at, i);
    PlanIsFirstFit(protocols, probe, at, j);
    if plans[i].status == READY && plans[j].status == READY {
      assert plans[..j][i] == plans[i];
      assert (plans[i].network, plans[i].selectedPort.value) in HeldBy(plans[..j]);
      var last := |plans[j].attempts| - 1;
      assert plans[j].attempts[last].port == protocols[j].candidates[last];
    }
  }
}
