/**
  Port planning behind the certificate-domain check: protocols whose domain does not resolve to the
  machine are planned apart and blocked, the others are planned together as if those were not there.
 */
module DnsPlan {
  import opened Wrappers
  import opened Patterns
  import opened PortPlan

  type Address = nat

  /** `literal` reads an address written out; `lookup` asks DNS and may return entries without an address. */
  datatype Resolver = Resolver(literal: string -> Option<Address>, lookup: string -> Option<seq<Option<Address>>>)

  datatype Verdict = Verdict(check: Check, code: ErrorCode)

  const MATCHED :=
    Verdict(Check(DNS_ADDRESS_MATCH, true, "certificate domain resolves to the Machine address"), NoError)
  const UNRESOLVED_DOMAIN :=
    Verdict(Check(DNS_ADDRESS_MATCH, false, "cannot resolve certificate domain"), DNS_LOOKUP_FAILED)
  const UNRESOLVED_MACHINE :=
    Verdict(Check(DNS_ADDRESS_MATCH, false, "cannot resolve the Machine address"), DNS_LOOKUP_FAILED)
  const MISMATCH :=
    Verdict(Check(DNS_ADDRESS_MATCH, false, "certificate domain does not resolve to the Machine address"),
            DNS_ADDRESS_MISMATCH)

  /** The addresses a name stands for; a name without any does not resolve. */
  ghost function AddressesOf(r: Resolver, value: string): set<Address> {
    if r.literal(value).Some? then {r.literal(value).value}
    else if r.lookup(value).None? then {}
    else set entry | entry in r.lookup(value).value && entry.Some? :: entry.value
  }

  /** The resolver gives this address for the name: the literal, or else an entry of the lookup. */
  predicate Gives(r: Resolver, value: string, a: Address) {
    || r.literal(value) == Some(a)
    || (r.literal(value) == None && r.lookup(value).Some? && Some(a) in r.lookup(value).value)
  }

  lemma AddressesAreGiven(r: Resolver, value: string)
    ensures forall a :: a in AddressesOf(r, value) <==> Gives(r, value, a)
  {
  }

  ghost function VerdictOf(r: Resolver, domain: string, expectedAddress: string): Verdict {
    if AddressesOf(r, domain) == {} then UNRESOLVED_DOMAIN
    else if AddressesOf(r, expectedAddress) == {} then UNRESOLVED_MACHINE
    else if AddressesOf(r, domain) * AddressesOf(r, expectedAddress) != {} then MATCHED
    else MISMATCH
  }

  /** The two names share an address. */
  ghost predicate Match(r: Resolver, domain: string, machine: string) {
    exists a :: Gives(r, domain, a) && Gives(r, machine, a)
  }

  ghost predicate Resolves(r: Resolver, value: string) {
    exists a :: Gives(r, value, a)
  }

  /** What a verdict tells of the resolver. */
  ghost predicate TellsOf(r: Resolver, domain: string, machine: string, verdict: Verdict) {
    && verdict.check.code == DNS_ADDRESS_MATCH
    && (verdict.check.ok <==> Match(r, domain, machine))
    && (verdict.code == NoError <==> Match(r, domain, machine))
    && (verdict.code == DNS_LOOKUP_FAILED <==> !Resolves(r, domain) || !Resolves(r, machine))
    && (verdict.code == DNS_ADDRESS_MISMATCH <==>
          Resolves(r, domain) && Resolves(r, machine) && !Match(r, domain, machine))
  }

  lemma VerdictTells(r: Resolver, domain: string, machine: string)
    ensures TellsOf(r, domain, machine, VerdictOf(r, domain, machine))
  {
    AddressesAreGiven(r, domain);
    AddressesAreGiven(r, machine);
    var a, b := AddressesOf(r, domain), AddressesOf(r, machine);
    if address :| address in a * b {
      assert Gives(r, domain, address) && Gives(r, machine, address);
    }
    if address :| address in a {
      assert Gives(r, domain, address);
    }
    if address :| address in b {
      assert Gives(r, machine, address);
    }
    if address :| Gives(r, domain, address) && Gives(r, machine, address) {
      assert address in a * b;
    }
  }

  /** Which of the names does not resolve: the domain is looked up first. */
  lemma MessagesTell(r: Resolver, domain: string, machine: string)
    ensures VerdictOf(r, domain, machine).check.message ==
            if !Resolves(r, domain) then "cannot resolve certificate domain"
            else if !Resolves(r, machine) then "cannot resolve the Machine address"
            else if Match(r, domain, machine) then "certificate domain resolves to the Machine address"
            else "certificate domain does not resolve to the Machine address"
  {
    VerdictTells(r, domain, machine);
    AddressesAreGiven(r, domain);
    if address :| address in AddressesOf(r, domain) {
      assert Gives(r, domain, address);
    }
  }

  method ResolveAddresses(r: Resolver, value: string) returns (addresses: seq<Address>)
    ensures forall a :: a in addresses <==> Gives(r, value, a)
    ensures (set a | a in addresses) == AddressesOf(r, value)
    ensures addresses == [] <==> AddressesOf(r, value) == {}
  {
    if r.literal(value).Some? {
      return [r.literal(value).value];
    }
    addresses := [];
    if r.lookup(value).None? {
      return;
    }
    var entries := r.lookup(value).value;
    for i := 0 to |entries|
      invariant forall a :: a in addresses <==> Some(a) in entries[..i]
    {
      if entries[i].Some? {
        addresses := addresses + [entries[i].value];
      }
    }
    assert entries[..|entries|] == entries;
    assert forall a :: a in addresses <==> a in AddressesOf(r, value);
    if addresses != [] {
      assert addresses[0] in AddressesOf(r, value);
    }
  }

  method ProtocolDnsCheck(r: Resolver, domain: string, expectedAddress: string) returns (verdict: Verdict)
    ensures verdict == VerdictOf(r, domain, expectedAddress)
    ensures TellsOf(r, domain, expectedAddress, verdict)
  {
    VerdictTells(r, domain, expectedAddress);
    var domainAddresses := ResolveAddresses(r, domain);
    if domainAddresses == [] {
      return UNRESOLVED_DOMAIN;
    }
    var expectedAddresses := ResolveAddresses(r, expectedAddress);
    if expectedAddresses == [] {
      return UNRESOLVED_MACHINE;
    }
    for i := 0 to |domainAddresses|
      invariant forall a :: a in domainAddresses[..i] ==> a !in expectedAddresses
    {
      for j := 0 to |expectedAddresses|
        invariant domainAddresses[i] !in expectedAddresses[..j]
      {
        if domainAddresses[i] == expectedAddresses[j] {
          assert domainAddresses[i] in AddressesOf(r, domain) * AddressesOf(r, expectedAddress);
          return MATCHED;
        }
      }
      assert expectedAddresses[..|expectedAddresses|] == expectedAddresses;
    }
    assert domainAddresses[..|domainAddresses|] == domainAddresses;
    assert forall a :: a in AddressesOf(r, domain) ==> a in domainAddresses;
    assert forall a :: a in AddressesOf(r, expectedAddress) ==> a in expectedAddresses;
    return MISMATCH;
  }

  // ----- the specification

  ghost predicate IsEligible(r: Resolver, p: ProtocolRequest) {
    p.domain == "" || VerdictOf(r, p.domain, p.expectedAddress).check.ok
  }

  ghost function Eligible(r: Resolver, protocols: seq<ProtocolRequest>): seq<ProtocolRequest> {
    if protocols == [] then []
    else
      var last := protocols[|protocols| - 1];
      Eligible(r, protocols[..|protocols| - 1]) + (if IsEligible(r, last) then [last] else [])
  }

  ghost function WithDnsCheck(r: Resolver, p: ProtocolRequest, plan: ProtocolPlan): ProtocolPlan {
    if p.domain == "" then plan else plan.(checks := plan.checks + [VerdictOf(r, p.domain, p.expectedAddress).check])
  }

  ghost function BlockedByDns(r: Resolver, p: ProtocolRequest, plan: ProtocolPlan): ProtocolPlan {
    WithDnsCheck(r, p, plan).(status := BLOCKED, selectedPort := None,
      errorCode := VerdictOf(r, p.domain, p.expectedAddress).code)
  }

  /** The joint plan of the eligible protocols; its probes come first. */
  ghost function JointPlan(
    r: Resolver, protocols: seq<ProtocolRequest>, probe: Probe, at: nat): (plans: seq<ProtocolPlan>)
    ensures |plans| == |Eligible(r, protocols)|
  {
    PlanAll(Eligible(r, protocols), probe, Moment(at, {}))
  }

  ghost function AfterJointPlan(r: Resolver, protocols: seq<ProtocolRequest>, probe: Probe, at: nat): nat {
    AfterAll(Eligible(r, protocols), probe, Moment(at, {})).at
  }

  ghost function AfterPlannedAlone(p: ProtocolRequest, probe: Probe, at: nat): nat {
    AfterAll([p], probe, Moment(at, {})).at
  }

  /** The number of the next probe after the others of these protocols are planned alone, one after the other. */
  ghost function AfterTheFailed(r: Resolver, protocols: seq<ProtocolRequest>, probe: Probe, at: nat): nat {
    if protocols == [] then at
    else
      var last := protocols[|protocols| - 1];
      var before := AfterTheFailed(r, protocols[..|protocols| - 1], probe, at);
      if IsEligible(r, last) then before else AfterPlannedAlone(last, probe, before)
  }

  lemma OneMoreFailed(r: Resolver, protocols: seq<ProtocolRequest>, probe: Probe, at: nat, i: nat)
    requires i < |protocols|
    ensures var before := AfterTheFailed(r, protocols[..i], probe, at);
            AfterTheFailed(r, protocols[..i + 1], probe, at) ==
            if IsEligible(r, protocols[i]) then before else AfterPlannedAlone(protocols[i], probe, before)
  {
    assert protocols[..i + 1][..i] == protocols[..i];
  }

  /** The plan of the n-th protocol: its place in the joint plan, or planned alone afterwards and blocked. */
  ghost function Expected(r: Resolver, protocols: seq<ProtocolRequest>, probe: Probe, at: nat, n: nat): ProtocolPlan
    requires n < |protocols|
  {
    var p := protocols[n];
    if IsEligible(r, p) then
      EligibleAt(r, protocols, n);
      WithDnsCheck(r, p, JointPlan(r, protocols, probe, at)[|Eligible(r, protocols[..n])|])
    else
      var from := AfterTheFailed(r, protocols[..n], probe, AfterJointPlan(r, protocols, probe, at));
      BlockedByDns(r, p, PlanOne(p, probe, Moment(from, {})))
  }

  lemma {:induction false} EligibleAt(r: Resolver, protocols: seq<ProtocolRequest>, n: nat)
    requires n < |protocols| && IsEligible(r, protocols[n])
    ensures |Eligible(r, protocols[..n])| < |Eligible(r, protocols)|
    ensures Eligible(r, protocols)[|Eligible(r, protocols[..n])|] == protocols[n]
  {
    var m := |protocols| - 1;
    if n < m {
      EligibleAt(r, protocols[..m], n);
      assert protocols[..m][..n] == protocols[..n];
    }
  }

  lemma {:induction false} EligibleIsValid(r: Resolver, protocols: seq<ProtocolRequest>)
    requires DistinctProtocols(protocols)
    requires forall i :: 0 <= i < |protocols| ==> ValidProtocol(protocols[i])
    ensures |Eligible(r, protocols)| <= |protocols|
    ensures DistinctProtocols(Eligible(r, protocols))
    ensures forall p :: p in Eligible(r, protocols) <==> p in protocols && IsEligible(r, p)
    ensures forall i :: 0 <= i < |Eligible(r, protocols)| ==> ValidProtocol(Eligible(r, protocols)[i])
  {
    if protocols != [] {
      var m := |protocols| - 1;
      EligibleIsValid(r, protocols[..m]);
      var before := Eligible(r, protocols[..m]);
      assert forall i :: 0 <= i < |before| ==> before[i] in protocols[..m];
      assert forall p :: p in protocols <==> p in protocols[..m] || p == protocols[m];
    }
  }

  // ----- the method

  /** The plans of the eligible protocols, filed by protocol. */
  ghost predicate Files(plans: seq<ProtocolPlan>, eligible: seq<ProtocolRequest>, filed: map<Protocol, ProtocolPlan>)
    requires |plans| == |eligible|
  {
    && (forall p :: p in filed ==> exists j :: 0 <= j < |eligible| && eligible[j].protocol == p)
    && (forall j :: 0 <= j < |eligible| ==> eligible[j].protocol in filed && filed[eligible[j].protocol] == plans[j])
  }

  method FilePlans(plans: seq<ProtocolPlan>, ghost eligible: seq<ProtocolRequest>)
    returns (filed: map<Protocol, ProtocolPlan>)
    requires |plans| == |eligible| && DistinctProtocols(eligible)
    requires forall j :: 0 <= j < |plans| ==> plans[j].protocol == eligible[j].protocol
    ensures Files(plans, eligible, filed)
  {
    filed := map[];
    for k := 0 to |plans|
      invariant forall p :: p in filed ==> exists j :: 0 <= j < k && eligible[j].protocol == p
      invariant forall j :: 0 <= j < k ==> eligible[j].protocol in filed && filed[eligible[j].protocol] == plans[j]
    {
      filed := filed[plans[k].protocol := plans[k]];
    }
  }

  method PlanEligible(request: Request, eligible: seq<ProtocolRequest>, probe: Probe, at: nat, ghost r: Resolver)
    returns (plannedByProtocol: map<Protocol, ProtocolPlan>, next: nat)
    requires ValidRequest(request) && eligible == Eligible(r, request.protocols)
    ensures Files(JointPlan(r, request.protocols, probe, at), eligible, plannedByProtocol)
    ensures next == AfterJointPlan(r, request.protocols, probe, at)
  {
    if |eligible| == 0 {
      return map[], at;
    }
    EligibleIsValid(r, request.protocols);
    var result, moment := Plan(request.(protocols := eligible), probe, at);
    forall j | 0 <= j < |eligible|
      ensures result.value[j].protocol == eligible[j].protocol
    {
      PlanIsFirstFit(eligible, probe, at, j);
    }
    plannedByProtocol := FilePlans(result.value, eligible);
    next := moment.at;
  }

  /** The domain check refuses the protocol: it has a domain, and this shares no address with the machine. */
  ghost predicate RefusedByDns(r: Resolver, p: ProtocolRequest) {
    p.domain != "" && !Match(r, p.domain, p.expectedAddress)
  }

  /** What the entry of a protocol in the result tells, without the functions that compute it. */
  ghost predicate IsEntryOf(r: Resolver, p: ProtocolRequest, plan: ProtocolPlan) {
    && plan.protocol == p.protocol && plan.network == p.network
    && (plan.errorCode in {DNS_LOOKUP_FAILED, DNS_ADDRESS_MISMATCH} <==> RefusedByDns(r, p))
    && (RefusedByDns(r, p) ==>
          && plan.status == BLOCKED && plan.selectedPort == None
          && (plan.errorCode == DNS_LOOKUP_FAILED <==> !Resolves(r, p.domain) || !Resolves(r, p.expectedAddress)))
    && (p.domain != "" <==> exists i :: 0 <= i < |plan.checks| && plan.checks[i].code == DNS_ADDRESS_MATCH)
    && (p.domain != "" ==>
          && plan.checks != [] && plan.checks[|plan.checks| - 1].code == DNS_ADDRESS_MATCH
          && plan.checks[|plan.checks| - 1].ok == !RefusedByDns(r, p))
  }

  lemma EligibleIsNotRefused(r: Resolver, p: ProtocolRequest)
    ensures IsEligible(r, p) <==> !RefusedByDns(r, p)
  {
    VerdictTells(r, p.domain, p.expectedAddress);
  }

  lemma PlansHaveNoDnsCheck(p: ProtocolRequest, probe: Probe, m: Moment)
    ensures var plan := PlanOne(p, probe, m);
            && plan.protocol == p.protocol && plan.network == p.network
            && plan.errorCode !in {DNS_LOOKUP_FAILED, DNS_ADDRESS_MISMATCH}
            && forall i :: 0 <= i < |plan.checks| ==> plan.checks[i].code != DNS_ADDRESS_MATCH
  {
  }

  lemma DnsCheckIsLast(r: Resolver, p: ProtocolRequest, plan: ProtocolPlan)
    requires forall i :: 0 <= i < |plan.checks| ==> plan.checks[i].code != DNS_ADDRESS_MATCH
    ensures var checks := WithDnsCheck(r, p, plan).checks;
            && (p.domain == "" ==> checks == plan.checks)
            && (p.domain != "" ==>
                  && |checks| == |plan.checks| + 1 && checks[|plan.checks|].code == DNS_ADDRESS_MATCH
                  && checks[|plan.checks|].ok == !RefusedByDns(r, p))
  {
    VerdictTells(r, p.domain, p.expectedAddress);
  }

  lemma EntryTells(r: Resolver, protocols: seq<ProtocolRequest>, probe: Probe, at: nat, n: nat)
    requires n < |protocols|
    ensures IsEntryOf(r, protocols[n], Expected(r, protocols, probe, at, n))
  {
    var p := protocols[n];
    EligibleIsNotRefused(r, p);
    VerdictTells(r, p.domain, p.expectedAddress);
    if IsEligible(r, p) {
      var eligible, place := Eligible(r, protocols), |Eligible(r, protocols[..n])|;
      EligibleAt(r, protocols, n);
      EachIsPlannedAfterTheEarlier(eligible, probe, Moment(at, {}), place);
      PlansHaveNoDnsCheck(p, probe, AfterAll(eligible[..place], probe, Moment(at, {})));
      DnsCheckIsLast(r, p, JointPlan(r, protocols, probe, at)[place]);
    } else {
      var from := AfterTheFailed(r, protocols[..n], probe, AfterJointPlan(r, protocols, probe, at));
      PlansHaveNoDnsCheck(p, probe, Moment(from, {}));
      DnsCheckIsLast(r, p, PlanOne(p, probe, Moment(from, {})));
    }
  }

  /** The probes are numbered from `at` on. */
  method PlanWithDns(request: Request, probe: Probe, at: nat, r: Resolver) returns (plans: Option<seq<ProtocolPlan>>)
    ensures plans.Some? <==> ValidRequest(request)
    ensures plans.Some? ==>
              && |plans.value| == |request.protocols|
              && forall i :: 0 <= i < |request.protocols| ==>
                   plans.value[i] == Expected(r, request.protocols, probe, at, i)
    ensures plans.Some? ==>
              forall i :: 0 <= i < |request.protocols| ==> IsEntryOf(r, request.protocols[i], plans.value[i])
  {
    var valid := ValidateRequest(request);
    if !valid {
      return None;
    }
    var dnsChecks, eligible := CheckDomains(request.protocols, r);
    var plannedByProtocol, next := PlanEligible(request, eligible, probe, at, r);
    var all := FinishAll(request, probe, at, next, r, dnsChecks, plannedByProtocol);
    forall i | 0 <= i < |request.protocols|
      ensures IsEntryOf(r, request.protocols[i], all[i])
    {
      EntryTells(r, request.protocols, probe, at, i);
    }
    return Some(all);
  }

  ghost predicate HoldsChecks(r: Resolver, protocols: seq<ProtocolRequest>, dnsChecks: map<Protocol, Verdict>) {
    && (forall j :: 0 <= j < |protocols| ==> (protocols[j].domain != "" <==> protocols[j].protocol in dnsChecks))
    && (forall j :: 0 <= j < |protocols| && protocols[j].domain != "" ==>
          dnsChecks[protocols[j].protocol] == VerdictOf(r, protocols[j].domain, protocols[j].expectedAddress))
  }

  /** The domain checks of the protocols that have a domain, and the protocols that remain eligible. */
  method CheckDomains(protocols: seq<ProtocolRequest>, r: Resolver)
    returns (dnsChecks: map<Protocol, Verdict>, eligible: seq<ProtocolRequest>)
    requires DistinctProtocols(protocols)
    ensures eligible == Eligible(r, protocols)
    ensures HoldsChecks(r, protocols, dnsChecks)
  {
    dnsChecks, eligible := map[], [];
    for i := 0 to |protocols|
      invariant eligible == Eligible(r, protocols[..i])
      invariant forall p :: p in dnsChecks ==> exists j :: 0 <= j < i && protocols[j].protocol == p
      invariant forall j :: 0 <= j < i ==> (protocols[j].domain != "" <==> protocols[j].protocol in dnsChecks)
      invariant forall j :: 0 <= j < i && protocols[j].domain != "" ==>
                  dnsChecks[protocols[j].protocol] == VerdictOf(r, protocols[j].domain, protocols[j].expectedAddress)
    {
      assert protocols[..i + 1][..i] == protocols[..i];
      var p := protocols[i];
      if p.domain == "" {
        eligible := eligible + [p];
      } else {
        var verdict := ProtocolDnsCheck(r, p.domain, p.expectedAddress);
        dnsChecks := dnsChecks[p.protocol := verdict];
        if verdict.check.ok {
          eligible := eligible + [p];
        }
      }
    }
    assert protocols[..|protocols|] == protocols;
  }

  lemma FiledIsEligible(
    r: Resolver, protocols: seq<ProtocolRequest>, i: nat, plans: seq<ProtocolPlan>, filed: map<Protocol, ProtocolPlan>)
    requires i < |protocols| && DistinctProtocols(protocols)
    requires forall j :: 0 <= j < |protocols| ==> ValidProtocol(protocols[j])
    requires |plans| == |Eligible(r, protocols)| && Files(plans, Eligible(r, protocols), filed)
    ensures protocols[i].protocol in filed <==> IsEligible(r, protocols[i])
    ensures IsEligible(r, protocols[i]) ==>
              && |Eligible(r, protocols[..i])| < |plans|
              && filed[protocols[i].protocol] == plans[|Eligible(r, protocols[..i])|]
  {
    var eligible := Eligible(r, protocols);
    EligibleIsValid(r, protocols);
    if protocols[i].protocol in filed {
      var j :| 0 <= j < |eligible| && eligible[j].protocol == protocols[i].protocol;
      assert eligible[j] in eligible;
      var k :| 0 <= k < |protocols| && protocols[k] == eligible[j];
      assert k == i;
    }
    if IsEligible(r, protocols[i]) {
      EligibleAt(r, protocols, i);
    }
  }

  /** One protocol's entry of the result: from the joint plan, or planned alone from probe `next` on and blocked. */
  method Finish(request: Request, i: nat, probe: Probe, ghost at: nat, next: nat, r: Resolver,
                dnsChecks: map<Protocol, Verdict>, plannedByProtocol: map<Protocol, ProtocolPlan>)
    returns (planned: ProtocolPlan, after: nat)
    requires ValidRequest(request) && i < |request.protocols| && HoldsChecks(r, request.protocols, dnsChecks)
    requires Files(JointPlan(r, request.protocols, probe, at), Eligible(r, request.protocols), plannedByProtocol)
    requires next == AfterTheFailed(r, request.protocols[..i], probe, AfterJointPlan(r, request.protocols, probe, at))
    ensures planned == Expected(r, request.protocols, probe, at, i)
    ensures var p := request.protocols[i];
            after == if IsEligible(r, p) then next else AfterPlannedAlone(p, probe, next)
  {
    var p := request.protocols[i];
    FiledIsEligible(r, request.protocols, i, JointPlan(r, request.protocols, probe, at), plannedByProtocol);
    if p.protocol in plannedByProtocol {
      planned, after := plannedByProtocol[p.protocol], next;
      if p.protocol in dnsChecks {
        planned := planned.(checks := planned.checks + [dnsChecks[p.protocol].check]);
      }
      return;
    }
    planned, after := PlanAlone(request, p, probe, next);
    planned := planned.(checks := planned.checks + [dnsChecks[p.protocol].check],
                        status := BLOCKED, selectedPort := None, errorCode := dnsChecks[p.protocol].code);
  }

  method PlanAlone(request: Request, p: ProtocolRequest, probe: Probe, at: nat)
    returns (planned: ProtocolPlan, next: nat)
    requires IsUuid(request.planId) && request.mode != UnknownMode && ValidProtocol(p)
    ensures planned == PlanOne(p, probe, Moment(at, {}))
    ensures next == AfterPlannedAlone(p, probe, at)
  {
    var result, moment := Plan(request.(protocols := [p]), probe, at);
    return result.value[0], moment.at;
  }

  /** The first plans of the result. */
  ghost predicate AsExpected(
    r: Resolver, protocols: seq<ProtocolRequest>, probe: Probe, at: nat, plans: seq<ProtocolPlan>)
  {
    |plans| <= |protocols| && forall i :: 0 <= i < |plans| ==> plans[i] == Expected(r, protocols, probe, at, i)
  }

  lemma OneMoreAsExpected(
    r: Resolver, protocols: seq<ProtocolRequest>, probe: Probe, at: nat, plans: seq<ProtocolPlan>, plan: ProtocolPlan)
    requires |plans| < |protocols| && AsExpected(r, protocols, probe, at, plans)
    requires plan == Expected(r, protocols, probe, at, |plans|)
    ensures AsExpected(r, protocols, probe, at, plans + [plan])
  {
  }

  /** The entries in the order of the request. */
  method FinishAll(request: Request, probe: Probe, ghost at: nat, joint: nat, r: Resolver,
                   dnsChecks: map<Protocol, Verdict>, plannedByProtocol: map<Protocol, ProtocolPlan>)
    returns (all: seq<ProtocolPlan>)
    requires ValidRequest(request) && HoldsChecks(r, request.protocols, dnsChecks)
    requires Files(JointPlan(r, request.protocols, probe, at), Eligible(r, request.protocols), plannedByProtocol)
    requires joint == AfterJointPlan(r, request.protocols, probe, at)
    ensures |all| == |request.protocols| && AsExpected(r, request.protocols, probe, at, all)
  {
    all := [];
    var next := joint;
    for i := 0 to |request.protocols|
      invariant |all| == i && AsExpected(r, request.protocols, probe, at, all)
      invariant next == AfterTheFailed(r, request.protocols[..i], probe, joint)
    {
      var planned, after := Finish(request, i, probe, at, next, r, dnsChecks, plannedByProtocol);
      OneMoreFailed(r, request.protocols, probe, joint, i);
      OneMoreAsExpected(r, request.protocols, probe, at, all, planned);
      all, next := all + [planned], after;
    }
  }

  // ----- what it means

  /** The result keeps the request's order, and no protocol whose domain check failed is READY. */
  lemma OrderKeptAndFailuresBlocked(r: Resolver, protocols: seq<ProtocolRequest>, probe: Probe, at: nat, n: nat)
    requires n < |protocols|
    ensures var plan := Expected(r, protocols, probe, at, n);
            && plan.protocol == protocols[n].protocol
            && (!IsEligible(r, protocols[n]) ==>
                  && plan.status == BLOCKED && plan.selectedPort == None
                  && plan.errorCode in {DNS_LOOKUP_FAILED, DNS_ADDRESS_MISMATCH})
  {
    if IsEligible(r, protocols[n]) {
      EligibleAt(r, protocols, n);
      PlanIsFirstFit(Eligible(r, protocols), probe, at, |Eligible(r, protocols[..n])|);
    }
  }

  lemma {:induction false} EligibleSplits(r: Resolver, a: seq<ProtocolRequest>, b: seq<ProtocolRequest>)
    ensures Eligible(r, a + b) == Eligible(r, a) + Eligible(r, b)
  {
    if b == [] {
      assert a + b == a;
    } else {
      EligibleSplits(r, a, b[..|b| - 1]);
      assert (a + b)[..|a + b| - 1] == a + b[..|b| - 1];
    }
  }

  lemma EligibleWithout(r: Resolver, protocols: seq<ProtocolRequest>, n: nat)
    requires n < |protocols| && !IsEligible(r, protocols[n])
    ensures Eligible(r, protocols[..n] + protocols[n + 1..]) == Eligible(r, protocols)
  {
    EligibleSplits(r, protocols[..n], protocols[n + 1..]);
    EligibleSplits(r, protocols[..n + 1], protocols[n + 1..]);
    assert protocols[..n + 1] + protocols[n + 1..] == protocols;
    assert protocols[..n + 1][..n] == protocols[..n];
  }

  /** Who is eligible before a protocol does not depend on a failed one elsewhere. */
  lemma EligibleBefore(r: Resolver, protocols: seq<ProtocolRequest>, failed: nat, n: nat)
    requires failed < |protocols| && n < |protocols| && n != failed
    requires !IsEligible(r, protocols[failed])
    ensures var without := protocols[..failed] + protocols[failed + 1..];
            var m := if n < failed then n else n - 1;
            without[m] == protocols[n] && Eligible(r, without[..m]) == Eligible(r, protocols[..n])
  {
    var without := protocols[..failed] + protocols[failed + 1..];
    if n < failed {
      assert without[..n] == protocols[..n];
    } else {
      EligibleWithout(r, protocols[..n], failed);
      assert without[..n - 1] == protocols[..n][..failed] + protocols[..n][failed + 1..];
    }
  }

  /**
    A failed domain check costs no other protocol anything: the eligible ones are planned as if it
    were not in the request, although the host may change from probe to probe; of the failed ones
    only those that come later find other probes, and they are blocked with the same code.
   */
  lemma DnsFailureCostsNothing(
    r: Resolver, protocols: seq<ProtocolRequest>, probe: Probe, at: nat, failed: nat, n: nat)
    requires failed < |protocols| && n < |protocols| && n != failed
    requires !IsEligible(r, protocols[failed])
    ensures var without := protocols[..failed] + protocols[failed + 1..];
            var m := if n < failed then n else n - 1;
            var plan, planWithout := Expected(r, protocols, probe, at, n), Expected(r, without, probe, at, m);
            && (IsEligible(r, protocols[n]) || n < failed ==> planWithout == plan)
            && planWithout.protocol == plan.protocol && planWithout.status == plan.status
            && planWithout.selectedPort == plan.selectedPort && planWithout.errorCode == plan.errorCode
  {
    EligibleWithout(r, protocols, failed);
    EligibleBefore(r, protocols, failed, n);
    if n < failed {
      assert (protocols[..failed] + protocols[failed + 1..])[..n] == protocols[..n];
    }
  }
}
