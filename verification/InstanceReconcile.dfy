/** The handler that brings the container of one managed instance into the desired state. */
module InstanceReconcile {
  import opened Wrappers
  import opened Patterns
  import opened Docker
  import opened Instances

  datatype Material = Material(publicKey: string, shortId: string)

  datatype Result = Result(
    instanceId: string, containerName: string, configHash: string, externalPort: Port, material: Material)

  // ----- validation

  const MAX_FALLBACK_PORTS := 15

  predicate IsImage(image: string) {
    var prefix := "remnawave/node@sha256:";
    && |image| == |prefix| + 64
    && image[..|prefix|] == prefix
    && forall i :: |prefix| <= i < |image| ==> IsLowerHex(image[i])
  }

  predicate IsSecret(secret: string) {
    && 100 <= |secret| <= 262144
    && forall i :: 0 <= i < |secret| ==>
         'A' <= secret[i] <= 'Z' || 'a' <= secret[i] <= 'z' || '0' <= secret[i] <= '9' || secret[i] in "+/=_-"
  }

  /** A port an instance may publish. */
  predicate IsPublishable(port: Port) {
    port != 0 && !IsControlPort(port)
  }

  /** The port clauses of the request: publishable, few and pairwise different. */
  ghost predicate PortsValid(externalPort: Port, fallbackPorts: seq<Port>) {
    && IsPublishable(externalPort)
    && |fallbackPorts| <= MAX_FALLBACK_PORTS
    && (forall i :: 0 <= i < |fallbackPorts| ==> IsPublishable(fallbackPorts[i]))
    && Distinct([externalPort] + fallbackPorts)
  }

  predicate ProtocolConsistent(r: Request) {
    r.protocol != UnknownProtocol && ControlPortOf(r.protocol) == r.controlPort && NetworkOf(r.protocol) == r.network
  }

  ghost predicate ValidRequest(r: Request) {
    IsUuid(r.instanceId) && ProtocolConsistent(r) && PortsValid(r.externalPort, r.fallbackPorts) && IsImage(r.image)
      && IsSecret(r.secretKey)
  }

  /** An image is pinned by the sixty-four lower-case hexadecimal digits of its digest. */
  lemma ImagesAre(digits: string)
    ensures IsImage("remnawave/node@sha256:" + digits) <==>
            |digits| == 64 && forall i :: 0 <= i < 64 ==> '0' <= digits[i] <= '9' || 'a' <= digits[i] <= 'f'
    ensures forall image: string :: IsImage(image) ==> |image| == 86 && image[..22] == "remnawave/node@sha256:"
  {
    var image := "remnawave/node@sha256:" + digits;
    assert image[..22] == "remnawave/node@sha256:";
    assert forall i :: 0 <= i < |digits| ==> image[22 + i] == digits[i];
    assert forall i :: 22 <= i < |image| ==> image[i] == digits[i - 22];
  }

  /** A secret has 100 to 262144 letters, digits and five more characters of the base64 alphabets. */
  lemma SecretsAre(secret: string)
    ensures IsSecret(secret) <==>
            && 99 < |secret| < 262145
            && forall c :: c in secret ==>
                 || 65 <= c as int <= 90 || 97 <= c as int <= 122 || 48 <= c as int <= 57
                 || c as int == 43 || c as int == 45 || c as int == 47 || c as int == 61 || c as int == 95
  {
    assert forall c: char :: c in "+/=_-" <==> c == '+' || c == '/' || c == '=' || c == '_' || c == '-';
    assert forall i :: 0 <= i < |secret| ==> secret[i] in secret;
  }

  /** The ports of a request: none below 1 or from 2222 to 2224, none twice, at most fifteen to fall back to. */
  lemma PortsAre(externalPort: Port, fallbackPorts: seq<Port>)
    ensures PortsValid(externalPort, fallbackPorts) <==>
            && (0 < externalPort < 2222 || 2224 < externalPort) && externalPort !in fallbackPorts
            && |fallbackPorts| < 16
            && (forall port :: port in fallbackPorts ==> 0 < port < 2222 || 2224 < port)
            && forall i, j :: 0 <= i < j < |fallbackPorts| ==> fallbackPorts[i] != fallbackPorts[j]
  {
    var ports := [externalPort] + fallbackPorts;
    assert forall i :: 0 <= i < |fallbackPorts| ==> fallbackPorts[i] in fallbackPorts;
    if Distinct(ports) {
      forall i | 0 <= i < |fallbackPorts|
        ensures fallbackPorts[i] != externalPort
      {
        assert ports[0] != ports[i + 1];
      }
      forall i, j | 0 <= i < j < |fallbackPorts|
        ensures fallbackPorts[i] != fallbackPorts[j]
      {
        assert ports[i + 1] != ports[j + 1];
      }
    }
  }

  /** What the protocol, its network and its control port can be. */
  lemma DefinitionsAre(r: Request)
    ensures ProtocolConsistent(r) <==>
            || (r.protocol == VlessReality && r.network == Tcp && r.controlPort == 2222)
            || (r.protocol == VlessTlsVision && r.network == Tcp && r.controlPort == 2223)
            || (r.protocol == Hysteria2 && r.network == Udp && r.controlPort == 2224)
  {}

  method ValidatePorts(externalPort: Port, fallbackPorts: seq<Port>) returns (valid: bool)
    ensures valid <==> PortsValid(externalPort, fallbackPorts)
  {
    if externalPort == 0 || IsControlPort(externalPort) || |fallbackPorts| > MAX_FALLBACK_PORTS {
      return false;
    }
    var ports := [externalPort] + fallbackPorts;
    var seenPorts := {externalPort};
    for i := 0 to |fallbackPorts|
      invariant forall port :: port in seenPorts <==> port in ports[..i + 1]
      invariant forall j :: 0 <= j < i ==> IsPublishable(fallbackPorts[j])
      invariant forall j, k :: 0 <= j < k <= i ==> ports[j] != ports[k]
    {
      var port := fallbackPorts[i];
      assert ports[i + 1] == port;
      if port == 0 || IsControlPort(port) {
        return false;
      }
      if port in seenPorts {
        var j :| 0 <= j < i + 1 && ports[..i + 1][j] == port;
        assert ports[j] == ports[i + 1];
        return false;
      }
      seenPorts := seenPorts + {port};
    }
    return true;
  }

  method Validate(r: Request) returns (valid: bool)
    ensures valid <==> ValidRequest(r)
  {
    if !IsUuid(r.instanceId) || !ProtocolConsistent(r) {
      return false;
    }
    var ports := ValidatePorts(r.externalPort, r.fallbackPorts);
    return ports && IsImage(r.image) && IsSecret(r.secretKey);
  }

  // ----- port selection

  /** Whether a port is free depends on the moment, counted in Docker commands issued so far. */
  type Freedom = (nat, Port) -> bool

  /** The first port of the list that is free at the moment and not excluded. */
  ghost predicate IsFirstFree(ports: seq<Port>, free: Freedom, at: nat, excluded: Option<Port>, port: Port) {
    exists i :: 0 <= i < |ports| && ports[i] == port && free(at, port) && excluded != Some(port)
      && forall j :: 0 <= j < i ==> !free(at, ports[j]) || excluded == Some(ports[j])
  }

  method SelectExternalPort(ports: seq<Port>, free: Freedom, at: nat, excluded: Option<Port>)
    returns (selected: Option<Port>)
    ensures selected.Some? ==> IsFirstFree(ports, free, at, excluded, selected.value)
    ensures selected.None? ==> forall i :: 0 <= i < |ports| ==> !free(at, ports[i]) || excluded == Some(ports[i])
  {
    for i := 0 to |ports|
      invariant forall j :: 0 <= j < i ==> !free(at, ports[j]) || excluded == Some(ports[j])
    {
      if excluded != Some(ports[i]) && free(at, ports[i]) {
        return Some(ports[i]);
      }
    }
    return None;
  }

  // ----- the handlers

  /** The host outside Docker: files that could be written, key material, ports free at each moment. */
  datatype Surroundings = Surroundings(filesWritable: bool, material: Option<Material>, free: Freedom)

  /**
    The one container of the instance is running, is this instance's own, and carries the hash of
    the reported port.
   */
  ghost predicate Converged(w: World, actor: Actor, name: string, hash: string, result: Result) {
    && result.instanceId == actor.instance && result.containerName == name && result.configHash == hash
    && name in w.containers
    && w.containers[name].running
    && w.containers[name].labels == Labels(true, actor.machine, actor.instance, hash)
  }

  ghost predicate OthersUntouched(before: World, after: World, name: string) {
    forall other :: other != name ==>
      (other in before.containers <==> other in after.containers)
      && (other in before.containers ==> after.containers[other] == before.containers[other])
  }

  predicate KeepsTheRest(before: World, after: World) {
    after.pulled == before.pulled && after.network == before.network
  }

  /** Nobody else's container is acted on or changed, and neither are the network and the images. */
  ghost predicate StaysApart(before: World, after: World, name: string) {
    Isolated(after.trace) && OthersUntouched(before, after, name) && KeepsTheRest(before, after)
  }

  /** A fallback port other than the lost one, the first free one when it was chosen. */
  ghost predicate IsOtherFreePort(lost: Request, free: Freedom, port: Port) {
    && port in lost.fallbackPorts && port != lost.externalPort
    && exists at :: IsFirstFree([lost.externalPort] + lost.fallbackPorts, free, at, Some(lost.externalPort), port)
  }

  /** The commands after a lost port: at most one removal, one more creation, and clearing that up when it fails. */
  ghost predicate RetryVerbs(before: seq<Verb>, verbs: seq<Verb>, succeeded: bool) {
    || verbs == before + [Create]
    || verbs == before + [Remove, Create]
    || (!succeeded && (verbs == before || verbs == before + [Remove]
                       || verbs == before + [Create, Remove] || verbs == before + [Remove, Create, Remove]))
  }

  /** An inspection, and a removal when it finds the own container. */
  ghost predicate IsClearing(before: World, name: string, actor: Actor, met: seq<Reply>, after: World, ok: bool) {
    && 1 <= |met| <= 2
    && var seen := Seen(before, name, actor, met[0]);
    if |met| == 1 then after == before && seen in {None, Some(None)} && (ok <==> seen.Some?)
    else
      && seen.Some? && seen.value.Some? && after == Removed(before, name, actor, met[1])
      && (ok <==> RemoveOutcome(before, name, met[1]).Done?)
  }

  ghost function TurnsOf(met: seq<Reply>, port: Option<Port>): (turns: seq<Turn>)
    ensures |turns| == |met|
  {
    seq(|met|, i requires 0 <= i < |met| => Turn(met[i], port, None, []))
  }

  /** Clearing leads the execution to its next attempt, or to its end. */
  lemma ClearingAdvances(
    digest: Desired -> string, w: World, e: Execution, met: seq<Reply>, port: Option<Port>, after: World, ok: bool)
    requires e.phase.Checking? && IsClearing(w, e.name, e.actor, met, after, ok)
    ensures var end := Alone(digest, w, e, TurnsOf(met, port));
            var cleared := e.(phase := if |met| == 1 then e.phase else Clearing(e.phase.last));
            end == (after, if ok then AfterClearing(cleared, e.phase.last, port) else End(cleared))
  {
    var turns := TurnsOf(met, port);
    assert turns[..0] == [] && Alone(digest, w, e, []) == (w, e);
    if |met| == 2 {
      assert turns[..1] == [turns[0]] && [turns[0]][..0] == [];
      assert Alone(digest, w, e, turns[..1]) == (w, e.(phase := Clearing(e.phase.last)));
    }
  }

  /** What stop, remove and create leave behind, when they meet the given replies. */
  ghost function Replaced(
    digest: Desired -> string, w: World, e: Execution, r0: Reply, r1: Reply, r2: Reply): (bool, World)
    requires e.job.Reconcile?
  {
    var stopped := Stopped(w, e.name, e.actor, r0);
    var gone := Removed(stopped, e.name, e.actor, r1);
    if RemoveOutcome(stopped, e.name, r1).Done?
    then (true, Created(gone, e.name, e.actor, ContainerFor(digest, e.actor.machine, e.job.request), r2))
    else (false, gone)
  }

  lemma ReplacingCompletes(digest: Desired -> string, w: World, e: Execution, r0: Reply, r1: Reply, r2: Reply)
    returns (turns: seq<Turn>)
    requires e.phase.Replacing? && e.job.Reconcile?
    ensures Completes(digest, w, e, turns, Replaced(digest, w, e, r0, r1, r2).1)
  {
    var t0, t1, t2 := Turn(r0, None, None, []), Turn(r1, None, None, []), Turn(r2, None, None, []);
    var stopped := Advance(digest, w, e, t0);
    var removed := Advance(digest, stopped.0, stopped.1, t1);
    var created := Advance(digest, removed.0, removed.1, t2);
    if RemoveOutcome(stopped.0, e.name, t1.reply).Done? {
      CompletesOver(digest, created.0, created.1);
      CompletesAfter(digest, removed.0, removed.1, t2, [], created.0);
      CompletesAfter(digest, stopped.0, stopped.1, t1, [t2] + [], created.0);
      CompletesAfter(digest, w, e, t0, [t1] + ([t2] + []), created.0);
      turns := [t0] + ([t1] + ([t2] + []));
    } else {
      CompletesOver(digest, removed.0, removed.1);
      CompletesAfter(digest, stopped.0, stopped.1, t1, [], removed.0);
      CompletesAfter(digest, w, e, t0, [t1] + [], removed.0);
      turns := [t0] + ([t1] + []);
    }
  }

  class Handler {
    const machineId: string
    const daemon: Daemon
    const digest: Desired -> string

    constructor (machineId: string, daemon: Daemon, digest: Desired -> string)
      ensures this.machineId == machineId && this.daemon == daemon && this.digest == digest
    {
      this.machineId, this.daemon, this.digest := machineId, daemon, digest;
    }

    /**
      Finds the container and checks its labels: `None` is an error, otherwise the hash of the
      owned container, if any.
     */
    method InspectOwned(name: string, actor: Actor) returns (owned: Option<Option<string>>)
      modifies daemon`clock
      ensures daemon.clock == old(daemon.clock) + 1
      ensures owned == Seen(daemon.world, name, actor, daemon.replies(old(daemon.clock)))
      ensures owned.Some? && owned.value.None? ==> name !in daemon.world.containers
      ensures owned.Some? && owned.value.Some? ==>
                name in daemon.world.containers && OwnedBy(daemon.world.containers[name].labels, actor)
                && owned.value.value == daemon.world.containers[name].labels.configHash
      ensures owned.None? <==>
                (!daemon.replies(old(daemon.clock)).Fine?
                 || (name in daemon.world.containers && !OwnedBy(daemon.world.containers[name].labels, actor)))
    {
      var labels := daemon.Inspect(name);
      if labels.None? {
        return None;
      }
      if labels.value.None? {
        return Some(None);
      }
      if !OwnedBy(labels.value.value, actor) {
        return None;
      }
      return Some(Some(labels.value.value.configHash));
    }

    /** Clears what a failed creation left behind, after checking that it is ours. */
    method RemoveFailedOwned(name: string, actor: Actor) returns (ok: bool, ghost met: seq<Reply>)
      requires Isolated(daemon.world.trace)
      modifies daemon
      ensures StaysApart(old(daemon.world), daemon.world, name)
      ensures ok ==> name !in daemon.world.containers
      ensures name !in old(daemon.world).containers ==>
                daemon.world == old(daemon.world) && daemon.clock == old(daemon.clock) + 1
      ensures name in old(daemon.world).containers && !OwnedBy(old(daemon.world).containers[name].labels, actor) ==>
                !ok && daemon.world == old(daemon.world)
      ensures daemon.world.verbs == old(daemon.world).verbs || daemon.world.verbs == old(daemon.world).verbs + [Remove]
      ensures ok && name in old(daemon.world).containers ==>
                daemon.world.verbs == old(daemon.world).verbs + [Remove] && daemon.clock == old(daemon.clock) + 2
      ensures IsClearing(old(daemon.world), name, actor, met, daemon.world, ok)
    {
      met := [daemon.replies(daemon.clock)];
      var owned := InspectOwned(name, actor);
      if owned.None? {
        return false, met;
      }
      if owned.value.None? {
        return true, met;
      }
      met := met + [daemon.replies(daemon.clock)];
      var outcome := daemon.RemoveContainer(name, actor);
      return outcome.Done?, met;
    }

    /** A container of ours is there: start it if its hash is the desired one, otherwise replace it. */
    method UpdateExisting(r: Request, name: string, actor: Actor, currentHash: string)
      returns (ok: bool, ghost turns: seq<Turn>)
      requires Isolated(daemon.world.trace) && actor == Actor(machineId, r.instanceId)
      requires name in daemon.world.containers && OwnedBy(daemon.world.containers[name].labels, actor)
      requires currentHash == daemon.world.containers[name].labels.configHash
      modifies daemon
      ensures StaysApart(old(daemon.world), daemon.world, name)
      ensures currentHash == digest(DesiredOf(r)) ==> daemon.world.verbs == old(daemon.world).verbs + [Start]
      ensures currentHash != digest(DesiredOf(r)) ==>
                daemon.world.verbs == old(daemon.world).verbs + [Stop, Remove]
                || daemon.world.verbs == old(daemon.world).verbs + [Stop, Remove, Create]
      ensures ok && currentHash != digest(DesiredOf(r)) ==>
                daemon.world.verbs == old(daemon.world).verbs + [Stop, Remove, Create]
      ensures ok ==>
                && name in daemon.world.containers && daemon.world.containers[name].running
                && daemon.world.containers[name].labels == Labels(true, machineId, r.instanceId, digest(DesiredOf(r)))
      ensures ok && currentHash != digest(DesiredOf(r)) ==> HoldsInstance(r, name)
      ensures (forall n :: daemon.replies(n).Fine?) ==> ok
      ensures var phase := if currentHash == digest(DesiredOf(r)) then Starting else Replacing;
              var e := Execution(actor, name, Reconcile(r), phase);
              Completes(digest, old(daemon.world), e, turns, daemon.world)
    {
      if currentHash == digest(DesiredOf(r)) {
        ghost var e, t := Execution(actor, name, Reconcile(r), Starting), TurnWith(daemon.replies(daemon.clock));
        ghost var before := daemon.world;
        var outcome := daemon.StartContainer(name, actor);
        CompletesOver(digest, daemon.world, End(e));
        CompletesAfter(digest, before, e, t, [], daemon.world);
        return outcome.Done? || outcome.Running?, [t] + [];
      }
      ok, turns := Replace(r, name, actor);
    }

    ghost function TurnWith(reply: Reply): Turn {
      Turn(reply, None, None, [])
    }

    /** Stops, removes and creates anew; that the stop fails does not matter. */
    method Replace(r: Request, name: string, actor: Actor) returns (ok: bool, ghost turns: seq<Turn>)
      requires Isolated(daemon.world.trace) && actor == Actor(machineId, r.instanceId)
      requires name in daemon.world.containers && OwnedBy(daemon.world.containers[name].labels, actor)
      modifies daemon
      ensures StaysApart(old(daemon.world), daemon.world, name)
      ensures daemon.world.verbs == old(daemon.world).verbs + [Stop, Remove, Create]
              || (!ok && daemon.world.verbs == old(daemon.world).verbs + [Stop, Remove])
      ensures ok ==> HoldsInstance(r, name)
      ensures (forall n :: daemon.replies(n).Fine?) ==> ok
      ensures Completes(digest, old(daemon.world), Execution(actor, name, Reconcile(r), Replacing), turns, daemon.world)
    {
      ghost var e, n, w := Execution(actor, name, Reconcile(r), Replacing), daemon.clock, daemon.world;
      var removed;
      removed, ok := RemoveAndCreate(r, name, actor);
      ghost var r0, r1, r2 := daemon.replies(n), daemon.replies(n + 1), daemon.replies(n + 2);
      assert daemon.world == Replaced(digest, w, e, r0, r1, r2).1;
      turns := ReplacingCompletes(digest, w, e, r0, r1, r2);
    }

    method RemoveAndCreate(r: Request, name: string, actor: Actor) returns (removed: bool, ok: bool)
      requires Isolated(daemon.world.trace) && actor == Actor(machineId, r.instanceId)
      requires name in daemon.world.containers && OwnedBy(daemon.world.containers[name].labels, actor)
      modifies daemon
      ensures var e, n := Execution(actor, name, Reconcile(r), Replacing), old(daemon.clock);
              (removed, daemon.world) ==
              Replaced(digest, old(daemon.world), e, daemon.replies(n), daemon.replies(n + 1), daemon.replies(n + 2))
      ensures daemon.world.verbs ==
              old(daemon.world).verbs + (if removed then [Stop, Remove, Create] else [Stop, Remove])
      ensures StaysApart(old(daemon.world), daemon.world, name)
      ensures ok ==> removed && HoldsInstance(r, name)
      ensures (forall n :: daemon.replies(n).Fine?) ==> ok
    {
      ghost var verbs := daemon.world.verbs;
      removed := StopAndRemove(name, actor);
      if !removed {
        return false, false;
      }
      ok := CreateInstead(r, name, actor);
      assert verbs + [Stop, Remove] + [Create] == verbs + [Stop, Remove, Create];
    }

    method CreateInstead(r: Request, name: string, actor: Actor) returns (ok: bool)
      requires Isolated(daemon.world.trace) && actor == Actor(machineId, r.instanceId)
      requires name !in daemon.world.containers
      modifies daemon
      ensures daemon.world ==
                Created(old(daemon.world), name, actor, ContainerFor(digest, machineId, r),
                    daemon.replies(old(daemon.clock)))
      ensures Isolated(daemon.world.trace)
      ensures OthersUntouched(old(daemon.world), daemon.world, name)
      ensures daemon.world.verbs == old(daemon.world).verbs + [Create]
      ensures ok ==> HoldsInstance(r, name)
      ensures daemon.replies(old(daemon.clock)).Fine? ==> ok
    {
      var created := daemon.RunContainer(name, actor, ContainerFor(digest, machineId, r));
      return created.Done?;
    }

    method StopAndRemove(name: string, actor: Actor) returns (removed: bool)
      requires Isolated(daemon.world.trace)
      requires name in daemon.world.containers && OwnedBy(daemon.world.containers[name].labels, actor)
      modifies daemon
      ensures daemon.clock == old(daemon.clock) + 2
      ensures var n := old(daemon.clock);
              var stopped := Stopped(old(daemon.world), name, actor, daemon.replies(n));
              && daemon.world == Removed(stopped, name, actor, daemon.replies(n + 1))
              && (removed <==> RemoveOutcome(stopped, name, daemon.replies(n + 1)).Done?)
      ensures StaysApart(old(daemon.world), daemon.world, name)
      ensures daemon.world.verbs == old(daemon.world).verbs + [Stop, Remove]
      ensures removed ==> name !in daemon.world.containers
      ensures daemon.replies(old(daemon.clock)).Fine? && daemon.replies(old(daemon.clock) + 1).Fine? ==> removed
    {
      var _ := daemon.StopContainer(name, actor);
      var outcome := daemon.RemoveContainer(name, actor);
      return outcome.Done?;
    }

    /**
      No container is there: create one, and when only the port was lost in a race with another
      process, clear what is left of the attempt and try one other port.
     */
    method CreateNew(selected: Request, name: string, actor: Actor, free: Freedom)
      returns (port: Option<Port>, ghost turns: seq<Turn>)
      requires Isolated(daemon.world.trace) && actor == Actor(machineId, selected.instanceId)
      requires name !in daemon.world.containers
      modifies daemon
      ensures StaysApart(old(daemon.world), daemon.world, name)
      ensures daemon.replies(old(daemon.clock)).Fine? ==> port == Some(selected.externalPort)
      ensures !daemon.replies(old(daemon.clock)).BindConflict? ==>
                && daemon.world.verbs == old(daemon.world).verbs + [Create]
                && (port.Some? <==> daemon.replies(old(daemon.clock)).Fine?)
      ensures port.Some? ==> HoldsInstance(selected.(externalPort := port.value), name)
      ensures daemon.replies(old(daemon.clock)).BindConflict? ==>
                && RetryVerbs(old(daemon.world).verbs + [Create], daemon.world.verbs, port.Some?)
                && (port.Some? ==> IsOtherFreePort(selected, free, port.value))
      ensures Completes(digest, old(daemon.world), Execution(actor, name, Reconcile(selected), Creating(First)), turns,
                  daemon.world)
    {
      ghost var e := Execution(actor, name, Reconcile(selected), Creating(First));
      ghost var t := TurnWith(daemon.replies(daemon.clock));
      ghost var before := daemon.world;
      var created := daemon.RunContainer(name, actor, ContainerFor(digest, machineId, selected));
      ghost var after := Advance(digest, before, e, t);
      if created.Done? || !created.bindConflict {
        CompletesOver(digest, after.0, after.1);
        CompletesAfter(digest, before, e, t, [], daemon.world);
        return if created.Done? then Some(selected.externalPort) else None, [t] + [];
      }
      ghost var rest: seq<Turn>;
      port, rest := RetryOtherPort(selected, name, actor, free);
      CompletesAfter(digest, before, e, t, rest, daemon.world);
      turns := [t] + rest;
    }

    /** The commands end in a creation. */
    predicate VerbsCreate(before: seq<Verb>, after: seq<Verb>) {
      |after| > |before| && after[|after| - 1] == Create
    }

    /** The container under the name is running and is exactly the requested one. */
    ghost predicate HoldsInstance(r: Request, name: string)
      reads daemon
    {
      HoldsIn(daemon.world, r, name)
    }

    ghost predicate HoldsIn(w: World, r: Request, name: string) {
      && name in w.containers && w.containers[name].running
      && w.containers[name].labels == Labels(true, machineId, r.instanceId, digest(DesiredOf(r)))
      && w.containers[name].image == r.image && w.containers[name].network == r.network
      && w.containers[name].controlPort == r.controlPort && w.containers[name].externalPort == r.externalPort
    }

    method RetryOtherPort(selected: Request, name: string, actor: Actor, free: Freedom)
      returns (port: Option<Port>, ghost turns: seq<Turn>)
      requires Isolated(daemon.world.trace) && actor == Actor(machineId, selected.instanceId)
      modifies daemon
      ensures StaysApart(old(daemon.world), daemon.world, name)
      ensures RetryVerbs(old(daemon.world).verbs, daemon.world.verbs, port.Some?)
      ensures port.Some? ==>
                && HoldsInstance(selected.(externalPort := port.value), name)
                && IsOtherFreePort(selected, free, port.value)
      ensures Completes(digest, old(daemon.world), Execution(actor, name, Reconcile(selected), Checking(false)), turns,
                  daemon.world)
    {
      ghost var e, w := Execution(actor, name, Reconcile(selected), Checking(false)), daemon.world;
      ghost var met: seq<Reply>;
      var cleaned: bool;
      cleaned, met := RemoveFailedOwned(name, actor);
      ghost var cleared := daemon.world;
      if !cleaned {
        ClearingAdvances(digest, w, e, met, None, cleared, false);
        return None, TurnsOf(met, None);
      }
      var ports := [selected.externalPort] + selected.fallbackPorts;
      var retryPort := SelectExternalPort(ports, free, daemon.clock, Some(selected.externalPort));
      ClearingAdvances(digest, w, e, met, retryPort, cleared, true);
      turns := TurnsOf(met, retryPort);
      if retryPort.None? {
        return None, turns;
      }
      ghost var rest: seq<Turn>;
      cleaned, rest := CreateAgain(selected.(externalPort := retryPort.value), name, actor);
      AloneThenAlone(digest, w, e, turns, rest);
      return if cleaned then retryPort else None, turns + rest;
    }

    /** The second and last creation; what it leaves when it fails is cleared as well. */
    method CreateAgain(retry: Request, name: string, actor: Actor) returns (ok: bool, ghost turns: seq<Turn>)
      requires Isolated(daemon.world.trace) && actor == Actor(machineId, retry.instanceId)
      requires name !in daemon.world.containers
      modifies daemon
      ensures StaysApart(old(daemon.world), daemon.world, name)
      ensures daemon.world.verbs == old(daemon.world).verbs + [Create]
              || (!ok && daemon.world.verbs == old(daemon.world).verbs + [Create, Remove])
      ensures ok ==> HoldsInstance(retry, name)
      ensures Completes(digest, old(daemon.world), Execution(actor, name, Reconcile(retry), Creating(Retry)), turns,
                  daemon.world)
    {
      ghost var e := Execution(actor, name, Reconcile(retry), Creating(Retry));
      ghost var t := TurnWith(daemon.replies(daemon.clock));
      ghost var before := daemon.world;
      var created := daemon.RunContainer(name, actor, ContainerFor(digest, machineId, retry));
      ghost var after := Advance(digest, before, e, t);
      ok := created.Done?;
      if ok {
        CompletesOver(digest, after.0, after.1);
        CompletesAfter(digest, before, e, t, [], daemon.world);
        return ok, [t] + [];
      }
      ghost var met: seq<Reply>;
      var cleaned: bool;
      cleaned, met := RemoveFailedOwned(name, actor);
      ClearingAdvances(digest, after.0, after.1, met, None, daemon.world, cleaned);
      CompletesAfter(digest, before, e, t, TurnsOf(met, None), daemon.world);
      turns := [t] + TurnsOf(met, None);
    }

    // ----- the whole reconcile command

    /** The files are written, the network is this machine's, the image has been pulled once more. */
    ghost predicate Prepared(before: World, after: World, image: string, around: Surroundings) {
      && around.filesWritable && after.pulled == before.pulled + [image]
      && after.network.Some? && after.network.value.managed && after.network.value.machine == machineId
    }

    /** No command fails, the files and the key material are there, and the network is not somebody else's. */
    ghost predicate Works(around: Surroundings)
      reads daemon
    {
      && (forall n :: daemon.replies(n).Fine?) && around.filesWritable && around.material.Some?
      && (daemon.world.network.Some? ==>
            daemon.world.network.value.managed && daemon.world.network.value.machine == machineId)
    }

    /** Files and key material, the managed network and the image: everything before the container itself. */
    method Prepare(r: Request, around: Surroundings) returns (material: Option<Material>)
      modifies daemon
      ensures daemon.world.(network := None, pulled := []) == old(daemon.world).(network := None, pulled := [])
      ensures old(daemon.world).network.Some? ==> daemon.world.network == old(daemon.world).network
      ensures material.Some? ==>
                material == around.material && Prepared(old(daemon.world), daemon.world, r.image, around)
      ensures old(Works(around)) ==> material == around.material
    {
      if !around.filesWritable || around.material.None? {
        return None;
      }
      var ok := daemon.EnsureManagedNetwork(machineId);
      if !ok {
        return None;
      }
      ok := daemon.Pull(r.image);
      if !ok {
        return None;
      }
      return around.material;
    }

    /** The container found under the name before the command, when it is this instance's own. */
    ghost predicate OwnedAt(world: World, name: string, actor: Actor) {
      name in world.containers && OwnedBy(world.containers[name].labels, actor)
    }

    ghost predicate ForeignAt(world: World, name: string, actor: Actor) {
      name in world.containers && !OwnedBy(world.containers[name].labels, actor)
    }

    /** What the command may issue, by what it finds: nothing on a foreign container, one start on a current one. */
    ghost predicate VerbsFit(before: World, after: World, request: Request, name: string, done: bool) {
      var actor := Actor(machineId, request.instanceId);
      if ForeignAt(before, name, actor) then after.verbs == before.verbs
      else if OwnedAt(before, name, actor) then
        if before.containers[name].labels.configHash == digest(DesiredOf(request))
        then after.verbs == before.verbs + [Start] || (!done && after.verbs == before.verbs)
        else after.verbs == before.verbs + [Stop, Remove, Create]
             || (!done && (after.verbs == before.verbs || after.verbs == before.verbs + [Stop, Remove]))
      else RetryVerbs(before.verbs + [Create], after.verbs, done) || after.verbs == before.verbs + [Create]
           || (!done && after.verbs == before.verbs)
    }

    /** The reported port: as requested on an existing container, otherwise a free one of the request's list. */
    ghost predicate PortFits(before: World, request: Request, name: string, free: Freedom, port: Port) {
      if name in before.containers then port == request.externalPort
      else
        var ports := [request.externalPort] + request.fallbackPorts;
        exists first, at :: IsFirstFree(ports, free, at, None, first)
          && (port == first
              || (port in request.fallbackPorts && port != first
                  && exists later :: IsFirstFree([first] + request.fallbackPorts, free, later, Some(first), port)))
    }

    lemma WithoutFallbackTheRequestedPort(before: World, request: Request, name: string, free: Freedom, port: Port)
      requires request.fallbackPorts == [] && PortFits(before, request, name, free, port)
      ensures port == request.externalPort
    {
    }

    /**
      What a reconcile command on a valid request does: it acts on no other container, issues what
      fits, and when it succeeds leaves the one running own container for the port it reports, exactly
      as requested if it was created, after everything was prepared.
     */
    ghost predicate Reconciled(
      before: World, after: World, request: Request, name: string, around: Surroundings, result: Option<Result>)
    {
      && Isolated(after.trace) && OthersUntouched(before, after, name)
      && VerbsFit(before, after, request, name, result.Some?)
      && (result.Some? ==>
            var reported := request.(externalPort := result.value.externalPort);
            && Some(result.value.material) == around.material
            && Prepared(before, after, request.image, around)
            && Converged(after, Actor(machineId, request.instanceId), name, digest(DesiredOf(reported)), result.value)
            && PortFits(before, request, name, around.free, result.value.externalPort)
            && (VerbsCreate(before.verbs, after.verbs) ==> HoldsIn(after, reported, name)))
    }

    method Execute(request: Request, around: Surroundings) returns (result: Option<Result>, ghost turns: seq<Turn>)
      requires Isolated(daemon.world.trace)
      modifies daemon
      ensures !ValidRequest(request) || !IsUuid(machineId) ==> result == None && daemon.world == old(daemon.world)
      ensures ValidRequest(request) ==>
                var name, actor := ContainerName(request.instanceId), Actor(machineId, request.instanceId);
                && Reconciled(old(daemon.world), daemon.world, request, name, around, result)
                && (ForeignAt(old(daemon.world), name, actor) ==>
                      result == None && daemon.world == old(daemon.world))
                && (&& IsUuid(machineId) && old(Works(around)) && !ForeignAt(old(daemon.world), name, actor)
                    && (name in old(daemon.world).containers || forall n :: around.free(n, request.externalPort))
                    ==> result.Some?)
                && (IsUuid(machineId) ==>
                      var e := Execution(actor, name, Reconcile(request), Looking);
                      Completes(digest, old(daemon.world), e, turns, daemon.world))
    {
      var valid := Validate(request);
      if !valid || !IsUuid(machineId) {
        return None, [];
      }
      var name, actor := ContainerName(request.instanceId), Actor(machineId, request.instanceId);
      ghost var e := Execution(actor, name, Reconcile(request), Looking);
      ghost var before, reply := daemon.world, daemon.replies(daemon.clock);
      var owned := InspectOwned(name, actor);
      if owned.None? {
        CompletesOver(digest, before, End(e));
        CompletesAfter(digest, before, e, TurnWith(reply), [], before);
        return None, [TurnWith(reply)] + [];
      }
      ghost var port: Option<Port> := None;
      ghost var rest: seq<Turn>;
      if owned.value.Some? {
        result, rest := ReconcileExisting(request, name, actor, owned.value.value, around);
      } else {
        result, port, rest := ReconcileAbsent(request, name, actor, around);
      }
      turns := [Turn(reply, port, None, [])] + rest;
      CompletesAfter(digest, before, e, Turn(reply, port, None, []), rest, daemon.world);
    }

    method ReconcileExisting(request: Request, name: string, actor: Actor, currentHash: string, around: Surroundings)
      returns (result: Option<Result>, ghost turns: seq<Turn>)
      requires Isolated(daemon.world.trace) && actor == Actor(machineId, request.instanceId)
      requires OwnedAt(daemon.world, name, actor) && currentHash == daemon.world.containers[name].labels.configHash
      modifies daemon
      ensures Reconciled(old(daemon.world), daemon.world, request, name, around, result)
      ensures old(Works(around)) ==> result.Some?
      ensures Completes(digest, old(daemon.world), Execution(actor, name, Reconcile(request),
                  Preparing(Some(currentHash))), turns, daemon.world)
    {
      ghost var e, before := Execution(actor, name, Reconcile(request), Preparing(Some(currentHash))), daemon.world;
      var material := Prepare(request, around);
      ghost var t := PreparingTurn(material.Some?, daemon.world);
      if material.None? {
        CompletesOver(digest, daemon.world, End(e));
        CompletesAfter(digest, before, e, t, [], daemon.world);
        return None, [t] + [];
      }
      var ok: bool;
      ghost var rest: seq<Turn>;
      ok, rest := UpdateExisting(request, name, actor, currentHash);
      CompletesAfter(digest, before, e, t, rest, daemon.world);
      turns := [t] + rest;
      if !ok {
        return None, turns;
      }
      var configHash := digest(DesiredOf(request));
      result := Some(Result(request.instanceId, name, configHash, request.externalPort, material.value));
    }

    ghost function PreparingTurn(ok: bool, after: World): Turn {
      Turn(if ok then Fine else Garbled, None, after.network, after.pulled)
    }

    method ReconcileAbsent(request: Request, name: string, actor: Actor, around: Surroundings)
      returns (result: Option<Result>, ghost chosen: Option<Port>, ghost turns: seq<Turn>)
      requires Isolated(daemon.world.trace) && actor == Actor(machineId, request.instanceId)
      requires name !in daemon.world.containers
      modifies daemon
      ensures Reconciled(old(daemon.world), daemon.world, request, name, around, result)
      ensures old(Works(around)) && (forall n :: around.free(n, request.externalPort)) ==> result.Some?
      ensures var e := AfterLook(Execution(actor, name, Reconcile(request), Looking), None, chosen);
              Completes(digest, old(daemon.world), e, turns, daemon.world)
    {
      var ports := [request.externalPort] + request.fallbackPorts;
      ghost var at, before := daemon.clock, daemon.world;
      var first := SelectExternalPort(ports, around.free, daemon.clock, None);
      ghost var e := AfterLook(Execution(actor, name, Reconcile(request), Looking), None, first);
      chosen := first;
      if first.None? {
        assert !around.free(daemon.clock, ports[0]);
        CompletesOver(digest, before, e);
        return None, chosen, [];
      }
      var selected := request.(externalPort := first.value);
      var material := Prepare(selected, around);
      ghost var t := PreparingTurn(material.Some?, daemon.world);
      if material.None? {
        CompletesOver(digest, daemon.world, End(e));
        CompletesAfter(digest, before, e, t, [], daemon.world);
        return None, chosen, [t] + [];
      }
      var port: Option<Port>;
      ghost var rest: seq<Turn>;
      port, rest := CreateNew(selected, name, actor, around.free);
      CompletesAfter(digest, before, e, t, rest, daemon.world);
      turns := [t] + rest;
      if port.None? {
        return None, chosen, turns;
      }
      assert request.(externalPort := port.value) == selected.(externalPort := port.value);
      assert IsFirstFree(ports, around.free, at, None, first.value);
      assert PortFits(old(daemon.world), request, name, around.free, port.value);
      var configHash := digest(DesiredOf(request.(externalPort := port.value)));
      return Some(Result(request.instanceId, name, configHash, port.value, material.value)), chosen, turns;
    }
  }

  function Creations(verbs: seq<Verb>): nat {
    if verbs == [] then 0 else Creations(verbs[..|verbs| - 1]) + (if verbs[|verbs| - 1] == Create then 1 else 0)
  }

  lemma CreationsAfter(verbs: seq<Verb>, verb: Verb)
    ensures Creations(verbs + [verb]) == Creations(verbs) + (if verb == Create then 1 else 0)
  {
    assert (verbs + [verb])[..|verbs|] == verbs;
  }

  lemma RetryCreatesOnce(before: seq<Verb>, verbs: seq<Verb>, done: bool)
    requires RetryVerbs(before, verbs, done)
    ensures Creations(verbs) <= Creations(before) + 1
  {
    CreationsAfter(before, Create);
    CreationsAfter(before, Remove);
    CreationsAfter(before + [Create], Remove);
    CreationsAfter(before + [Remove], Create);
    CreationsAfter(before + [Remove] + [Create], Remove);
    assert before + [Remove, Create] == before + [Remove] + [Create];
    assert before + [Create, Remove] == before + [Create] + [Remove];
    assert before + [Remove, Create, Remove] == before + [Remove] + [Create] + [Remove];
  }

  /** One reconcile command creates containers at most twice, and at most once unless the first lost its port. */
  lemma AtMostTwoCreations(h: Handler, before: World, after: World, request: Request, name: string, done: bool)
    requires h.VerbsFit(before, after, request, name, done)
    ensures Creations(after.verbs) <= Creations(before.verbs) + 2
    ensures name in before.containers ==> Creations(after.verbs) <= Creations(before.verbs) + 1
  {
    CreationsAfter(before.verbs, Start);
    CreationsAfter(before.verbs, Create);
    CreationsAfter(before.verbs, Stop);
    CreationsAfter(before.verbs + [Stop], Remove);
    CreationsAfter(before.verbs + [Stop] + [Remove], Create);
    assert before.verbs + [Stop, Remove] == before.verbs + [Stop] + [Remove];
    assert before.verbs + [Stop, Remove, Create] == before.verbs + [Stop] + [Remove] + [Create];
    if RetryVerbs(before.verbs + [Create], after.verbs, done) {
      RetryCreatesOnce(before.verbs + [Create], after.verbs, done);
    }
  }

  /**
    Convergence: once a command has reported a port, asking for that port with any fallback list
    issues no stop, removal or creation, and reports the same port and hash if it succeeds.
   */
  method ReconcileAgain(h: Handler, request: Request, reported: Result, fallbackPorts: seq<Port>, around: Surroundings)
    returns (again: Option<Result>)
    requires Isolated(h.daemon.world.trace) && IsUuid(request.instanceId)
    requires Converged(h.daemon.world, Actor(h.machineId, request.instanceId), ContainerName(request.instanceId),
               h.digest(DesiredOf(request.(externalPort := reported.externalPort))), reported)
    modifies h.daemon
    ensures h.daemon.world.verbs == old(h.daemon.world).verbs
              || h.daemon.world.verbs == old(h.daemon.world).verbs + [Start]
    ensures again.Some? ==>
              && again.value.externalPort == reported.externalPort && again.value.configHash == reported.configHash
              && Converged(h.daemon.world, Actor(h.machineId, request.instanceId), ContainerName(request.instanceId),
                   reported.configHash, again.value)
  {
    var repeated := request.(externalPort := reported.externalPort, fallbackPorts := fallbackPorts);
    assert DesiredOf(repeated) == DesiredOf(request.(externalPort := reported.externalPort));
    ghost var turns: seq<Turn>;
    again, turns := h.Execute(repeated, around);
    assert again.Some? ==> repeated.(externalPort := again.value.externalPort) == repeated;
  }
}
