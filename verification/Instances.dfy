/**
  Managed protocol instances: what is asked for one, the name of its container, and the commands
  one execution of a handler issues, each decided by what the commands before it met.
  A name keeps sixteen digits of the instance UUID, so two instances can share a name; the labels
  decide who owns what is found there.
 */
module Instances {
  import opened Wrappers
  import opened Patterns
  import opened Docker

  datatype Request = Request(
    instanceId: string,
    protocol: Protocol,
    image: string,
    controlPort: Port,
    externalPort: Port,
    fallbackPorts: seq<Port>,
    network: Network,
    secretKey: string)

  /** What the configuration hash is computed from; fallback ports are not part of it. */
  datatype Desired = Desired(
    instanceId: string, protocol: Protocol, image: string, controlPort: Port, externalPort: Port, network: Network,
    secretKey: string)

  function DesiredOf(r: Request): Desired {
    Desired(r.instanceId, r.protocol, r.image, r.controlPort, r.externalPort, r.network, r.secretKey)
  }

  /** The desired states of two requests are the same exactly when the requests differ in fallback ports only. */
  lemma SameDesired(a: Request, b: Request)
    ensures DesiredOf(a) == DesiredOf(b) <==> a.(fallbackPorts := b.fallbackPorts) == b
  {
  }

  // ----- names

  function ContainerName(instanceId: string): string
    requires IsUuid(instanceId)
  {
    "myremnawave-" + instanceId[..8] + instanceId[9..13] + instanceId[14..18]
  }

  function WithoutDashes(s: string): string {
    if s == "" then "" else (if s[0] == '-' then "" else [s[0]]) + WithoutDashes(s[1..])
  }

  lemma {:induction false} WithoutDashesSplits(a: string, b: string)
    ensures WithoutDashes(a + b) == WithoutDashes(a) + WithoutDashes(b)
  {
    if a == "" {
      assert a + b == b;
    } else {
      WithoutDashesSplits(a[1..], b);
      assert (a + b)[0] == a[0] && (a + b)[1..] == a[1..] + b;
      Associates(if a[0] == '-' then "" else [a[0]], WithoutDashes(a[1..]), WithoutDashes(b));
    }
  }

  lemma {:induction false} NothingToDrop(s: string)
    requires '-' !in s
    ensures WithoutDashes(s) == s
  {
    if s != "" {
      NothingToDrop(s[1..]);
    }
  }

  /** The name is a prefix and the first sixteen digits of the UUID. */
  lemma ContainerNameIs(instanceId: string)
    requires IsUuid(instanceId)
    ensures |WithoutDashes(instanceId)| >= 16
    ensures ContainerName(instanceId) == "myremnawave-" + WithoutDashes(instanceId)[..16]
  {
    var a, b, c, rest := instanceId[..8], instanceId[9..13], instanceId[14..18], instanceId[18..];
    assert instanceId == a + "-" + b + "-" + c + rest;
    WithoutDashesSplits(a + "-" + b + "-" + c, rest);
    WithoutDashesSplits(a + "-" + b + "-", c);
    WithoutDashesSplits(a + "-" + b, "-");
    WithoutDashesSplits(a + "-", b);
    WithoutDashesSplits(a, "-");
    NothingToDrop(a);
    NothingToDrop(b);
    NothingToDrop(c);
    assert WithoutDashes("-") == "";
  }

  /** Instances whose UUIDs differ only in the last two groups are filed under one container name. */
  lemma NamesCollide(a: string, b: string)
    requires IsUuid(a) && IsUuid(b) && a[..18] == b[..18]
    ensures ContainerName(a) == ContainerName(b)
  {
    assert a[..8] == a[..18][..8] && b[..8] == b[..18][..8];
    assert a[9..13] == a[..18][9..13] && b[9..13] == b[..18][9..13];
    assert a[14..18] == a[..18][14..18] && b[14..18] == b[..18][14..18];
  }

  lemma EveryInstanceHasANamesake(a: string)
    requires IsUuid(a)
    ensures exists b :: IsUuid(b) && b != a && ContainerName(b) == ContainerName(a)
  {
    var b := a[35 := if a[35] == '0' then '1' else '0'];
    assert IsUuid(b) && b[35] != a[35];
    assert b[..18] == a[..18];
    NamesCollide(a, b);
  }

  function ContainerFor(digest: Desired -> string, machineId: string, r: Request): Container {
    Container(Labels(true, machineId, r.instanceId, digest(DesiredOf(r))), false,
      r.image, r.controlPort, r.externalPort, r.network)
  }

  // ----- one execution, command by command

  datatype Job = Reconcile(request: Request) | StartIt | StopIt

  /** Instead of an outdated container, where there is none, or on another port after a lost one. */
  datatype Attempt = Replacement | First | Retry

  /** What the execution issues next. `found` is the hash of the own container, if there is one. */
  datatype Phase =
    | Looking
    | Preparing(found: Option<string>)
    | Starting
    | Stopping
    | Replacing
    | Removing
    | Creating(attempt: Attempt)
    | Checking(last: bool)
    | Clearing(last: bool)
    | Over

  datatype Execution = Execution(actor: Actor, name: string, job: Job, phase: Phase)

  /** What one command meets; the port is the one chosen where one is chosen. */
  datatype Turn = Turn(reply: Reply, port: Option<Port>, network: Option<Labels>, pulled: seq<string>)

  function End(e: Execution): Execution {
    e.(phase := Over)
  }

  /** `None` is an error, a foreign container among them; otherwise the hash of the own container, if any. */
  function Seen(w: World, name: string, actor: Actor, reply: Reply): Option<Option<string>> {
    if !reply.Fine? then None
    else if name !in w.containers then Some(None)
    else if OwnedBy(w.containers[name].labels, actor) then Some(Some(w.containers[name].labels.configHash))
    else None
  }

  function AfterLook(e: Execution, found: Option<string>, port: Option<Port>): Execution {
    match e.job
    case StartIt => e.(phase := if found.Some? then Starting else Over)
    case StopIt => e.(phase := if found.Some? then Stopping else Over)
    case Reconcile(r) =>
      if found.Some? then e.(phase := Preparing(found))
      else if port.Some? && port.value in [r.externalPort] + r.fallbackPorts then
        e.(job := Reconcile(r.(externalPort := port.value)), phase := Preparing(None))
      else End(e)
  }

  function AfterPreparing(digest: Desired -> string, e: Execution, found: Option<string>, ok: bool): Execution {
    if !ok || !e.job.Reconcile? then End(e)
    else if found.None? then e.(phase := Creating(First))
    else if found.value == digest(DesiredOf(e.job.request)) then e.(phase := Starting)
    else e.(phase := Replacing)
  }

  function AfterCreating(e: Execution, attempt: Attempt, outcome: CommandOutcome): Execution {
    match attempt
    case Replacement => End(e)
    case First => if outcome == Failed(true) then e.(phase := Checking(false)) else End(e)
    case Retry => if outcome.Done? then End(e) else e.(phase := Checking(true))
  }

  /** What failed is cleared: once another port is tried, the second time nothing. */
  function AfterClearing(e: Execution, last: bool, port: Option<Port>): Execution {
    if last || !e.job.Reconcile? || port.None? then End(e)
    else
      var r := e.job.request;
      if port.value in r.fallbackPorts && port.value != r.externalPort
      then e.(job := Reconcile(r.(externalPort := port.value)), phase := Creating(Retry))
      else End(e)
  }

  /** One command of an execution: its effect on the host, and what the execution issues then. */
  function Advance(digest: Desired -> string, w: World, e: Execution, t: Turn): (World, Execution) {
    match e.phase
    case Looking =>
      var seen := Seen(w, e.name, e.actor, t.reply);
      (w, if seen.None? then End(e) else AfterLook(e, seen.value, t.port))
    case Preparing(found) =>
      (w.(network := t.network, pulled := t.pulled), AfterPreparing(digest, e, found, t.reply.Fine?))
    case Starting => (Started(w, e.name, e.actor, t.reply), End(e))
    case Stopping => (Stopped(w, e.name, e.actor, t.reply), End(e))
    case Replacing => (Stopped(w, e.name, e.actor, t.reply), e.(phase := Removing))
    case Removing =>
      (Removed(w, e.name, e.actor, t.reply),
       if RemoveOutcome(w, e.name, t.reply).Done? then e.(phase := Creating(Replacement)) else End(e))
    case Creating(attempt) =>
      if !e.job.Reconcile? then (w, End(e))
      else
        (Created(w, e.name, e.actor, ContainerFor(digest, e.actor.machine, e.job.request), t.reply),
         AfterCreating(e, attempt, CreateOutcome(w, e.name, t.reply)))
    case Checking(last) =>
      var seen := Seen(w, e.name, e.actor, t.reply);
      (w, if seen.None? then End(e)
          else if seen.value.Some? then e.(phase := Clearing(last))
          else AfterClearing(e, last, t.port))
    case Clearing(last) =>
      (Removed(w, e.name, e.actor, t.reply),
       if RemoveOutcome(w, e.name, t.reply).Done? then AfterClearing(e, last, t.port) else End(e))
    case Over => (w, e)
  }

  /** The commands of one execution with nothing in between. */
  function Alone(digest: Desired -> string, w: World, e: Execution, turns: seq<Turn>): (World, Execution) {
    if turns == [] then (w, e)
    else
      var before := Alone(digest, w, e, turns[..|turns| - 1]);
      Advance(digest, before.0, before.1, turns[|turns| - 1])
  }

  lemma {:induction false} AloneThenAlone(digest: Desired -> string, w: World, e: Execution, a: seq<Turn>, b: seq<Turn>)
    ensures var middle := Alone(digest, w, e, a);
            Alone(digest, w, e, a + b) == Alone(digest, middle.0, middle.1, b)
  {
    if b == [] {
      assert a + b == a;
    } else {
      AloneThenAlone(digest, w, e, a, b[..|b| - 1]);
      assert (a + b)[..|a + b| - 1] == a + b[..|b| - 1];
    }
  }

  /** From `e` on, the commands lead to the host `after` and to the end of the execution. */
  ghost predicate Completes(digest: Desired -> string, w: World, e: Execution, turns: seq<Turn>, after: World) {
    var end := Alone(digest, w, e, turns);
    end.0 == after && end.1.phase.Over?
  }

  lemma CompletesOver(digest: Desired -> string, w: World, e: Execution)
    requires e.phase.Over?
    ensures Completes(digest, w, e, [], w)
  {
  }

  /** One command, and then the others. */
  lemma CompletesAfter(digest: Desired -> string, w: World, e: Execution, t: Turn, turns: seq<Turn>, after: World)
    requires Completes(digest, Advance(digest, w, e, t).0, Advance(digest, w, e, t).1, turns, after)
    ensures Completes(digest, w, e, [t] + turns, after)
  {
    AloneThenAlone(digest, w, e, [t], turns);
    assert [t][..0] == [];
    assert Alone(digest, w, e, []) == (w, e);
  }
}
