/**
  The Docker daemon as the agent drives it: containers under names, with labels.
  Each command meets one reply of the environment; the trace keeps every command that starts,
  stops, removes or creates a container, with the container it hit.
 */
module Docker {
  import opened Wrappers
  import opened Patterns

  /** The ownership labels; `managed` is true when that label is "true". */
  datatype Labels = Labels(managed: bool, machine: string, instance: string, configHash: string)

  /** The control port is published on the loopback address, the external port on all. */
  datatype Container = Container(
    labels: Labels, running: bool, image: string, controlPort: Port, externalPort: Port, network: Network)

  datatype Actor = Actor(machine: string, instance: string)

  datatype Verb = Start | Stop | Remove | Create

  datatype Action = Action(verb: Verb, name: string, actor: Actor, target: Option<Container>)

  /**
    What a command meets. All but `Fine` are errors; a refused creation may leave a container that
    was created and not started. `Garbled` is output that cannot be decoded.
   */
  datatype Reply = Fine | AlreadyRunning | NotRunning | BindConflict(created: bool) | Refused(created: bool) | Garbled

  /** `verbs` repeats the verbs of the trace in order; `pulled` are the images fetched so far. */
  datatype World = World(
    containers: map<string, Container>, network: Option<Labels>, trace: seq<Action>, verbs: seq<Verb>,
    pulled: seq<string>)

  predicate OwnedBy(labels: Labels, actor: Actor) {
    labels.managed && labels.machine == actor.machine && labels.instance == actor.instance
  }

  /** An own container is exactly one with the three ownership labels; the configuration hash is free. */
  lemma OwnedByMeans(labels: Labels, actor: Actor)
    ensures OwnedBy(labels, actor) <==> exists hash :: labels == Labels(true, actor.machine, actor.instance, hash)
  {
    if OwnedBy(labels, actor) {
      assert labels == Labels(true, actor.machine, actor.instance, labels.configHash);
    }
  }

  /** Nobody starts, stops or removes a container that is not exactly its own. */
  ghost predicate Isolated(trace: seq<Action>) {
    forall i :: 0 <= i < |trace| && trace[i].verb != Create && trace[i].target.Some? ==>
      OwnedBy(trace[i].target.value.labels, trace[i].actor)
  }

  function Logged(w: World, verb: Verb, name: string, actor: Actor): World {
    w.(trace := w.trace + [Action(verb, name, actor, if name in w.containers then Some(w.containers[name]) else None)],
       verbs := w.verbs + [verb])
  }

  function SetRunning(w: World, name: string, running: bool): World
    requires name in w.containers
  {
    w.(containers := w.containers[name := w.containers[name].(running := running)])
  }

  /** `Running` and `Idle` are errors that say the container is in the wanted state already. */
  datatype CommandOutcome = Done | Running | Idle | Missing | Failed(bindConflict: bool)

  function StartOutcome(w: World, name: string, reply: Reply): CommandOutcome {
    if name !in w.containers then Missing
    else if reply.Fine? then Done
    else if reply.AlreadyRunning? && w.containers[name].running then Running
    else Failed(false)
  }

  function Started(w: World, name: string, actor: Actor, reply: Reply): World {
    var logged := Logged(w, Start, name, actor);
    if StartOutcome(w, name, reply).Done? then SetRunning(logged, name, true) else logged
  }

  function StopOutcome(w: World, name: string, reply: Reply): CommandOutcome {
    if name !in w.containers then Missing
    else if reply.Fine? then Done
    else if reply.NotRunning? && !w.containers[name].running then Idle
    else Failed(false)
  }

  function Stopped(w: World, name: string, actor: Actor, reply: Reply): World {
    var logged := Logged(w, Stop, name, actor);
    if StopOutcome(w, name, reply).Done? then SetRunning(logged, name, false) else logged
  }

  /** Docker refuses to remove a running container. */
  function RemoveOutcome(w: World, name: string, reply: Reply): CommandOutcome {
    if name !in w.containers then Missing
    else if reply.Fine? && !w.containers[name].running then Done
    else Failed(false)
  }

  function Removed(w: World, name: string, actor: Actor, reply: Reply): World {
    var logged := Logged(w, Remove, name, actor);
    if RemoveOutcome(w, name, reply).Done? then logged.(containers := logged.containers - {name}) else logged
  }

  /** A name in use refuses the creation whatever else happens. */
  function CreateOutcome(w: World, name: string, reply: Reply): CommandOutcome {
    if name in w.containers then Failed(false)
    else match reply
      case Fine => Done
      case BindConflict(_) => Failed(true)
      case _ => Failed(false)
  }

  function Created(w: World, name: string, actor: Actor, container: Container, reply: Reply): World {
    var logged := Logged(w, Create, name, actor);
    if CreateOutcome(w, name, reply).Done? then
      logged.(containers := logged.containers[name := container.(running := true)])
    else if name !in w.containers && (reply.BindConflict? || reply.Refused?) && reply.created
    then logged.(containers := logged.containers[name := container.(running := false)])
    else logged
  }

  /** The container under the name after a command, and the others: `None` is no container. */
  ghost predicate Leaves(before: World, after: World, name: string, container: Option<Container>) {
    && (container.Some? <==> name in after.containers)
    && (container.Some? ==> after.containers[name] == container.value)
    && (forall other :: other != name ==>
          (other in before.containers <==> other in after.containers)
          && (other in before.containers ==> after.containers[other] == before.containers[other]))
    && after.network == before.network && after.pulled == before.pulled
  }

  /** What the commands do when they meet no error: a started container runs, and nothing else of it changes. */
  lemma CommandsWork(w: World, name: string, actor: Actor, container: Container)
    ensures name in w.containers ==>
              && Leaves(w, Started(w, name, actor, Fine), name, Some(w.containers[name].(running := true)))
              && Leaves(w, Stopped(w, name, actor, Fine), name, Some(w.containers[name].(running := false)))
              && (!w.containers[name].running ==> Leaves(w, Removed(w, name, actor, Fine), name, None))
    ensures name !in w.containers ==>
              Leaves(w, Created(w, name, actor, container, Fine), name, Some(container.(running := true)))
  {
  }

  /** What each command answers: whether it worked, and which errors say that the wish is fulfilled already. */
  lemma OutcomesTell(w: World, name: string, reply: Reply)
    ensures var here := name in w.containers;
            var start, stop := StartOutcome(w, name, reply), StopOutcome(w, name, reply);
            var remove, create := RemoveOutcome(w, name, reply), CreateOutcome(w, name, reply);
            && (start == Missing <==> !here) && (start == Done <==> here && reply == Fine)
            && (start == Running <==> here && reply == AlreadyRunning && w.containers[name].running) && start != Idle
            && (stop == Missing <==> !here) && (stop == Done <==> here && reply == Fine)
            && (stop == Idle <==> here && reply == NotRunning && !w.containers[name].running) && stop != Running
            && (remove == Missing <==> !here)
            && (remove == Done <==> here && reply == Fine && !w.containers[name].running)
            && (create == Done <==> !here && reply == Fine) && create in {Done, Failed(true), Failed(false)}
            && (create == Failed(true) <==> !here && reply.BindConflict?)
  {
  }

  /** A command that meets an error changes no container, but a creation can leave one that does not run. */
  lemma ErrorsChangeNothing(w: World, name: string, actor: Actor, container: Container, reply: Reply)
    requires !reply.Fine?
    ensures Started(w, name, actor, reply).containers == w.containers
    ensures Stopped(w, name, actor, reply).containers == w.containers
    ensures Removed(w, name, actor, reply).containers == w.containers
    ensures var after := Created(w, name, actor, container, reply);
            if name !in w.containers && (reply == BindConflict(true) || reply == Refused(true))
            then Leaves(w, after, name, Some(container.(running := false))) else after.containers == w.containers
  {
  }

  /** What cannot be: there is nothing to start, stop or remove, a name is taken, a running container is removed. */
  lemma CommandsRefused(w: World, name: string, actor: Actor, container: Container, reply: Reply)
    ensures name !in w.containers ==>
              && Started(w, name, actor, reply).containers == w.containers
              && Stopped(w, name, actor, reply).containers == w.containers
              && Removed(w, name, actor, reply).containers == w.containers
    ensures name in w.containers ==> Created(w, name, actor, container, reply).containers == w.containers
    ensures name in w.containers && w.containers[name].running ==>
              Removed(w, name, actor, reply).containers == w.containers
  {
  }

  /** Every command is logged with who issued it and what it hit, whatever it meets. */
  lemma CommandsAreLogged(w: World, name: string, actor: Actor, container: Container, reply: Reply)
    ensures var hit := if name in w.containers then Some(w.containers[name]) else None;
            && Started(w, name, actor, reply).trace == w.trace + [Action(Start, name, actor, hit)]
            && Stopped(w, name, actor, reply).trace == w.trace + [Action(Stop, name, actor, hit)]
            && Removed(w, name, actor, reply).trace == w.trace + [Action(Remove, name, actor, hit)]
            && Created(w, name, actor, container, reply).trace == w.trace + [Action(Create, name, actor, hit)]
    ensures Started(w, name, actor, reply).verbs == w.verbs + [Start]
    ensures Stopped(w, name, actor, reply).verbs == w.verbs + [Stop]
    ensures Removed(w, name, actor, reply).verbs == w.verbs + [Remove]
    ensures Created(w, name, actor, container, reply).verbs == w.verbs + [Create]
  {
  }

  class Daemon {
    var world: World
    /** How many commands were issued; the environment's reply to each depends on it alone. */
    var clock: nat
    const replies: nat -> Reply

    constructor (replies: nat -> Reply)
      ensures this.replies == replies && world == World(map[], None, [], [], []) && clock == 0
    {
      this.replies, world, clock := replies, World(map[], None, [], [], []), 0;
    }

    /** `None` is an error; otherwise the labels of the container, if there is one. */
    method Inspect(name: string) returns (labels: Option<Option<Labels>>)
      modifies this`clock
      ensures clock == old(clock) + 1
      ensures labels == if name !in world.containers then (if replies(old(clock)).Fine? then Some(None) else None)
                        else if replies(old(clock)).Fine? then Some(Some(world.containers[name].labels)) else None
    {
      var reply := replies(clock);
      clock := clock + 1;
      if !reply.Fine? {
        return None;
      }
      return Some(if name in world.containers then Some(world.containers[name].labels) else None);
    }

    method StartContainer(name: string, actor: Actor) returns (outcome: CommandOutcome)
      modifies this
      ensures clock == old(clock) + 1
      ensures world == Started(old(world), name, actor, replies(old(clock)))
      ensures outcome == StartOutcome(old(world), name, replies(old(clock)))
    {
      outcome := StartOutcome(world, name, replies(clock));
      world, clock := Started(world, name, actor, replies(clock)), clock + 1;
    }

    method StopContainer(name: string, actor: Actor) returns (outcome: CommandOutcome)
      modifies this
      ensures clock == old(clock) + 1
      ensures world == Stopped(old(world), name, actor, replies(old(clock)))
      ensures outcome == StopOutcome(old(world), name, replies(old(clock)))
    {
      outcome := StopOutcome(world, name, replies(clock));
      world, clock := Stopped(world, name, actor, replies(clock)), clock + 1;
    }

    method RemoveContainer(name: string, actor: Actor) returns (outcome: CommandOutcome)
      modifies this
      ensures clock == old(clock) + 1
      ensures world == Removed(old(world), name, actor, replies(old(clock)))
      ensures outcome == RemoveOutcome(old(world), name, replies(old(clock)))
    {
      outcome := RemoveOutcome(world, name, replies(clock));
      world, clock := Removed(world, name, actor, replies(clock)), clock + 1;
    }

    method RunContainer(name: string, actor: Actor, container: Container) returns (outcome: CommandOutcome)
      modifies this
      ensures clock == old(clock) + 1
      ensures world == Created(old(world), name, actor, container, replies(old(clock)))
      ensures outcome == CreateOutcome(old(world), name, replies(old(clock)))
    {
      outcome := CreateOutcome(world, name, replies(clock));
      world, clock := Created(world, name, actor, container, replies(clock)), clock + 1;
    }

    method Pull(image: string) returns (ok: bool)
      modifies this
      ensures clock == old(clock) + 1 && ok == replies(old(clock)).Fine?
      ensures world == if ok then old(world).(pulled := old(world).pulled + [image]) else old(world)
    {
      ok := replies(clock).Fine?;
      clock := clock + 1;
      if ok {
        world := world.(pulled := world.pulled + [image]);
      }
    }

    /** Creates the managed network when it is absent; a network with other labels is left alone. */
    method EnsureManagedNetwork(machine: string) returns (ok: bool)
      modifies this
      ensures world.(network := None) == old(world).(network := None)
      ensures old(world).network.Some? ==> world == old(world)
      ensures ok ==> world.network.Some? && world.network.value.managed && world.network.value.machine == machine
      ensures replies(old(clock)).Fine? && replies(old(clock) + 1).Fine? ==>
                (ok <==>
                    old(world).network.None?
                      || (old(world).network.value.managed && old(world).network.value.machine == machine))
      ensures clock == old(clock) + (if replies(old(clock)).Fine? && old(world).network.None? then 2 else 1)
    {
      var reply := replies(clock);
      clock := clock + 1;
      if !reply.Fine? {
        return false;
      }
      if world.network.None? {
        reply := replies(clock);
        clock := clock + 1;
        if !reply.Fine? {
          return false;
        }
        world := world.(network := Some(Labels(true, machine, "", "")));
        return true;
      }
      return world.network.value.managed && world.network.value.machine == machine;
    }
  }
}
