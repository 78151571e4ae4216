/**
  Starting and stopping a managed instance, and isolation over whole runs of the instance handlers.
 */
module InstanceLifecycle {
  import opened Wrappers
  import opened Patterns
  import opened Docker
  import InstanceReconcile
  import Instances

  datatype InstanceState = RUNNING | STOPPED

  class LifecycleHandler {
    const machineId: string
    const daemon: Daemon
    /** Knows how to inspect; it shares the machine identity and the daemon. */
    const inspector: InstanceReconcile.Handler

    ghost predicate Valid() {
      inspector.machineId == machineId && inspector.daemon == daemon
    }

    constructor (inspector: InstanceReconcile.Handler)
      ensures Valid() && this.inspector == inspector && machineId == inspector.machineId && daemon == inspector.daemon
    {
      this.inspector, machineId, daemon := inspector, inspector.machineId, inspector.daemon;
    }

    /** Starts or stops the instance's own container; a missing one is already stopped. */
    method Execute(instanceId: string, start: bool)
      returns (state: Option<InstanceState>, ghost turns: seq<Instances.Turn>)
      requires Valid() && Isolated(daemon.world.trace)
      modifies daemon
      ensures Isolated(daemon.world.trace)
      ensures !IsUuid(instanceId) || !IsUuid(machineId) ==> state == None && daemon.world == old(daemon.world)
      ensures IsUuid(instanceId) && IsUuid(machineId) ==>
                var name, actor := Instances.ContainerName(instanceId), Actor(machineId, instanceId);
                var before, reply := old(daemon.world), daemon.replies(old(daemon.clock) + 1);
                if !daemon.replies(old(daemon.clock)).Fine?
                  || (name in before.containers && !OwnedBy(before.containers[name].labels, actor))
                then state == None && daemon.world == before
                else if name !in before.containers then
                  state == (if start then None else Some(STOPPED)) && daemon.world == before
                else if start then
                  daemon.world == Started(before, name, actor, reply)
                  && state == (if StartOutcome(before, name, reply).Done? then Some(RUNNING) else None)
                else
                  daemon.world == Stopped(before, name, actor, reply)
                  && state ==
                    (if reply.Fine? || (reply.NotRunning? && !before.containers[name].running) then Some(STOPPED)
                      else None)
      ensures IsUuid(instanceId) && IsUuid(machineId) ==>
                Instances.Completes(inspector.digest, old(daemon.world), Begun(instanceId, start), turns, daemon.world)
    {
      if !IsUuid(instanceId) || !IsUuid(machineId) {
        return None, [];
      }
      var name, actor := Instances.ContainerName(instanceId), Actor(machineId, instanceId);
      ghost var e, before, n := Begun(instanceId, start), daemon.world, daemon.clock;
      ghost var t, u := TurnWith(daemon.replies(n)), TurnWith(daemon.replies(n + 1));
      LifecycleCompletes(inspector.digest, before, e, t, u);
      var owned := inspector.InspectOwned(name, actor);
      if owned.None? {
        return None, [t];
      }
      if owned.value.None? {
        return if start then None else Some(STOPPED), [t];
      }
      if start {
        var outcome := daemon.StartContainer(name, actor);
        return if outcome.Done? then Some(RUNNING) else None, [t, u];
      }
      var outcome := daemon.StopContainer(name, actor);
      return if outcome.Done? || outcome.Idle? || outcome.Missing? then Some(STOPPED) else None, [t, u];
    }

    ghost function Begun(instanceId: string, start: bool): Instances.Execution
      requires IsUuid(instanceId)
    {
      Instances.Execution(
        Actor(machineId, instanceId), Instances.ContainerName(instanceId),
        if start then Instances.StartIt else Instances.StopIt, Instances.Looking)
    }
  }

  ghost function TurnWith(reply: Reply): Instances.Turn {
    Instances.Turn(reply, None, None, [])
  }

  lemma LifecycleCompletes(
    digest: Instances.Desired -> string, w: World, e: Instances.Execution, t: Instances.Turn, u: Instances.Turn)
    requires e.phase.Looking? && !e.job.Reconcile?
    ensures var seen := Instances.Seen(w, e.name, e.actor, t.reply);
            if seen.Some? && seen.value.Some? then
              Instances.Completes(digest, w, e, [t, u],
                if e.job.StartIt? then Started(w, e.name, e.actor, u.reply) else Stopped(w, e.name, e.actor, u.reply))
            else Instances.Completes(digest, w, e, [t], w)
  {
    var looked := Instances.Advance(digest, w, e, t);
    var acted := Instances.Advance(digest, looked.0, looked.1, u);
    if looked.1.phase.Over? {
      Instances.CompletesOver(digest, looked.0, looked.1);
      Instances.CompletesAfter(digest, w, e, t, [], w);
      assert [t] + [] == [t];
    } else {
      Instances.CompletesOver(digest, acted.0, acted.1);
      Instances.CompletesAfter(digest, looked.0, looked.1, u, [], acted.0);
      Instances.CompletesAfter(digest, w, e, t, [u] + [], acted.0);
      assert [t] + ([u] + []) == [t, u];
    }
  }

  // ----- whole runs

  datatype InstanceCommand =
    | Reconcile(request: Instances.Request, around: InstanceReconcile.Surroundings)
    | StartInstance(instanceId: string)
    | StopInstance(instanceId: string)

  /**
    Isolation: any sequence of instance commands, for any instances, with the host's containers
    changed at will between two commands, never starts, stops or removes a container whose labels
    are not exactly this machine and this instance. Container names may collide.
   */
  method Serve(handler: LifecycleHandler, commands: seq<InstanceCommand>, worlds: seq<map<string, Container>>)
    requires handler.Valid() && |worlds| == |commands|
    requires Isolated(handler.daemon.world.trace)
    modifies handler.daemon
    ensures Isolated(handler.daemon.world.trace)
  {
    for i := 0 to |commands|
      invariant Isolated(handler.daemon.world.trace)
    {
      handler.daemon.world := handler.daemon.world.(containers := worlds[i]);
      match commands[i]
      case Reconcile(request, around) => var _, _ := handler.inspector.Execute(request, around);
      case StartInstance(instanceId) => var _, _ := handler.Execute(instanceId, true);
      case StopInstance(instanceId) => var _, _ := handler.Execute(instanceId, false);
    }
  }
}
