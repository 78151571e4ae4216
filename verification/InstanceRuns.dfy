/**
  Every run of the instance handlers over one Docker daemon.

  Commands of overlapping sessions run at the same time, so any number of executions, for any
  instances, interleave between two Docker commands. An execution can end early at any moment, a
  crash ends all of them, and somebody else can put any container under any name, or take it away.
 */
module InstanceRuns {
  import opened Wrappers
  import opened Patterns
  import opened Docker
  import opened Instances

  datatype State = State(world: World, executions: seq<Execution>)

  datatype Step =
    | Begin(actor: Actor, job: Job)
    | Go(execution: nat, turn: Turn)
    | Quit(execution: nat)
    | Crash
    | Outside(name: string, container: Option<Container>)

  const INITIAL := State(World(map[], None, [], [], []), [])

  function Put(s: State, i: nat, w: World, e: Execution): State
    requires i < |s.executions|
  {
    State(w, s.executions[i := e])
  }

  function Ended(executions: seq<Execution>): seq<Execution> {
    seq(|executions|, i requires 0 <= i < |executions| => End(executions[i]))
  }

  /** One step; a step that does not apply changes nothing. */
  function Next(digest: Desired -> string, s: State, step: Step): State {
    match step
    case Begin(actor, job) =>
      if !IsUuid(actor.machine) || !IsUuid(actor.instance)
        || (job.Reconcile? && job.request.instanceId != actor.instance) then s
      else s.(executions := s.executions + [Execution(actor, ContainerName(actor.instance), job, Looking)])
    case Go(i, turn) =>
      if i >= |s.executions| then s
      else
        var (w, e) := Advance(digest, s.world, s.executions[i], turn);
        Put(s, i, w, e)
    case Quit(i) => if i >= |s.executions| then s else Put(s, i, s.world, End(s.executions[i]))
    case Crash => s.(executions := Ended(s.executions))
    case Outside(name, container) =>
      s.(world := s.world.(containers :=
        if container.Some? then s.world.containers[name := container.value] else s.world.containers - {name}))
  }

  function Run(digest: Desired -> string, steps: seq<Step>): State {
    if steps == [] then INITIAL else Next(digest, Run(digest, steps[..|steps| - 1]), steps[|steps| - 1])
  }

  // ----- who looked and who interfered, read off the schedule

  /** The step is a successful inspection by the execution. */
  ghost predicate Looks(s: State, step: Step, i: nat) {
    && step.Go? && step.execution == i && i < |s.executions|
    && var e := s.executions[i];
    (e.phase.Looking? || e.phase.Checking?) && Seen(s.world, e.name, e.actor, step.turn.reply).Some?
  }

  /** The execution `j` creates a container in this step: it starts, or is left behind unstarted. */
  ghost predicate Creates(s: State, step: Step, j: nat) {
    && step.Go? && step.execution == j && j < |s.executions|
    && var e := s.executions[j];
    && e.phase.Creating? && e.job.Reconcile? && e.name !in s.world.containers
    && (step.turn.reply.Fine?
        || ((step.turn.reply.BindConflict? || step.turn.reply.Refused?) && step.turn.reply.created))
  }

  /** In this step somebody other than the execution puts a container under its name. */
  ghost predicate PutsUnder(s: State, step: Step, i: nat)
    requires i < |s.executions|
  {
    || (step.Outside? && step.name == s.executions[i].name && step.container.Some?)
    || (step.Go? && step.execution != i && Creates(s, step, step.execution)
        && s.executions[step.execution].name == s.executions[i].name)
  }

  /** Whose container that is. */
  ghost function Placed(digest: Desired -> string, s: State, step: Step, i: nat): Labels
    requires i < |s.executions| && PutsUnder(s, step, i)
  {
    if step.Outside? then step.container.value.labels
    else
      var e := s.executions[step.execution];
      ContainerFor(digest, e.actor.machine, e.job.request).labels
  }

  /** In this step somebody takes the container under the name away. */
  ghost predicate TakesAway(s: State, step: Step, i: nat)
    requires i < |s.executions|
  {
    || step == Outside(s.executions[i].name, None)
    || (step.Go? && step.execution < |s.executions|
        && var e := s.executions[step.execution];
        e.name == s.executions[i].name && (e.phase.Removing? || e.phase.Clearing?)
        && RemoveOutcome(s.world, e.name, step.turn.reply).Done?)
  }

  /**
    Since the execution last looked successfully, somebody else has put a container under its name
    that is not this machine's and this instance's, and nobody has taken it away or replaced it.
   */
  ghost predicate Overtaken(digest: Desired -> string, steps: seq<Step>, i: nat) {
    steps != []
    && var before, last := steps[..|steps| - 1], steps[|steps| - 1];
    var s := Run(digest, before);
    && i < |s.executions|
    && !Looks(s, last, i)
    && if PutsUnder(s, last, i) then !OwnedBy(Placed(digest, s, last, i), s.executions[i].actor)
       else !TakesAway(s, last, i) && Overtaken(digest, before, i)
  }

  /** Since the execution last looked successfully, somebody else has put some container under its name. */
  ghost predicate Disturbed(digest: Desired -> string, steps: seq<Step>, i: nat) {
    steps != []
    && var before, last := steps[..|steps| - 1], steps[|steps| - 1];
    var s := Run(digest, before);
    && i < |s.executions|
    && !Looks(s, last, i)
    && (PutsUnder(s, last, i) || Disturbed(digest, before, i))
  }

  /** At step `n` the execution `i` starts, stops or removes a container. */
  ghost predicate ActsAt(digest: Desired -> string, steps: seq<Step>, n: nat, i: nat) {
    && n < |steps| && steps[n].Go? && steps[n].execution == i
    && var s := Run(digest, steps[..n]);
    && i < |s.executions| && IsActing(s.executions[i].phase)
  }

  predicate IsActing(phase: Phase) {
    phase.Starting? || phase.Stopping? || phase.Replacing? || phase.Removing? || phase.Clearing?
  }

  /** Phases reached only by a successful inspection of the execution itself. */
  predicate HasLooked(phase: Phase) {
    IsActing(phase) || phase.Preparing? || phase.Creating?
  }

  // ----- the state agrees with the schedule

  ghost predicate Foreign(w: World, e: Execution) {
    e.name in w.containers && !OwnedBy(w.containers[e.name].labels, e.actor)
  }

  /** What one step does to the holder of an execution's name. */
  ghost predicate HolderFits(digest: Desired -> string, s: State, step: Step, i: nat)
    requires i < |s.executions| <= |Next(digest, s, step).executions|
  {
    var e, t := s.executions[i], Next(digest, s, step);
    var f := t.executions[i];
    && f.name == e.name && f.actor == e.actor
    && (Looks(s, step, i) ==> !Foreign(t.world, f))
    && (PutsUnder(s, step, i) ==> (Foreign(t.world, f) <==> !OwnedBy(Placed(digest, s, step, i), e.actor)))
    && (!PutsUnder(s, step, i) && TakesAway(s, step, i) ==> !Foreign(t.world, f))
    && (!Looks(s, step, i) && !PutsUnder(s, step, i) && !TakesAway(s, step, i) ==>
          HasLooked(e.phase) && (Foreign(t.world, f) <==> Foreign(s.world, e)))
  }

  lemma HolderAfterOwn(digest: Desired -> string, s: State, step: Step, i: nat)
    requires i < |s.executions| && step.Go? && step.execution == i
    requires HasLooked(Next(digest, s, step).executions[i].phase)
    ensures HolderFits(digest, s, step, i)
  {
  }

  lemma HolderAfterOther(digest: Desired -> string, s: State, step: Step, i: nat)
    requires i < |s.executions| && step.Go? && step.execution != i
    requires HasLooked(s.executions[i].phase)
    ensures HolderFits(digest, s, step, i)
  {
  }

  lemma HolderAfter(digest: Desired -> string, s: State, step: Step, i: nat)
    requires i < |s.executions|
    requires HasLooked(Next(digest, s, step).executions[i].phase)
    ensures HolderFits(digest, s, step, i)
  {
    if step.Go? && step.execution == i {
      HolderAfterOwn(digest, s, step, i);
    } else if step.Go? {
      HolderAfterOther(digest, s, step, i);
    }
  }

  /** An execution that has looked stands before a foreign container exactly when it has been overtaken. */
  lemma {:induction false} ForeignMeansOvertaken(digest: Desired -> string, steps: seq<Step>, i: nat)
    requires i < |Run(digest, steps).executions| && HasLooked(Run(digest, steps).executions[i].phase)
    ensures Foreign(Run(digest, steps).world, Run(digest, steps).executions[i]) <==> Overtaken(digest, steps, i)
  {
    var before, last := steps[..|steps| - 1], steps[|steps| - 1];
    var s := Run(digest, before);
    assert i < |s.executions|;
    HolderAfter(digest, s, last, i);
    if !Looks(s, last, i) && !PutsUnder(s, last, i) && !TakesAway(s, last, i) {
      ForeignMeansOvertaken(digest, before, i);
    }
  }

  lemma OneMoreAction(trace: seq<Action>, a: Action)
    ensures Isolated(trace + [a]) <==>
      Isolated(trace) && (a.verb == Create || a.target.None? || OwnedBy(a.target.value.labels, a.actor))
  {
    assert (trace + [a])[|trace|] == a;
    assert forall i :: 0 <= i < |trace| ==> (trace + [a])[i] == trace[i];
  }

  function VerbOf(phase: Phase): Verb {
    if phase.Starting? then Start
    else if phase.Creating? then Create
    else if phase.Stopping? || phase.Replacing? then Stop
    else Remove
  }

  /** The command a phase issues is the one logged. */
  lemma TraceAfter(digest: Desired -> string, w: World, e: Execution, t: Turn)
    ensures Advance(digest, w, e, t).0.trace ==
      if IsActing(e.phase) || (e.phase.Creating? && e.job.Reconcile?) then
        Logged(w, VerbOf(e.phase), e.name, e.actor).trace
      else w.trace
  {
  }

  /** Isolation after one more step. */
  lemma IsolatedAfter(digest: Desired -> string, s: State, step: Step)
    ensures Isolated(Next(digest, s, step).world.trace) <==>
      Isolated(s.world.trace)
      && !(step.Go? && step.execution < |s.executions| && IsActing(s.executions[step.execution].phase)
           && Foreign(s.world, s.executions[step.execution]))
  {
    if step.Go? && step.execution < |s.executions| {
      var w, e := s.world, s.executions[step.execution];
      TraceAfter(digest, w, e, step.turn);
      OneMoreAction(w.trace, Action(VerbOf(e.phase), e.name, e.actor,
          if e.name in w.containers then Some(w.containers[e.name]) else None));
    }
  }

  /** No execution acts after having been overtaken. */
  ghost predicate NobodyActsOvertaken(digest: Desired -> string, steps: seq<Step>) {
    forall n: nat, i: nat :: ActsAt(digest, steps, n, i) ==> !Overtaken(digest, steps[..n], i)
  }

  lemma ActsBefore(digest: Desired -> string, steps: seq<Step>)
    requires steps != []
    ensures var m := |steps| - 1;
            NobodyActsOvertaken(digest, steps) <==>
              NobodyActsOvertaken(digest, steps[..m])
              && forall i: nat :: ActsAt(digest, steps, m, i) ==> !Overtaken(digest, steps[..m], i)
  {
    var m := |steps| - 1;
    var before := steps[..m];
    forall n: nat, i: nat | n < m
      ensures ActsAt(digest, before, n, i) <==> ActsAt(digest, steps, n, i)
      ensures before[..n] == steps[..n]
    {
      assert before[..n] == steps[..n];
    }
    if NobodyActsOvertaken(digest, steps) {
      forall n: nat, i: nat | ActsAt(digest, before, n, i)
        ensures !Overtaken(digest, before[..n], i)
      {
        assert ActsAt(digest, steps, n, i);
      }
    } else {
      var n: nat, i: nat :| ActsAt(digest, steps, n, i) && Overtaken(digest, steps[..n], i);
      assert n < m ==> ActsAt(digest, before, n, i);
    }
  }

  /**
    Isolation over all interleavings: nobody starts, stops or removes a container that is not its
    own if and only if no execution acts after having been overtaken.
   */
  lemma {:induction false} IsolatedExactly(digest: Desired -> string, steps: seq<Step>)
    ensures Isolated(Run(digest, steps).world.trace) <==> NobodyActsOvertaken(digest, steps)
  {
    if steps != [] {
      var m := |steps| - 1;
      var before, last := steps[..m], steps[m];
      var s := Run(digest, before);
      IsolatedExactly(digest, before);
      IsolatedAfter(digest, s, last);
      ActsBefore(digest, steps);
      if last.Go? && ActsAt(digest, steps, m, last.execution) {
        ForeignMeansOvertaken(digest, before, last.execution);
      }
    }
  }

  // ----- when that is so

  lemma {:induction false} OvertakenIsDisturbed(digest: Desired -> string, steps: seq<Step>, i: nat)
    requires Overtaken(digest, steps, i)
    ensures Disturbed(digest, steps, i)
  {
    var before, last := steps[..|steps| - 1], steps[|steps| - 1];
    if !PutsUnder(Run(digest, before), last, i) {
      OvertakenIsDisturbed(digest, before, i);
    }
  }

  /**
    Overlap is harmless as long as between an execution's last successful inspection and each of its
    actions nobody else puts a container under its name. Overlap under other names does not matter.
   */
  lemma UndisturbedIsIsolated(digest: Desired -> string, steps: seq<Step>)
    requires forall n: nat, i: nat :: ActsAt(digest, steps, n, i) ==> !Disturbed(digest, steps[..n], i)
    ensures Isolated(Run(digest, steps).world.trace)
  {
    forall n: nat, i: nat | ActsAt(digest, steps, n, i)
      ensures !Overtaken(digest, steps[..n], i)
    {
      if Overtaken(digest, steps[..n], i) {
        OvertakenIsDisturbed(digest, steps[..n], i);
      }
    }
    IsolatedExactly(digest, steps);
  }

  predicate Admits(step: Step) {
    step.Begin? && IsUuid(step.actor.machine) && IsUuid(step.actor.instance)
  }

  /** Different instances that are handled have different names, and nobody else uses one of those names. */
  ghost predicate NamesAreOwn(steps: seq<Step>) {
    forall m, n :: 0 <= m < |steps| && 0 <= n < |steps| && Admits(steps[m]) ==> OwnsName(steps[m], steps[n])
  }

  predicate OwnsName(begin: Step, other: Step)
    requires Admits(begin)
  {
    var name := ContainerName(begin.actor.instance);
    && (Admits(other) && ContainerName(other.actor.instance) == name ==> other.actor == begin.actor)
    && (other.Outside? && other.container.Some? ==> other.name != name)
  }

  /** Every execution was begun by a step of the run, under its own name. */
  ghost predicate BegunBy(e: Execution, steps: seq<Step>) {
    && (exists m ::
          && 0 <= m < |steps| && Admits(steps[m]) && steps[m].actor == e.actor
          && e.name == ContainerName(e.actor.instance))
    && (e.job.Reconcile? ==> e.job.request.instanceId == e.actor.instance)
  }

  lemma IdentityStays(digest: Desired -> string, s: State, step: Step, i: nat)
    requires i < |s.executions|
    ensures var e, f := s.executions[i], Next(digest, s, step).executions[i];
            && f.actor == e.actor && f.name == e.name && f.job.Reconcile? == e.job.Reconcile?
            && (e.job.Reconcile? ==> f.job.request.instanceId == e.job.request.instanceId)
  {
  }

  lemma {:induction false} AllBegun(digest: Desired -> string, steps: seq<Step>, i: nat)
    requires i < |Run(digest, steps).executions|
    ensures BegunBy(Run(digest, steps).executions[i], steps)
  {
    var before, last := steps[..|steps| - 1], steps[|steps| - 1];
    var s, e := Run(digest, before), Run(digest, steps).executions[i];
    if i < |s.executions| {
      AllBegun(digest, before, i);
      var f := s.executions[i];
      IdentityStays(digest, s, last, i);
      var m :| 0 <= m < |before| && Admits(before[m]) && before[m].actor == f.actor;
      assert steps[m] == before[m];
    } else {
      assert Admits(last) && steps[|steps| - 1].actor == e.actor;
    }
  }

  lemma {:induction false} OwnNamesAreNotOvertaken(digest: Desired -> string, steps: seq<Step>, i: nat)
    requires NamesAreOwn(steps)
    ensures !Overtaken(digest, steps, i)
  {
    if Overtaken(digest, steps, i) {
      var before, last := steps[..|steps| - 1], steps[|steps| - 1];
      var s := Run(digest, before);
      PrefixKeepsNames(steps);
      AllBegun(digest, before, i);
      if PutsUnder(s, last, i) {
        OwnNamesPlaceOwn(digest, steps, i);
      } else {
        OwnNamesAreNotOvertaken(digest, before, i);
      }
    }
  }

  lemma PrefixKeepsNames(steps: seq<Step>)
    requires NamesAreOwn(steps) && steps != []
    ensures NamesAreOwn(steps[..|steps| - 1])
  {
    var before := steps[..|steps| - 1];
    assert forall m :: 0 <= m < |before| ==> before[m] == steps[m];
  }

  lemma OwnNamesPlaceOwn(digest: Desired -> string, steps: seq<Step>, i: nat)
    requires NamesAreOwn(steps) && steps != []
    requires var s := Run(digest, steps[..|steps| - 1]);
             i < |s.executions| && PutsUnder(s, steps[|steps| - 1], i)
    ensures var s := Run(digest, steps[..|steps| - 1]);
            OwnedBy(Placed(digest, s, steps[|steps| - 1], i), s.executions[i].actor)
  {
    var before, last := steps[..|steps| - 1], steps[|steps| - 1];
    var s := Run(digest, before);
    var e := s.executions[i];
    AllBegun(digest, before, i);
    var m :| 0 <= m < |before| && Admits(before[m]) && before[m].actor == e.actor;
    assert steps[m] == before[m];
    assert OwnsName(steps[m], last);
    if last.Go? {
      var j := last.execution;
      AllBegun(digest, before, j);
      var n :| 0 <= n < |before| && Admits(before[n]) && before[n].actor == s.executions[j].actor;
      assert steps[n] == before[n];
      assert OwnsName(steps[m], steps[n]);
    }
  }

  /** Without a collision of names every interleaving is isolated, however much executions overlap. */
  lemma OwnNamesAreIsolated(digest: Desired -> string, steps: seq<Step>)
    requires NamesAreOwn(steps)
    ensures Isolated(Run(digest, steps).world.trace)
  {
    forall n: nat, i: nat | ActsAt(digest, steps, n, i)
      ensures !Overtaken(digest, steps[..n], i)
    {
      var prefix := steps[..n];
      assert forall m :: 0 <= m < |prefix| ==> prefix[m] == steps[m];
      OwnNamesAreNotOvertaken(digest, prefix, i);
    }
    IsolatedExactly(digest, steps);
  }

  // ----- one execution alone, and the run that breaks isolation

  function GoAll(i: nat, turns: seq<Turn>): (r: seq<Step>)
    ensures |r| == |turns|
  {
    seq(|turns|, n requires 0 <= n < |turns| => Go(i, turns[n]))
  }

  lemma RunStep(digest: Desired -> string, steps: seq<Step>, step: Step)
    ensures Run(digest, steps + [step]) == Next(digest, Run(digest, steps), step)
  {
    assert (steps + [step])[..|steps|] == steps;
  }

  /** Nothing in between: the steps of one execution are the commands of its handler. */
  lemma {:induction false} AloneIsARun(digest: Desired -> string, steps: seq<Step>, i: nat, turns: seq<Turn>)
    requires i < |Run(digest, steps).executions|
    ensures var s := Run(digest, steps);
            var (w, e) := Alone(digest, s.world, s.executions[i], turns);
            Run(digest, steps + GoAll(i, turns)) == Put(s, i, w, e)
  {
    var s := Run(digest, steps);
    if turns == [] {
      assert steps + GoAll(i, turns) == steps;
      assert s.executions[i := s.executions[i]] == s.executions;
    } else {
      var front, last := turns[..|turns| - 1], turns[|turns| - 1];
      AloneIsARun(digest, steps, i, front);
      RunStep(digest, steps + GoAll(i, front), Go(i, last));
      assert steps + GoAll(i, turns) == steps + GoAll(i, front) + [Go(i, last)];
    }
  }

  lemma AloneOneMore(digest: Desired -> string, w: World, e: Execution, turns: seq<Turn>, t: Turn)
    ensures var before := Alone(digest, w, e, turns);
            Alone(digest, w, e, turns + [t]) == Advance(digest, before.0, before.1, t)
  {
    assert (turns + [t])[..|turns|] == turns;
  }

  /** Three commands that all meet no trouble. */
  lemma AloneThrice(digest: Desired -> string, w: World, e: Execution, t: Turn)
    ensures var one := Advance(digest, w, e, t);
            var two := Advance(digest, one.0, one.1, t);
            Alone(digest, w, e, [t]) == one && Alone(digest, w, e, [t, t, t]) == Advance(digest, two.0, two.1, t)
  {
    AloneOneMore(digest, w, e, [], t);
    AloneOneMore(digest, w, e, [t], t);
    AloneOneMore(digest, w, e, [t, t], t);
    assert [] + [t] == [t] && [t] + [t] == [t, t] && [t, t] + [t] == [t, t, t];
  }

  /** A reconcile where there is no container creates one. */
  lemma FreshReconcile(digest: Desired -> string, w: World, e: Execution, t: Turn)
    requires e.phase.Looking? && e.job.Reconcile? && e.name !in w.containers
    requires t.reply.Fine? && t.port == Some(e.job.request.externalPort)
    ensures var (after, over) := Alone(digest, w, e, [t, t, t]);
            && after.containers ==
              w.containers[e.name := ContainerFor(digest, e.actor.machine, e.job.request).(running := true)]
            && over == End(e)
  {
    AloneThrice(digest, w, e, t);
  }

  /** A reconcile of an own container with another hash takes it down before it creates the new one. */
  lemma OutdatedReconcile(digest: Desired -> string, w: World, e: Execution, t: Turn)
    requires e.phase.Looking? && e.job.Reconcile? && t.reply.Fine?
    requires e.name in w.containers && OwnedBy(w.containers[e.name].labels, e.actor)
    requires w.containers[e.name].labels.configHash != digest(DesiredOf(e.job.request))
    ensures var (after, waiting) := Alone(digest, w, e, [t, t, t] + [t]);
            && after.containers == w.containers - {e.name}
            && waiting == e.(phase := Creating(Replacement))
  {
    AloneThrice(digest, w, e, t);
    AloneOneMore(digest, w, e, [t, t, t], t);
  }

  /** The execution begun next, and its first commands. */
  lemma BegunNext(digest: Desired -> string, steps: seq<Step>, actor: Actor, job: Job, turns: seq<Turn>)
    requires Admits(Begin(actor, job)) && (job.Reconcile? ==> job.request.instanceId == actor.instance)
    ensures var s := Run(digest, steps);
            var e := Execution(actor, ContainerName(actor.instance), job, Looking);
            var (w, f) := Alone(digest, s.world, e, turns);
            Run(digest, steps + [Begin(actor, job)] + GoAll(|s.executions|, turns)) == State(w, s.executions + [f])
  {
    var s := Run(digest, steps);
    var e := Execution(actor, ContainerName(actor.instance), job, Looking);
    RunStep(digest, steps, Begin(actor, job));
    AloneIsARun(digest, steps + [Begin(actor, job)], |s.executions|, turns);
    var f := Alone(digest, s.world, e, turns).1;
    assert (s.executions + [e])[|s.executions| := f] == s.executions + [f];
  }

  // the steps that lead a stop astray; `a` and `b` are instances of one machine

  function FineTurn(r: Request): Turn {
    Turn(Fine, Some(r.externalPort), None, [])
  }

  /** A first reconcile of `a`, and a stop of it that has looked. */
  function UntilLooked(a: Actor, first: Request): seq<Step> {
    var t := FineTurn(first);
    [] + [Begin(a, Reconcile(first))] + GoAll(0, [t, t, t]) + [Begin(a, StopIt)] + GoAll(1, [t])
  }

  /** Then another configuration for `a`, as far as its old container is gone. */
  function UntilRemoved(a: Actor, first: Request, second: Request): seq<Step> {
    var t := FineTurn(second);
    UntilLooked(a, first) + [Begin(a, Reconcile(second))] + GoAll(2, [t, t, t] + [t])
  }

  /** Then a first reconcile of `b`. */
  function UntilReplaced(a: Actor, b: Actor, first: Request, second: Request, other: Request): seq<Step> {
    var t := FineTurn(other);
    UntilRemoved(a, first, second) + [Begin(b, Reconcile(other))] + GoAll(3, [t, t, t])
  }

  /** And only then the stop of `a`. */
  function Astray(a: Actor, b: Actor, first: Request, second: Request, other: Request): seq<Step> {
    UntilReplaced(a, b, first, second, other) + GoAll(1, [FineTurn(first)])
  }

  ghost predicate StopWaits(s: State, a: Actor, begun: nat)
    requires IsUuid(a.instance)
  {
    |s.executions| == begun > 1 && s.executions[1] == Execution(a, ContainerName(a.instance), StopIt, Stopping)
  }

  lemma AfterUntilLooked(digest: Desired -> string, a: Actor, first: Request)
    requires IsUuid(a.machine) && IsUuid(a.instance) && first.instanceId == a.instance
    ensures var s := Run(digest, UntilLooked(a, first));
            && StopWaits(s, a, 2)
            && s.world.containers ==
              map[ContainerName(a.instance) := ContainerFor(digest, a.machine, first).(running := true)]
  {
    var name, t := ContainerName(a.instance), FineTurn(first);
    var created := [] + [Begin(a, Reconcile(first))] + GoAll(0, [t, t, t]);
    BegunNext(digest, [], a, Reconcile(first), [t, t, t]);
    FreshReconcile(digest, INITIAL.world, Execution(a, name, Reconcile(first), Looking), t);
    BegunNext(digest, created, a, StopIt, [t]);
    AloneThrice(digest, Run(digest, created).world, Execution(a, name, StopIt, Looking), t);
  }

  lemma AfterUntilRemoved(digest: Desired -> string, a: Actor, first: Request, second: Request)
    requires IsUuid(a.machine) && IsUuid(a.instance) && first.instanceId == second.instanceId == a.instance
    requires digest(DesiredOf(first)) != digest(DesiredOf(second))
    ensures var s := Run(digest, UntilRemoved(a, first, second));
            StopWaits(s, a, 3) && ContainerName(a.instance) !in s.world.containers
  {
    var e, t := Execution(a, ContainerName(a.instance), Reconcile(second), Looking), FineTurn(second);
    AfterUntilLooked(digest, a, first);
    BegunNext(digest, UntilLooked(a, first), a, Reconcile(second), [t, t, t] + [t]);
    OutdatedReconcile(digest, Run(digest, UntilLooked(a, first)).world, e, t);
  }

  lemma AfterUntilReplaced(
    digest: Desired -> string, a: Actor, b: Actor, first: Request, second: Request, other: Request)
    requires IsUuid(a.machine) && IsUuid(a.instance) && first.instanceId == second.instanceId == a.instance
    requires digest(DesiredOf(first)) != digest(DesiredOf(second))
    requires IsUuid(b.machine) && IsUuid(b.instance) && other.instanceId == b.instance
    requires ContainerName(a.instance) == ContainerName(b.instance)
    ensures var name, s := ContainerName(a.instance), Run(digest, UntilReplaced(a, b, first, second, other));
            && StopWaits(s, a, 4) && name in s.world.containers
            && s.world.containers[name] == ContainerFor(digest, b.machine, other).(running := true)
  {
    var e, t := Execution(b, ContainerName(b.instance), Reconcile(other), Looking), FineTurn(other);
    AfterUntilRemoved(digest, a, first, second);
    BegunNext(digest, UntilRemoved(a, first, second), b, Reconcile(other), [t, t, t]);
    FreshReconcile(digest, Run(digest, UntilRemoved(a, first, second)).world, e, t);
  }

  /**
    With a collision of names and overlap isolation does break, without any crash, error or outside
    change: a stop that has looked is overtaken by a reconcile of its own instance to another
    configuration and by the first reconcile of an instance with the same name, and stops the
    container of that other instance.
   */
  lemma OverlapBreaksIsolation(
    digest: Desired -> string, a: Actor, b: Actor, first: Request, second: Request, other: Request)
    requires IsUuid(a.machine) && a.machine == b.machine && IsUuid(a.instance) && IsUuid(b.instance)
               && a.instance != b.instance
    requires ContainerName(a.instance) == ContainerName(b.instance)
    requires first.instanceId == second.instanceId == a.instance && other.instanceId == b.instance
    requires digest(DesiredOf(first)) != digest(DesiredOf(second))
    ensures var name, end := ContainerName(a.instance), Run(digest, Astray(a, b, first, second, other));
            && !Isolated(end.world.trace)
            && name in end.world.containers && OwnedBy(end.world.containers[name].labels, b)
            && !end.world.containers[name].running
  {
    var before, t := UntilReplaced(a, b, first, second, other), FineTurn(first);
    AfterUntilReplaced(digest, a, b, first, second, other);
    RunStep(digest, before, Go(1, t));
    assert GoAll(1, [t]) == [Go(1, t)];
    IsolatedAfter(digest, Run(digest, before), Go(1, t));
  }
}
