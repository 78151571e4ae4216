/**
  Every interleaving of WARP repairs and takeovers of one machine over its ownership record.

  Commands of overlapping sessions run at the same time and no lock covers a handler, so any number
  of executions interleave between two system calls. Each call can fail, an execution can end early
  at any moment, and a crash ends all of them. The record's file is numbered anew whenever another
  file comes to be under its name: a creator that still writes then writes into nothing.
 */
module WarpRuns {
  import opened Wrappers
  import opened OwnershipFile
  import W = WarpOwnership

  datatype Job = Repair | Takeover(adoption: W.Adoption)

  datatype Phase =
    | Looking
    | Claiming
    | Working
    | Marking(adoption: Option<W.Adoption>)
    | Creating
    | Filling(serial: nat)
    | Syncing
    | Cleaning
    | Over

  datatype Execution = Execution(job: Job, phase: Phase)

  datatype Disk = Disk(file: W.OwnershipRecord, serial: nat, next: nat)

  datatype State = State(disk: Disk, trace: seq<W.Event>, executions: seq<Execution>)

  /** What one system call meets; a repair at work issues the command, or reads the record again. */
  datatype Turn = Turn(ok: bool, readable: bool, cliPresent: bool, command: Option<W.Command>)

  datatype Step = Begin(job: Job) | Go(execution: nat, turn: Turn) | Quit(execution: nat) | Crash

  /** The host before the first execution: with any record, or without one. */
  predicate IsInitial(s: State) {
    s.executions == [] && s.trace == [] && s.disk.serial < s.disk.next
  }

  // ----- one call of an execution

  function End(e: Execution): Execution {
    e.(phase := Over)
  }

  /** A repair goes on under an own record, or claims where WARP and the record are absent; a takeover creates one. */
  function AfterLook(machine: string, d: Disk, e: Execution, t: Turn): Execution {
    var reading := ReadingOf(d.file, t.readable);
    match e.job
    case Repair =>
      if reading.Read? && reading.record.machineId == machine then e.(phase := Working)
      else if reading.NotExist? && !t.cliPresent then e.(phase := Claiming)
      else End(e)
    case Takeover(_) => if reading.NotExist? && t.cliPresent then e.(phase := Creating) else End(e)
  }

  /** Another file comes to be under the name. */
  function Named(d: Disk, file: W.OwnershipRecord): Disk {
    Disk(file, d.next, d.next + 1)
  }

  function Advance(machine: string, d: Disk, e: Execution, t: Turn): (Disk, Execution) {
    match e.phase
    case Looking => (d, AfterLook(machine, d, e, t))
    case Claiming =>
      if t.ok then (Named(d, Held(W.Ownership(machine, W.INSTALLING, None))), e.(phase := Working)) else (d, End(e))
    case Working =>
      (d, if t.command.None? then e.(phase := Marking(W.CarriedAdoption(d.file, t.readable)))
          else if t.ok then e else End(e))
    case Marking(adoption) =>
      (if t.ok then Named(d, Held(W.Ownership(machine, W.MANAGED, adoption))) else d, End(e))
    case Creating =>
      if t.ok && d.file.Missing? then (Named(d, Torn), e.(phase := Filling(d.next))) else (d, End(e))
    case Filling(serial) =>
      if !t.ok then (d, e.(phase := Cleaning))
      else
        (if serial == d.serial && !d.file.Missing? && e.job.Takeover?
         then d.(file := Held(W.Ownership(machine, W.ADOPTED, Some(e.job.adoption)))) else d,
         e.(phase := Syncing))
    case Syncing => (d, if t.ok then End(e) else e.(phase := Cleaning))
    case Cleaning => (if t.ok then d.(file := Missing) else d, End(e))
    case Over => (d, e)
  }

  /** The command that is issued, with the record as it is then. */
  function Issued(machine: string, d: Disk, e: Execution, t: Turn): seq<W.Event> {
    if e.phase.Working? && t.command.Some? then [W.Event(t.command.value, machine, d.file)] else []
  }

  /** A repair whose command fails is over; one whose command works goes on, and marks the record at its end. */
  lemma FailedCommandEnds(machine: string, d: Disk, e: Execution, t: Turn)
    requires e.phase.Working?
    ensures var (d', e') := Advance(machine, d, e, t);
            && d' == d
            && (e'.phase.Over? <==> t.command.Some? && !t.ok)
            && (e' == e <==> t.command.Some? && t.ok)
            && (e'.phase.Marking? <==> t.command.None?)
  {
  }

  /** One step; a step that does not apply changes nothing. */
  function Next(machine: string, s: State, step: Step): State {
    match step
    case Begin(job) => s.(executions := s.executions + [Execution(job, Looking)])
    case Go(i, turn) =>
      if i >= |s.executions| then s
      else
        var (d, e) := Advance(machine, s.disk, s.executions[i], turn);
        State(d, s.trace + Issued(machine, s.disk, s.executions[i], turn), s.executions[i := e])
    case Quit(i) => if i >= |s.executions| then s else s.(executions := s.executions[i := End(s.executions[i])])
    case Crash =>
      s.(executions := seq(|s.executions|, i requires 0 <= i < |s.executions| => End(s.executions[i])))
  }

  function Run(machine: string, start: State, steps: seq<Step>): State {
    if steps == [] then start
    else Next(machine, Run(machine, start, steps[..|steps| - 1]), steps[|steps| - 1])
  }

  // ----- what happened to the record, read off the schedule

  ghost predicate Goes(s: State, step: Step, i: nat) {
    step.Go? && step.execution == i && i < |s.executions|
  }

  /** In this step the execution puts its machine's own record under the name. */
  ghost predicate Puts(s: State, step: Step, i: nat) {
    && Goes(s, step, i) && step.turn.ok
    && match s.executions[i].phase
       case Claiming => true
       case Marking(_) => true
       case Filling(serial) => serial == s.disk.serial && !s.disk.file.Missing? && s.executions[i].job.Takeover?
       case _ => false
  }

  /** In this step a takeover whose creation failed removes what is under the name, whosever it is. */
  ghost predicate CleansUp(s: State, step: Step) {
    step.Go? && step.turn.ok && step.execution < |s.executions| && s.executions[step.execution].phase.Cleaning?
  }

  /** Since an own record was last put under the name, a clean-up has removed it. */
  ghost predicate Bereft(machine: string, start: State, steps: seq<Step>) {
    steps != []
    && var before, last := steps[..|steps| - 1], steps[|steps| - 1];
    var s := Run(machine, start, before);
    !(last.Go? && Puts(s, last, last.execution)) && (CleansUp(s, last) || Bereft(machine, start, before))
  }

  /** Past its look an execution of a repair has met or written an own record. */
  predicate HasRecord(phase: Phase) {
    phase.Working? || phase.Marking?
  }

  ghost predicate SomebodyWorks(s: State) {
    exists i :: 0 <= i < |s.executions| && HasRecord(s.executions[i].phase)
  }

  /** What one step does to who owns the record. */
  lemma OwnerAfter(machine: string, s: State, step: Step)
    ensures var t := Next(machine, s, step);
            && (step.Go? && Puts(s, step, step.execution) ==> W.OwnedBy(t.disk.file, machine))
            && (CleansUp(s, step) ==> !W.OwnedBy(t.disk.file, machine))
            && (!CleansUp(s, step) && !(step.Go? && Puts(s, step, step.execution)) ==>
                  W.OwnedBy(t.disk.file, machine) == W.OwnedBy(s.disk.file, machine))
  {
  }

  /** Work begins under an own record. */
  lemma WorkersAfter(machine: string, s: State, step: Step)
    requires SomebodyWorks(Next(machine, s, step))
    ensures SomebodyWorks(s) || W.OwnedBy(Next(machine, s, step).disk.file, machine)
  {
    var t := Next(machine, s, step);
    var i :| 0 <= i < |t.executions| && HasRecord(t.executions[i].phase);
    if i < |s.executions| && HasRecord(s.executions[i].phase) {
      assert SomebodyWorks(s);
    }
  }

  /** As long as anybody works, the record is the machine's own exactly unless a clean-up has removed it. */
  lemma {:induction false} OwnedUnlessBereft(machine: string, start: State, steps: seq<Step>)
    requires IsInitial(start)
    ensures var s := Run(machine, start, steps);
            && (W.OwnedBy(s.disk.file, machine) ==> !Bereft(machine, start, steps))
            && (SomebodyWorks(s) && !Bereft(machine, start, steps) ==> W.OwnedBy(s.disk.file, machine))
  {
    if steps != [] {
      var before, last := steps[..|steps| - 1], steps[|steps| - 1];
      var s := Run(machine, start, before);
      OwnedUnlessBereft(machine, start, before);
      OwnerAfter(machine, s, last);
      if SomebodyWorks(Next(machine, s, last)) {
        WorkersAfter(machine, s, last);
      }
    }
  }

  // ----- commands without a record

  /** In this step a mutating command is issued. */
  ghost predicate Mutates(s: State, step: Step) {
    && step.Go? && step.execution < |s.executions| && s.executions[step.execution].phase.Working?
    && step.turn.command.Some? && W.IsMutating(step.turn.command.value)
  }

  ghost predicate MutatesAt(machine: string, start: State, steps: seq<Step>, n: nat) {
    n < |steps| && Mutates(Run(machine, start, steps[..n]), steps[n])
  }

  ghost predicate NobodyActsBereft(machine: string, start: State, steps: seq<Step>) {
    forall n: nat :: MutatesAt(machine, start, steps, n) ==> !Bereft(machine, start, steps[..n])
  }

  lemma ActsBefore(machine: string, start: State, steps: seq<Step>)
    requires steps != []
    ensures var m := |steps| - 1;
            NobodyActsBereft(machine, start, steps) <==>
              && NobodyActsBereft(machine, start, steps[..m])
              && (MutatesAt(machine, start, steps, m) ==> !Bereft(machine, start, steps[..m]))
  {
    var m := |steps| - 1;
    var before := steps[..m];
    forall n: nat | n < m
      ensures MutatesAt(machine, start, before, n) <==> MutatesAt(machine, start, steps, n)
      ensures before[..n] == steps[..n]
    {
      assert before[..n] == steps[..n];
    }
  }

  lemma GuardedAfter(machine: string, s: State, step: Step)
    ensures W.Guarded(Next(machine, s, step).trace) <==>
      W.Guarded(s.trace) && (Mutates(s, step) ==> W.OwnedBy(s.disk.file, machine))
  {
    var t := Next(machine, s, step);
    assert forall i :: 0 <= i < |s.trace| ==> t.trace[i] == s.trace[i];
    if t.trace != s.trace {
      assert t.trace[|s.trace|] == W.Event(step.turn.command.value, machine, s.disk.file);
    }
  }

  /**
    Over all interleavings: every mutating command is issued under an own record on disk if and only
    if none is issued after a clean-up has removed the record and before there is an own one again.
   */
  lemma {:induction false} GuardedExactly(machine: string, start: State, steps: seq<Step>)
    requires IsInitial(start)
    ensures W.Guarded(Run(machine, start, steps).trace) <==> NobodyActsBereft(machine, start, steps)
  {
    if steps != [] {
      var m := |steps| - 1;
      var before, last := steps[..m], steps[m];
      var s := Run(machine, start, before);
      GuardedExactly(machine, start, before);
      GuardedAfter(machine, s, last);
      ActsBefore(machine, start, steps);
      if MutatesAt(machine, start, steps, m) {
        assert HasRecord(s.executions[last.execution].phase);
        OwnedUnlessBereft(machine, start, before);
      }
    }
  }

  lemma {:induction false} NotBereftWithoutCleanUp(machine: string, start: State, steps: seq<Step>)
    requires forall n :: 0 <= n < |steps| ==> !CleansUp(Run(machine, start, steps[..n]), steps[n])
    ensures !Bereft(machine, start, steps)
  {
    if steps != [] {
      var before := steps[..|steps| - 1];
      forall n | 0 <= n < |before|
        ensures !CleansUp(Run(machine, start, before[..n]), before[n])
      {
        assert before[..n] == steps[..n];
      }
      NotBereftWithoutCleanUp(machine, start, before);
    }
  }

  /** Overlap alone does no harm to the guard: it takes a creation that fails and cleans up. */
  lemma GuardedWithoutCleanUp(machine: string, start: State, steps: seq<Step>)
    requires IsInitial(start)
    requires forall n :: 0 <= n < |steps| ==> !CleansUp(Run(machine, start, steps[..n]), steps[n])
    ensures W.Guarded(Run(machine, start, steps).trace)
  {
    forall n: nat | MutatesAt(machine, start, steps, n)
      ensures !Bereft(machine, start, steps[..n])
    {
      var prefix := steps[..n];
      forall m | 0 <= m < |prefix|
        ensures !CleansUp(Run(machine, start, prefix[..m]), prefix[m])
      {
        assert prefix[..m] == steps[..m];
      }
      NotBereftWithoutCleanUp(machine, start, prefix);
    }
    GuardedExactly(machine, start, steps);
  }

  lemma RunStep(machine: string, start: State, steps: seq<Step>, step: Step)
    ensures Run(machine, start, steps + [step]) == Next(machine, Run(machine, start, steps), step)
  {
    assert (steps + [step])[..|steps|] == steps;
  }

  function Call(i: nat, ok: bool): Step {
    Go(i, Turn(ok, true, true, Some(W.EnableService)))
  }

  /** A takeover whose record is complete but not yet synced, and a repair that finds it. */
  function UntilFound(adoption: W.Adoption): seq<Step> {
    [] + [Begin(Takeover(adoption))] + [Begin(Repair)] + [Call(0, true)] + [Call(0, true)] + [Call(0, true)]
    + [Call(1, true)]
  }

  /** Then the sync fails, the takeover cleans up, and the repair goes on. */
  function Unguarded(adoption: W.Adoption): seq<Step> {
    UntilFound(adoption) + [Call(0, false)] + [Call(0, true)] + [Call(1, true)]
  }

  lemma AfterUntilFound(machine: string, start: State, adoption: W.Adoption)
    requires IsInitial(start) && start.disk.file.Missing?
    ensures var s := Run(machine, start, UntilFound(adoption));
            && s.executions == [Execution(Takeover(adoption), Syncing), Execution(Repair, Working)]
            && s.disk.file == Held(W.Ownership(machine, W.ADOPTED, Some(adoption))) && s.trace == []
  {
    var begun := [] + [Begin(Takeover(adoption))] + [Begin(Repair)];
    RunStep(machine, start, [], Begin(Takeover(adoption)));
    RunStep(machine, start, [] + [Begin(Takeover(adoption))], Begin(Repair));
    RunStep(machine, start, begun, Call(0, true));
    RunStep(machine, start, begun + [Call(0, true)], Call(0, true));
    RunStep(machine, start, begun + [Call(0, true)] + [Call(0, true)], Call(0, true));
    RunStep(machine, start, begun + [Call(0, true)] + [Call(0, true)] + [Call(0, true)], Call(1, true));
  }

  /**
    With overlap and one failing sync the guard does break: a repair finds the record of a takeover
    that is still being created, the takeover cleans up, and the repair acts without any record.
   */
  lemma OverlapActsUnguarded(machine: string, start: State, adoption: W.Adoption)
    requires IsInitial(start) && start.disk.file.Missing?
    ensures var end := Run(machine, start, Unguarded(adoption));
            && end.disk.file.Missing? && !W.Guarded(end.trace)
            && end.trace == [W.Event(W.EnableService, machine, Missing)]
  {
    var found := UntilFound(adoption);
    AfterUntilFound(machine, start, adoption);
    RunStep(machine, start, found, Call(0, false));
    RunStep(machine, start, found + [Call(0, false)], Call(0, true));
    RunStep(machine, start, found + [Call(0, false)] + [Call(0, true)], Call(1, true));
    assert Run(machine, start, Unguarded(adoption)).trace[0] == W.Event(W.EnableService, machine, Missing);
  }

  // ----- a record that is not this machine's

  /** A torn record, or another machine's, is never changed, whatever overlaps, and no command is issued. */
  lemma {:induction false} ForeignStays(machine: string, start: State, steps: seq<Step>)
    requires IsInitial(start) && !start.disk.file.Missing? && !W.OwnedBy(start.disk.file, machine)
    ensures var s := Run(machine, start, steps);
            && s.disk == start.disk && s.trace == []
            && forall i :: 0 <= i < |s.executions| ==> s.executions[i].phase.Looking? || s.executions[i].phase.Over?
  {
    if steps != [] {
      ForeignStays(machine, start, steps[..|steps| - 1]);
    }
  }

  // ----- claims that come too late

  /** Since the execution looked, an own record has been put under the name, and it is still there. */
  ghost predicate Preempted(machine: string, start: State, steps: seq<Step>, i: nat) {
    steps != []
    && var before, last := steps[..|steps| - 1], steps[|steps| - 1];
    var s := Run(machine, start, before);
    && i < |s.executions|
    && !(Goes(s, last, i) && s.executions[i].phase.Looking?)
    && ((last.Go? && Puts(s, last, last.execution))
        || (!CleansUp(s, last) && Preempted(machine, start, before, i)))
  }

  lemma ClaimingAfter(machine: string, s: State, step: Step, i: nat)
    requires i < |Next(machine, s, step).executions| && Next(machine, s, step).executions[i].phase.Claiming?
    ensures var t := Next(machine, s, step);
            && i < |s.executions|
            && (Goes(s, step, i) && s.executions[i].phase.Looking? ==> t.disk.file.Missing?)
            && (!(Goes(s, step, i) && s.executions[i].phase.Looking?) ==>
                  && s.executions[i].phase.Claiming?
                  && (step.Go? && Puts(s, step, step.execution) ==> t.disk.file.Held?)
                  && (CleansUp(s, step) ==> t.disk.file.Missing?)
                  && (!(step.Go? && Puts(s, step, step.execution)) && !CleansUp(s, step) ==>
                        t.disk.file.Held? == s.disk.file.Held?))
  {
  }

  lemma {:induction false} HeldMeansPreempted(machine: string, start: State, steps: seq<Step>, i: nat)
    requires IsInitial(start)
    requires i < |Run(machine, start, steps).executions| && Run(machine, start, steps).executions[i].phase.Claiming?
    ensures Run(machine, start, steps).disk.file.Held? <==> Preempted(machine, start, steps, i)
  {
    var before, last := steps[..|steps| - 1], steps[|steps| - 1];
    var s := Run(machine, start, before);
    ClaimingAfter(machine, s, last, i);
    if !(Goes(s, last, i) && s.executions[i].phase.Looking?) {
      HeldMeansPreempted(machine, start, before, i);
    }
  }

  /**
    A claim that lands replaces a complete record, and with it an adoption, if and only if somebody
    has put that record there since the claiming repair looked.
   */
  lemma {:induction false} ClaimReplacesExactly(machine: string, start: State, steps: seq<Step>, i: nat, turn: Turn)
    requires IsInitial(start) && turn.ok
    requires i < |Run(machine, start, steps).executions| && Run(machine, start, steps).executions[i].phase.Claiming?
    ensures var s, t := Run(machine, start, steps), Run(machine, start, steps + [Go(i, turn)]);
            && t.disk.file == Held(W.Ownership(machine, W.INSTALLING, None))
            && (s.disk.file.Held? <==> Preempted(machine, start, steps, i))
  {
    RunStep(machine, start, steps, Go(i, turn));
    HeldMeansPreempted(machine, start, steps, i);
  }

  // ----- an adoption under overlap

  /** At most one creator writes into one file, and nobody into a complete record. */
  ghost predicate CreatorsApart(s: State) {
    && s.disk.serial < s.disk.next
    && (forall i :: 0 <= i < |s.executions| && s.executions[i].phase.Filling? ==>
          && s.executions[i].phase.serial < s.disk.next
          && (s.executions[i].phase.serial == s.disk.serial ==> !s.disk.file.Held?))
    && (forall i, j ::
          0 <= i < j < |s.executions| && s.executions[i].phase.Filling? && s.executions[j].phase.Filling? ==>
            s.executions[i].phase.serial != s.executions[j].phase.serial)
  }

  lemma CreatorsAfter(machine: string, s: State, step: Step)
    requires CreatorsApart(s)
    ensures CreatorsApart(Next(machine, s, step))
  {
    var t := Next(machine, s, step);
    forall i | 0 <= i < |t.executions| && t.executions[i].phase.Filling?
      ensures i < |s.executions|
      ensures t.executions[i] == s.executions[i] || (t.executions[i].phase.serial == s.disk.next && Goes(s, step, i))
    {
    }
  }

  lemma {:induction false} CreatorsStayApart(machine: string, start: State, steps: seq<Step>)
    requires IsInitial(start)
    ensures CreatorsApart(Run(machine, start, steps))
  {
    if steps != [] {
      CreatorsStayApart(machine, start, steps[..|steps| - 1]);
      CreatorsAfter(machine, Run(machine, start, steps[..|steps| - 1]), steps[|steps| - 1]);
    }
  }

  predicate HasAdoption(s: State, adoption: W.Adoption) {
    s.disk.file.Held? && s.disk.file.record.adoption == Some(adoption)
  }

  /**
    What the execution will write as the adoption of its final record is the given one: since `steps`
    it has last read the record again successfully, or it has not read it and had the adoption before.
   */
  ghost predicate Informed(
    machine: string, start: State, steps: seq<Step>, more: seq<Step>, i: nat, adoption: W.Adoption)
  {
    if more == [] then
      var s := Run(machine, start, steps);
      i < |s.executions| && s.executions[i].phase == Marking(Some(adoption))
    else
      var rest, last := more[..|more| - 1], more[|more| - 1];
      var s := Run(machine, start, steps + rest);
      if Goes(s, last, i) && s.executions[i].phase.Working? && last.turn.command.None? then last.turn.readable
      else Informed(machine, start, steps, rest, i, adoption)
  }

  /** After these steps, a clean-up, a claim, or the final record of a repair that does not know the adoption. */
  ghost predicate Drops(
    machine: string, start: State, steps: seq<Step>, more: seq<Step>, step: Step, adoption: W.Adoption)
  {
    var s := Run(machine, start, steps + more);
    || CleansUp(s, step)
    || (step.Go? && Puts(s, step, step.execution)
        && (s.executions[step.execution].phase.Claiming?
            || (s.executions[step.execution].phase.Marking?
                && !Informed(machine, start, steps, more, step.execution, adoption))))
  }

  /** The adoption is in the record after each of the steps `more`. */
  ghost predicate KeptThroughout(
    machine: string, start: State, steps: seq<Step>, more: seq<Step>, adoption: W.Adoption)
  {
    && HasAdoption(Run(machine, start, steps + more), adoption)
    && (more != [] ==> KeptThroughout(machine, start, steps, more[..|more| - 1], adoption))
  }

  /** None of the steps `more` drops it. */
  ghost predicate NothingDrops(
    machine: string, start: State, steps: seq<Step>, more: seq<Step>, adoption: W.Adoption)
  {
    more != [] ==>
      var rest, last := more[..|more| - 1], more[|more| - 1];
      NothingDrops(machine, start, steps, rest, adoption) && !Drops(machine, start, steps, rest, last, adoption)
  }

  /** Who is about to write the final record carries the adoption exactly when informed of it. */
  ghost predicate MarkersCarry(
    machine: string, start: State, steps: seq<Step>, more: seq<Step>, adoption: W.Adoption)
  {
    var s := Run(machine, start, steps + more);
    forall i :: 0 <= i < |s.executions| && s.executions[i].phase.Marking? ==>
      (s.executions[i].phase.adoption == Some(adoption) <==> Informed(machine, start, steps, more, i, adoption))
  }

  /** Whether an execution is informed changes only when it reads again. */
  lemma InformedAfter(
    machine: string, start: State, steps: seq<Step>, more: seq<Step>, step: Step, i: nat, adoption: W.Adoption)
    ensures var s := Run(machine, start, steps + more);
            Informed(machine, start, steps, more + [step], i, adoption) ==
            if Goes(s, step, i) && s.executions[i].phase.Working? && step.turn.command.None? then step.turn.readable
            else Informed(machine, start, steps, more, i, adoption)
  {
    assert (more + [step])[..|more|] == more;
  }

  lemma MarkerAfter(machine: string, s: State, step: Step, i: nat, adoption: W.Adoption)
    requires HasAdoption(s, adoption)
    requires i < |Next(machine, s, step).executions| && Next(machine, s, step).executions[i].phase.Marking?
    ensures var carried := Next(machine, s, step).executions[i].phase.adoption;
            && i < |s.executions|
            && if Goes(s, step, i) && s.executions[i].phase.Working? && step.turn.command.None?
               then carried == Some(adoption) <==> step.turn.readable
               else s.executions[i].phase == Marking(carried)
  {
  }

  lemma MarkersCarryAfter(
    machine: string, start: State, steps: seq<Step>, more: seq<Step>, step: Step, adoption: W.Adoption)
    requires HasAdoption(Run(machine, start, steps + more), adoption)
    requires MarkersCarry(machine, start, steps, more, adoption)
    ensures MarkersCarry(machine, start, steps, more + [step], adoption)
  {
    var s := Run(machine, start, steps + more);
    assert Run(machine, start, steps + (more + [step])) == Next(machine, s, step) by {
      RunStep(machine, start, steps + more, step);
      assert steps + (more + [step]) == (steps + more) + [step];
    }
    var t := Next(machine, s, step);
    forall i | 0 <= i < |t.executions| && t.executions[i].phase.Marking?
      ensures t.executions[i].phase.adoption == Some(adoption) <==>
              Informed(machine, start, steps, more + [step], i, adoption)
    {
      MarkerAfter(machine, s, step, i, adoption);
      InformedAfter(machine, start, steps, more, step, i, adoption);
    }
  }

  /** One step keeps the adoption exactly unless it drops it. */
  lemma KeptAfter(
    machine: string, start: State, steps: seq<Step>, more: seq<Step>, step: Step, adoption: W.Adoption)
    requires CreatorsApart(Run(machine, start, steps + more))
    requires HasAdoption(Run(machine, start, steps + more), adoption)
    requires MarkersCarry(machine, start, steps, more, adoption)
    ensures HasAdoption(Run(machine, start, (steps + more) + [step]), adoption) <==>
            !Drops(machine, start, steps, more, step, adoption)
  {
    RunStep(machine, start, steps + more, step);
  }

  /**
    Under overlap too: from any moment at which the record has the adoption on, it stays if and only
    if no clean-up and no claim lands, and every repair that writes its final record knows the
    adoption: its second reading came later and succeeded, or had already found that same adoption.
   */
  lemma {:induction false} AdoptionKeptExactly(
    machine: string, start: State, steps: seq<Step>, more: seq<Step>, adoption: W.Adoption)
    requires IsInitial(start) && HasAdoption(Run(machine, start, steps), adoption)
    ensures KeptThroughout(machine, start, steps, more, adoption) <==>
            NothingDrops(machine, start, steps, more, adoption)
    ensures KeptThroughout(machine, start, steps, more, adoption) ==>
              MarkersCarry(machine, start, steps, more, adoption)
  {
    if more == [] {
      assert steps + more == steps;
    } else {
      var rest, last := more[..|more| - 1], more[|more| - 1];
      AdoptionKeptExactly(machine, start, steps, rest, adoption);
      assert steps + more == (steps + rest) + [last] && rest + [last] == more;
      if KeptThroughout(machine, start, steps, rest, adoption) {
        CreatorsStayApart(machine, start, steps + rest);
        KeptAfter(machine, start, steps, rest, last, adoption);
        MarkersCarryAfter(machine, start, steps, rest, last, adoption);
      }
    }
  }

  // the steps that put a stale adoption back; `first` and `second` are two takeovers

  /** The repair has read the record again; then the first takeover's sync fails and it cleans up. */
  function UntilRetracted(first: W.Adoption): seq<Step> {
    UntilFound(first) + [Go(1, Turn(true, true, true, None))] + [Call(0, false)] + [Call(0, true)]
  }

  /** Then a second takeover creates its record. */
  function UntilAdoptedAnew(first: W.Adoption, second: W.Adoption): seq<Step> {
    UntilRetracted(first) + [Begin(Takeover(second))] + [Call(2, true)] + [Call(2, true)] + [Call(2, true)]
  }

  lemma AfterUntilRetracted(machine: string, start: State, first: W.Adoption)
    requires IsInitial(start) && start.disk.file.Missing?
    ensures var s := Run(machine, start, UntilRetracted(first));
            && s.executions == [Execution(Takeover(first), Over), Execution(Repair, Marking(Some(first)))]
            && s.disk.file.Missing?
  {
    var found, again := UntilFound(first), Go(1, Turn(true, true, true, None));
    AfterUntilFound(machine, start, first);
    RunStep(machine, start, found, again);
    RunStep(machine, start, found + [again], Call(0, false));
    RunStep(machine, start, found + [again] + [Call(0, false)], Call(0, true));
  }

  lemma AfterUntilAdoptedAnew(machine: string, start: State, first: W.Adoption, second: W.Adoption)
    requires IsInitial(start) && start.disk.file.Missing?
    ensures var s := Run(machine, start, UntilAdoptedAnew(first, second));
            && |s.executions| == 3 && s.executions[1] == Execution(Repair, Marking(Some(first)))
            && s.disk.file == Held(W.Ownership(machine, W.ADOPTED, Some(second)))
  {
    var begun := UntilRetracted(first) + [Begin(Takeover(second))];
    AfterUntilRetracted(machine, start, first);
    RunStep(machine, start, UntilRetracted(first), Begin(Takeover(second)));
    RunStep(machine, start, begun, Call(2, true));
    RunStep(machine, start, begun + [Call(2, true)], Call(2, true));
    RunStep(machine, start, begun + [Call(2, true)] + [Call(2, true)], Call(2, true));
  }

  /**
    Although its second reading succeeded, a repair can replace an adoption by an older one: it read
    the record of a takeover that then failed, and writes after another takeover made its own.
   */
  lemma StaleReadingReplacesAdoption(machine: string, start: State, first: W.Adoption, second: W.Adoption)
    requires IsInitial(start) && start.disk.file.Missing?
    ensures var anew, last := UntilAdoptedAnew(first, second), Call(1, true);
            && HasAdoption(Run(machine, start, anew), second)
            && Run(machine, start, anew + [last]).disk.file == Held(W.Ownership(machine, W.MANAGED, Some(first)))
            && (Drops(machine, start, anew, [], last, second) <==> first != second)
  {
    var anew, last := UntilAdoptedAnew(first, second), Call(1, true);
    AfterUntilAdoptedAnew(machine, start, first, second);
    RunStep(machine, start, anew, last);
    assert anew + [] == anew;
  }

  // ----- one repair alone

  function Alone(machine: string, d: Disk, e: Execution, turns: seq<Turn>): (Disk, Execution) {
    if turns == [] then (d, e)
    else
      var before := Alone(machine, d, e, turns[..|turns| - 1]);
      Advance(machine, before.0, before.1, turns[|turns| - 1])
  }

  /** The record a repair works under: the one it found, or its claim. */
  predicate IsClaimed(machine: string, before: W.OwnershipRecord, file: W.OwnershipRecord) {
    && W.OwnedBy(file, machine)
    && file == if before.Missing? then Held(W.Ownership(machine, W.INSTALLING, None)) else before
  }

  /** Read again, or lost because the reading failed. */
  predicate IsCarried(before: W.OwnershipRecord, adoption: Option<W.Adoption>) {
    adoption == W.CarriedAdoption(before, true) || adoption == W.CarriedAdoption(before, false)
  }

  /** What the handler's contract allows a repair to leave behind. */
  predicate IsRepaired(machine: string, before: W.OwnershipRecord, file: W.OwnershipRecord) {
    || file == before
    || IsClaimed(machine, before, file)
    || (file.Held? && file.record.machineId == machine && file.record.state == W.MANAGED
        && IsCarried(before, file.record.adoption))
  }

  /** With nothing in between, the record a repair leaves is one the sequential handler leaves. */
  lemma {:induction false} RepairAlone(machine: string, d: Disk, turns: seq<Turn>)
    ensures var (after, e) := Alone(machine, d, Execution(Repair, Looking), turns);
            && e.job.Repair? && IsRepaired(machine, d.file, after.file)
            && (e.phase.Looking? ==> after == d)
            && (e.phase.Claiming? ==> after == d && d.file.Missing?)
            && (HasRecord(e.phase) ==> IsClaimed(machine, d.file, after.file))
            && (e.phase.Marking? ==> IsCarried(d.file, e.phase.adoption))
            && !e.phase.Creating? && !e.phase.Filling? && !e.phase.Syncing? && !e.phase.Cleaning?
  {
    if turns != [] {
      RepairAlone(machine, d, turns[..|turns| - 1]);
    }
  }
}
