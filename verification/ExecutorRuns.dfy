/**
  Every run of the agent's command loops over one durable store.

  A control session runs one command loop; a loop of a cancelled session can still be inside
  `Execute` when the next session starts one, so any number of loops interleave. `Get` and `Put`
  hold the store's mutex and are one step each. A crash ends every loop and keeps the disk;
  it may strike inside `Put`, before or after the rename.
 */
module ExecutorRuns {
  import opened AtomicFile
  import opened CommandStore
  import opened Executor

  datatype Loop =
    | Idle
    | Validated(command: Command)
    | Missed(command: Command)
    | Running(command: Command)
    | Finished(command: Command, result: CommandResult, ran: bool)

  /** `watched` is the key whose handler runs are tallied; it can be any key. */
  datatype Config = Config(pathFor: string -> string, handlers: set<string>, watched: string)

  /**
    How the handler runs of the watched key ended: lost in a crash, result not storable,
    outrun by a record stored meanwhile, or stored.
   */
  datatype Tally = Tally(started: nat, crashed: nat, failed: nat, outrun: nat, stored: nat)

  /** `returned` pairs every result sent back with the key it was asked for. */
  datatype State = State(disk: Disk, loops: seq<Loop>, returned: set<(string, CommandResult)>, tally: Tally)

  datatype Step =
    | Connect
    | Take(loop: nat, command: Command, now: int)
    | Read(loop: nat, readable: bool, error: string, now: int)
    | Start(loop: nat, now: int)
    | Finish(loop: nat, outcome: HandlerOutcome, now: int)
    | Persist(loop: nat, readable: bool, fault: Fault, error: string, now: int)
    | Crash

  const INITIAL := State(map[], [], {}, Tally(0, 0, 0, 0, 0))

  /** 1 for a loop whose handler run of the key is in progress or waits to be stored. */
  function RunOf(loop: Loop, key: string): nat {
    if (loop.Running? || (loop.Finished? && loop.ran)) && loop.command.idempotencyKey == key then 1 else 0
  }

  function InFlight(loops: seq<Loop>, key: string): nat {
    if loops == [] then 0 else InFlight(loops[..|loops| - 1], key) + RunOf(loops[|loops| - 1], key)
  }

  // ----- the effect of each kind of step

  function Die(c: Config, s: State): State {
    s.(loops := [], tally := s.tally.(crashed := s.tally.crashed + InFlight(s.loops, c.watched)))
  }

  function Move(s: State, i: nat, loop: Loop): State
    requires i < |s.loops|
  {
    s.(loops := s.loops[i := loop])
  }

  function Answer(s: State, i: nat, key: string, result: CommandResult): State
    requires i < |s.loops|
  {
    Move(s, i, Idle).(returned := s.returned + {(key, result)})
  }

  function AfterRead(s: State, i: nat, command: Command, lookup: Lookup, failure: CommandResult): State
    requires i < |s.loops|
  {
    match lookup
    case Found(existing) => Answer(s, i, command.idempotencyKey, existing)
    case Unreadable => Answer(s, i, command.idempotencyKey, failure)
    case Absent => Move(s, i, Missed(command))
  }

  function Launch(c: Config, s: State, i: nat, command: Command): State
    requires i < |s.loops|
  {
    Move(s, i, Running(command)).(tally := s.tally.(started := s.tally.started + RunOf(Running(command), c.watched)))
  }

  function Commit(c: Config, s: State, i: nat, now: int): State
    requires i < |s.loops| && s.loops[i].Finished?
  {
    var Finished(command, result, _) := s.loops[i];
    Move(s, i, Idle).(
      disk := FileUnder(c.pathFor, s.disk, command.idempotencyKey, result, now),
      tally := s.tally.(stored := s.tally.stored + RunOf(s.loops[i], c.watched)))
  }

  function Outrun(c: Config, s: State, i: nat, existing: CommandResult): State
    requires i < |s.loops| && s.loops[i].Finished?
  {
    Answer(s, i, s.loops[i].command.idempotencyKey, existing).(
      tally := s.tally.(outrun := s.tally.outrun + RunOf(s.loops[i], c.watched)))
  }

  function GiveUp(c: Config, s: State, i: nat, failure: CommandResult): State
    requires i < |s.loops| && s.loops[i].Finished?
  {
    Answer(s, i, s.loops[i].command.idempotencyKey, failure).(
      tally := s.tally.(failed := s.tally.failed + RunOf(s.loops[i], c.watched)))
  }

  function AfterPut(c: Config, s: State, i: nat, lookup: Lookup, fault: Fault, now: int, failure: CommandResult): State
    requires i < |s.loops| && s.loops[i].Finished?
  {
    var Finished(command, result, _) := s.loops[i];
    match FileStore.Answer(lookup, result, fault)
    case Stored(_) => var t := Commit(c, s, i, now); t.(returned := t.returned + {(command.idempotencyKey, result)})
    case Duplicate(existing) => Outrun(c, s, i, existing)
    case PutFailed => GiveUp(c, s, i, failure)
    case Died => if FileStore.Commits(lookup, fault) then Die(c, Commit(c, s, i, now)) else Die(c, s)
  }

  function Consult(c: Config, s: State, key: string, readable: bool): Lookup {
    if readable then LookupIn(c.pathFor, s.disk, key) else Unreadable
  }

  /** One step; a step that does not apply changes nothing. */
  function Next(c: Config, s: State, step: Step): State {
    match step
    case Connect => s.(loops := s.loops + [Idle])
    case Crash => Die(c, s)
    case Take(i, command, now) =>
      if i >= |s.loops| || !s.loops[i].Idle? then s
      else
        var invalid := ValidationError(command, now);
        if invalid.Some? then
          Answer(s, i, command.idempotencyKey, FailedResult(command, "INVALID_COMMAND", invalid.value, now))
        else Move(s, i, Validated(command))
    case Read(i, readable, error, now) =>
      if i >= |s.loops| || !s.loops[i].Validated? then s
      else
        var command := s.loops[i].command;
        AfterRead(s, i, command, Consult(c, s, command.idempotencyKey, readable),
          FailedResult(command, "STATE_READ_FAILED", SafeMessage(error), now))
    case Start(i, now) =>
      if i >= |s.loops| || !s.loops[i].Missed? then s
      else
        var command := s.loops[i].command;
        if command.kind in c.handlers then Launch(c, s, i, command)
        else Move(s, i, Finished(command, UnsupportedResult(command, now), false))
    case Finish(i, outcome, now) =>
      if i >= |s.loops| || !s.loops[i].Running? then s
      else Move(s, i, Finished(s.loops[i].command, ResultOf(s.loops[i].command, outcome, now), true))
    case Persist(i, readable, fault, error, now) =>
      if i >= |s.loops| || !s.loops[i].Finished? then s
      else
        var command := s.loops[i].command;
        AfterPut(c, s, i, Consult(c, s, command.idempotencyKey, readable), fault, now,
          FailedResult(command, "STATE_WRITE_FAILED", SafeMessage(error), now))
  }

  function Run(c: Config, s: State, steps: seq<Step>): State {
    if steps == [] then s else Next(c, Run(c, s, steps[..|steps| - 1]), steps[|steps| - 1])
  }

  // ----- what every step keeps

  ghost predicate Honest(c: Config, disk: Disk, key: string, result: CommandResult) {
    result.errorCode in UNSTORED_CODES || LookupIn(c.pathFor, disk, key) == Found(result)
  }

  ghost predicate Balanced(c: Config, s: State) {
    && s.tally.started ==
      InFlight(s.loops, c.watched) + s.tally.crashed + s.tally.failed + s.tally.outrun + s.tally.stored
    && s.tally.stored <= 1
    && (s.tally.stored == 1 ==> LookupIn(c.pathFor, s.disk, c.watched).Found?)
  }

  ghost predicate AllHonest(c: Config, s: State) {
    forall pair :: pair in s.returned ==> Honest(c, s.disk, pair.0, pair.1)
  }

  ghost predicate Inv(c: Config, s: State) {
    WellFiled(c.pathFor, s.disk) && AllHonest(c, s) && Balanced(c, s)
  }

  lemma {:induction false} InFlightUpdate(loops: seq<Loop>, i: nat, loop: Loop, key: string)
    requires i < |loops|
    ensures InFlight(loops[i := loop], key) + RunOf(loops[i], key) == InFlight(loops, key) + RunOf(loop, key)
  {
    var n := |loops| - 1;
    if i < n {
      InFlightUpdate(loops[..n], i, loop, key);
      assert loops[i := loop][..n] == loops[..n][i := loop];
    } else {
      assert loops[i := loop][..n] == loops[..n];
    }
  }

  lemma MoveKeepsInv(c: Config, s: State, i: nat, loop: Loop)
    requires Inv(c, s) && i < |s.loops| && RunOf(loop, c.watched) == RunOf(s.loops[i], c.watched)
    ensures Inv(c, Move(s, i, loop))
  {
    InFlightUpdate(s.loops, i, loop, c.watched);
  }

  lemma AnswerKeepsInv(c: Config, s: State, i: nat, key: string, result: CommandResult)
    requires Inv(c, s) && i < |s.loops| && RunOf(s.loops[i], c.watched) == 0
    requires Honest(c, s.disk, key, result)
    ensures Inv(c, Answer(s, i, key, result))
  {
    MoveKeepsInv(c, s, i, Idle);
  }

  lemma CommitKeepsInv(c: Config, s: State, i: nat, now: int)
    requires Inv(c, s) && i < |s.loops| && s.loops[i].Finished?
    requires LookupIn(c.pathFor, s.disk, s.loops[i].command.idempotencyKey).Absent?
    ensures Inv(c, Commit(c, s, i, now))
    ensures Honest(c, Commit(c, s, i, now).disk, s.loops[i].command.idempotencyKey, s.loops[i].result)
  {
    InFlightUpdate(s.loops, i, Idle, c.watched);
    var t := Commit(c, s, i, now);
    forall pair | pair in t.returned
      ensures Honest(c, t.disk, pair.0, pair.1)
    {
      assert Honest(c, s.disk, pair.0, pair.1);
    }
  }

  lemma AfterPutKeepsInv(c: Config, s: State, i: nat, readable: bool, fault: Fault, now: int, failure: CommandResult)
    requires Inv(c, s) && i < |s.loops| && s.loops[i].Finished? && failure.errorCode in UNSTORED_CODES
    ensures Inv(c, AfterPut(c, s, i, Consult(c, s, s.loops[i].command.idempotencyKey, readable), fault, now, failure))
  {
    var lookup := Consult(c, s, s.loops[i].command.idempotencyKey, readable);
    InFlightUpdate(s.loops, i, Idle, c.watched);
    if FileStore.Commits(lookup, fault) {
      CommitKeepsInv(c, s, i, now);
    }
  }

  lemma ConnectKeepsInv(c: Config, s: State)
    requires Inv(c, s)
    ensures Inv(c, s.(loops := s.loops + [Idle]))
  {
    assert (s.loops + [Idle])[..|s.loops|] == s.loops;
  }

  lemma NextKeepsInv(c: Config, s: State, step: Step)
    requires Inv(c, s)
    ensures Inv(c, Next(c, s, step))
  {
    if Next(c, s, step) != s {
      match step
      case Connect => ConnectKeepsInv(c, s);
      case Crash =>
      case Take(i, command, now) =>
        var invalid := ValidationError(command, now);
        if invalid.Some? {
          AnswerKeepsInv(c, s, i, command.idempotencyKey, FailedResult(command, "INVALID_COMMAND", invalid.value, now));
        } else {
          MoveKeepsInv(c, s, i, Validated(command));
        }
      case Read(i, readable, error, now) =>
        var command := s.loops[i].command;
        match Consult(c, s, command.idempotencyKey, readable) {
          case Found(existing) => AnswerKeepsInv(c, s, i, command.idempotencyKey, existing);
          case Unreadable =>
            AnswerKeepsInv(c, s, i, command.idempotencyKey,
                FailedResult(command, "STATE_READ_FAILED", SafeMessage(error), now));
          case Absent => MoveKeepsInv(c, s, i, Missed(command));
        }
      case Start(i, now) =>
        var command := s.loops[i].command;
        if command.kind in c.handlers {
          InFlightUpdate(s.loops, i, Running(command), c.watched);
        } else {
          MoveKeepsInv(c, s, i, Finished(command, UnsupportedResult(command, now), false));
        }
      case Finish(i, outcome, now) =>
        MoveKeepsInv(c, s, i, Finished(s.loops[i].command, ResultOf(s.loops[i].command, outcome, now), true));
      case Persist(i, readable, fault, error, now) =>
        AfterPutKeepsInv(c, s, i, readable, fault, now,
            FailedResult(s.loops[i].command, "STATE_WRITE_FAILED", SafeMessage(error), now));
    }
  }

  lemma {:induction false} RunKeepsInv(c: Config, steps: seq<Step>)
    ensures Inv(c, Run(c, INITIAL, steps))
  {
    if steps != [] {
      RunKeepsInv(c, steps[..|steps| - 1]);
      NextKeepsInv(c, Run(c, INITIAL, steps[..|steps| - 1]), steps[|steps| - 1]);
    }
  }

  // ----- main results

  /**
    Agreement: over every interleaving, with crashes and restarts anywhere, all results returned
    for one key, other than the executor's own failures, are the record on disk.
   */
  lemma Agreement(c: Config, steps: seq<Step>, key: string, a: CommandResult, b: CommandResult)
    requires (key, a) in Run(c, INITIAL, steps).returned && a.errorCode !in UNSTORED_CODES
    requires (key, b) in Run(c, INITIAL, steps).returned && b.errorCode !in UNSTORED_CODES
    ensures a == b
    ensures LookupIn(c.pathFor, Run(c, INITIAL, steps).disk, key) == Found(a)
  {
    RunKeepsInv(c, steps);
    assert Honest(c, Run(c, INITIAL, steps).disk, (key, a).0, (key, a).1);
    assert Honest(c, Run(c, INITIAL, steps).disk, (key, b).0, (key, b).1);
  }

  lemma NextKeepsRecords(c: Config, s: State, step: Step, key: string)
    requires LookupIn(c.pathFor, s.disk, key).Found?
    ensures LookupIn(c.pathFor, Next(c, s, step).disk, key) == LookupIn(c.pathFor, s.disk, key)
  {
  }

  /** A stored record survives every later step of every run, crashes included. */
  lemma {:induction false} RecordsNeverChange(c: Config, s: State, steps: seq<Step>, key: string)
    requires LookupIn(c.pathFor, s.disk, key).Found?
    ensures LookupIn(c.pathFor, Run(c, s, steps).disk, key) == LookupIn(c.pathFor, s.disk, key)
  {
    if steps != [] {
      RecordsNeverChange(c, s, steps[..|steps| - 1], key);
      NextKeepsRecords(c, Run(c, s, steps[..|steps| - 1]), steps[|steps| - 1], key);
    }
  }

  /**
    Conservation: every handler run of a key that ever started is in progress, was lost in a crash,
    failed to store its result, was outrun by a stored record, or is the one that was stored.
   */
  lemma RunsAreConserved(c: Config, steps: seq<Step>)
    ensures var s := Run(c, INITIAL, steps);
            && s.tally.started ==
              InFlight(s.loops, c.watched) + s.tally.crashed + s.tally.failed + s.tally.outrun + s.tally.stored
            && s.tally.stored <= 1
            && (s.tally.stored == 1 ==> LookupIn(c.pathFor, s.disk, c.watched).Found?)
  {
    RunKeepsInv(c, steps);
  }

  // ----- executions of one key that do not overlap

  /** The loop is past its `Get` for the key and not yet past its `Put`. */
  predicate Works(loop: Loop, key: string) {
    (loop.Missed? || loop.Running? || loop.Finished?) && loop.command.idempotencyKey == key
  }

  ghost predicate Solo(loops: seq<Loop>, key: string) {
    forall i, j :: 0 <= i < j < |loops| ==> !(Works(loops[i], key) && Works(loops[j], key))
  }

  ghost predicate AlwaysSolo(c: Config, steps: seq<Step>) {
    forall n {:trigger steps[..n]} :: 0 <= n <= |steps| ==> Solo(Run(c, INITIAL, steps[..n]).loops, c.watched)
  }

  ghost predicate NothingStoredYet(c: Config, s: State) {
    forall i :: 0 <= i < |s.loops| && Works(s.loops[i], c.watched) ==> !LookupIn(c.pathFor, s.disk, c.watched).Found?
  }

  lemma AfterPutKeepsSolitude(
    c: Config, s: State, i: nat, readable: bool, fault: Fault, now: int, failure: CommandResult)
    requires Solo(s.loops, c.watched) && NothingStoredYet(c, s) && s.tally.outrun == 0
    requires i < |s.loops| && s.loops[i].Finished?
    ensures var t := AfterPut(c, s, i, Consult(c, s, s.loops[i].command.idempotencyKey, readable), fault, now, failure);
            NothingStoredYet(c, t) && t.tally.outrun == 0
  {
    var t := AfterPut(c, s, i, Consult(c, s, s.loops[i].command.idempotencyKey, readable), fault, now, failure);
    assert RunOf(s.loops[i], c.watched) == 1 ==> Works(s.loops[i], c.watched);
    forall j | 0 <= j < |t.loops| && Works(t.loops[j], c.watched)
      ensures !LookupIn(c.pathFor, t.disk, c.watched).Found?
    {
      assert j != i && t.loops[j] == s.loops[j];
    }
  }

  lemma NextKeepsSolitude(c: Config, s: State, step: Step)
    requires Solo(s.loops, c.watched) && NothingStoredYet(c, s) && s.tally.outrun == 0
    ensures NothingStoredYet(c, Next(c, s, step)) && Next(c, s, step).tally.outrun == 0
  {
    if step.Persist? && Next(c, s, step) != s {
      AfterPutKeepsSolitude(c, s, step.loop, step.readable, step.fault, step.now,
        FailedResult(s.loops[step.loop].command, "STATE_WRITE_FAILED", SafeMessage(step.error), step.now));
    }
  }

  lemma {:induction false} RunKeepsSolitude(c: Config, steps: seq<Step>)
    requires AlwaysSolo(c, steps)
    ensures NothingStoredYet(c, Run(c, INITIAL, steps)) && Run(c, INITIAL, steps).tally.outrun == 0
  {
    if steps != [] {
      var before := steps[..|steps| - 1];
      forall n | 0 <= n <= |before|
        ensures Solo(Run(c, INITIAL, before[..n]).loops, c.watched)
      {
        assert before[..n] == steps[..n];
      }
      RunKeepsSolitude(c, before);
      assert before == before[..|before|];
      NextKeepsSolitude(c, Run(c, INITIAL, before), steps[|steps| - 1]);
    }
  }

  lemma {:induction false} InFlightIsWork(loops: seq<Loop>, key: string)
    requires Solo(loops, key)
    ensures InFlight(loops, key) <= 1
    ensures InFlight(loops, key) > 0 ==> exists i :: 0 <= i < |loops| && Works(loops[i], key)
  {
    if loops != [] {
      var n := |loops| - 1;
      InFlightIsWork(loops[..n], key);
      if InFlight(loops[..n], key) > 0 {
        var i :| 0 <= i < n && Works(loops[..n][i], key);
        assert Works(loops[i], key);
        assert !Works(loops[n], key);
      } else if RunOf(loops[n], key) == 1 {
        assert Works(loops[n], key);
      }
    }
  }

  /**
    Without overlap a key's handler runs at most once more than its runs lost to crashes and
    failed writes, and none of its runs is outrun.
   */
  lemma AtMostOneExtraRun(c: Config, steps: seq<Step>)
    requires AlwaysSolo(c, steps)
    ensures var tally := Run(c, INITIAL, steps).tally;
            tally.started <= 1 + tally.crashed + tally.failed && tally.outrun == 0
  {
    var s := Run(c, INITIAL, steps);
    RunKeepsInv(c, steps);
    RunKeepsSolitude(c, steps);
    assert steps == steps[..|steps|];
    InFlightIsWork(s.loops, c.watched);
  }

  /** Handler runs of the key that are in progress, were outrun or are stored: all but the lost and the failed ones. */
  function Unsettled(c: Config, s: State): nat {
    InFlight(s.loops, c.watched) + s.tally.outrun + s.tally.stored
  }

  /** In this step the key's handler is started. */
  predicate Launches(c: Config, s: State, step: Step) {
    && step.Start? && step.loop < |s.loops| && s.loops[step.loop].Missed?
    && s.loops[step.loop].command.kind in c.handlers && s.loops[step.loop].command.idempotencyKey == c.watched
  }

  predicate WithinBound(tally: Tally) {
    tally.started <= 1 + tally.crashed + tally.failed
  }

  /** The bound holds after every step. */
  ghost predicate AlwaysWithinBound(c: Config, steps: seq<Step>) {
    WithinBound(Run(c, INITIAL, steps).tally) && (steps != [] ==> AlwaysWithinBound(c, steps[..|steps| - 1]))
  }

  /** The handler is never started while a run of it is in progress, was outrun or is stored. */
  ghost predicate NeverStartedAgain(c: Config, steps: seq<Step>) {
    steps != [] ==>
      var before, last := steps[..|steps| - 1], steps[|steps| - 1];
      && NeverStartedAgain(c, before)
      && (Launches(c, Run(c, INITIAL, before), last) ==> Unsettled(c, Run(c, INITIAL, before)) == 0)
  }

  lemma TallyAfter(c: Config, s: State, step: Step)
    ensures var t := Next(c, s, step).tally;
            && t.started == s.tally.started + (if Launches(c, s, step) then 1 else 0)
            && t.crashed + t.failed >= s.tally.crashed + s.tally.failed
            && (Launches(c, s, step) ==> t.crashed == s.tally.crashed && t.failed == s.tally.failed)
  {
  }

  /**
    The guard under which overlap is harmless: the bound holds throughout a run if and only if the
    key's handler is never started while a run of it is in progress, was outrun or is stored.
   */
  lemma {:induction false} OneExtraRunExactly(c: Config, steps: seq<Step>)
    ensures AlwaysWithinBound(c, steps) <==> NeverStartedAgain(c, steps)
  {
    RunsAreConserved(c, steps);
    if steps != [] {
      var before, last := steps[..|steps| - 1], steps[|steps| - 1];
      RunsAreConserved(c, before);
      OneExtraRunExactly(c, before);
      TallyAfter(c, Run(c, INITIAL, before), last);
      if AlwaysWithinBound(c, before) {
        assert WithinBound(Run(c, INITIAL, before).tally);
      }
    }
  }

  lemma RunStep(c: Config, steps: seq<Step>, step: Step)
    ensures Run(c, INITIAL, steps + [step]) == Next(c, Run(c, INITIAL, steps), step)
  {
    assert (steps + [step])[..|steps|] == steps;
  }

  /** With overlap the bound fails: two sessions' loops run one key's handler twice and nothing goes wrong. */
  lemma OverlapRunsTwice(c: Config, command: Command)
    requires ValidationError(command, 0).None? && command.kind in c.handlers && command.idempotencyKey == c.watched
    ensures exists steps :: Run(c, INITIAL, steps).tally == Tally(2, 0, 0, 0, 0)
  {
    var s2 := [Connect] + [Connect];
    var s4 := s2 + [Take(0, command, 0)] + [Take(1, command, 0)];
    var s6 := s4 + [Read(0, true, "", 0)] + [Read(1, true, "", 0)];
    var s8 := s6 + [Start(0, 0)] + [Start(1, 0)];
    RunStep(c, [], Connect);
    RunStep(c, [Connect], Connect);
    RunStep(c, s2, Take(0, command, 0));
    RunStep(c, s2 + [Take(0, command, 0)], Take(1, command, 0));
    assert Run(c, INITIAL, s4) == INITIAL.(loops := [Validated(command), Validated(command)]);
    RunStep(c, s4, Read(0, true, "", 0));
    RunStep(c, s4 + [Read(0, true, "", 0)], Read(1, true, "", 0));
    assert Run(c, INITIAL, s6) == INITIAL.(loops := [Missed(command), Missed(command)]);
    RunStep(c, s6, Start(0, 0));
    RunStep(c, s6 + [Start(0, 0)], Start(1, 0));
    assert Run(c, INITIAL, s8).tally == Tally(2, 0, 0, 0, 0);
  }

  // ----- one execution by itself

  /** One `Execute` call on an idle loop, up to the start of the handler, and from there on. */
  function Before(c: Config, s: State, i: nat, command: Command, around: Surroundings): State {
    Next(c, Next(c, s, Take(i, command, around.now)), Read(i, around.firstReadable, around.storeError, around.now))
  }

  function After(c: Config, s: State, i: nat, around: Surroundings): State {
    Next(c, Next(c, Next(c, s, Start(i, around.now)), Finish(i, around.outcome, around.now)),
      Persist(i, around.secondReadable, around.fault, around.storeError, around.now))
  }

  ghost predicate Matches(c: Config, s: State, t: State, command: Command, call: Call) {
    && t.disk == call.disk
    && t.returned ==
      (if call.result.Some? then s.returned + {(command.idempotencyKey, call.result.value)} else s.returned)
    && t.tally.started == s.tally.started + (if call.ran && command.idempotencyKey == c.watched then 1 else 0)
  }

  lemma HandlerGivesProposed(c: Config, s: State, i: nat, command: Command, around: Surroundings)
    requires i < |s.loops| && s.loops[i] == Missed(command)
    ensures var t := Next(c, Next(c, s, Start(i, around.now)), Finish(i, around.outcome, around.now));
            && |t.loops| == |s.loops| && t.disk == s.disk && t.returned == s.returned
            && t.loops[i] == Finished(command, Proposed(c.handlers, command, around), command.kind in c.handlers)
            && t.tally.started ==
              s.tally.started + (if command.kind in c.handlers && command.idempotencyKey == c.watched then 1 else 0)
  {
  }

  lemma PutIsPersisted(c: Config, s: State, i: nat, around: Surroundings)
    requires i < |s.loops| && s.loops[i].Finished?
    ensures var Finished(command, result, _) := s.loops[i];
            var persisted := PersistOf(c.pathFor, s.disk, command, result, around);
            var t := Next(c, s, Persist(i, around.secondReadable, around.fault, around.storeError, around.now));
            Matches(c, s, t, command, Call(persisted.0, persisted.1, false))
  {
  }

  lemma MissedIsPersisted(c: Config, s: State, i: nat, command: Command, around: Surroundings)
    requires i < |s.loops| && s.loops[i] == Missed(command)
    ensures var persisted := PersistOf(c.pathFor, s.disk, command, Proposed(c.handlers, command, around), around);
            Matches(c, s, After(c, s, i, around), command, Call(persisted.0, persisted.1, command.kind in c.handlers))
  {
    HandlerGivesProposed(c, s, i, command, around);
    PutIsPersisted(c, Next(c, Next(c, s, Start(i, around.now)), Finish(i, around.outcome, around.now)), i, around);
  }

  lemma ReadAnswersOrMisses(c: Config, s: State, i: nat, command: Command, around: Surroundings)
    requires i < |s.loops| && s.loops[i] == Validated(command)
    ensures var t := Next(c, s, Read(i, around.firstReadable, around.storeError, around.now));
            && |t.loops| == |s.loops| && t.disk == s.disk && t.tally == s.tally
            && (t.loops[i] == Missed(command) ==>
                  t.returned == s.returned && Consult(c, s, command.idempotencyKey, around.firstReadable).Absent?)
            && (t.loops[i] != Missed(command) ==>
                  t.loops[i].Idle?
                    && Matches(c, s, t, command, ValidCallOf(c.pathFor, s.disk, c.handlers, command, around)))
  {
  }

  lemma IdleStays(c: Config, s: State, i: nat, around: Surroundings)
    requires i < |s.loops| && s.loops[i].Idle?
    ensures After(c, s, i, around) == s
  {
  }

  /** The interleaved machine refines the sequential call: run alone, its steps do what `CallOf` says. */
  lemma AloneItIsTheCall(c: Config, s: State, i: nat, command: Command, around: Surroundings)
    requires i < |s.loops| && s.loops[i].Idle?
    ensures Matches(c, s, After(c, Before(c, s, i, command, around), i, around), command,
                    CallOf(c.pathFor, s.disk, c.handlers, command, around))
  {
    var s1 := Next(c, s, Take(i, command, around.now));
    var t := Next(c, s1, Read(i, around.firstReadable, around.storeError, around.now));
    if ValidationError(command, around.now).Some? {
      assert t == s1 && t.loops[i].Idle?;
      IdleStays(c, t, i, around);
    } else {
      ReadAnswersOrMisses(c, s1, i, command, around);
      if t.loops[i] == Missed(command) {
        MissedIsPersisted(c, t, i, command, around);
      } else {
        IdleStays(c, t, i, around);
      }
    }
  }
}
