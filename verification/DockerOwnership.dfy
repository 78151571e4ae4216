/**
  Who owns the host's Docker: a healthy Docker is reused untouched, a broken one is repaired only
  under an own record, and a missing one is installed under a record created first.
 */
module DockerOwnership {
  import opened Wrappers
  import opened AtomicFile
  import opened Patterns
  import opened OwnershipFile

  datatype State = INSTALLING | MANAGED

  datatype Ownership = Ownership(machineId: string, state: State)

  /** What the reader of the file accepts. */
  predicate IsRecord(record: Ownership) {
    IsUuid(record.machineId)
  }

  type OwnershipRecord = RecordFile<Ownership>

  datatype Command = DockerVersion | AptUpdate | AptInstall | EnableService

  predicate IsMutating(c: Command) {
    c != DockerVersion
  }

  /** All commands but the version query change the host. */
  lemma WhatMutates(c: Command)
    ensures IsMutating(c) <==> c == AptUpdate || c == AptInstall || c == EnableService
  {}

  /** What may change about the record: none to a new one of some machine, and that one to managed. */
  lemma WhatFollows(machineId: string, other: Ownership)
    ensures var installing, managed := Held(Ownership(machineId, INSTALLING)), Held(Ownership(machineId, MANAGED));
            && (Follows(Missing, Held(other)) <==> other.state == INSTALLING)
            && Follows(Missing, Torn) && !Follows(Missing, Missing)
            && (Follows(installing, Held(other)) <==> Held(other) == managed)
            && (Follows(managed, Held(other)) <==> Held(other) == managed)
            && !Follows(installing, Missing) && !Follows(installing, Torn) && !Follows(managed, Torn)
            && !Follows(Torn, Held(other)) && !Follows(Torn, Missing)
  {}

  datatype Event = Event(command: Command, machineId: string, file: OwnershipRecord)

  predicate OwnedBy(file: OwnershipRecord, machineId: string) {
    file.Held? && file.record.machineId == machineId
  }

  /** Only a complete record owns anything, and only for its machine. */
  lemma WhoOwns(record: Ownership, machineId: string)
    ensures OwnedBy(Held(record), machineId) <==> record.machineId == machineId
    ensures !OwnedBy(Missing, machineId) && !OwnedBy(Torn, machineId)
  {}

  /** Every mutating command was preceded by an on-disk record naming the machine that issued it. */
  ghost predicate Guarded(trace: seq<Event>) {
    forall i :: 0 <= i < |trace| && IsMutating(trace[i].command) ==> OwnedBy(trace[i].file, trace[i].machineId)
  }

  ghost predicate Follows(a: OwnershipRecord, b: OwnershipRecord) {
    match a
    case Missing => b == Torn || (b.Held? && b.record.state == INSTALLING)
    case Torn => false
    case Held(o) => b == Held(Ownership(o.machineId, MANAGED))
  }

  ghost predicate Lawful(history: seq<OwnershipRecord>) {
    && history != [] && history[0] == Missing
    && forall i :: 0 < i < |history| ==> Follows(history[i - 1], history[i])
  }

  datatype Status = REUSED_EXTERNAL | REUSED_MANAGED | INSTALLED_MANAGED | REPAIRED_MANAGED

  datatype Outcome = Done(status: Status) | Failed | Died

  /** The host around one call: `runtimeTraces` are a daemon or socket without the command line tool. */
  datatype Surroundings = Surroundings(
    cliPresent: bool,
    readable: bool,
    supportedSystem: bool,
    runtimeTraces: bool,
    cliAppears: bool)

  const OWNERSHIP := "docker.json"

  /** The outcome of doing things in turn. */
  predicate ComesOf(outcome: Outcome, met: seq<Reply>, status: Status) {
    match InTurn(met)
    case Succeeds => outcome == Done(status)
    case Fails => outcome == Failed
    case Dies => outcome == Died
  }

  class Host {
    /** The directory of the ownership record, and the record its bytes hold. */
    var directory: Directory
    ghost var file: OwnershipRecord
    ghost var trace: seq<Event>
    /** The mutating commands of the trace, in order. */
    ghost var mutations: seq<Command>
    ghost var history: seq<OwnershipRecord>
    var clock: nat
    /** What the n-th command or write meets. */
    const replies: nat -> Reply
    const faults: nat -> Fault
    const encode: Ownership -> Bytes
    const decode: Bytes -> Option<Ownership>

    ghost predicate Valid()
      reads this
    {
      && Guarded(trace) && Lawful(history) && history[|history| - 1] == file
      && Codec(encode, decode, IsRecord) && Numbered(directory)
      && file == FileOf(ContentOf(directory, OWNERSHIP), decode)
    }

    /** The record is what the bytes under its name hold: torn when they are there and hold none. */
    lemma WhereTheRecordIs()
      requires Valid()
      ensures var bytes := ContentOf(directory, "docker.json");
              && (file.Missing? <==> bytes == None)
              && (forall record :: file == Held(record) <==> bytes.Some? && decode(bytes.value) == Some(record))
    {}

    ghost predicate AllSucceed() {
      forall n :: replies(n).Succeeds? && faults(n).NoFault?
    }

    constructor (
      replies: nat -> Reply, faults: nat -> Fault, encode: Ownership -> Bytes, decode: Bytes -> Option<Ownership>)
      requires Codec(encode, decode, IsRecord)
      ensures Valid() && file == Missing && trace == [] && mutations == []
      ensures this.replies == replies && this.faults == faults && this.encode == encode && this.decode == decode
    {
      this.replies, this.faults, this.encode, this.decode := replies, faults, encode, decode;
      directory, clock, file, trace, mutations := EMPTY, 0, Missing, [], [];
      history := [Missing];
    }

    /** `readable` is false when the operating system refuses to read an existing file. */
    method ReadOwnership(readable: bool) returns (reading: Reading<Ownership>)
      requires Valid()
      ensures reading == ReadingOf(file, readable)
    {
      reading := ReadingOf(FileOf(ContentOf(directory, OWNERSHIP), decode), readable);
    }

    method Run(command: Command, machineId: string) returns (reply: Reply)
      requires Valid() && (IsMutating(command) ==> OwnedBy(file, machineId))
      modifies this`trace, this`mutations, this`clock
      ensures Valid() && reply == replies(old(clock)) && clock == old(clock) + 1
      ensures trace == old(trace) + [Event(command, machineId, file)]
      ensures mutations == if IsMutating(command) then old(mutations) + [command] else old(mutations)
    {
      reply := replies(clock);
      trace, clock := trace + [Event(command, machineId, file)], clock + 1;
      if IsMutating(command) {
        mutations := mutations + [command];
      }
    }

    /** Marks an own record managed: every state a crash can leave holds the old record or the new one. */
    method WriteManaged(machineId: string) returns (reply: Reply, ghost states: seq<Directory>)
      requires Valid() && IsUuid(machineId) && OwnedBy(file, machineId)
      modifies this`directory, this`file, this`history, this`clock
      ensures Valid() && reply == ReplyTo(faults(old(clock)))
      ensures file == AfterRename(old(file), Ownership(machineId, MANAGED), faults(old(clock)))
      ensures states != [] && states[|states| - 1] == directory
      ensures forall i :: 0 <= i < |states| ==>
                FileOf(ContentOf(states[i], OWNERSHIP), decode) in {old(file), Held(Ownership(machineId, MANAGED))}
    {
      var fault, record := faults(clock), Ownership(machineId, MANAGED);
      clock := clock + 1;
      directory, states := Replace(directory, OWNERSHIP, encode(record), fault);
      if Lands(fault) {
        file := Held(record);
        history := history + [file];
      }
      reply := ReplyTo(fault);
    }

    /** Creates the record exclusively and fills it in place: a stop in between can leave a torn file. */
    method CreateInstalling(machineId: string) returns (reply: Reply)
      requires Valid() && IsUuid(machineId) && file.Missing?
      modifies this`directory, this`file, this`history, this`clock
      ensures Valid() && reply == CreationReply(faults(old(clock))) && clock == old(clock) + 1
      ensures var record := Ownership(machineId, INSTALLING);
              file == AfterCreation(record, |encode(record)|, faults(old(clock)))
    {
      var fault, record := faults(clock), Ownership(machineId, INSTALLING);
      clock := clock + 1;
      CreatedIsAfterCreation(encode, decode, IsRecord, record, fault);
      directory, reply := CreateExclusively(directory, OWNERSHIP, encode(record), fault);
      file := AfterCreation(record, |encode(record)|, fault);
      if !file.Missing? {
        history := history + [file];
      }
    }

    static function Failure(reply: Reply): Outcome {
      if reply.Dies? then Died else Failed
    }

    /** Enabling the service, the version, the record. */
    ghost function RepairMeets(n: nat): seq<Reply> {
      [replies(n)] + ([replies(n + 1)] + ([ReplyTo(faults(n + 2))] + []))
    }

    lemma RepairInTurn(n: nat)
      ensures InTurn(RepairMeets(n)) ==
              if !replies(n).Succeeds? then replies(n)
              else if !replies(n + 1).Succeeds? then replies(n + 1)
              else ReplyTo(faults(n + 2))
    {
      var last := [ReplyTo(faults(n + 2))] + [];
      OneInTurn(ReplyTo(faults(n + 2)), []);
      OneInTurn(replies(n + 1), last);
      OneInTurn(replies(n), [replies(n + 1)] + last);
    }

    /** Docker is there but does not answer: repaired only when this machine's record says it is ours. */
    method Repair(machineId: string, s: Surroundings) returns (outcome: Outcome)
      requires Valid() && IsUuid(machineId)
      modifies this
      ensures Valid() && old(trace) <= trace
      ensures !s.readable || !OwnedBy(old(file), machineId) ==>
                outcome == Failed && file == old(file) && trace == old(trace) && mutations == old(mutations)
      ensures file == old(file) || (OwnedBy(old(file), machineId) && file == Held(Ownership(machineId, MANAGED)))
      ensures outcome.Done? ==>
                outcome == Done(REPAIRED_MANAGED) && file == Held(Ownership(machineId, MANAGED))
                  && mutations == old(mutations) + [EnableService]
      ensures s.readable && OwnedBy(old(file), machineId) ==>
                var n := old(clock);
                ComesOf(outcome, RepairMeets(n), REPAIRED_MANAGED)
    {
      RepairInTurn(clock);
      var reading := ReadOwnership(s.readable);
      if !reading.Read? || reading.record.machineId != machineId {
        return Failed;
      }
      var reply := Run(EnableService, machineId);
      if !reply.Succeeds? {
        return Failure(reply);
      }
      reply := Run(DockerVersion, machineId);
      if !reply.Succeeds? {
        return Failure(reply);
      }
      var written, _ := WriteManaged(machineId);
      return if written.Succeeds? then Done(REPAIRED_MANAGED) else Failure(written);
    }

    /** Claims a host without Docker: an own record is kept, a new one is created when nothing of Docker is there. */
    method Claim(machineId: string, s: Surroundings) returns (reply: Reply)
      requires Valid() && IsUuid(machineId)
      modifies this`directory, this`file, this`history, this`clock
      ensures Valid()
      ensures reply.Succeeds? ==> OwnedBy(file, machineId)
      ensures s.readable && OwnedBy(old(file), machineId) ==> reply.Succeeds? && file == old(file)
      ensures file != old(file) ==>
                old(file).Missing? && !s.runtimeTraces
                  && (file == Torn || file == Held(Ownership(machineId, INSTALLING)))
      ensures s.readable && OwnedBy(old(file), machineId) ==> clock == old(clock)
      ensures s.readable && old(file).Missing? && !s.runtimeTraces ==>
                reply == CreationReply(faults(old(clock))) && clock == old(clock) + 1
      ensures !s.readable || old(file).Torn? || (old(file).Held? && old(file).record.machineId != machineId)
              || (old(file).Missing? && s.runtimeTraces) ==>
                reply.Fails? && file == old(file)
    {
      var reading := ReadOwnership(s.readable);
      match reading
      case Read(existing) => return if existing.machineId == machineId then Succeeds else Fails;
      case Unsafe => return Fails;
      case NotExist =>
        if s.runtimeTraces {
          return Fails;
        }
        reply := CreateInstalling(machineId);
    }

    method InstallPackages(machineId: string) returns (reply: Reply)
      requires Valid() && OwnedBy(file, machineId)
      modifies this`trace, this`mutations, this`clock
      ensures Valid() && old(trace) <= trace
      ensures reply.Succeeds? ==>
                mutations == old(mutations) + [AptUpdate, AptInstall, EnableService] && clock == old(clock) + 3
      ensures var n := old(clock);
              reply == if !replies(n).Succeeds? then replies(n)
                       else if !replies(n + 1).Succeeds? then replies(n + 1) else replies(n + 2)
    {
      reply := Run(AptUpdate, machineId);
      if !reply.Succeeds? {
        return;
      }
      reply := Run(AptInstall, machineId);
      if !reply.Succeeds? {
        return;
      }
      reply := Run(EnableService, machineId);
    }

    /** Under the record: update, install, enable, the command that must be there now, its version, the record. */
    ghost function SetupMeets(n: nat, s: Surroundings): seq<Reply> {
      [replies(n)] + ([replies(n + 1)] + ([replies(n + 2)] +
        ([Check(s.cliAppears)] + ([replies(n + 3)] + ([ReplyTo(faults(n + 4))] + [])))))
    }

    lemma SetupInTurn(n: nat, s: Surroundings)
      ensures InTurn(SetupMeets(n, s)) ==
              if !replies(n).Succeeds? then replies(n)
              else if !replies(n + 1).Succeeds? then replies(n + 1)
              else if !replies(n + 2).Succeeds? then replies(n + 2)
              else if !s.cliAppears then Fails
              else if !replies(n + 3).Succeeds? then replies(n + 3)
              else ReplyTo(faults(n + 4))
    {
      var last := [ReplyTo(faults(n + 4))] + [];
      var version := [replies(n + 3)] + last;
      var appears := [Check(s.cliAppears)] + version;
      var enabled := [replies(n + 2)] + appears;
      OneInTurn(ReplyTo(faults(n + 4)), []);
      OneInTurn(replies(n + 3), last);
      OneInTurn(Check(s.cliAppears), version);
      OneInTurn(replies(n + 2), appears);
      OneInTurn(replies(n + 1), enabled);
      OneInTurn(replies(n), [replies(n + 1)] + enabled);
    }

    /** What follows the claim: the packages, the command that must be there now, its version, the record. */
    method SetUp(machineId: string, s: Surroundings) returns (outcome: Outcome)
      requires Valid() && IsUuid(machineId) && OwnedBy(file, machineId)
      modifies this
      ensures Valid() && old(trace) <= trace
      ensures file == old(file) || file == Held(Ownership(machineId, MANAGED))
      ensures outcome.Done? ==>
                && outcome == Done(INSTALLED_MANAGED) && file == Held(Ownership(machineId, MANAGED)) && s.cliAppears
                && mutations == old(mutations) + [AptUpdate, AptInstall, EnableService]
      ensures ComesOf(outcome, SetupMeets(old(clock), s), INSTALLED_MANAGED)
    {
      SetupInTurn(clock, s);
      var reply := InstallPackages(machineId);
      if !reply.Succeeds? {
        return Failure(reply);
      }
      if !s.cliAppears {
        return Failed;
      }
      reply := Run(DockerVersion, machineId);
      if !reply.Succeeds? {
        return Failure(reply);
      }
      var written, _ := WriteManaged(machineId);
      return if written.Succeeds? then Done(INSTALLED_MANAGED) else Failure(written);
    }

    method Install(machineId: string, s: Surroundings) returns (outcome: Outcome)
      requires Valid() && IsUuid(machineId)
      modifies this
      ensures Valid() && old(trace) <= trace
      ensures old(file).Torn? || (old(file).Held? && old(file).record.machineId != machineId) || !s.supportedSystem ==>
                outcome == Failed && file == old(file) && trace == old(trace) && mutations == old(mutations)
      ensures file != old(file) ==> file == Torn || OwnedBy(file, machineId)
      ensures old(file).Held? && file != old(file) ==> file == Held(Ownership(machineId, MANAGED))
      ensures outcome.Done? ==>
                && outcome == Done(INSTALLED_MANAGED) && file == Held(Ownership(machineId, MANAGED)) && s.cliAppears
                && mutations == old(mutations) + [AptUpdate, AptInstall, EnableService]
      ensures (!s.readable || (old(file).Missing? && s.runtimeTraces)) ==> outcome == Failed
      ensures s.supportedSystem && s.readable && OwnedBy(old(file), machineId) ==>
                ComesOf(outcome, SetupMeets(old(clock), s), INSTALLED_MANAGED)
      ensures s.supportedSystem && s.readable && old(file).Missing? && !s.runtimeTraces ==>
                var n := old(clock);
                ComesOf(outcome, [CreationReply(faults(n))] + SetupMeets(n + 1, s), INSTALLED_MANAGED)
    {
      OneInTurn(CreationReply(faults(clock)), SetupMeets(clock + 1, s));
      if !s.supportedSystem {
        return Failed;
      }
      var reply := Claim(machineId, s);
      if !reply.Succeeds? {
        return Failure(reply);
      }
      outcome := SetUp(machineId, s);
    }

    method Execute(machineId: string, s: Surroundings) returns (outcome: Outcome)
      requires Valid()
      modifies this
      ensures Valid() && old(trace) <= trace
      ensures !IsUuid(machineId) ==> outcome == Failed && file == old(file) && trace == old(trace)
      ensures old(file).Torn? || (old(file).Held? && old(file).record.machineId != machineId) ==>
                file == old(file) && mutations == old(mutations)
                && (outcome.Done? ==> outcome.status == REUSED_EXTERNAL)
      ensures s.cliPresent && !OwnedBy(old(file), machineId) ==> file == old(file) && mutations == old(mutations)
      ensures IsUuid(machineId) && s.cliPresent && replies(old(clock)).Succeeds? ==>
                && file == old(file) && mutations == old(mutations)
                && outcome ==
                  Done(if s.readable && OwnedBy(old(file), machineId) then REUSED_MANAGED else REUSED_EXTERNAL)
      ensures outcome == Done(REPAIRED_MANAGED) ==>
                s.cliPresent && file == Held(Ownership(machineId, MANAGED))
                  && mutations == old(mutations) + [EnableService]
      ensures outcome == Done(INSTALLED_MANAGED) ==>
                !s.cliPresent && file == Held(Ownership(machineId, MANAGED))
                  && mutations == old(mutations) + [AptUpdate, AptInstall, EnableService]
      ensures IsUuid(machineId) && s.cliPresent && !replies(old(clock)).Succeeds? ==>
                if replies(old(clock)).Dies? then outcome == Died
                else if !s.readable || !OwnedBy(old(file), machineId) then outcome == Failed
                else
                  var n := old(clock) + 1;
                  ComesOf(outcome, RepairMeets(n), REPAIRED_MANAGED)
      ensures IsUuid(machineId) && !s.cliPresent ==>
                var n := old(clock);
                if !s.supportedSystem || !s.readable then outcome == Failed
                else if OwnedBy(old(file), machineId) then ComesOf(outcome, SetupMeets(n, s), INSTALLED_MANAGED)
                else if old(file).Missing? && !s.runtimeTraces then
                  ComesOf(outcome, [CreationReply(faults(n))] + SetupMeets(n + 1, s), INSTALLED_MANAGED)
                else outcome == Failed
    {
      if !IsUuid(machineId) {
        return Failed;
      }
      if !s.cliPresent {
        outcome := Install(machineId, s);
        return;
      }
      var reply := Run(DockerVersion, machineId);
      if reply.Dies? {
        return Died;
      }
      if reply.Succeeds? {
        var reading := ReadOwnership(s.readable);
        return Done(if reading.Read? && reading.record.machineId == machineId then REUSED_MANAGED else REUSED_EXTERNAL);
      }
      outcome := Repair(machineId, s);
    }
  }

  // ----- over whole runs

  /** A complete record stays, keeps its machine, and every later content is managed. */
  lemma {:induction false} MachineNeverChanges(history: seq<OwnershipRecord>, i: nat, j: nat)
    requires Lawful(history) && i < j < |history| && history[i].Held?
    ensures history[j] == Held(Ownership(history[i].record.machineId, MANAGED))
  {
    assert Follows(history[j - 1], history[j]);
    if i < j - 1 {
      MachineNeverChanges(history, i, j - 1);
    }
  }

  /** A torn file is never replaced: it blocks installing Docker for good. */
  lemma OnlyTheLastContentIsTorn(history: seq<OwnershipRecord>, i: nat)
    requires Lawful(history) && i + 1 < |history|
    ensures !history[i].Torn?
  {
    assert Follows(history[i], history[i + 1]);
  }

  /** Any sequence of calls, by any machine identities, keeps the trace guarded and the record's history lawful. */
  method Serve(host: Host, calls: seq<(string, Surroundings)>)
    requires host.Valid()
    modifies host
    ensures Guarded(host.trace) && Lawful(host.history) && host.history[|host.history| - 1] == host.file
  {
    for i := 0 to |calls|
      invariant host.Valid()
    {
      var _ := host.Execute(calls[i].0, calls[i].1);
    }
  }
}
