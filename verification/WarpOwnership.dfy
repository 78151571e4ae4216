/**
  Who owns the host's WARP: the ownership record, the handler that installs and repairs WARP, and
  the takeover of an existing one. The process may die inside any command or write.
 */
module WarpOwnership {
  import opened AtomicFile
  import opened Wrappers
  import opened Patterns
  import opened OwnershipFile

  datatype State = INSTALLING | ADOPTED | MANAGED

  datatype Adoption = Adoption(planId: string, at: int)

  datatype Ownership = Ownership(machineId: string, state: State, adoption: Option<Adoption>)

  /** What the reader of the file accepts. */
  predicate IsRecord(record: Ownership) {
    && IsUuid(record.machineId)
    && (record.state.ADOPTED? ==> record.adoption.Some? && IsUuid(record.adoption.value.planId))
  }

  type OwnershipRecord = RecordFile<Ownership>

  datatype Command =
    | RegistrationShow | Settings | StatusQuery | Version
    | DownloadKey | ImportKey | WriteSources | AptUpdate | AptInstall
    | EnableService | RegistrationNew | SetProtocol | SetMode | SetPort | Connect | PersistDesired

  predicate IsMutating(c: Command) {
    !(c.RegistrationShow? || c.Settings? || c.StatusQuery? || c.Version?)
  }

  /** Four commands only look. */
  lemma WhatMutates(c: Command)
    ensures !IsMutating(c) <==> c == RegistrationShow || c == Settings || c == StatusQuery || c == Version
  {}

  /** A command as issued: by which machine identity, and what the record was at that moment. */
  datatype Event = Event(command: Command, machineId: string, file: OwnershipRecord)

  predicate OwnedBy(file: OwnershipRecord, machineId: string) {
    file.Held? && file.record.machineId == machineId
  }

  /** Only a complete record owns anything, and only for its machine. */
  lemma WhoOwns(record: Ownership, machineId: string)
    ensures OwnedBy(Held(record), machineId) <==> record.machineId == machineId
    ensures !OwnedBy(Missing, machineId) && !OwnedBy(Torn, machineId)
  {}

  /** Every mutating command was preceded by an on-disk record naming the machine that issued it. */
  ghost predicate Guarded(trace: seq<Event>) {
    forall i :: 0 <= i < |trace| && IsMutating(trace[i].command) ==> OwnedBy(trace[i].file, trace[i].machineId)
  }

  /** A content of the file, and whether its writer had just read the content before it. */
  datatype Content = Content(file: OwnershipRecord, sighted: bool)

  /** The changes the file may go through: absent, then claimed or torn; claimed, then managed. */
  ghost predicate Follows(a: OwnershipRecord, b: Content) {
    match a
    case Missing =>
      || b.file == Torn
      || (b.file.Held? && b.file.record.state == INSTALLING && b.file.record.adoption.None?)
      || (b.file.Held? && b.file.record.state == ADOPTED && b.file.record.adoption.Some?)
    case Torn => false
    case Held(o) =>
      && b.file.Held? && b.file.record.state == MANAGED && b.file.record.machineId == o.machineId
      && b.file.record.adoption == if b.sighted then o.adoption else None
  }

  ghost predicate Lawful(history: seq<Content>) {
    && history != [] && history[0].file == Missing
    && forall i :: 0 < i < |history| ==> Follows(history[i - 1].file, history[i])
  }

  /** The adoption the final record carries: copied from the record just re-read, lost when that read fails. */
  function CarriedAdoption(file: OwnershipRecord, rereadable: bool): Option<Adoption> {
    match ReadingOf(file, rereadable)
    case Read(ownership) => ownership.adoption
    case _ => None
  }

  datatype Mode = REUSE_EXTERNAL | INSTALL_OR_REPAIR_MANAGED | UnknownMode

  datatype Request = Request(enabled: bool, proxyPort: Port, mode: Mode)

  datatype Outcome = Done(managed: bool) | Failed | Died

  datatype TakeoverOutcome = Owned(state: State) | Refused | TakeoverDied

  /** The host around one call. `threeXui` is `None` when the inspection for 3X-UI fails. */
  datatype Surroundings = Surroundings(
    threeXui: Option<bool>,
    cliPresent: bool,
    stillPresent: bool,
    readable: bool,
    supportedPlatform: bool,
    connectedAt: nat -> bool,
    cancelledAt: nat -> bool,
    rereadable: bool,
    externalCompatible: bool,
    relayOpens: bool)

  const PROXY_PORT: Port := 40000
  const STATUS_ATTEMPTS := 15

  const INSTALLATION := [DownloadKey, ImportKey, WriteSources, AptUpdate, AptInstall]
  const CONFIGURATION := [SetProtocol, SetMode, SetPort, Connect]

  const OWNERSHIP := "ownership.json"

  /** The outcome is what the deciding reply makes it. */
  predicate ComesOf(outcome: Outcome, decided: Reply, managed: bool) {
    match decided
    case Succeeds => outcome == Done(managed)
    case Fails => outcome == Failed
    case Dies => outcome == Died
  }

  class Host {
    /** The directory of the ownership record, and the record its bytes hold. */
    var directory: Directory
    ghost var file: OwnershipRecord
    ghost var trace: seq<Event>
    /** The mutating commands of the trace, in order. */
    ghost var mutations: seq<Command>
    ghost var history: seq<Content>
    var clock: nat
    /** What the n-th command or write meets. */
    const replies: nat -> Reply
    const faults: nat -> Fault
    const encode: Ownership -> Bytes
    const decode: Bytes -> Option<Ownership>

    ghost predicate Valid()
      reads this
    {
      && Guarded(trace) && Lawful(history) && history[|history| - 1].file == file
      && Codec(encode, decode, IsRecord) && Numbered(directory)
      && file == FileOf(ContentOf(directory, OWNERSHIP), decode)
    }

    /** The record is what the bytes under its name hold: torn when they are there and hold none. */
    lemma WhereTheRecordIs()
      requires Valid()
      ensures var bytes := ContentOf(directory, "ownership.json");
              && (file.Missing? <==> bytes == None)
              && (forall record :: file == Held(record) <==> bytes.Some? && decode(bytes.value) == Some(record))
    {}

    ghost predicate AllSucceed() {
      forall n :: replies(n).Succeeds? && faults(n).NoFault?
    }

    constructor (
      replies: nat -> Reply, faults: nat -> Fault, encode: Ownership -> Bytes, decode: Bytes -> Option<Ownership>)
      requires Codec(encode, decode, IsRecord)
      ensures Valid() && file == Missing && trace == [] && mutations == []
      ensures this.replies == replies && this.faults == faults && this.encode == encode && this.decode == decode
    {
      this.replies, this.faults, this.encode, this.decode := replies, faults, encode, decode;
      directory, clock, file, trace, mutations := EMPTY, 0, Missing, [], [];
      history := [Content(Missing, true)];
    }

    /** `readable` is false when the operating system refuses to read an existing file. */
    method ReadOwnership(readable: bool) returns (reading: Reading<Ownership>)
      requires Valid()
      ensures reading == ReadingOf(file, readable)
    {
      reading := ReadingOf(FileOf(ContentOf(directory, OWNERSHIP), decode), readable);
    }

    /** Issues one command. Mutating commands are only ever issued under an own record. */
    method Run(command: Command, machineId: string) returns (reply: Reply)
      requires Valid() && (IsMutating(command) ==> OwnedBy(file, machineId))
      modifies this`trace, this`mutations, this`clock
      ensures Valid() && reply == replies(old(clock)) && clock == old(clock) + 1
      ensures trace == old(trace) + [Event(command, machineId, file)]
      ensures mutations == if IsMutating(command) then old(mutations) + [command] else old(mutations)
    {
      reply := replies(clock);
      trace, clock := trace + [Event(command, machineId, file)], clock + 1;
      if IsMutating(command) {
        mutations := mutations + [command];
      }
    }

    // what the parts of a call meet: the reply that decides, and the number of the next reply

    /** Commands in order, until one does not succeed. */
    ghost function InOrderFrom(n: nat, count: nat): (Reply, nat)
      decreases count
    {
      if count == 0 then (Succeeds, n)
      else if !replies(n).Succeeds? then (replies(n), n + 1)
      else InOrderFrom(n + 1, count - 1)
    }

    ghost function InstallationMeets(n: nat, s: Surroundings): (Reply, nat) {
      if s.stillPresent then (Succeeds, n)
      else if !s.supportedPlatform then (Fails, n)
      else InOrderFrom(n, |INSTALLATION|)
    }

    /** There is a registration, or a new one is made. */
    ghost function RegistrationMeets(n: nat): (Reply, nat) {
      if replies(n).Fails? then (replies(n + 1), n + 2) else (replies(n), n + 1)
    }

    /** The status queries from the n-th reply on, when the first of them is this one. */
    ghost function QueriesMeet(first: nat, n: nat, s: Surroundings): (Reply, nat)
      requires first <= n <= first + STATUS_ATTEMPTS
      decreases first + STATUS_ATTEMPTS - n
    {
      if n == first + STATUS_ATTEMPTS then (Check(s.connectedAt(STATUS_ATTEMPTS - 1)), n)
      else if replies(n).Dies? then (Dies, n + 1)
      else if replies(n).Succeeds? && s.connectedAt(n - first) then (Succeeds, n + 1)
      else if s.cancelledAt(n - first) then (Fails, n + 1)
      else QueriesMeet(first, n + 1, s)
    }

    ghost function SettingsMeet(n: nat, s: Surroundings): (Reply, nat) {
      var applied := InOrderFrom(n, |CONFIGURATION|);
      if !applied.0.Succeeds? then applied
      else
        var connected := QueriesMeet(applied.1, applied.1, s);
        if !connected.0.Succeeds? then connected else (replies(connected.1), connected.1 + 1)
    }

    ghost function PreparationMeets(n: nat, s: Surroundings): (Reply, nat) {
      var installed := InstallationMeets(n, s);
      if !installed.0.Succeeds? then installed
      else if !replies(installed.1).Succeeds? then (replies(installed.1), installed.1 + 1)
      else RegistrationMeets(installed.1 + 1)
    }

    ghost function SetupMeets(n: nat, s: Surroundings): (Reply, nat) {
      var prepared := PreparationMeets(n, s);
      if !prepared.0.Succeeds? then prepared else SettingsMeet(prepared.1, s)
    }

    /** The record, the relay, the version. */
    ghost function RecordMeets(n: nat, s: Surroundings): Reply {
      InTurn([ReplyTo(faults(n))] + ([Check(s.relayOpens)] + ([replies(n + 1)] + [])))
    }

    lemma RecordInTurn(n: nat, s: Surroundings)
      ensures RecordMeets(n, s) ==
              if !ReplyTo(faults(n)).Succeeds? then ReplyTo(faults(n))
              else if !s.relayOpens then Fails
              else replies(n + 1)
    {
      OneInTurn(replies(n + 1), []);
      OneInTurn(Check(s.relayOpens), [replies(n + 1)] + []);
      OneInTurn(ReplyTo(faults(n)), [Check(s.relayOpens)] + ([replies(n + 1)] + []));
    }

    /** After the claim: the setup, and then the record. */
    ghost function RepairMeets(n: nat, s: Surroundings): Reply {
      var setup := SetupMeets(n, s);
      if !setup.0.Succeeds? then setup.0 else RecordMeets(setup.1, s)
    }

    /** Commands in order succeed exactly when each does, and otherwise the first that does not decides. */
    lemma {:induction false} InOrderMeans(n: nat, count: nat)
      ensures var (reply, next) := InOrderFrom(n, count);
              && (reply.Succeeds? <==> forall i :: n <= i < n + count ==> replies(i).Succeeds?)
              && (reply.Succeeds? ==> next == n + count)
              && (!reply.Succeeds? ==>
                    n < next <= n + count && reply == replies(next - 1)
                    && forall i :: n <= i < next - 1 ==> replies(i).Succeeds?)
      decreases count
    {
      if count > 0 && replies(n).Succeeds? {
        InOrderMeans(n + 1, count - 1);
      }
    }

    /** Why the query with this number, which met `reply`, is the last one. */
    ghost predicate EndsQueries(attempt: nat, met: Reply, s: Surroundings) {
      met.Dies? || (met.Succeeds? && s.connectedAt(attempt)) || s.cancelledAt(attempt) || attempt == 14
    }

    /** The queries stop at the first that has a reason to, and the last one decides. */
    lemma {:induction false} QueriesMean(first: nat, n: nat, s: Surroundings)
      requires first <= n < first + 15
      ensures var (reply, next) := QueriesMeet(first, n, s);
              var last := next - 1;
              && n <= last <= first + 14 && EndsQueries(last - first, replies(last), s)
              && (forall m :: n <= m < last ==> !EndsQueries(m - first, replies(m), s))
              && (reply.Dies? <==> replies(last).Dies?)
              && (reply.Succeeds? <==>
                  && !replies(last).Dies? && s.connectedAt(last - first)
                  && (replies(last).Succeeds? || (last == first + 14 && !s.cancelledAt(14))))
      decreases first + 15 - n
    {
      if !EndsQueries(n - first, replies(n), s) {
        QueriesMean(first, n + 1, s);
      }
    }

    /** The five commands of a missing installation, the service, and a registration, old or new. */
    lemma PreparationMeans(n: nat, s: Surroundings)
      ensures var m := n + if s.stillPresent then 0 else 5;
              var (reply, next) := PreparationMeets(n, s);
              && (reply.Succeeds? <==>
                  && (s.stillPresent || (s.supportedPlatform && forall i :: n <= i < n + 5 ==> replies(i).Succeeds?))
                  && replies(m).Succeeds?
                  && (replies(m + 1).Succeeds? || (replies(m + 1).Fails? && replies(m + 2).Succeeds?)))
              && (reply.Succeeds? ==> next == m + if replies(m + 1).Succeeds? then 2 else 3)
    {
      InOrderMeans(n, 5);
    }

    /** The four settings, a query that finds the connection, and the stored request. */
    lemma SettingsMean(n: nat, s: Surroundings)
      ensures var connected := QueriesMeet(n + 4, n + 4, s);
              var (reply, next) := SettingsMeet(n, s);
              && (reply.Succeeds? <==>
                  && (forall i :: n <= i < n + 4 ==> replies(i).Succeeds?)
                  && connected.0.Succeeds? && replies(connected.1).Succeeds?)
              && (reply.Succeeds? ==> next == connected.1 + 1)
    {
      InOrderMeans(n, 4);
    }

    /** The setup succeeds exactly when both do, one after the other. */
    lemma SetupMeans(n: nat, s: Surroundings)
      ensures var prepared := PreparationMeets(n, s);
              var (reply, next) := SetupMeets(n, s);
              && (reply.Succeeds? <==> prepared.0.Succeeds? && SettingsMeet(prepared.1, s).0.Succeeds?)
              && (reply.Succeeds? ==> next == SettingsMeet(prepared.1, s).1)
    {}

    /** Issues mutating commands in order until one fails or the process dies. */
    method RunInOrder(commands: seq<Command>, machineId: string) returns (reply: Reply)
      requires Valid() && OwnedBy(file, machineId) && forall i :: 0 <= i < |commands| ==> IsMutating(commands[i])
      modifies this`trace, this`mutations, this`clock
      ensures Valid() && old(trace) <= trace
      ensures reply.Succeeds? ==> mutations == old(mutations) + commands
      ensures !reply.Succeeds? ==> exists n :: 0 < n <= |commands| && mutations == old(mutations) + commands[..n]
      ensures (reply, clock) == InOrderFrom(old(clock), |commands|)
      ensures AllSucceed() ==> reply.Succeeds?
    {
      for i := 0 to |commands|
        invariant Valid() && old(trace) <= trace && mutations == old(mutations) + commands[..i]
        invariant InOrderFrom(old(clock), |commands|) == InOrderFrom(clock, |commands| - i)
      {
        assert commands[..i + 1] == commands[..i] + [commands[i]];
        reply := Run(commands[i], machineId);
        if !reply.Succeeds? {
          return;
        }
      }
      return Succeeds;
    }

    /** Replaces the record: every state a crash can leave holds the old record or the new one. */
    method WriteOwnership(record: Ownership, sighted: bool) returns (reply: Reply, ghost states: seq<Directory>)
      requires Valid() && IsRecord(record) && Follows(file, Content(Held(record), sighted))
      modifies this`directory, this`file, this`history, this`clock
      ensures Valid() && clock == old(clock) + 1 && reply == ReplyTo(faults(old(clock)))
      ensures file == AfterRename(old(file), record, faults(old(clock)))
      ensures history ==
              if Lands(faults(old(clock))) then old(history) + [Content(Held(record), sighted)] else old(history)
      ensures states != [] && states[|states| - 1] == directory
      ensures forall i :: 0 <= i < |states| ==>
                FileOf(ContentOf(states[i], OWNERSHIP), decode) in {old(file), Held(record)}
    {
      var fault := faults(clock);
      clock := clock + 1;
      directory, states := Replace(directory, OWNERSHIP, encode(record), fault);
      if Lands(fault) {
        file, history := Held(record), history + [Content(Held(record), sighted)];
      }
      reply := ReplyTo(fault);
    }

    /** Creates the record exclusively and fills it in place: a stop in between can leave a torn file. */
    method CreateOwnership(record: Ownership) returns (reply: Reply)
      requires Valid() && IsRecord(record) && file.Missing? && Follows(Missing, Content(Held(record), true))
      modifies this`directory, this`file, this`history, this`clock
      ensures Valid() && clock == old(clock) + 1 && reply == CreationReply(faults(old(clock)))
      ensures file == AfterCreation(record, |encode(record)|, faults(old(clock)))
      ensures history == if file.Missing? then old(history) else old(history) + [Content(file, true)]
    {
      var fault := faults(clock);
      clock := clock + 1;
      CreatedIsAfterCreation(encode, decode, IsRecord, record, fault);
      directory, reply := CreateExclusively(directory, OWNERSHIP, encode(record), fault);
      file := AfterCreation(record, |encode(record)|, fault);
      if !file.Missing? {
        history := history + [Content(file, true)];
      }
    }

    // ----- the takeover of an existing WARP

    method TakeOver(machineId: string, planId: string, confirmed: bool, now: int, s: Surroundings)
      returns (outcome: TakeoverOutcome)
      requires Valid()
      modifies this
      ensures Valid() && trace == old(trace)
      ensures !old(file).Missing? ==> file == old(file)
      ensures old(file).Torn? || (old(file).Held? && old(file).record.machineId != machineId) ==> outcome == Refused
      ensures outcome.Owned? ==>
                OwnedBy(file, machineId) && file.record.state == outcome.state && outcome.state != INSTALLING
      ensures file != old(file) ==>
                file == Torn || file == Held(Ownership(machineId, ADOPTED, Some(Adoption(planId, now))))
      ensures !confirmed || !s.cliPresent || s.threeXui != Some(false) || !IsUuid(planId) || !IsUuid(machineId)
                || !s.readable ==>
                outcome == Refused && file == old(file)
      ensures (&& confirmed && s.cliPresent && s.threeXui == Some(false)
               && IsUuid(planId) && IsUuid(machineId) && s.readable
               && old(file).Missing? && AllSucceed())
              ==> outcome == Owned(ADOPTED)
      ensures && confirmed && s.cliPresent && s.threeXui == Some(false)
              && IsUuid(planId) && IsUuid(machineId) && s.readable ==>
                if OwnedBy(old(file), machineId) && old(file).record.state != INSTALLING
                then outcome == Owned(old(file).record.state)
                else if old(file).Missing? then
                  match CreationReply(faults(old(clock)))
                  case Succeeds => outcome == Owned(ADOPTED)
                  case Dies => outcome == TakeoverDied
                  case Fails => outcome == if s.rereadable && file.Held? then Owned(ADOPTED) else Refused
                else outcome == Refused
    {
      if !confirmed || !IsUuid(planId) || !IsUuid(machineId) || !s.cliPresent {
        return Refused;
      }
      if s.threeXui != Some(false) {
        return Refused;
      }
      var reading := ReadOwnership(s.readable);
      match reading
      case Read(ownership) =>
        if ownership.machineId != machineId || ownership.state == INSTALLING {
          return Refused;
        }
        return Owned(ownership.state);
      case Unsafe => return Refused;
      case NotExist =>
        var reply := CreateOwnership(Ownership(machineId, ADOPTED, Some(Adoption(planId, now))));
        if reply.Succeeds? {
          return Owned(ADOPTED);
        }
        if reply.Dies? {
          return TakeoverDied;
        }
        reading := ReadOwnership(s.rereadable);
        match reading
        case Read(existing) =>
          return if existing.machineId == machineId && existing.state != INSTALLING then Owned(existing.state)
                   else Refused;
        case _ => return Refused;
    }

    // ----- installing and repairing WARP

    /** Reads the record, and claims an absent WARP by writing one. Succeeds only under an own record. */
    method Claim(machineId: string, s: Surroundings) returns (reply: Reply)
      requires Valid() && IsUuid(machineId)
      modifies this`directory, this`file, this`history, this`clock
      ensures Valid()
      ensures reply.Succeeds? ==> OwnedBy(file, machineId)
      ensures file == old(file)
                || (old(file).Missing? && !s.cliPresent && file == Held(Ownership(machineId, INSTALLING, None)))
      ensures old(history) == history || (file != old(file) && history == old(history) + [Content(file, true)])
      ensures s.readable && OwnedBy(old(file), machineId) ==> reply.Succeeds? && file == old(file)
      ensures s.readable && !s.cliPresent && old(file).Missing? && AllSucceed() ==> reply.Succeeds?
      ensures reply.Dies? ==> old(file).Missing? && !s.cliPresent
      ensures s.readable && OwnedBy(old(file), machineId) ==> clock == old(clock)
      ensures s.readable && old(file).Missing? && !s.cliPresent ==>
                reply == ReplyTo(faults(old(clock))) && clock == old(clock) + 1
      ensures (|| !s.readable || old(file).Torn? || (old(file).Held? && old(file).record.machineId != machineId)
               || (old(file).Missing? && s.cliPresent))
              ==> reply.Fails?
    {
      var reading := ReadOwnership(s.readable);
      if s.cliPresent {
        return if reading.Read? && reading.record.machineId == machineId then Succeeds else Fails;
      }
      match reading
      case Read(ownership) => return if ownership.machineId == machineId then Succeeds else Fails;
      case Unsafe => return Fails;
      case NotExist =>
        var written, _ := WriteOwnership(Ownership(machineId, INSTALLING, None), true);
        return written;
    }

    method EnsureInstalled(machineId: string, s: Surroundings) returns (reply: Reply)
      requires Valid() && OwnedBy(file, machineId)
      modifies this`trace, this`mutations, this`clock
      ensures Valid() && old(trace) <= trace
      ensures s.stillPresent ==> reply.Succeeds? && mutations == old(mutations)
      ensures !s.stillPresent && !s.supportedPlatform ==> reply.Fails? && mutations == old(mutations)
      ensures !s.stillPresent && reply.Succeeds? ==> mutations == old(mutations) + INSTALLATION
      ensures (reply, clock) == InstallationMeets(old(clock), s)
      ensures AllSucceed() && s.supportedPlatform ==> reply.Succeeds?
    {
      if s.stillPresent {
        return Succeeds;
      }
      if !s.supportedPlatform {
        return Fails;
      }
      reply := RunInOrder(INSTALLATION, machineId);
    }

    method Register(machineId: string) returns (reply: Reply)
      requires Valid() && OwnedBy(file, machineId)
      modifies this`trace, this`mutations, this`clock
      ensures Valid() && old(trace) <= trace
      ensures AllSucceed() ==> reply.Succeeds?
      ensures reply.Succeeds? ==> mutations == old(mutations) || mutations == old(mutations) + [RegistrationNew]
      ensures replies(old(clock)).Succeeds? ==> reply.Succeeds? && mutations == old(mutations)
      ensures reply.Succeeds? && !replies(old(clock)).Succeeds? ==> mutations == old(mutations) + [RegistrationNew]
      ensures (reply, clock) == RegistrationMeets(old(clock))
    {
      reply := Run(RegistrationShow, machineId);
      if reply.Fails? {
        reply := RunInOrder([RegistrationNew], machineId);
      }
    }

    /**
      Polls the status up to fifteen times; waiting may be cancelled. `connectedAt` is what the output
      says, even of a query that fails: the last output alone decides once the queries are used up.
     */
    method AwaitConnected(machineId: string, s: Surroundings) returns (reply: Reply)
      requires Valid()
      modifies this`trace, this`mutations, this`clock
      ensures Valid() && old(trace) <= trace && |trace| <= |old(trace)| + STATUS_ATTEMPTS && mutations == old(mutations)
      ensures forall i :: |old(trace)| <= i < |trace| ==> trace[i].command == StatusQuery
      ensures reply.Succeeds? ==> |trace| > |old(trace)| && s.connectedAt(|trace| - |old(trace)| - 1)
      ensures reply.Fails? ==> |trace| > |old(trace)| && (s.cancelledAt(|trace| - |old(trace)| - 1)
                               || (|trace| == |old(trace)| + STATUS_ATTEMPTS && !s.connectedAt(STATUS_ATTEMPTS - 1)))
      ensures AllSucceed() && s.connectedAt(0) ==> reply.Succeeds?
      ensures (reply, clock) == QueriesMeet(old(clock), old(clock), s)
    {
      for attempt := 0 to STATUS_ATTEMPTS
        invariant Valid() && old(trace) <= trace && |trace| == |old(trace)| + attempt && mutations == old(mutations)
        invariant forall i :: |old(trace)| <= i < |trace| ==> trace[i].command == StatusQuery
        invariant attempt > 0 ==> !(AllSucceed() && s.connectedAt(0))
        invariant clock == old(clock) + attempt
        invariant QueriesMeet(old(clock), old(clock), s) == QueriesMeet(old(clock), clock, s)
      {
        reply := Run(StatusQuery, machineId);
        if reply.Dies? {
          return;
        }
        if reply.Succeeds? && s.connectedAt(attempt) {
          return;
        }
        if s.cancelledAt(attempt) {
          return Fails;
        }
      }
      return if s.connectedAt(STATUS_ATTEMPTS - 1) then Succeeds else Fails;
    }

    /**
      A complete setup: installation if needed, the service, registration if needed, the four
      settings, the stored request.
     */
    static ghost predicate IsFullSetup(s: Surroundings, before: seq<Command>, after: seq<Command>) {
      var installed := before + (if s.stillPresent then [] else INSTALLATION) + [EnableService];
      || after == installed + CONFIGURATION + [PersistDesired]
      || after == installed + [RegistrationNew] + CONFIGURATION + [PersistDesired]
    }

    /** The settings, the wait for the connection, and the stored request. */
    method ApplySettings(machineId: string, s: Surroundings) returns (reply: Reply)
      requires Valid() && OwnedBy(file, machineId)
      modifies this`trace, this`mutations, this`clock
      ensures Valid() && old(trace) <= trace
      ensures AllSucceed() && s.connectedAt(0) ==> reply.Succeeds?
      ensures reply.Succeeds? ==> mutations == old(mutations) + CONFIGURATION + [PersistDesired]
      ensures (reply, clock) == SettingsMeet(old(clock), s)
    {
      reply := RunInOrder(CONFIGURATION, machineId);
      if !reply.Succeeds? {
        return;
      }
      reply := AwaitConnected(machineId, s);
      if !reply.Succeeds? {
        return;
      }
      reply := RunInOrder([PersistDesired], machineId);
    }

    /** The commands up to the registration: the packages if they are missing, the service, the registration. */
    static ghost predicate IsPreparation(s: Surroundings, before: seq<Command>, after: seq<Command>) {
      var installed := before + (if s.stillPresent then [] else INSTALLATION) + [EnableService];
      after == installed || after == installed + [RegistrationNew]
    }

    method Prepare(machineId: string, s: Surroundings) returns (reply: Reply)
      requires Valid() && OwnedBy(file, machineId)
      modifies this`trace, this`mutations, this`clock
      ensures Valid() && old(trace) <= trace
      ensures AllSucceed() && (s.stillPresent || s.supportedPlatform) ==> reply.Succeeds?
      ensures reply.Succeeds? ==> IsPreparation(s, old(mutations), mutations)
      ensures (reply, clock) == PreparationMeets(old(clock), s)
    {
      reply := EnsureInstalled(machineId, s);
      if !reply.Succeeds? {
        return;
      }
      reply := RunInOrder([EnableService], machineId);
      if !reply.Succeeds? {
        return;
      }
      reply := Register(machineId);
    }

    /** Everything between the claim and the final record, all of it under the claim. */
    method Configure(machineId: string, s: Surroundings) returns (reply: Reply)
      requires Valid() && OwnedBy(file, machineId)
      modifies this`trace, this`mutations, this`clock
      ensures Valid() && old(trace) <= trace
      ensures !s.stillPresent && !s.supportedPlatform ==> !reply.Succeeds?
      ensures AllSucceed() && s.supportedPlatform && s.connectedAt(0) ==> reply.Succeeds?
      ensures reply.Succeeds? ==> IsFullSetup(s, old(mutations), mutations)
      ensures (reply, clock) == SetupMeets(old(clock), s)
    {
      reply := Prepare(machineId, s);
      if !reply.Succeeds? {
        return;
      }
      reply := ApplySettings(machineId, s);
    }

    /** Reads the record once more for its adoption; that the read fails is ignored. */
    method RecordManaged(machineId: string, rereadable: bool) returns (reply: Reply)
      requires Valid() && IsUuid(machineId) && OwnedBy(file, machineId)
      modifies this`directory, this`file, this`history, this`clock
      ensures Valid() && reply == ReplyTo(faults(old(clock))) && clock == old(clock) + 1
      ensures file ==
                AfterRename(old(file), Ownership(machineId, MANAGED, CarriedAdoption(old(file), rereadable)),
                    faults(old(clock)))
    {
      var reread := ReadOwnership(rereadable);
      var adoption := if reread.Read? then reread.record.adoption else None;
      var written, _ := WriteOwnership(Ownership(machineId, MANAGED, adoption), rereadable);
      return written;
    }

    /** The final record, and what the managed WARP answers. */
    method RecordAndCheck(machineId: string, s: Surroundings) returns (outcome: Outcome)
      requires Valid() && IsUuid(machineId) && OwnedBy(file, machineId)
      modifies this
      ensures Valid() && old(trace) <= trace && mutations == old(mutations)
      ensures outcome.Done? ==> outcome.managed
      ensures file ==
                AfterRename(old(file), Ownership(machineId, MANAGED, CarriedAdoption(old(file), s.rereadable)),
                    faults(old(clock)))
      ensures outcome.Done? ==> Lands(faults(old(clock)))
      ensures ComesOf(outcome, RecordMeets(old(clock), s), true)
      ensures AllSucceed() && s.relayOpens ==> outcome == Done(true)
    {
      RecordInTurn(clock, s);
      var written := RecordManaged(machineId, s.rereadable);
      if !written.Succeeds? {
        return if written.Dies? then Died else Failed;
      }
      if !s.relayOpens {
        return Failed;
      }
      var version := Run(Version, machineId);
      return if version.Succeeds? then Done(true) else if version.Dies? then Died else Failed;
    }

    /** What follows the claim. */
    method SetUpAndRecord(machineId: string, s: Surroundings) returns (outcome: Outcome)
      requires Valid() && IsUuid(machineId) && OwnedBy(file, machineId)
      modifies this
      ensures Valid() && old(trace) <= trace
      ensures outcome.Done? ==> outcome.managed && IsFullSetup(s, old(mutations), mutations)
      ensures file == old(file)
                || file == Held(Ownership(machineId, MANAGED, CarriedAdoption(old(file), s.rereadable)))
      ensures outcome.Done? ==> file == Held(Ownership(machineId, MANAGED, CarriedAdoption(old(file), s.rereadable)))
      ensures ComesOf(outcome, RepairMeets(old(clock), s), true)
      ensures AllSucceed() && s.supportedPlatform && s.connectedAt(0) && s.relayOpens ==> outcome == Done(true)
    {
      var configured := Configure(machineId, s);
      if !configured.Succeeds? {
        return if configured.Dies? then Died else Failed;
      }
      outcome := RecordAndCheck(machineId, s);
    }

    method InstallOrRepair(machineId: string, s: Surroundings) returns (outcome: Outcome)
      requires Valid() && IsUuid(machineId)
      modifies this
      ensures Valid() && old(trace) <= trace
      ensures old(file).Torn? || (old(file).Held? && old(file).record.machineId != machineId)
                || s.threeXui != Some(false) ==>
                outcome == Failed && file == old(file) && trace == old(trace)
      ensures file != old(file) ==> OwnedBy(file, machineId)
      ensures outcome.Done? ==> IsFullSetup(s, old(mutations), mutations)
      ensures old(file).Held? && file != old(file) ==>
                file == Held(Ownership(machineId, MANAGED, CarriedAdoption(old(file), s.rereadable)))
      ensures old(file).Missing? && s.cliPresent ==> outcome == Failed && file == Missing && trace == old(trace)
      ensures outcome == Done(true) ==>
                var adoption := if old(file).Held? then CarriedAdoption(old(file), s.rereadable) else None;
                file == Held(Ownership(machineId, MANAGED, adoption))
      ensures outcome.Done? ==> outcome.managed
      ensures s.threeXui == Some(false) && s.readable && OwnedBy(old(file), machineId) ==>
                ComesOf(outcome, RepairMeets(old(clock), s), true)
      ensures s.threeXui == Some(false) && s.readable && old(file).Missing? && !s.cliPresent ==>
                var claimed := ReplyTo(faults(old(clock)));
                ComesOf(outcome, if claimed.Succeeds? then RepairMeets(old(clock) + 1, s) else claimed, true)
      ensures !s.readable ==> outcome == Failed
      ensures (&& AllSucceed() && s.threeXui == Some(false) && s.readable && s.supportedPlatform
               && s.connectedAt(0) && s.relayOpens
               && (OwnedBy(old(file), machineId) || (old(file).Missing? && !s.cliPresent)))
              ==> outcome == Done(true)
    {
      if s.threeXui != Some(false) {
        return Failed;
      }
      var claimed := Claim(machineId, s);
      if !claimed.Succeeds? {
        return if claimed.Dies? then Died else Failed;
      }
      outcome := SetUpAndRecord(machineId, s);
    }

    /** The command is there, three queries succeed, what they say fits, the relay opens, and the version. */
    ghost function ReuseMeets(n: nat, s: Surroundings): Reply {
      InTurn([Check(s.cliPresent)] + ([replies(n)] + ([replies(n + 1)] + ([replies(n + 2)] +
        ([Check(s.externalCompatible && s.relayOpens)] + ([replies(n + 3)] + []))))))
    }

    lemma ReuseInTurn(n: nat, s: Surroundings)
      ensures ReuseMeets(n, s) ==
              if !s.cliPresent then Fails
              else if !replies(n).Succeeds? then replies(n)
              else if !replies(n + 1).Succeeds? then replies(n + 1)
              else if !replies(n + 2).Succeeds? then replies(n + 2)
              else if !s.externalCompatible || !s.relayOpens then Fails
              else replies(n + 3)
    {
      var version := [replies(n + 3)] + [];
      var fits := [Check(s.externalCompatible && s.relayOpens)] + version;
      var status := [replies(n + 2)] + fits;
      var settings := [replies(n + 1)] + status;
      OneInTurn(replies(n + 3), []);
      OneInTurn(Check(s.externalCompatible && s.relayOpens), version);
      OneInTurn(replies(n + 2), fits);
      OneInTurn(replies(n + 1), status);
      OneInTurn(replies(n), settings);
      OneInTurn(Check(s.cliPresent), [replies(n)] + settings);
    }

    /** An external WARP is only looked at. */
    method ReuseExternal(machineId: string, s: Surroundings) returns (outcome: Outcome)
      requires Valid()
      modifies this
      ensures Valid() && file == old(file) && old(trace) <= trace
      ensures forall i :: |old(trace)| <= i < |trace| ==> !IsMutating(trace[i].command)
      ensures ComesOf(outcome, ReuseMeets(old(clock), s), false)
    {
      ReuseInTurn(clock, s);
      if !s.cliPresent {
        return Failed;
      }
      var reply := Run(RegistrationShow, machineId);
      if !reply.Succeeds? {
        return if reply.Dies? then Died else Failed;
      }
      reply := Run(Settings, machineId);
      if !reply.Succeeds? {
        return if reply.Dies? then Died else Failed;
      }
      reply := Run(StatusQuery, machineId);
      if !reply.Succeeds? || !s.externalCompatible || !s.relayOpens {
        return if reply.Dies? then Died else Failed;
      }
      reply := Run(Version, machineId);
      return if reply.Succeeds? then Done(false) else if reply.Dies? then Died else Failed;
    }

    method Execute(machineId: string, request: Request, s: Surroundings) returns (outcome: Outcome)
      requires Valid()
      modifies this
      ensures Valid() && old(trace) <= trace
      ensures !request.enabled || request.proxyPort != PROXY_PORT || request.mode.UnknownMode? || !IsUuid(machineId) ==>
                outcome == Failed && file == old(file) && trace == old(trace)
      ensures request.mode.REUSE_EXTERNAL? ==>
                file == old(file) && forall i :: |old(trace)| <= i < |trace| ==> !IsMutating(trace[i].command)
      ensures old(file).Torn? || (old(file).Held? && old(file).record.machineId != machineId) ==>
                file == old(file) && forall i :: |old(trace)| <= i < |trace| ==> !IsMutating(trace[i].command)
      ensures old(file).Held? && file != old(file) ==>
                file == Held(Ownership(machineId, MANAGED, CarriedAdoption(old(file), s.rereadable)))
      ensures outcome == Done(true) ==>
                var adoption := if old(file).Held? then CarriedAdoption(old(file), s.rereadable) else None;
                file == Held(Ownership(machineId, MANAGED, adoption))
      ensures outcome == Done(false) ==> request.mode.REUSE_EXTERNAL?
      ensures request == Request(true, 40000, REUSE_EXTERNAL) && IsUuid(machineId) ==>
                ComesOf(outcome, ReuseMeets(old(clock), s), false)
      ensures request == Request(true, 40000, INSTALL_OR_REPAIR_MANAGED) && IsUuid(machineId) ==>
                if s.threeXui != Some(false) || !s.readable then outcome == Failed
                else if OwnedBy(old(file), machineId) then ComesOf(outcome, RepairMeets(old(clock), s), true)
                else if old(file).Missing? && !s.cliPresent then
                  var claimed := ReplyTo(faults(old(clock)));
                  ComesOf(outcome, if claimed.Succeeds? then RepairMeets(old(clock) + 1, s) else claimed, true)
                else outcome == Failed
      ensures outcome == Done(true) ==> IsFullSetup(s, old(mutations), mutations)
      ensures (&& AllSucceed() && s.threeXui == Some(false) && s.readable && s.supportedPlatform
               && s.connectedAt(0) && s.relayOpens
               && (OwnedBy(old(file), machineId) || (old(file).Missing? && !s.cliPresent))
               && request == Request(true, PROXY_PORT, INSTALL_OR_REPAIR_MANAGED) && IsUuid(machineId))
              ==> outcome == Done(true)
    {
      if !request.enabled || request.proxyPort != PROXY_PORT || request.mode.UnknownMode? || !IsUuid(machineId) {
        return Failed;
      }
      if request.mode.REUSE_EXTERNAL? {
        outcome := ReuseExternal(machineId, s);
      } else {
        outcome := InstallOrRepair(machineId, s);
      }
    }
  }

  // ----- over whole runs

  /**
    Over every run of the handlers, whoever calls them and wherever they die: a record once complete
    stays, keeps its machine, and every later content is managed.
   */
  lemma {:induction false} MachineNeverChanges(history: seq<Content>, i: nat, j: nat)
    requires Lawful(history) && i < j < |history| && history[i].file.Held?
    ensures history[j].file.Held? && history[j].file.record.machineId == history[i].file.record.machineId
    ensures history[j].file.record.state == MANAGED
  {
    assert Follows(history[j - 1].file, history[j]);
    if i < j - 1 {
      MachineNeverChanges(history, i, j - 1);
    }
  }

  /** A file torn by a crash inside the exclusive creation is never replaced: it blocks WARP for good. */
  lemma OnlyTheLastContentIsTorn(history: seq<Content>, i: nat)
    requires Lawful(history) && i + 1 < |history|
    ensures !history[i].file.Torn?
  {
    assert Follows(history[i].file, history[i + 1]);
  }

  /**
    The adoption recorded by a takeover is kept exactly as long as every later write of the record
    follows a successful read of it; the handler writes it even when that read failed.
   */
  lemma {:induction false} AdoptionKeptExactly(history: seq<Content>, i: nat, j: nat)
    requires Lawful(history) && i <= j < |history| && history[i].file.Held? && history[i].file.record.adoption.Some?
    ensures history[j].file.Held?
    ensures history[j].file.record.adoption == history[i].file.record.adoption <==>
              forall k :: i < k <= j ==> history[k].sighted
  {
    if i < j {
      AdoptionKeptExactly(history, i, j - 1);
      assert Follows(history[j - 1].file, history[j]);
      if history[j].sighted && (exists k :: i < k < j && !history[k].sighted) {
        AdoptionNeverReturns(history, i, j - 1);
      }
    }
  }

  lemma {:induction false} AdoptionNeverReturns(history: seq<Content>, i: nat, j: nat)
    requires Lawful(history) && i <= j < |history| && history[i].file.Held?
    ensures history[j].file.Held?
    ensures history[j].file.record.adoption == history[i].file.record.adoption
              || history[j].file.record.adoption == None
  {
    if i < j {
      AdoptionNeverReturns(history, i, j - 1);
      assert Follows(history[j - 1].file, history[j]);
    }
  }

  /** The one way to lose it: a repair of the adopted WARP whose re-read of the record fails. */
  method TakeOverThenRepair(
    host: Host, machineId: string, planId: string, now: int, s: Surroundings, later: Surroundings)
    returns (taken: TakeoverOutcome, repaired: Outcome)
    requires host.Valid() && host.file.Missing?
    modifies host
    ensures host.Valid()
    ensures taken == Owned(ADOPTED) && repaired == Done(true) ==>
              && host.file.Held? && host.file.record.machineId == machineId && host.file.record.state == MANAGED
              && (host.file.record.adoption == Some(Adoption(planId, now)) <==> later.rereadable)
  {
    taken := host.TakeOver(machineId, planId, true, now, s);
    repaired := host.Execute(machineId, Request(true, PROXY_PORT, INSTALL_OR_REPAIR_MANAGED), later);
  }

  datatype Call =
    | Reconcile(machineId: string, request: Request, around: Surroundings)
    | Takeover(machineId: string, planId: string, confirmed: bool, now: int, around: Surroundings)

  /** Any sequence of calls, by any machine identities, keeps the trace guarded and the record's history lawful. */
  method Serve(host: Host, calls: seq<Call>)
    requires host.Valid()
    modifies host
    ensures Guarded(host.trace) && Lawful(host.history) && host.history[|host.history| - 1].file == host.file
  {
    for i := 0 to |calls|
      invariant host.Valid()
    {
      match calls[i]
      case Reconcile(machineId, request, around) => var _ := host.Execute(machineId, request, around);
      case Takeover(machineId, planId, confirmed, now, around) =>
        var _ := host.TakeOver(machineId, planId, confirmed, now, around);
    }
  }
}
