/**
  One call of the command executor: validate, look the key up, run the handler, persist.
  A Go string is a sequence of bytes, so each `char` of a message stands for one byte.
 */
module Executor {
  import opened AtomicFile
  import opened Wrappers
  import opened CommandStore

  const MAX_MESSAGE_BYTES := 16 * 1024
  const ELLIPSIS := "\U{E2}\U{80}\U{A6}"

  const KNOWN_KINDS := {
    "inventory", "discover_host", "reconcile_dependency", "preflight", "reconcile_instance",
    "reconcile_certificate", "reconcile_warp", "authorize_warp_takeover", "start_instance",
    "stop_instance", "drain_instance", "inspect_instance", "apply_config", "stage_update",
    "apply_update", "verify_update", "rollback_update"
  }

  /** The codes `Execute` itself reports without having stored a result. */
  const UNSTORED_CODES := {"INVALID_COMMAND", "STATE_READ_FAILED", "STATE_WRITE_FAILED"}

  datatype Command = Command(id: string, kind: string, idempotencyKey: string, deadline: int, payload: Bytes)

  /** What a handler does: raise a coded error, fail with a plain one, or return a payload (`None`: not encodable). */
  datatype HandlerOutcome =
    | Raised(code: string, message: string)
    | Errored(message: string, deadlineExceeded: bool)
    | Returned(payload: Option<Bytes>)

  // ----- validation

  predicate IsAlphanumeric(c: char) {
    'A' <= c <= 'Z' || 'a' <= c <= 'z' || '0' <= c <= '9'
  }

  predicate IsIdentifier(s: string) {
    && 1 <= |s| <= 128
    && IsAlphanumeric(s[0])
    && forall i :: 1 <= i < |s| ==> IsAlphanumeric(s[i]) || s[i] in "_.:-"
  }

  function ValidationError(command: Command, now: int): Option<string> {
    if !IsIdentifier(command.id) then Some("invalid command id")
    else if !IsIdentifier(command.idempotencyKey) then Some("invalid idempotency key")
    else if command.kind !in KNOWN_KINDS then Some("unsupported command kind")
    else if command.deadline <= now then Some("command deadline has expired")
    else if |command.payload| == 0 then Some("command payload is required")
    else None
  }

  /** The seventeen kinds, in alphabetical order. */
  lemma KnownKindsAre(kind: string)
    ensures kind in KNOWN_KINDS <==>
            || kind == "apply_config" || kind == "apply_update" || kind == "authorize_warp_takeover"
            || kind == "discover_host" || kind == "drain_instance" || kind == "inspect_instance"
            || kind == "inventory" || kind == "preflight" || kind == "reconcile_certificate"
            || kind == "reconcile_dependency" || kind == "reconcile_instance" || kind == "reconcile_warp"
            || kind == "rollback_update" || kind == "stage_update" || kind == "start_instance"
            || kind == "stop_instance" || kind == "verify_update"
  {}

  /** Identifiers are one to 128 letters, digits and, past the first place, `_`, `.`, `:` and `-`. */
  lemma IdentifiersGrow(s: string, c: char)
    ensures IsIdentifier([c]) <==> 'A' <= c <= 'Z' || 'a' <= c <= 'z' || '0' <= c <= '9'
    ensures IsIdentifier("a" + [c]) <==> IsIdentifier([c]) || c == '_' || c == '.' || c == ':' || c == '-'
    ensures |s| > 0 ==> (IsIdentifier(s + [c]) <==> IsIdentifier(s) && IsIdentifier("a" + [c]) && |s| < 128)
    ensures !IsIdentifier("")
  {
    assert ("a" + [c])[1] == c && (s + [c])[|s|] == c;
    assert forall i :: 0 <= i < |s| ==> (s + [c])[i] == s[i];
  }

  /** What the panel may ask for: identifiers within the limits, a known kind, time left, and a payload. */
  predicate IsAcceptable(command: Command, now: int) {
    && IsIdentifier(command.id) && IsIdentifier(command.idempotencyKey)
    && command.kind in KNOWN_KINDS && now < command.deadline && command.payload != []
  }

  // ----- results

  function WithoutNul(message: string): (r: string)
    ensures '\0' !in r
    ensures '\0' !in message ==> r == message
  {
    if message == "" then ""
    else if message[0] == '\0' then WithoutNul(message[1..])
    else [message[0]] + WithoutNul(message[1..])
  }

  function SafeMessage(message: string): (r: string)
    ensures '\0' !in r && |r| <= MAX_MESSAGE_BYTES + |ELLIPSIS|
  {
    var clean := WithoutNul(message);
    if |clean| > MAX_MESSAGE_BYTES then clean[..MAX_MESSAGE_BYTES] + ELLIPSIS else clean
  }

  lemma WithoutNulOfOne(c: char)
    ensures WithoutNul([c]) == if c == '\0' then [] else [c]
  {
    assert [c][1..] == "";
  }

  /** Every character but NUL is kept, in order: with the above this says what is left of any text. */
  lemma {:induction false} WithoutNulSplits(a: string, b: string)
    ensures WithoutNul(a + b) == WithoutNul(a) + WithoutNul(b)
  {
    if a == [] {
      assert a + b == b;
    } else {
      WithoutNulSplits(a[1..], b);
      assert (a + b)[0] == a[0] && (a + b)[1..] == a[1..] + b;
      Associates(if a[0] == '\0' then "" else [a[0]], WithoutNul(a[1..]), WithoutNul(b));
    }
  }

  /** A text without NUL stays as it is up to 16 KiB; a longer one is cut there and marked. */
  lemma SafeMessageMeans(message: string)
    requires '\0' !in message
    ensures |message| <= 16384 ==> SafeMessage(message) == message
    ensures |message| > 16384 ==> SafeMessage(message) == message[..16384] + "\U{E2}\U{80}\U{A6}"
  {
  }

  /** Sanitising twice, as every failure path does, is the same as sanitising once. */
  lemma SafeMessageIsIdempotent(message: string)
    ensures SafeMessage(SafeMessage(message)) == SafeMessage(message)
  {
    var safe := SafeMessage(message);
    assert WithoutNul(safe) == safe;
    if |WithoutNul(message)| > MAX_MESSAGE_BYTES {
      assert safe[..MAX_MESSAGE_BYTES] == WithoutNul(message)[..MAX_MESSAGE_BYTES];
    }
  }

  function FailedResult(command: Command, code: string, message: string, at: int): CommandResult {
    CommandResult(command.id, command.idempotencyKey, Failed, code, SafeMessage(message), [], at)
  }

  function UnsupportedResult(command: Command, at: int): CommandResult {
    CommandResult(command.id, command.idempotencyKey, Unsupported, "CAPABILITY_NOT_AVAILABLE",
      "command capability is not available in this agent version", [], at)
  }

  /** The index of the first colon, or the length when there is none. */
  function FirstColon(message: string): (i: nat)
    ensures i <= |message|
    ensures ':' !in message[..i]
    ensures i < |message| ==> message[i] == ':'
  {
    if message == "" then 0
    else if message[0] == ':' then 0
    else 1 + FirstColon(message[1..])
  }

  predicate IsErrorCode(s: string) {
    && 3 <= |s| <= 64
    && 'A' <= s[0] <= 'Z'
    && forall i :: 1 <= i < |s| ==> 'A' <= s[i] <= 'Z' || '0' <= s[i] <= '9' || s[i] == '_'
  }

  function CodePrefix(message: string): Option<string> {
    var i := FirstColon(message);
    if i < |message| && IsErrorCode(message[..i]) then Some(message[..i]) else None
  }

  lemma {:induction false} FirstColonIs(message: string, n: nat)
    requires n < |message| && message[n] == ':'
    requires forall j :: 0 <= j < n ==> message[j] != ':'
    ensures FirstColon(message) == n
  {
    if n > 0 {
      FirstColonIs(message[1..], n - 1);
    }
  }

  /** A message has a code prefix exactly when it is a code, a colon and anything. */
  lemma CodePrefixMeans(message: string, code: string)
    ensures CodePrefix(message) == Some(code) <==> IsErrorCode(code) && code + ":" <= message
  {
    if IsErrorCode(code) && code + ":" <= message {
      var prefix := message[..|code| + 1];
      assert prefix == code + ":";
      assert message[..|code|] == prefix[..|code|] == code;
      FirstColonIs(message, |code|);
    }
    if CodePrefix(message) == Some(code) {
      assert code + ":" == message[..FirstColon(message) + 1];
    }
  }

  function ResultOf(command: Command, outcome: HandlerOutcome, at: int): CommandResult {
    match outcome
    case Raised(code, message) => FailedResult(command, code, SafeMessage(message), at)
    case Errored(message, deadlineExceeded) =>
      if deadlineExceeded then FailedResult(command, "COMMAND_TIMEOUT", "command exceeded its deadline", at)
      else
        var code := CodePrefix(message);
        FailedResult(command, if code.Some? then code.value else "COMMAND_FAILED", SafeMessage(message), at)
    case Returned(None) => FailedResult(command, "RESULT_ENCODING_FAILED", "command result could not be encoded", at)
    case Returned(Some(payload)) =>
      CommandResult(command.id, command.idempotencyKey, Succeeded, "", "", payload, at)
  }

  /** Codes are three to 64 capitals, digits and underscores, and begin with a capital. */
  lemma ErrorCodesGrow(s: string, c: char)
    ensures !IsErrorCode("AB") && (IsErrorCode("AB" + [c]) <==> 'A' <= c <= 'Z' || '0' <= c <= '9' || c == '_')
    ensures IsErrorCode([c] + "AB") <==> 'A' <= c <= 'Z'
    ensures |s| >= 3 ==> (IsErrorCode(s + [c]) <==> IsErrorCode(s) && IsErrorCode("AB" + [c]) && |s| < 64)
  {
    assert ("AB" + [c])[2] == c && (s + [c])[|s|] == c && ([c] + "AB")[1..] == "AB";
    assert forall i :: 0 <= i < |s| ==> (s + [c])[i] == s[i];
  }

  /**
    How a handler's failure is classified: by the code of a coded error, else as a timeout when the
    deadline has passed, else by the code a message `CODE: detail` begins with, whatever the detail.
    The error's own text is passed on, sanitised.
   */
  lemma FailuresAreClassified(command: Command, code: string, message: string, at: int)
    ensures ResultOf(command, Raised(code, message), at).errorCode == code
    ensures '\0' !in message && |message| <= 16384 ==>
              && ResultOf(command, Raised(code, message), at).message == message
              && ResultOf(command, Errored(message, false), at).message == message
    ensures ResultOf(command, Returned(None), at).errorCode == "RESULT_ENCODING_FAILED"
    ensures ResultOf(command, Errored(message, true), at).errorCode == "COMMAND_TIMEOUT"
    ensures IsErrorCode(code) && code + ":" <= message ==>
              ResultOf(command, Errored(message, false), at).errorCode == code
    ensures (forall c :: IsErrorCode(c) ==> !(c + ":" <= message)) ==>
              ResultOf(command, Errored(message, false), at).errorCode == "COMMAND_FAILED"
  {
    CodePrefixMeans(message, code);
    if CodePrefix(message).Some? {
      CodePrefixMeans(message, CodePrefix(message).value);
    }
  }

  // ----- one call, as a function of what it meets

  datatype Surroundings = Surroundings(
    now: int,
    firstReadable: bool,
    outcome: HandlerOutcome,
    secondReadable: bool,
    fault: Fault,
    storeError: string)

  /** `result` is `None` when the process died inside the call. */
  datatype Call = Call(disk: Disk, result: Option<CommandResult>, ran: bool)

  /** The result the executor tries to store for a command it finds no record of. */
  function Proposed(handlers: set<string>, command: Command, around: Surroundings): CommandResult {
    if command.kind in handlers then ResultOf(command, around.outcome, around.now)
    else UnsupportedResult(command, around.now)
  }

  /** What the caller of `Put` returns to the panel. */
  function Reported(command: Command, outcome: PutOutcome, now: int, storeError: string): Option<CommandResult> {
    match outcome
    case Stored(result) => Some(result)
    case Duplicate(existing) => Some(existing)
    case PutFailed => Some(FailedResult(command, "STATE_WRITE_FAILED", SafeMessage(storeError), now))
    case Died => None
  }

  /** The answer is about this command. */
  predicate IsAnswerTo(command: Command, result: CommandResult, now: int) {
    result.commandId == command.id && result.idempotencyKey == command.idempotencyKey && result.completedAt == now
  }

  /** What is answered to a command under a free key when the store works. */
  predicate IsFirstAnswer(handlers: set<string>, command: Command, around: Surroundings, result: CommandResult) {
    var handled := command.kind in handlers;
    var returned := around.outcome.Returned? && around.outcome.payload.Some?;
    && IsAnswerTo(command, result, around.now)
    && (result.status == Unsupported <==> !handled)
    && (result.status == Succeeded <==> handled && returned)
    && (result.status == Failed <==> handled && !returned)
    && (result.status == Succeeded ==>
          result.payload == around.outcome.payload.value && result.errorCode == "" && result.message == "")
    && (result.status == Failed ==> result.payload == [] && '\0' !in result.message)
    && (result.status == Unsupported ==> result.payload == [] && result.errorCode == "CAPABILITY_NOT_AVAILABLE")
  }

  /** What is answered to a command that is refused, or when the store fails: nothing was run for it. */
  predicate IsOwnFailure(command: Command, code: string, now: int, result: CommandResult) {
    && IsAnswerTo(command, result, now)
    && result.status == Failed && result.errorCode == code && result.payload == [] && '\0' !in result.message
  }

  function CallOf(
    pathFor: string -> string, disk: Disk, handlers: set<string>, command: Command, around: Surroundings): Call
  {
    var invalid := ValidationError(command, around.now);
    if invalid.Some? then Call(disk, Some(FailedResult(command, "INVALID_COMMAND", invalid.value, around.now)), false)
    else ValidCallOf(pathFor, disk, handlers, command, around)
  }

  function ValidCallOf(
    pathFor: string -> string, disk: Disk, handlers: set<string>, command: Command, around: Surroundings): Call
  {
    match if around.firstReadable then LookupIn(pathFor, disk, command.idempotencyKey) else Unreadable
    case Found(existing) => Call(disk, Some(existing), false)
    case Unreadable =>
      Call(disk, Some(FailedResult(command, "STATE_READ_FAILED", SafeMessage(around.storeError), around.now)), false)
    case Absent =>
      var persisted := PersistOf(pathFor, disk, command, Proposed(handlers, command, around), around);
      Call(persisted.0, persisted.1, command.kind in handlers)
  }

  lemma ValidationRefuses(command: Command, now: int)
    ensures ValidationError(command, now).None? <==> IsAcceptable(command, now)
  {
  }

  lemma ProposedIsFirstAnswer(handlers: set<string>, command: Command, around: Surroundings)
    ensures IsFirstAnswer(handlers, command, around, Proposed(handlers, command, around))
  {
  }

  /** The answer to a valid command under a free key, and what it leaves, when the store can be read. */
  ghost predicate IsFirstCall(
    pathFor: string -> string, disk: Disk, handlers: set<string>, command: Command, around: Surroundings, call: Call)
  {
    && (call.ran <==> command.kind in handlers)
    && (around.fault.NoFault? ==>
          && call.result.Some? && IsFirstAnswer(handlers, command, around, call.result.value)
          && LookupIn(pathFor, call.disk, command.idempotencyKey) == Found(call.result.value))
    && (around.fault.ErrorAt? ==>
          && call.result.Some? && IsOwnFailure(command, "STATE_WRITE_FAILED", around.now, call.result.value)
          && call.disk == disk)
    && (around.fault.DeathAt? || around.fault.DeathAtEnd? ==> call.result.None?)
  }

  /** The answers of a call by what it meets, without the functions that compute them. */
  lemma CallAnswers(
    pathFor: string -> string, disk: Disk, handlers: set<string>, command: Command, around: Surroundings)
    ensures var call, key := CallOf(pathFor, disk, handlers, command, around), command.idempotencyKey;
            && (!IsAcceptable(command, around.now) ==>
                  && call.result.Some? && IsOwnFailure(command, "INVALID_COMMAND", around.now, call.result.value)
                  && call.disk == disk && !call.ran)
            && (IsAcceptable(command, around.now) && !around.firstReadable ==>
                  && call.result.Some? && IsOwnFailure(command, "STATE_READ_FAILED", around.now, call.result.value)
                  && call.disk == disk && !call.ran)
            && (&& IsAcceptable(command, around.now) && around.firstReadable && around.secondReadable
                && LookupIn(pathFor, disk, key).Absent? ==>
                  IsFirstCall(pathFor, disk, handlers, command, around, call))
  {
    ValidationRefuses(command, around.now);
    ProposedIsFirstAnswer(handlers, command, around);
  }

  function PersistOf(
    pathFor: string -> string, disk: Disk, command: Command, proposed: CommandResult, around: Surroundings)
    : (Disk, Option<CommandResult>)
  {
    var second := if around.secondReadable then LookupIn(pathFor, disk, command.idempotencyKey) else Unreadable;
    (if FileStore.Commits(second, around.fault)
     then FileUnder(pathFor, disk, command.idempotencyKey, proposed, around.now) else disk,
     Reported(command, FileStore.Answer(second, proposed, around.fault), around.now, around.storeError))
  }

  lemma PersistStores(
    pathFor: string -> string, disk: Disk, command: Command, proposed: CommandResult, around: Surroundings)
    requires WellFiled(pathFor, disk)
    ensures var persisted := PersistOf(pathFor, disk, command, proposed, around);
            && WellFiled(pathFor, persisted.0)
            && (persisted.1.Some? && persisted.1.value.errorCode !in UNSTORED_CODES ==>
                  LookupIn(pathFor, persisted.0, command.idempotencyKey) == Found(persisted.1.value))
  {
  }

  lemma ValidCallStores(
    pathFor: string -> string, disk: Disk, handlers: set<string>, command: Command, around: Surroundings)
    requires WellFiled(pathFor, disk)
    ensures var call := ValidCallOf(pathFor, disk, handlers, command, around);
            && WellFiled(pathFor, call.disk)
            && (call.result.Some? && call.result.value.errorCode !in UNSTORED_CODES ==>
                  LookupIn(pathFor, call.disk, command.idempotencyKey) == Found(call.result.value))
  {
    PersistStores(pathFor, disk, command, Proposed(handlers, command, around), around);
  }

  /** A result that is not one of the executor's own failures is the record the key has from now on. */
  lemma ReportedResultIsStored(
    pathFor: string -> string, disk: Disk, handlers: set<string>, command: Command, around: Surroundings)
    requires WellFiled(pathFor, disk)
    ensures var call := CallOf(pathFor, disk, handlers, command, around);
            && WellFiled(pathFor, call.disk)
            && (call.result.Some? && call.result.value.errorCode !in UNSTORED_CODES ==>
                  LookupIn(pathFor, call.disk, command.idempotencyKey) == Found(call.result.value))
  {
    ValidCallStores(pathFor, disk, handlers, command, around);
  }

  /**
    Retrying is safe: after a call that stored its result, even one whose process died before
    answering, any later valid call under the same key returns that record and runs no handler,
    whatever command it carries.
   */
  lemma RetryReplays(
    pathFor: string -> string, disk: Disk, handlers: set<string>,
    command: Command, around: Surroundings, retry: Command, later: Surroundings)
    requires WellFiled(pathFor, disk)
    requires retry.idempotencyKey == command.idempotencyKey
    requires ValidationError(retry, later.now).None? && later.firstReadable
    ensures var first := CallOf(pathFor, disk, handlers, command, around);
            var second := CallOf(pathFor, first.disk, handlers, retry, later);
            LookupIn(pathFor, first.disk, command.idempotencyKey).Found? ==>
              && second.disk == first.disk
              && !second.ran
              && second.result == Some(first.disk[pathFor(command.idempotencyKey)].result)
              && (first.result.Some? && first.result.value.errorCode !in UNSTORED_CODES ==>
                  second.result == first.result)
  {
    ReportedResultIsStored(pathFor, disk, handlers, command, around);
  }

  /** A handler runs only for a key without a record, and at most one record is added. */
  lemma CallRunsOnlyOnAbsentKeys(
    pathFor: string -> string, disk: Disk, handlers: set<string>, command: Command, around: Surroundings)
    requires WellFiled(pathFor, disk)
    ensures var call := CallOf(pathFor, disk, handlers, command, around);
            && WellFiled(pathFor, call.disk)
            && (call.ran ==> LookupIn(pathFor, disk, command.idempotencyKey).Absent?)
            && (forall key :: key in EntriesOf(pathFor, disk) ==>
                  key in EntriesOf(pathFor, call.disk)
                    && EntriesOf(pathFor, call.disk)[key] == EntriesOf(pathFor, disk)[key])
            && (forall key :: key in EntriesOf(pathFor, call.disk) ==>
                key in EntriesOf(pathFor, disk) || key == command.idempotencyKey)
  {
    var call := CallOf(pathFor, disk, handlers, command, around);
    if call.disk != disk {
      FilingAddsOneEntry(pathFor, disk, command.idempotencyKey, Proposed(handlers, command, around), around.now);
    }
  }

  // ----- the executor

  class Executor {
    const store: FileStore
    const handlers: set<string>
    /** The commands handed to a handler so far. */
    var invoked: seq<Command>

    constructor (store: FileStore, handlers: set<string>)
      requires handlers <= KNOWN_KINDS
      ensures this.store == store && this.handlers == handlers && invoked == []
    {
      this.store, this.handlers, invoked := store, handlers, [];
    }

    method Execute(command: Command, around: Surroundings) returns (result: Option<CommandResult>)
      requires store.Valid()
      modifies this`invoked, store
      ensures store.Valid()
      ensures var call := CallOf(store.pathFor, old(store.records), handlers, command, around);
              && result == call.result
              && store.records == call.disk
              && invoked == if call.ran then old(invoked) + [command] else old(invoked)
      ensures !IsAcceptable(command, around.now) ==>
                && result.Some? && IsOwnFailure(command, "INVALID_COMMAND", around.now, result.value)
                && store.records == old(store.records) && invoked == old(invoked)
      ensures IsAcceptable(command, around.now) && !around.firstReadable ==>
                && result.Some? && IsOwnFailure(command, "STATE_READ_FAILED", around.now, result.value)
                && store.records == old(store.records) && invoked == old(invoked)
      ensures && IsAcceptable(command, around.now) && around.firstReadable && around.secondReadable
              && LookupIn(store.pathFor, old(store.records), command.idempotencyKey).Absent? ==>
                var ran := command.kind in handlers;
                && invoked == (if ran then old(invoked) + [command] else old(invoked))
                && IsFirstCall(store.pathFor, old(store.records), handlers, command, around,
                     Call(store.records, result, ran))
    {
      CallAnswers(store.pathFor, store.records, handlers, command, around);
      var invalid := ValidationError(command, around.now);
      if invalid.Some? {
        return Some(FailedResult(command, "INVALID_COMMAND", invalid.value, around.now));
      }
      result := ExecuteValid(command, around);
    }

    method ExecuteValid(command: Command, around: Surroundings) returns (result: Option<CommandResult>)
      requires store.Valid()
      modifies this`invoked, store
      ensures store.Valid()
      ensures var call := ValidCallOf(store.pathFor, old(store.records), handlers, command, around);
              && result == call.result
              && store.records == call.disk
              && invoked == if call.ran then old(invoked) + [command] else old(invoked)
    {
      var existing := store.Get(command.idempotencyKey, around.firstReadable);
      if existing.Unreadable? {
        return Some(FailedResult(command, "STATE_READ_FAILED", SafeMessage(around.storeError), around.now));
      }
      if existing.Found? {
        return Some(existing.result);
      }
      if command.kind !in handlers {
        result := Persist(command, UnsupportedResult(command, around.now), around);
        return;
      }
      invoked := invoked + [command];
      result := Persist(command, ResultOf(command, around.outcome, around.now), around);
    }

    method Persist(command: Command, proposed: CommandResult, around: Surroundings)
      returns (result: Option<CommandResult>)
      requires store.Valid()
      modifies store
      ensures store.Valid()
      ensures (store.records, result) == PersistOf(store.pathFor, old(store.records), command, proposed, around)
    {
      var outcome := store.Put(command.idempotencyKey, proposed, around.now, around.secondReadable, around.fault);
      match outcome
      case Died => return None;
      case PutFailed =>
        return Some(FailedResult(command, "STATE_WRITE_FAILED", SafeMessage(around.storeError), around.now));
      case Duplicate(stored) => return Some(stored);
      case Stored(_) => return Some(proposed);
    }
  }
}
