/**
  The agent's durable command store: one file per idempotency key, filed under a hash
  of the key, written to a temporary file and renamed into place.
  The hash is arbitrary: two keys may share a file name.
 */
module CommandStore {
  import opened AtomicFile
  import opened Wrappers

  datatype Status = Succeeded | Failed | Unsupported

  datatype CommandResult = CommandResult(
    commandId: string,
    idempotencyKey: string,
    status: Status,
    errorCode: string,
    message: string,
    payload: Bytes,
    completedAt: int)

  datatype Record = Record(idempotencyKey: string, result: CommandResult, storedAt: int)

  /** The complete records under their final file names, keyed by the hash in the name. */
  type Disk = map<string, Record>

  datatype Lookup = Found(result: CommandResult) | Absent | Unreadable

  datatype PutOutcome =
    | Stored(result: CommandResult)
    | Duplicate(existing: CommandResult)
    | PutFailed
    | Died

  // ----- the write-once map the store stands for

  ghost predicate WellFiled(pathFor: string -> string, disk: Disk) {
    forall path :: path in disk ==> pathFor(disk[path].idempotencyKey) == path
  }

  /** The records as a map from idempotency key to result. */
  ghost function EntriesOf(pathFor: string -> string, disk: Disk): map<string, CommandResult>
    requires WellFiled(pathFor, disk)
  {
    map path | path in disk :: disk[path].idempotencyKey := disk[path].result
  }

  function LookupIn(pathFor: string -> string, disk: Disk, key: string): Lookup {
    var path := pathFor(key);
    if path !in disk then Absent
    else if disk[path].idempotencyKey != key then Unreadable
    else Found(disk[path].result)
  }

  function FileUnder(pathFor: string -> string, disk: Disk, key: string, result: CommandResult, storedAt: int): Disk {
    disk[pathFor(key) := Record(key, result, storedAt)]
  }

  lemma EntryIsFound(pathFor: string -> string, disk: Disk, key: string)
    requires WellFiled(pathFor, disk)
    ensures key in EntriesOf(pathFor, disk) <==> LookupIn(pathFor, disk, key).Found?
    ensures key in EntriesOf(pathFor, disk) ==> LookupIn(pathFor, disk, key) == Found(EntriesOf(pathFor, disk)[key])
  {
    var entries := EntriesOf(pathFor, disk);
    var path := pathFor(key);
    if path in disk {
      assert disk[path].idempotencyKey in entries;
    }
    if key in entries {
      var p :| p in disk && disk[p].idempotencyKey == key;
      assert p == path;
    }
  }

  /** Reading a key answers exactly from the map: its own entry, or nothing, and never another key's entry. */
  lemma LookupReadsTheMap(pathFor: string -> string, disk: Disk, key: string)
    requires WellFiled(pathFor, disk)
    ensures forall r :: LookupIn(pathFor, disk, key) == Found(r) <==>
              (key in EntriesOf(pathFor, disk) && EntriesOf(pathFor, disk)[key] == r)
    ensures LookupIn(pathFor, disk, key) == Unreadable <==>
              && key !in EntriesOf(pathFor, disk)
              && exists other :: other in EntriesOf(pathFor, disk) && pathFor(other) == pathFor(key)
  {
    EntryIsFound(pathFor, disk, key);
    var path := pathFor(key);
    if LookupIn(pathFor, disk, key).Unreadable? {
      EntryIsFound(pathFor, disk, disk[path].idempotencyKey);
    }
    if other :| other in EntriesOf(pathFor, disk) && pathFor(other) == path {
      EntryIsFound(pathFor, disk, other);
    }
  }

  /** Filing a record under a free name adds exactly that entry to the map. */
  lemma FilingAddsOneEntry(pathFor: string -> string, disk: Disk, key: string, result: CommandResult, storedAt: int)
    requires WellFiled(pathFor, disk)
    requires LookupIn(pathFor, disk, key) == Absent
    ensures WellFiled(pathFor, FileUnder(pathFor, disk, key, result, storedAt))
    ensures key !in EntriesOf(pathFor, disk)
    ensures EntriesOf(pathFor, FileUnder(pathFor, disk, key, result, storedAt)) ==
              EntriesOf(pathFor, disk)[key := result]
  {
    var filed := FileUnder(pathFor, disk, key, result, storedAt);
    var before, after := EntriesOf(pathFor, disk), EntriesOf(pathFor, filed);
    forall k
      ensures k in after <==> k == key || k in before
      ensures k in after ==> after[k] == if k == key then result else before[k]
    {
      EntryIsFound(pathFor, disk, k);
      EntryIsFound(pathFor, filed, k);
      EntryIsFound(pathFor, disk, key);
    }
  }

  /** Filing a record never disturbs what any other key reads. */
  lemma FilingKeepsFound(
    pathFor: string -> string, disk: Disk, key: string, result: CommandResult, storedAt: int, other: string)
    requires LookupIn(pathFor, disk, key) == Absent
    requires LookupIn(pathFor, disk, other).Found?
    ensures LookupIn(pathFor, FileUnder(pathFor, disk, key, result, storedAt), other) == LookupIn(pathFor, disk, other)
  {
  }

  // ----- the store itself

  class FileStore {
    const pathFor: string -> string
    const encode: Record -> Bytes
    const decode: Bytes -> Option<Record>
    var directory: Directory
    ghost var records: Disk

    /** Every final name holds one complete record that belongs there; temporary names hold anything. */
    ghost predicate Valid()
      reads this
    {
      && (forall record: Record :: decode(encode(record)) == Some(record))
      && WellFiled(pathFor, records)
      && Numbered(directory)
      && (forall path :: ContentOf(directory, path).Some? <==> path in records)
      && (forall path :: path in records ==> decode(ContentOf(directory, path).value) == Some(records[path]))
    }

    ghost function Entries(): map<string, CommandResult>
      requires Valid()
      reads this
    {
      EntriesOf(pathFor, records)
    }

    /** What one `Put` answers, from the records before it and the fault it meets. */
    static function Answer(lookup: Lookup, result: CommandResult, fault: Fault): PutOutcome {
      match lookup
      case Found(existing) => Duplicate(existing)
      case Unreadable => PutFailed
      case Absent =>
        match fault
        case NoFault => Stored(result)
        case ErrorAt(_, _) => PutFailed
        case DeathAt(_) => Died
        case DeathAtEnd => Died
    }

    static predicate Commits(lookup: Lookup, fault: Fault) {
      lookup.Absent? && Lands(fault)
    }

    constructor (pathFor: string -> string, encode: Record -> Bytes, decode: Bytes -> Option<Record>)
      requires forall record: Record :: decode(encode(record)) == Some(record)
      ensures Valid() && records == map[] && Entries() == map[]
      ensures this.pathFor == pathFor && this.encode == encode && this.decode == decode
    {
      this.pathFor, this.encode, this.decode := pathFor, encode, decode;
      directory, records := EMPTY, map[];
    }

    /** `readable` is false when the operating system refuses to read an existing file. */
    method Get(key: string, readable: bool) returns (lookup: Lookup)
      requires Valid()
      ensures lookup == if readable then LookupIn(pathFor, records, key) else Unreadable
      ensures readable ==> (lookup.Found? <==> key in Entries())
      ensures lookup.Found? ==> Entries()[key] == lookup.result
    {
      EntryIsFound(pathFor, records, key);
      var content := ContentOf(directory, pathFor(key));
      if !readable {
        return Unreadable;
      }
      if content.None? {
        return Absent;
      }
      var record := decode(content.value);
      if record.None? || record.value.idempotencyKey != key {
        return Unreadable;
      }
      return Found(record.value.result);
    }

    /**
      Adds one record, unless the name is taken. Whatever fault strikes, the final names
      hold the old records or the old records and this one, complete.
     */
    method Put(key: string, result: CommandResult, storedAt: int, readable: bool, fault: Fault)
      returns (outcome: PutOutcome)
      requires Valid()
      modifies this
      ensures Valid()
      ensures var lookup := if readable then LookupIn(pathFor, old(records), key) else Unreadable;
              outcome == Answer(lookup, result, fault)
      ensures var lookup := if readable then LookupIn(pathFor, old(records), key) else Unreadable;
              if Commits(lookup, fault)
              then records == FileUnder(pathFor, old(records), key, result, storedAt)
                && Entries() == old(Entries())[key := result]
              else records == old(records) && Entries() == old(Entries())
    {
      var lookup := Get(key, readable);
      if lookup.Found? {
        return Duplicate(lookup.result);
      }
      if lookup.Unreadable? {
        return PutFailed;
      }
      FilingAddsOneEntry(pathFor, records, key, result, storedAt);
      Write(Record(key, result, storedAt), fault);
      outcome := Answer(Absent, result, fault);
    }

    /** Writes one record under its free name; the other names keep their records wherever it stops. */
    method Write(record: Record, fault: Fault)
      requires Valid() && pathFor(record.idempotencyKey) !in records
      modifies this
      ensures Valid()
      ensures records == if Lands(fault) then old(records)[pathFor(record.idempotencyKey) := record] else old(records)
    {
      var path := pathFor(record.idempotencyKey);
      ghost var before, states := directory, [];
      directory, states := Replace(directory, path, encode(record), fault);
      if Lands(fault) {
        records := records[path := record];
      }
      forall other | other != path
        ensures ContentOf(directory, other) == ContentOf(before, other)
      {
      }
    }
  }

  /** A key whose name is taken by another key stays out: it can neither be read nor stored. */
  lemma CollisionIsRefused(
    pathFor: string -> string, disk: Disk, holder: string, key: string, result: CommandResult, fault: Fault)
    requires WellFiled(pathFor, disk)
    requires holder in EntriesOf(pathFor, disk) && key != holder && pathFor(key) == pathFor(holder)
    ensures LookupIn(pathFor, disk, key) == Unreadable
    ensures FileStore.Answer(LookupIn(pathFor, disk, key), result, fault) == PutFailed
    ensures !FileStore.Commits(LookupIn(pathFor, disk, key), fault)
  {
    LookupReadsTheMap(pathFor, disk, key);
    LookupReadsTheMap(pathFor, disk, holder);
    var p :| p in disk && disk[p].idempotencyKey == holder;
  }
}
