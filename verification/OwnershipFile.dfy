/** The one-record files that say which machine owns a host resource, as their bytes are read. */
module OwnershipFile {
  import opened Wrappers
  import opened AtomicFile

  /** Absent, a complete record, or bytes that are none: what is left of an interrupted creation. */
  datatype RecordFile<R> = Missing | Torn | Held(record: R)

  /** What reading the file finds. */
  datatype Reading<R> = NotExist | Unsafe | Read(record: R)

  /** A valid record is read back as written, its beginning is no record, and only valid records are read. */
  ghost predicate Codec<R(!new)>(encode: R -> Bytes, decode: Bytes -> Option<R>, valid: R -> bool) {
    && (forall record: R :: valid(record) ==> decode(encode(record)) == Some(record))
    && (forall record: R, n: nat :: valid(record) && n < |encode(record)| ==> decode(encode(record)[..n]) == None)
    && forall bytes: Bytes :: decode(bytes).Some? ==> valid(decode(bytes).value)
  }

  function FileOf<R>(content: Option<Bytes>, decode: Bytes -> Option<R>): RecordFile<R> {
    if content.None? then Missing
    else
      var record := decode(content.value);
      if record.Some? then Held(record.value) else Torn
  }

  function ReadingOf<R>(file: RecordFile<R>, readable: bool): Reading<R> {
    if !readable then Unsafe
    else match file
      case Missing => NotExist
      case Torn => Unsafe
      case Held(record) => Read(record)
  }

  /** A replaced record is the old one or the new one. */
  function AfterRename<R>(file: RecordFile<R>, record: R, fault: Fault): RecordFile<R> {
    if Lands(fault) then Held(record) else file
  }

  /** A created record can be torn: by a death while it is written, or by an error whose clean-up fails. */
  function AfterCreation<R>(record: R, size: nat, fault: Fault): RecordFile<R> {
    if !Strikes(fault) then Held(record)
    else if Early(fault.stage) || (fault.ErrorAt? && fault.cleaned && !fault.stage.Close?) then Missing
    else if fault.stage.Write? && fault.stage.written < size then Torn
    else Held(record)
  }

  lemma CreatedIsAfterCreation<R(!new)>(
    encode: R -> Bytes, decode: Bytes -> Option<R>, valid: R -> bool, record: R, fault: Fault)
    requires Codec(encode, decode, valid) && valid(record)
    ensures FileOf(Created(encode(record), fault), decode) == AfterCreation(record, |encode(record)|, fault)
  {
  }

  // ----- one thing after the other

  /** What is met in turn: the first that does not succeed decides. */
  function InTurn(met: seq<Reply>): Reply {
    if met == [] then Succeeds else if !met[0].Succeeds? then met[0] else InTurn(met[1..])
  }

  lemma OneInTurn(first: Reply, rest: seq<Reply>)
    ensures InTurn([first] + rest) == if first.Succeeds? then InTurn(rest) else first
  {
    assert ([first] + rest)[1..] == rest;
  }

  lemma {:induction false} InTurnMeans(met: seq<Reply>)
    ensures InTurn(met).Succeeds? <==> forall i :: 0 <= i < |met| ==> met[i].Succeeds?
    ensures !InTurn(met).Succeeds? ==>
              exists i :: 0 <= i < |met| && met[i] == InTurn(met) && forall j :: 0 <= j < i ==> met[j].Succeeds?
  {
    if met != [] && met[0].Succeeds? {
      InTurnMeans(met[1..]);
      assert forall i :: 0 < i < |met| ==> met[i] == met[1..][i - 1];
      if !InTurn(met).Succeeds? {
        var i :| 0 <= i < |met| - 1 && met[1..][i] == InTurn(met)
          && forall j :: 0 <= j < i ==> met[1..][j].Succeeds?;
        assert met[i + 1] == InTurn(met);
        assert forall j :: 0 < j < i + 1 ==> met[j] == met[1..][j - 1];
      }
    }
  }

  function Check(holds: bool): Reply {
    if holds then Succeeds else Fails
  }
}
