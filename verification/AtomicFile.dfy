/**
  How the components put a file in place: by a temporary file, a sync and a rename, or by an
  exclusive creation that fills the file where it is. Every system call can fail, and the process
  can die at every one of them.
 */
module AtomicFile {
  import opened Wrappers

  datatype FileName = Final(name: string) | Temporary(serial: nat)

  /** The files of one directory; temporary names are never used twice. */
  datatype Directory = Directory(files: map<FileName, Bytes>, next: nat)

  const EMPTY := Directory(map[], 0)

  /** Where a write can stop. `Encode` is everything before the file; `Write` leaves that many bytes behind. */
  datatype Stage = Encode | Create | Secure | Write(written: nat) | Sync | Close | Rename

  /**
    What the operating system does to one write: nothing, an error, or the death of the process.
    After an error the unfinished file is removed, unless that fails as well.
   */
  datatype Fault = NoFault | ErrorAt(stage: Stage, cleaned: bool) | DeathAt(stage: Stage) | DeathAtEnd

  /** What the caller sees of a command or a write. */
  datatype Reply = Succeeds | Fails | Dies

  /** The whole new content is in place, even if the process died right after. */
  predicate Lands(fault: Fault) {
    fault.NoFault? || fault.DeathAtEnd?
  }

  function ReplyTo(fault: Fault): Reply {
    match fault
    case NoFault => Succeeds
    case ErrorAt(_, _) => Fails
    case DeathAt(_) => Dies
    case DeathAtEnd => Dies
  }

  ghost predicate Numbered(d: Directory) {
    forall serial: nat :: Temporary(serial) in d.files ==> serial < d.next
  }

  function ContentOf(d: Directory, name: string): Option<Bytes> {
    if Final(name) in d.files then Some(d.files[Final(name)]) else None
  }

  /** The two directories hold the same under every final name but this one. */
  ghost predicate SameElsewhere(d: Directory, e: Directory, name: string) {
    forall other :: other != name ==> ContentOf(e, other) == ContentOf(d, other)
  }

  /** Nothing has been created yet. */
  predicate Early(stage: Stage) {
    stage.Encode? || stage.Create?
  }

  /** The bytes on disk when the writing stops there. */
  function Prefix(content: Bytes, stage: Stage): Bytes {
    match stage
    case Write(written) => if written < |content| then content[..written] else content
    case Sync => content
    case Close => content
    case Rename => content
    case _ => []
  }

  /** What a failed write leaves of its file: nothing, unless the process died or the removal failed too. */
  function Abandon(d: Directory, name: FileName, fault: Fault): Directory {
    if fault.ErrorAt? && fault.cleaned then d.(files := d.files - {name}) else d
  }

  /**
    Replaces a file. `states` are the directories after each system call: at every one of them, and
    so wherever the process dies, the final name holds its old content or the whole new one.
   */
  method Replace(d: Directory, name: string, content: Bytes, fault: Fault)
    returns (after: Directory, ghost states: seq<Directory>)
    requires Numbered(d)
    ensures Numbered(after) && SameElsewhere(d, after, name)
    ensures ContentOf(after, name) == if Lands(fault) then Some(content) else ContentOf(d, name)
    ensures states != [] && states[|states| - 1] == after
    ensures forall i :: 0 <= i < |states| ==> Untorn(d, states[i], name, content)
  {
    after, states := d, [d];
    if !Lands(fault) && Early(fault.stage) {
      return;
    }
    var temporary := Temporary(d.next);
    after := Directory(d.files[temporary := []], d.next + 1);
    states := states + [after];
    if !Lands(fault) && fault.stage.Secure? {
      after := Abandon(after, temporary, fault);
      states := states + [after];
      return;
    }
    after := after.(files := after.files[temporary := if Lands(fault) then content else Prefix(content, fault.stage)]);
    states := states + [after];
    if !Lands(fault) {
      after := Abandon(after, temporary, fault);
      states := states + [after];
      return;
    }
    after := after.(files := (after.files - {temporary})[Final(name) := content]);
    states := states + [after];
  }

  ghost predicate Untorn(d: Directory, e: Directory, name: string, content: Bytes) {
    (ContentOf(e, name) == ContentOf(d, name) || ContentOf(e, name) == Some(content)) && SameElsewhere(d, e, name)
  }

  // ----- exclusive creation

  /** A fault at a stage an exclusive creation does not have does not strike it. */
  predicate Strikes(fault: Fault) {
    !Lands(fault) && !fault.stage.Secure? && !fault.stage.Rename?
  }

  /** What an exclusive creation leaves under a free name. */
  function Created(content: Bytes, fault: Fault): Option<Bytes> {
    if !Strikes(fault) then Some(content)
    else if Early(fault.stage) || (fault.ErrorAt? && fault.cleaned && !fault.stage.Close?) then None
    else Some(Prefix(content, fault.stage))
  }

  function CreationReply(fault: Fault): Reply {
    if Strikes(fault) || fault.DeathAtEnd? then ReplyTo(fault) else Succeeds
  }

  /** What each fault makes of an exclusive creation: what is left under the name, and what the caller sees. */
  lemma CreationLeaves(content: Bytes, n: nat, cleaned: bool, stage: Stage)
    ensures var torn := if n < |content| then content[..n] else content;
            && Created(content, NoFault) == Some(content) && CreationReply(NoFault) == Succeeds
            && Created(content, DeathAtEnd) == Some(content) && CreationReply(DeathAtEnd) == Dies
            && Created(content, DeathAt(Write(n))) == Some(torn)
            && Created(content, ErrorAt(Write(n), cleaned)) == (if cleaned then None else Some(torn))
    ensures stage == Encode || stage == Create ==>
              Created(content, DeathAt(stage)) == None && Created(content, ErrorAt(stage, cleaned)) == None
    ensures stage == Sync || stage == Close ==>
              && Created(content, DeathAt(stage)) == Some(content)
              && Created(content, ErrorAt(stage, cleaned)) ==
                (if stage == Sync && cleaned then None else Some(content))
    ensures stage != Secure && stage != Rename ==>
              CreationReply(DeathAt(stage)) == Dies && CreationReply(ErrorAt(stage, cleaned)) == Fails
    ensures stage == Secure || stage == Rename ==>
              && Created(content, DeathAt(stage)) == Some(content) && CreationReply(DeathAt(stage)) == Succeeds
              && Created(content, ErrorAt(stage, cleaned)) == Some(content)
              && CreationReply(ErrorAt(stage, cleaned)) == Succeeds
  {
  }

  /** Creates a file that must not be there yet, in place: a stop in between can leave it torn. */
  method CreateExclusively(d: Directory, name: string, content: Bytes, fault: Fault)
    returns (after: Directory, reply: Reply)
    requires Numbered(d)
    ensures Numbered(after) && SameElsewhere(d, after, name)
    ensures Final(name) in d.files ==> after == d && reply == Fails
    ensures Final(name) !in d.files ==>
              ContentOf(after, name) == Created(content, fault) && reply == CreationReply(fault)
  {
    after := d;
    if Final(name) in d.files {
      return after, Fails;
    }
    reply := CreationReply(fault);
    if Strikes(fault) && Early(fault.stage) {
      return;
    }
    after := d.(files := d.files[Final(name) := []]);
    var written := if Strikes(fault) then Prefix(content, fault.stage) else content;
    after := after.(files := after.files[Final(name) := written]);
    if Strikes(fault) && !fault.stage.Close? {
      after := Abandon(after, Final(name), fault);
    }
  }
}
