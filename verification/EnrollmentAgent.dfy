/**
  The agent's side of enrollment: a pending attempt that survives crashes, and the credential
  directory that is put in place by one rename and never overwritten.
 */
module EnrollmentAgent {
  import opened EnrollmentPanel
  import opened Patterns
  import opened Wrappers

  datatype Pending = Pending(attemptId: string, privateKey: string, csr: Csr)

  datatype Credentials = Credentials(privateKey: string, response: Response)

  /** The key pair is matched here; `trusted` stands for the checks of URL, dates and CA chain. */
  predicate Acceptable(publicOf: string -> string, trusted: Response -> bool, response: Response, privateKey: string) {
    && trusted(response)
    && response.certificate.publicKey == publicOf(privateKey)
    && response.certificate.commonName == response.machineUuid
  }

  // ----- directories that appear by one rename

  /** A directory by its files. */
  type Folder = map<string, string>

  datatype FolderName = ConfigDir | PendingDir | Staging(serial: nat)

  datatype File = File(name: string, text: string)

  /** The staging directories are numbered. */
  datatype Disk = Disk(folders: map<FolderName, Folder>, next: nat)

  /**
    How committing a directory goes: well, or it stops in the file numbered `file` with that much of
    it written, or, past the last file, before the rename; or the process dies right after the rename.
   */
  datatype Halt = Never | Stops(file: nat, text: string, dies: bool) | DiesAfterwards

  predicate Lands(halt: Halt) {
    !halt.Stops?
  }

  function FolderOf(files: seq<File>): Folder {
    if files == [] then map[] else FolderOf(files[..|files| - 1])[files[|files| - 1].name := files[|files| - 1].text]
  }

  lemma FolderOfOneMore(files: seq<File>, file: File)
    ensures FolderOf(files + [file]) == FolderOf(files)[file.name := file.text]
  {
    assert (files + [file])[..|files|] == files;
  }

  lemma FolderOfThree(a: File, b: File, c: File)
    ensures FolderOf([a, b, c]) == map[a.name := a.text][b.name := b.text][c.name := c.text]
  {
    FolderOfOneMore([a, b], c);
    FolderOfOneMore([a], b);
    FolderOfOneMore([], a);
    assert [a, b] + [c] == [a, b, c] && [a] + [b] == [a, b] && [] + [a] == [a];
  }

  /** A file of the directory holds the last text written under its name. */
  lemma {:induction false} FolderHolds(files: seq<File>, name: string)
    ensures name in FolderOf(files) <==> exists i :: 0 <= i < |files| && files[i].name == name
    ensures name in FolderOf(files) ==>
              exists i :: 0 <= i < |files| && files[i] == File(name, FolderOf(files)[name])
                && forall j :: i < j < |files| ==> files[j].name != name
  {
    if files != [] {
      var last := |files| - 1;
      FolderHolds(files[..last], name);
      assert files[last].name == name ==> files[last] == File(name, FolderOf(files)[name]);
    }
  }

  function FolderAt(d: Disk, name: FolderName): Option<Folder> {
    if name in d.folders then Some(d.folders[name]) else None
  }

  ghost predicate SameNamed(d: Disk, e: Disk, but: FolderName) {
    forall name: FolderName :: name != but && !name.Staging? ==> FolderAt(e, name) == FolderAt(d, name)
  }

  /** At this moment the directory is as before or has appeared with all its files. */
  ghost predicate AllOrNothing(d: Disk, e: Disk, target: FolderName, files: seq<File>) {
    && SameNamed(d, e, target)
    && (FolderAt(e, target) == FolderAt(d, target)
        || (target !in d.folders && FolderAt(e, target) == Some(FolderOf(files))))
  }

  /**
    Writes the files into a staging directory and renames it, which fails over an existing directory.
    `states` are the disks after each file and at the end.
   */
  method Commit(d: Disk, target: FolderName, files: seq<File>, halt: Halt)
    returns (after: Disk, ok: bool, ghost states: seq<Disk>)
    requires !target.Staging?
    ensures SameNamed(d, after, target)
    ensures FolderAt(after, target) ==
            if target in d.folders || !Lands(halt) then FolderAt(d, target) else Some(FolderOf(files))
    ensures ok <==> target !in d.folders && halt.Never?
    ensures states != [] && states[|states| - 1] == after
    ensures forall i :: 0 <= i < |states| ==> AllOrNothing(d, states[i], target, files)
  {
    var staging := Staging(d.next);
    after, ok, states := Disk(d.folders[staging := map[]], d.next + 1), false, [d];
    for i := 0 to |files|
      invariant AllOrNothing(d, after, target, files)
      invariant FolderAt(after, target) == FolderAt(d, target)
      invariant staging in after.folders && after.folders[staging] == FolderOf(files[..i])
      invariant states != [] && forall k :: 0 <= k < |states| ==> AllOrNothing(d, states[k], target, files)
      invariant halt.Stops? ==> halt.file >= i
    {
      assert files[..i + 1][..i] == files[..i];
      var stopsHere := halt.Stops? && halt.file == i;
      var text := if stopsHere then halt.text else files[i].text;
      after := after.(folders := after.folders[staging := after.folders[staging][files[i].name := text]]);
      states := states + [after];
      if stopsHere {
        after := if halt.dies then after else after.(folders := after.folders - {staging});
        states := states + [after];
        return;
      }
    }
    assert files[..|files|] == files;
    if halt.Stops? || target in d.folders {
      after := if halt.Stops? && halt.dies then after else after.(folders := after.folders - {staging});
      states := states + [after];
      return;
    }
    after := after.(folders := (after.folders - {staging})[target := after.folders[staging]]);
    states := states + [after];
    ok := halt.Never?;
  }

  // ----- the enroll command

  /** How the directory of the finished attempt goes away: wholly, or it is left in part or as it is. */
  datatype Removal = Removed | Left(folder: Folder)

  class AgentHost {
    const publicOf: string -> string
    const trusted: Response -> bool
    /** How keys, certificates and the environment file are written, and how a pending attempt is read back. */
    const keyText: string -> string
    const certificateText: Certificate -> string
    const environment: Response -> string
    const readPending: Folder -> Option<Pending>
    var disk: Disk

    function PendingFiles(pending: Pending): seq<File> {
      [File("client.key", keyText(pending.privateKey)), File("request.csr", pending.csr.text),
       File("attempt-id", pending.attemptId + "\n")]
    }

    function CredentialFiles(privateKey: string, response: Response): seq<File> {
      [File("client.crt", certificateText(response.certificate)), File("client.key", keyText(privateKey)),
       File("ca.crt", response.caCertificate), File("agent.env", environment(response))]
    }

    /** The credential directory has four files: certificate, key, CA certificate and environment. */
    lemma CredentialsAre(privateKey: string, response: Response)
      ensures FolderOf(CredentialFiles(privateKey, response)) ==
              map["ca.crt" := response.caCertificate, "agent.env" := environment(response),
                  "client.crt" := certificateText(response.certificate), "client.key" := keyText(privateKey)]
    {
      FolderOfThree(File("client.crt", certificateText(response.certificate)), File("client.key", keyText(privateKey)),
          File("ca.crt", response.caCertificate));
      var files := CredentialFiles(privateKey, response);
      assert files[..3] == [files[0], files[1], files[2]];
    }

    /** The pending attempt has three: its key, its CSR and its name on a line. */
    lemma PendingIs(pending: Pending)
      ensures FolderOf(PendingFiles(pending)) ==
              map["attempt-id" := pending.attemptId + "\n", "request.csr" := pending.csr.text,
                  "client.key" := keyText(pending.privateKey)]
    {
      var files := PendingFiles(pending);
      FolderOfThree(files[0], files[1], files[2]);
    }

    /** The CSR is for the key. */
    predicate KeyFits(pending: Pending) {
      pending.csr.publicKey == publicOf(pending.privateKey)
    }

    /** What the host generates: a CSR for the new key, and a UUID as the attempt's name. */
    predicate IsAttempt(pending: Pending) {
      KeyFits(pending) && IsUuid(pending.attemptId)
    }

    /** A generated attempt is read back as written, and nothing is read whose CSR does not fit its key. */
    ghost predicate ReadsBack() {
      && (forall pending :: IsAttempt(pending) ==> readPending(FolderOf(PendingFiles(pending))) == Some(pending))
      && forall folder :: readPending(folder).Some? ==> KeyFits(readPending(folder).value)
    }

    /** A pending attempt on disk can be read back, unless the host has its credentials already. */
    /** An attempt whose CSR is for its key and whose name is a UUID is found again, and no other CSR is. */
    lemma PendingReadsBack(pending: Pending, folder: Folder)
      requires ReadsBack()
      ensures IsAttempt(pending) <==>
                pending.csr.publicKey == publicOf(pending.privateKey) && IsUuid(pending.attemptId)
      ensures IsAttempt(pending) ==>
                readPending(map["attempt-id" := pending.attemptId + "\n", "request.csr" := pending.csr.text,
                                "client.key" := keyText(pending.privateKey)]) == Some(pending)
      ensures readPending(folder).Some? ==>
                readPending(folder).value.csr.publicKey == publicOf(readPending(folder).value.privateKey)
    {
      PendingIs(pending);
    }

    ghost predicate Valid()
      reads this
    {
      ReadsBack()
        && (PendingDir in disk.folders && ConfigDir !in disk.folders ==> readPending(disk.folders[PendingDir]).Some?)
    }

    constructor (
      publicOf: string -> string, trusted: Response -> bool, keyText: string -> string,
      certificateText: Certificate -> string, environment: Response -> string,
      readPending: Folder -> Option<Pending>)
      ensures this.publicOf == publicOf && this.trusted == trusted && this.keyText == keyText
      ensures this.certificateText == certificateText && this.environment == environment
                && this.readPending == readPending
      ensures disk == Disk(map[], 0)
    {
      this.publicOf, this.trusted, this.keyText := publicOf, trusted, keyText;
      this.certificateText, this.environment, this.readPending := certificateText, environment, readPending;
      disk := Disk(map[], 0);
    }

    /** The attempt the command goes on with, and whether it gets that far. */
    ghost function AttemptOf(before: Disk, newborn: Pending, halt: Halt): Option<Pending> {
      if PendingDir in before.folders then readPending(before.folders[PendingDir])
      else if halt.Never? then Some(newborn)
      else None
    }

    /** Reuses the attempt on disk; only when there is none is a new one committed. */
    method LoadOrCreatePending(newborn: Pending, halt: Halt) returns (loaded: Option<Pending>, ghost states: seq<Disk>)
      requires ReadsBack() && IsAttempt(newborn)
      modifies this
      ensures loaded == AttemptOf(old(disk), newborn, halt) && (loaded.Some? ==> KeyFits(loaded.value))
      ensures loaded == if PendingDir in old(disk).folders then readPending(old(disk).folders[PendingDir])
                        else if halt.Never? then Some(newborn) else None
      ensures SameNamed(old(disk), disk, PendingDir)
      ensures FolderAt(disk, PendingDir) ==
              if PendingDir in old(disk).folders || !Lands(halt) then FolderAt(old(disk), PendingDir)
              else Some(FolderOf(PendingFiles(newborn)))
      ensures forall i :: 0 <= i < |states| ==> AllOrNothing(old(disk), states[i], PendingDir, PendingFiles(newborn))
    {
      states := [];
      if PendingDir in disk.folders {
        return readPending(disk.folders[PendingDir]), states;
      }
      var committed: bool;
      disk, committed, states := Commit(disk, PendingDir, PendingFiles(newborn), halt);
      return if committed then Some(newborn) else None, states;
    }

    /** Renaming over an existing credential directory fails. */
    method Install(privateKey: string, response: Response, halt: Halt)
      returns (installed: bool, ghost states: seq<Disk>)
      modifies this
      ensures installed <==> ConfigDir !in old(disk).folders && halt.Never?
      ensures SameNamed(old(disk), disk, ConfigDir)
      ensures FolderAt(disk, ConfigDir) ==
              if ConfigDir in old(disk).folders || !Lands(halt) then FolderAt(old(disk), ConfigDir)
              else Some(FolderOf(CredentialFiles(privateKey, response)))
      ensures forall i :: 0 <= i < |states| ==>
                AllOrNothing(old(disk), states[i], ConfigDir, CredentialFiles(privateKey, response))
    {
      disk, installed, states := Commit(disk, ConfigDir, CredentialFiles(privateKey, response), halt);
    }

    /**
      Existing credentials are never touched. Otherwise the attempt on disk, or the new one, is sent;
      it stays on disk, whole, until a response for its key has been installed, so the next run
      repeats exactly the same exchange and never finds an attempt it cannot read.
     */
    method Enroll(newborn: Pending, exchange: Pending -> Option<Response>, first: Halt, second: Halt, removal: Removal)
      returns (machineUuid: Option<string>)
      requires Valid() && IsAttempt(newborn)
      modifies this
      ensures Valid()
      ensures ConfigDir in old(disk).folders ==> machineUuid == None && disk == old(disk)
      ensures var sent := AttemptOf(old(disk), newborn, first);
              ConfigDir !in old(disk).folders ==>
                if sent.None? then
                  && machineUuid == None && ConfigDir !in disk.folders
                  && FolderAt(disk, PendingDir) == if first.DiesAfterwards? then Some(FolderOf(PendingFiles(newborn)))
                    else None
                else
                  var answer := exchange(sent.value);
                  if answer.None? || !Acceptable(publicOf, trusted, answer.value, sent.value.privateKey)
                    || !Lands(second) then
                    && machineUuid == None && ConfigDir !in disk.folders
                    && PendingDir in disk.folders && readPending(disk.folders[PendingDir]) == sent
                  else
                    && FolderAt(disk, ConfigDir) == Some(FolderOf(CredentialFiles(sent.value.privateKey, answer.value)))
                    && (machineUuid.Some? <==> second.Never? && removal.Removed?)
                    && (machineUuid.Some? ==>
                        machineUuid.value == answer.value.machineUuid && PendingDir !in disk.folders)
    {
      if ConfigDir in disk.folders {
        return None;
      }
      ghost var start := disk;
      var loaded, _ := LoadOrCreatePending(newborn, first);
      assert FolderAt(disk, ConfigDir) == FolderAt(start, ConfigDir);
      if loaded.None? {
        return None;
      }
      var answer := exchange(loaded.value);
      if answer.None? || !Acceptable(publicOf, trusted, answer.value, loaded.value.privateKey) {
        return None;
      }
      ghost var pending := disk;
      var installed, _ := Install(loaded.value.privateKey, answer.value, second);
      assert FolderAt(disk, PendingDir) == FolderAt(pending, PendingDir);
      if !installed {
        return None;
      }
      if removal.Left? {
        disk := disk.(folders := disk.folders[PendingDir := removal.folder]);
        return None;
      }
      disk := disk.(folders := disk.folders - {PendingDir});
      return Some(answer.value.machineUuid);
    }
  }
}
