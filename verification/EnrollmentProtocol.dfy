/**
  Enrollment end to end: any number of machines at the panel, each with its token, any number of
  concurrent requests, and any number of agent processes on one host, each given some token, with
  crashes, retries, lost answers and replaced tokens, in every order. Nothing is assumed about hash
  collisions.
 */
module EnrollmentProtocol {
  import opened Wrappers
  import opened EnrollmentPanel
  import opened EnrollmentAgent

  datatype Config = Config(
    hash: string -> string,
    fingerprint: Csr -> string,
    publicOf: string -> string,
    trusted: Response -> bool)

  datatype Request =
    | Waiting(exchange: Exchange, csr: Csr)
    | Eligible(exchange: Exchange, csr: Csr, now: int)
    | Issued(exchange: Exchange, csr: Csr, now: int, response: Response)
    | Overtaken(exchange: Exchange)
    | Sent(response: Response)
    | Closed

  /**
    One token of a machine at the panel: the machine's row as a request with that token finds it, and
    the requests. `granted` are the answers sent; `certified` is the CSR whose key is in the granted
    certificate.
   */
  datatype Panel = Panel(
    row: Row,
    grant: Option<Grant>,
    certified: Option<Csr>,
    granted: set<Grant>,
    requests: seq<Request>)

  /** The tokens by their hash. */
  type Panels = map<string, Panel>

  /** How far one run of the enroll command is. */
  datatype Phase =
    | TargetFree
    | Generated(pending: Pending)
    | Loaded(pending: Pending)
    | Answered(pending: Pending, response: Response)
    | Installing(pending: Pending, response: Response)
    | CleaningUp
    | Over

  /** One run of the enroll command on the host, with the token it was given. */
  datatype Process = Process(token: string, phase: Phase)

  /** `enrolledBy` is the token under which the credentials were installed. The attempt on disk names no token. */
  datatype Host = Host(
    pending: Option<Pending>,
    credentials: Option<Credentials>,
    enrolledBy: Option<string>,
    processes: seq<Process>,
    committed: set<Pending>)

  datatype State = State(panels: Panels, host: Host)

  datatype PanelStep =
    | Look(request: nat, now: int)
    | Issue(request: nat, serial: string, expiresAt: int, caCertificate: string, controlUrl: string)
    | Refuse(request: nat)
    | Consume(request: nat)
    | Reread(request: nat, now: int)
    | Connected
    | Archive

  datatype Step =
    | Create(tokenHash: string, uuid: string, expiresAt: int)
    | Rotate(tokenHash: string, newHash: string, expiresAt: int)
    | Arrive(token: string, attemptId: string, csr: Csr)
    | At(tokenHash: string, step: PanelStep)
    | Begin(token: string)
    | Inspect(process: nat, newborn: Pending)
    | CommitPending(process: nat)
    | Receive(process: nat, response: Response)
    | Verify(process: nat)
    | Install(process: nat)
    | CleanUp(process: nat)
    | Fail(process: nat)
    | HostCrash

  const INITIAL := State(map[], Host(None, None, None, [], {}))

  function NewPanel(tokenHash: string, uuid: string, expiresAt: int): Panel {
    Panel(Row(uuid, Some(tokenHash), Some(expiresAt), None, false, None, None, None, None, None), None, None, {}, [])
  }

  // ----- the panel's steps

  function PutRequest(p: Panel, i: nat, request: Request): Panel
    requires i < |p.requests|
  {
    p.(requests := p.requests[i := request])
  }

  function Send(p: Panel, i: nat, exchange: Exchange, response: Response): Panel
    requires i < |p.requests|
  {
    PutRequest(p, i, Sent(response)).(granted := p.granted + {Grant(exchange, response)})
  }

  function LookStep(p: Panel, i: nat, now: int): Panel
    requires i < |p.requests| && p.requests[i].Waiting?
  {
    var Waiting(exchange, csr) := p.requests[i];
    var machine := FindByCredential(p.row, exchange.tokenHash);
    var replay := ReplayEnrollment(machine, exchange, now);
    if replay.Some? then Send(p, i, exchange, replay.value)
    else if Admitted(machine, now) then PutRequest(p, i, Eligible(exchange, csr, now))
    else PutRequest(p, i, Closed)
  }

  function ConsumeStep(p: Panel, i: nat): Panel
    requires i < |p.requests| && p.requests[i].Issued?
  {
    var Issued(exchange, csr, now, response) := p.requests[i];
    if Consumable(p.row, p.row.uuid, exchange.tokenHash, now) then
      Send(p, i, exchange, response).(
        row := Consumed(p.row, exchange, now, response),
        grant := Some(Grant(exchange, response)),
        certified := Some(csr))
    else PutRequest(p, i, Overtaken(exchange))
  }

  function RereadStep(p: Panel, i: nat, now: int): Panel
    requires i < |p.requests| && p.requests[i].Overtaken?
  {
    var exchange := p.requests[i].exchange;
    var replay := ReplayEnrollment(FindByCredential(p.row, exchange.tokenHash), exchange, now);
    if replay.Some? then Send(p, i, exchange, replay.value) else PutRequest(p, i, Closed)
  }

  function PanelNext(p: Panel, step: PanelStep): Panel {
    match step
    case Look(i, now) => if i < |p.requests| && p.requests[i].Waiting? then LookStep(p, i, now) else p
    case Issue(i, serial, expiresAt, caCertificate, controlUrl) =>
      if i < |p.requests| && p.requests[i].Eligible? then
        var Eligible(exchange, csr, now) := p.requests[i];
        var certificate := Certificate(serial, csr.publicKey, p.row.uuid, expiresAt);
        PutRequest(p, i, Issued(exchange, csr, now, Response(p.row.uuid, certificate, caCertificate, controlUrl)))
      else p
    case Refuse(i) => if i < |p.requests| && p.requests[i].Eligible? then PutRequest(p, i, Closed) else p
    case Consume(i) => if i < |p.requests| && p.requests[i].Issued? then ConsumeStep(p, i) else p
    case Reread(i, now) => if i < |p.requests| && p.requests[i].Overtaken? then RereadStep(p, i, now) else p
    case Connected => p.(row := ReplayCleared(p.row))
    case Archive => p.(row := p.row.(archived := true))
  }

  function Arrived(c: Config, p: Panel, token: string, attemptId: string, csr: Csr): Panel {
    p.(requests := p.requests + [Waiting(Exchange(c.hash(token), attemptId, c.fingerprint(csr)), csr)])
  }

  /**
    The row has another token now: by the old one nothing is found, consumed or replayed any more.
    That holds also for a replacement that overwrites a consumption it has not seen.
   */
  function Retired(p: Panel): Panel {
    p.(row := ReplayCleared(p.row).(archived := true))
  }

  /** A created token admits and is consumed until it expires; a replaced one does neither, nor is it replayed. */
  lemma TokensOpenAndClose(p: Panel, tokenHash: string, uuid: string, expiresAt: int, exchange: Exchange, now: int)
    ensures var row := NewPanel(tokenHash, uuid, expiresAt).row;
            && (Admitted(FindByCredential(row, exchange.tokenHash), now) <==>
                  exchange.tokenHash == tokenHash && now < expiresAt)
            && (Consumable(row, uuid, exchange.tokenHash, now) <==> exchange.tokenHash == tokenHash && now < expiresAt)
            && ReplayEnrollment(Some(row), exchange, now) == None
    ensures var row := Retired(p).row;
            && !Admitted(Some(row), now) && !Consumable(row, uuid, exchange.tokenHash, now)
            && ReplayEnrollment(Some(row), exchange, now) == None
  {
  }

  /** A request finds its machine by the hash of its token; a hash is created once. */
  function PanelsNext(c: Config, panels: Panels, step: Step): Panels {
    match step
    case Create(tokenHash, uuid, expiresAt) =>
      if tokenHash in panels then panels else panels[tokenHash := NewPanel(tokenHash, uuid, expiresAt)]
    case Rotate(tokenHash, newHash, expiresAt) =>
      if tokenHash !in panels || newHash in panels then panels
      else
        var uuid := panels[tokenHash].row.uuid;
        panels[tokenHash := Retired(panels[tokenHash])][newHash := NewPanel(newHash, uuid, expiresAt)]
    case Arrive(token, attemptId, csr) =>
      if c.hash(token) in panels
      then panels[c.hash(token) := Arrived(c, panels[c.hash(token)], token, attemptId, csr)] else panels
    case At(tokenHash, panelStep) =>
      if tokenHash in panels then panels[tokenHash := PanelNext(panels[tokenHash], panelStep)] else panels
    case _ => panels
  }

  // ----- the host's steps

  /** The exchange an attempt stands for under a token. */
  function ExchangeOf(c: Config, token: string, pending: Pending): Exchange {
    Exchange(c.hash(token), pending.attemptId, c.fingerprint(pending.csr))
  }

  /** The panel has sent this response to this attempt under this token. */
  predicate Answers(c: Config, panels: Panels, token: string, pending: Pending, response: Response) {
    && c.hash(token) in panels
    && Grant(ExchangeOf(c, token, pending), response) in panels[c.hash(token)].granted
  }

  function PutPhase(h: Host, i: nat, phase: Phase): Host
    requires i < |h.processes|
  {
    h.(processes := h.processes[i := h.processes[i].(phase := phase)])
  }

  function HostNext(c: Config, panels: Panels, h: Host, step: Step): Host {
    match step
    case Begin(token) =>
      if h.credentials.None? then h.(processes := h.processes + [Process(token, TargetFree)]) else h
    case Inspect(i, newborn) =>
      if i < |h.processes| && h.processes[i].phase.TargetFree? then
        if h.pending.Some? then PutPhase(h, i, Loaded(h.pending.value))
        else if newborn.csr.publicKey == c.publicOf(newborn.privateKey) then PutPhase(h, i, Generated(newborn))
        else h
      else h
    case CommitPending(i) =>
      if i < |h.processes| && h.processes[i].phase.Generated? then
        var newborn := h.processes[i].phase.pending;
        if h.pending.Some? then PutPhase(h, i, Over)
        else PutPhase(h, i, Loaded(newborn)).(pending := Some(newborn), committed := h.committed + {newborn})
      else h
    case Receive(i, response) =>
      if i < |h.processes| && h.processes[i].phase.Loaded?
         && Answers(c, panels, h.processes[i].token, h.processes[i].phase.pending, response)
      then PutPhase(h, i, Answered(h.processes[i].phase.pending, response))
      else h
    case Verify(i) =>
      if i < |h.processes| && h.processes[i].phase.Answered? then
        var Answered(pending, response) := h.processes[i].phase;
        if Acceptable(c.publicOf, c.trusted, response, pending.privateKey) then
          PutPhase(h, i, Installing(pending, response))
        else PutPhase(h, i, Over)
      else h
    case Install(i) =>
      if i < |h.processes| && h.processes[i].phase.Installing? then
        if h.credentials.Some? then PutPhase(h, i, Over)
        else
          var Installing(pending, response) := h.processes[i].phase;
          PutPhase(h, i, CleaningUp).(
            credentials := Some(Credentials(pending.privateKey, response)),
            enrolledBy := Some(h.processes[i].token))
      else h
    case CleanUp(i) =>
      if i < |h.processes| && h.processes[i].phase.CleaningUp? then PutPhase(h, i, Over).(pending := None) else h
    case Fail(i) => if i < |h.processes| then PutPhase(h, i, Over) else h
    case HostCrash => h.(processes := [])
    case _ => h
  }

  function Next(c: Config, s: State, step: Step): State {
    State(PanelsNext(c, s.panels, step), HostNext(c, s.panels, s.host, step))
  }

  function Run(c: Config, steps: seq<Step>): State {
    if steps == [] then INITIAL else Next(c, Run(c, steps[..|steps| - 1]), steps[|steps| - 1])
  }

  // ----- what every step keeps

  ghost predicate RequestOk(c: Config, request: Request) {
    match request
    case Waiting(exchange, csr) => exchange.csrFingerprint == c.fingerprint(csr)
    case Eligible(exchange, csr, _) => exchange.csrFingerprint == c.fingerprint(csr)
    case Issued(exchange, csr, _, response) =>
      && exchange.csrFingerprint == c.fingerprint(csr)
      && response.certificate.publicKey == csr.publicKey && response.certificate.commonName == response.machineUuid
    case _ => true
  }

  ghost predicate PanelInv(c: Config, tokenHash: string, p: Panel) {
    && Consistent(p.row, p.grant)
    && (p.grant.None? ==> p.row.tokenHash == Some(tokenHash))
    && (forall g :: g in p.granted ==> p.grant == Some(g))
    && (p.grant.Some? ==>
          && p.certified.Some?
          && p.grant.value.exchange.tokenHash == tokenHash
          && p.grant.value.response.certificate.publicKey == p.certified.value.publicKey
          && p.grant.value.response.certificate.commonName == p.grant.value.response.machineUuid
          && p.grant.value.exchange.csrFingerprint == c.fingerprint(p.certified.value))
    && (forall i :: 0 <= i < |p.requests| ==> RequestOk(c, p.requests[i]))
  }

  ghost predicate PanelsInv(c: Config, panels: Panels) {
    forall k :: k in panels ==> PanelInv(c, k, panels[k])
  }

  /** The CSR of the attempt is for its key. */
  ghost predicate KeyFits(c: Config, pending: Pending) {
    pending.csr.publicKey == c.publicOf(pending.privateKey)
  }

  ghost predicate ProcessOk(c: Config, panels: Panels, h: Host, process: Process) {
    match process.phase
    case Generated(pending) => KeyFits(c, pending)
    case Loaded(pending) => pending in h.committed
    case Answered(pending, response) =>
      pending in h.committed && Answers(c, panels, process.token, pending, response)
    case Installing(pending, response) =>
      && pending in h.committed && Answers(c, panels, process.token, pending, response)
      && Acceptable(c.publicOf, c.trusted, response, pending.privateKey)
    case _ => true
  }

  /** Credentials come by a token, as the answer to a committed attempt, and certify its key. */
  ghost predicate CredentialsOk(c: Config, panels: Panels, h: Host) {
    && (h.credentials.Some? <==> h.enrolledBy.Some?)
    && (h.credentials.Some? ==>
          exists pending :: pending in h.committed
            && pending.privateKey == h.credentials.value.privateKey
            && Answers(c, panels, h.enrolledBy.value, pending, h.credentials.value.response)
            && Acceptable(c.publicOf, c.trusted, h.credentials.value.response, pending.privateKey))
  }

  ghost predicate HostInv(c: Config, panels: Panels, h: Host) {
    && (h.pending.Some? ==> h.pending.value in h.committed)
    && (forall pending :: pending in h.committed ==> KeyFits(c, pending))
    && (forall i :: 0 <= i < |h.processes| ==> ProcessOk(c, panels, h, h.processes[i]))
    && CredentialsOk(c, panels, h)
  }

  /** A machine's invariant is kept, grants are never taken back and the winner never changes. */
  ghost predicate Advances(c: Config, tokenHash: string, p: Panel, q: Panel) {
    PanelInv(c, tokenHash, q) && p.granted <= q.granted && (p.grant.Some? ==> q.grant == p.grant)
  }

  ghost predicate AllAdvance(c: Config, panels: Panels, after: Panels) {
    PanelsInv(c, after) && forall k :: k in panels ==> k in after && Advances(c, k, panels[k], after[k])
  }

  lemma LookAdvances(c: Config, k: string, p: Panel, i: nat, now: int)
    requires PanelInv(c, k, p) && i < |p.requests| && p.requests[i].Waiting?
    ensures Advances(c, k, p, LookStep(p, i, now))
  {
    ReplayIsTheWinners(p.row, p.grant, p.requests[i].exchange, now);
  }

  lemma ConsumeAdvances(c: Config, k: string, p: Panel, i: nat)
    requires PanelInv(c, k, p) && i < |p.requests| && p.requests[i].Issued?
    ensures Advances(c, k, p, ConsumeStep(p, i))
  {
    assert RequestOk(c, p.requests[i]);
  }

  lemma RereadAdvances(c: Config, k: string, p: Panel, i: nat, now: int)
    requires PanelInv(c, k, p) && i < |p.requests| && p.requests[i].Overtaken?
    ensures Advances(c, k, p, RereadStep(p, i, now))
  {
    ReplayIsTheWinners(p.row, p.grant, p.requests[i].exchange, now);
  }

  lemma PanelNextAdvances(c: Config, k: string, p: Panel, step: PanelStep)
    requires PanelInv(c, k, p)
    ensures Advances(c, k, p, PanelNext(p, step))
  {
    match step
    case Look(i, now) => if i < |p.requests| && p.requests[i].Waiting? { LookAdvances(c, k, p, i, now); }
    case Consume(i) => if i < |p.requests| && p.requests[i].Issued? { ConsumeAdvances(c, k, p, i); }
    case Reread(i, now) => if i < |p.requests| && p.requests[i].Overtaken? { RereadAdvances(c, k, p, i, now); }
    case _ =>
  }

  lemma OneAdvances(c: Config, panels: Panels, k: string, q: Panel)
    requires PanelsInv(c, panels) && k in panels && Advances(c, k, panels[k], q)
    ensures AllAdvance(c, panels, panels[k := q])
  {
  }

  lemma OneIsCreated(c: Config, panels: Panels, k: string, uuid: string, expiresAt: int)
    requires PanelsInv(c, panels) && k !in panels
    ensures AllAdvance(c, panels, panels[k := NewPanel(k, uuid, expiresAt)])
  {
    assert PanelInv(c, k, NewPanel(k, uuid, expiresAt));
  }

  lemma AllAdvanceTwice(c: Config, panels: Panels, between: Panels, after: Panels)
    requires AllAdvance(c, panels, between) && AllAdvance(c, between, after)
    ensures AllAdvance(c, panels, after)
  {
  }

  lemma RotationAdvances(c: Config, panels: Panels, k: string, newHash: string, expiresAt: int)
    requires PanelsInv(c, panels) && k in panels && newHash !in panels
    ensures AllAdvance(c, panels, PanelsNext(c, panels, Rotate(k, newHash, expiresAt)))
  {
    var retired := panels[k := Retired(panels[k])];
    assert PanelInv(c, k, panels[k]);
    OneAdvances(c, panels, k, Retired(panels[k]));
    OneIsCreated(c, retired, newHash, panels[k].row.uuid, expiresAt);
    AllAdvanceTwice(c, panels, retired, PanelsNext(c, panels, Rotate(k, newHash, expiresAt)));
  }

  lemma PanelsNextAdvance(c: Config, panels: Panels, step: Step)
    requires PanelsInv(c, panels)
    ensures AllAdvance(c, panels, PanelsNext(c, panels, step))
  {
    match step
    case Create(k, uuid, expiresAt) => if k !in panels { OneIsCreated(c, panels, k, uuid, expiresAt); }
    case Rotate(k, newHash, expiresAt) =>
      if k in panels && newHash !in panels { RotationAdvances(c, panels, k, newHash, expiresAt); }
    case Arrive(token, attemptId, csr) =>
      var k := c.hash(token);
      if k in panels { OneAdvances(c, panels, k, Arrived(c, panels[k], token, attemptId, csr)); }
    case At(k, panelStep) =>
      if k in panels {
        PanelNextAdvances(c, k, panels[k], panelStep);
        OneAdvances(c, panels, k, PanelNext(panels[k], panelStep));
      }
    case _ =>
  }

  lemma HostNextKeepsInv(c: Config, panels: Panels, h: Host, step: Step)
    requires HostInv(c, panels, h)
    ensures HostInv(c, panels, HostNext(c, panels, h, step))
  {
    var t := HostNext(c, panels, h, step);
    forall i | 0 <= i < |t.processes|
      ensures ProcessOk(c, panels, t, t.processes[i])
    {
      HostNextKeepsProcess(c, panels, h, step, i);
    }
    HostNextKeepsCredentials(c, panels, h, step);
  }

  lemma HostNextKeepsProcess(c: Config, panels: Panels, h: Host, step: Step, i: nat)
    requires HostInv(c, panels, h) && i < |HostNext(c, panels, h, step).processes|
    ensures ProcessOk(c, panels, HostNext(c, panels, h, step), HostNext(c, panels, h, step).processes[i])
  {
    if i < |h.processes| {
      assert ProcessOk(c, panels, h, h.processes[i]);
    }
  }

  lemma HostNextKeepsCredentials(c: Config, panels: Panels, h: Host, step: Step)
    requires HostInv(c, panels, h)
    ensures CredentialsOk(c, panels, HostNext(c, panels, h, step))
  {
    if step.Install? && step.process < |h.processes| {
      assert ProcessOk(c, panels, h, h.processes[step.process]);
    }
  }

  lemma MoreGrantsKeepInv(c: Config, panels: Panels, after: Panels, h: Host)
    requires HostInv(c, panels, h) && AllAdvance(c, panels, after)
    ensures HostInv(c, after, h)
  {
    forall i | 0 <= i < |h.processes|
      ensures ProcessOk(c, after, h, h.processes[i])
    {
      assert ProcessOk(c, panels, h, h.processes[i]);
    }
  }

  lemma {:induction false} RunKeepsInv(c: Config, steps: seq<Step>)
    ensures PanelsInv(c, Run(c, steps).panels) && HostInv(c, Run(c, steps).panels, Run(c, steps).host)
  {
    if steps != [] {
      var before, last := Run(c, steps[..|steps| - 1]), steps[|steps| - 1];
      RunKeepsInv(c, steps[..|steps| - 1]);
      PanelsNextAdvance(c, before.panels, last);
      HostNextKeepsInv(c, before.panels, before.host, last);
      MoreGrantsKeepInv(c, before.panels, Run(c, steps).panels, Run(c, steps).host);
    }
  }

  // ----- main results

  /** All successful answers for a token are one certificate, and only one (attempt, CSR) pair gets it. */
  lemma OneCertificatePerToken(c: Config, steps: seq<Step>, tokenHash: string, g: Grant, h: Grant)
    requires tokenHash in Run(c, steps).panels
    requires g in Run(c, steps).panels[tokenHash].granted && h in Run(c, steps).panels[tokenHash].granted
    ensures g == h && g.exchange.tokenHash == tokenHash
    ensures var certified := Run(c, steps).panels[tokenHash].certified;
            certified.Some? && g.response.certificate.publicKey == certified.value.publicKey
            && g.exchange.csrFingerprint == c.fingerprint(certified.value)
  {
    RunKeepsInv(c, steps);
    assert PanelInv(c, tokenHash, Run(c, steps).panels[tokenHash]);
  }

  /** The credentials are the grant of the token they came by, to an attempt the host had committed to disk. */
  ghost predicate IsInstalledGrant(c: Config, t: State, p: Panel, pending: Pending)
    requires t.host.credentials.Some? && t.host.enrolledBy.Some?
  {
    && pending in t.host.committed && pending.privateKey == t.host.credentials.value.privateKey
    && p.grant == Some(Grant(ExchangeOf(c, t.host.enrolledBy.value, pending), t.host.credentials.value.response))
  }

  /**
    What the host installs is the panel's one grant for the token the host was given, answers an
    attempt the host had committed to disk, and certifies the key of that attempt, which is the key
    of the certified CSR.
   */
  lemma InstalledIsTheGrant(c: Config, steps: seq<Step>)
    requires Run(c, steps).host.credentials.Some?
    ensures var t := Run(c, steps);
            && t.host.enrolledBy.Some? && c.hash(t.host.enrolledBy.value) in t.panels
            && var p := t.panels[c.hash(t.host.enrolledBy.value)];
            && p.certified.Some?
            && c.publicOf(t.host.credentials.value.privateKey) == p.certified.value.publicKey
            && exists pending :: IsInstalledGrant(c, t, p, pending)
  {
    RunKeepsInv(c, steps);
    var t := Run(c, steps);
    var token, installed := t.host.enrolledBy.value, t.host.credentials.value;
    var pending :| pending in t.host.committed
      && pending.privateKey == installed.privateKey
      && Answers(c, t.panels, token, pending, installed.response)
      && Acceptable(c.publicOf, c.trusted, installed.response, pending.privateKey);
    assert PanelInv(c, c.hash(token), t.panels[c.hash(token)]);
    assert IsInstalledGrant(c, t, t.panels[c.hash(token)], pending);
  }

  lemma NextKeepsInstalled(c: Config, s: State, step: Step)
    requires PanelsInv(c, s.panels)
    ensures s.host.credentials.Some? ==>
              && Next(c, s, step).host.credentials == s.host.credentials
              && Next(c, s, step).host.enrolledBy == s.host.enrolledBy
    ensures forall k :: k in s.panels && s.panels[k].grant.Some? ==>
              k in Next(c, s, step).panels && Next(c, s, step).panels[k].grant == s.panels[k].grant
  {
    PanelsNextAdvance(c, s.panels, step);
  }

  /** Installed credentials, the token they came by, and the grant of any token never change. */
  lemma {:induction false} InstalledForGood(c: Config, steps: seq<Step>, more: seq<Step>)
    ensures var t, later := Run(c, steps), Run(c, steps + more);
            && (t.host.credentials.Some? ==>
                  later.host.credentials == t.host.credentials && later.host.enrolledBy == t.host.enrolledBy)
            && (forall k :: k in t.panels && t.panels[k].grant.Some? ==>
                  k in later.panels && later.panels[k].grant == t.panels[k].grant)
  {
    if more == [] {
      assert steps + more == steps;
    } else {
      var rest := more[..|more| - 1];
      assert (steps + more)[..|steps + more| - 1] == steps + rest;
      InstalledForGood(c, steps, rest);
      RunKeepsInv(c, steps + rest);
      NextKeepsInstalled(c, Run(c, steps + rest), more[|more| - 1]);
    }
  }

  // ----- the replay window, read off the schedule

  /** In this step a request consumes the token. */
  ghost predicate Consumes(s: State, step: Step, k: string) {
    && step.At? && step.tokenHash == k && k in s.panels
    && step.step.Consume? && step.step.request < |s.panels[k].requests|
    && var p, request := s.panels[k], s.panels[k].requests[step.step.request];
    request.Issued? && Consumable(p.row, p.row.uuid, request.exchange.tokenHash, request.now)
  }

  /** When the request that consumed the token had looked it up. */
  ghost function ConsumedAt(c: Config, steps: seq<Step>, k: string): Option<int> {
    if steps == [] then None
    else
      var before, last := steps[..|steps| - 1], steps[|steps| - 1];
      if Consumes(Run(c, before), last, k)
      then Some(Run(c, before).panels[k].requests[last.step.request].now)
      else ConsumedAt(c, before, k)
  }

  /** The agent's first session, archiving, and another token end the replay. */
  ghost predicate Closes(s: State, step: Step, k: string) {
    || step == At(k, Connected)
    || step == At(k, Archive)
    || (step.Rotate? && step.tokenHash == k && step.newHash !in s.panels)
  }

  /** The token was consumed, and nothing has ended its replay since. */
  ghost predicate StillOpen(c: Config, steps: seq<Step>, k: string) {
    steps != []
    && var before, last := steps[..|steps| - 1], steps[|steps| - 1];
    Consumes(Run(c, before), last, k) || (!Closes(Run(c, before), last, k) && StillOpen(c, before, k))
  }

  /** The row has the window that the schedule says. */
  ghost predicate WindowFits(p: Panel, consumedAt: Option<int>, open: bool) {
    && (consumedAt.Some? <==> p.grant.Some?)
    && (open <==> p.grant.Some? && !p.row.archived && p.row.replayTokenHash.Some?)
    && (open ==> p.row.replayExpiresAt == Some(consumedAt.value + 1_800_000))
  }

  lemma WindowAfterPanelStep(k: string, p: Panel, step: PanelStep, consumedAt: Option<int>, open: bool)
    requires WindowFits(p, consumedAt, open) && (p.grant.Some? ==> p.row.usedAt.Some?)
    ensures var consumes := step.Consume? && step.request < |p.requests| && p.requests[step.request].Issued?
                              && Consumable(p.row, p.row.uuid, p.requests[step.request].exchange.tokenHash,
                                   p.requests[step.request].now);
            if consumes then WindowFits(PanelNext(p, step), Some(p.requests[step.request].now), true)
            else WindowFits(PanelNext(p, step), consumedAt, open && !step.Connected? && !step.Archive?)
  {
  }

  /** `WindowFits`, or there is no such token yet. */
  ghost predicate WindowFitsAt(s: State, k: string, consumedAt: Option<int>, open: bool) {
    if k in s.panels then WindowFits(s.panels[k], consumedAt, open) else consumedAt.None? && !open
  }

  /** Creating, replacing and asking: only the replacement of this token changes its window. */
  lemma WindowAfterOthers(c: Config, s: State, step: Step, k: string, consumedAt: Option<int>, open: bool)
    requires !(step.At? && step.tokenHash == k) && WindowFitsAt(s, k, consumedAt, open)
    ensures WindowFitsAt(Next(c, s, step), k, consumedAt, open && !Closes(s, step, k))
  {
  }

  lemma WindowAfter(c: Config, s: State, step: Step, k: string, consumedAt: Option<int>, open: bool)
    requires PanelsInv(c, s.panels) && WindowFitsAt(s, k, consumedAt, open)
    ensures WindowFitsAt(Next(c, s, step), k,
              if Consumes(s, step, k) then Some(s.panels[k].requests[step.step.request].now) else consumedAt,
              Consumes(s, step, k) || (open && !Closes(s, step, k)))
  {
    if !(step.At? && step.tokenHash == k) {
      WindowAfterOthers(c, s, step, k, consumedAt, open);
    } else if k in s.panels {
      assert PanelInv(c, k, s.panels[k]);
      WindowAfterPanelStep(k, s.panels[k], step.step, consumedAt, open);
    }
  }

  lemma {:induction false} WindowIs(c: Config, steps: seq<Step>, k: string)
    ensures WindowFitsAt(Run(c, steps), k, ConsumedAt(c, steps, k), StillOpen(c, steps, k))
  {
    if steps != [] {
      var before, last := steps[..|steps| - 1], steps[|steps| - 1];
      WindowIs(c, before, k);
      RunKeepsInv(c, before);
      WindowAfter(c, Run(c, before), last, k, ConsumedAt(c, before, k), StillOpen(c, before, k));
    }
  }

  // ----- recovery

  /** The panel sees the exchange of the attempt once more. */
  function PanelRetry(c: Config, s: State, token: string, pending: Pending, now: int): State
    requires c.hash(token) in s.panels
  {
    var request := |s.panels[c.hash(token)].requests|;
    Next(c, Next(c, s, Arrive(token, pending.attemptId, pending.csr)), At(c.hash(token), Look(request, now)))
  }

  /** What was sent in answer to a request. */
  function AnswerTo(p: Panel, request: nat): Option<Response> {
    if request < |p.requests| && p.requests[request].Sent? then Some(p.requests[request].response) else None
  }

  /** One run of the enroll command, which meets this answer. */
  function HostRetry(c: Config, s: State, token: string, newborn: Pending, answer: Option<Response>): State {
    var p := |s.host.processes|;
    var loaded := Next(c, Next(c, s, Begin(token)), Inspect(p, newborn));
    match answer
    case None => Next(c, loaded, Fail(p))
    case Some(response) =>
      Next(c, Next(c, Next(c, Next(c, loaded, Receive(p, response)), Verify(p)), Install(p)), CleanUp(p))
  }

  /** The host runs the enroll command once more, and the panel answers at `later`. */
  function Retry(c: Config, s: State, token: string, pending: Pending, newborn: Pending, later: int): State
    requires c.hash(token) in s.panels
  {
    var asked := PanelRetry(c, s, token, pending, later);
    HostRetry(c, asked, token, newborn,
      AnswerTo(asked.panels[c.hash(token)], |s.panels[c.hash(token)].requests|))
  }

  /** What the run leaves: the credentials, by this token, or everything as it was. */
  ghost predicate Retried(c: Config, before: Host, after: Host, token: string, answer: Option<Response>)
    requires before.pending.Some?
  {
    var pending := before.pending.value;
    if answer.Some? && Acceptable(c.publicOf, c.trusted, answer.value, pending.privateKey) then
      && after.credentials == Some(Credentials(pending.privateKey, answer.value))
      && after.enrolledBy == Some(token) && after.pending == None
    else after.credentials == None && after.enrolledBy == before.enrolledBy && after.pending == before.pending
  }

  lemma HostRetryLoads(c: Config, s: State, token: string, newborn: Pending)
    requires s.host.credentials.None? && s.host.pending.Some?
    ensures var p := |s.host.processes|;
            Next(c, Next(c, s, Begin(token)), Inspect(p, newborn)) ==
            State(s.panels, s.host.(processes := s.host.processes + [Process(token, Loaded(s.host.pending.value))]))
  {
    var p := |s.host.processes|;
    var begun := s.host.processes + [Process(token, TargetFree)];
    assert begun[p := Process(token, Loaded(s.host.pending.value))] ==
      s.host.processes + [Process(token, Loaded(s.host.pending.value))];
  }

  lemma HostRetryInstalls(c: Config, s: State, token: string, newborn: Pending, answer: Option<Response>)
    requires s.host.credentials.None? && s.host.pending.Some?
    requires answer.Some? ==> Answers(c, s.panels, token, s.host.pending.value, answer.value)
    ensures Retried(c, s.host, HostRetry(c, s, token, newborn, answer).host, token, answer)
  {
    var p, pending := |s.host.processes|, s.host.pending.value;
    HostRetryLoads(c, s, token, newborn);
    if answer.Some? {
      var loaded := Next(c, Next(c, s, Begin(token)), Inspect(p, newborn));
      var verified := Next(c, Next(c, loaded, Receive(p, answer.value)), Verify(p));
      assert verified.host.credentials == None && |verified.host.processes| == p + 1;
      assert verified.host.processes[p] == Process(token,
        if Acceptable(c.publicOf, c.trusted, answer.value, pending.privateKey) then Installing(pending, answer.value)
        else Over);
    }
  }

  /** A request after the consumption is answered exactly with the replay. */
  lemma PanelRetryReplays(c: Config, s: State, token: string, pending: Pending, now: int)
    requires PanelsInv(c, s.panels) && c.hash(token) in s.panels && s.panels[c.hash(token)].grant.Some?
    ensures var p, asked := s.panels[c.hash(token)], PanelRetry(c, s, token, pending, now);
            var exchange := ExchangeOf(c, token, pending);
            var answer := AnswerTo(asked.panels[c.hash(token)], |p.requests|);
            && asked.host == s.host
            && answer == ReplayEnrollment(FindByCredential(p.row, exchange.tokenHash), exchange, now)
            && (answer.Some? ==> Answers(c, asked.panels, token, pending, answer.value))
  {
    assert PanelInv(c, c.hash(token), s.panels[c.hash(token)]);
  }

  /**
    Recovery, exactly: after a token was consumed by the attempt on disk and the answer was lost,
    however many crashes there were, running the enroll command again with that token installs the
    one granted certificate if and only if nothing has ended the replay, less than thirty minutes have
    passed since the request that consumed the token, and the host trusts the response and it
    certifies the host's key; the latter is so whenever the certified CSR is the host's own.
   */
  lemma LostAnswerIsRecovered(c: Config, steps: seq<Step>, token: string, newborn: Pending, later: int)
    requires var t := Run(c, steps);
             && t.host.credentials.None? && t.host.pending.Some? && c.hash(token) in t.panels
             && t.panels[c.hash(token)].grant.Some?
             && t.panels[c.hash(token)].grant.value.exchange == ExchangeOf(c, token, t.host.pending.value)
    ensures ConsumedAt(c, steps, c.hash(token)).Some?
    ensures var t, k := Run(c, steps), c.hash(token);
            var pending, response := t.host.pending.value, t.panels[k].grant.value.response;
            var after := Retry(c, t, token, pending, newborn, later).host;
            var certifies := response.certificate.publicKey == c.publicOf(pending.privateKey);
            && (if && StillOpen(c, steps, k) && later < ConsumedAt(c, steps, k).value + 1_800_000
                   && c.trusted(response) && certifies
                then after.credentials == Some(Credentials(pending.privateKey, response)) && after.pending == None
                else after.credentials == None && after.pending == Some(pending))
            && (t.panels[k].certified == Some(pending.csr) ==> certifies)
  {
    var t, k := Run(c, steps), c.hash(token);
    var p, pending := t.panels[k], t.host.pending.value;
    RunKeepsInv(c, steps);
    WindowIs(c, steps, k);
    assert PanelInv(c, k, p);
    ReplayIsTheWinners(p.row, p.grant, ExchangeOf(c, token, pending), later);
    PanelRetryReplays(c, t, token, pending, later);
    var asked := PanelRetry(c, t, token, pending, later);
    HostRetryInstalls(c, asked, token, newborn, AnswerTo(asked.panels[k], |p.requests|));
  }

  // ----- an attempt that lost its token

  /** Until there are credentials, every process works on the attempt on disk, and none cleans up. */
  ghost predicate OneAttempt(h: Host) {
    h.credentials.None? ==> forall i :: 0 <= i < |h.processes| ==> WorksOn(h.processes[i].phase, h.pending)
  }

  predicate WorksOn(phase: Phase, pending: Option<Pending>) {
    match phase
    case Loaded(p) => pending == Some(p)
    case Answered(p, _) => pending == Some(p)
    case Installing(p, _) => pending == Some(p)
    case CleaningUp => false
    case _ => true
  }

  lemma {:induction false} RunKeepsOneAttempt(c: Config, steps: seq<Step>)
    ensures OneAttempt(Run(c, steps).host)
  {
    if steps != [] {
      RunKeepsOneAttempt(c, steps[..|steps| - 1]);
    }
  }

  /** Another exchange than that of the attempt has consumed the token. */
  ghost predicate IsLost(c: Config, panels: Panels, token: string, pending: Pending) {
    && c.hash(token) in panels && panels[c.hash(token)].grant.Some?
    && panels[c.hash(token)].grant.value.exchange != ExchangeOf(c, token, pending)
  }

  /** Until there are credentials the attempt stays, and the lost token never gives any. */
  ghost predicate StaysLost(before: Host, after: Host, token: string) {
    && (after.credentials.None? ==> after.pending == before.pending)
    && after.enrolledBy != Some(token)
  }

  lemma LoserStaysOut(c: Config, s: State, step: Step, token: string)
    requires PanelsInv(c, s.panels) && HostInv(c, s.panels, s.host) && OneAttempt(s.host)
    requires s.host.credentials.None? && s.host.pending.Some?
    requires IsLost(c, s.panels, token, s.host.pending.value)
    ensures StaysLost(s.host, Next(c, s, step).host, token)
  {
    if step.Install? && step.process < |s.host.processes| && s.host.processes[step.process].phase.Installing? {
      var process := s.host.processes[step.process];
      assert WorksOn(process.phase, s.host.pending) && ProcessOk(c, s.panels, s.host, process);
      assert PanelInv(c, c.hash(token), s.panels[c.hash(token)]);
    }
  }

  /**
    The converse of recovery: once another exchange has won a token, the host never gets credentials
    by that token, whatever happens later. The attempt stays on disk until another token gives it
    credentials.
   */
  lemma {:induction false} AnotherWinnerIsFinal(c: Config, steps: seq<Step>, more: seq<Step>, token: string)
    requires var t := Run(c, steps);
             && t.host.credentials.None? && t.host.pending.Some?
             && IsLost(c, t.panels, token, t.host.pending.value)
    ensures StaysLost(Run(c, steps).host, Run(c, steps + more).host, token)
  {
    if more == [] {
      assert steps + more == steps;
      RunKeepsInv(c, steps);
    } else {
      var rest := more[..|more| - 1];
      assert (steps + more)[..|steps + more| - 1] == steps + rest;
      AnotherWinnerIsFinal(c, steps, rest, token);
      InstalledForGood(c, steps, rest);
      RunKeepsInv(c, steps + rest);
      RunKeepsOneAttempt(c, steps + rest);
      var s := Run(c, steps + rest);
      if s.host.credentials.None? {
        LoserStaysOut(c, s, more[|more| - 1], token);
      } else {
        NextKeepsInstalled(c, s, more[|more| - 1]);
      }
    }
  }

  // ----- the same attempt under another token

  /** The panel grants an unused token to the attempt. */
  function PanelGrants(c: Config, s: State, token: string, pending: Pending, now: int, issue: PanelStep): State
    requires c.hash(token) in s.panels
  {
    var k := c.hash(token);
    var request := |s.panels[k].requests|;
    Next(c, Next(c, PanelRetry(c, s, token, pending, now), At(k, issue)), At(k, Consume(request)))
  }

  lemma FreshTokenIsGranted(
    c: Config, k: string, p: Panel, exchange: Exchange, csr: Csr, now: int, issue: PanelStep)
    requires PanelInv(c, k, p) && p.grant.None? && exchange.tokenHash == k
    requires !p.row.archived && p.row.expiresAt.Some? && p.row.expiresAt.value > now
    requires issue.Issue? && issue.request == |p.requests|
    ensures var arrived := p.(requests := p.requests + [Waiting(exchange, csr)]);
            var looked := PanelNext(arrived, Look(|p.requests|, now));
            var q := PanelNext(PanelNext(looked, issue), Consume(|p.requests|));
            var certificate := Certificate(issue.serial, csr.publicKey, p.row.uuid, issue.expiresAt);
            var response := Response(p.row.uuid, certificate, issue.caCertificate, issue.controlUrl);
            Grant(exchange, response) in q.granted
  {
    var i := |p.requests|;
    ReplayIsTheWinners(p.row, p.grant, exchange, now);
    var looked := PanelNext(p.(requests := p.requests + [Waiting(exchange, csr)]), Look(i, now));
    assert |looked.requests| == i + 1 && looked.requests[i] == Eligible(exchange, csr, now) && looked.row == p.row;
    var issued := PanelNext(looked, issue);
    assert |issued.requests| == i + 1 && issued.requests[i].Issued? && issued.row == p.row;
  }

  /**
    A losing attempt is not lost for good: whatever tokens it has lost, under a token that is not
    used, not expired and not of an archived machine the very same attempt is granted and, if the
    host trusts the response, installed and cleaned up.
   */
  lemma FreshTokenInstalls(
    c: Config, steps: seq<Step>, token: string, newborn: Pending, now: int, issue: PanelStep)
    requires var t := Run(c, steps);
             && t.host.credentials.None? && t.host.pending.Some? && c.hash(token) in t.panels
             && var p := t.panels[c.hash(token)];
             && p.grant.None? && !p.row.archived && p.row.expiresAt.Some? && p.row.expiresAt.value > now
             && issue.Issue? && issue.request == |p.requests|
    ensures var t := Run(c, steps);
            var pending, uuid := t.host.pending.value, t.panels[c.hash(token)].row.uuid;
            var certificate := Certificate(issue.serial, pending.csr.publicKey, uuid, issue.expiresAt);
            var response := Response(uuid, certificate, issue.caCertificate, issue.controlUrl);
            var granted := PanelGrants(c, t, token, pending, now, issue);
            var after := HostRetry(c, granted, token, newborn, Some(response)).host;
            if c.trusted(response) then
              && after.credentials == Some(Credentials(pending.privateKey, response))
              && after.enrolledBy == Some(token) && after.pending == None
            else after.credentials == None && after.pending == Some(pending)
  {
    var t := Run(c, steps);
    var k, pending := c.hash(token), t.host.pending.value;
    RunKeepsInv(c, steps);
    var uuid := t.panels[k].row.uuid;
    var certificate := Certificate(issue.serial, pending.csr.publicKey, uuid, issue.expiresAt);
    var response := Response(uuid, certificate, issue.caCertificate, issue.controlUrl);
    FreshTokenIsGranted(c, k, t.panels[k], ExchangeOf(c, token, pending), pending.csr, now, issue);
    var granted := PanelGrants(c, t, token, pending, now, issue);
    assert granted.host == t.host && Answers(c, granted.panels, token, pending, response);
    HostRetryInstalls(c, granted, token, newborn, Some(response));
    assert KeyFits(c, pending);
  }
}
