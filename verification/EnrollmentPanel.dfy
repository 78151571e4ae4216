/**
  The panel's side of enrollment: one machine row, its single-use token, and the window in which
  the exact same exchange is replayed. Token hashing and CSR fingerprinting are arbitrary functions.
 */
module EnrollmentPanel {
  import opened Wrappers

  const REPLAY_TTL_MS := 30 * 60 * 1_000

  datatype Csr = Csr(publicKey: string, text: string)

  datatype Certificate = Certificate(serial: string, publicKey: string, commonName: string, expiresAt: int)

  datatype Response = Response(machineUuid: string, certificate: Certificate, caCertificate: string, controlUrl: string)

  datatype Row = Row(
    uuid: string,
    tokenHash: Option<string>,
    expiresAt: Option<int>,
    usedAt: Option<int>,
    archived: bool,
    replayTokenHash: Option<string>,
    attemptId: Option<string>,
    csrFingerprint: Option<string>,
    replayExpiresAt: Option<int>,
    response: Option<Response>)

  /** One enrollment exchange as the panel sees it. */
  datatype Exchange = Exchange(tokenHash: string, attemptId: string, csrFingerprint: string)

  datatype Refusal = InvalidOrExpired | AuthorityUnavailable | BadCsr

  datatype Outcome = Enrolled(response: Response) | Refused(why: Refusal)

  function FindByCredential(row: Row, tokenHash: string): Option<Row> {
    if row.tokenHash == Some(tokenHash) || row.replayTokenHash == Some(tokenHash) then Some(row) else None
  }

  function ReplayEnrollment(machine: Option<Row>, exchange: Exchange, now: int): Option<Response> {
    if machine.None? then None
    else
      var row := machine.value;
      if row.archived
         || row.replayTokenHash != Some(exchange.tokenHash)
         || row.attemptId != Some(exchange.attemptId)
         || row.csrFingerprint != Some(exchange.csrFingerprint)
         || row.replayExpiresAt.None?
         || row.replayExpiresAt.value <= now
      then None
      else row.response
  }

  /** The checks between the replay and the issuing of a certificate. */
  predicate Admitted(machine: Option<Row>, now: int) {
    && machine.Some?
    && !machine.value.archived
    && machine.value.usedAt.None?
    && machine.value.expiresAt.Some?
    && machine.value.expiresAt.value > now
  }

  /** The condition of the conditional update that consumes the token. */
  predicate Consumable(row: Row, uuid: string, tokenHash: string, now: int) {
    && row.uuid == uuid
    && row.tokenHash == Some(tokenHash)
    && row.usedAt.None?
    && row.expiresAt.Some? && row.expiresAt.value > now
    && !row.archived
  }

  function Consumed(row: Row, exchange: Exchange, now: int, response: Response): Row {
    row.(
      tokenHash := None,
      usedAt := Some(now),
      replayTokenHash := Some(exchange.tokenHash),
      attemptId := Some(exchange.attemptId),
      csrFingerprint := Some(exchange.csrFingerprint),
      response := Some(response),
      replayExpiresAt := Some(now + REPLAY_TTL_MS))
  }

  /** The first control session of the enrolled agent ends the replay window. */
  function ReplayCleared(row: Row): Row {
    row.(replayTokenHash := None, attemptId := None, csrFingerprint := None, response := None, replayExpiresAt := None)
  }

  /** What the panel has granted: the exchange that consumed the token and the response it got. */
  datatype Grant = Grant(exchange: Exchange, response: Response)

  /**
    A row that has not been rotated: its token is unused and nothing was granted, or it is used and
    the replay fields are those of the one grant, or were cleared.
   */
  ghost predicate Consistent(row: Row, grant: Option<Grant>) {
    match grant
    case None => row.usedAt.None? && row.replayTokenHash.None?
    case Some(g) =>
      && row.usedAt.Some? && row.tokenHash.None?
      && (row.replayTokenHash.None?
          || (row.replayTokenHash == Some(g.exchange.tokenHash)
              && row.attemptId == Some(g.exchange.attemptId)
              && row.csrFingerprint == Some(g.exchange.csrFingerprint)
              && row.response == Some(g.response)))
  }

  /** What other requests, the control plane and administrators may do to the row meanwhile. */
  ghost predicate Evolves(row: Row, grant: Option<Grant>, row': Row, grant': Option<Grant>) {
    && row'.uuid == row.uuid
    && (Consistent(row, grant) ==> Consistent(row', grant'))
    && (grant.Some? ==> grant' == grant)
    && (row.archived ==> row'.archived)
  }

  lemma EvolvesIsTransitive(a: Row, g: Option<Grant>, b: Row, h: Option<Grant>, c: Row, k: Option<Grant>)
    requires Evolves(a, g, b, h) && Evolves(b, h, c, k)
    ensures Evolves(a, g, c, k)
  {
  }

  /** Consuming, clearing and archiving are the changes that happen, and each is allowed. */
  lemma ChangesEvolve(row: Row, grant: Option<Grant>, exchange: Exchange, now: int, response: Response)
    requires Consistent(row, grant)
    ensures Consumable(row, row.uuid, exchange.tokenHash, now) ==>
              grant.None?
                && Evolves(row, grant, Consumed(row, exchange, now, response), Some(Grant(exchange, response)))
    ensures Evolves(row, grant, ReplayCleared(row), grant)
    ensures Evolves(row, grant, row.(archived := true), grant)
  {
  }

  /**
    The replay answers exactly the winning exchange, inside its window, with the winner's response;
    a changed attempt or CSR gets nothing.
   */
  lemma ReplayIsTheWinners(row: Row, grant: Option<Grant>, exchange: Exchange, now: int)
    requires Consistent(row, grant)
    ensures var replay := ReplayEnrollment(FindByCredential(row, exchange.tokenHash), exchange, now);
            && (replay.Some? ==> grant == Some(Grant(exchange, replay.value)))
            && (replay.Some? <==>
                  && grant.Some? && grant.value.exchange == exchange
                  && !row.archived && row.replayTokenHash.Some?
                  && row.replayExpiresAt.Some? && row.replayExpiresAt.value > now)
  {
  }

  /**
    The window: once a token was consumed at `now`, the same exchange gets the same response for thirty
    minutes to the millisecond, and any other exchange gets nothing.
   */
  lemma ReplayWindow(row: Row, exchange: Exchange, now: int, response: Response, other: Exchange, later: int)
    requires Consumable(row, row.uuid, exchange.tokenHash, now)
    ensures var after := Consumed(row, exchange, now, response);
            ReplayEnrollment(FindByCredential(after, other.tokenHash), other, later) ==
            if other == exchange && later < now + 1_800_000 then Some(response) else None
  {
  }

  /** A fresh token admits and is consumed until it expires; after a use, when archived or unissued it is neither. */
  lemma FreshToken(uuid: string, tokenHash: string, expiresAt: int, now: int, row: Row)
    requires row.tokenHash == Some(tokenHash) && row.uuid == uuid && row.expiresAt == Some(expiresAt)
    ensures var unused := row.usedAt == None && !row.archived;
            && (Admitted(FindByCredential(row, tokenHash), now) <==> unused && now < expiresAt)
            && (Consumable(row, uuid, tokenHash, now) <==> unused && now < expiresAt)
    ensures forall other: Row :: other.expiresAt == None ==>
              !Admitted(Some(other), now) && !Consumable(other, uuid, tokenHash, now)
    ensures forall other: string :: other != tokenHash ==> !Consumable(row, uuid, other, now)
    ensures forall other: string :: other != uuid ==> !Consumable(row, other, tokenHash, now)
    ensures forall other: string :: FindByCredential(row, other) ==
              if other == tokenHash || row.replayTokenHash == Some(other) then Some(row) else None
    ensures !Admitted(None, now)
  {}

  /** The panel's `enroll`, whose awaits let the row change under it. */
  class EnrollmentService {
    const hash: string -> string
    const fingerprint: Csr -> string
    var row: Row
    ghost var grant: Option<Grant>

    ghost predicate Valid()
      reads this
    {
      Consistent(row, grant)
    }

    constructor (hash: string -> string, fingerprint: Csr -> string, uuid: string, token: string, expiresAt: int)
      ensures Valid() && grant == None
      ensures this.hash == hash && this.fingerprint == fingerprint
      ensures row == Row(uuid, Some(hash(token)), Some(expiresAt), None, false, None, None, None, None, None)
    {
      this.hash, this.fingerprint := hash, fingerprint;
      row := Row(uuid, Some(hash(token)), Some(expiresAt), None, false, None, None, None, None, None);
      grant := None;
    }

    /** A point where control is given up: the row may evolve in any allowed way. */
    method Await(meanwhile: Row, ghost granted: Option<Grant>)
      requires Valid() && Evolves(row, grant, meanwhile, granted)
      modifies this
      ensures Valid() && row == meanwhile && grant == granted
    {
      row, grant := meanwhile, granted;
    }

    /** One conditional update: it checks and writes in one step. */
    method ConsumeEnrollmentToken(uuid: string, exchange: Exchange, now: int, response: Response)
      returns (consumed: bool)
      requires Valid()
      modifies this
      ensures Valid()
      ensures consumed == Consumable(old(row), uuid, exchange.tokenHash, now)
      ensures if consumed
              then old(grant) == None && row == Consumed(old(row), exchange, now, response)
                && grant == Some(Grant(exchange, response))
              else row == old(row) && grant == old(grant)
    {
      consumed := Consumable(row, uuid, exchange.tokenHash, now);
      if consumed {
        row := Consumed(row, exchange, now, response);
        grant := Some(Grant(exchange, response));
      }
    }

    /**
      Whatever the row turns into during the two awaits, a request that succeeds is the one grant
      of the token and its response is the granted one; the loser of a race with the same exchange
      gets the winner's response.
     */
    method Enroll(token: string, attemptId: Option<string>, freshAttemptId: string, csr: Csr, authority: Option<string>,
                  issue: (Csr, string, int) -> Option<Certificate>, controlUrl: string, now: int, later: int,
                  meanwhile: Row, ghost granted: Option<Grant>, afterwards: Row, ghost grantedAfterwards: Option<Grant>)
      returns (outcome: Outcome)
      requires Valid()
      requires Evolves(row, grant, meanwhile, granted)
      requires Evolves(meanwhile, granted, afterwards, grantedAfterwards)
      modifies this
      ensures Valid() && Evolves(old(row), old(grant), row, grant)
      ensures var exchange := ExchangeOf(token, attemptId, freshAttemptId, csr);
              && (outcome.Enrolled? ==> grant == Some(Grant(exchange, outcome.response)))
              && (old(grant).Some? && old(grant).value.exchange != exchange ==> outcome.Refused?)
      ensures var exchange := ExchangeOf(token, attemptId, freshAttemptId, csr);
              var machine := FindByCredential(old(row), exchange.tokenHash);
              var replay := ReplayEnrollment(machine, exchange, now);
              if replay.Some? then outcome == Enrolled(replay.value) && row == old(row)
              else if !Admitted(machine, now) then outcome == Refused(InvalidOrExpired) && row == old(row)
              else if authority.None? then outcome == Refused(AuthorityUnavailable) && row == old(row)
              else if issue(csr, row.uuid, now).None? then outcome == Refused(BadCsr) && row == old(row)
              else
                var response := Response(row.uuid, issue(csr, row.uuid, now).value, authority.value, controlUrl);
                var second := ReplayEnrollment(FindByCredential(afterwards, exchange.tokenHash), exchange, later);
                if Consumable(meanwhile, row.uuid, exchange.tokenHash, now)
                then outcome == Enrolled(response) && row == Consumed(meanwhile, exchange, now, response)
                else
                  && outcome == (if second.Some? then Enrolled(second.value) else Refused(InvalidOrExpired))
                  && row == afterwards
    {
      var exchange := ExchangeOf(token, attemptId, freshAttemptId, csr);
      var machine := FindByCredential(row, exchange.tokenHash);
      var replay := ReplayEnrollment(machine, exchange, now);
      ReplayIsTheWinners(row, grant, exchange, now);
      if replay.Some? {
        return Enrolled(replay.value);
      }
      if !Admitted(machine, now) {
        return Refused(InvalidOrExpired);
      }
      if authority.None? {
        return Refused(AuthorityUnavailable);
      }
      var certificate := issue(csr, machine.value.uuid, now);
      if certificate.None? {
        return Refused(BadCsr);
      }
      Await(meanwhile, granted);
      var response := Response(machine.value.uuid, certificate.value, authority.value, controlUrl);
      var consumed := ConsumeEnrollmentToken(machine.value.uuid, exchange, now, response);
      if !consumed {
        Await(afterwards, grantedAfterwards);
        EvolvesIsTransitive(old(row), old(grant), meanwhile, granted, afterwards, grantedAfterwards);
        var concurrentReplay := ReplayEnrollment(FindByCredential(row, exchange.tokenHash), exchange, later);
        ReplayIsTheWinners(row, grant, exchange, later);
        return if concurrentReplay.Some? then Enrolled(concurrentReplay.value) else Refused(InvalidOrExpired);
      }
      return Enrolled(response);
    }

    function ExchangeOf(token: string, attemptId: Option<string>, freshAttemptId: string, csr: Csr): Exchange {
      Exchange(hash(token), if attemptId.Some? then attemptId.value else freshAttemptId, fingerprint(csr))
    }
  }
}
