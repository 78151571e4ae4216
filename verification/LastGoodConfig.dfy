/**
  Applying a node configuration: post it with retries, roll back to the last-known-good one when
  that fails, and replace the last-known-good file only by what the node has acknowledged.
 */
module LastGoodConfig {
  import opened AtomicFile
  import opened Wrappers

  const MAX_STORED_BYTES := 0x40_0000
  const MAX_RESPONSE_BYTES := 0x10_0000
  const MAX_ATTEMPTS := 12
  const LAST_GOOD := "last-good-config.json"

  /** What one POST meets. `DiedWaiting` is an answer of the node that the process did not live to see. */
  datatype Response =
    | RequestError
    | Answered(status: nat, readable: bool, size: nat)
    | DiedWaiting(status: nat)

  datatype Post = Post(body: Bytes, response: Response)

  predicate IsSuccess(status: nat) {
    200 <= status < 300
  }

  /** The node acknowledged the body, whether or not the agent could use the answer. */
  predicate Acknowledged(post: Post) {
    (post.response.Answered? || post.response.DiedWaiting?) && IsSuccess(post.response.status)
  }

  /** The agent takes the post as applied. */
  predicate Accepted(response: Response) {
    response.Answered? && response.readable && response.size <= MAX_RESPONSE_BYTES && IsSuccess(response.status)
  }

  /** What the node was last told to run. */
  function LastAcknowledged(log: seq<Post>): Option<Bytes> {
    if log == [] then None
    else if Acknowledged(log[|log| - 1]) then Some(log[|log| - 1].body)
    else LastAcknowledged(log[..|log| - 1])
  }

  /** The node said 200 to 299 to it, heard or not. */
  ghost predicate Says2xx(response: Response) {
    match response
    case RequestError => false
    case Answered(status, _, _) => 199 < status < 300
    case DiedWaiting(status) => 199 < status < 300
  }

  /** Either nothing was acknowledged, or it is the body of the last post that was. */
  lemma {:induction false} LastAcknowledgedMeans(log: seq<Post>) returns (k: nat)
    ensures LastAcknowledged(log).None? ==> forall i :: 0 <= i < |log| ==> !Says2xx(log[i].response)
    ensures LastAcknowledged(log).Some? ==>
              && k < |log| && LastAcknowledged(log) == Some(log[k].body) && Says2xx(log[k].response)
              && forall i :: k < i < |log| ==> !Says2xx(log[i].response)
  {
    k := 0;
    if log != [] {
      if Says2xx(log[|log| - 1].response) {
        k := |log| - 1;
      } else {
        k := LastAcknowledgedMeans(log[..|log| - 1]);
      }
    }
  }

  ghost predicate IsAcknowledged(content: Bytes, log: seq<Post>) {
    |content| <= MAX_STORED_BYTES && exists i :: 0 <= i < |log| && log[i].body == content && Acknowledged(log[i])
  }

  datatype PostOutcome = Posted | Rejected | Cut

  datatype Outcome = Applied | RolledBack | ApplyFailed | TooLargeToStore | PersistFailed | ProcessDied

  datatype Apply = Apply(body: Bytes, readable: bool, fault: Fault)

  /** The answer to the n-th POST, and whether the wait after it is cancelled. */
  datatype Replies = Replies(responses: nat -> Response, cancelled: nat -> bool)

  // ----- what an apply meets

  /** The posts from the n-th on, when the first of them is this one: how they end, and the next number. */
  ghost function PostsMeet(w: Replies, first: nat, n: nat): (PostOutcome, nat)
    requires first <= n <= first + MAX_ATTEMPTS
    decreases first + MAX_ATTEMPTS - n
  {
    if n == first + MAX_ATTEMPTS then (Rejected, n)
    else
      match w.responses(n)
      case DiedWaiting(_) => (Cut, n + 1)
      case Answered(_, _, _) => (if Accepted(w.responses(n)) then Posted else Rejected, n + 1)
      case RequestError => if w.cancelled(n) then (Rejected, n + 1) else PostsMeet(w, first, n + 1)
  }

  /** The posts go on for twelve attempts while requests fail uncancelled, and the last one decides. */
  lemma {:induction false} PostsMean(w: Replies, first: nat, n: nat)
    requires first <= n < first + 12
    ensures var (outcome, next) := PostsMeet(w, first, n);
            var last := next - 1;
            && n <= last < first + 12
            && (forall i :: n <= i < last ==> w.responses(i) == RequestError && !w.cancelled(i))
            && (w.responses(last) == RequestError ==> w.cancelled(last) || last == first + 11)
            && (outcome.Cut? <==> w.responses(last).DiedWaiting?)
            && (outcome.Posted? <==>
                && w.responses(last).Answered? && w.responses(last).readable && w.responses(last).size <= 1_048_576
                && 200 <= w.responses(last).status <= 299)
    decreases first + 12 - n
  {
    if w.responses(n) == RequestError && !w.cancelled(n) && n + 1 < first + 12 {
      PostsMean(w, first, n + 1);
    }
  }

  predicate IsRestorable(stored: Option<Bytes>, a: Apply) {
    a.readable && stored.Some? && 0 < |stored.value| <= 4_194_304 && stored.value != a.body
  }

  /**
    One apply, alone: the body is posted; when that is rejected, what is stored and can be put back is
    posted; when it is accepted, the body is stored. The outcome, the posts and the stored bytes.
   */
  ghost predicate Does(
    w: Replies, log: seq<Post>, stored: Option<Bytes>, a: Apply, outcome: Outcome, log': seq<Post>,
    stored': Option<Bytes>)
  {
    var posts := PostsMeet(w, |log|, |log|);
    var restores := PostsMeet(w, posts.1, posts.1);
    var restoring := posts.0.Rejected? && IsRestorable(stored, a);
    && outcome == (
      if posts.0.Cut? then ProcessDied
      else if posts.0.Posted? then
        if |a.body| > 4_194_304 then TooLargeToStore
        else if ReplyTo(a.fault).Succeeds? then Applied
        else if ReplyTo(a.fault).Dies? then ProcessDied else PersistFailed
      else if !restoring || restores.0.Rejected? then ApplyFailed
      else if restores.0.Posted? then RolledBack else ProcessDied)
    && |log| <= posts.1 <= |log'| == (if restoring then restores.1 else posts.1)
    && log == log'[..|log|]
    && (forall i :: |log| <= i < posts.1 ==> log'[i] == Post(a.body, w.responses(i)))
    && (restoring ==> forall i :: posts.1 <= i < |log'| ==> log'[i] == Post(stored.value, w.responses(i)))
    && stored' == if posts.0.Posted? && |a.body| <= 4_194_304 && Lands(a.fault) then Some(a.body) else stored
  }

  class ConfigHandler {
    /** The instance's directory, which holds the last-known-good file. */
    var directory: Directory
    var log: seq<Post>
    /** The answer to the n-th POST, and whether the wait after it is cancelled. */
    const responses: nat -> Response
    const cancelled: nat -> bool

    function Stored(): Option<Bytes>
      reads this
    {
      ContentOf(directory, LAST_GOOD)
    }

    lemma WhereItIsStored()
      ensures Stored() == ContentOf(directory, "last-good-config.json")
    {}

    /** The stored bytes are within the limit and are, byte for byte, a body the node once acknowledged. */
    ghost predicate Valid()
      reads this
    {
      Numbered(directory) && (Stored().Some? ==> IsAcknowledged(Stored().value, log))
    }

    constructor (responses: nat -> Response, cancelled: nat -> bool)
      ensures Valid() && Stored() == None && log == []
      ensures this.responses == responses && this.cancelled == cancelled
    {
      this.responses, this.cancelled, directory, log := responses, cancelled, EMPTY, [];
    }

    /** At most twelve posts of the one body; every post but the last failed to get an answer. */
    method PostConfigWithRetry(body: Bytes) returns (outcome: PostOutcome)
      requires Valid()
      modifies this`log
      ensures Valid()
      ensures old(log) <= log && |old(log)| < |log| <= |old(log)| + MAX_ATTEMPTS
      ensures forall i :: |old(log)| <= i < |log| ==> log[i] == Post(body, responses(i))
      ensures forall i :: |old(log)| <= i < |log| - 1 ==> log[i].response == RequestError && !cancelled(i)
      ensures outcome.Posted? <==> Accepted(log[|log| - 1].response)
      ensures outcome.Cut? <==> log[|log| - 1].response.DiedWaiting?
      ensures log[|log| - 1].response == RequestError ==> cancelled(|log| - 1) || |log| == |old(log)| + MAX_ATTEMPTS
      ensures (outcome, |log|) == PostsMeet(Replies(responses, cancelled), |old(log)|, |old(log)|)
    {
      for attempt := 0 to MAX_ATTEMPTS
        invariant Valid() && old(log) <= log && |log| == |old(log)| + attempt
        invariant PostsMeet(Replies(responses, cancelled), |old(log)|, |old(log)|) ==
                  PostsMeet(Replies(responses, cancelled), |old(log)|, |log|)
        invariant forall i :: |old(log)| <= i < |log| ==>
                    log[i] == Post(body, responses(i)) && log[i].response == RequestError && !cancelled(i)
      {
        var response := responses(|log|);
        ghost var before := log;
        log := log + [Post(body, response)];
        assert forall i :: 0 <= i < |before| ==> log[i] == before[i];
        match response {
          case DiedWaiting(_) => return Cut;
          case Answered(status, readable, size) =>
            return if readable && size <= MAX_RESPONSE_BYTES && IsSuccess(status) then Posted else Rejected;
          case RequestError =>
            if cancelled(|log| - 1) {
              return Rejected;
            }
        }
      }
      return Rejected;
    }

    /** Replaces the file; every state a crash can leave holds a whole, acknowledged configuration or none. */
    method AtomicWrite(content: Bytes, fault: Fault) returns (reply: Reply, ghost states: seq<Directory>)
      requires Valid() && IsAcknowledged(content, log)
      modifies this`directory
      ensures Valid() && reply == ReplyTo(fault)
      ensures Stored() == if Lands(fault) then Some(content) else old(Stored())
      ensures states != [] && states[|states| - 1] == directory
      ensures forall i :: 0 <= i < |states| ==>
                var left := ContentOf(states[i], LAST_GOOD);
                (left == old(Stored()) || left == Some(content)) && (left.Some? ==> IsAcknowledged(left.value, log))
    {
      directory, states := Replace(directory, LAST_GOOD, content, fault);
      reply := ReplyTo(fault);
    }

    /** `readable` is false when the stored file cannot be read; `fault` strikes its replacement. */
    method Execute(body: Bytes, readable: bool, fault: Fault) returns (outcome: Outcome)
      requires Valid()
      modifies this
      ensures Valid() && old(log) < log && |log| <= |old(log)| + 2 * MAX_ATTEMPTS
      ensures outcome.Applied? ==> Stored() == Some(body) && LastAcknowledged(log) == Stored()
      ensures outcome.RolledBack? ==>
                && Stored().Some? && Stored() == old(Stored()) && Stored() != Some(body) && Stored() != Some([])
                && LastAcknowledged(log) == Stored()
      ensures outcome.TooLargeToStore? || outcome.PersistFailed? ==>
                Stored() == old(Stored()) && LastAcknowledged(log) == Some(body)
      ensures Stored() != old(Stored()) ==>
                Stored() == Some(body) && LastAcknowledged(log) == Stored()
                  && (outcome.Applied? || outcome.ProcessDied?)
      ensures Accepted(responses(|old(log)|)) ==>
                outcome == if |body| > MAX_STORED_BYTES then TooLargeToStore
                           else if fault.NoFault? then Applied
                           else if ReplyTo(fault).Dies? then ProcessDied
                           else PersistFailed
      ensures (&& responses(|old(log)|).Answered? && !Accepted(responses(|old(log)|))
               && readable && old(Stored()).Some? && old(Stored()).value != [] && old(Stored()).value != body
               && Accepted(responses(|old(log)| + 1)))
              ==> outcome == RolledBack
      ensures Does(Replies(responses, cancelled), old(log), old(Stored()), Apply(body, readable, fault), outcome, log,
                  Stored())
    {
      var posted := PostConfigWithRetry(body);
      if posted.Cut? {
        return ProcessDied;
      }
      if posted.Rejected? {
        var stored := Stored();
        if readable && stored.Some? && 0 < |stored.value| <= MAX_STORED_BYTES && stored.value != body {
          var restored := PostConfigWithRetry(stored.value);
          if restored.Posted? {
            return RolledBack;
          }
          if restored.Cut? {
            return ProcessDied;
          }
        }
        return ApplyFailed;
      }
      if |body| > MAX_STORED_BYTES {
        return TooLargeToStore;
      }
      var reply, _ := AtomicWrite(body, fault);
      return if reply.Succeeds? then Applied else if reply.Dies? then ProcessDied else PersistFailed;
    }
  }

  /**
    Over any sequence of applies, with failures and crashes anywhere: the stored bytes are the whole
    of one body that was applied, within the limit, and were acknowledged by the node.
   */
  method Serve(handler: ConfigHandler, applies: seq<Apply>)
    requires handler.Valid() && handler.Stored() == None
    modifies handler
    ensures handler.Stored().Some? ==>
              && IsAcknowledged(handler.Stored().value, handler.log)
              && exists i :: 0 <= i < |applies| && applies[i].body == handler.Stored().value
  {
    for n := 0 to |applies|
      invariant handler.Valid()
      invariant handler.Stored().Some? ==> exists i :: 0 <= i < n && applies[i].body == handler.Stored().value
    {
      var _ := handler.Execute(applies[n].body, applies[n].readable, applies[n].fault);
    }
  }
}
