/**
  Every interleaving of configuration applies to one instance: commands of overlapping sessions run
  at the same time, one POST or one file access after the other, and the process can die anywhere.
 */
module LastGoodRuns {
  import opened AtomicFile
  import opened Wrappers
  import L = LastGoodConfig

  datatype Phase =
    | Posting(failures: nat)
    | Reading
    | Reposting(previous: Bytes, failures: nat)
    | Storing
    | Over(outcome: Option<L.Outcome>)

  datatype Execution = Execution(body: Bytes, phase: Phase)

  /** The stored configuration, the posts the node has seen, and the applies. */
  datatype State = State(stored: Option<Bytes>, log: seq<L.Post>, executions: seq<Execution>)

  /** What one access meets; `readable` is false when the stored file cannot be read. */
  datatype Turn = Turn(response: L.Response, cancelled: bool, readable: bool, fault: Fault)

  datatype Step = Begin(body: Bytes) | Go(execution: nat, turn: Turn) | Crash

  const INITIAL := State(None, [], [])

  // ----- the steps

  function Ended(s: State): State {
    s.(executions :=
      seq(|s.executions|, i requires 0 <= i < |s.executions| =>
        if s.executions[i].phase.Over? then s.executions[i] else s.executions[i].(phase := Over(None))))
  }

  /** The execution goes on after a POST of `body`; a request error is met again unless it is the last. */
  function AfterPost(
    s: State, i: nat, body: Bytes, failures: nat, t: Turn, again: Phase, accepted: Phase, rejected: Phase): State
    requires i < |s.executions|
  {
    var logged := s.(log := s.log + [L.Post(body, t.response)]);
    if t.response.DiedWaiting? then Ended(logged)
    else
      var phase := if L.Accepted(t.response) then accepted
                   else if t.response.RequestError? && !t.cancelled && failures + 1 < L.MAX_ATTEMPTS then again
                   else rejected;
      Put(logged, i, phase)
  }

  function Put(s: State, i: nat, phase: Phase): State
    requires i < |s.executions|
  {
    s.(executions := s.executions[i := s.executions[i].(phase := phase)])
  }

  function AfterRead(stored: Option<Bytes>, body: Bytes, readable: bool): Phase {
    if readable && stored.Some? && 0 < |stored.value| <= L.MAX_STORED_BYTES && stored.value != body
    then Reposting(stored.value, 0)
    else Over(Some(L.ApplyFailed))
  }

  function AfterStore(s: State, i: nat, fault: Fault): State
    requires i < |s.executions|
  {
    var stored := s.(stored := if Lands(fault) then Some(s.executions[i].body) else s.stored);
    match ReplyTo(fault)
    case Succeeds => Put(stored, i, Over(Some(L.Applied)))
    case Fails => Put(stored, i, Over(Some(L.PersistFailed)))
    case Dies => Ended(stored)
  }

  /** One step; a step that does not apply changes nothing. */
  function Next(s: State, step: Step): State {
    match step
    case Begin(body) => s.(executions := s.executions + [Execution(body, Posting(0))])
    case Crash => Ended(s)
    case Go(i, t) =>
      if i >= |s.executions| then s
      else
        var e := s.executions[i];
        match e.phase
        case Posting(n) =>
          AfterPost(s, i, e.body, n, t, Posting(n + 1),
            if |e.body| > L.MAX_STORED_BYTES then Over(Some(L.TooLargeToStore)) else Storing, Reading)
        case Reading => Put(s, i, AfterRead(s.stored, e.body, t.readable))
        case Reposting(previous, n) =>
          AfterPost(s, i, previous, n, t, Reposting(previous, n + 1),
            Over(Some(L.RolledBack)), Over(Some(L.ApplyFailed)))
        case Storing => AfterStore(s, i, t.fault)
        case Over(_) => s
  }

  function Run(steps: seq<Step>): State {
    if steps == [] then INITIAL else Next(Run(steps[..|steps| - 1]), steps[|steps| - 1])
  }

  // ----- what is stored was acknowledged

  /** Who is about to store has had its body acknowledged, and what is stored has been. */
  ghost predicate Inv(s: State) {
    && (s.stored.Some? ==> L.IsAcknowledged(s.stored.value, s.log))
    && (forall i :: 0 <= i < |s.executions| && s.executions[i].phase.Storing? ==>
          L.IsAcknowledged(s.executions[i].body, s.log))
  }

  lemma MorePostsKeepAcknowledged(content: Bytes, log: seq<L.Post>, post: L.Post)
    ensures L.IsAcknowledged(content, log) ==> L.IsAcknowledged(content, log + [post])
    ensures L.Acknowledged(post) && |post.body| <= L.MAX_STORED_BYTES ==> L.IsAcknowledged(post.body, log + [post])
  {
    assert (log + [post])[|log|] == post;
    assert forall i :: 0 <= i < |log| ==> (log + [post])[i] == log[i];
  }

  lemma NextKeepsInv(s: State, step: Step)
    requires Inv(s)
    ensures Inv(Next(s, step))
  {
    var t := Next(s, step);
    if t.log != s.log {
      var post := t.log[|s.log|];
      assert t.log == s.log + [post];
      forall content: Bytes
        ensures L.IsAcknowledged(content, s.log) ==> L.IsAcknowledged(content, t.log)
      {
        MorePostsKeepAcknowledged(content, s.log, post);
      }
      MorePostsKeepAcknowledged(post.body, s.log, post);
    }
  }

  /**
    However applies overlap and wherever the process dies, the stored configuration is the whole of
    one body the node has acknowledged, within the limit.
   */
  lemma {:induction false} StoredIsAcknowledged(steps: seq<Step>)
    ensures Inv(Run(steps))
    ensures Run(steps).stored.Some? ==> L.IsAcknowledged(Run(steps).stored.value, Run(steps).log)
  {
    if steps != [] {
      StoredIsAcknowledged(steps[..|steps| - 1]);
      NextKeepsInv(Run(steps[..|steps| - 1]), steps[|steps| - 1]);
    }
  }

  // ----- when the stored configuration is the one the node runs

  ghost predicate Goes(s: State, step: Step, i: nat) {
    step.Go? && step.execution == i && i < |s.executions|
  }

  /** In this step an execution replaces the stored configuration. */
  ghost predicate Stores(s: State, step: Step) {
    && step.Go? && step.execution < |s.executions|
    && s.executions[step.execution].phase.Storing? && Lands(step.turn.fault)
  }

  /** In this step the node acknowledges a configuration. */
  ghost predicate Acknowledges(s: State, step: Step) {
    && step.Go? && step.execution < |s.executions|
    && (s.executions[step.execution].phase.Posting? || s.executions[step.execution].phase.Reposting?)
    && L.Acknowledged(L.Post([], step.turn.response))
  }

  function BodyOf(e: Execution): Bytes {
    if e.phase.Reposting? then e.phase.previous else e.body
  }

  /** Since the execution read the stored configuration, the last one to store has stored another. */
  ghost predicate Replaced(steps: seq<Step>, i: nat) {
    steps != []
    && var before, last := steps[..|steps| - 1], steps[|steps| - 1];
    var s := Run(before);
    && i < |s.executions| && s.executions[i].phase.Reposting?
    && if Stores(s, last) then s.executions[last.execution].body != s.executions[i].phase.previous
       else Replaced(before, i)
  }

  /** Since the execution's body was accepted, the node has last acknowledged another. */
  ghost predicate Superseded(steps: seq<Step>, i: nat) {
    steps != []
    && var before, last := steps[..|steps| - 1], steps[|steps| - 1];
    var s := Run(before);
    && i < |s.executions| && s.executions[i].phase.Storing?
    && if Acknowledges(s, last) then BodyOf(s.executions[last.execution]) != s.executions[i].body
       else Superseded(before, i)
  }

  lemma RepostingAfter(s: State, step: Step, i: nat)
    requires i < |Next(s, step).executions| && Next(s, step).executions[i].phase.Reposting?
    ensures var t := Next(s, step);
            var previous := t.executions[i].phase.previous;
            && i < |s.executions|
            && (s.executions[i].phase.Reposting? ==> s.executions[i].phase.previous == previous)
            && (!s.executions[i].phase.Reposting? ==> t.stored == Some(previous) && !Stores(s, step))
            && t.stored == if Stores(s, step) then Some(s.executions[step.execution].body) else s.stored
  {
  }

  lemma {:induction false} ReplacedExactly(steps: seq<Step>, i: nat)
    requires i < |Run(steps).executions| && Run(steps).executions[i].phase.Reposting?
    ensures Run(steps).stored == Some(Run(steps).executions[i].phase.previous) <==> !Replaced(steps, i)
  {
    var before, last := steps[..|steps| - 1], steps[|steps| - 1];
    RepostingAfter(Run(before), last, i);
    if Run(before).executions[i].phase.Reposting? {
      ReplacedExactly(before, i);
    }
  }

  lemma LastAcknowledgedAfter(log: seq<L.Post>, post: L.Post)
    ensures L.LastAcknowledged(log + [post]) ==
            if L.Acknowledged(post) then Some(post.body) else L.LastAcknowledged(log)
  {
    assert (log + [post])[..|log|] == log;
  }

  lemma StoringAfter(s: State, step: Step, i: nat)
    requires i < |Next(s, step).executions| && Next(s, step).executions[i].phase.Storing?
    ensures var t := Next(s, step);
            && i < |s.executions| && t.executions[i].body == s.executions[i].body
            && (!s.executions[i].phase.Storing? ==>
                  Goes(s, step, i) && Acknowledges(s, step) && BodyOf(s.executions[i]) == s.executions[i].body)
            && L.LastAcknowledged(t.log) ==
               if Acknowledges(s, step) then Some(BodyOf(s.executions[step.execution])) else L.LastAcknowledged(s.log)
  {
    var t := Next(s, step);
    if t.log != s.log {
      LastAcknowledgedAfter(s.log, t.log[|s.log|]);
      assert t.log == s.log + [t.log[|s.log|]];
    }
  }

  lemma {:induction false} SupersededExactly(steps: seq<Step>, i: nat)
    requires i < |Run(steps).executions| && Run(steps).executions[i].phase.Storing?
    ensures L.LastAcknowledged(Run(steps).log) == Some(Run(steps).executions[i].body) <==> !Superseded(steps, i)
  {
    var before, last := steps[..|steps| - 1], steps[|steps| - 1];
    StoringAfter(Run(before), last, i);
    if Run(before).executions[i].phase.Storing? {
      SupersededExactly(before, i);
    }
  }

  lemma RunStep(steps: seq<Step>, step: Step)
    ensures Run(steps + [step]) == Next(Run(steps), step)
  {
    assert (steps + [step])[..|steps|] == steps;
  }

  /**
    A rollback that is reported has put back what the execution read, and the node runs it. It is
    what is stored if and only if nobody has stored another configuration since the execution read.
   */
  lemma RolledBackExactly(steps: seq<Step>, i: nat, turn: Turn)
    requires i < |Run(steps).executions| && Run(steps).executions[i].phase.Reposting? && L.Accepted(turn.response)
    ensures var s, t := Run(steps), Run(steps + [Go(i, turn)]);
            && t.executions[i].phase == Over(Some(L.RolledBack))
            && L.LastAcknowledged(t.log) == Some(s.executions[i].phase.previous)
            && (t.stored == L.LastAcknowledged(t.log) <==> !Replaced(steps, i))
  {
    var s := Run(steps);
    RunStep(steps, Go(i, turn));
    ReplacedExactly(steps, i);
    LastAcknowledgedAfter(s.log, L.Post(s.executions[i].phase.previous, turn.response));
  }

  /**
    An apply that is reported has stored its body. The node runs it if and only if it has not
    acknowledged another since it accepted this one.
   */
  lemma AppliedExactly(steps: seq<Step>, i: nat, turn: Turn)
    requires i < |Run(steps).executions| && Run(steps).executions[i].phase.Storing? && turn.fault.NoFault?
    ensures var s, t := Run(steps), Run(steps + [Go(i, turn)]);
            && t.executions[i].phase == Over(Some(L.Applied)) && t.stored == Some(s.executions[i].body)
            && (t.stored == L.LastAcknowledged(t.log) <==> !Superseded(steps, i))
  {
    RunStep(steps, Go(i, turn));
    SupersededExactly(steps, i);
  }

  // ----- an apply alone

  /** The execution goes on for `k` turns that meet the same replies as the handler would. */
  function Alone(w: L.Replies, s: State, i: nat, a: L.Apply, k: nat): State
    decreases k
  {
    if k == 0 then s
    else
      Alone(w, Next(s, Go(i, Turn(w.responses(|s.log|), w.cancelled(|s.log|), a.readable, a.fault))), i, a, k - 1)
  }

  lemma {:induction false} AloneAddsUp(w: L.Replies, s: State, i: nat, a: L.Apply, j: nat, k: nat)
    ensures Alone(w, Alone(w, s, i, a, j), i, a, k) == Alone(w, s, i, a, j + k)
    decreases j
  {
    if j > 0 {
      var t := Turn(w.responses(|s.log|), w.cancelled(|s.log|), a.readable, a.fault);
      AloneAddsUp(w, Next(s, Go(i, t)), i, a, j - 1, k);
    }
  }

  /** The posts are those of the handler, whatever phase follows them. */
  ghost predicate HasPosted(w: L.Replies, s: State, t: State, body: Bytes, n: nat) {
    && t.stored == s.stored && |t.executions| == |s.executions|
    && |s.log| <= |t.log| == n && t.log[..|s.log|] == s.log
    && forall j :: |s.log| <= j < n ==> t.log[j] == L.Post(body, w.responses(j))
  }

  lemma {:induction false} PostingAlone(w: L.Replies, s: State, i: nat, a: L.Apply, failures: nat) returns (k: nat)
    requires i < |s.executions| && s.executions[i] == Execution(a.body, Posting(failures))
    requires failures < L.MAX_ATTEMPTS && failures <= |s.log|
    ensures var t, posts := Alone(w, s, i, a, k), L.PostsMeet(w, |s.log| - failures, |s.log|);
            && HasPosted(w, s, t, a.body, posts.1)
            && t.executions[i] == Execution(a.body,
              if posts.0.Cut? then Over(None)
              else if posts.0.Rejected? then Reading
              else if |a.body| > L.MAX_STORED_BYTES then Over(Some(L.TooLargeToStore)) else Storing)
    decreases L.MAX_ATTEMPTS - failures
  {
    var first := |s.log| - failures;
    var t := Next(s, Go(i, Turn(w.responses(|s.log|), w.cancelled(|s.log|), a.readable, a.fault)));
    k := 0;
    assert Alone(w, t, i, a, k) == t;
    if t.executions[i].phase.Posting? {
      k := PostingAlone(w, t, i, a, failures + 1);
    } else if failures + 1 == L.MAX_ATTEMPTS {
      assert L.PostsMeet(w, first, first + L.MAX_ATTEMPTS).0.Rejected?;
    }
    k := k + 1;
  }

  lemma {:induction false} RepostingAlone(
    w: L.Replies, s: State, i: nat, a: L.Apply, previous: Bytes, failures: nat) returns (k: nat)
    requires i < |s.executions| && s.executions[i] == Execution(a.body, Reposting(previous, failures))
    requires failures < L.MAX_ATTEMPTS && failures <= |s.log|
    ensures var t, posts := Alone(w, s, i, a, k), L.PostsMeet(w, |s.log| - failures, |s.log|);
            && HasPosted(w, s, t, previous, posts.1)
            && t.executions[i] == Execution(a.body,
              Over(if posts.0.Cut? then None else Some(if posts.0.Posted? then L.RolledBack else L.ApplyFailed)))
    decreases L.MAX_ATTEMPTS - failures
  {
    var first := |s.log| - failures;
    var t := Next(s, Go(i, Turn(w.responses(|s.log|), w.cancelled(|s.log|), a.readable, a.fault)));
    k := 0;
    assert Alone(w, t, i, a, k) == t;
    if t.executions[i].phase.Reposting? {
      k := RepostingAlone(w, t, i, a, previous, failures + 1);
    } else if failures + 1 == L.MAX_ATTEMPTS {
      assert L.PostsMeet(w, first, first + L.MAX_ATTEMPTS).0.Rejected?;
    }
    k := k + 1;
  }

  lemma ReadingAlone(w: L.Replies, s: State, i: nat, a: L.Apply) returns (k: nat, outcome: L.Outcome)
    requires i < |s.executions| && s.executions[i] == Execution(a.body, Reading)
    ensures var t, posts := Alone(w, s, i, a, k), L.PostsMeet(w, |s.log|, |s.log|);
            && |t.executions| == |s.executions|
            && t.executions[i] == Execution(a.body, Over(if outcome.ProcessDied? then None else Some(outcome)))
            && if L.IsRestorable(s.stored, a)
               then HasPosted(w, s, t, s.stored.value, posts.1)
                    && outcome == (if posts.0.Cut? then L.ProcessDied
                                   else if posts.0.Posted? then L.RolledBack else L.ApplyFailed)
               else t == Put(s, i, Over(Some(L.ApplyFailed))) && outcome == L.ApplyFailed
  {
    var read := Put(s, i, AfterRead(s.stored, a.body, a.readable));
    assert read == Alone(w, s, i, a, 1);
    k, outcome := 1, L.ApplyFailed;
    if L.IsRestorable(s.stored, a) {
      var more := RepostingAlone(w, read, i, a, s.stored.value, 0);
      AloneAddsUp(w, s, i, a, 1, more);
      k := 1 + more;
      var posts := L.PostsMeet(w, |s.log|, |s.log|);
      outcome := if posts.0.Cut? then L.ProcessDied else if posts.0.Posted? then L.RolledBack else L.ApplyFailed;
    }
  }

  /**
    An apply that nothing interrupts does in the end what the handler's execution does: the same
    posts, the same stored bytes and the same outcome.
   */
  lemma AloneItIsTheHandler(w: L.Replies, s: State, a: L.Apply) returns (k: nat, outcome: L.Outcome)
    ensures var t := Alone(w, Next(s, Begin(a.body)), |s.executions|, a, k);
            && L.Does(w, s.log, s.stored, a, outcome, t.log, t.stored)
            && |t.executions| == |s.executions| + 1
            && t.executions[|s.executions|] ==
               Execution(a.body, Over(if outcome.ProcessDied? then None else Some(outcome)))
  {
    var i, begun := |s.executions|, Next(s, Begin(a.body));
    k := PostingAlone(w, begun, i, a, 0);
    var posted := Alone(w, begun, i, a, k);
    match posted.executions[i].phase
    case Over(o) => outcome := if o.None? then L.ProcessDied else o.value;
    case Storing =>
      AloneAddsUp(w, begun, i, a, k, 1);
      k := k + 1;
      assert Alone(w, posted, i, a, 1) == AfterStore(posted, i, a.fault);
      outcome :=
        match ReplyTo(a.fault)
        case Succeeds => L.Applied
        case Fails => L.PersistFailed
        case Dies => L.ProcessDied;
    case Reading =>
      var more: nat;
      more, outcome := ReadingAlone(w, posted, i, a);
      AloneAddsUp(w, begun, i, a, k, more);
      k := k + more;
  }

  // ----- runs in which the two differ

  const FINE := Turn(L.Answered(200, true, 0), false, true, NoFault)
  const REFUSED := Turn(L.Answered(500, true, 0), false, true, NoFault)

  /** An apply of its own. */
  function Applying(i: nat, body: Bytes): seq<Step> {
    [Begin(body)] + [Go(i, FINE)] + [Go(i, FINE)]
  }

  lemma LastPut(front: seq<Execution>, a: Execution, b: Execution)
    ensures (front + [a])[|front| := b] == front + [b]
  {
  }

  lemma Applied(s: State, i: nat)
    requires i < |s.executions| && s.executions[i].phase.Storing?
    ensures Next(s, Go(i, FINE)) == Put(s.(stored := Some(s.executions[i].body)), i, Over(Some(L.Applied)))
  {
  }

  lemma AfterApplying(steps: seq<Step>, body: Bytes)
    requires |body| <= L.MAX_STORED_BYTES
    ensures var s, t := Run(steps), Run(steps + Applying(|Run(steps).executions|, body));
            && t.stored == Some(body) && t.log == s.log + [L.Post(body, FINE.response)]
            && t.executions == s.executions + [Execution(body, Over(Some(L.Applied)))]
  {
    var s, i := Run(steps), |Run(steps).executions|;
    var begun := s.(executions := s.executions + [Execution(body, Posting(0))]);
    var log := s.log + [L.Post(body, FINE.response)];
    var posted := State(s.stored, log, s.executions + [Execution(body, Storing)]);
    RunStep(steps, Begin(body));
    assert Run(steps + [Begin(body)]) == begun;
    RunStep(steps + [Begin(body)], Go(i, FINE));
    LastPut(s.executions, Execution(body, Posting(0)), Execution(body, Storing));
    assert Run(steps + [Begin(body)] + [Go(i, FINE)]) == posted;
    RunStep(steps + [Begin(body)] + [Go(i, FINE)], Go(i, FINE));
    Applied(posted, i);
    LastPut(s.executions, Execution(body, Storing), Execution(body, Over(Some(L.Applied))));
    assert steps + Applying(i, body) == steps + [Begin(body)] + [Go(i, FINE)] + [Go(i, FINE)];
  }

  /** The first body has been accepted and waits to be stored; meanwhile the second is applied. */
  function Overtaking(first: Bytes, second: Bytes): seq<Step> {
    [] + [Begin(first)] + [Go(0, FINE)] + Applying(1, second)
  }

  /** Both applies report success, the node runs the second body, and the first is stored as last known good. */
  lemma OverlapStoresAnother(first: Bytes, second: Bytes)
    requires |first| <= L.MAX_STORED_BYTES && |second| <= L.MAX_STORED_BYTES && first != second
    ensures var t := Run(Overtaking(first, second) + [Go(0, FINE)]);
            && t.executions == [Execution(first, Over(Some(L.Applied))), Execution(second, Over(Some(L.Applied)))]
            && t.stored == Some(first) && L.LastAcknowledged(t.log) == Some(second)
  {
    var begun := [] + [Begin(first)] + [Go(0, FINE)];
    RunStep([], Begin(first));
    RunStep([] + [Begin(first)], Go(0, FINE));
    AfterApplying(begun, second);
    RunStep(Overtaking(first, second), Go(0, FINE));
    LastAcknowledgedAfter([L.Post(first, FINE.response)], L.Post(second, FINE.response));
  }

  /** A refused apply has read what to put back; meanwhile another body is applied. */
  function Displacing(good: Bytes, refused: Bytes, other: Bytes): seq<Step> {
    [] + Applying(0, good) + [Begin(refused)] + [Go(1, REFUSED)] + [Go(1, FINE)] + Applying(2, other)
  }

  /** The rollback is reported, and yet the stored configuration is not the one the node runs again. */
  lemma OverlapRollsBackBehind(good: Bytes, refused: Bytes, other: Bytes)
    requires 0 < |good| <= L.MAX_STORED_BYTES && |other| <= L.MAX_STORED_BYTES && good != refused && good != other
    ensures var t := Run(Displacing(good, refused, other) + [Go(1, FINE)]);
            && |t.executions| == 3 && t.executions[1] == Execution(refused, Over(Some(L.RolledBack)))
            && L.LastAcknowledged(t.log) == Some(good) && t.stored == Some(other)
  {
    var applied := [] + Applying(0, good);
    var displaced := Displacing(good, refused, other);
    AfterApplying([], good);
    RunStep(applied, Begin(refused));
    RunStep(applied + [Begin(refused)], Go(1, REFUSED));
    RunStep(applied + [Begin(refused)] + [Go(1, REFUSED)], Go(1, FINE));
    AfterApplying(applied + [Begin(refused)] + [Go(1, REFUSED)] + [Go(1, FINE)], other);
    RunStep(displaced, Go(1, FINE));
    LastAcknowledgedAfter(Run(displaced).log, L.Post(good, FINE.response));
  }
}
