/**
  The panel's control gateway: which socket speaks for a machine, which sockets are still alive,
  and what a message may do before the hello of its session was accepted. Events come in any order;
  each socket's messages are handled one after the other.
 */
module Gateway {
  import opened Wrappers

  type Machine = string

  type Socket = nat

  /**
    A decoded message with what the repository answers to it; `Malformed` covers binary and invalid
    ones. `followed` says whether the work after the effect succeeds: new commands are made and sent.
   */
  datatype Message =
    | Malformed
    | Hello(machine: Machine, eligible: bool, followed: bool)
    | Heartbeat(machine: Machine, eligible: bool, followed: bool)
    | Result(accepted: bool, followed: bool)

  datatype Effect =
    | Connected(socket: Socket, machine: Machine)
    | HeartbeatMarked(socket: Socket, machine: Machine)
    | ResultCompleted(socket: Socket, machine: Machine)

  /**
    `machineOf` are the sockets started so far, `timers` those whose hello timer runs; `closing`
    are the sockets told to close, `terminated` those cut off.
   */
  datatype State = State(
    sessions: map<Machine, Socket>,
    machineOf: map<Socket, Machine>,
    live: set<Socket>,
    greeted: set<Socket>,
    pipeline: map<Socket, seq<Message>>,
    timers: set<Socket>,
    closing: set<Socket>,
    terminated: set<Socket>,
    effects: seq<Effect>)

  datatype Event =
    | Start(socket: Socket, machine: Machine)
    | Pong(socket: Socket)
    | Arrive(socket: Socket, message: Message)
    | Handle(socket: Socket)
    | HelloTimeout(socket: Socket)
    | Close(socket: Socket)
    | Tick

  const INITIAL := State(map[], map[], {}, {}, map[], {}, {}, {}, [])

  // ----- what each event does

  /** A socket is started once. The machine's old socket, if any, is told to close. */
  function AfterStart(s: State, socket: Socket, machine: Machine): State {
    if socket in s.machineOf then s
    else
      s.(closing := if machine in s.sessions then s.closing + {s.sessions[machine]} else s.closing,
         sessions := s.sessions[machine := socket],
         machineOf := s.machineOf[socket := machine],
         live := s.live + {socket},
         timers := s.timers + {socket},
         pipeline := s.pipeline[socket := []])
  }

  /** The message is an error before it has any effect. */
  predicate Refuses(greeted: bool, machine: Machine, message: Message) {
    match message
    case Malformed => true
    case Hello(claimed, eligible, _) => greeted || claimed != machine || !eligible
    case Heartbeat(claimed, eligible, _) => !greeted || claimed != machine || !eligible
    case Result(accepted, _) => !greeted || !accepted
  }

  function EffectOf(socket: Socket, machine: Machine, message: Message): Effect
    requires !message.Malformed?
  {
    match message
    case Hello(_, _, _) => Connected(socket, machine)
    case Heartbeat(_, _, _) => HeartbeatMarked(socket, machine)
    case Result(_, _) => ResultCompleted(socket, machine)
  }

  /** An error closes the socket, before the effect as well as after it. */
  function AfterMessage(s: State, socket: Socket, machine: Machine, message: Message): State {
    if Refuses(socket in s.greeted, machine, message) then s.(closing := s.closing + {socket})
    else
      s.(greeted := if message.Hello? then s.greeted + {socket} else s.greeted,
         effects := s.effects + [EffectOf(socket, machine, message)],
         closing := if message.followed then s.closing else s.closing + {socket})
  }

  function AfterHandle(s: State, socket: Socket): State {
    if socket !in s.machineOf || socket !in s.pipeline || s.pipeline[socket] == [] then s
    else
      AfterMessage(s.(pipeline := s.pipeline[socket := s.pipeline[socket][1..]]), socket, s.machineOf[socket],
          s.pipeline[socket][0])
  }

  /** Only the socket that speaks for the machine takes the session down with it. */
  function AfterClose(s: State, socket: Socket): State {
    if socket !in s.machineOf then s
    else
      var machine := s.machineOf[socket];
      s.(timers := s.timers - {socket},
         sessions :=
           if machine in s.sessions && s.sessions[machine] == socket then s.sessions - {machine} else s.sessions)
  }

  /** The timer fires once, whether or not the socket said hello; only its close stops it. */
  function AfterHelloTimeout(s: State, socket: Socket): State {
    if socket in s.timers then s.(timers := s.timers - {socket}, closing := s.closing + {socket}) else s
  }

  /** Current sockets that have not answered since the last tick are cut off, the others are asked again. */
  function AfterTick(s: State): State {
    s.(terminated := s.terminated + (s.sessions.Values - s.live), live := s.live - s.sessions.Values)
  }

  function Next(s: State, event: Event): State {
    match event
    case Start(socket, machine) => AfterStart(s, socket, machine)
    case Pong(socket) => if socket in s.machineOf then s.(live := s.live + {socket}) else s
    case Arrive(socket, message) =>
      if socket in s.pipeline then s.(pipeline := s.pipeline[socket := s.pipeline[socket] + [message]]) else s
    case Handle(socket) => AfterHandle(s, socket)
    case HelloTimeout(socket) => AfterHelloTimeout(s, socket)
    case Close(socket) => AfterClose(s, socket)
    case Tick => AfterTick(s)
  }

  function Run(events: seq<Event>): State {
    if events == [] then INITIAL else Next(Run(events[..|events| - 1]), events[|events| - 1])
  }

  // ----- the gateway object

  class MachineControlGateway {
    var sessions: map<Machine, Socket>
    var machineOf: map<Socket, Machine>
    var live: set<Socket>
    var greeted: set<Socket>
    var pipeline: map<Socket, seq<Message>>
    var timers: set<Socket>
    var closing: set<Socket>
    var terminated: set<Socket>
    var effects: seq<Effect>

    function Snapshot(): State
      reads this
    {
      State(sessions, machineOf, live, greeted, pipeline, timers, closing, terminated, effects)
    }

    constructor ()
      ensures Snapshot() == INITIAL
    {
      sessions, machineOf, live, greeted, pipeline := map[], map[], {}, {}, map[];
      timers, closing, terminated, effects := {}, {}, {}, [];
    }

    method StartSession(socket: Socket, machine: Machine)
      requires socket !in machineOf
      modifies this
      ensures Snapshot() == Next(old(Snapshot()), Start(socket, machine))
    {
      if machine in sessions {
        closing := closing + {sessions[machine]};
      }
      sessions := sessions[machine := socket];
      live := live + {socket};
      timers := timers + {socket};
      machineOf := machineOf[socket := machine];
      pipeline := pipeline[socket := []];
    }

    method OnPong(socket: Socket)
      requires socket in machineOf
      modifies this`live
      ensures Snapshot() == Next(old(Snapshot()), Pong(socket))
    {
      live := live + {socket};
    }

    method OnClose(socket: Socket)
      requires socket in machineOf
      modifies this`sessions, this`timers
      ensures Snapshot() == Next(old(Snapshot()), Close(socket))
    {
      timers := timers - {socket};
      var machine := machineOf[socket];
      if machine in sessions && sessions[machine] == socket {
        sessions := sessions - {machine};
      }
    }

    method OnHelloTimeout(socket: Socket)
      requires socket in timers
      modifies this`timers, this`closing
      ensures Snapshot() == Next(old(Snapshot()), HelloTimeout(socket))
    {
      timers, closing := timers - {socket}, closing + {socket};
    }

    /** Handles the next message of a socket's pipeline; any error is caught and closes the socket. */
    method OnMessage(socket: Socket)
      requires socket in machineOf && socket in pipeline && pipeline[socket] != []
      modifies this
      ensures Snapshot() == Next(old(Snapshot()), Handle(socket))
    {
      var message := pipeline[socket][0];
      pipeline := pipeline[socket := pipeline[socket][1..]];
      var ok := HandleMessage(socket, message);
      if !ok {
        closing := closing + {socket};
      }
    }

    /** False is an error: before the effect when the message is refused, after it when the rest fails. */
    method HandleMessage(socket: Socket, message: Message) returns (ok: bool)
      requires socket in machineOf
      modifies this`effects, this`greeted
      ensures var refused := Refuses(socket in old(greeted), machineOf[socket], message);
              && (ok <==> !refused && message.followed)
              && effects ==
                (if refused then old(effects) else old(effects) + [EffectOf(socket, machineOf[socket], message)])
              && greeted == (if !refused && message.Hello? then old(greeted) + {socket} else old(greeted))
    {
      var machine := machineOf[socket];
      if message.Malformed? || (socket !in greeted && !message.Hello?) {
        return false;
      }
      if message.Hello? {
        if socket in greeted || message.machine != machine || !message.eligible {
          return false;
        }
        effects := effects + [Connected(socket, machine)];
        greeted := greeted + {socket};
        return message.followed;
      }
      if message.Heartbeat? {
        if message.machine != machine || !message.eligible {
          return false;
        }
        effects := effects + [HeartbeatMarked(socket, machine)];
        return message.followed;
      }
      if !message.accepted {
        return false;
      }
      effects := effects + [ResultCompleted(socket, machine)];
      return message.followed;
    }

    /** Visits the current sockets in any order. */
    method PingSessions()
      modifies this`live, this`terminated
      ensures Snapshot() == Next(old(Snapshot()), Tick)
    {
      var remaining := sessions.Values;
      while remaining != {}
        invariant remaining <= sessions.Values
        invariant terminated == old(terminated) + ((sessions.Values - remaining) - old(live))
        invariant live == old(live) - (sessions.Values - remaining)
        decreases remaining
      {
        var session :| session in remaining;
        remaining := remaining - {session};
        if session !in live {
          terminated := terminated + {session};
          continue;
        }
        live := live - {session};
      }
    }
  }

  // ----- who speaks for a machine

  /** The socket started last for the machine, when it is the first start of that socket. */
  function LastStarted(events: seq<Event>, machine: Machine): Option<Socket> {
    if events == [] then None
    else
      var before, last := events[..|events| - 1], events[|events| - 1];
      if last.Start? && last.machine == machine && last.socket !in Run(before).machineOf then Some(last.socket)
      else LastStarted(before, machine)
  }

  /** The socket was closed after it was started. */
  predicate ClosedSince(events: seq<Event>, socket: Socket) {
    if events == [] then false
    else
      var before, last := events[..|events| - 1], events[|events| - 1];
      (last == Close(socket) && socket in Run(before).machineOf) || ClosedSince(before, socket)
  }

  /** Each started socket belongs to one machine, and nothing is kept for a socket never started. */
  ghost predicate Books(s: State) {
    && (forall m :: m in s.sessions ==> s.sessions[m] in s.machineOf && s.machineOf[s.sessions[m]] == m)
    && s.greeted <= s.machineOf.Keys && s.live <= s.machineOf.Keys
  }

  lemma NextKeepsBooks(s: State, event: Event)
    requires Books(s)
    ensures Books(Next(s, event))
    ensures forall socket :: socket in s.machineOf ==>
      socket in Next(s, event).machineOf && Next(s, event).machineOf[socket] == s.machineOf[socket]
  {
  }

  /** The books are kept in every run, and they hold the sockets that were started last or were closed. */
  lemma {:induction false} Bookkeeping(events: seq<Event>, machine: Machine)
    ensures var s := Run(events);
            && Books(s)
            && (LastStarted(events, machine).Some? ==>
                  LastStarted(events, machine).value in s.machineOf
                    && s.machineOf[LastStarted(events, machine).value] == machine)
            && (forall socket :: ClosedSince(events, socket) ==> socket in s.machineOf)
  {
    if events != [] {
      Bookkeeping(events[..|events| - 1], machine);
      NextKeepsBooks(Run(events[..|events| - 1]), events[|events| - 1]);
    }
  }

  /**
    At every moment of every run the map holds exactly the machine's most recently started socket,
    as long as that socket has not closed, and nothing once it has.
   */
  lemma {:induction false} LatestSocketSpeaks(events: seq<Event>, machine: Machine)
    ensures var latest := LastStarted(events, machine);
            var s := Run(events);
            && (machine in s.sessions <==> latest.Some? && !ClosedSince(events, latest.value))
            && (machine in s.sessions ==> latest == Some(s.sessions[machine]))
  {
    if events != [] {
      var before := events[..|events| - 1];
      LatestSocketSpeaks(before, machine);
      Bookkeeping(before, machine);
    }
  }

  /** The late close of a superseded socket stops its hello timer and changes nothing else. */
  lemma LateCloseEvictsNobody(events: seq<Event>, socket: Socket, machine: Machine)
    requires LastStarted(events, machine).Some? && LastStarted(events, machine) != Some(socket)
    requires socket in Run(events).machineOf && Run(events).machineOf[socket] == machine
    ensures Next(Run(events), Close(socket)) == Run(events).(timers := Run(events).timers - {socket})
  {
    LatestSocketSpeaks(events, machine);
  }

  /** A socket that no longer speaks for its machine has closed or has been told to. */
  lemma {:induction false} SupersededIsToldToClose(events: seq<Event>, socket: Socket)
    ensures var s := Run(events);
            socket in s.machineOf
              && (s.machineOf[socket] !in s.sessions || s.sessions[s.machineOf[socket]] != socket) ==>
              socket in s.closing || ClosedSince(events, socket)
  {
    if events != [] {
      var before := events[..|events| - 1];
      SupersededIsToldToClose(before, socket);
      Bookkeeping(before, "");
    }
  }

  // ----- who is told to close

  /** There is a message to handle. */
  predicate HasMessage(s: State, socket: Socket) {
    socket in s.machineOf && socket in s.pipeline && s.pipeline[socket] != []
  }

  /**
    A refused message has no effect and closes the socket. Any other has exactly its one effect, and
    closes the socket as well exactly when the work after the effect fails.
   */
  lemma RefusedOrOneEffect(s: State, socket: Socket)
    requires HasMessage(s, socket)
    ensures var t, message, machine := Next(s, Handle(socket)), s.pipeline[socket][0], s.machineOf[socket];
            && t.pipeline == s.pipeline[socket := s.pipeline[socket][1..]]
            && t.sessions == s.sessions && t.live == s.live && t.timers == s.timers && t.terminated == s.terminated
            && (Refuses(socket in s.greeted, machine, message) ==>
                  t.effects == s.effects && t.greeted == s.greeted && t.closing == s.closing + {socket})
            && (!Refuses(socket in s.greeted, machine, message) ==>
                  && t.effects == s.effects + [EffectOf(socket, machine, message)] && socket in t.greeted
                  && t.closing == if message.followed then s.closing else s.closing + {socket})
  {
    var message := s.pipeline[socket][0];
    if !Refuses(socket in s.greeted, s.machineOf[socket], message) && !message.Hello? {
      assert socket in s.greeted;
    }
  }

  /** In this event the socket is told to close: superseded, in error, or reached by its hello timer. */
  ghost predicate TellsToClose(before: seq<Event>, event: Event, socket: Socket) {
    var s := Run(before);
    match event
    case Start(other, machine) =>
      other !in s.machineOf && LastStarted(before, machine) == Some(socket) && !ClosedSince(before, socket)
    case Handle(handled) =>
      && handled == socket && HasMessage(s, socket)
      && var message := s.pipeline[socket][0];
      Refuses(socket in s.greeted, s.machineOf[socket], message) || !message.followed
    case HelloTimeout(timed) => timed == socket && socket in s.machineOf && !ClosedSince(before, socket)
    case _ => false
  }

  ghost predicate ToldToClose(events: seq<Event>, socket: Socket) {
    events != []
    && var before, last := events[..|events| - 1], events[|events| - 1];
    TellsToClose(before, last, socket) || ToldToClose(before, socket)
  }

  lemma TimerAfter(s: State, event: Event, socket: Socket)
    ensures var t := Next(s, event);
            && (socket in t.timers ==> (socket in s.timers && event != Close(socket)) || socket !in s.machineOf)
            && (socket in t.timers ==> socket in s.timers || socket in t.machineOf)
            && (socket in s.timers ==> socket in t.timers || socket in t.closing || event == Close(socket))
            && (socket in t.machineOf && socket !in s.machineOf ==> socket in t.timers)
            && s.closing <= t.closing && s.machineOf.Keys <= t.machineOf.Keys
  {
  }

  /** The hello timer of a started socket runs until the socket is closed or told to close by it. */
  lemma {:induction false} TimerRuns(events: seq<Event>, socket: Socket)
    ensures var s := Run(events);
            && (socket in s.timers || ClosedSince(events, socket) ==> socket in s.machineOf)
            && (socket in s.timers ==> !ClosedSince(events, socket))
            && (socket in s.machineOf && !ClosedSince(events, socket) ==> socket in s.timers || socket in s.closing)
  {
    if events != [] {
      var before := events[..|events| - 1];
      TimerRuns(before, socket);
      TimerAfter(Run(before), events[|events| - 1], socket);
    }
  }

  /**
    In every run a socket has been told to close exactly when a later socket was started for its
    machine while it was current, one of its messages was refused or not followed up, or its hello
    timer fired, whether or not it had said hello.
   */
  lemma {:induction false} ClosingExactly(events: seq<Event>, socket: Socket)
    ensures socket in Run(events).closing <==> ToldToClose(events, socket)
  {
    if events != [] {
      var before, last := events[..|events| - 1], events[|events| - 1];
      ClosingExactly(before, socket);
      TimerRuns(before, socket);
      if last.Start? {
        LatestSocketSpeaks(before, last.machine);
      }
    }
  }

  /** An accepted hello does not stop the timer: it closes every session that lasts until then. */
  lemma HelloTimerClosesEverySocket(events: seq<Event>, socket: Socket)
    requires socket in Run(events).machineOf && !ClosedSince(events, socket)
    ensures var s, t := Run(events), Next(Run(events), HelloTimeout(socket));
            && socket in t.closing
            && t.sessions == s.sessions && t.greeted == s.greeted && t.live == s.live && t.effects == s.effects
  {
    TimerRuns(events, socket);
  }

  // ----- liveness

  predicate Disturbs(event: Event, socket: Socket, machine: Machine) {
    event == Tick || event == Pong(socket) || event == Close(socket) || (event.Start? && event.machine == machine)
  }

  function RunFrom(s: State, events: seq<Event>): State {
    if events == [] then s else Next(RunFrom(s, events[..|events| - 1]), events[|events| - 1])
  }

  lemma {:induction false} StaysSilent(s: State, events: seq<Event>, socket: Socket, machine: Machine)
    requires machine in s.sessions && s.sessions[machine] == socket && socket !in s.live && socket in s.machineOf
    requires forall m :: m in s.sessions ==> s.sessions[m] in s.machineOf && s.machineOf[s.sessions[m]] == m
    requires forall i :: 0 <= i < |events| ==> !Disturbs(events[i], socket, machine)
    ensures var t := RunFrom(s, events);
            && machine in t.sessions && t.sessions[machine] == socket && socket !in t.live && socket in t.machineOf
            && (forall m :: m in t.sessions ==> t.sessions[m] in t.machineOf && t.machineOf[t.sessions[m]] == m)
  {
    if events != [] {
      var before := events[..|events| - 1];
      StaysSilent(s, before, socket, machine);
      assert !Disturbs(events[|events| - 1], socket, machine);
    }
  }

  /** A current socket that stays silent between two consecutive ticks is cut off at the second. */
  lemma SilentSocketIsTerminated(events: seq<Event>, between: seq<Event>, socket: Socket, machine: Machine)
    requires machine in Run(events).sessions && Run(events).sessions[machine] == socket
    requires forall i :: 0 <= i < |between| ==> !Disturbs(between[i], socket, machine)
    ensures socket in AfterTick(RunFrom(AfterTick(Run(events)), between)).terminated
  {
    var s := Run(events);
    Bookkeeping(events, machine);
    assert socket in s.sessions.Values;
    StaysSilent(AfterTick(s), between, socket, machine);
    var t := RunFrom(AfterTick(s), between);
    assert t.sessions[machine] in t.sessions.Values;
  }

  /** Whether the socket was started or answered after the last tick. */
  predicate AnsweredSinceTick(events: seq<Event>, socket: Socket) {
    if events == [] then false
    else
      var before, last := events[..|events| - 1], events[|events| - 1];
      if last == Tick then false
      else (last == Pong(socket) && socket in Run(before).machineOf)
           || (last.Start? && last.socket == socket && socket !in Run(before).machineOf)
           || AnsweredSinceTick(before, socket)
  }

  /** The socket speaks for its machine. */
  predicate IsCurrent(s: State, socket: Socket) {
    && socket in s.machineOf && s.machineOf[socket] in s.sessions
    && s.sessions[s.machineOf[socket]] == socket
  }

  /** At some tick the socket was current and had not answered since the tick before. */
  ghost predicate MissedAPing(events: seq<Event>, socket: Socket) {
    events != []
    && var before, last := events[..|events| - 1], events[|events| - 1];
    || (last == Tick && IsCurrent(Run(before), socket) && !AnsweredSinceTick(before, socket))
    || MissedAPing(before, socket)
  }

  /** The liveness mark of a current socket tells whether it has answered. */
  lemma {:induction false} CurrentIsLiveExactly(events: seq<Event>, socket: Socket)
    requires IsCurrent(Run(events), socket)
    ensures socket in Run(events).live <==> AnsweredSinceTick(events, socket)
  {
    var before, last := events[..|events| - 1], events[|events| - 1];
    Bookkeeping(before, "");
    if IsCurrent(Run(before), socket) {
      CurrentIsLiveExactly(before, socket);
      assert socket in Run(before).sessions.Values;
    }
  }

  /**
    In every run a socket has been cut off if and only if at some tick it was current and had not
    answered since the tick before. A socket that answers while it is current is never cut off; it
    can still be told to close.
   */
  lemma {:induction false} TerminatedExactly(events: seq<Event>, socket: Socket)
    ensures socket in Run(events).terminated <==> MissedAPing(events, socket)
  {
    if events != [] {
      var before := events[..|events| - 1];
      TerminatedExactly(before, socket);
      Bookkeeping(before, "");
      var s := Run(before);
      assert socket in s.sessions.Values <==> IsCurrent(s, socket) by {
        if IsCurrent(s, socket) {
          assert s.sessions[s.machineOf[socket]] in s.sessions.Values;
        }
      }
      if IsCurrent(s, socket) {
        CurrentIsLiveExactly(before, socket);
      }
    }
  }

  function Greeting(socket: Socket, machine: Machine): seq<Event> {
    [Start(socket, machine)] + [Arrive(socket, Hello(machine, true, true))] + [Handle(socket)]
  }

  lemma AfterGreeting(socket: Socket, machine: Machine)
    ensures Run(Greeting(socket, machine)) == State(
      map[machine := socket], map[socket := machine], {socket}, {socket}, map[socket := []], {socket}, {}, {},
      [Connected(socket, machine)])
  {
    var start, hello := Start(socket, machine), Arrive(socket, Hello(machine, true, true));
    RunOneMore([], start);
    RunOneMore([start], hello);
    RunOneMore([start] + [hello], Handle(socket));
    assert [] + [start] == [start];
  }

  /** A greeted, answering socket that its hello timer tells to close all the same. */
  lemma GreetedSocketIsToldToClose(socket: Socket, machine: Machine)
    ensures var events := Greeting(socket, machine) + [Pong(socket)] + [HelloTimeout(socket)];
            var s := Run(events);
            && machine in s.sessions && s.sessions[machine] == socket
            && socket in s.greeted && socket in s.live && !MissedAPing(events, socket)
            && socket in s.closing && socket !in s.terminated
  {
    AfterGreeting(socket, machine);
    RunOneMore(Greeting(socket, machine), Pong(socket));
    RunOneMore(Greeting(socket, machine) + [Pong(socket)], HelloTimeout(socket));
    TerminatedExactly(Greeting(socket, machine) + [Pong(socket)] + [HelloTimeout(socket)], socket);
  }

  lemma RunOneMore(events: seq<Event>, event: Event)
    ensures Run(events + [event]) == Next(Run(events), event)
  {
    assert (events + [event])[..|events|] == events;
  }

  // ----- each session by itself

  function ArrivedIn(s: State, event: Event, socket: Socket): seq<Message> {
    if event.Arrive? && event.socket == socket && socket in s.pipeline then [event.message] else []
  }

  function HandledIn(s: State, event: Event, socket: Socket): seq<Message> {
    if event == Handle(socket) && HasMessage(s, socket) then [s.pipeline[socket][0]] else []
  }

  /** The messages that arrived on the socket after it was started. */
  function Arrived(events: seq<Event>, socket: Socket): seq<Message> {
    if events == [] then []
    else
      var before, last := events[..|events| - 1], events[|events| - 1];
      Arrived(before, socket) + ArrivedIn(Run(before), last, socket)
  }

  /** The messages of the socket that were handled. */
  function Handled(events: seq<Event>, socket: Socket): seq<Message> {
    if events == [] then []
    else
      var before, last := events[..|events| - 1], events[|events| - 1];
      Handled(before, socket) + HandledIn(Run(before), last, socket)
  }

  /** The messages of the socket that wait. */
  function Waiting(s: State, socket: Socket): seq<Message> {
    if socket in s.pipeline then s.pipeline[socket] else []
  }

  /** A session by itself: whether it has said hello, and its effects in order. */
  datatype Session = Session(greeted: bool, effects: seq<Effect>)

  /** What a session does with its messages when there is nothing else. */
  function Alone(socket: Socket, machine: Machine, messages: seq<Message>): Session {
    if messages == [] then Session(false, [])
    else
      var before, message := Alone(socket, machine, messages[..|messages| - 1]), messages[|messages| - 1];
      if Refuses(before.greeted, machine, message) then before
      else Session(before.greeted || message.Hello?, before.effects + [EffectOf(socket, machine, message)])
  }

  function EffectsOf(effects: seq<Effect>, socket: Socket): seq<Effect> {
    if effects == [] then []
    else
      EffectsOf(effects[..|effects| - 1], socket) +
      (if effects[|effects| - 1].socket == socket then [effects[|effects| - 1]] else [])
  }

  lemma EffectsOfOneMore(effects: seq<Effect>, e: Effect, socket: Socket)
    ensures EffectsOf(effects + [e], socket) == EffectsOf(effects, socket) + if e.socket == socket then [e] else []
  {
    assert (effects + [e])[..|effects|] == effects;
  }

  lemma Regroup<T>(front: seq<T>, a: seq<T>, b: seq<T>, c: seq<T>, d: seq<T>)
    requires a + b == c + d
    ensures (front + a) + b == (front + c) + d
  {
    assert (front + a) + b == front + (a + b) && (front + c) + d == front + (c + d);
  }

  lemma WaitingAfter(s: State, event: Event, socket: Socket)
    requires s.pipeline.Keys == s.machineOf.Keys
    ensures Next(s, event).pipeline.Keys == Next(s, event).machineOf.Keys
    ensures Waiting(s, socket) + ArrivedIn(s, event, socket) ==
            HandledIn(s, event, socket) + Waiting(Next(s, event), socket)
  {
    if event == Handle(socket) && HasMessage(s, socket) {
      assert s.pipeline[socket] == [s.pipeline[socket][0]] + s.pipeline[socket][1..];
    }
  }

  /** Of the messages that arrived on a socket the handled ones come first, and the others wait in order. */
  lemma {:induction false} HandledInOrder(events: seq<Event>, socket: Socket)
    ensures Run(events).pipeline.Keys == Run(events).machineOf.Keys
    ensures Arrived(events, socket) == Handled(events, socket) + Waiting(Run(events), socket)
  {
    if events != [] {
      var before, last := events[..|events| - 1], events[|events| - 1];
      var s := Run(before);
      HandledInOrder(before, socket);
      WaitingAfter(s, last, socket);
      Regroup(Handled(before, socket), Waiting(s, socket), ArrivedIn(s, last, socket),
              HandledIn(s, last, socket), Waiting(Run(events), socket));
    }
  }

  lemma AloneOneMore(socket: Socket, machine: Machine, messages: seq<Message>, message: Message)
    ensures Alone(socket, machine, messages + [message]) ==
            var before := Alone(socket, machine, messages);
            if Refuses(before.greeted, machine, message) then before
            else Session(before.greeted || message.Hello?, before.effects + [EffectOf(socket, machine, message)])
  {
    assert (messages + [message])[..|messages|] == messages;
  }

  /** Some message is a hello that names the socket's machine, which is eligible. */
  ghost predicate HasGreeted(machine: Machine, messages: seq<Message>) {
    exists i :: 0 <= i < |messages| && messages[i].Hello? && messages[i].machine == machine && messages[i].eligible
  }

  /**
    What a message does after the earlier ones: a hello for this eligible machine once, heartbeats for
    it and accepted results after that, and nothing else.
   */
  ghost predicate Does(machine: Machine, earlier: seq<Message>, message: Message, socket: Socket, e: Effect) {
    && e.socket == socket && e.machine == machine
    && match e
       case Connected(_, _) =>
         message.Hello? && message.machine == machine && message.eligible && !HasGreeted(machine, earlier)
       case HeartbeatMarked(_, _) =>
         message.Heartbeat? && message.machine == machine && message.eligible && HasGreeted(machine, earlier)
       case ResultCompleted(_, _) => message.Result? && message.accepted && HasGreeted(machine, earlier)
  }

  lemma GreetedOneMore(machine: Machine, messages: seq<Message>, m: Message)
    ensures HasGreeted(machine, messages + [m]) <==>
            HasGreeted(machine, messages) || (m.Hello? && m.machine == machine && m.eligible)
  {
    var all := messages + [m];
    assert all[|messages|] == m;
    if HasGreeted(machine, messages) {
      var i :| 0 <= i < |messages| && messages[i].Hello? && messages[i].machine == machine && messages[i].eligible;
      assert all[i].Hello?;
    }
  }

  /** A session has said hello exactly when one of its messages is a hello of its eligible machine. */
  lemma {:induction false} GreetedExactly(socket: Socket, machine: Machine, messages: seq<Message>)
    ensures Alone(socket, machine, messages).greeted <==> HasGreeted(machine, messages)
  {
    if messages != [] {
      var before := messages[..|messages| - 1];
      GreetedExactly(socket, machine, before);
      GreetedOneMore(machine, before, messages[|messages| - 1]);
      assert before + [messages[|messages| - 1]] == messages;
    }
  }

  /** A message has the one effect it calls for, or is refused and calls for none. */
  lemma EffectsExactly(socket: Socket, machine: Machine, earlier: seq<Message>, message: Message)
    ensures var before, after := Alone(socket, machine, earlier), Alone(socket, machine, earlier + [message]);
            var refused := Refuses(before.greeted, machine, message);
            && (refused ==> after.effects == before.effects && forall e :: !Does(machine, earlier, message, socket, e))
            && (!refused ==>
                  exists e :: after.effects == before.effects + [e] && Does(machine, earlier, message, socket, e))
  {
    GreetedExactly(socket, machine, earlier);
    AloneOneMore(socket, machine, earlier, message);
    if !Refuses(Alone(socket, machine, earlier).greeted, machine, message) {
      assert Does(machine, earlier, message, socket, EffectOf(socket, machine, message));
    }
  }

  /** The session of a started socket is where it would be alone. */
  ghost predicate IsAsAlone(s: State, socket: Socket, handled: seq<Message>)
    requires socket in s.machineOf
  {
    var session := Alone(socket, s.machineOf[socket], handled);
    session.greeted == (socket in s.greeted) && session.effects == EffectsOf(s.effects, socket)
  }

  lemma OwnHandlingIsAsAlone(s: State, socket: Socket, messages: seq<Message>)
    requires HasMessage(s, socket) && IsAsAlone(s, socket, messages)
    ensures IsAsAlone(AfterHandle(s, socket), socket, messages + [s.pipeline[socket][0]])
  {
    var message, machine := s.pipeline[socket][0], s.machineOf[socket];
    AloneOneMore(socket, machine, messages, message);
    if !Refuses(socket in s.greeted, machine, message) {
      EffectsOfOneMore(s.effects, EffectOf(socket, machine, message), socket);
    }
  }

  lemma OtherHandlingIsAsAlone(s: State, handled: Socket, socket: Socket, messages: seq<Message>)
    requires HasMessage(s, handled) && handled != socket
    requires socket in s.machineOf && IsAsAlone(s, socket, messages)
    ensures IsAsAlone(AfterHandle(s, handled), socket, messages)
  {
    var message, machine := s.pipeline[handled][0], s.machineOf[handled];
    if !Refuses(handled in s.greeted, machine, message) {
      EffectsOfOneMore(s.effects, EffectOf(handled, machine, message), socket);
    }
  }

  lemma OnlyHandlingCounts(s: State, event: Event)
    requires !(event.Handle? && HasMessage(s, event.socket))
    ensures Next(s, event).effects == s.effects && Next(s, event).greeted == s.greeted
  {
  }

  lemma SessionAfter(s: State, event: Event, socket: Socket, messages: seq<Message>)
    requires socket in s.machineOf && IsAsAlone(s, socket, messages)
    ensures socket in Next(s, event).machineOf
    ensures IsAsAlone(Next(s, event), socket, messages + HandledIn(s, event, socket))
  {
    NextKeepsMachines(s, event);
    assert messages + [] == messages;
    if event == Handle(socket) && HasMessage(s, socket) {
      OwnHandlingIsAsAlone(s, socket, messages);
    } else if event.Handle? && HasMessage(s, event.socket) {
      OtherHandlingIsAsAlone(s, event.socket, socket, messages);
    } else {
      OnlyHandlingCounts(s, event);
    }
  }

  lemma {:induction false} NothingBeforeStart(events: seq<Event>, socket: Socket)
    requires socket !in Run(events).machineOf
    ensures Handled(events, socket) == [] && EffectsOf(Run(events).effects, socket) == []
    ensures socket !in Run(events).greeted
  {
    if events != [] {
      var before, last := events[..|events| - 1], events[|events| - 1];
      var s := Run(before);
      NextKeepsMachines(s, last);
      NothingBeforeStart(before, socket);
      if last.Handle? && HasMessage(s, last.socket) {
        var message := s.pipeline[last.socket][0];
        if !Refuses(last.socket in s.greeted, s.machineOf[last.socket], message) {
          EffectsOfOneMore(s.effects, EffectOf(last.socket, s.machineOf[last.socket], message), socket);
        }
      } else {
        OnlyHandlingCounts(s, last);
      }
    }
  }

  lemma NextKeepsMachines(s: State, event: Event)
    ensures forall socket :: socket in s.machineOf ==>
              socket in Next(s, event).machineOf && Next(s, event).machineOf[socket] == s.machineOf[socket]
  {
  }

  /**
    Non-interference: in every run, whatever other sockets, ticks, pongs, timers and closes come in
    between, the effects of a session and whether it has said hello are what its own handled
    messages, which are the first that arrived, give when there is nothing else.
   */
  lemma {:induction false} SessionsDoNotInterfere(events: seq<Event>, socket: Socket)
    requires socket in Run(events).machineOf
    ensures IsAsAlone(Run(events), socket, Handled(events, socket))
    ensures Handled(events, socket) <= Arrived(events, socket)
  {
    var before, last := events[..|events| - 1], events[|events| - 1];
    var s := Run(before);
    HandledInOrder(events, socket);
    if socket !in s.machineOf {
      NothingBeforeStart(before, socket);
      OnlyHandlingCounts(s, last);
    } else {
      SessionsDoNotInterfere(before, socket);
      SessionAfter(s, last, socket, Handled(before, socket));
    }
  }

  // ----- nothing before an accepted hello

  ghost predicate HelloFirst(s: State) {
    HellosFirst(s.greeted, s.machineOf, s.effects)
  }

  ghost predicate HellosFirst(greeted: set<Socket>, machineOf: map<Socket, Machine>, effects: seq<Effect>) {
    && (forall socket :: socket in greeted ==>
          socket in machineOf && exists j :: 0 <= j < |effects| && effects[j] == Connected(socket, machineOf[socket]))
    && (forall i :: 0 <= i < |effects| ==>
          && effects[i].socket in greeted && machineOf[effects[i].socket] == effects[i].machine
          && (!effects[i].Connected? ==>
                exists j :: 0 <= j < i && effects[j] == Connected(effects[i].socket, effects[i].machine)))
    && (forall i, j :: 0 <= i < j < |effects| && effects[i].Connected? && effects[j].Connected? ==>
          effects[i].socket != effects[j].socket)
  }

  /** An effect on a greeted socket, or the hello that greets one, keeps the order. */
  lemma EffectKeepsHelloFirst(s: State, e: Effect)
    requires HelloFirst(s) && e.socket in s.machineOf && e.machine == s.machineOf[e.socket]
    requires e.Connected? <==> e.socket !in s.greeted
    ensures HellosFirst(s.greeted + {e.socket}, s.machineOf, s.effects + [e])
  {
    var effects := s.effects + [e];
    assert forall i :: 0 <= i < |s.effects| ==> effects[i] == s.effects[i];
    if e.Connected? {
      assert effects[|s.effects|] == Connected(e.socket, s.machineOf[e.socket]);
    }
  }

  lemma MessageKeepsHelloFirst(s: State, socket: Socket, message: Message)
    requires HelloFirst(s) && socket in s.machineOf
    ensures HelloFirst(AfterMessage(s, socket, s.machineOf[socket], message))
  {
    var t := AfterMessage(s, socket, s.machineOf[socket], message);
    if t.effects != s.effects {
      EffectKeepsHelloFirst(s, t.effects[|s.effects|]);
      assert t.greeted == s.greeted + {socket};
    }
  }

  /**
    In every run no heartbeat and no result takes effect before an accepted hello on its own socket,
    every effect is for the machine the socket was opened for, and a socket says hello at most once.
   */
  lemma {:induction false} NothingBeforeHello(events: seq<Event>)
    ensures HelloFirst(Run(events))
  {
    if events != [] {
      var before, last := events[..|events| - 1], events[|events| - 1];
      NothingBeforeHello(before);
      var s := Run(before);
      if last.Handle? && Next(s, last) != s {
        var popped := s.(pipeline := s.pipeline[last.socket := s.pipeline[last.socket][1..]]);
        MessageKeepsHelloFirst(popped, last.socket, s.pipeline[last.socket][0]);
      }
    }
  }
}
