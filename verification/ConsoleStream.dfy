/** The reconnecting console socket of the browser: `connectConsoleStream` and
    `reconnectDelay` (frontend/src/features/console/console-stream.ts). */
module ConsoleStream {
  import opened Wrappers

  datatype Connection = Connecting | Connected | Reconnecting | Disconnected

  /** What the stream does to the outside, in order. Lines are identified by number. */
  datatype Output =
    | State(state: Connection)
    | Deliver(line: nat)
    | Schedule(delay: nat)
    | CloseSocket(socket: nat)

  /** What happens to the stream. Events may name any socket or timer that ever existed; a
      message carries a line if it parses as one. */
  datatype Event =
    | Opened(socket: nat)
    | Message(socket: nat, line: Option<nat>)
    | Errored(socket: nat)
    | Closed(socket: nat)
    | Fired(timer: nat)
    | Cleanup

  datatype Stream = Stream(socket: Option<nat>, timer: Option<nat>, stopped: bool, attempt: nat,
                           sockets: nat, timers: nat, fired: set<nat>, log: seq<Output>)

  function Power2(k: nat): nat {
    if k == 0 then 1 else 2 * Power2(k - 1)
  }

  /** `reconnectDelay`, in milliseconds. */
  function ReconnectDelay(attempt: nat): nat {
    Min(10_000, 500 * Power2(Min(if attempt >= 1 then attempt - 1 else 0, 5)))
  }

  /** `connect`. */
  function Connect(s: Stream): Stream {
    if s.stopped then s
    else s.(timer := None, socket := Some(s.sockets), sockets := s.sockets + 1,
            log := s.log + [State(if s.attempt == 0 then Connecting else Reconnecting)])
  }

  /** The effect of one event; a timer fires at most once. */
  function Step(s: Stream, e: Event): Stream {
    match e
    case Opened(socket) =>
      if s.stopped || s.socket != Some(socket) then s
      else s.(attempt := 0, log := s.log + [State(Connected)])
    case Message(socket, line) =>
      if s.stopped || s.socket != Some(socket) || line.None? then s
      else s.(log := s.log + [Deliver(line.value)])
    case Errored(socket) =>
      if s.stopped || s.socket != Some(socket) then s
      else s.(log := s.log + [CloseSocket(socket)])
    case Closed(socket) =>
      if s.stopped || s.socket != Some(socket) || s.timer.Some? then s
      else s.(socket := None, attempt := s.attempt + 1, timer := Some(s.timers), timers := s.timers + 1,
              log := s.log + [State(Reconnecting), Schedule(ReconnectDelay(s.attempt + 1))])
    case Fired(timer) =>
      if timer >= s.timers || timer in s.fired then s
      else Connect(s.(fired := s.fired + {timer}))
    case Cleanup =>
      s.(stopped := true, timer := None, socket := None,
         log := s.log + (if s.socket.Some? then [CloseSocket(s.socket.value)] else []) + [State(Disconnected)])
  }

  const Start: Stream := Connect(Stream(None, None, false, 0, 0, 0, {}, []))

  function Run(events: seq<Event>): Stream
    decreases |events|
  {
    if events == [] then Start else Step(Run(events[..|events| - 1]), events[|events| - 1])
  }

  /** The closure variables of `connectConsoleStream` and its callbacks. */
  class Client {
    var socket: Option<nat>
    var timer: Option<nat>
    var stopped: bool
    var attempt: nat
    var sockets: nat
    var timers: nat
    var fired: set<nat>
    var log: seq<Output>

    function Value(): Stream
      reads this
    {
      Stream(socket, timer, stopped, attempt, sockets, timers, fired, log)
    }

    constructor ()
      ensures Value() == Start
    {
      socket, timer, stopped, attempt, sockets, timers, fired, log := None, None, false, 0, 0, 0, {}, [];
      new;
      DoConnect();
    }

    method DoConnect()
      modifies this
      ensures Value() == Connect(old(Value()))
    {
      if stopped {
        return;
      }
      timer := None;
      log := log + [State(if attempt == 0 then Connecting else Reconnecting)];
      socket := Some(sockets);
      sockets := sockets + 1;
    }

    method OnOpen(from: nat)
      modifies this
      ensures Value() == Step(old(Value()), Opened(from))
    {
      if stopped || socket != Some(from) {
        return;
      }
      attempt := 0;
      log := log + [State(Connected)];
    }

    method OnMessage(from: nat, line: Option<nat>)
      modifies this
      ensures Value() == Step(old(Value()), Message(from, line))
    {
      if stopped || socket != Some(from) {
        return;
      }
      if line.Some? {
        log := log + [Deliver(line.value)];
      }
    }

    method OnClose(from: nat)
      modifies this
      ensures Value() == Step(old(Value()), Closed(from))
    {
      if stopped || socket != Some(from) || timer.Some? {
        return;
      }
      socket := None;
      attempt := attempt + 1;
      log := log + [State(Reconnecting)] + [Schedule(ReconnectDelay(attempt))];
      timer := Some(timers);
      timers := timers + 1;
    }

    method OnError(from: nat)
      modifies this
      ensures Value() == Step(old(Value()), Errored(from))
    {
      if !stopped && socket == Some(from) {
        log := log + [CloseSocket(from)];
      }
    }

    method OnTimer(id: nat)
      modifies this
      ensures Value() == Step(old(Value()), Fired(id))
    {
      if id < timers && id !in fired {
        fired := fired + {id};
        DoConnect();
      }
    }

    method Dispose()
      modifies this
      ensures Value() == Step(old(Value()), Cleanup)
    {
      stopped := true;
      timer := None;
      if socket.Some? {
        log := log + [CloseSocket(socket.value)];
        socket := None;
      }
      log := log + [State(Disconnected)];
    }
  }

  // ---- what holds after every run ----

  /** Retries scheduled since the connection last opened. */
  function RetriesSinceOpen(log: seq<Output>): nat {
    if log == [] || log[|log| - 1] == State(Connected) then 0
    else RetriesSinceOpen(log[..|log| - 1]) + (if log[|log| - 1].Schedule? then 1 else 0)
  }

  /** Exactly one socket or pending timer until the cleanup, none after it; and every timer
      that has not fired is the pending one. */
  predicate OneActive(s: Stream) {
    && (!s.stopped ==> (s.socket.Some? <==> s.timer.None?))
    && (s.stopped ==> s.socket.None? && s.timer.None?)
    && (s.socket.Some? ==> s.socket.value < s.sockets)
    && (s.timer.Some? ==> s.timer.value < s.timers && s.timer.value !in s.fired && s.attempt >= 1)
    && (!s.stopped ==> forall t | 0 <= t < s.timers :: t in s.fired || s.timer == Some(t))
    && (forall t | t in s.fired :: t < s.timers)
  }

  /** "connecting" comes first and never again. */
  predicate ConnectsOnce(log: seq<Output>) {
    && log != [] && log[0] == State(Connecting)
    && forall i | 0 < i < |log| :: log[i] != State(Connecting)
  }

  /** Once disconnected, no line, no other state, no timer. */
  predicate SilentAfterDisconnect(log: seq<Output>) {
    forall i, j | 0 <= i < j < |log| && log[i] == State(Disconnected) :: log[j] == State(Disconnected)
  }

  /** The k-th retry in a row waits for the k-th delay. */
  predicate DelaysFollow(log: seq<Output>) {
    forall i | 0 <= i < |log| && log[i].Schedule? ::
      log[i].delay == ReconnectDelay(RetriesSinceOpen(log[..i]) + 1)
  }

  ghost predicate Good(s: Stream) {
    && OneActive(s) && ConnectsOnce(s.log) && SilentAfterDisconnect(s.log) && DelaysFollow(s.log)
    && (s.stopped <==> State(Disconnected) in s.log)
    && (!s.stopped ==> s.attempt == RetriesSinceOpen(s.log))
  }

  // Appending one output that is neither "connecting" nor a wrong delay.
  lemma LogGrows(log: seq<Output>, o: Output)
    requires ConnectsOnce(log) && SilentAfterDisconnect(log) && DelaysFollow(log)
    requires o != State(Connecting)
    requires State(Disconnected) in log ==> o == State(Disconnected)
    requires o.Schedule? ==> o.delay == ReconnectDelay(RetriesSinceOpen(log) + 1)
    ensures ConnectsOnce(log + [o]) && SilentAfterDisconnect(log + [o]) && DelaysFollow(log + [o])
    ensures RetriesSinceOpen(log + [o]) ==
            if o == State(Connected) then 0 else RetriesSinceOpen(log) + (if o.Schedule? then 1 else 0)
    ensures State(Disconnected) in log + [o] <==> State(Disconnected) in log || o == State(Disconnected)
  {
    var longer := log + [o];
    assert longer[..|log|] == log;
    forall i | 0 <= i < |longer| && longer[i].Schedule?
      ensures longer[i].delay == ReconnectDelay(RetriesSinceOpen(longer[..i]) + 1)
    {
      if i < |log| {
        assert longer[..i] == log[..i];
      }
    }
  }

  // Appending two outputs, the first neither a state that counts nor a delay.
  lemma LogGrowsTwice(log: seq<Output>, o: Output, p: Output)
    requires ConnectsOnce(log) && SilentAfterDisconnect(log) && DelaysFollow(log)
    requires State(Disconnected) !in log && (o == State(Reconnecting) || o.CloseSocket?)
    requires p != State(Connecting) && p != State(Connected)
    requires p.Schedule? ==> p.delay == ReconnectDelay(RetriesSinceOpen(log) + 1)
    ensures log + [o] + [p] == log + [o, p]
    ensures ConnectsOnce(log + [o, p]) && SilentAfterDisconnect(log + [o, p]) && DelaysFollow(log + [o, p])
    ensures RetriesSinceOpen(log + [o, p]) == RetriesSinceOpen(log) + (if p.Schedule? then 1 else 0)
    ensures State(Disconnected) in log + [o, p] <==> p == State(Disconnected)
  {
    hide ConnectsOnce, SilentAfterDisconnect, DelaysFollow, RetriesSinceOpen, ReconnectDelay;
    LogGrows(log, o);
    LogGrows(log + [o], p);
    assert log + [o] + [p] == log + [o, p];
  }

  lemma StepIsGood(s: Stream, e: Event)
    requires Good(s)
    ensures Good(Step(s, e))
  {
    hide ConnectsOnce, SilentAfterDisconnect, DelaysFollow, RetriesSinceOpen, ReconnectDelay;
    match e
    case Opened(_) =>
      if Step(s, e) != s { LogGrows(s.log, State(Connected)); }
    case Message(_, line) =>
      if Step(s, e) != s { LogGrows(s.log, Deliver(line.value)); }
    case Errored(socket) =>
      if Step(s, e) != s { LogGrows(s.log, CloseSocket(socket)); }
    case Closed(_) =>
      if Step(s, e) != s { LogGrowsTwice(s.log, State(Reconnecting), Schedule(ReconnectDelay(s.attempt + 1))); }
    case Fired(timer) =>
      if !s.stopped && timer < s.timers && timer !in s.fired {
        LogGrows(s.log, State(Reconnecting));
      }
    case Cleanup =>
      if s.socket.Some? {
        LogGrowsTwice(s.log, CloseSocket(s.socket.value), State(Disconnected));
      } else {
        LogGrows(s.log, State(Disconnected));
        assert s.log + [] == s.log;
      }
  }

  lemma StartIsGood()
    ensures Good(Start)
  {
    FirstOutput();
    assert Start == Stream(Some(0), None, false, 0, 1, 0, {}, [State(Connecting)]);
    hide ReconnectDelay, ConnectsOnce, SilentAfterDisconnect, DelaysFollow, RetriesSinceOpen;
  }

  lemma FirstOutput()
    ensures var log := [State(Connecting)];
      && ConnectsOnce(log) && SilentAfterDisconnect(log) && DelaysFollow(log) && RetriesSinceOpen(log) == 0
  {
    hide ReconnectDelay;
    assert [State(Connecting)][..0] == [];
  }

  /** Every run, with its events in any order, stays good. */
  lemma {:induction false} EveryRunIsGood(events: seq<Event>)
    ensures Good(Run(events))
    decreases |events|
  {
    hide Good, Step;
    if events == [] {
      StartIsGood();
    } else {
      EveryRunIsGood(events[..|events| - 1]);
      StepIsGood(Run(events[..|events| - 1]), events[|events| - 1]);
    }
  }

  /** After the cleanup nothing is delivered and nothing is pending, whatever still happens. */
  lemma {:induction false} NothingAfterCleanup(events: seq<Event>, later: seq<Event>)
    requires Run(events).stopped
    ensures var end := Run(events + later);
            && end.stopped && end.socket.None? && end.timer.None? && Run(events).log <= end.log
            && forall i | |Run(events).log| <= i < |end.log| :: end.log[i] == State(Disconnected)
    decreases |later|
  {
    EveryRunIsGood(events);
    if later == [] {
      assert events + later == events;
    } else {
      var front := later[..|later| - 1];
      NothingAfterCleanup(events, front);
      assert (events + later)[..|events + later| - 1] == events + front;
      assert (events + later)[|events + later| - 1] == later[|later| - 1];
    }
  }

  // ---- what the user sees, from the events alone ----

  /** 2k while socket k is the stream's, 2k + 1 while it waits to replace socket k. */
  function Phase(events: seq<Event>): nat
    decreases |events|
  {
    if events == [] then 0
    else
      PhaseAfter(Phase(events[..|events| - 1]), events[|events| - 1])
  }

  function PhaseAfter(p: nat, e: Event): nat {
    if (p % 2 == 0 && e == Closed(p / 2)) || (p % 2 == 1 && e == Fired(p / 2)) then p + 1 else p
  }

  /** The stream has the socket, or waits for the timer, of the phase. */
  predicate AtPhase(s: Stream, p: nat) {
    && !s.stopped && s.sockets == p / 2 + 1 && s.timers == (p + 1) / 2
    && s.socket == (if p % 2 == 0 then Some(p / 2) else None)
    && s.timer == (if p % 2 == 0 then None else Some(p / 2))
  }

  /** Nothing was cleaned up and the socket is the stream's. */
  predicate Live(events: seq<Event>, socket: nat) {
    Cleanup !in events && Phase(events) == 2 * socket
  }

  /** The lines that well-formed messages brought on the socket of their time. */
  function Received(events: seq<Event>): seq<nat>
    decreases |events|
  {
    if events == [] then []
    else
      var front, e := events[..|events| - 1], events[|events| - 1];
      Received(front) + (if e.Message? && e.line.Some? && Live(front, e.socket) then [e.line.value] else [])
  }

  /** How often the socket of the time opened. */
  function Openings(events: seq<Event>): nat
    decreases |events|
  {
    if events == [] then 0
    else
      var front, e := events[..|events| - 1], events[|events| - 1];
      Openings(front) + (if e.Opened? && Live(front, e.socket) then 1 else 0)
  }

  function Delivered(log: seq<Output>): seq<nat>
    decreases |log|
  {
    if log == [] then []
    else
      var o := log[|log| - 1];
      Delivered(log[..|log| - 1]) + (if o.Deliver? then [o.line] else [])
  }

  function Reports(log: seq<Output>): nat
    decreases |log|
  {
    if log == [] then 0
    else Reports(log[..|log| - 1]) + (if log[|log| - 1] == State(Connected) then 1 else 0)
  }

  /** The callback is handed every line that arrived on a live socket, once each and in order, and
      nothing else; it is told "connected" exactly when a live socket opens. */
  lemma {:induction false} EveryLineIsDelivered(events: seq<Event>)
    ensures Delivered(Run(events).log) == Received(events)
    ensures Reports(Run(events).log) == Openings(events)
    decreases |events|
  {
    if events == [] {
      StartShowsNothing();
    } else {
      var front, e := events[..|events| - 1], events[|events| - 1];
      EveryLineIsDelivered(front);
      forall socket: nat
        ensures Live(front, socket) <==> !Run(front).stopped && Run(front).socket == Some(socket)
      {
        LiveIsCurrent(front, socket);
      }
      StepShows(Run(front), e);
      hide Step, Live, Delivered, Reports;
    }
  }

  lemma LiveIsCurrent(events: seq<Event>, socket: nat)
    ensures Live(events, socket) <==> !Run(events).stopped && Run(events).socket == Some(socket)
  {
    PhaseIsRun(events);
    hide Run, Phase;
  }

  /** The stream is where the events say: a closed socket is replaced when its timer fires, by
      the one and only next socket. */
  lemma {:induction false} PhaseIsRun(events: seq<Event>)
    ensures if Cleanup in events then Run(events).stopped else AtPhase(Run(events), Phase(events))
    decreases |events|
  {
    if events != [] {
      var front, e := events[..|events| - 1], events[|events| - 1];
      assert events == front + [e];
      assert Cleanup in events <==> Cleanup in front || e == Cleanup;
      PhaseIsRun(front);
      EveryRunIsGood(front);
      hide Good, AtPhase;
      PhaseStep(Run(front), e, Phase(front));
      hide Step, PhaseAfter;
    }
  }

  lemma PhaseStep(s: Stream, e: Event, p: nat)
    requires Good(s)
    ensures s.stopped || e == Cleanup ==> Step(s, e).stopped
    ensures AtPhase(s, p) && e != Cleanup ==> AtPhase(Step(s, e), PhaseAfter(p, e))
  {
    hide ReconnectDelay, ConnectsOnce, SilentAfterDisconnect, DelaysFollow, RetriesSinceOpen;
  }

  lemma StartShowsNothing()
    ensures Delivered(Start.log) == [] && Reports(Start.log) == 0
  {
    assert Start.log == [State(Connecting)];
  }

  lemma ShowsOneMore(log: seq<Output>, o: Output)
    ensures Delivered(log + [o]) == Delivered(log) + (if o.Deliver? then [o.line] else [])
    ensures Reports(log + [o]) == Reports(log) + (if o == State(Connected) then 1 else 0)
  {
    assert (log + [o])[..|log|] == log;
  }

  lemma ShowsTwoMore(log: seq<Output>, o: Output, p: Output)
    requires !o.Deliver? && !p.Deliver? && o != State(Connected) && p != State(Connected)
    ensures Delivered(log + [o, p]) == Delivered(log) && Reports(log + [o, p]) == Reports(log)
  {
    ShowsOneMore(log, o);
    ShowsOneMore(log + [o], p);
    assert log + [o] + [p] == log + [o, p];
  }

  lemma StepShows(s: Stream, e: Event)
    ensures var live := !s.stopped && match e
                                      case Opened(socket) => s.socket == Some(socket)
                                      case Message(socket, line) => s.socket == Some(socket) && line.Some?
                                      case _ => false;
      && Delivered(Step(s, e).log) == Delivered(s.log) + (if live && e.Message? then [e.line.value] else [])
      && Reports(Step(s, e).log) == Reports(s.log) + (if live && e.Opened? then 1 else 0)
  {
    hide Delivered, Reports, ReconnectDelay;
    match e
    case Opened(_) => ShowsOneMore(s.log, State(Connected));
    case Message(_, line) =>
      if line.Some? { ShowsOneMore(s.log, Deliver(line.value)); }
    case Errored(socket) => ShowsOneMore(s.log, CloseSocket(socket));
    case Closed(_) => ShowsTwoMore(s.log, State(Reconnecting), Schedule(ReconnectDelay(s.attempt + 1)));
    case Fired(_) => ShowsOneMore(s.log, State(if s.attempt == 0 then Connecting else Reconnecting));
    case Cleanup =>
      if s.socket.Some? {
        ShowsTwoMore(s.log, CloseSocket(s.socket.value), State(Disconnected));
        assert s.log + [CloseSocket(s.socket.value)] + [State(Disconnected)] ==
               s.log + [CloseSocket(s.socket.value), State(Disconnected)];
      } else {
        ShowsOneMore(s.log, State(Disconnected));
        assert s.log + [] == s.log;
      }
  }

  /** The waits: half a second, doubling, never more than ten seconds. */
  lemma DelaysDouble(k: nat)
    requires k >= 1
    ensures ReconnectDelay(1) == 500
    ensures k < 5 ==> ReconnectDelay(k + 1) == 2 * ReconnectDelay(k)
    ensures k >= 6 ==> ReconnectDelay(k) == 10_000
    ensures 500 <= ReconnectDelay(k) <= 10_000 && ReconnectDelay(k) <= ReconnectDelay(k + 1)
  {
    assert Power2(2) == 4;
    assert Power2(4) == 16;
  }
}
