/** The event loop of sample_pnp_iot_device.c: a connection state machine driven by event
    flags, which callbacks on another thread set at any time. */
module DeviceLoop {
  import B = Backoff

  datatype State = Init | Connecting | Connect | Connected | Disconnected

  datatype Event = ConnectEvent | InitializationEvent | CommandEvent | PropertiesGetEvent | DesiredEvent
                 | TelemetryEvent | ReportedEvent | DisconnectEvent | ReconnectEvent | ConnectedEvent

  /** The status codes the loop tells apart. */
  datatype Code = Success | InProgress | DnsQueryFailed | BadUsernamePassword | NotAuthorized | OtherError(code: nat)

  datatype Callback = ConnectionStatus(status: Code) | PropertiesReceived | CommandReceived | DesiredReceived

  /** The events callbacks raise. */
  type Reported = e: Event |
    e in {DisconnectEvent, ConnectedEvent, PropertiesGetEvent, CommandEvent, DesiredEvent} witness DisconnectEvent

  /** A single write of the callback thread to a variable it shares with the loop. */
  datatype Write = StatusWritten(status: Code) | Raised(event: Reported) | CounterReset

  /** The writes of a callback, in their order. */
  function Writes(c: Callback): seq<Write> {
    match c
    case ConnectionStatus(status) =>
      if status != Success then [StatusWritten(status), Raised(DisconnectEvent)]
      else [StatusWritten(status), Raised(ConnectedEvent), CounterReset]
    case PropertiesReceived => [Raised(PropertiesGetEvent)]
    case CommandReceived => [Raised(CommandEvent)]
    case DesiredReceived => [Raised(DesiredEvent)]
  }

  /** What initialising the client comes to. */
  datatype InitResult = ProvisioningFailed | InitializeFailed | SetupFailed | Ready

  /** The loop's variables, with the client library's state as far as it matters:
      `initialized` says whether the client may be used, `requests` counts the properties
      requests. */
  datatype World = World(state: State, flags: set<Event>, status: Code, count: nat, initialized: bool, requests: nat)

  // ---------- the steps as functions ----------

  function Written(w: World, write: Write): World {
    match write
    case StatusWritten(status) => w.(status := status)
    case Raised(event) => w.(flags := w.flags + {event})
    case CounterReset => w.(count := 0)
  }

  function WrittenAll(w: World, ws: seq<Write>): World
    decreases |ws|
  {
    if ws == [] then w else WrittenAll(Written(w, ws[0]), ws[1..])
  }

  lemma NothingWritten(w: World)
    ensures WrittenAll(w, []) == w
  {
  }

  /** A status report as a whole. */
  lemma ReportWritten(w: World, code: Code)
    ensures WrittenAll(w, Writes(ConnectionStatus(code))) ==
      if code != Success then w.(status := code, flags := w.flags + {DisconnectEvent})
      else w.(status := code, flags := w.flags + {ConnectedEvent}, count := 0)
  {
    var ws := Writes(ConnectionStatus(code));
    assert ws[1..] == ws[1..2] + ws[2..];
    assert WrittenAll(w, ws) == WrittenAll(Written(w, ws[0]), ws[1..])
      == WrittenAll(Written(Written(w, ws[0]), ws[1]), ws[2..]);
  }

  lemma MessageWritten(w: World)
    ensures WrittenAll(w, Writes(PropertiesReceived)) == w.(flags := w.flags + {PropertiesGetEvent})
    ensures WrittenAll(w, Writes(CommandReceived)) == w.(flags := w.flags + {CommandEvent})
    ensures WrittenAll(w, Writes(DesiredReceived)) == w.(flags := w.flags + {DesiredEvent})
  {
  }

  function Enter(w: World): World {
    w.(state := Connected, requests := w.requests + 1)
  }

  function ConnectStep(w: World, result: Code): World {
    if w.state != Connect then w
    else if result == InProgress then w.(state := Connecting)
    else if result != Success then w.(status := result, state := Disconnected)
    else Enter(w)
  }

  function DisconnectStep(w: World): World {
    if w.state == Connected || w.state == Connecting then w.(state := Disconnected) else w
  }

  function ConnectedStep(w: World): World {
    if w.state == Connecting then Enter(w) else w
  }

  function InitializeStep(w: World, result: InitResult): World {
    if w.state == Init && result == Ready then w.(state := Connect, initialized := true) else w
  }

  /** The status is read before the backoff.  `r` places the resets of the counter up to its
      increment; all other writes that fall into the backoff are in `during`. */
  function RecoverStep(w: World, during: seq<Write>, r: B.Resets): World {
    if w.state != Disconnected || w.status == Success then w
    else
      var backedOff := WrittenAll(w.(count := B.Next(w.count, r)), during);
      if w.status == DnsQueryFailed || w.status == BadUsernamePassword || w.status == NotAuthorized then
        backedOff.(state := Init, initialized := false)
      else backedOff.(state := Connect)
  }

  function TriggerStep(w: World, due: bool): World {
    match w.state
    case Init => w.(flags := w.flags + {InitializationEvent})
    case Connect => w.(flags := w.flags + {ConnectEvent})
    case Connected => if due then w.(flags := w.flags + {TelemetryEvent, ReportedEvent}) else w
    case Disconnected => w.(flags := w.flags + {ReconnectEvent})
    case Connecting => w
  }

  type Fraction = r: real | 0.0 <= r <= 1.0

  /** One turn of the loop: the writes that fall before each of its steps, and what the
      outside answers.  They are writes of any callbacks in any order, so that every
      interleaving of callbacks with the loop is among the turns. */
  datatype Turn = Turn(before: seq<Write>, connect: seq<Write>, initialize: seq<Write>, messages: seq<Write>,
    disconnect: seq<Write>, connected: seq<Write>, recover: seq<Write>, during: seq<Write>, trigger: seq<Write>,
    connectResult: Code, initResult: InitResult, resets: B.Resets, random: Fraction, due: bool)

  /** The steps of a turn, in the order of the loop's body, for the events `events`. */
  function AfterConnect(w: World, events: set<Event>, t: Turn): World {
    var w1 := WrittenAll(w, t.connect);
    if ConnectEvent in events then ConnectStep(w1, t.connectResult) else w1
  }

  function AfterInitialize(w: World, events: set<Event>, t: Turn): World {
    var w1 := WrittenAll(AfterConnect(w, events, t), t.initialize);
    if InitializationEvent in events then InitializeStep(w1, t.initResult) else w1
  }

  function AfterDisconnect(w: World, events: set<Event>, t: Turn): World {
    var w1 := WrittenAll(WrittenAll(AfterInitialize(w, events, t), t.messages), t.disconnect);
    if DisconnectEvent in events then DisconnectStep(w1) else w1
  }

  function AfterConnected(w: World, events: set<Event>, t: Turn): World {
    var w1 := WrittenAll(AfterDisconnect(w, events, t), t.connected);
    if ConnectedEvent in events then ConnectedStep(w1) else w1
  }

  function AfterRecover(w: World, events: set<Event>, t: Turn): World {
    var w1 := WrittenAll(AfterConnected(w, events, t), t.recover);
    if ReconnectEvent in events then RecoverStep(w1, t.during, t.resets) else w1
  }

  function Body(w: World, events: set<Event>, t: Turn): World {
    TriggerStep(WrittenAll(AfterRecover(w, events, t), t.trigger), t.due)
  }

  /** One turn: the wait takes and clears all flags; if there are none it times out. */
  function Step(w: World, t: Turn): World {
    var w1 := WrittenAll(w, t.before);
    if w1.flags == {} then (if w1.state == Connected then TriggerStep(w1, t.due) else w1)
    else Body(w1.(flags := {}), w1.flags, t)
  }

  // ---------- what every step keeps ----------

  /** The client is initialised exactly outside `Init`, and the retry counter is within its
      bound. */
  predicate Sound(w: World) {
    (w.initialized <==> w.state != Init) && w.count <= B.MAX_COUNT
  }

  /** A state that waits for its own event has it pending. */
  predicate Pending(w: World) {
    && (w.state == Init ==> InitializationEvent in w.flags)
    && (w.state == Connect ==> ConnectEvent in w.flags)
    && (w.state == Disconnected ==> ReconnectEvent in w.flags)
  }

  /** Callbacks change neither the state nor the client, and only add flags. */
  lemma {:induction false} CallbacksKeep(w: World, ws: seq<Write>)
    ensures var w1 := WrittenAll(w, ws);
      && w1.state == w.state && w1.initialized == w.initialized && w1.requests == w.requests
      && w.flags <= w1.flags && w1.count <= w.count
    decreases |ws|
  {
    if ws != [] {
      CallbacksKeep(Written(w, ws[0]), ws[1..]);
    }
  }

  /** A turn keeps the machine sound and leaves it waiting for its own event, whatever the
      callbacks and answers are. */
  lemma StepKeeps(w: World, t: Turn)
    requires Sound(w) && Pending(w)
    ensures Sound(Step(w, t)) && Pending(Step(w, t))
  {
    hide B.Next;
    CallbacksKeep(w, t.before);
    var w1 := WrittenAll(w, t.before);
    if w1.flags != {} {
      var w2, e := w1.(flags := {}), w1.flags;
      BodyKeeps(w2, e, t);
    }
  }

  lemma BodyKeeps(w: World, events: set<Event>, t: Turn)
    requires Sound(w)
    ensures Sound(Body(w, events, t)) && Pending(Body(w, events, t))
  {
    hide WrittenAll, B.Next;
    CallbacksKeep(w, t.connect);
    CallbacksKeep(AfterConnect(w, events, t), t.initialize);
    CallbacksKeep(AfterInitialize(w, events, t), t.messages);
    CallbacksKeep(WrittenAll(AfterInitialize(w, events, t), t.messages), t.disconnect);
    CallbacksKeep(AfterDisconnect(w, events, t), t.connected);
    CallbacksKeep(AfterConnected(w, events, t), t.recover);
    var w1 := WrittenAll(AfterConnected(w, events, t), t.recover);
    B.CountStaysBounded(w1.count, t.resets);
    CallbacksKeep(w1.(count := B.Next(w1.count, t.resets)), t.during);
    CallbacksKeep(AfterRecover(w, events, t), t.trigger);
  }

  /** The state before the loop, as `sample_entry` sets it up. */
  function Start(): World {
    World(Init, {InitializationEvent}, OtherError(0), 0, false, 0)
  }

  function Run(w: World, turns: seq<Turn>): World
    decreases |turns|
  {
    if turns == [] then w else Run(Step(w, turns[0]), turns[1..])
  }

  lemma {:induction false} RunKeeps(w: World, turns: seq<Turn>)
    requires Sound(w) && Pending(w)
    ensures Sound(Run(w, turns)) && Pending(Run(w, turns))
    decreases |turns|
  {
    hide Sound, Pending;
    if turns != [] {
      StepKeeps(w, turns[0]);
      RunKeeps(Step(w, turns[0]), turns[1..]);
    }
  }

  // ---------- the machine as a table ----------

  /** Where a lost connection leads in the same turn, if the recovery reads the status `read`. */
  function Lost(events: set<Event>, read: Code): State {
    if ReconnectEvent !in events || read == Success then Disconnected
    else if read == DnsQueryFailed || read == BadUsernamePassword || read == NotAuthorized then Init
    else Connect
  }

  function Waiting(events: set<Event>, read: Code): State {
    if DisconnectEvent in events then Lost(events, read)
    else if ConnectedEvent in events then Connected
    else Connecting
  }

  /** The next state, from the state, the events taken, and what the outside answers. */
  function NextState(state: State, events: set<Event>, connectResult: Code, initResult: InitResult, read: Code): State {
    match state
    case Init => if InitializationEvent in events && initResult == Ready then Connect else Init
    case Connect =>
      if ConnectEvent !in events then Connect
      else if connectResult == InProgress then Waiting(events, read)
      else if connectResult != Success || DisconnectEvent in events then Lost(events, read)
      else Connected
    case Connecting => Waiting(events, read)
    case Connected => if DisconnectEvent in events then Lost(events, read) else Connected
    case Disconnected => Lost(events, read)
  }

  /** A turn's body follows the table, whatever callbacks fall into it. */
  lemma BodyFollowsTable(w: World, events: set<Event>, t: Turn)
    ensures
      var read := WrittenAll(AfterConnected(w, events, t), t.recover).status;
      Body(w, events, t).state == NextState(w.state, events, t.connectResult, t.initResult, read)
  {
    hide WrittenAll, B.Next;
    var w2 := AfterInitialize(w, events, t);
    CallbacksKeep(w, t.connect);
    CallbacksKeep(AfterConnect(w, events, t), t.initialize);
    CallbacksKeep(w2, t.messages);
    CallbacksKeep(WrittenAll(w2, t.messages), t.disconnect);
    CallbacksKeep(AfterDisconnect(w, events, t), t.connected);
    CallbacksKeep(AfterConnected(w, events, t), t.recover);
    var w4 := WrittenAll(AfterConnected(w, events, t), t.recover);
    CallbacksKeep(w4.(count := B.Next(w4.count, t.resets)), t.during);
    CallbacksKeep(AfterRecover(w, events, t), t.trigger);
  }

  /** The status that the recovery reads: the last one that callbacks wrote, or the result of a
      connect that failed, if none was written after it. */
  lemma RecoveryReads(w: World, events: set<Event>, t: Turn)
    ensures
      var later := t.initialize + t.messages + t.disconnect + t.connected + t.recover;
      var fails := t.connectResult != InProgress && t.connectResult != Success;
      WrittenAll(AfterConnected(w, events, t), t.recover).status ==
      if w.state == Connect && ConnectEvent in events && fails then
        LastStatus(t.connectResult, later)
      else LastStatus(LastStatus(w.status, t.connect), later)
  {
    hide WrittenAll, LastStatus;
    var w0, w1, w2 := WrittenAll(w, t.connect), AfterConnect(w, events, t), AfterInitialize(w, events, t);
    var w3, w4 := AfterDisconnect(w, events, t), AfterConnected(w, events, t);
    CallbacksKeep(w, t.connect);
    WritesStatus(w, t.connect);
    WritesStatus(w1, t.initialize);
    WritesStatus(w2, t.messages);
    WritesStatus(WrittenAll(w2, t.messages), t.disconnect);
    WritesStatus(w3, t.connected);
    WritesStatus(w4, t.recover);
    LastOfBoth(w1.status, t.initialize, t.messages);
    LastOfBoth(w1.status, t.initialize + t.messages, t.disconnect);
    LastOfBoth(w1.status, t.initialize + t.messages + t.disconnect, t.connected);
    LastOfBoth(w1.status, t.initialize + t.messages + t.disconnect + t.connected, t.recover);
  }

  /** Callbacks raise none of the loop's own events. */
  lemma {:induction false} OnlyReported(w: World, ws: seq<Write>, e: Event)
    requires e in {ConnectEvent, InitializationEvent, ReconnectEvent, TelemetryEvent, ReportedEvent}
    ensures e in WrittenAll(w, ws).flags <==> e in w.flags
    decreases |ws|
  {
    if ws != [] {
      OnlyReported(Written(w, ws[0]), ws[1..], e);
    }
  }

  /** Whether a state asks for an event of the loop's own. */
  predicate Asks(state: State, due: bool, e: Event) {
    match e
    case InitializationEvent => state == Init
    case ConnectEvent => state == Connect
    case ReconnectEvent => state == Disconnected
    case TelemetryEvent => state == Connected && due
    case ReportedEvent => state == Connected && due
    case _ => false
  }

  /** After a turn the loop's own events are pending exactly if the state asks for them: telemetry
      and reported properties when connected and due, the others in their states. */
  lemma OwnEvents(w: World, t: Turn, e: Event)
    requires Pending(w)
    requires e in {ConnectEvent, InitializationEvent, ReconnectEvent, TelemetryEvent, ReportedEvent}
    ensures var w1 := Step(w, t); e in w1.flags <==> Asks(w1.state, t.due, e)
  {
    hide WrittenAll;
    CallbacksKeep(w, t.before);
    var w0 := WrittenAll(w, t.before);
    if w0.flags != {} {
      BodyOwnEvents(w0.(flags := {}), w0.flags, t, e);
    }
  }

  lemma BodyOwnEvents(w: World, events: set<Event>, t: Turn, e: Event)
    requires w.flags == {}
    requires e in {ConnectEvent, InitializationEvent, ReconnectEvent, TelemetryEvent, ReportedEvent}
    ensures var w1 := Body(w, events, t); e in w1.flags <==> Asks(w1.state, t.due, e)
  {
    hide WrittenAll, B.Next;
    var w2 := AfterInitialize(w, events, t);
    OnlyReported(w, t.connect, e);
    OnlyReported(AfterConnect(w, events, t), t.initialize, e);
    OnlyReported(w2, t.messages, e);
    OnlyReported(WrittenAll(w2, t.messages), t.disconnect, e);
    OnlyReported(AfterDisconnect(w, events, t), t.connected, e);
    OnlyReported(AfterConnected(w, events, t), t.recover, e);
    var w4 := WrittenAll(AfterConnected(w, events, t), t.recover);
    OnlyReported(w4.(count := B.Next(w4.count, t.resets)), t.during, e);
    OnlyReported(AfterRecover(w, events, t), t.trigger, e);
  }

  /** An event that callbacks report is pending after their writes exactly if it was or is one of
      them. */
  lemma {:induction false} RaisedIsPending(w: World, ws: seq<Write>, e: Reported)
    ensures e in WrittenAll(w, ws).flags <==> e in w.flags || Raised(e) in ws
    decreases |ws|
  {
    if ws != [] {
      assert ws == [ws[0]] + ws[1..];
      RaisedIsPending(Written(w, ws[0]), ws[1..], e);
    }
  }

  /** No report gets lost and none is taken twice: the turn takes what is pending when its wait
      ends, and leaves what is reported after that. */
  lemma ReportsWait(w: World, t: Turn, e: Reported)
    ensures
      var taken := WrittenAll(w, t.before);
      var later := t.connect + t.initialize + t.messages + t.disconnect + t.connected + t.recover
        + (if TurnDelays(w, t) == [] then [] else t.during) + t.trigger;
      && (e in taken.flags <==> e in w.flags || Raised(e) in t.before)
      && (e in Step(w, t).flags <==> taken.flags != {} && Raised(e) in later)
  {
    hide WrittenAll, Body, BodyDelays;
    RaisedIsPending(w, t.before, e);
    var taken := WrittenAll(w, t.before);
    if taken.flags == {} {
      assert e !in TriggerStep(taken, t.due).flags;
    } else {
      BodyReportsWait(taken.(flags := {}), taken.flags, t, e);
    }
  }

  lemma BodyReportsWait(w: World, events: set<Event>, t: Turn, e: Reported)
    requires w.flags == {}
    ensures
      var later := t.connect + t.initialize + t.messages + t.disconnect + t.connected + t.recover
        + (if BodyDelays(w, events, t) == [] then [] else t.during) + t.trigger;
      e in Body(w, events, t).flags <==> Raised(e) in later
  {
    hide WrittenAll, AfterConnected, B.Next, B.BaseDelay, B.AtShift;
    BeforeRecoveryReportsWait(w, events, t, e);
    var w4 := WrittenAll(AfterConnected(w, events, t), t.recover);
    CallbacksKeep(w4.(count := B.Next(w4.count, t.resets)), t.during);
    RaisedIsPending(w4.(count := B.Next(w4.count, t.resets)), t.during, e);
    RaisedIsPending(AfterRecover(w, events, t), t.trigger, e);
  }

  lemma BeforeRecoveryReportsWait(w: World, events: set<Event>, t: Turn, e: Reported)
    requires w.flags == {}
    ensures e in WrittenAll(AfterConnected(w, events, t), t.recover).flags <==>
      Raised(e) in t.connect + t.initialize + t.messages + t.disconnect + t.connected + t.recover
  {
    hide WrittenAll;
    var w2 := AfterInitialize(w, events, t);
    RaisedIsPending(w, t.connect, e);
    RaisedIsPending(AfterConnect(w, events, t), t.initialize, e);
    RaisedIsPending(w2, t.messages, e);
    RaisedIsPending(WrittenAll(w2, t.messages), t.disconnect, e);
    RaisedIsPending(AfterDisconnect(w, events, t), t.connected, e);
    RaisedIsPending(AfterConnected(w, events, t), t.recover, e);
  }

  // ---------- requests ----------

  /** Whether a change of state is an entry to `Connected`. */
  function Entered(from: State, to: State): nat {
    if from != Connected && to == Connected then 1 else 0
  }

  /** Every action makes a properties request exactly if it enters `Connected`. */
  lemma ActionsRequest(w: World, connectResult: Code, initResult: InitResult, during: seq<Write>, r: B.Resets)
    ensures var w1 := ConnectStep(w, connectResult); w1.requests == w.requests + Entered(w.state, w1.state)
    ensures var w1 := InitializeStep(w, initResult); w1.requests == w.requests + Entered(w.state, w1.state)
    ensures var w1 := DisconnectStep(w); w1.requests == w.requests + Entered(w.state, w1.state)
    ensures var w1 := ConnectedStep(w); w1.requests == w.requests + Entered(w.state, w1.state)
    ensures var w1 := RecoverStep(w, during, r); w1.requests == w.requests + Entered(w.state, w1.state)
  {
    CallbacksKeep(w.(count := B.Next(w.count, r)), during);
  }

  /** The states a turn goes through. */
  function States(w: World, t: Turn): (states: seq<State>)
    ensures states != []
  {
    var w1 := WrittenAll(w, t.before);
    if w1.flags == {} then [w.state]
    else
      var w2, e := w1.(flags := {}), w1.flags;
      [w.state, AfterConnect(w2, e, t).state, AfterInitialize(w2, e, t).state, AfterDisconnect(w2, e, t).state,
        AfterConnected(w2, e, t).state, AfterRecover(w2, e, t).state]
  }

  /** The states a run goes through, after every action of every turn. */
  function Trace(w: World, turns: seq<Turn>): (states: seq<State>)
    ensures states != [] && states[0] == w.state
    decreases |turns|
  {
    if turns == [] then [w.state] else States(w, turns[0]) + Trace(Step(w, turns[0]), turns[1..])
  }

  /** How often a sequence of states enters `Connected`. */
  function Entries(states: seq<State>): nat {
    if |states| < 2 then 0 else Entered(states[0], states[1]) + Entries(states[1..])
  }

  lemma {:induction false} EntriesSplit(a: seq<State>, b: seq<State>)
    requires a != [] && b != []
    ensures Entries(a + b) == Entries(a) + Entered(a[|a| - 1], b[0]) + Entries(b)
  {
    if |a| == 1 {
      assert (a + b)[1..] == b;
    } else {
      assert (a + b)[1..] == a[1..] + b;
      EntriesSplit(a[1..], b);
    }
  }

  lemma EntriesOfSix(s: seq<State>)
    requires |s| == 6
    ensures Entries(s) == Entered(s[0], s[1]) + Entered(s[1], s[2]) + Entered(s[2], s[3]) + Entered(s[3], s[4])
      + Entered(s[4], s[5])
  {
    var s1, s2, s3, s4 := s[1..], s[2..], s[3..], s[4..];
    assert s1[1..] == s2 && s2[1..] == s3 && s3[1..] == s4;
    assert Entries(s) == Entered(s[0], s[1]) + Entries(s1);
    assert Entries(s1) == Entered(s[1], s[2]) + Entries(s2);
    assert Entries(s2) == Entered(s[2], s[3]) + Entries(s3);
    assert Entries(s3) == Entered(s[3], s[4]) + Entries(s4);
    assert Entries(s4) == Entered(s[4], s[5]);
  }

  lemma FirstActionsRequest(w: World, events: set<Event>, t: Turn)
    ensures
      var w1, w2, w3 := AfterConnect(w, events, t), AfterInitialize(w, events, t), AfterDisconnect(w, events, t);
      w3.requests ==
      w.requests + Entered(w.state, w1.state) + Entered(w1.state, w2.state) + Entered(w2.state, w3.state)
  {
    hide WrittenAll;
    var w2 := AfterInitialize(w, events, t);
    CallbacksKeep(w, t.connect);
    CallbacksKeep(AfterConnect(w, events, t), t.initialize);
    CallbacksKeep(w2, t.messages);
    CallbacksKeep(WrittenAll(w2, t.messages), t.disconnect);
  }

  lemma LastActionsRequest(w: World, events: set<Event>, t: Turn)
    ensures
      var w3, w4, w5 := AfterDisconnect(w, events, t), AfterConnected(w, events, t), AfterRecover(w, events, t);
      && Body(w, events, t).requests == w3.requests + Entered(w3.state, w4.state) + Entered(w4.state, w5.state)
      && Body(w, events, t).state == w5.state
  {
    hide WrittenAll, RecoverStep, AfterDisconnect;
    var w4 := AfterConnected(w, events, t);
    CallbacksKeep(AfterDisconnect(w, events, t), t.connected);
    CallbacksKeep(w4, t.recover);
    ActionsRequest(WrittenAll(w4, t.recover), t.connectResult, t.initResult, t.during, t.resets);
    CallbacksKeep(AfterRecover(w, events, t), t.trigger);
  }

  lemma StepRequests(w: World, t: Turn)
    ensures var states := States(w, t);
      && Step(w, t).requests == w.requests + Entries(states) && Step(w, t).state == states[|states| - 1]
  {
    hide Body, AfterConnect, AfterInitialize, AfterDisconnect, AfterConnected, AfterRecover, WrittenAll;
    var w1 := WrittenAll(w, t.before);
    CallbacksKeep(w, t.before);
    if w1.flags != {} {
      FirstActionsRequest(w1.(flags := {}), w1.flags, t);
      LastActionsRequest(w1.(flags := {}), w1.flags, t);
      EntriesOfSix(States(w, t));
    }
  }

  /** A run makes as many properties requests as its states enter `Connected`. */
  lemma {:induction false} RunRequests(w: World, turns: seq<Turn>)
    ensures Run(w, turns).requests == w.requests + Entries(Trace(w, turns))
    decreases |turns|
  {
    hide Step, States;
    if turns != [] {
      StepRequests(w, turns[0]);
      RunRequests(Step(w, turns[0]), turns[1..]);
      EntriesSplit(States(w, turns[0]), Trace(Step(w, turns[0]), turns[1..]));
    }
  }

  /** Under any interleaving of callbacks, at every loop head of every run: a state that
      waits for its own event has it pending, the client is initialised exactly if the state
      is not `Init`, and there was one properties request for each time the state became
      `Connected`. */
  lemma EveryRun(turns: seq<Turn>)
    ensures Sound(Run(Start(), turns)) && Pending(Run(Start(), turns))
    ensures Run(Start(), turns).requests == Entries(Trace(Start(), turns))
  {
    RunKeeps(Start(), turns);
    RunRequests(Start(), turns);
  }

  // ---------- backing off ----------

  /** A wait: its base delay in seconds, and the random number for its jitter. */
  datatype Wait = Wait(base: nat, random: Fraction)

  /** The waits of a turn: one if the recovery takes it out of `Disconnected`. */
  function BodyDelays(w: World, events: set<Event>, t: Turn): (delays: seq<Wait>)
    ensures |delays| <= 1
  {
    var w1 := WrittenAll(AfterConnected(w, events, t), t.recover);
    if w1.state == Disconnected && AfterRecover(w, events, t).state != Disconnected then
      [Wait(B.BaseDelay(B.AtShift(w1.count, t.resets)), t.random)]
    else []
  }

  function TurnDelays(w: World, t: Turn): (delays: seq<Wait>)
    ensures |delays| <= 1
  {
    var w1 := WrittenAll(w, t.before);
    if w1.flags == {} then [] else BodyDelays(w1.(flags := {}), w1.flags, t)
  }

  /** ... and a run. */
  function Delays(w: World, turns: seq<Turn>): seq<Wait>
    decreases |turns|
  {
    if turns == [] then [] else TurnDelays(w, turns[0]) + Delays(Step(w, turns[0]), turns[1..])
  }

  /** How often a sequence of states leaves `Disconnected`. */
  function Exits(states: seq<State>): nat {
    if |states| < 2 then 0
    else (if states[0] == Disconnected && states[1] != Disconnected then 1 else 0) + Exits(states[1..])
  }

  lemma {:induction false} ExitsSplit(a: seq<State>, b: seq<State>)
    requires a != [] && b != [] && a[|a| - 1] == b[0]
    ensures Exits(a + b) == Exits(a) + Exits(b)
  {
    if |a| == 1 {
      assert (a + b)[1..] == b;
    } else {
      assert (a + b)[1..] == a[1..] + b;
      ExitsSplit(a[1..], b);
    }
  }

  lemma ExitsOfSix(s: seq<State>)
    requires |s| == 6
    requires forall k :: 0 <= k < 4 && s[k] == Disconnected ==> s[k + 1] == Disconnected
    ensures Exits(s) == if s[4] == Disconnected && s[5] != Disconnected then 1 else 0
  {
    var s1, s2, s3, s4 := s[1..], s[2..], s[3..], s[4..];
    assert s1[1..] == s2 && s2[1..] == s3 && s3[1..] == s4;
    assert Exits(s) == Exits(s1);
    assert Exits(s1) == Exits(s2);
    assert Exits(s2) == Exits(s3);
    assert Exits(s3) == Exits(s4);
  }

  /** Only the recovery leaves `Disconnected`. */
  lemma OnlyRecoveryLeaves(w: World, events: set<Event>, t: Turn)
    ensures
      var w1, w2 := AfterConnect(w, events, t), AfterInitialize(w, events, t);
      var w3, w4 := AfterDisconnect(w, events, t), AfterConnected(w, events, t);
      && (w.state == Disconnected ==> w1.state == Disconnected)
      && (w1.state == Disconnected ==> w2.state == Disconnected)
      && (w2.state == Disconnected ==> w3.state == Disconnected)
      && (w3.state == Disconnected ==> w4.state == Disconnected)
      && WrittenAll(w4, t.recover).state == w4.state
  {
    hide WrittenAll;
    var w2 := AfterInitialize(w, events, t);
    CallbacksKeep(w, t.connect);
    CallbacksKeep(AfterConnect(w, events, t), t.initialize);
    CallbacksKeep(w2, t.messages);
    CallbacksKeep(WrittenAll(w2, t.messages), t.disconnect);
    CallbacksKeep(AfterDisconnect(w, events, t), t.connected);
    CallbacksKeep(AfterConnected(w, events, t), t.recover);
  }

  lemma TurnExits(w: World, t: Turn)
    ensures |TurnDelays(w, t)| == Exits(States(w, t))
  {
    hide WrittenAll, AfterConnect, AfterInitialize, AfterDisconnect, AfterConnected, AfterRecover;
    CallbacksKeep(w, t.before);
    var w1 := WrittenAll(w, t.before);
    if w1.flags != {} {
      OnlyRecoveryLeaves(w1.(flags := {}), w1.flags, t);
      ExitsOfSix(States(w, t));
    }
  }

  /** Under any interleaving, every way out of `Disconnected` is a wait: a run waits as often
      as its states leave `Disconnected`. */
  lemma {:induction false} EveryExitWaits(w: World, turns: seq<Turn>)
    ensures |Delays(w, turns)| == Exits(Trace(w, turns))
    decreases |turns|
  {
    hide Step, States, TurnDelays;
    if turns != [] {
      TurnExits(w, turns[0]);
      StepRequests(w, turns[0]);
      EveryExitWaits(Step(w, turns[0]), turns[1..]);
      ExitsSplit(States(w, turns[0]), Trace(Step(w, turns[0]), turns[1..]));
    }
  }

  /** No reset of the counter falls into the turn. */
  predicate Unreset(t: Turn) {
    && CounterReset !in t.before && CounterReset !in t.connect && CounterReset !in t.initialize
    && CounterReset !in t.messages && CounterReset !in t.disconnect && CounterReset !in t.connected
    && CounterReset !in t.recover && CounterReset !in t.during && CounterReset !in t.trigger
    && t.resets == B.NO_RESETS
  }

  lemma {:induction false} CountKept(w: World, ws: seq<Write>)
    requires CounterReset !in ws
    ensures WrittenAll(w, ws).count == w.count
    decreases |ws|
  {
    if ws != [] {
      CountKept(Written(w, ws[0]), ws[1..]);
    }
  }

  /** What a turn without resets does to the counter. */
  lemma BodyCounts(w: World, events: set<Event>, t: Turn)
    requires Unreset(t)
    ensures var w4 := WrittenAll(AfterConnected(w, events, t), t.recover);
      && w4.count == w.count
      && Body(w, events, t).count ==
        if w4.state == Disconnected && AfterRecover(w, events, t).state != Disconnected then
          B.Next(w.count, B.NO_RESETS)
        else w.count
  {
    hide WrittenAll, B.Next;
    var w2 := AfterInitialize(w, events, t);
    CountKept(w, t.connect);
    CountKept(AfterConnect(w, events, t), t.initialize);
    CountKept(w2, t.messages);
    CountKept(WrittenAll(w2, t.messages), t.disconnect);
    CountKept(AfterDisconnect(w, events, t), t.connected);
    CountKept(AfterConnected(w, events, t), t.recover);
    var w4 := WrittenAll(AfterConnected(w, events, t), t.recover);
    var w5 := w4.(count := B.Next(w4.count, t.resets));
    CountKept(w5, t.during);
    CallbacksKeep(w5, t.during);
    CountKept(AfterRecover(w, events, t), t.trigger);
  }

  lemma TurnCounts(w: World, t: Turn)
    requires Unreset(t)
    ensures
      if TurnDelays(w, t) == [] then Step(w, t).count == w.count
      else
        && Step(w, t).count == B.Next(w.count, B.NO_RESETS)
        && TurnDelays(w, t) == [Wait(B.BaseDelay(w.count), t.random)]
  {
    hide WrittenAll, AfterConnected, AfterRecover, Body, B.Next, B.BaseDelay;
    CountKept(w, t.before);
    var w1 := WrittenAll(w, t.before);
    if w1.flags != {} {
      BodyCounts(w1.(flags := {}), w1.flags, t);
    }
  }

  /** One wait in front of others. */
  lemma WaitInFront(now: seq<Wait>, later: seq<Wait>, c: nat, c1: nat)
    requires c <= 8
    requires (now == [] && c1 == c) || (|now| == 1 && now[0].base == B.Min(600, 3 * B.Pow2(c)) && c1 == B.Min(c + 1, 8))
    requires forall k :: 0 <= k < |later| ==> later[k].base == B.Min(600, 3 * B.Pow2(c1 + k))
    ensures forall k :: 0 <= k < |now + later| ==> (now + later)[k].base == B.Min(600, 3 * B.Pow2(c + k))
  {
    hide B.Pow2;
    forall k | 0 <= k < |now + later|
      ensures (now + later)[k].base == B.Min(600, 3 * B.Pow2(c + k))
    {
      if now != [] && k != 0 {
        B.CappedAlike(c, k);
        assert (now + later)[k] == later[k - 1];
      }
    }
  }

  /** As long as no reset falls, wait number `k` of a run is for min(600, 3 * 2^(c + k)) seconds,
      `c` being the counter at its start, and each wait counts, up to 8. */
  lemma {:induction false} WaitsDouble(w: World, turns: seq<Turn>)
    requires w.count <= 8 && forall k :: 0 <= k < |turns| ==> Unreset(turns[k])
    ensures Run(w, turns).count == B.Min(w.count + |Delays(w, turns)|, 8)
    ensures forall k :: 0 <= k < |Delays(w, turns)| ==>
      Delays(w, turns)[k].base == B.Min(600, 3 * B.Pow2(w.count + k))
    decreases |turns|
  {
    hide Step, TurnDelays, Unreset, B.Pow2, B.Next, B.BaseDelay;
    if turns != [] {
      var w1 := Step(w, turns[0]);
      TurnCounts(w, turns[0]);
      B.NextWithoutResets(w.count);
      WaitsDouble(w1, turns[1..]);
      WaitInFront(TurnDelays(w, turns[0]), Delays(w1, turns[1..]), w.count, w1.count);
    }
  }

  // ---------- leaving `Disconnected` ----------

  /** The status after some writes. */
  function LastStatus(status: Code, ws: seq<Write>): Code
    decreases |ws|
  {
    if ws == [] then status
    else LastStatus(if ws[0].StatusWritten? then ws[0].status else status, ws[1..])
  }

  lemma {:induction false} WritesStatus(w: World, ws: seq<Write>)
    ensures WrittenAll(w, ws).status == LastStatus(w.status, ws)
    decreases |ws|
  {
    if ws != [] {
      WritesStatus(Written(w, ws[0]), ws[1..]);
    }
  }

  lemma {:induction false} LastOfBoth(status: Code, a: seq<Write>, b: seq<Write>)
    ensures LastStatus(status, a + b) == LastStatus(LastStatus(status, a), b)
    decreases |a|
  {
    if a == [] {
      assert a + b == b;
    } else {
      assert (a + b)[0] == a[0] && (a + b)[1..] == a[1..] + b;
      LastOfBoth(if a[0].StatusWritten? then a[0].status else status, a[1..], b);
    }
  }

  /** The writes of a turn up to the read of the status in the recovery. */
  function BeforeRecovery(t: Turn): seq<Write> {
    t.before + t.connect + t.initialize + t.messages + t.disconnect + t.connected + t.recover
  }

  /** No action but the recovery touches a disconnected device. */
  lemma DisconnectedWaits(w: World, events: set<Event>, t: Turn)
    requires w.state == Disconnected
    ensures var w1 := WrittenAll(AfterConnected(w, events, t), t.recover);
      && w1.state == Disconnected
      && w1.status == LastStatus(w.status,
          t.connect + t.initialize + t.messages + t.disconnect + t.connected + t.recover)
  {
    hide WrittenAll;
    var w1 := WrittenAll(w, t.connect);
    var w2 := WrittenAll(w1, t.initialize);
    var w3 := WrittenAll(w2, t.messages);
    var w4 := WrittenAll(w3, t.disconnect);
    var w5 := WrittenAll(w4, t.connected);
    CallbacksKeep(w, t.connect);
    CallbacksKeep(w1, t.initialize);
    CallbacksKeep(w2, t.messages);
    CallbacksKeep(w3, t.disconnect);
    CallbacksKeep(w4, t.connected);
    CallbacksKeep(w5, t.recover);
    assert AfterConnected(w, events, t) == w5;
    StatusOfSix(w, t.connect, t.initialize, t.messages, t.disconnect, t.connected, t.recover);
  }

  lemma StatusOfSix(w: World, a: seq<Write>, b: seq<Write>, c: seq<Write>, d: seq<Write>, e: seq<Write>, f: seq<Write>)
    ensures
      WrittenAll(WrittenAll(WrittenAll(WrittenAll(WrittenAll(WrittenAll(w, a), b), c), d), e), f).status ==
      LastStatus(w.status, a + b + c + d + e + f)
  {
    hide LastStatus, WrittenAll;
    var w1 := WrittenAll(w, a);
    var w2 := WrittenAll(w1, b);
    var w3 := WrittenAll(w2, c);
    var w4 := WrittenAll(w3, d);
    var w5 := WrittenAll(w4, e);
    WritesStatus(w, a);
    WritesStatus(w1, b);
    WritesStatus(w2, c);
    WritesStatus(w3, d);
    WritesStatus(w4, e);
    WritesStatus(w5, f);
    LastOfBoth(w.status, a, b);
    LastOfBoth(w.status, a + b, c);
    LastOfBoth(w.status, a + b + c, d);
    LastOfBoth(w.status, a + b + c + d, e);
    LastOfBoth(w.status, a + b + c + d + e, f);
  }

  /** What a turn makes of a disconnected device. */
  lemma DisconnectedTurn(w: World, t: Turn)
    requires Pending(w) && w.state == Disconnected
    ensures var status := LastStatus(w.status, BeforeRecovery(t));
      var w1 := Step(w, t);
      if status == Success then w1.state == Disconnected && w1.status == LastStatus(Success, t.trigger)
      else if status == DnsQueryFailed || status == BadUsernamePassword || status == NotAuthorized then
        w1.state == Init
      else w1.state == Connect
  {
    hide WrittenAll, AfterConnected, LastStatus, B.Next;
    CallbacksKeep(w, t.before);
    WritesStatus(w, t.before);
    var rest := t.connect + t.initialize + t.messages + t.disconnect + t.connected + t.recover;
    assert BeforeRecovery(t) == t.before + rest;
    LastOfBoth(w.status, t.before, rest);
    var called := WrittenAll(w, t.before);
    var w0, events := called.(flags := {}), called.flags;
    DisconnectedWaits(w0, events, t);
    var w1 := WrittenAll(AfterConnected(w0, events, t), t.recover);
    CallbacksKeep(w1.(count := B.Next(w1.count, t.resets)), t.during);
    var w2 := AfterRecover(w0, events, t);
    CallbacksKeep(w2, t.trigger);
    WritesStatus(w2, t.trigger);
  }

  /** Under any interleaving of callbacks, a turn leaves `Disconnected` exactly if the status,
      as the recovery reads it, is an error: to `Init` for the three errors that spoil the
      client, to `Connect` for any other. */
  lemma LeavesDisconnected(w: World, t: Turn)
    requires Pending(w) && w.state == Disconnected
    ensures var status := LastStatus(w.status, BeforeRecovery(t));
      Step(w, t).state ==
      if status == Success then Disconnected
      else if status == DnsQueryFailed || status == BadUsernamePassword || status == NotAuthorized then Init
      else Connect
  {
    hide Step, LastStatus;
    DisconnectedTurn(w, t);
  }

  lemma StaysPending(w: World, t: Turn)
    requires Pending(w)
    ensures Pending(Step(w, t))
  {
    hide WrittenAll, AfterRecover;
    CallbacksKeep(w, t.before);
  }

  /** The device is disconnected at every loop head of a run. */
  predicate StaysDisconnected(w: World, turns: seq<Turn>)
    decreases |turns|
  {
    w.state == Disconnected && (turns == [] || StaysDisconnected(Step(w, turns[0]), turns[1..]))
  }

  /** Every recovery of a run that starts with the status `status` reads success. */
  predicate ReadsSuccess(status: Code, turns: seq<Turn>)
    decreases |turns|
  {
    turns == [] ||
    (LastStatus(status, BeforeRecovery(turns[0])) == Success
      && ReadsSuccess(LastStatus(Success, turns[0].trigger), turns[1..]))
  }

  /** Over a whole run, under any interleaving: the loop never leaves `Disconnected` if and only
      if every recovery reads success. */
  lemma {:induction false} StaysExactly(w: World, turns: seq<Turn>)
    requires Pending(w) && w.state == Disconnected
    ensures StaysDisconnected(w, turns) <==> ReadsSuccess(w.status, turns)
    decreases |turns|
  {
    hide Step, Pending, LastStatus;
    if turns != [] {
      DisconnectedTurn(w, turns[0]);
      StaysPending(w, turns[0]);
      if Step(w, turns[0]).state == Disconnected {
        StaysExactly(Step(w, turns[0]), turns[1..]);
      }
    }
  }

  /** No write reports an error. */
  predicate NoErrors(ws: seq<Write>) {
    forall k :: 0 <= k < |ws| && ws[k].StatusWritten? ==> ws[k].status == Success
  }

  lemma {:induction false} NoErrorStays(ws: seq<Write>)
    requires NoErrors(ws)
    ensures LastStatus(Success, ws) == Success
    decreases |ws|
  {
    if ws != [] {
      NoErrorStays(ws[1..]);
    }
  }

  /** So with the status at success it is stuck there, spinning on the reconnect event, as
      long as no error is reported; the success of a reconnection does not help. */
  lemma {:induction false} Stuck(w: World, turns: seq<Turn>)
    requires Pending(w) && w.state == Disconnected && w.status == Success
    requires forall k :: 0 <= k < |turns| ==> NoErrors(BeforeRecovery(turns[k])) && NoErrors(turns[k].trigger)
    ensures var w1 := Run(w, turns); Pending(w1) && w1.state == Disconnected && w1.status == Success
    decreases |turns|
  {
    hide Step, Pending, LastStatus, NoErrors;
    if turns != [] {
      NoErrorStays(BeforeRecovery(turns[0]));
      NoErrorStays(turns[0].trigger);
      DisconnectedTurn(w, turns[0]);
      StaysPending(w, turns[0]);
      Stuck(Step(w, turns[0]), turns[1..]);
    }
  }

  /** No callback comes during the turn. */
  predicate Quiet(t: Turn) {
    t.before + t.connect + t.initialize + t.messages + t.disconnect + t.connected + t.recover + t.during + t.trigger
      == []
  }

  /** A turn whose callbacks come only before it, while connecting, or in the backoff. */
  lemma NearlyQuietBody(w: World, events: set<Event>, t: Turn)
    requires Quiet(t.(before := [], connect := [], during := []))
    ensures
      var w0 := WrittenAll(w, t.connect);
      var w1 := if ConnectEvent in events then ConnectStep(w0, t.connectResult) else w0;
      var w2 := if InitializationEvent in events then InitializeStep(w1, t.initResult) else w1;
      var w3 := if DisconnectEvent in events then DisconnectStep(w2) else w2;
      var w4 := if ConnectedEvent in events then ConnectedStep(w3) else w3;
      var w5 := if ReconnectEvent in events then RecoverStep(w4, t.during, t.resets) else w4;
      Body(w, events, t) == TriggerStep(w5, t.due)
  {
    hide ConnectStep, InitializeStep, DisconnectStep, ConnectedStep, RecoverStep, TriggerStep;
    var q := t.(before := [], connect := [], during := []);
    assert q.initialize == t.initialize == [] && q.messages == t.messages == [] && q.disconnect == t.disconnect == [];
    assert q.connected == t.connected == [] && q.recover == t.recover == [] && q.trigger == t.trigger == [];
  }

  /** The first connect is refused at once. */
  lemma ConnectFails(t: Turn)
    requires Quiet(t) && t.initResult == Ready && t.connectResult == OtherError(1)
    ensures Step(Step(Start(), t), t) == World(Disconnected, {ReconnectEvent}, OtherError(1), 0, true, 0)
  {
    hide Body;
    var w := Start();
    NearlyQuietBody(w.(flags := {}), w.flags, t);
    var w1 := Step(w, t);
    assert w1 == World(Connect, {ConnectEvent}, OtherError(0), 0, true, 0) by {
      assert w.flags != {};
    }
    NearlyQuietBody(w1.(flags := {}), w1.flags, t);
    assert w1.flags != {};
  }

  /** A failure is reported while the loop backs off. */
  lemma FailsAgain(w: World, t: Turn)
    requires w.state == Disconnected && w.flags == {ReconnectEvent} && w.status == OtherError(1)
    requires Quiet(t.(during := [])) && t.during == Writes(ConnectionStatus(OtherError(1)))
    ensures var w1 := Step(w, t);
      w1.state == Connect && w1.flags == {DisconnectEvent, ConnectEvent}
  {
    hide Body, B.Next, WrittenAll;
    NothingWritten(w.(flags := {}));
    assert t.before == t.(during := []).before == [] && t.connect == t.(during := []).connect == [];
    NothingWritten(w);
    NearlyQuietBody(w.(flags := {}), w.flags, t);
    ReportWritten(w.(flags := {}, count := B.Next(w.count, t.resets)), OtherError(1));
  }

  /** The next connect succeeds, and the loop disconnects at once because of that report. */
  lemma ConnectsAndDisconnects(w: World, t: Turn)
    requires w.state == Connect && w.flags == {DisconnectEvent, ConnectEvent}
    requires Quiet(t.(connect := [])) && t.connect == Writes(ConnectionStatus(Success)) && t.connectResult == Success
    ensures var w1 := Step(w, t);
      w1.state == Disconnected && w1.status == Success && Pending(w1)
  {
    hide Body, WrittenAll;
    assert t.before == t.(connect := []).before == [];
    NothingWritten(w);
    NearlyQuietBody(w.(flags := {}), w.flags, t);
    ReportWritten(w.(flags := {}), Success);
  }

  /** A run that gets stuck: the first connect fails, another failure is reported while the
      loop backs off, and the second connect succeeds and reports so.  The loop then still
      sees the disconnect event of the failure, disconnects the client, and no error status
      is left to recover from, whatever callbacks follow that report no error. */
  lemma FailThenRecoverIsStuck(t: Turn, turns: seq<Turn>)
    requires Quiet(t) && t.initResult == Ready
    requires forall k :: 0 <= k < |turns| ==> NoErrors(BeforeRecovery(turns[k])) && NoErrors(turns[k].trigger)
    ensures
      var fails := t.(connectResult := OtherError(1));
      var again := t.(during := Writes(ConnectionStatus(OtherError(1))));
      var succeeds := t.(connect := Writes(ConnectionStatus(Success)), connectResult := Success);
      Run(Run(Start(), [fails, fails, again, succeeds]), turns).state == Disconnected
  {
    hide Step;
    var fails := t.(connectResult := OtherError(1));
    var again := t.(during := Writes(ConnectionStatus(OtherError(1))));
    var succeeds := t.(connect := Writes(ConnectionStatus(Success)), connectResult := Success);
    ConnectFails(fails);
    var w := Step(Step(Start(), fails), fails);
    assert again.(during := []) == t && succeeds.(connect := []) == t.(connectResult := Success);
    FailsAgain(w, again);
    ConnectsAndDisconnects(Step(w, again), succeeds);
    RunOfFour(Start(), fails, fails, again, succeeds);
    Stuck(Step(Step(w, again), succeeds), turns);
  }

  lemma RunOfFour(w: World, a: Turn, b: Turn, c: Turn, d: Turn)
    ensures Run(w, [a, b, c, d]) == Step(Step(Step(Step(w, a), b), c), d)
  {
    hide Step;
    assert [a, b, c, d][1..] == [b, c, d] && [b, c, d][1..] == [c, d] && [c, d][1..] == [d] && [d][1..] == [];
    var w2 := Step(Step(w, a), b);
    assert Run(w2, [c, d]) == Run(Step(w2, c), [d]) == Run(Step(Step(w2, c), d), []);
  }
}
