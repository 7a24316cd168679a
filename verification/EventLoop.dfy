/** The event loop as code: its actions update the context in place and call the client
    library, whose demands (initialise once, use only when initialised) are preconditions. */
module EventLoop {
  import opened DeviceLoop

  /** The client library as far as its use is concerned. */
  class Client {
    var initialized: bool
    var requests: nat

    constructor ()
      ensures !initialized && requests == 0
    {
      initialized, requests := false, 0;
    }

    method Initialize()
      requires !initialized
      modifies this`initialized
      ensures initialized
    {
      initialized := true;
    }

    method Deinitialize()
      requires initialized
      modifies this`initialized
      ensures !initialized
    {
      initialized := false;
    }

    /** Connect, disconnect, and every other call that needs a client. */
    method Use()
      requires initialized
    {
    }

    method PropertiesRequest()
      requires initialized
      modifies this`requests
      ensures requests == old(requests) + 1
    {
      requests := requests + 1;
    }
  }

  /** SAMPLE_CONTEXT with the two globals beside it. */
  class Device {
    var state: State
    var flags: set<Event>
    var status: Code
    const retry: B.Counter
    const client: Client

    ghost function Now(): World
      reads this, retry, client
    {
      World(state, flags, status, retry.count, client.initialized, client.requests)
    }

    /** `sample_entry` up to the loop */
    constructor ()
      ensures Now() == Start() && fresh(retry) && fresh(client)
    {
      retry := new B.Counter();
      client := new Client();
      state := Init;
      flags := {InitializationEvent};
      status := OtherError(0);
    }

    /** A single write of the callback thread. */
    method Perform(write: Write)
      modifies this`flags, this`status, retry
      ensures Now() == Written(old(Now()), write)
    {
      match write {
        case StatusWritten(code) => status := code;
        case Raised(event) => flags := flags + {event};
        case CounterReset => retry.Reset();
      }
    }

    /** `connection_status_callback` and the three message callbacks, when no step of the loop
        falls between their writes */
    method OnCallback(c: Callback)
      modifies this`flags, this`status, retry
      ensures Now() == WrittenAll(old(Now()), Writes(c))
    {
      match c {
        case ConnectionStatus(code) =>
          ReportWritten(Now(), code);
          status := code;
          if code != Success {
            flags := flags + {DisconnectEvent};
          } else {
            flags := flags + {ConnectedEvent};
            retry.Reset();
          }
        case PropertiesReceived => flags := flags + {PropertiesGetEvent};
        case CommandReceived => flags := flags + {CommandEvent};
        case DesiredReceived => flags := flags + {DesiredEvent};
      }
    }

    /** The other thread runs. */
    method Interrupt(ws: seq<Write>)
      modifies this`flags, this`status, retry
      ensures Now() == WrittenAll(old(Now()), ws)
      ensures Sound(old(Now())) ==> Sound(Now())
    {
      CallbacksKeep(Now(), ws);
      var i := 0;
      while i < |ws|
        invariant i <= |ws| && WrittenAll(Now(), ws[i..]) == WrittenAll(old(Now()), ws)
      {
        assert ws[i..][1..] == ws[i + 1..];
        Perform(ws[i]);
        i := i + 1;
      }
    }

    method EnterConnected()
      requires client.initialized
      modifies this`state, client
      ensures Now() == Enter(old(Now()))
    {
      state := Connected;
      client.PropertiesRequest();
    }

    /** `sample_connect_action` */
    method ConnectAction(result: Code)
      requires Sound(Now())
      modifies this, client
      ensures Now() == ConnectStep(old(Now()), result) && Sound(Now())
    {
      if state != Connect {
        return;
      }
      client.Use();
      if result == InProgress {
        state := Connecting;
      } else if result != Success {
        status := result;
        state := Disconnected;
      } else {
        EnterConnected();
      }
    }

    /** `sample_disconnect_action` */
    method DisconnectAction()
      requires Sound(Now())
      modifies this`state
      ensures Now() == DisconnectStep(old(Now())) && Sound(Now())
    {
      if state != Connected && state != Connecting {
        return;
      }
      client.Use();
      state := Disconnected;
    }

    /** `sample_connected_action` */
    method ConnectedAction()
      requires Sound(Now())
      modifies this, client
      ensures Now() == ConnectedStep(old(Now())) && Sound(Now())
    {
      if state != Connecting {
        return;
      }
      EnterConnected();
    }

    /** `sample_initialize_iothub` */
    method InitializeAction(result: InitResult)
      requires Sound(Now())
      modifies this`state, client
      ensures Now() == InitializeStep(old(Now()), result) && Sound(Now())
    {
      if state != Init {
        return;
      }
      if result == ProvisioningFailed || result == InitializeFailed {
        return;
      }
      client.Initialize();
      client.Use();
      if result == SetupFailed {
        client.Deinitialize();
      } else {
        state := Connect;
      }
    }

    /** The actions on messages and the periodic ones: they use the client, but only when
        connected, and leave the loop's variables alone. */
    method MessageActions(events: set<Event>)
      requires Sound(Now())
    {
      if PropertiesGetEvent in events && state == Connected { client.Use(); }
      if CommandEvent in events && state == Connected { client.Use(); }
      if DesiredEvent in events && state == Connected { client.Use(); }
      if TelemetryEvent in events && state == Connected { client.Use(); }
      if ReportedEvent in events && state == Connected { client.Use(); }
    }

    /** `exponential_backoff_with_jitter` and the sleep, during which callbacks may come. */
    method BackOff(during: seq<Write>, r: B.Resets, random: Fraction, rate: nat) returns (ticks: nat)
      requires retry.count <= B.MAX_COUNT
      modifies this`flags, this`status, retry
      ensures var w := old(Now()); Now() == WrittenAll(w.(count := B.Next(w.count, r)), during)
      ensures retry.count <= B.MAX_COUNT
      ensures ticks == B.Jittered(B.BaseDelay(B.AtShift(old(retry.count), r)), random) * rate
    {
      ticks := retry.Delay(random, rate, r);
      CallbacksKeep(Now(), during);
      Interrupt(during);
    }

    /** `sample_connection_error_recover` */
    method RecoverAction(during: seq<Write>, r: B.Resets, random: Fraction, rate: nat) returns (sleeps: seq<nat>)
      requires Sound(Now())
      modifies this, retry, client
      ensures Now() == RecoverStep(old(Now()), during, r) && Sound(Now())
      ensures Slept(sleeps,
          if old(state) == Disconnected && state != Disconnected then
            [Wait(B.BaseDelay(B.AtShift(old(retry.count), r)), random)]
          else [], rate)
    {
      sleeps := [];
      if state != Disconnected {
        return;
      }
      CallbacksKeep(Now().(count := B.Next(retry.count, r)), during);
      match status {
        case Success =>
        case DnsQueryFailed => sleeps := Reinitialize(during, r, random, rate);
        case BadUsernamePassword => sleeps := Reinitialize(during, r, random, rate);
        case NotAuthorized => sleeps := Reinitialize(during, r, random, rate);
        case _ =>
          var ticks := BackOff(during, r, random, rate);
          sleeps := [ticks];
          state := Connect;
      }
    }

    /** The branch of the recovery for errors that spoil the client. */
    method Reinitialize(during: seq<Write>, r: B.Resets, random: Fraction, rate: nat) returns (sleeps: seq<nat>)
      requires client.initialized && retry.count <= B.MAX_COUNT
      modifies this, retry, client
      ensures var w := old(Now());
        Now() == WrittenAll(w.(count := B.Next(w.count, r)), during).(state := Init, initialized := false)
      ensures retry.count <= B.MAX_COUNT
      ensures Slept(sleeps, [Wait(B.BaseDelay(B.AtShift(old(retry.count), r)), random)], rate)
    {
      CallbacksKeep(Now().(count := B.Next(retry.count, r)), during);
      var ticks := BackOff(during, r, random, rate);
      sleeps := [ticks];
      client.Deinitialize();
      state := Init;
    }

    /** `sample_trigger_action`; `due` says whether five seconds have passed. */
    method TriggerAction(due: bool)
      modifies this`flags
      ensures Now() == TriggerStep(old(Now()), due)
    {
      match state {
        case Init => flags := flags + {InitializationEvent};
        case Connect => flags := flags + {ConnectEvent};
        case Connected =>
          if due {
            flags := flags + {TelemetryEvent};
            flags := flags + {ReportedEvent};
          }
        case Disconnected => flags := flags + {ReconnectEvent};
        case Connecting =>
      }
    }

    /** The body of the loop up to the recovery. */
    method HandleConnection(events: set<Event>, t: Turn)
      requires Sound(Now())
      modifies this, retry, client
      ensures Now() == WrittenAll(AfterConnected(old(Now()), events, t), t.recover) && Sound(Now())
    {
      hide ConnectStep, InitializeStep, DisconnectStep, ConnectedStep, WrittenAll, Sound;
      Interrupt(t.connect);
      if ConnectEvent in events { ConnectAction(t.connectResult); }
      Interrupt(t.initialize);
      if InitializationEvent in events { InitializeAction(t.initResult); }
      Interrupt(t.messages);
      MessageActions(events);
      Interrupt(t.disconnect);
      if DisconnectEvent in events { DisconnectAction(); }
      Interrupt(t.connected);
      if ConnectedEvent in events { ConnectedAction(); }
      Interrupt(t.recover);
    }

    /** The body of the loop for the events it took. */
    method HandleEvents(events: set<Event>, t: Turn, rate: nat) returns (sleeps: seq<nat>)
      requires Sound(Now())
      modifies this, retry, client
      ensures Now() == Body(old(Now()), events, t) && Sound(Now())
      ensures Slept(sleeps, BodyDelays(old(Now()), events, t), rate)
    {
      hide AfterConnected, RecoverStep, TriggerStep, WrittenAll, Sound, Slept;
      sleeps := [];
      SleptNot(rate);
      HandleConnection(events, t);
      if ReconnectEvent in events { sleeps := RecoverAction(t.during, t.resets, t.random, rate); }
      Interrupt(t.trigger);
      ghost var w := Now();
      TriggerAction(t.due);
      TriggerIsSound(w, t.due);
    }

    /** One turn of `sample_event_loop`. */
    method TakeTurn(t: Turn, rate: nat) returns (sleeps: seq<nat>)
      requires Sound(Now()) && Pending(Now())
      modifies this, retry, client
      ensures Now() == Step(old(Now()), t) && Sound(Now()) && Pending(Now())
      ensures Slept(sleeps, TurnDelays(old(Now()), t), rate)
    {
      hide Body, BodyDelays, WrittenAll, Slept;
      StepKeeps(Now(), t);
      Interrupt(t.before);
      var events := flags;
      flags := {};
      if events == {} {
        SleptNot(rate);
        if state == Connected {
          TriggerAction(t.due);
        }
        return [];
      }
      sleeps := HandleEvents(events, t, rate);
    }

    /** `sample_event_loop`, for as many turns as are given; `sleeps` are the times, in ticks,
        that it slept, with `rate` ticks to a second. */
    method Loop(turns: seq<Turn>, rate: nat) returns (sleeps: seq<nat>)
      requires Sound(Now()) && Pending(Now())
      modifies this, retry, client
      ensures Now() == Run(old(Now()), turns) && Sound(Now()) && Pending(Now())
      ensures Slept(sleeps, Delays(old(Now()), turns), rate)
    {
      hide Step, Sound, Pending, TurnDelays, Slept;
      sleeps := [];
      SleptNot(rate);
      ghost var delays: seq<Wait> := [];
      var i := 0;
      while i < |turns|
        invariant i <= |turns| && Sound(Now()) && Pending(Now())
        invariant Run(Now(), turns[i..]) == Run(old(Now()), turns)
        invariant delays + Delays(Now(), turns[i..]) == Delays(old(Now()), turns)
        invariant Slept(sleeps, delays, rate)
      {
        assert turns[i..][1..] == turns[i + 1..];
        ghost var more := TurnDelays(Now(), turns[i]);
        var slept := TakeTurn(turns[i], rate);
        SleptMore(sleeps, delays, slept, more, rate);
        assert delays + (more + Delays(Now(), turns[i + 1..])) == delays + more + Delays(Now(), turns[i + 1..]);
        sleeps, delays := sleeps + slept, delays + more;
        i := i + 1;
      }
      assert turns[i..] == [] && delays + [] == delays;
    }
  }

  /** The times slept are the waits with their jitter, one by one. */
  predicate Slept(sleeps: seq<nat>, delays: seq<Wait>, rate: nat) {
    && |sleeps| == |delays|
    && forall k :: 0 <= k < |delays| ==> sleeps[k] == B.Jittered(delays[k].base, delays[k].random) * rate
  }

  lemma SleptNot(rate: nat)
    ensures Slept([], [], rate)
  {
  }

  lemma SleptMore(a: seq<nat>, b: seq<Wait>, c: seq<nat>, d: seq<Wait>, rate: nat)
    requires Slept(a, b, rate) && Slept(c, d, rate)
    ensures Slept(a + c, b + d, rate)
  {
  }

  /** What the loop sleeps while no reset falls, sleep by sleep: it sleeps once for every time
      that its states leave `Disconnected`, from min(600, 3 * 2^(c + k)) seconds to 1.6 times
      that. */
  lemma SleepsDouble(w: World, turns: seq<Turn>, sleeps: seq<nat>, rate: nat)
    requires w.count <= 8 && Slept(sleeps, Delays(w, turns), rate)
    requires forall k :: 0 <= k < |turns| ==> Unreset(turns[k])
    ensures |sleeps| == Exits(Trace(w, turns))
    ensures forall k :: 0 <= k < |sleeps| ==>
      var base := B.Min(600, 3 * B.Pow2(w.count + k));
      base * rate <= sleeps[k] && 10 * sleeps[k] <= 16 * base * rate
  {
    hide Delays, B.Pow2, Trace, B.Jittered;
    EveryExitWaits(w, turns);
    WaitsDouble(w, turns);
    forall k | 0 <= k < |sleeps|
      ensures var base := B.Min(600, 3 * B.Pow2(w.count + k));
        base * rate <= sleeps[k] && 10 * sleeps[k] <= 16 * base * rate
    {
      B.TicksBounds(B.Min(600, 3 * B.Pow2(w.count + k)), Delays(w, turns)[k].random, rate, sleeps[k]);
    }
  }

  lemma TriggerIsSound(w: World, due: bool)
    requires Sound(w)
    ensures Sound(TriggerStep(w, due))
  {
  }
}
