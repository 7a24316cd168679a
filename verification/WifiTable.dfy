/** The socket table of nx_wifi.c as a value: which slot a call finds, what each call
    does to the table, and what every run of calls keeps. */
module WifiTable {
  import opened Options

  const SLOTS: nat := 8

  /** One `NX_WIFI_SOCKET`, without its queue.  A socket is known by its address. */
  datatype Entry = Entry(socket: nat, valid: bool, udp: bool, connected: bool)

  const EMPTY := Entry(0, false, false, false)

  type Table = t: seq<Entry> | |t| == SLOTS witness seq(SLOTS, _ => EMPTY)

  /** The number of valid entries among the first `n`. */
  function CountValid(t: Table, n: nat): (c: nat)
    requires n <= SLOTS
    ensures c <= n
  {
    if n == 0 then 0 else CountValid(t, n - 1) + if t[n - 1].valid then 1 else 0
  }

  predicate Live(e: Entry) {
    e.valid && e.connected
  }

  function CountLive(t: Table, n: nat): (c: nat)
    requires n <= SLOTS
    ensures c <= n
  {
    if n == 0 then 0 else CountLive(t, n - 1) + if Live(t[n - 1]) then 1 else 0
  }

  predicate Bound(t: Table, socket: nat) {
    exists i :: 0 <= i < SLOTS && t[i].valid && t[i].socket == socket
  }

  predicate Full(t: Table) {
    forall i :: 0 <= i < SLOTS ==> t[i].valid
  }

  function FirstBound(t: Table, socket: nat, i: nat): (r: Option<nat>)
    requires i <= SLOTS
    decreases SLOTS - i
    ensures r.Some? ==> i <= r.value < SLOTS && t[r.value].valid && t[r.value].socket == socket
    ensures r == None ==> forall j :: i <= j < SLOTS ==> !(t[j].valid && t[j].socket == socket)
  {
    if i == SLOTS then None
    else if t[i].valid && t[i].socket == socket then Some(i)
    else FirstBound(t, socket, i + 1)
  }

  function FirstFree(t: Table, i: nat): (r: Option<nat>)
    requires i <= SLOTS
    decreases SLOTS - i
    ensures r.Some? ==> i <= r.value < SLOTS && !t[r.value].valid && forall j :: i <= j < r.value ==> t[j].valid
    ensures r == None ==> forall j :: i <= j < SLOTS ==> t[j].valid
  {
    if i == SLOTS then None else if !t[i].valid then Some(i) else FirstFree(t, i + 1)
  }

  /** Which slot `nx_wifi_socket_entry_find` reports.  With `find`, a socket that is not
      bound does not fail the search: it gets the first free slot. */
  function Find(t: Table, socket: nat, find: bool): (r: Option<nat>)
    ensures r.Some? ==> r.value < SLOTS
  {
    var b := FirstBound(t, socket, 0);
    if b.Some? then (if find then b else None) else FirstFree(t, 0)
  }

  /** The table and `nx_wifi_socket_counter`. */
  datatype State = State(table: Table, counter: int)

  /** The calls, with what the module answers where the table depends on it. */
  datatype Call =
    | TcpConnect(socket: nat, accepted: bool)
    | TcpDisconnect(socket: nat)
    | TcpSend(socket: nat)
    | Receive(socket: nat)
    | UdpBind(socket: nat)
    | UdpUnbind(socket: nat)
    | UdpSend(socket: nat, accepted: bool)

  /** What a call comes to: refused, carried out, or let through to the connection of
      slot `slot`. */
  datatype Outcome = Refused | Done | Through(slot: nat)

  /** `nx_wifi_socket_reset` */
  function Reset(s: State, i: nat): State
    requires i < SLOTS
  {
    if !s.table[i].valid then s else State(s.table[i := EMPTY], s.counter - 1)
  }

  function Connected(s: State, i: nat): State
    requires i < SLOTS
  {
    s.(table := s.table[i := s.table[i].(connected := true)])
  }

  /** `nx_wifi_tcp_client_socket_connect` */
  function ConnectStep(s: State, socket: nat, accepted: bool): (State, Outcome) {
    match Find(s.table, socket, false)
    case None => (s, Refused)
    case Some(i) =>
      var s1 := State(s.table[i := Entry(socket, true, false, false)], s.counter + 1);
      if accepted then (Connected(s1, i), Done) else (Reset(s1, i), Refused)
  }

  /** `nx_wifi_udp_socket_bind` */
  function BindStep(s: State, socket: nat): (State, Outcome) {
    match Find(s.table, socket, false)
    case None => (s, Refused)
    case Some(i) => (State(s.table[i := Entry(socket, true, true, false)], s.counter + 1), Done)
  }

  /** The lookup that sending on TCP, receiving and closing start with. */
  function Lookup(s: State, socket: nat): (o: Outcome)
    ensures o.Through? ==> o.slot < SLOTS
  {
    match Find(s.table, socket, true)
    case None => Refused
    case Some(i) => if s.table[i].connected then Through(i) else Refused
  }

  /** `nx_wifi_tcp_socket_disconnect` and `nx_wifi_udp_socket_unbind` */
  function CloseStep(s: State, socket: nat): (State, Outcome) {
    match Lookup(s, socket)
    case Through(i) => (Reset(s, i), Done)
    case _ => (s, Refused)
  }

  /** `nx_wifi_udp_socket_send`, up to the sending */
  function UdpSendStep(s: State, socket: nat, accepted: bool): (State, Outcome) {
    match Find(s.table, socket, true)
    case None => (s, Refused)
    case Some(i) =>
      if s.table[i].connected then (s, Through(i))
      else if accepted then (Connected(s, i), Through(i))
      else (Reset(s, i), Refused)
  }

  /** One call's effect on the table. */
  function Step(s: State, c: Call): (State, Outcome) {
    match c
    case TcpConnect(socket, accepted) => ConnectStep(s, socket, accepted)
    case TcpDisconnect(socket) => CloseStep(s, socket)
    case TcpSend(socket) => (s, Lookup(s, socket))
    case Receive(socket) => (s, Lookup(s, socket))
    case UdpBind(socket) => BindStep(s, socket)
    case UdpUnbind(socket) => CloseStep(s, socket)
    case UdpSend(socket, accepted) => UdpSendStep(s, socket, accepted)
  }

  /** The counter counts the valid slots, valid slots hold distinct sockets, and free
      slots are unconnected. */
  predicate Inv(s: State) {
    && s.counter == CountValid(s.table, SLOTS)
    && (forall i, j :: 0 <= i < j < SLOTS && s.table[i].valid && s.table[j].valid ==>
          s.table[i].socket != s.table[j].socket)
    && forall i :: 0 <= i < SLOTS && !s.table[i].valid ==> s.table[i] == EMPTY
  }

  lemma {:induction false} CountUpdate(t: Table, i: nat, e: Entry, n: nat)
    requires i < SLOTS && n <= SLOTS
    ensures CountValid(t[i := e], n) == CountValid(t, n) +
      if i < n then (if e.valid then 1 else 0) - (if t[i].valid then 1 else 0) else 0
  {
    if n != 0 {
      CountUpdate(t, i, e, n - 1);
    }
  }

  /** The one call that can break the table: a UDP send on a socket that is not bound,
      while a slot is free and the module opens the connection. */
  predicate Stray(t: Table, c: Call) {
    c.UdpSend? && !Bound(t, c.socket) && !Full(t) && c.accepted
  }

  lemma UpdateKeepsInv(s: State, i: nat, e: Entry)
    requires Inv(s) && i < SLOTS
    requires e.valid ==> !Bound(s.table, e.socket) || (s.table[i].valid && s.table[i].socket == e.socket)
    requires !e.valid ==> e == EMPTY
    ensures Inv(State(s.table[i := e],
      s.counter + (if e.valid then 1 else 0) - (if s.table[i].valid then 1 else 0)))
  {
    CountUpdate(s.table, i, e, SLOTS);
  }

  lemma FindFacts(t: Table, socket: nat, find: bool)
    ensures !Bound(t, socket) ==> Find(t, socket, find) == FirstFree(t, 0)
    ensures Bound(t, socket) ==>
      Find(t, socket, find) == if find then FirstBound(t, socket, 0) else None
    ensures Bound(t, socket) ==> FirstBound(t, socket, 0).Some?
    ensures FirstFree(t, 0) == None <==> Full(t)
  {
  }

  lemma ResetKeepsInv(s: State, i: nat)
    requires Inv(s) && i < SLOTS
    ensures Inv(Reset(s, i))
  {
    hide Inv;
    if s.table[i].valid {
      UpdateKeepsInv(s, i, EMPTY);
    }
  }

  lemma ConnectedKeepsInv(s: State, i: nat)
    requires Inv(s) && i < SLOTS
    ensures Inv(Connected(s, i)) <==> s.table[i].valid
  {
    if s.table[i].valid {
      UpdateKeepsInv(s, i, s.table[i].(connected := true));
    } else {
      assert !Connected(s, i).table[i].valid;
    }
  }

  /** Claiming a free slot for a socket that is not bound yet. */
  lemma ClaimKeepsInv(s: State, i: nat, socket: nat, udp: bool)
    requires Inv(s) && i < SLOTS && !s.table[i].valid && !Bound(s.table, socket)
    ensures Inv(State(s.table[i := Entry(socket, true, udp, false)], s.counter + 1))
  {
    UpdateKeepsInv(s, i, Entry(socket, true, udp, false));
  }

  /** Every call keeps the table sound, but for a UDP send exactly when it is stray. */
  lemma StepKeepsInv(s: State, c: Call)
    requires Inv(s)
    ensures Inv(Step(s, c).0) <==> !Stray(s.table, c)
  {
    hide Inv, FirstBound, FirstFree, Bound, Full;
    FindFacts(s.table, c.socket, c.TcpDisconnect? || c.UdpUnbind? || c.UdpSend?);
    match c
    case TcpConnect(socket, accepted) =>
      if i: nat :| Find(s.table, socket, false) == Some(i) {
        ClaimKeepsInv(s, i, socket, false);
        var s1 := State(s.table[i := Entry(socket, true, false, false)], s.counter + 1);
        ConnectedKeepsInv(s1, i);
        ResetKeepsInv(s1, i);
      }
    case UdpBind(socket) =>
      if i: nat :| Find(s.table, socket, false) == Some(i) {
        ClaimKeepsInv(s, i, socket, true);
      }
    case UdpSend(socket, accepted) =>
      if i: nat :| Find(s.table, socket, true) == Some(i) {
        ConnectedKeepsInv(s, i);
        ResetKeepsInv(s, i);
        FreeIsUnconnected(s, i);
      }
    case _ =>
      if i: nat :| Find(s.table, c.socket, true) == Some(i) {
        ResetKeepsInv(s, i);
      }
  }

  lemma FreeIsUnconnected(s: State, i: nat)
    requires Inv(s) && i < SLOTS
    ensures s.table[i].connected ==> s.table[i].valid
  {
  }

  /** The state after a run of calls. */
  function Run(s: State, calls: seq<Call>): State
    decreases |calls|
  {
    if calls == [] then s else Run(Step(s, calls[0]).0, calls[1..])
  }

  /** UDP send is used only on sockets that are bound at that point of the run. */
  predicate SendsAreBound(s: State, calls: seq<Call>)
    decreases |calls|
  {
    calls == [] ||
    ((calls[0].UdpSend? ==> Bound(s.table, calls[0].socket)) && SendsAreBound(Step(s, calls[0]).0, calls[1..]))
  }

  /** The table after `nx_wifi_initialize`. */
  function Initial(): State {
    State(seq(SLOTS, _ => EMPTY), 0)
  }

  lemma {:induction false} NoneValid(n: nat)
    requires n <= SLOTS
    ensures CountValid(Initial().table, n) == 0
  {
    if n != 0 {
      NoneValid(n - 1);
    }
  }

  lemma {:induction false} RunKeepsInv(s: State, calls: seq<Call>)
    requires Inv(s) && SendsAreBound(s, calls)
    ensures Inv(Run(s, calls))
    decreases |calls|
  {
    hide Inv;
    if calls != [] {
      StepKeepsInv(s, calls[0]);
      RunKeepsInv(Step(s, calls[0]).0, calls[1..]);
    }
  }

  /** In every run from initialisation in which UDP send is used only on bound sockets,
      the table is sound, and a socket it does not know is refused without effect. */
  lemma EveryRun(calls: seq<Call>, socket: nat)
    requires SendsAreBound(Initial(), calls)
    ensures
      var s := Run(Initial(), calls);
      && Inv(s)
      && (!Bound(s.table, socket) ==>
            && Step(s, TcpSend(socket)) == (s, Refused) && Step(s, Receive(socket)) == (s, Refused)
            && Step(s, TcpDisconnect(socket)) == (s, Refused) && Step(s, UdpUnbind(socket)) == (s, Refused))
  {
    NoneValid(SLOTS);
    RunKeepsInv(Initial(), calls);
    var s := Run(Initial(), calls);
    FindFacts(s.table, socket, true);
    if i: nat :| Find(s.table, socket, true) == Some(i) {
      FreeIsUnconnected(s, i);
    }
  }

  /** After one stray UDP send, a TCP send or receive on any other socket the table does
      not know goes through, to the slot the stray send connected. */
  lemma StrayLetsOthersThrough(s: State, c: Call, other: nat)
    requires Inv(s) && Stray(s.table, c) && !Bound(s.table, other)
    ensures var s1 := Step(s, c).0;
      FirstFree(s.table, 0).Some? && Lookup(s1, other) == Through(FirstFree(s.table, 0).value)
  {
    FindFacts(s.table, c.socket, true);
    var i := FirstFree(s.table, 0).value;
    FreeIsUnconnected(s, i);
    var s1 := Step(s, c).0;
    assert s1 == Connected(s, i);
    assert !Bound(s1.table, other);
    FindFacts(s1.table, other, true);
  }

  lemma FoundAt(t: Table, i: nat, socket: nat)
    requires i < SLOTS && t[i].valid && t[i].socket == socket
    requires forall j :: 0 <= j < SLOTS && j != i ==> !(t[j].valid && t[j].socket == socket)
    ensures Find(t, socket, true) == Some(i)
  {
  }

  /** The two shortest cases: right after the bind the unbind is refused and the slot stays
      taken; after one accepted send it undoes the bind. */
  lemma UnbindNeedsConnection(s: State, socket: nat)
    requires Inv(s) && !Bound(s.table, socket) && !Full(s.table)
    ensures
      var s1 := Step(s, UdpBind(socket)).0;
      && Step(s1, UdpUnbind(socket)) == (s1, Refused)
      && Step(Step(s1, UdpSend(socket, true)).0, UdpUnbind(socket)) == (s, Done)
  {
    hide FirstBound, Find;
    FindFacts(s.table, socket, false);
    var i := FirstFree(s.table, 0).value;
    hide FirstFree;
    var s1 := Step(s, UdpBind(socket)).0;
    FoundAt(s1.table, i, socket);
    var s2 := Step(s1, UdpSend(socket, true)).0;
    FoundAt(s2.table, i, socket);
    assert s2.table[i := EMPTY] == s.table;
  }

  /** Unbinding a bound socket is carried out exactly if its slot is connected. */
  lemma UnbindExactly(s: State, socket: nat)
    requires Inv(s) && Bound(s.table, socket)
    ensures var slot := FirstBound(s.table, socket, 0);
      slot.Some? && (Step(s, UdpUnbind(socket)).1 == Done <==> s.table[slot.value].connected)
  {
    FindFacts(s.table, socket, true);
  }

  // ---------- the life of a socket ----------

  /** What the table knows of a socket: nothing, a slot, or a slot with a connection. */
  datatype View = Unknown | Closed | Open

  function ViewOf(t: Table, socket: nat): View {
    match FirstBound(t, socket, 0)
    case None => Unknown
    case Some(i) => if t[i].connected then Open else Closed
  }

  /** What a call on a socket makes of it. */
  function Seen(v: View, full: bool, c: Call): View {
    match c
    case TcpConnect(_, accepted) => if v == Unknown && !full && accepted then Open else v
    case UdpBind(_) => if v == Unknown && !full then Closed else v
    case UdpSend(_, accepted) => if v == Closed then (if accepted then Open else Unknown) else v
    case TcpDisconnect(_) => if v == Open then Unknown else v
    case UdpUnbind(_) => if v == Open then Unknown else v
    case _ => v
  }

  lemma ViewAt(t: Table, i: nat, socket: nat)
    requires i < SLOTS && t[i].valid && t[i].socket == socket
    requires forall j :: 0 <= j < SLOTS && j != i ==> !(t[j].valid && t[j].socket == socket)
    ensures ViewOf(t, socket) == if t[i].connected then Open else Closed
  {
  }

  lemma {:induction false} SearchSkips(t: Table, i: nat, e: Entry, socket: nat, from: nat)
    requires i < SLOTS && from <= SLOTS
    requires t[i].valid ==> t[i].socket != socket
    requires e.valid ==> e.socket != socket
    ensures FirstBound(t[i := e], socket, from) == FirstBound(t, socket, from)
    decreases SLOTS - from
  {
    if from < SLOTS {
      SearchSkips(t, i, e, socket, from + 1);
    }
  }

  /** A slot that is not the socket's may change without the socket noticing. */
  lemma ViewSkips(t: Table, i: nat, e: Entry, socket: nat)
    requires i < SLOTS
    requires t[i].valid ==> t[i].socket != socket
    requires e.valid ==> e.socket != socket
    ensures ViewOf(t[i := e], socket) == ViewOf(t, socket)
  {
    SearchSkips(t, i, e, socket, 0);
  }

  /** A call does to its own socket what `Seen` says, and nothing to any other. */
  lemma StepView(s: State, c: Call, socket: nat)
    requires Inv(s) && !Stray(s.table, c)
    ensures ViewOf(Step(s, c).0.table, socket) ==
      if c.socket == socket then Seen(ViewOf(s.table, socket), Full(s.table), c) else ViewOf(s.table, socket)
  {
    if c.socket == socket {
      OwnView(s, c);
    } else {
      OtherView(s, c, socket);
    }
  }

  lemma ViewGone(t: Table, socket: nat)
    requires forall j :: 0 <= j < SLOTS ==> !(t[j].valid && t[j].socket == socket)
    ensures ViewOf(t, socket) == Unknown
  {
  }

  lemma KnownIsBound(t: Table, socket: nat)
    ensures ViewOf(t, socket) != Unknown <==> Bound(t, socket)
  {
  }

  /** A socket in slot `i` stays there alone, or leaves it. */
  lemma ViewAfter(t: Table, i: nat, e: Entry, socket: nat)
    requires i < SLOTS && forall j :: 0 <= j < SLOTS && j != i ==> !(t[j].valid && t[j].socket == socket)
    requires e == EMPTY || (e.valid && e.socket == socket)
    ensures ViewOf(t[i := e], socket) == if e == EMPTY then Unknown else if e.connected then Open else Closed
  {
    hide ViewOf;
    if e == EMPTY {
      ViewGone(t[i := e], socket);
    } else {
      ViewAt(t[i := e], i, socket);
    }
  }

  lemma OnlyOne(s: State, i: nat, socket: nat)
    requires Inv(s) && i < SLOTS && (s.table[i].valid ==> s.table[i].socket == socket)
    requires Bound(s.table, socket) ==> s.table[i].valid
    ensures forall j :: 0 <= j < SLOTS && j != i ==> !(s.table[j].valid && s.table[j].socket == socket)
    ensures ViewOf(s.table, socket) ==
      if !s.table[i].valid then Unknown else if s.table[i].connected then Open else Closed
  {
    hide ViewOf, CountValid;
    if s.table[i].valid {
      ViewAt(s.table, i, socket);
    } else {
      ViewGone(s.table, socket);
    }
  }

  lemma FindIsOwn(s: State, socket: nat, find: bool)
    requires Inv(s)
    ensures var r := Find(s.table, socket, find);
      r.Some? ==>
        && (s.table[r.value].valid ==> s.table[r.value].socket == socket)
        && (Bound(s.table, socket) ==> s.table[r.value].valid)
        && (s.table[r.value].connected ==> s.table[r.value].valid)
  {
  }

  lemma OwnView(s: State, c: Call)
    requires Inv(s) && !Stray(s.table, c)
    ensures ViewOf(Step(s, c).0.table, c.socket) == Seen(ViewOf(s.table, c.socket), Full(s.table), c)
  {
    hide FirstBound, FirstFree, Find, CountValid, ViewOf, Inv;
    var t, socket := s.table, c.socket;
    var find := !c.TcpConnect? && !c.UdpBind?;
    FindFacts(t, socket, find);
    FindIsOwn(s, socket, find);
    KnownIsBound(t, socket);
    if i: nat :| Find(t, socket, find) == Some(i) {
      OnlyOne(s, i, socket);
      var e := Entry(socket, true, c.UdpBind?, false);
      if find {
        ViewAfter(t, i, EMPTY, socket);
        if t[i].valid {
          ViewAfter(t, i, t[i].(connected := true), socket);
        }
      } else {
        assert t[i := e][i := EMPTY] == t[i := EMPTY];
        assert t[i := e][i := e.(connected := true)] == t[i := e.(connected := true)];
        ViewAfter(t, i, EMPTY, socket);
        ViewAfter(t, i, e, socket);
        ViewAfter(t, i, e.(connected := true), socket);
      }
    }
  }

  /** The search of a call reports a free slot or the one of its own socket. */
  lemma FoundIsOwn(t: Table, socket: nat, find: bool)
    ensures var r := Find(t, socket, find); r.Some? && t[r.value].valid ==> t[r.value].socket == socket
  {
  }

  lemma OtherView(s: State, c: Call, socket: nat)
    requires Inv(s) && !Stray(s.table, c) && c.socket != socket
    ensures ViewOf(Step(s, c).0.table, socket) == ViewOf(s.table, socket)
  {
    hide Inv, Find, ViewOf;
    var find := !c.TcpConnect? && !c.UdpBind?;
    FoundIsOwn(s.table, c.socket, find);
    if i: nat :| Find(s.table, c.socket, find) == Some(i) {
      var claimed := Entry(c.socket, true, c.UdpBind?, false);
      ViewSkips(s.table, i, EMPTY, socket);
      ViewSkips(s.table, i, claimed, socket);
      ViewSkips(s.table, i, claimed.(connected := true), socket);
      assert s.table[i := claimed][i := EMPTY] == s.table[i := EMPTY];
      assert s.table[i := claimed][i := claimed.(connected := true)] == s.table[i := claimed.(connected := true)];
      ViewSkips(s.table, i, s.table[i].(connected := true), socket);
    }
  }

  /** What a call on a socket answers, given what the table knows of it. */
  function Answer(t: Table, v: View, c: Call): Outcome {
    match c
    case TcpConnect(_, accepted) => if v == Unknown && !Full(t) && accepted then Done else Refused
    case UdpBind(_) => if v == Unknown && !Full(t) then Done else Refused
    case TcpDisconnect(_) => if v == Open then Done else Refused
    case UdpUnbind(_) => if v == Open then Done else Refused
    case TcpSend(socket) => if v == Open then BoundSlot(t, socket) else Refused
    case Receive(socket) => if v == Open then BoundSlot(t, socket) else Refused
    case UdpSend(socket, accepted) =>
      if v == Open || (v == Closed && accepted) then BoundSlot(t, socket)
      else if v == Unknown && !Full(t) && accepted then Through(FirstFree(t, 0).value)
      else Refused
  }

  /** Through to the slot that holds the socket. */
  function BoundSlot(t: Table, socket: nat): Outcome {
    match FirstBound(t, socket, 0)
    case None => Refused
    case Some(i) => Through(i)
  }

  /** Every call answers exactly that: a known socket with a connection is let through to its own
      slot, whichever protocol it was opened for, and no other socket is, but for a stray send. */
  lemma StepAnswers(s: State, c: Call)
    requires Inv(s)
    ensures Step(s, c).1 == Answer(s.table, ViewOf(s.table, c.socket), c)
  {
    hide CountValid;
    FindFacts(s.table, c.socket, !c.TcpConnect? && !c.UdpBind?);
    KnownIsBound(s.table, c.socket);
    if i: nat :| FirstFree(s.table, 0) == Some(i) {
      FreeIsUnconnected(s, i);
    }
  }

  /** A connect and a bind take the first free slot, and leave the others alone. */
  lemma ClaimTakesFirstFree(s: State, c: Call)
    requires Inv(s) && (c.TcpConnect? || c.UdpBind?) && Step(s, c).1 == Done
    ensures
      var slot := FirstFree(s.table, 0);
      && slot.Some?
      && Step(s, c).0.table == s.table[slot.value := Entry(c.socket, true, c.UdpBind?, c.TcpConnect?)]
  {
    hide CountValid;
    FindFacts(s.table, c.socket, false);
  }

  /** The socket is bound at every point of the run. */
  predicate StaysBound(s: State, calls: seq<Call>, socket: nat)
    decreases |calls|
  {
    Bound(s.table, socket) && (calls == [] || StaysBound(Step(s, calls[0]).0, calls[1..], socket))
  }

  lemma {:induction false} OpenIfSent(s: State, calls: seq<Call>, socket: nat)
    requires Inv(s) && SendsAreBound(s, calls) && StaysBound(s, calls, socket)
    ensures ViewOf(Run(s, calls).table, socket) ==
      if ViewOf(s.table, socket) == Open || UdpSend(socket, true) in calls then Open else Closed
    decreases |calls|
  {
    hide Inv;
    FindFacts(s.table, socket, true);
    if calls != [] {
      StepKeepsInv(s, calls[0]);
      StepView(s, calls[0], socket);
      OpenIfSent(Step(s, calls[0]).0, calls[1..], socket);
    }
  }

  /** In every run from a bind on, while the socket stays bound: its unbind is carried out
      exactly if a send on it was accepted. */
  lemma UnbindAfterRun(s: State, calls: seq<Call>, socket: nat)
    requires Inv(s) && !Bound(s.table, socket) && !Full(s.table)
    requires var s1 := Step(s, UdpBind(socket)).0; SendsAreBound(s1, calls) && StaysBound(s1, calls, socket)
    ensures
      var s2 := Run(Step(s, UdpBind(socket)).0, calls);
      Step(s2, UdpUnbind(socket)).1 == Done <==> UdpSend(socket, true) in calls
  {
    hide Inv;
    var s1 := Step(s, UdpBind(socket)).0;
    StepKeepsInv(s, UdpBind(socket));
    StepView(s, UdpBind(socket), socket);
    FindFacts(s.table, socket, true);
    RunKeepsInv(s1, calls);
    OpenIfSent(s1, calls, socket);
    UnbindExactly(Run(s1, calls), socket);
  }

  lemma {:induction false} LiveAreValid(t: Table, i: nat, j: nat)
    requires i <= j <= SLOTS
    ensures CountLive(t, i) <= CountValid(t, i) <= CountValid(t, j)
    ensures forall k :: i <= k < j && t[k].valid ==> CountValid(t, i) < CountValid(t, j)
  {
    if i < j {
      LiveAreValid(t, i, j - 1);
    } else if i != 0 {
      LiveAreValid(t, i - 1, i - 1);
    }
  }

  /** The poll's early exit: once it has met as many live slots as the counter says,
      no live slot is left. */
  lemma EarlyExitSkipsNothing(s: State, i: nat)
    requires s.counter == CountValid(s.table, SLOTS) && i <= SLOTS && s.counter <= CountLive(s.table, i)
    ensures forall j :: i <= j < SLOTS ==> !Live(s.table[j])
  {
    LiveAreValid(s.table, i, SLOTS);
  }
}
