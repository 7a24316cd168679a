/** Any sequence of polls and receives: what is fetched from the module for a socket is handed
    to the application in order, but for what a receive loses; and no later call touches a
    packet that was handed over. */
module WifiServe {
  import opened Octets
  import opened Options
  import opened PacketAppend
  import opened Packets
  import opened WifiTable
  import opened WifiQueue
  import opened WifiStore
  import opened Wifi

  /** One round of the poll thread, or one receive call of the application on any socket. */
  datatype Service = Polling(rounds: seq<seq<Reply>>) | Receiving(socket: nat, wait: nat, replies: seq<Reply>)

  predicate Possible(s: Service) {
    s.Polling? ==> |s.rounds| == SLOTS && forall i :: 0 <= i < SLOTS ==> Fit(s.rounds[i])
  }

  /** Whether a service is a receive that the table lets through to slot `i`. */
  predicate Own(s: State, service: Service, i: nat) {
    service.Receiving? && Lookup(s, service.socket) == Through(i)
  }

  /** What a service comes to for one slot: whether it is a receive on the slot, and its result;
      how many replies it takes from the module for the slot, and the data of the good ones. */
  datatype Log = Log(own: bool, receipt: Receipt, used: nat, read: seq<seq<byte>>)

  /** The first replies, all good, and possibly a last one that is not. */
  predicate Fetched(replies: seq<Reply>, used: nat, read: seq<seq<byte>>) {
    var n := |read|;
    && n <= |replies| && read == Datas(replies[..n])
    && (forall k :: 0 <= k < n ==> replies[k].ok && replies[k].data != [])
    && (used == n || (used == n + 1 && used <= |replies| && (!replies[n].ok || replies[n].data == [])))
  }

  /** What a service does to the queue of slot `i`, chain by chain. */
  predicate Serviced(s: Service, i: nat, log: Log, queue: seq<seq<byte>>, after: seq<seq<byte>>)
    requires Possible(s) && i < SLOTS
  {
    match s
    case Polling(rounds) =>
      && !log.own && log.receipt == Nothing
      && Fetched(rounds[i], log.used, log.read) && after == queue + log.read
    case Receiving(_, wait, replies) =>
      if !log.own then log.used == 0 && log.read == [] && after == queue
      else if queue != [] then
        log.receipt.Handed? && log.used == 0 && log.read == [] && after == queue[1..]
      else
        var first := Await(Milliseconds(wait), replies);
        && log.used == first.1 && after == []
        && if first.0 == None then log.read == [] && log.receipt == Nothing
           else log.read == [first.0.value] && log.receipt != Nothing
  }

  /** What a service hands to the application: the front of the queue, or what it read. */
  function Given(log: Log, queue: seq<seq<byte>>): seq<seq<byte>> {
    if !log.own || !log.receipt.Handed? then [] else if queue != [] then [queue[0]] else log.read
  }

  /** What was read and not lost by a receive that failed. */
  function Kept(log: Log): seq<seq<byte>> {
    if log.own && log.receipt == Failed then [] else log.read
  }

  /** One service loses nothing else and keeps the order. */
  lemma NothingElseLost(s: Service, i: nat, log: Log, queue: seq<seq<byte>>, after: seq<seq<byte>>)
    requires Possible(s) && i < SLOTS && Serviced(s, i, log, queue, after)
    ensures Given(log, queue) + after == queue + Kept(log)
  {
    hide Await, Fetched;
  }

  /** The packets handed over on the slot, and all that was read and not lost, in order. */
  function HandedOver(logs: seq<Log>): seq<Packet> {
    if logs == [] then []
    else
      var last := logs[|logs| - 1];
      HandedOver(logs[..|logs| - 1]) + if last.own && last.receipt.Handed? then [last.receipt.packet] else []
  }

  function AllKept(logs: seq<Log>): seq<seq<byte>> {
    if logs == [] then [] else AllKept(logs[..|logs| - 1]) + Kept(logs[|logs| - 1])
  }

  lemma OneMoreLog(logs: seq<Log>, log: Log)
    ensures AllKept(logs + [log]) == AllKept(logs) + Kept(log)
    ensures HandedOver(logs + [log]) ==
      HandedOver(logs) + if log.own && log.receipt.Handed? then [log.receipt.packet] else []
  {
    assert (logs + [log])[..|logs|] == logs;
  }

  /** The chains queued for a slot, front to back. */
  ghost function Queue(slot: Slot): seq<seq<byte>>
    reads slot
  {
    Contents(slot.load.items)
  }

  /** The application holds the packets of `taken`: they are in use and in no queue. */
  ghost predicate Holding(driver: Driver, taken: Load)
    requires |driver.slots| == SLOTS
    reads driver.slots, taken.packets, BuffersOf(taken.packets)
  {
    && taken.Sound() && taken.packets <= driver.arena
    && forall j :: 0 <= j < SLOTS ==> driver.slots[j].load.packets !! taken.packets
  }

  lemma WithinArena(driver: Driver)
    requires driver.Valid()
    ensures SetOf(driver.pool.free) <= driver.arena && Buffers(driver.pool.free) <= BuffersOf(driver.arena)
    ensures driver.Queued() <= driver.arena
  {
    hide Slot.Valid, Pool.Valid;
    forall i, p | 0 <= i < SLOTS && p in driver.slots[i].load.packets
      ensures p in driver.arena
    {
      assert driver.SlotValid(i);
    }
  }

  /** What the application holds is out of the driver's reach. */
  lemma OutOfReach(driver: Driver, taken: Load)
    requires driver.Valid() && Holding(driver, taken)
    ensures forall p :: p in taken.packets ==>
      p !in driver.pool.free && p.data !in Buffers(driver.pool.free) && p !in driver.Queued()
    ensures driver.Queued() + SetOf(driver.pool.free) !! taken.packets
  {
    hide Slot.Valid, Pool.Valid, Separate, Item.Holds;
    forall p | p in taken.packets
      ensures p !in driver.pool.free && p.data !in Buffers(driver.pool.free)
    {
      driver.pool.NotFree(p);
    }
  }

  lemma StillHolding(driver: Driver, taken: Load, all: set<Packet>)
    requires driver.Valid() && taken.Sound() && taken.packets <= driver.arena
    requires driver.QueuedWithin(all) && all !! taken.packets
    ensures Holding(driver, taken)
  {
    hide Load.Sound, Driver.Sound;
  }

  lemma PollIsServiced(driver: Driver, i: nat, service: Service, used: nat, n: nat, was: Snap)
    requires i < |driver.slots| && i < SLOTS && service.Polling? && Possible(service)
    requires driver.Polled(i, service.rounds[i], used, n, was)
    ensures n <= |service.rounds[i]|
    ensures Serviced(service, i, Log(false, Nothing, used, Datas(service.rounds[i][..n])), Contents(was.load.items),
      Queue(driver.slots[i]))
  {
  }

  /** One round of the poll thread. */
  method ServePoll(driver: Driver, i: nat, service: Service, ghost taken: Load) returns (ghost log: Log)
    requires driver.Valid() && i < SLOTS && driver.LiveAt(i) && Possible(service) && service.Polling?
    requires Holding(driver, taken)
    modifies driver.slots, driver.pool, driver.arena, BuffersOf(driver.arena)
    ensures driver.Valid() && driver.Abs() == old(driver.Abs()) && driver.LiveAt(i)
    ensures Holding(driver, taken)
    ensures !log.own && log.receipt == Nothing
    ensures Serviced(service, i, log, old(Queue(driver.slots[i])), Queue(driver.slots[i]))
  {
    hide Driver.Sound, Driver.Polled, Driver.QueuedWithin, Load.Sound, CountValid, Serviced, Contents, Datas;
    WithinArena(driver);
    OutOfReach(driver, taken);
    ghost var was := SnapOf(driver.slots[i]);
    ghost var all := driver.Queued() + SetOf(driver.pool.free);
    var used;
    ghost var stored;
    used, stored := driver.Poll(service.rounds);
    PollIsServiced(driver, i, service, used[i], stored[i], was);
    log := Log(false, Nothing, used[i], Datas(service.rounds[i][..stored[i]]));
    SoundStill(taken);
    StillHolding(driver, taken, all);
  }

  /** The data of the good reply that a receive reads, if it reads one. */
  function ReadNow(queue: seq<seq<byte>>, wait: nat, replies: seq<Reply>): seq<seq<byte>> {
    var read := Await(Milliseconds(wait), replies).0;
    if queue != [] || read == None then [] else [read.value]
  }

  lemma ReceiveIsServiced(driver: Driver, i: nat, service: Service, was: Snap, free: seq<Packet>, r: Receipt, used: nat,
    chain: seq<Packet>, bytes: seq<byte>)
    requires i < |driver.slots| && i < SLOTS && service.Receiving?
    requires driver.Received(i, was, service.wait, service.replies, free, r, used, chain, bytes)
    ensures
      var queue := Contents(was.load.items);
      var log := Log(true, r, used, ReadNow(queue, service.wait, service.replies));
      && Serviced(service, i, log, queue, Queue(driver.slots[i]))
      && (r.Handed? ==> Given(log, queue) == [bytes] && Item(r.packet, chain, bytes, driver.pool).Holds())
  {
    hide Await, Item.Holds;
  }

  /** Where the packets that a receive hands over come from, and what it leaves queued. */
  lemma ReceiveMoves(driver: Driver, i: nat, was: Snap, wait: nat, replies: seq<Reply>, free: seq<Packet>, r: Receipt,
    used: nat, chain: seq<Packet>, bytes: seq<byte>)
    requires i < |driver.slots| && driver.Received(i, was, wait, replies, free, r, used, chain, bytes)
    ensures driver.slots[i].load.packets <= was.load.packets
    ensures r.Handed? ==>
      if was.load.items != [] then
        chain == was.load.items[0].chain && driver.slots[i].load.packets !! SetOf(chain)
      else
        driver.slots[i].load == was.load && SetOf(chain) <= SetOf(free)
  {
    hide Await, Item.Holds;
  }

  /** The front chain of a queue is in no other queue, and no free packet is queued. */
  lemma FrontIsOwn(driver: Driver, i: nat)
    requires driver.Valid() && i < SLOTS
    ensures driver.slots[i].load.items != [] ==>
      SetOf(driver.slots[i].load.items[0].chain) <= driver.slots[i].load.packets
    ensures forall j :: 0 <= j < SLOTS && j != i ==> driver.slots[j].load.packets !! driver.slots[i].load.packets
    ensures forall j :: 0 <= j < SLOTS ==> driver.slots[j].load.packets !! SetOf(driver.pool.free)
  {
    hide Slot.Valid, Pool.Valid;
    driver.ApartFor(i);
    assert driver.SlotValid(i);
    FrontIsIn(driver.slots[i]);
  }

  lemma FrontIsIn(slot: Slot)
    requires slot.Valid()
    ensures slot.load.items != [] ==> SetOf(slot.load.items[0].chain) <= slot.load.packets
  {
    hide Separate, Item.Holds;
  }

  /** The application takes one more chain. */
  lemma TakesOver(driver: Driver, taken: Load, item: Item)
    requires |driver.slots| == SLOTS && Holding(driver, taken) && item.Holds()
    requires SetOf(item.chain) <= driver.arena && SetOf(item.chain) !! taken.packets
    requires forall j :: 0 <= j < SLOTS ==> driver.slots[j].load.packets !! SetOf(item.chain)
    ensures Holding(driver, Load(taken.items + [item], taken.packets + SetOf(item.chain)))
    ensures Heads(taken.items + [item]) == Heads(taken.items) + [item.head]
    ensures Contents(taken.items + [item]) == Contents(taken.items) + [item.bytes]
  {
    hide Load.Sound, Item.Holds;
    AddItem(taken, item);
  }

  /** What a service adds to what the application holds. */
  ghost predicate Added(now: Load, taken: Load, log: Log, queue: seq<seq<byte>>) {
    && Heads(now.items) == Heads(taken.items) + (if log.own && log.receipt.Handed? then [log.receipt.packet] else [])
    && Contents(now.items) == Contents(taken.items) + Given(log, queue)
  }

  lemma AddedNone(taken: Load, log: Log, queue: seq<seq<byte>>)
    requires !log.own || !log.receipt.Handed?
    ensures Added(taken, taken, log, queue)
  {
  }

  /** A receive call that goes through to slot `i`. */
  method ServeOwn(driver: Driver, i: nat, service: Service, ghost taken: Load)
    returns (r: Receipt, ghost log: Log, ghost now: Load)
    requires driver.Valid() && i < SLOTS && driver.LiveAt(i) && Own(driver.Abs(), service, i)
    requires Holding(driver, taken)
    modifies driver.slots, driver.pool, driver.arena, BuffersOf(driver.arena)
    ensures driver.Valid() && driver.Abs() == old(driver.Abs()) && driver.LiveAt(i)
    ensures Holding(driver, now) && Added(now, taken, log, old(Queue(driver.slots[i])))
    ensures log.own && log.receipt == r
    ensures Serviced(service, i, log, old(Queue(driver.slots[i])), Queue(driver.slots[i]))
  {
    hide Driver.Sound, Driver.Received, Load.Sound, Item.Holds, CountValid, Serviced, Contents, Heads, Await, Given;
    WithinArena(driver);
    OutOfReach(driver, taken);
    FrontIsOwn(driver, i);
    ghost var was, free := SnapOf(driver.slots[i]), driver.pool.free;
    var used;
    ghost var chain, bytes;
    r, used, chain, bytes := driver.Receive(service.socket, service.wait, service.replies);
    ReceiveIsServiced(driver, i, service, was, free, r, used, chain, bytes);
    ReceiveMoves(driver, i, was, service.wait, service.replies, free, r, used, chain, bytes);
    log := Log(true, r, used, ReadNow(Contents(was.load.items), service.wait, service.replies));
    SoundStill(taken);
    now := taken;
    if r.Handed? {
      ghost var item := Item(r.packet, chain, bytes, driver.pool);
      TakesOver(driver, taken, item);
      now := Load(taken.items + [item], taken.packets + SetOf(chain));
    } else {
      AddedNone(taken, log, Contents(was.load.items));
    }
  }

  /** A receive call that does not. */
  method ServeOther(driver: Driver, i: nat, service: Service, ghost taken: Load) returns (r: Receipt)
    requires driver.Valid() && i < SLOTS && driver.LiveAt(i) && service.Receiving? && !Own(driver.Abs(), service, i)
    requires Holding(driver, taken)
    modifies driver.slots, driver.pool, driver.arena, BuffersOf(driver.arena)
    ensures driver.Valid() && driver.Abs() == old(driver.Abs()) && driver.LiveAt(i)
    ensures Holding(driver, taken) && Queue(driver.slots[i]) == old(Queue(driver.slots[i]))
  {
    hide Driver.Sound, Driver.Received, Load.Sound, CountValid, Contents, Await, Find;
    WithinArena(driver);
    OutOfReach(driver, taken);
    var used;
    ghost var chain, bytes;
    ghost var was, free := driver.Snaps(), driver.pool.free;
    r, used, chain, bytes := driver.Receive(service.socket, service.wait, service.replies);
    ghost var o := Lookup(driver.Abs(), service.socket);
    if o.Through? {
      ReceiveMoves(driver, o.slot, was[o.slot], service.wait, service.replies, free, r, used, chain, bytes);
    }
    SoundStill(taken);
  }

  /** Carries out one service. */
  method ServeOne(driver: Driver, i: nat, service: Service, ghost taken: Load)
    returns (r: Receipt, ghost log: Log, ghost now: Load)
    requires driver.Valid() && i < SLOTS && driver.LiveAt(i) && Possible(service)
    requires Holding(driver, taken)
    modifies driver.slots, driver.pool, driver.arena, BuffersOf(driver.arena)
    ensures driver.Valid() && driver.Abs() == old(driver.Abs()) && driver.LiveAt(i)
    ensures Holding(driver, now) && Added(now, taken, log, old(Queue(driver.slots[i])))
    ensures log.own == Own(old(driver.Abs()), service, i) && log.receipt == r
    ensures Serviced(service, i, log, old(Queue(driver.slots[i])), Queue(driver.slots[i]))
  {
    hide Driver.Sound, Holding, CountValid, Driver.Tab, Queue, Lookup, Added, Fetched;
    now := taken;
    if service.Polling? {
      log := ServePoll(driver, i, service, taken);
      r := Nothing;
      AddedNone(taken, log, old(Queue(driver.slots[i])));
    } else if Own(driver.Abs(), service, i) {
      r, log, now := ServeOwn(driver, i, service, taken);
    } else {
      r := ServeOther(driver, i, service, taken);
      log := Log(false, r, 0, []);
      AddedNone(taken, log, old(Queue(driver.slots[i])));
    }
  }

  /** The run so far: the queue before and after every service, and what the application took. */
  ghost predicate Served(state: State, i: nat, services: seq<Service>, logs: seq<Log>, receipts: seq<Receipt>,
    queues: seq<seq<seq<byte>>>, taken: Load)
    requires i < SLOTS && forall k :: 0 <= k < |services| ==> Possible(services[k])
  {
    && |logs| == |receipts| <= |services| && |queues| == |logs| + 1
    && (forall k :: 0 <= k < |logs| ==>
          && logs[k].receipt == receipts[k] && logs[k].own == Own(state, services[k], i)
          && Serviced(services[k], i, logs[k], queues[k], queues[k + 1]))
    && Heads(taken.items) == HandedOver(logs)
    && Contents(taken.items) + queues[|logs|] == queues[0] + AllKept(logs)
  }

  lemma ServedNone(state: State, i: nat, services: seq<Service>, queue: seq<seq<byte>>)
    requires i < SLOTS && forall k :: 0 <= k < |services| ==> Possible(services[k])
    ensures Served(state, i, services, [], [], [queue], Load([], {}))
  {
    assert Contents([]) == [] && Heads([]) == [];
    assert [] + queue == queue + [];
  }

  lemma ServedMore(state: State, i: nat, services: seq<Service>, logs: seq<Log>, receipts: seq<Receipt>,
    queues: seq<seq<seq<byte>>>, taken: Load, log: Log, queue: seq<seq<byte>>, now: Load)
    requires i < SLOTS && forall k :: 0 <= k < |services| ==> Possible(services[k])
    requires Served(state, i, services, logs, receipts, queues, taken) && |logs| < |services|
    requires log.own == Own(state, services[|logs|], i) && Added(now, taken, log, queues[|logs|])
    requires Serviced(services[|logs|], i, log, queues[|logs|], queue)
    ensures Served(state, i, services, logs + [log], receipts + [log.receipt], queues + [queue], now)
  {
    hide Possible, Serviced, Heads, Contents, Own, HandedOver, AllKept, Given, Kept;
    OneMoreLog(logs, log);
    var last := queues[|logs|];
    NothingElseLost(services[|logs|], i, log, last, queue);
    Regrouped(Contents(taken.items), Given(log, last), queue, last, queues[0], AllKept(logs), Kept(log));
  }

  lemma Regrouped(a: seq<seq<byte>>, given: seq<seq<byte>>, after: seq<seq<byte>>, before: seq<seq<byte>>,
    start: seq<seq<byte>>, kept: seq<seq<byte>>, more: seq<seq<byte>>)
    requires given + after == before + more && a + before == start + kept
    ensures a + given + after == start + (kept + more)
  {
    assert a + given + after == a + (given + after);
    assert a + (before + more) == a + before + more;
    assert start + kept + more == start + (kept + more);
  }

  /** Carries out any polls and receives in any order.  Chain by chain, what the application is
      handed on slot `i`, followed by what is queued in the end, is what was queued before,
      followed by what was read and not lost by a receive that failed.  At the end every chain
      that was handed over is still whole, carries those bytes, and shares no packet with
      another one, with a queue or with the available list. */
  method Serve(driver: Driver, i: nat, services: seq<Service>)
    returns (receipts: seq<Receipt>, ghost logs: seq<Log>, ghost queues: seq<seq<seq<byte>>>, ghost taken: Load)
    requires driver.Valid() && i < SLOTS && driver.LiveAt(i)
    requires forall k :: 0 <= k < |services| ==> Possible(services[k])
    modifies driver.slots, driver.pool, driver.arena, BuffersOf(driver.arena)
    ensures driver.Valid() && driver.Abs() == old(driver.Abs())
    ensures |receipts| == |services| && Served(old(driver.Abs()), i, services, logs, receipts, queues, taken)
    ensures queues[0] == old(Queue(driver.slots[i])) && queues[|services|] == Queue(driver.slots[i])
    ensures Holding(driver, taken) && taken.packets !! SetOf(driver.pool.free)
  {
    hide Driver.Sound, CountValid, Driver.Tab, Possible, Serviced, Own, Queue, Holding, Served, Added;
    receipts, logs, queues, taken := [], [], [Queue(driver.slots[i])], Load([], {});
    ghost var state := driver.Abs();
    ServedNone(state, i, services, Queue(driver.slots[i]));
    HoldingNone(driver);
    while |receipts| < |services|
      invariant |logs| == |receipts| <= |services| && |queues| == |logs| + 1
      invariant driver.Valid() && driver.Abs() == state && driver.LiveAt(i)
      invariant Served(state, i, services, logs, receipts, queues, taken)
      invariant queues[0] == old(Queue(driver.slots[i])) && queues[|logs|] == Queue(driver.slots[i])
      invariant Holding(driver, taken)
    {
      var service := services[|receipts|];
      var r;
      ghost var log, now;
      r, log, now := ServeOne(driver, i, service, taken);
      ServedMore(state, i, services, logs, receipts, queues, taken, log, Queue(driver.slots[i]), now);
      receipts, logs, queues, taken := receipts + [r], logs + [log], queues + [Queue(driver.slots[i])], now;
    }
    OutOfReach(driver, taken);
  }

  lemma HoldingNone(driver: Driver)
    requires |driver.slots| == SLOTS
    ensures Holding(driver, Load([], {}))
  {
  }
}
