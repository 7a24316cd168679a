/** nx_wifi.c: the poll thread and the socket calls, on one packet pool and eight slots.
    One mutex guards all of them, so each call and each poll is one atomic step. */
module Wifi {
  import opened Octets
  import opened Segments
  import opened Sequences
  import opened Packets
  import opened PacketAppend
  import opened Options
  import opened WifiTable
  import opened WifiQueue
  import opened WifiStore
  import opened WifiSend

  /** The table as memset leaves it. */
  method ClearSlots(pool: Pool) returns (slots: seq<Slot>)
    ensures |slots| == SLOTS && Distinct(slots)
    ensures forall i :: 0 <= i < SLOTS ==> fresh(slots[i]) && slots[i].pool == pool && slots[i].Cleared()
  {
    slots := [];
    while |slots| < SLOTS
      invariant |slots| <= SLOTS && Distinct(slots)
      invariant forall i :: 0 <= i < |slots| ==> fresh(slots[i]) && slots[i].pool == pool && slots[i].Cleared()
    {
      var slot := new Slot(pool);
      slots := slots + [slot];
    }
  }

  /** A slot's fields at one moment. */
  datatype Snap = Snap(entry: Entry, head: Packet?, tail: Packet?, load: Load, received: seq<byte>,
    delivered: seq<byte>, intact: bool)

  ghost function SnapOf(slot: Slot): Snap
    reads slot
  {
    Snap(Entry(slot.socket, slot.valid, slot.udp, slot.connected), slot.head, slot.tail, slot.load,
      slot.received, slot.delivered, slot.intact)
  }

  /** What a receive call comes to: a packet, `NX_NO_PACKET`, or `NX_NOT_SUCCESSFUL`. */
  datatype Receipt = Handed(packet: Packet) | Nothing | Failed

  /** `NX_WAIT_FOREVER`, and the milliseconds in a tick at the default `NX_IP_PERIODIC_RATE`. */
  const FOREVER: nat := 0xFFFF_FFFF
  const TICK: nat := 10

  /** `nx_wifi_tick_convert_ms` */
  function Milliseconds(ticks: nat): nat {
    if ticks >= FOREVER / TICK then FOREVER else ticks * TICK
  }

  /** Ten times the ticks, but the highest value for all that does not fit 32 bits, and for the
      largest number of ticks that would. */
  lemma TicksSaturate(ticks: nat)
    ensures Milliseconds(ticks) ==
      if 10 * ticks > 0xFFFF_FFFF || ticks == 429_496_729 then 0xFFFF_FFFF else 10 * ticks
  {
  }

  /** What the wait loop of a receive reads, and how many replies it uses: it takes the time
      since its start off the wait, in milliseconds, after every read that brings nothing. */
  function Await(wait: nat, replies: seq<Reply>): (r: (Option<seq<byte>>, nat))
    ensures r.1 <= |replies|
    ensures r.0.Some? ==> r.1 != 0 && replies[r.1 - 1].Good() && r.0.value == replies[r.1 - 1].data
  {
    if wait == 0 || replies == [] then (None, 0)
    else if replies[0].Good() then (Some(replies[0].data), 1)
    else
      var elapsed := Milliseconds(replies[0].elapsed);
      var r := Await(if elapsed >= wait then 0 else wait - elapsed, replies[1..]);
      (r.0, r.1 + 1)
  }

  function TotalElapsed(replies: seq<Reply>): nat {
    if replies == [] then 0 else Milliseconds(replies[0].elapsed) + TotalElapsed(replies[1..])
  }

  /** The wait loop gets the first good reply exactly if the times of the reads before it,
      each counted from the start of the call, add up to less than the wait. */
  lemma {:induction false} AwaitExactly(wait: nat, replies: seq<Reply>, k: nat)
    requires wait != 0 && k < |replies| && replies[k].Good() && forall j :: 0 <= j < k ==> !replies[j].Good()
    ensures Await(wait, replies) == (Some(replies[k].data), k + 1) <==> TotalElapsed(replies[..k]) < wait
    ensures Await(wait, replies).0 == None <==> TotalElapsed(replies[..k]) >= wait
  {
    if k != 0 {
      assert replies[..k][1..] == replies[1..][..k - 1];
      if Milliseconds(replies[0].elapsed) < wait {
        AwaitExactly(wait - Milliseconds(replies[0].elapsed), replies[1..], k - 1);
      }
    }
  }

  /** What the wait loop reads, for any replies: nothing but the first reply that is good and
      brings data, which is the last one it uses. */
  lemma {:induction false} AwaitFirstGood(wait: nat, replies: seq<Reply>)
    ensures
      var (read, used) := Await(wait, replies);
      && (forall k :: 0 <= k < used - (if read == None then 0 else 1) ==> !replies[k].ok || replies[k].data == [])
      && (read != None ==>
            used != 0 && replies[used - 1].ok && read == Some(replies[used - 1].data) && read != Some([]))
  {
    hide Milliseconds;
    if wait != 0 && replies != [] && !replies[0].Good() {
      var elapsed := Milliseconds(replies[0].elapsed);
      AwaitFirstGood(if elapsed >= wait then 0 else wait - elapsed, replies[1..]);
    }
  }

  /** It reads on exactly while the times so far add up to less than the wait. */
  lemma {:induction false} AwaitWithin(wait: nat, replies: seq<Reply>, k: nat)
    requires k <= Await(wait, replies).1
    ensures k < Await(wait, replies).1 ==> TotalElapsed(replies[..k]) < wait
    ensures Await(wait, replies).0 == None && k == Await(wait, replies).1 < |replies| ==>
      wait <= TotalElapsed(replies[..k])
  {
    hide Milliseconds;
    if k != 0 && !replies[0].Good() {
      var elapsed := Milliseconds(replies[0].elapsed);
      assert replies[..k][1..] == replies[1..][..k - 1];
      AwaitWithin(if elapsed >= wait then 0 else wait - elapsed, replies[1..], k - 1);
    }
  }

  /** So data that arrives well within the wait can be missed. */
  lemma WaitEndsEarly(data: seq<byte>)
    requires data != []
    ensures Await(Milliseconds(30), [Reply(false, [], 10), Reply(false, [], 20), Reply(true, data, 25)]).0 == None
  {
    var replies := [Reply(false, [], 10), Reply(false, [], 20), Reply(true, data, 25)];
    assert TotalElapsed(replies[..2]) == 300 by {
      assert replies[..2] == [replies[0], replies[1]];
      assert replies[..2][1..] == [replies[1]];
      assert TotalElapsed([replies[1]]) == 200;
    }
    AwaitExactly(300, replies, 2);
  }

  /** The wait loop. */
  method WaitRead(wait: nat, replies: seq<Reply>) returns (read: Option<seq<byte>>, used: nat)
    ensures (read, used) == Await(wait, replies)
  {
    var total := wait;
    used, read := 0, None;
    while total != 0 && used < |replies|
      invariant used <= |replies| && read == None
      invariant Await(wait, replies) == var r := Await(total, replies[used..]); (r.0, r.1 + used)
      decreases |replies| - used
    {
      var reply := replies[used];
      assert replies[used..][1..] == replies[used + 1..];
      used := used + 1;
      if !reply.Good() {
        var millisecond := Milliseconds(reply.elapsed);
        if millisecond >= total {
          total := 0;
        } else {
          total := total - millisecond;
        }
        continue;
      } else {
        read := Some(reply.data);
        break;
      }
    }
  }

  class Driver {
    const pool: Pool
    const slots: seq<Slot>
    var counter: int
    ghost const arena: set<Packet>   // every packet there is

    function Tab(): Table
      requires |slots| == SLOTS
      reads slots
    {
      seq(SLOTS, i requires 0 <= i < SLOTS reads slots =>
        Entry(slots[i].socket, slots[i].valid, slots[i].udp, slots[i].connected))
    }

    ghost predicate SlotValid(i: nat)
      requires i < |slots|
      reads slots[i], slots[i].load.packets, BuffersOf(slots[i].load.packets)
    {
      slots[i].Valid() && slots[i].pool == pool && slots[i].load.packets <= arena
    }

    /** Slots, pool and queues are sound, and no packet is in two queues; the marks say that
        none is both queued and free. */
    ghost predicate Sound()
      requires |slots| == SLOTS
      reads *
    {
      && pool.Valid() && Apart(arena) && (forall i :: 0 <= i < |pool.free| ==> pool.free[i] in arena)
      && (forall i :: 0 <= i < SLOTS ==> SlotValid(i))
      && forall i, j :: 0 <= i < j < SLOTS ==> slots[i].load.packets !! slots[j].load.packets
    }

    ghost predicate SlotsDiffer()
    {
      |slots| == SLOTS && Distinct(slots)
    }

    ghost predicate Valid()
      reads *
    {
      SlotsDiffer() && Sound() && counter == CountValid(Tab(), SLOTS)
    }

    /** `nx_wifi_initialize` */
    constructor (pool: Pool, ghost arena: set<Packet>)
      requires pool.Valid() && Apart(arena) && forall i :: 0 <= i < |pool.free| ==> pool.free[i] in arena
      ensures Valid() && this.pool == pool && State(Tab(), counter) == Initial()
    {
      var cleared := ClearSlots(pool);
      slots := cleared;
      this.pool, this.arena := pool, arena;
      counter := 0;
      new;
      hide Slot.Valid, Pool.Valid, Apart, Slot.Cleared, Sound;
      StartsValid();
    }

    lemma StartsValid()
      requires |slots| == SLOTS && Distinct(slots)
      requires forall i :: 0 <= i < SLOTS ==> slots[i].pool == pool && slots[i].Cleared()
      requires pool.Valid() && Apart(arena) && counter == 0
      requires forall i :: 0 <= i < |pool.free| ==> pool.free[i] in arena
      ensures Valid() && Tab() == Initial().table
    {
      hide Slot.Valid, Pool.Valid, Apart;
      assert Tab() == Initial().table;
      NoneValid(SLOTS);
      forall i | 0 <= i < SLOTS
        ensures SlotValid(i)
      {
        slots[i].ClearedIsValid();
      }
    }

    lemma ApartFor(i: nat)
      requires SlotsDiffer() && Sound() && i < SLOTS
      ensures Apart(SetOf(pool.free) + slots[i].load.packets)
      ensures forall j :: 0 <= j < SLOTS ==> slots[j].load.packets !! SetOf(pool.free)
      ensures forall j, p :: 0 <= j < SLOTS && j != i && p in slots[j].load.packets ==>
        p !in slots[i].load.packets && p !in pool.free && p.data !in Buffers(pool.free)
    {
      hide Slot.Valid, Pool.Valid;
      assert SlotValid(i);
      ApartSubset(SetOf(pool.free) + slots[i].load.packets, arena);
      forall j | 0 <= j < SLOTS
        ensures slots[j].load.packets !! SetOf(pool.free)
        ensures forall p :: p in slots[j].load.packets ==> p !in pool.free && p.data !in Buffers(pool.free)
      {
        assert SlotValid(j);
        QueuedIsNotFree(slots[j], pool);
        ApartSubset(SetOf(pool.free) + slots[j].load.packets, arena);
        BuffersApart(pool.free, slots[j].load.packets);
      }
    }

    /** The poll's work on one slot. */
    method PollSlot(i: nat, replies: seq<Reply>) returns (used: nat, ghost n: nat)
      requires Valid() && i < SLOTS && LiveAt(i) && Fit(replies)
      modifies slots[i], pool, pool.free, Buffers(pool.free), slots[i].load.packets
      ensures Valid() && SameEntry(slots[i]) && n <= used <= |replies|
      ensures Contents(slots[i].load.items) == Contents(old(slots[i].load.items)) + Datas(replies[..n])
      ensures slots[i].received == old(slots[i].received) + Flatten(Datas(replies[..n]))
      ensures if n == 0 then pool.free == old(pool.free) else |pool.free| >= RESERVED
      ensures |pool.free| <= |old(pool.free)| && forall k :: 0 <= k < |pool.free| ==> pool.free[k] in old(pool.free)
      ensures forall p :: p in slots[i].load.packets ==> p in old(slots[i].load.packets) || p in old(pool.free)
      ensures forall k :: 0 <= k < n ==> replies[k].Good()
      ensures !Spare(|pool.free|, pool.payloadSize) || n == |replies| || !replies[n].Good()
      ensures used == n || (used == n + 1 && !replies[n].Good())
    {
      hide Slot.Valid, Pool.Valid, Apart, Spare, Flatten, Contents, Datas, CountValid;
      ApartFor(i);
      assert SlotValid(i);
      ghost var slot, was, free := slots[i], slots[i].load, pool.free;
      ghost var taken;
      used, n, taken := ReadSlot(slots[i], pool, replies);
      StoredWithin(slot, pool, replies, n, taken, was, free, old(slot.received));
      forall j | 0 <= j < SLOTS
        ensures SlotValid(j)
      {
        if j != i {
          assert old(SlotValid(j));
          SlotStill(slots[j]);
        }
      }
      assert Tab() == old(Tab());
    }

    /** Every packet in one of the queues. */
    ghost function Queued(): set<Packet>
      requires |slots| == SLOTS
      reads slots
    {
      set i, p | 0 <= i < SLOTS && p in slots[i].load.packets :: p
    }

    /** No queue has a packet from outside `all`. */
    ghost predicate QueuedWithin(all: set<Packet>)
      requires |slots| == SLOTS
      reads slots
    {
      forall i, p :: 0 <= i < SLOTS && p in slots[i].load.packets ==> p in all
    }

    lemma QueuedFirst(all: set<Packet>)
      requires |slots| == SLOTS && Queued() <= all
      ensures QueuedWithin(all)
    {
      assert forall i, p :: 0 <= i < SLOTS && p in slots[i].load.packets ==> p in Queued();
    }

    predicate LiveAt(i: nat)
      requires i < |slots|
      reads slots[i]
    {
      slots[i].valid && slots[i].connected
    }

    /** What the poll makes of slot `i`, which was `was`: the first `n` replies, all good,
        are queued in order, and it stopped for want of space or of a further good reply. */
    ghost predicate Polled(i: nat, replies: seq<Reply>, used: nat, n: nat, was: Snap)
      requires i < |slots|
      reads slots[i], pool
    {
      var now := SnapOf(slots[i]);
      && now.entry == was.entry && now.delivered == was.delivered && now.intact == was.intact
      && n <= |replies| && (forall k :: 0 <= k < n ==> replies[k].ok && replies[k].data != [])
      && Contents(now.load.items) == Contents(was.load.items) + Datas(replies[..n])
      && now.received == was.received + Flatten(Datas(replies[..n]))
      && (!Spare(|pool.free|, pool.payloadSize) || n == |replies| || !replies[n].ok || replies[n].data == [])
      && (used == n || (used == n + 1 && used <= |replies| && (!replies[n].ok || replies[n].data == [])))
    }

    /** Slot `j` once the poll has gone through the first `i` slots. */
    ghost predicate PolledTo(j: nat, i: nat, replies: seq<Reply>, used: nat, n: nat, was: Snap)
      requires j < |slots|
      reads slots[j], pool
    {
      if j < i && LiveAt(j) then Polled(j, replies, used, n, was)
      else SnapOf(slots[j]) == was && used == n == 0
    }

    ghost predicate Progress(i: nat, replies: seq<seq<Reply>>, used: seq<nat>, stored: seq<nat>, was: seq<Snap>)
      requires |slots| == |replies| == |used| == |stored| == |was| == SLOTS
      reads slots, pool
    {
      forall j :: 0 <= j < SLOTS ==> PolledTo(j, i, replies[j], used[j], stored[j], was[j])
    }

    lemma SpareDown(a: nat, b: nat, payload: nat)
      requires a <= b && Spare(a, payload)
      ensures Spare(b, payload)
    {
      RoomGrows(a - 1, b - 1, payload);
    }

    /** One live slot's turn. */
    method PollNext(i: nat, ghost replies: seq<seq<Reply>>, answers: seq<Reply>, used: seq<nat>,
      ghost stored: seq<nat>, ghost was: seq<Snap>, ghost all: set<Packet>)
      returns (nowUsed: seq<nat>, ghost nowStored: seq<nat>)
      requires Valid() && |replies| == |used| == |stored| == |was| == SLOTS && Progress(i, replies, used, stored, was)
      requires i < SLOTS && LiveAt(i) && answers == replies[i] && Fit(answers)
      requires QueuedWithin(all) && forall k :: 0 <= k < |pool.free| ==> pool.free[k] in all
      modifies slots[i], pool, pool.free, Buffers(pool.free), slots[i].load.packets
      ensures Valid() && |nowUsed| == |nowStored| == SLOTS && Progress(i + 1, replies, nowUsed, nowStored, was)
      ensures Tab() == old(Tab()) && QueuedWithin(all)
      ensures pool.free == old(pool.free) || |pool.free| >= RESERVED
      ensures |pool.free| <= |old(pool.free)| && forall k :: 0 <= k < |pool.free| ==> pool.free[k] in old(pool.free)
    {
      hide Slot.Valid, Pool.Valid, Apart, Spare, Flatten, Contents, Datas, Sound;
      var u;
      ghost var n;
      u, n := PollSlot(i, answers);
      nowUsed, nowStored := used[i := u], stored[i := n];
      forall j | 0 <= j < SLOTS
        ensures PolledTo(j, i + 1, replies[j], nowUsed[j], nowStored[j], was[j])
      {
        assert old(PolledTo(j, i, replies[j], used[j], stored[j], was[j]));
        if Spare(|pool.free|, pool.payloadSize) {
          SpareDown(|pool.free|, |old(pool.free)|, pool.payloadSize);
        }
      }
    }

    /** One round of `nx_wifi_thread_entry`: every live slot is polled, in spite of the early
        exit, and no other slot is touched. */
    method Poll(replies: seq<seq<Reply>>) returns (used: seq<nat>, ghost stored: seq<nat>)
      requires Valid() && |replies| == SLOTS && forall i :: 0 <= i < SLOTS ==> Fit(replies[i])
      modifies slots, pool, pool.free, Buffers(pool.free), Queued()
      ensures Valid() && Tab() == old(Tab()) && |used| == |stored| == SLOTS
      ensures forall i :: 0 <= i < SLOTS && LiveAt(i) ==>
        Polled(i, replies[i], used[i], stored[i], old(SnapOf(slots[i])))
      ensures forall i :: 0 <= i < SLOTS && !LiveAt(i) ==>
        SnapOf(slots[i]) == old(SnapOf(slots[i])) && used[i] == stored[i] == 0
      ensures pool.free == old(pool.free) || |pool.free| >= RESERVED
      ensures forall k :: 0 <= k < |pool.free| ==> pool.free[k] in old(pool.free)
      ensures QueuedWithin(old(Queued() + SetOf(pool.free)))
    {
      hide Polled, Sound, Progress, Queued, QueuedWithin, Snaps, Tab, CountLive;
      ghost var was := Snaps();
      ghost var all := Queued() + SetOf(pool.free);
      QueuedFirst(all);
      SnapsQueued();
      used, stored := seq(SLOTS, _ => 0), seq(SLOTS, _ => 0);
      var i: nat := 0;
      var socketCounter: nat := 0;
      TabLive();
      NoProgress(replies, used);
      if counter != 0 {
        while i < SLOTS && socketCounter < counter
          invariant i <= SLOTS && Valid() && Tab() == old(Tab()) && |used| == |stored| == SLOTS
          invariant socketCounter == CountLive(Tab(), i)
          invariant Progress(i, replies, used, stored, was)
          invariant pool.free == old(pool.free) || |pool.free| >= RESERVED
          invariant forall k :: 0 <= k < |pool.free| ==> pool.free[k] in old(pool.free)
          invariant QueuedWithin(all)
          decreases SLOTS - i
        {
          TabLive();
          if !slots[i].valid || !slots[i].connected {
            SkipOne(i, replies, used, stored, was);
          } else {
            socketCounter := socketCounter + 1;
            NotYet(i, replies, used, stored, was);
            BuffersWithin(pool.free, old(pool.free));
            used, stored := PollNext(i, replies, replies[i], used, stored, was, all);
          }
          i := i + 1;
        }
      }
      if i < SLOTS {
        EarlyExitSkipsNothing(State(Tab(), counter), i);
      }
      TabLive();
      AllPolled(i, replies, used, stored, was);
    }

    ghost function Snaps(): (was: seq<Snap>)
      requires |slots| == SLOTS
      reads slots
      ensures |was| == SLOTS && forall i :: 0 <= i < SLOTS ==> was[i] == SnapOf(slots[i])
    {
      seq(SLOTS, i requires 0 <= i < SLOTS reads slots => SnapOf(slots[i]))
    }

    lemma SnapsQueued()
      requires |slots| == SLOTS
      ensures forall i, p :: 0 <= i < SLOTS && p in Snaps()[i].load.packets ==> p in Queued()
    {
    }

    lemma TabLive()
      requires |slots| == SLOTS
      ensures forall i :: 0 <= i < SLOTS ==> LiveAt(i) == Live(Tab()[i])
      ensures CountLive(Tab(), 0) == 0
      ensures forall i :: 0 <= i < SLOTS ==>
        CountLive(Tab(), i + 1) == CountLive(Tab(), i) + if LiveAt(i) then 1 else 0
    {
    }

    lemma BuffersWithin(ps: seq<Packet>, qs: seq<Packet>)
      requires forall k :: 0 <= k < |ps| ==> ps[k] in qs
      ensures Buffers(ps) <= Buffers(qs)
    {
    }

    lemma NoProgress(replies: seq<seq<Reply>>, none: seq<nat>)
      requires |slots| == |replies| == |none| == SLOTS && forall i :: 0 <= i < SLOTS ==> none[i] == 0
      ensures Progress(0, replies, none, none, Snaps())
    {
    }

    lemma AllPolled(i: nat, replies: seq<seq<Reply>>, used: seq<nat>, stored: seq<nat>, was: seq<Snap>)
      requires |slots| == |replies| == |used| == |stored| == |was| == SLOTS && i <= SLOTS
      requires Progress(i, replies, used, stored, was) && forall j :: i <= j < SLOTS ==> !LiveAt(j)
      ensures forall j :: 0 <= j < SLOTS && LiveAt(j) ==> Polled(j, replies[j], used[j], stored[j], was[j])
      ensures forall j :: 0 <= j < SLOTS && !LiveAt(j) ==>
        SnapOf(slots[j]) == was[j] && used[j] == stored[j] == 0
    {
      hide Polled;
      forall j | 0 <= j < SLOTS
        ensures if LiveAt(j) then Polled(j, replies[j], used[j], stored[j], was[j])
                else SnapOf(slots[j]) == was[j] && used[j] == stored[j] == 0
      {
        assert PolledTo(j, i, replies[j], used[j], stored[j], was[j]);
      }
    }

    lemma SkipOne(i: nat, replies: seq<seq<Reply>>, used: seq<nat>, stored: seq<nat>, was: seq<Snap>)
      requires |slots| == |replies| == |used| == |stored| == |was| == SLOTS
      requires i < SLOTS && !LiveAt(i) && Progress(i, replies, used, stored, was)
      ensures Progress(i + 1, replies, used, stored, was)
    {
      forall j | 0 <= j < SLOTS
        ensures PolledTo(j, i + 1, replies[j], used[j], stored[j], was[j])
      {
        assert PolledTo(j, i, replies[j], used[j], stored[j], was[j]);
      }
    }

    lemma NotYet(i: nat, replies: seq<seq<Reply>>, used: seq<nat>, stored: seq<nat>, was: seq<Snap>)
      requires |slots| == |replies| == |used| == |stored| == |was| == SLOTS && i < SLOTS
      requires Progress(i, replies, used, stored, was)
      ensures slots[i].load == was[i].load
    {
      assert PolledTo(i, i, replies[i], used[i], stored[i], was[i]);
    }

    /** `nx_wifi_socket_entry_find` */
    method EntryFind(socket: nat, find: bool) returns (r: Option<nat>)
      requires |slots| == SLOTS
      ensures r == Find(Tab(), socket, find)
    {
      var emptyIndex: nat := SLOTS;
      var i: nat := 0;
      while i < SLOTS
        invariant i <= SLOTS && FirstBound(Tab(), socket, 0) == FirstBound(Tab(), socket, i)
        invariant emptyIndex == SLOTS || emptyIndex < i
        invariant FirstFree(Tab(), 0) == if emptyIndex < SLOTS then Some(emptyIndex) else FirstFree(Tab(), i)
      {
        if slots[i].valid {
          if slots[i].socket == socket {
            if find {
              return Some(i);
            } else {
              return None;
            }
          }
        } else {
          if emptyIndex > i {
            emptyIndex := i;
          }
        }
        i := i + 1;
      }
      if emptyIndex >= SLOTS {
        return None;
      }
      return Some(emptyIndex);
    }

    /** The table and counter as one value. */
    function Abs(): State
      requires |slots| == SLOTS
      reads this, slots
    {
      State(Tab(), counter)
    }

    /** Empties slot `i`, if it is valid. */
    method ClearAt(i: nat)
      requires SlotsDiffer() && Sound() && i < SLOTS
      modifies slots[i], pool, slots[i].load.packets
      ensures Sound()
      ensures Tab() == if old(slots[i].valid) then old(Tab())[i := EMPTY] else old(Tab())
      ensures slots[i].load == if old(slots[i].valid) then Load([], {}) else old(slots[i].load)
      ensures pool.free ==
        (if old(slots[i].valid) then Flushed(old(slots[i].load.items)) else []) + old(pool.free)
    {
      hide Slot.Valid, Pool.Valid, Apart, Flushed;
      assert SlotValid(i);
      ApartFor(i);
      FlushedWithin(slots[i]);
      slots[i].Clear(pool);
      forall j | 0 <= j < SLOTS
        ensures SlotValid(j)
      {
        if j != i {
          assert old(SlotValid(j));
          SlotStill(slots[j]);
        }
      }
    }

    /** Sound memory does not depend on the counter. */
    twostate lemma SoundStill()
      requires SlotsDiffer() && old(Sound()) && unchanged(pool) && old(allocated(pool))
      requires forall i :: 0 <= i < |pool.free| ==> unchanged(pool.free[i])
      requires forall i :: 0 <= i < SLOTS ==> unchanged(slots[i])
      requires forall i, p :: 0 <= i < SLOTS && p in slots[i].load.packets ==>
        SameButLink(p) && p.queueNext == old(p.queueNext)
      ensures Sound()
    {
      hide Slot.Valid, Apart;
      forall i | 0 <= i < SLOTS
        ensures SlotValid(i)
      {
        assert old(SlotValid(i));
        SlotStill(slots[i]);
      }
    }

    /** `nx_wifi_socket_reset` */
    method ResetSlot(i: nat)
      requires Valid() && i < SLOTS
      modifies `counter, slots[i], pool, slots[i].load.packets
      ensures Valid() && Abs() == Reset(old(Abs()), i)
      ensures slots[i].load == if old(slots[i].valid) then Load([], {}) else old(slots[i].load)
      ensures pool.free ==
        (if old(slots[i].valid) then Flushed(old(slots[i].load.items)) else []) + old(pool.free)
    {
      hide Sound, CountValid, Flushed;
      var was := slots[i].valid;
      ClearAt(i);
      if was {
        label cleared:
        counter := counter - 1;
        SoundStill@cleared();
      }
      CountUpdate(old(Tab()), i, EMPTY, SLOTS);
    }

    /** No slot but possibly one has changed in any field. */
    twostate predicate OthersSame(except: Option<nat>)
      requires |slots| == SLOTS
      reads slots
    {
      forall j :: 0 <= j < SLOTS && except != Some(j) ==> SnapOf(slots[j]) == old(SnapOf(slots[j]))
    }

    /** Takes free slot `i` for a socket. */
    method Claim(i: nat, socket: nat, udp: bool)
      requires Valid() && i < SLOTS && !slots[i].valid
      modifies `counter, slots[i]
      ensures Valid() && Abs() == State(old(Tab())[i := Entry(socket, true, udp, false)], old(counter) + 1)
      ensures slots[i].load == Load([], {})
    {
      hide Slot.Valid, Pool.Valid, Apart, CountValid;
      assert SlotValid(i);
      slots[i].Claim(socket, udp);
      label claimed:
      counter := counter + 1;
      CountUpdate(old(Tab()), i, Entry(socket, true, udp, false), SLOTS);
      assert Tab() == old(Tab())[i := Entry(socket, true, udp, false)];
      forall j | 0 <= j < SLOTS
        ensures SlotValid(j)
      {
        if j != i {
          assert old(SlotValid(j));
          SlotStill(slots[j]);
        } else {
          SlotStill@claimed(slots[j]);
        }
      }
    }

    method SetConnected(i: nat)
      requires Valid() && i < SLOTS
      modifies slots[i]
      ensures Valid() && Abs() == Connected(old(Abs()), i)
      ensures SnapOf(slots[i]) == old(SnapOf(slots[i])).(entry := Tab()[i])
    {
      hide Slot.Valid, Pool.Valid, Apart, CountValid;
      assert SlotValid(i);
      slots[i].SetConnected();
      CountUpdate(old(Tab()), i, old(Tab())[i].(connected := true), SLOTS);
      assert Tab() == old(Tab())[i := old(Tab())[i].(connected := true)];
      forall j | 0 <= j < SLOTS
        ensures SlotValid(j)
      {
        if j != i {
          assert old(SlotValid(j));
          SlotStill(slots[j]);
        }
      }
    }

    /** What becomes of slot `i`, whose queue is empty, when the module is asked to open its
        connection. */
    method Open(i: nat, accepted: bool)
      requires Valid() && i < SLOTS && slots[i].load == Load([], {})
      modifies `counter, slots[i], pool
      ensures Valid() && Abs() == if accepted then Connected(old(Abs()), i) else Reset(old(Abs()), i)
      ensures slots[i].load == Load([], {}) && pool.free == old(pool.free)
    {
      hide Sound, CountValid;
      if accepted {
        SetConnected(i);
      } else {
        ResetSlot(i);
      }
    }

    /** `nx_wifi_tcp_client_socket_connect`, given whether the module opens the connection. */
    method TcpConnect(socket: nat, accepted: bool) returns (o: Outcome)
      requires Valid()
      modifies this, slots, pool
      ensures Valid() && (Abs(), o) == Step(old(Abs()), WifiTable.Call.TcpConnect(socket, accepted))
      ensures OthersSame(FirstFree(old(Tab()), 0)) && pool.free == old(pool.free)
    {
      hide Sound, CountValid, FirstBound, FirstFree;
      var found := EntryFind(socket, false);
      if found == None {
        return Refused;
      }
      var i := found.value;
      Claim(i, socket, false);
      Open(i, accepted);
      o := if accepted then Done else Refused;
    }

    /** `nx_wifi_udp_socket_bind` */
    method UdpBind(socket: nat) returns (o: Outcome)
      requires Valid()
      modifies this, slots
      ensures Valid() && (Abs(), o) == Step(old(Abs()), WifiTable.Call.UdpBind(socket))
      ensures OthersSame(FirstFree(old(Tab()), 0))
    {
      hide Sound, CountValid;
      var found := EntryFind(socket, false);
      if found == None {
        return Refused;
      }
      Claim(found.value, socket, true);
      o := Done;
    }

    /** `nx_wifi_tcp_socket_disconnect` and `nx_wifi_udp_socket_unbind` */
    method Close(socket: nat) returns (o: Outcome, ghost slot: nat)
      requires Valid()
      modifies this, slots, pool, Queued()
      ensures slot < SLOTS && Valid() && (Abs(), o) == CloseStep(old(Abs()), socket)
      ensures OthersSame(Find(old(Tab()), socket, true))
      ensures o == Refused ==> unchanged(pool) && OthersSame(None)
      ensures o == Done ==>
        Find(old(Tab()), socket, true) == Some(slot) &&
        pool.free == (if old(slots[slot].valid) then Flushed(old(slots[slot].load.items)) else []) + old(pool.free)
    {
      hide Sound, CountValid, FirstBound, FirstFree, Flushed;
      slot := 0;
      var found := EntryFind(socket, true);
      if found == None {
        return Refused, slot;
      }
      var i := found.value;
      slot := i;
      if !slots[i].connected {
        return Refused, slot;
      }
      ResetSlot(i);
      o := Done;
    }

    /** Takes the first packet chain off slot `i`'s queue. */
    method DequeueAt(i: nat) returns (packet: Packet, ghost item: Item)
      requires Valid() && i < SLOTS && slots[i].head != null
      modifies slots[i]
      ensures Valid() && OthersSame(Some(i)) && Tab() == old(Tab())
      ensures old(slots[i].load.items) != [] && item == old(slots[i].load.items)[0]
      ensures packet == item.head && item.Holds() && item.pool == pool
      ensures SnapOf(slots[i]) == old(SnapOf(slots[i])).(head := slots[i].head, tail := slots[i].tail,
        load := Load(old(slots[i].load.items)[1..], old(slots[i].load.packets) - SetOf(item.chain)),
        delivered := old(slots[i].delivered) + item.bytes)
    {
      hide Slot.Valid, Pool.Valid, Apart, CountValid, Item.Holds;
      assert SlotValid(i);
      packet, item := slots[i].Dequeue();
      assert Tab() == old(Tab());
      forall j | 0 <= j < SLOTS
        ensures SlotValid(j)
      {
        if j != i {
          assert old(SlotValid(j));
          SlotStill(slots[j]);
        }
      }
    }

    /** Stores data beside the queues: no slot is touched. */
    method StoreAside(data: seq<byte>) returns (status: Status, packet: Packet?, ghost chain: seq<Packet>)
      requires Valid()
      modifies pool, pool.free, Buffers(pool.free)
      ensures Valid() && (status == Success || status == NoPacket)
      ensures status == Success <==>
        old(pool.free) != [] && Room(|old(pool.free)|, pool.payloadSize) >= |data|
      ensures status != Success ==> pool.free == Unstored(old(pool.free))
      ensures status == Success ==>
        && packet != null && Item(packet, chain, data, pool).Holds() && |chain| <= |old(pool.free)|
        && chain == old(pool.free)[..|chain|] && pool.free == old(pool.free)[|chain|..]
    {
      hide Slot.Valid, Pool.Valid, Apart, CountValid, Item.Holds, Room, Unstored;
      ghost var free := pool.free;
      UnstoredWithin(free);
      ApartFor(0);
      ApartSubset(SetOf(free), SetOf(free) + slots[0].load.packets);
      forall i | 0 <= i < SLOTS
        ensures forall p :: p in slots[i].load.packets ==> p !in free && p.data !in Buffers(free)
      {
        ApartFor(i);
        BuffersApart(free, slots[i].load.packets);
      }
      status, packet, chain := Store(pool, data);
      assert forall k :: 0 <= k < |pool.free| ==> pool.free[k] in free;
      forall j | 0 <= j < SLOTS
        ensures SlotValid(j)
      {
        assert old(SlotValid(j));
        SlotStill(slots[j]);
      }
    }

    /** Books data that was read while slot `i`'s queue is empty. */
    ghost method AccountAt(i: nat, data: seq<byte>, kept: bool)
      requires Valid() && i < SLOTS && slots[i].load.items == []
      modifies slots[i]
      ensures Valid() && OthersSame(Some(i)) && Tab() == old(Tab())
      ensures slots[i].load == old(slots[i].load) && slots[i].received == old(slots[i].received) + data
      ensures
        if kept then slots[i].delivered == old(slots[i].delivered) + data && slots[i].intact == old(slots[i].intact)
        else slots[i].delivered == old(slots[i].delivered) && !slots[i].intact
    {
      hide Slot.Valid, Pool.Valid, Apart, CountValid;
      assert SlotValid(i);
      slots[i].Account(data, kept);
      assert Tab() == old(Tab());
      forall j | 0 <= j < SLOTS
        ensures SlotValid(j)
      {
        if j != i {
          assert old(SlotValid(j));
          SlotStill(slots[j]);
        }
      }
    }

    /** Data that was read while slot `i`'s queue is empty: handed on in packets of the pool,
        or lost if the pool is too small. */
    method HandOn(i: nat, data: seq<byte>) returns (r: Receipt, ghost chain: seq<Packet>)
      requires Valid() && i < SLOTS && slots[i].load.items == []
      modifies slots[i], pool, pool.free, Buffers(pool.free)
      ensures Valid() && OthersSame(Some(i)) && Tab() == old(Tab())
      ensures slots[i].load == old(slots[i].load) && slots[i].received == old(slots[i].received) + data
      ensures r == Failed <==> old(pool.free) == [] || Room(|old(pool.free)|, pool.payloadSize) < |data|
      ensures r == Failed ==> pool.free == Unstored(old(pool.free))
      ensures r == Failed ==> slots[i].delivered == old(slots[i].delivered) && !slots[i].intact
      ensures r != Failed ==>
        && r.Handed? && Item(r.packet, chain, data, pool).Holds()
        && |chain| <= |old(pool.free)| && chain == old(pool.free)[..|chain|] && pool.free == old(pool.free)[|chain|..]
        && slots[i].delivered == old(slots[i].delivered) + data && slots[i].intact == old(slots[i].intact)
    {
      hide Sound, CountValid, Item.Holds, Room, Unstored;
      var status, packet;
      status, packet, chain := StoreAside(data);
      label stored:
      AccountAt(i, data, status == Success);
      r := Failed;
      if status == Success {
        HoldsStill@stored(Item(packet, chain, data, pool));
        r := Handed(packet);
      }
    }

    /** What `nx_wifi_socket_receive` does on slot `i`, which was `was`: the front of the
        queue is handed over; if there is none, the first good read within the wait is, and no
        more than `used` replies are taken from the module.  The packet handed over heads
        `chain`, which carries `bytes`. */
    ghost predicate Received(i: nat, was: Snap, wait: nat, replies: seq<Reply>, free: seq<Packet>, r: Receipt,
      used: nat, chain: seq<Packet>, bytes: seq<byte>)
      requires i < |slots|
      reads slots[i], pool, chain, Buffers(chain)
    {
      var now, read := SnapOf(slots[i]), Await(Milliseconds(wait), replies).0;
      && used == (if was.load.items != [] then 0 else Await(Milliseconds(wait), replies).1)
      && (r.Handed? ==>
            && Item(r.packet, chain, bytes, pool).Holds()
            && now.delivered == was.delivered + bytes && now.intact == was.intact)
      && if was.load.items != [] then
           && r.Handed? && chain == was.load.items[0].chain && bytes == was.load.items[0].bytes
           && now.load == Load(was.load.items[1..], was.load.packets - SetOf(chain))
           && now.received == was.received && pool.free == free
         else if read == None then r == Nothing && now == was && pool.free == free
         else
           && now.load == was.load && now.received == was.received + read.value
           && if free == [] || Room(|free|, pool.payloadSize) < |read.value| then
                && r == Failed && now.delivered == was.delivered && !now.intact
                && pool.free == Unstored(free)
              else
                && r.Handed? && bytes == read.value && |chain| <= |free|
                && chain == free[..|chain|] && pool.free == free[|chain|..]
    }

    /** The part of a receive after the slot was found. */
    method ReceiveAt(i: nat, wait: nat, replies: seq<Reply>)
      returns (r: Receipt, used: nat, ghost chain: seq<Packet>, ghost bytes: seq<byte>)
      requires Valid() && i < SLOTS
      modifies slots[i], pool, pool.free, Buffers(pool.free)
      ensures Valid() && OthersSame(Some(i)) && Tab() == old(Tab())
      ensures Received(i, old(SnapOf(slots[i])), wait, replies, old(pool.free), r, used, chain, bytes)
    {
      hide Sound, CountValid, Item.Holds, Room, Await, Unstored;
      HeadOfQueue(i);
      used, chain, bytes := 0, [], [];
      if slots[i].head != null {
        var packet;
        ghost var item;
        packet, item := DequeueAt(i);
        chain, bytes := item.chain, item.bytes;
        r := Handed(packet);
      } else {
        var read;
        read, used := WaitRead(Milliseconds(wait), replies);
        if read == None {
          r := Nothing;
        } else {
          bytes := read.value;
          r, chain := HandOn(i, read.value);
        }
      }
    }

    /** `nx_wifi_socket_receive` */
    method Receive(socket: nat, wait: nat, replies: seq<Reply>)
      returns (r: Receipt, used: nat, ghost chain: seq<Packet>, ghost bytes: seq<byte>)
      requires Valid()
      modifies slots, pool, pool.free, Buffers(pool.free)
      ensures Valid() && Abs() == old(Abs())
      ensures Lookup(old(Abs()), socket) == Refused ==>
        r == Failed && used == 0 && OthersSame(None) && pool.free == old(pool.free)
      ensures Lookup(old(Abs()), socket).Through? ==>
        var i := Lookup(old(Abs()), socket).slot;
        && OthersSame(Some(i))
        && Received(i, old(SnapOf(slots[i])), wait, replies, old(pool.free), r, used, chain, bytes)
    {
      hide Sound, CountValid, Received, FirstBound, FirstFree;
      used, chain, bytes := 0, [], [];
      var found := EntryFind(socket, true);
      if found == None {
        return Failed, used, chain, bytes;
      }
      var i := found.value;
      if !slots[i].connected {
        return Failed, used, chain, bytes;
      }
      r, used, chain, bytes := ReceiveAt(i, wait, replies);
    }

    /** What holds of every slot after any calls in any order: the queue's ends agree, its
        packets are in use and in no other queue, and unless a read was lost for want of
        packets, what was delivered and what is queued is all that was read, in order. */
    lemma QueuesAreSound(i: nat, j: nat)
      requires Valid() && i < SLOTS && j < SLOTS && i != j
      ensures slots[i].head == null <==> slots[i].tail == null
      ensures slots[i].load.packets !! SetOf(pool.free) && slots[i].load.packets !! slots[j].load.packets
      ensures forall k :: 0 <= k < |slots[i].load.items| ==>
        slots[i].load.items[k].Holds() && SetOf(slots[i].load.items[k].chain) <= slots[i].load.packets
      ensures slots[i].intact ==>
        slots[i].received == slots[i].delivered + Flatten(Contents(slots[i].load.items))
    {
      assert SlotValid(i) && SlotValid(j);
      HeadOfQueue(i);
      QueuedIsNotFree(slots[i], pool);
    }

    lemma HeadOfQueue(i: nat)
      requires Valid() && i < SLOTS
      ensures slots[i].head == null <==> slots[i].load.items == []
      ensures slots[i].head == null <==> slots[i].tail == null
    {
      assert SlotValid(i);
    }

    /** What a caller hands to a send: a chain in use that no queue holds, whose packets belong
        to the pools `pools` with the available lists `before`. */
    ghost predicate Sendable(packet: Packet, chain: seq<Packet>, ss: seq<Segment>, pools: set<Pool>,
      before: map<Pool, seq<Packet>>)
      requires |slots| == SLOTS
      reads *
    {
      && chain != [] && packet == chain[0] && Linked(chain) && InUse(chain) && Segs(chain) == ss && AllOk(ss)
      && pool in pools && (forall q :: q in pools ==> q.Valid())
      && before.Keys == pools && (forall q :: q in pools ==> before[q] == q.free)
      && (forall i :: 0 <= i < |chain| ==> chain[i].owner in pools && (chain[i].owner == pool ==> chain[i] in arena))
      && forall i, j :: 0 <= i < |chain| && 0 <= j < SLOTS ==> chain[i] !in slots[j].load.packets
    }

    lemma PoolIsTheirs(packet: Packet, chain: seq<Packet>, ss: seq<Segment>, pools: set<Pool>,
      before: map<Pool, seq<Packet>>)
      requires |slots| == SLOTS && Sendable(packet, chain, ss, pools, before)
      ensures pool in pools
    {
    }

    /** Puts a chain that was sent back into its pools. */
    method ReleaseSent(packet: Packet, ghost chain: seq<Packet>, ghost ss: seq<Segment>, ghost pools: set<Pool>,
      ghost before: map<Pool, seq<Packet>>)
      requires Valid() && Sendable(packet, chain, ss, pools, before)
      modifies pools, chain
      ensures Valid() && Tab() == old(Tab()) && OthersSame(None) && Released(chain, |chain|, pools, before)
    {
      hide Slot.Valid, Pool.Valid, Apart, CountValid, Segs, Linked;
      var status;
      ghost var count;
      status, count := Release(packet, chain, pools, before);
      assert count == |chain|;
      ReturnedWithin(chain, |chain|, pool, before[pool]);
      assert pool.free == Returned(chain, |chain|, pool, before[pool]);
      assert Tab() == old(Tab());
      forall j | 0 <= j < SLOTS
        ensures SlotValid(j)
      {
        assert old(SlotValid(j));
        SlotStill(slots[j]);
      }
    }

    /** Hands a chain to the module; the chain is released if all of it was taken, and is left
        alone otherwise.  `out` is what the module was given, call by call. */
    method Transmit(packet: Packet, acks: seq<Ack>, ghost chain: seq<Packet>, ghost ss: seq<Segment>,
      ghost pools: set<Pool>, ghost before: map<Pool, seq<Packet>>)
      returns (ok: bool, out: seq<seq<byte>>)
      requires Valid() && Sendable(packet, chain, ss, pools, before)
      modifies pools, chain
      ensures Valid() && Tab() == old(Tab()) && OthersSame(None)
      ensures ok <==> Taken(ss, acks) == |ss|
      ensures |out| == if ok then |ss| else Taken(ss, acks) + 1
      ensures InOrder(out, ss) && Flatten(out) == Bytes(ss[..|out|])
      ensures ok ==> Released(chain, |chain|, pools, before)
      ensures !ok ==> Sendable(packet, chain, ss, pools, before)
    {
      hide Sound, CountValid, Segs, Linked, Flatten, Bytes, Taken, InOrder, Pool.Valid;
      ok, out := HandOut(packet, acks, chain, ss);
      if ok {
        ReleaseSent(packet, chain, ss, pools, before);
      }
    }

    /** `nx_wifi_tcp_socket_send` */
    method TcpSend(socket: nat, packet: Packet, acks: seq<Ack>, ghost chain: seq<Packet>, ghost ss: seq<Segment>,
      ghost pools: set<Pool>, ghost before: map<Pool, seq<Packet>>)
      returns (ok: bool, out: seq<seq<byte>>)
      requires Valid() && Sendable(packet, chain, ss, pools, before)
      modifies pools, chain
      ensures Valid() && Abs() == old(Abs()) && OthersSame(None)
      ensures Lookup(old(Abs()), socket) == Refused ==> !ok && out == []
      ensures Lookup(old(Abs()), socket) != Refused ==>
        && (ok <==> Taken(ss, acks) == |ss|)
        && |out| == (if ok then |ss| else Taken(ss, acks) + 1)
        && InOrder(out, ss) && Flatten(out) == Bytes(ss[..|out|])
      ensures if ok then Released(chain, |chain|, pools, before) else Sendable(packet, chain, ss, pools, before)
    {
      hide Sound, CountValid, FirstBound, FirstFree, Sendable, Released, Taken, Flatten, Bytes, InOrder;
      var found := EntryFind(socket, true);
      if found == None {
        return false, [];
      }
      if !slots[found.value].connected {
        return false, [];
      }
      ok, out := Transmit(packet, acks, chain, ss, pools, before);
    }

    /** Opening a connection leaves what is about to be sent alone. */
    method ConnectFor(i: nat, ghost packet: Packet, ghost chain: seq<Packet>, ghost ss: seq<Segment>,
      ghost pools: set<Pool>, ghost before: map<Pool, seq<Packet>>)
      requires Valid() && i < SLOTS && Sendable(packet, chain, ss, pools, before)
      modifies slots[i]
      ensures Valid() && Abs() == Connected(old(Abs()), i) && Sendable(packet, chain, ss, pools, before)
    {
      hide Sound, CountValid;
      SetConnected(i);
    }

    /** So does giving up a slot that has no connection, for its queue is empty. */
    method ResetFor(i: nat, ghost packet: Packet, ghost chain: seq<Packet>, ghost ss: seq<Segment>,
      ghost pools: set<Pool>, ghost before: map<Pool, seq<Packet>>)
      requires Valid() && i < SLOTS && !slots[i].connected && Sendable(packet, chain, ss, pools, before)
      modifies `counter, slots[i], pool
      ensures Valid() && Abs() == Reset(old(Abs()), i) && Sendable(packet, chain, ss, pools, before)
    {
      hide Sound, CountValid, Flushed, Pool.Valid, Segs, Linked, InUse;
      NothingQueued(i);
      ResetSlot(i);
      PoolIsSound();
      SegsSame(chain);
    }

    lemma PoolIsSound()
      requires Valid()
      ensures pool.Valid()
    {
    }

    lemma NothingQueued(i: nat)
      requires Valid() && i < SLOTS && !slots[i].connected
      ensures slots[i].load == Load([], {}) && Flushed(slots[i].load.items) + pool.free == [] + pool.free == pool.free
    {
      assert SlotValid(i);
    }

    /** The first part of a UDP send: the slot is found, and connected if it is not yet. */
    method FindForSend(socket: nat, accepted: bool, ghost packet: Packet, ghost chain: seq<Packet>,
      ghost ss: seq<Segment>, ghost pools: set<Pool>, ghost before: map<Pool, seq<Packet>>)
      returns (through: bool)
      requires Valid() && Sendable(packet, chain, ss, pools, before)
      modifies this, slots, pool
      ensures Valid() && OthersSame(Find(old(Tab()), socket, true))
      ensures Abs() == UdpSendStep(old(Abs()), socket, accepted).0
      ensures through <==> UdpSendStep(old(Abs()), socket, accepted).1 != Refused
      ensures Sendable(packet, chain, ss, pools, before)
    {
      hide Sound, CountValid, FirstBound, FirstFree, Sendable;
      var found := EntryFind(socket, true);
      if found == None {
        return false;
      }
      var i := found.value;
      through := true;
      if !slots[i].connected {
        if !accepted {
          ResetFor(i, packet, chain, ss, pools, before);
          through := false;
        } else {
          ConnectFor(i, packet, chain, ss, pools, before);
        }
      }
    }

    /** `nx_wifi_udp_socket_send`, given whether the module opens the connection if need be. */
    method UdpSend(socket: nat, accepted: bool, packet: Packet, acks: seq<Ack>, ghost chain: seq<Packet>,
      ghost ss: seq<Segment>, ghost pools: set<Pool>, ghost before: map<Pool, seq<Packet>>)
      returns (ok: bool, out: seq<seq<byte>>)
      requires Valid() && Sendable(packet, chain, ss, pools, before)
      modifies this, slots, pools, chain
      ensures Valid() && OthersSame(Find(old(Tab()), socket, true))
      ensures Abs() == UdpSendStep(old(Abs()), socket, accepted).0
      ensures UdpSendStep(old(Abs()), socket, accepted).1 == Refused ==> !ok && out == []
      ensures UdpSendStep(old(Abs()), socket, accepted).1 != Refused ==>
        && (ok <==> Taken(ss, acks) == |ss|)
        && |out| == (if ok then |ss| else Taken(ss, acks) + 1)
        && InOrder(out, ss) && Flatten(out) == Bytes(ss[..|out|])
      ensures if ok then Released(chain, |chain|, pools, before) else Sendable(packet, chain, ss, pools, before)
    {
      hide Sound, CountValid, FirstBound, FirstFree, Sendable, Released, Taken, Flatten, Bytes, InOrder, UdpSendStep,
        Find;
      PoolIsTheirs(packet, chain, ss, pools, before);
      var through := FindForSend(socket, accepted, packet, chain, ss, pools, before);
      if !through {
        return false, [];
      }
      ok, out := Transmit(packet, acks, chain, ss, pools, before);
    }
  }

  lemma {:induction false} ReturnedWithin(chain: seq<Packet>, n: nat, pool: Pool, free: seq<Packet>)
    requires n <= |chain|
    ensures forall k :: 0 <= k < |Returned(chain, n, pool, free)| ==>
      var p := Returned(chain, n, pool, free)[k]; p in free || (p in chain && p.owner == pool)
  {
    if n != 0 {
      ReturnedWithin(chain, n - 1, pool, free);
    }
  }
}
