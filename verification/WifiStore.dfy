/** Storing bytes read from the module in packets, and the space guard of the poll. */
module WifiStore {
  import opened Octets
  import opened Segments
  import opened Packets
  import opened PacketAppend
  import opened PacketCopy
  import opened WifiQueue

  /** `ES_WIFI_PAYLOAD_SIZE`: the most one read returns. */
  const PAYLOAD_SIZE: nat := 1200

  /** `NX_WIFI_PACKET_RESERVED` */
  const RESERVED: nat := 1

  lemma BuildingHolds(work: Packet, dup: seq<Packet>, pool: Pool, all: seq<Packet>, bytes: seq<byte>)
    requires Building(work, dup, pool, all, bytes)
    ensures Item(work, dup, bytes, pool).Holds() && pool.Valid()
  {
  }

  /** The available list after a store that failed: the packet that was allocated is released
      in front of the others, which the append had reversed. */
  ghost function Unstored(free: seq<Packet>): (after: seq<Packet>)
    ensures multiset(after) == multiset(free)
  {
    if free == [] then []
    else
      assert free == [free[0]] + free[1..];
      [free[0]] + Reversed(free[1..])
  }

  lemma UnstoredWithin(free: seq<Packet>)
    ensures forall k :: 0 <= k < |Unstored(free)| ==> Unstored(free)[k] in free
  {
    hide Unstored;
    forall k | 0 <= k < |Unstored(free)|
      ensures Unstored(free)[k] in free
    {
      assert Unstored(free)[k] in multiset(Unstored(free));
      assert Unstored(free)[k] in multiset(free);
    }
  }

  /** The allocation and append that store one read, undone when the append fails. */
  method Store(pool: Pool, data: seq<byte>) returns (status: Status, packet: Packet?, ghost chain: seq<Packet>)
    requires pool.Valid() && Apart(SetOf(pool.free))
    modifies pool, pool.free, Buffers(pool.free)
    ensures pool.Valid() && (status == Success || status == NoPacket)
    ensures status == Success <==>
      old(pool.free) != [] && Room(|old(pool.free)|, pool.payloadSize) >= |data|
    ensures status != Success ==> pool.free == Unstored(old(pool.free))
    ensures status == Success ==>
      && packet != null && Item(packet, chain, data, pool).Holds()
      && 1 <= |chain| <= |old(pool.free)|
      && chain == old(pool.free)[..|chain|] && pool.free == old(pool.free)[|chain|..]
      && (1 < |chain| ==> Room(|chain| - 1, pool.payloadSize) < |data|)
  {
    hide Linked, InUse, Bytes, Segs, Room, Packed, Pool.Valid, Apart, Building, WellFormed, Reversed, Item.Holds;
    ghost var all := pool.free;
    chain := [];
    pool.HeadOfFree();
    pool.FreeFacts();
    var work;
    status, work := pool.Allocate(0);
    if status != Success {
      return NoPacket, null, [];
    }
    StartBuilding(work, pool, all);
    BuildingFacts(work, [work], pool, all, []);
    status, chain := CopyOne(work, data, pool, [work], all, []);
    if status != Success {
      Undo(work, pool, chain, all);
      return status, null, [];
    }
    packet := work;
    assert [] + data == data;
    BuildingFacts(work, chain, pool, all, data);
    CopyNeeds(work, chain, pool, all, data);
    BuildingHolds(work, chain, pool, all, data);
  }

  /** Puts an allocated chain back. */
  method Undo(work: Packet, pool: Pool, ghost chain: seq<Packet>, ghost all: seq<Packet>)
    requires pool.Valid() && WellFormed(chain) && work == chain[0] && |chain| <= |all| && chain == all[..|chain|]
    requires |chain| == 1 && pool.free == Reversed(all[1..])
    requires forall i :: 0 <= i < |chain| ==> chain[i].owner == pool
    modifies pool, chain
    ensures pool.Valid() && pool.free == Unstored(all)
  {
    hide Linked, InUse, Pool.Valid;
    ReleaseAll(work, pool, chain);
    assert chain == [all[0]];
    assert Reversed(chain) == chain;
  }

  /** The test that the poll makes before it reads. */
  predicate Guard(available: nat, payload: nat) {
    available * payload >= PAYLOAD_SIZE + RESERVED * payload
  }

  /** One packet is left beside as many as the largest read takes. */
  predicate Spare(free: nat, payload: nat) {
    1 <= free && 1200 <= Room(free - 1, payload)
  }

  /** That is what the test means: it reads whenever the least number of packets for 1200 bytes
      leaves one, and only then. */
  lemma GuardExactly(free: nat, payload: nat)
    ensures Guard(free, payload) <==> Spare(free, payload)
    ensures Guard(free, payload) <==> exists k: nat :: Least(k, payload, 1200) && k < free
  {
    RoomIsProduct(free, payload);
    if free != 0 {
      RoomIsProduct(free - 1, payload);
      assert (free - 1) * payload == free * payload - payload;
    }
    if Spare(free, payload) {
      var k := LeastOf(free - 1, payload, 1200);
      assert Least(k, payload, 1200);
    }
    if k: nat :| Least(k, payload, 1200) && k < free {
      RoomGrows(k, free - 1, payload);
    }
  }

  /** The least number of packets that hold `size` bytes. */
  function LeastOf(n: nat, payload: nat, size: nat): (k: nat)
    requires 0 < size <= Room(n, payload)
    ensures k <= n && Least(k, payload, size)
  {
    if size <= Room(n - 1, payload) then LeastOf(n - 1, payload, size) else n
  }

  /** The guard suffices: whatever the payload size, storing any read it lets through
      succeeds and leaves the reserved packets; `k` is how many packets the read takes. */
  lemma GuardSuffices(available: nat, payload: nat, size: nat, k: nat)
    requires Guard(available, payload) && size <= PAYLOAD_SIZE
    requires 1 <= k && (1 < k ==> Room(k - 1, payload) < size)
    ensures available != 0 && Room(available, payload) >= size
    ensures available - k >= RESERVED
  {
    RoomIsProduct(available, payload);
    RoomIsProduct(k - 1, payload);
    if available < k + RESERVED {
      RoomIsProduct(available - 1, payload);
      assert Room(available - 1, payload) >= PAYLOAD_SIZE by {
        assert (available - 1) * payload == available * payload - payload;
      }
      RoomGrows(available - 1, k - 1, payload);
    }
  }

  /** The fields of a slot that reading does not touch. */
  twostate predicate SameEntry(slot: Slot)
    reads slot
  {
    && slot.socket == old(slot.socket) && slot.valid == old(slot.valid) && slot.udp == old(slot.udp)
    && slot.connected == old(slot.connected)
    && slot.delivered == old(slot.delivered) && slot.intact == old(slot.intact)
  }

  lemma BuffersApart(free: seq<Packet>, packets: set<Packet>)
    requires Apart(SetOf(free) + packets) && packets !! SetOf(free)
    ensures forall p :: p in packets ==> p !in free && p.data !in Buffers(free)
  {
  }

  /** What the poll does with a read that the guard let through: it is always stored. */
  method StoreRead(slot: Slot, pool: Pool, data: seq<byte>) returns (stored: bool, ghost chain: seq<Packet>)
    requires slot.Valid() && slot.valid && slot.connected && pool == slot.pool && pool.Valid()
    requires Apart(SetOf(pool.free) + slot.load.packets)
    requires Guard(|pool.free|, pool.payloadSize) && |data| <= PAYLOAD_SIZE
    modifies slot, pool, pool.free, Buffers(pool.free), slot.load.packets
    ensures slot.Valid() && pool.Valid() && stored && SameEntry(slot)
    ensures 1 <= |chain| <= |old(pool.free)| && |pool.free| >= RESERVED
    ensures chain == old(pool.free)[..|chain|] && pool.free == old(pool.free)[|chain|..]
    ensures slot.load ==
      Load(old(slot.load.items) + [Item(chain[0], chain, data, pool)], old(slot.load.packets) + SetOf(chain))
    ensures slot.received == old(slot.received) + data
  {
    hide Slot.Valid, Pool.Valid, Apart, Item.Holds, Guard, Room;
    QueuedIsNotFree(slot, pool);
    ghost var free := pool.free;
    ApartSubset(SetOf(free), SetOf(free) + slot.load.packets);
    BuffersApart(free, slot.load.packets);
    GuardSuffices(|free|, pool.payloadSize, |data|, 1);
    var status, packet;
    status, packet, chain := Store(pool, data);
    if status != Success {
      return false, chain;
    }
    GuardSuffices(|free|, pool.payloadSize, |data|, |chain|);
    SlotStill(slot);
    TailIsIn(slot);
    QueuedIsNotFree(slot, pool);
    ItemIsNotFree(Item(packet, chain, data, pool), pool);
    slot.Enqueue(packet, Item(packet, chain, data, pool));
    stored := true;
  }

  /** What one read from the module comes to; `elapsed` is the time since the caller began to
      read, in ticks. */
  datatype Reply = Reply(ok: bool, data: seq<byte>, elapsed: nat) {

    predicate Good() {
      ok && data != []
    }
  }

  /** The module never returns more than it was asked for. */
  predicate Fit(replies: seq<Reply>) {
    forall k :: 0 <= k < |replies| ==> |replies[k].data| <= PAYLOAD_SIZE
  }

  function Datas(replies: seq<Reply>): (datas: seq<seq<byte>>)
    ensures |datas| == |replies|
  {
    seq(|replies|, k requires 0 <= k < |replies| => replies[k].data)
  }

  /** The slot's queue and pool after the first `n` replies were stored in the packets
      `taken`, given what they were before. */
  ghost predicate Stored(slot: Slot, pool: Pool, replies: seq<Reply>, n: nat, taken: seq<Packet>, was: Load,
    free: seq<Packet>, received: seq<byte>)
    requires n <= |replies|
    reads slot, pool
  {
    && free == taken + pool.free && slot.load.packets == was.packets + SetOf(taken)
    && Contents(slot.load.items) == Contents(was.items) + Datas(replies[..n])
    && slot.received == received + Flatten(Datas(replies[..n]))
    && (if n == 0 then taken == [] else |pool.free| >= RESERVED)
  }

  lemma StoredNone(slot: Slot, pool: Pool, replies: seq<Reply>)
    ensures Stored(slot, pool, replies, 0, [], slot.load, pool.free, slot.received)
  {
    assert Datas(replies[..0]) == [];
  }

  lemma StoredWithin(slot: Slot, pool: Pool, replies: seq<Reply>, n: nat, taken: seq<Packet>, was: Load,
    free: seq<Packet>, received: seq<byte>)
    requires n <= |replies| && Stored(slot, pool, replies, n, taken, was, free, received)
    ensures slot.load.packets + SetOf(pool.free) <= was.packets + SetOf(free)
    ensures forall k :: 0 <= k < |pool.free| ==> pool.free[k] in free
    ensures Buffers(pool.free) <= Buffers(free)
    ensures forall p :: p in slot.load.packets ==> p in was.packets || p in free
  {
  }

  lemma TakeMore(free: seq<Packet>, taken: seq<Packet>, before: seq<Packet>, k: nat)
    requires free == taken + before && k <= |before|
    ensures free == taken + before[..k] + before[k..]
    ensures SetOf(taken + before[..k]) == SetOf(taken) + SetOf(before[..k])
  {
    assert before == before[..k] + before[k..];
  }

  lemma OneMore(replies: seq<Reply>, n: nat, items: seq<Item>, item: Item)
    requires n < |replies| && item.bytes == replies[n].data
    ensures Datas(replies[..n + 1]) == Datas(replies[..n]) + [item.bytes]
    ensures Flatten(Datas(replies[..n + 1])) == Flatten(Datas(replies[..n])) + item.bytes
    ensures Contents(items + [item]) == Contents(items) + [item.bytes]
  {
    assert Datas(replies[..n + 1]) == Datas(replies[..n]) + [item.bytes];
    FlattenConcat(Datas(replies[..n]), [item.bytes]);
    FlattenOne(item.bytes);
  }

  /** Storing reply `n`. */
  method StoreNext(slot: Slot, pool: Pool, data: seq<byte>, ghost replies: seq<Reply>, ghost n: nat,
    ghost taken: seq<Packet>, ghost was: Load, ghost free: seq<Packet>, ghost received: seq<byte>)
    returns (stored: bool, ghost nowTaken: seq<Packet>)
    requires n < |replies| && data == replies[n].data && Fit(replies)
    requires slot.Valid() && slot.valid && slot.connected && pool == slot.pool && pool.Valid()
    requires Stored(slot, pool, replies, n, taken, was, free, received)
    requires Apart(SetOf(free) + was.packets) && Guard(|pool.free|, pool.payloadSize)
    modifies slot, pool, pool.free, Buffers(pool.free), slot.load.packets
    ensures slot.Valid() && pool.Valid() && stored && SameEntry(slot) && |pool.free| < |old(pool.free)|
    ensures Stored(slot, pool, replies, n + 1, nowTaken, was, free, received)
  {
    hide Slot.Valid, Pool.Valid, Apart, Guard, Flatten, Contents, Datas, SetOf, Buffers;
    StoredWithin(slot, pool, replies, n, taken, was, free, received);
    ApartSubset(SetOf(pool.free) + slot.load.packets, SetOf(free) + was.packets);
    ghost var items, before, chain := slot.load.items, pool.free, [];
    stored, chain := StoreRead(slot, pool, data);
    OneMore(replies, n, items, Item(chain[0], chain, data, pool));
    TakeMore(free, taken, before, |chain|);
    nowTaken := taken + chain;
  }

  /** The poll's inner loop on one connected slot: it stores replies until the guard stops
      it or a read brings nothing. */
  method ReadSlot(slot: Slot, pool: Pool, replies: seq<Reply>)
    returns (used: nat, ghost n: nat, ghost taken: seq<Packet>)
    requires slot.Valid() && slot.valid && slot.connected && pool == slot.pool && pool.Valid()
    requires Apart(SetOf(pool.free) + slot.load.packets) && Fit(replies)
    modifies slot, pool, pool.free, Buffers(pool.free), slot.load.packets
    ensures slot.Valid() && pool.Valid() && SameEntry(slot) && n <= used <= |replies|
    ensures Stored(slot, pool, replies, n, taken, old(slot.load), old(pool.free), old(slot.received))
    ensures forall k :: 0 <= k < n ==> replies[k].Good()
    ensures !Spare(|pool.free|, pool.payloadSize) || n == |replies| || !replies[n].Good()
    ensures used == n || (used == n + 1 && !replies[n].Good())
  {
    hide Slot.Valid, Pool.Valid, Apart, Guard, Spare, Least, Stored, Fit, Reply.Good, SetOf, Buffers;
    ghost var was, free, received := slot.load, pool.free, slot.received;
    used, n, taken := 0, 0, [];
    StoredNone(slot, pool, replies);
    while true
      invariant slot.Valid() && pool.Valid() && SameEntry(slot) && used == n <= |replies|
      invariant Stored(slot, pool, replies, n, taken, was, free, received)
      invariant forall k :: 0 <= k < n ==> replies[k].Good()
      decreases |pool.free|
    {
      pool.HeadOfFree();
      GuardExactly(|pool.free|, pool.payloadSize);
      if !Guard(pool.available, pool.payloadSize) {
        break;
      }
      if used == |replies| {
        break;
      }
      var reply := replies[used];
      used := used + 1;
      if !reply.Good() {
        break;
      }
      StoredWithin(slot, pool, replies, n, taken, was, free, received);
      var stored;
      stored, taken := StoreNext(slot, pool, reply.data, replies, n, taken, was, free, received);
      if !stored {
        break;
      }
      n := n + 1;
    }
  }
}
