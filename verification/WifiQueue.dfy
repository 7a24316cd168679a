/** One slot of nx_wifi.c's socket table: its receive queue of packet chains, linked
    through the head packets' queue links, and the store step that fills it. */
module WifiQueue {
  import opened Octets
  import opened Segments
  import opened Sequences
  import opened Packets
  import opened PacketAppend

  /** The bytes of a queue, front to back. */
  function Flatten(contents: seq<seq<byte>>): seq<byte> {
    if contents == [] then [] else contents[0] + Flatten(contents[1..])
  }

  lemma Regroup(a: seq<byte>, b: seq<byte>, c: seq<byte>)
    ensures a + (b + c) == a + b + c
  {
  }

  lemma {:induction false} FlattenConcat(a: seq<seq<byte>>, b: seq<seq<byte>>)
    ensures Flatten(a + b) == Flatten(a) + Flatten(b)
  {
    if a == [] {
      assert a + b == b;
    } else {
      FlattenConcat(a[1..], b);
      assert (a + b)[0] == a[0] && (a + b)[1..] == a[1..] + b;
      Regroup(a[0], Flatten(a[1..]), Flatten(b));
    }
  }

  lemma FlattenOne(a: seq<byte>)
    ensures Flatten([a]) == a
  {
    assert Flatten([a]) == a + [];
  }

  /** One queued packet chain: its head, its packets, the bytes it carries, its pool. */
  datatype Item = Item(head: Packet, chain: seq<Packet>, bytes: seq<byte>, pool: Pool) {

    ghost predicate Holds()
      reads chain, Buffers(chain)
    {
      && WellFormed(chain) && head == chain[0] && Bytes(Segs(chain)) == bytes
      && forall i :: 0 <= i < |chain| ==> chain[i].owner == pool
    }
  }

  function Heads(items: seq<Item>): (heads: seq<Packet>)
    ensures |heads| == |items| && forall k :: 0 <= k < |items| ==> heads[k] == items[k].head
  {
    seq(|items|, k requires 0 <= k < |items| => items[k].head)
  }

  function Contents(items: seq<Item>): (contents: seq<seq<byte>>)
    ensures |contents| == |items| && forall k :: 0 <= k < |items| ==> contents[k] == items[k].bytes
  {
    seq(|items|, k requires 0 <= k < |items| => items[k].bytes)
  }

  /** The head packets, linked in order through their queue links. */
  ghost predicate Linkage(head: Packet?, tail: Packet?, heads: seq<Packet>)
    reads heads
  {
    && Distinct(heads)
    && head == LinkAt(heads, -1) && tail == (if heads == [] then null else heads[|heads| - 1])
    && forall k {:trigger heads[k].queueNext} :: 0 <= k < |heads| ==> heads[k].queueNext == LinkAt(heads, k)
  }

  ghost function BuffersOf(ps: set<Packet>): set<array<byte>> {
    set p | p in ps :: p.data
  }

  /** No packet is in two chains. */
  ghost predicate Separate(items: seq<Item>) {
    forall k, l, i, j :: 0 <= k < l < |items| && 0 <= i < |items[k].chain| && 0 <= j < |items[l].chain| ==>
      items[k].chain[i] != items[l].chain[j]
  }

  /** What a queue holds, and a set that all its packets are in. */
  datatype Load = Load(items: seq<Item>, packets: set<Packet>) {

    ghost predicate Sound()
      reads packets, BuffersOf(packets)
    {
      && Separate(items)
      && (forall k, i :: 0 <= k < |items| && 0 <= i < |items[k].chain| ==> items[k].chain[i] in packets)
      && (forall k :: 0 <= k < |items| ==> items[k].Holds())
      && forall p :: p in packets ==> p.mark == Allocated
    }
  }

  /** Everything a chain depends on is the same: all but the queue link. */
  twostate predicate SameButLink(p: Packet)
    reads p, p.data
  {
    && p.data[..] == old(p.data[..]) && p.prepend == old(p.prepend) && p.append == old(p.append)
    && p.next == old(p.next) && p.last == old(p.last) && p.length == old(p.length)
    && p.mark == old(p.mark)
  }

  twostate lemma HoldsStill(item: Item)
    requires old(item.Holds())
    requires forall i :: 0 <= i < |item.chain| ==> SameButLink(item.chain[i])
    ensures item.Holds()
  {
    assert Segs(item.chain) == old(Segs(item.chain));
  }

  /** A slot whose packets nobody touched is still valid. */
  twostate lemma SlotStill(slot: Slot)
    requires old(slot.Valid()) && unchanged(slot)
    requires forall p :: p in slot.load.packets ==> SameButLink(p) && p.queueNext == old(p.queueNext)
    ensures slot.Valid()
  {
    hide Load.Sound, SameButLink, Flatten, Contents;
    SoundStill(slot.load);
    HeadsAreIn(slot.load);
  }

  lemma TailIsIn(slot: Slot)
    requires slot.Valid()
    ensures Opt(slot.tail) <= slot.load.packets
  {
    HeadsAreIn(slot.load);
  }

  lemma ItemIsNotFree(item: Item, pool: Pool)
    requires item.Holds() && pool.Valid()
    ensures item.chain != [] && item.head == item.chain[0]
    ensures forall i :: 0 <= i < |item.chain| ==> item.chain[i] !in pool.free
  {
  }

  lemma QueuedIsNotFree(slot: Slot, pool: Pool)
    requires slot.Valid() && pool.Valid()
    ensures slot.load.packets !! SetOf(pool.free)
  {
  }

  twostate lemma SoundStill(load: Load)
    requires old(load.Sound())
    requires forall p :: p in load.packets ==> SameButLink(p)
    ensures load.Sound()
  {
    hide Item.Holds, Separate;
    forall k | 0 <= k < |load.items|
      ensures load.items[k].Holds()
    {
      HoldsStill(load.items[k]);
    }
  }

  ghost function Opt(p: Packet?): set<Packet> {
    if p == null then {} else {p}
  }

  /** Puts a packet at the end of the queue. */
  method Link(head: Packet?, tail: Packet?, packet: Packet, ghost heads: seq<Packet>)
    returns (newHead: Packet)
    requires Linkage(head, tail, heads) && packet !in heads
    modifies Opt(tail)`queueNext, packet`queueNext
    ensures Linkage(newHead, packet, heads + [packet])
  {
    if head != null {
      tail.queueNext := packet;
      packet.queueNext := null;
      newHead := head;
    } else {
      newHead := packet;
      packet.queueNext := null;
    }
  }

  lemma AddItem(load: Load, item: Item)
    requires load.Sound() && item.Holds()
    requires forall i :: 0 <= i < |item.chain| ==> item.chain[i] !in load.packets
    ensures Load(load.items + [item], load.packets + SetOf(item.chain)).Sound()
    ensures item.head in SetOf(item.chain) && item.head !in Heads(load.items)
    ensures Heads(load.items + [item]) == Heads(load.items) + [item.head]
    ensures Flatten(Contents(load.items + [item])) == Flatten(Contents(load.items)) + item.bytes
  {
    HeadsAreIn(load);
    HeadIsIn(item);
    hide Item.Holds, Flatten;
    assert Contents(load.items + [item]) == Contents(load.items) + [item.bytes];
    FlattenConcat(Contents(load.items), [item.bytes]);
    FlattenOne(item.bytes);
  }

  lemma HeadIsIn(item: Item)
    requires item.Holds()
    ensures item.chain != [] && item.head == item.chain[0] && item.head in item.chain
  {
  }

  lemma HeadsAreIn(load: Load)
    requires load.Sound()
    ensures forall k :: 0 <= k < |load.items| ==> Heads(load.items)[k] in load.packets
  {
    forall k | 0 <= k < |load.items|
      ensures load.items[k].head in load.packets
    {
      HeadIsIn(load.items[k]);
    }
  }

  lemma FirstItem(load: Load)
    requires load.Sound() && load.items != []
    ensures load.items[0].Holds() && SetOf(load.items[0].chain) <= load.packets
    ensures Load(load.items[1..], load.packets - SetOf(load.items[0].chain)).Sound()
  {
    hide Item.Holds;
  }

  /** The queue without its first packet. */
  lemma FirstLink(head: Packet?, tail: Packet?, items: seq<Item>)
    requires Linkage(head, tail, Heads(items)) && head != null
    ensures items != [] && head == items[0].head
    ensures Linkage(head.queueNext, if head.queueNext == null then null else tail, Heads(items[1..]))
  {
    var heads := Heads(items);
    assert Heads(items[1..]) == heads[1..];
  }

  /** What a pool's available list gains when a queue's chains are released one by one. */
  ghost function Flushed(items: seq<Item>): seq<Packet> {
    if items == [] then [] else Flushed(items[1..]) + Reversed(items[0].chain)
  }

  /** One `NX_WIFI_SOCKET`, with ghost fields for what its queue holds and for the bytes
      that were read from the module for it and handed to the application. */
  class Slot {
    ghost const pool: Pool   // the pool that queued packets come from
    var socket: nat
    var valid: bool
    var udp: bool
    var connected: bool
    var head: Packet?
    var tail: Packet?
    ghost var load: Load
    ghost var received: seq<byte>
    ghost var delivered: seq<byte>
    ghost var intact: bool   // nothing read was dropped since the slot was claimed

    ghost predicate Valid()
      reads this, load.packets, BuffersOf(load.packets)
    {
      && load.Sound() && Linkage(head, tail, Heads(load.items))
      && (forall k :: 0 <= k < |load.items| ==> load.items[k].pool == pool)
      && (!valid || !connected ==> load == Load([], {}))
      && (intact ==> received == delivered + Flatten(Contents(load.items)))
    }

    /** As memset leaves it. */
    ghost predicate Cleared()
      reads this
    {
      && socket == 0 && !valid && !udp && !connected && head == null && tail == null
      && load == Load([], {}) && received == [] && delivered == [] && intact
    }

    lemma ClearedIsValid()
      requires Cleared()
      ensures Valid()
    {
    }

    constructor (pool: Pool)
      ensures this.pool == pool && Cleared()
    {
      this.pool := pool;
      socket, valid, udp, connected, head, tail := 0, false, false, false, null, null;
      load, received, delivered, intact := Load([], {}), [], [], true;
    }

    /** Takes a free slot for a socket. */
    method Claim(socket: nat, udp: bool)
      requires Valid() && !valid
      modifies this
      ensures Valid() && load == old(load) == Load([], {}) && received == delivered == [] && intact
      ensures this.socket == socket && valid && this.udp == udp && !connected
    {
      hide Load.Sound;
      this.socket := socket;
      valid := true;
      this.udp := udp;
      connected := false;
      received, delivered, intact := [], [], true;
      SoundStill(load);
      HeadsAreIn(load);
    }

    method SetConnected()
      requires Valid()
      modifies `connected
      ensures Valid() && connected
    {
      hide Load.Sound, Flatten, Contents;
      connected := true;
      SoundStill(load);
      HeadsAreIn(load);
    }

    /** A read that is handed on at once, the queue being empty; or that is lost. */
    ghost method Account(data: seq<byte>, kept: bool)
      requires Valid() && load.items == []
      modifies `received, `delivered, `intact
      ensures Valid() && received == old(received) + data
      ensures if kept then delivered == old(delivered) + data && intact == old(intact)
              else delivered == old(delivered) && !intact
    {
      hide Load.Sound;
      received := received + data;
      if kept {
        delivered := delivered + data;
      } else {
        intact := false;
      }
      SoundStill(load);
      HeadsAreIn(load);
    }

    /** Queues one received packet chain. */
    method Enqueue(packet: Packet, ghost item: Item)
      requires Valid() && valid && connected && item.pool == pool && item.Holds() && item.head == packet
      requires forall i :: 0 <= i < |item.chain| ==> item.chain[i] !in load.packets
      modifies `head, `tail, `load, `received, Opt(tail)`queueNext, packet`queueNext
      ensures Valid()
      ensures load == Load(old(load.items) + [item], old(load.packets) + SetOf(item.chain))
      ensures received == old(received) + item.bytes
    {
      hide Load.Sound, Linkage, Item.Holds, Heads, Contents, Flatten;
      ghost var items := load.items;
      AddItem(load, item);
      head := Link(head, tail, packet, Heads(items));
      tail := packet;
      load := Load(items + [item], load.packets + SetOf(item.chain));
      received := received + item.bytes;
      SoundStill(load);
    }

    /** Takes the first packet chain off a queue that is not empty. */
    method Dequeue() returns (packet: Packet, ghost item: Item)
      requires Valid() && head != null
      modifies `head, `tail, `load, `delivered
      ensures Valid() && old(load.items) != [] && item == old(load.items)[0]
      ensures packet == item.head && item.Holds() && item.pool == pool
      ensures load == Load(old(load.items)[1..], old(load.packets) - SetOf(item.chain))
      ensures delivered == old(delivered) + item.bytes
    {
      hide Load.Sound, Item.Holds, Heads, Contents, Flatten;
      FirstLink(head, tail, load.items);
      FirstItem(load);
      FlattenFirst(load.items);
      hide Linkage;
      item := load.items[0];
      packet := head;
      head := packet.queueNext;
      if head == null {
        tail := null;
      }
      load := Load(load.items[1..], load.packets - SetOf(item.chain));
      delivered := delivered + item.bytes;
      HoldsStill(item);
      SoundStill(load);
    }

    /** `nx_wifi_socket_reset`, but for the counter: every queued packet goes back to the
        pool and the slot is cleared; a slot that is not valid is left alone. */
    method Clear(pool: Pool)
      requires Valid() && pool == this.pool && pool.Valid()
      modifies this, pool, load.packets
      ensures Valid() && pool.Valid()
      ensures !old(valid) ==> unchanged(this) && unchanged(pool) && pool.free == old(pool.free)
      ensures old(valid) ==>
        && Cleared() && pool.free == Flushed(old(load.items)) + old(pool.free)
    {
      hide Load.Sound, Linkage, Heads, Contents, Flatten, Pool.Valid, Flushed;
      if !valid {
        return;
      }
      Flush(head, tail, pool, load);
      socket, valid, udp, connected, head, tail := 0, false, false, false, null, null;
      load, received, delivered, intact := Load([], {}), [], [], true;
      ClearedIsValid();
    }
  }

  lemma {:induction false} FlushedFrom(load: Load, k: nat)
    requires load.Sound() && k <= |load.items|
    ensures forall i :: 0 <= i < |Flushed(load.items[k..])| ==> Flushed(load.items[k..])[i] in load.packets
    decreases |load.items| - k
  {
    hide Item.Holds;
    if k < |load.items| {
      var rest, chain := Flushed(load.items[k + 1..]), load.items[k].chain;
      FlushedFrom(load, k + 1);
      assert load.items[k..][1..] == load.items[k + 1..];
      forall i | 0 <= i < |Reversed(chain)|
        ensures Reversed(chain)[i] in load.packets
      {
        assert Reversed(chain)[i] in multiset(Reversed(chain));
        assert Reversed(chain)[i] in multiset(chain);
      }
    }
  }

  lemma FlushedWithin(slot: Slot)
    requires slot.Valid()
    ensures forall i :: 0 <= i < |Flushed(slot.load.items)| ==> Flushed(slot.load.items)[i] in slot.load.packets
  {
    hide Flushed;
    FlushedFrom(slot.load, 0);
    assert slot.load.items[0..] == slot.load.items;
  }

  lemma FlattenFirst(items: seq<Item>)
    requires items != []
    ensures Flatten(Contents(items)) == items[0].bytes + Flatten(Contents(items[1..]))
  {
    assert Contents(items)[1..] == Contents(items[1..]);
  }

  /** Releases the first chain of a queue. */
  method FlushOne(head: Packet, ghost tail: Packet?, pool: Pool, ghost load: Load)
    returns (next: Packet?, ghost rest: Load, ghost newTail: Packet?)
    requires load.Sound() && Linkage(head, tail, Heads(load.items)) && load.items[0].pool == pool
    requires pool.Valid()
    modifies pool, load.items[0].chain
    ensures pool.Valid() && load.items != [] && pool.free == Reversed(load.items[0].chain) + old(pool.free)
    ensures rest == Load(load.items[1..], load.packets - SetOf(load.items[0].chain))
    ensures rest.Sound() && Linkage(next, newTail, Heads(rest.items))
  {
    hide Load.Sound, Heads, Pool.Valid, Reversed;
    FirstLink(head, tail, load.items);
    FirstItem(load);
    HeadsAreIn(load);
    rest := Load(load.items[1..], load.packets - SetOf(load.items[0].chain));
    HeadsAreIn(rest);
    next := head.queueNext;
    newTail := if next == null then null else tail;
    hide Linkage;
    ReleaseAll(head, pool, load.items[0].chain);
    SoundStill(rest);
  }

  /** Releases every chain of a queue, front to back. */
  method Flush(head: Packet?, ghost tail: Packet?, pool: Pool, ghost load: Load)
    requires load.Sound() && Linkage(head, tail, Heads(load.items)) && pool.Valid()
    requires forall k :: 0 <= k < |load.items| ==> load.items[k].pool == pool
    modifies pool, load.packets
    ensures pool.Valid() && pool.free == Flushed(load.items) + old(pool.free)
  {
    hide Load.Sound, Linkage, Heads, Pool.Valid, Reversed;
    var next := head;
    ghost var rest, last := load, tail;
    while next != null
      invariant rest.Sound() && Linkage(next, last, Heads(rest.items)) && pool.Valid()
      invariant rest.packets <= load.packets
      invariant forall k :: 0 <= k < |rest.items| ==> rest.items[k].pool == pool
      invariant Flushed(rest.items) + pool.free == Flushed(load.items) + old(pool.free)
      decreases |rest.items|
    {
      FirstLink(next, last, rest.items);
      FirstItem(rest);
      ghost var was := rest;
      next, rest, last := FlushOne(next, last, pool, rest);
    }
    NoneLeft(last, rest.items);
  }

  lemma NoneLeft(tail: Packet?, items: seq<Item>)
    requires Linkage(null, tail, Heads(items))
    ensures items == []
  {
  }
}
