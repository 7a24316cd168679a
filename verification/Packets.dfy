/** NetX packets, packet pools, and the two primitives that move packets between
    a pool and its users: `_nx_packet_allocate` (the no-wait path) and
    `_nx_packet_release`.

    Pointers into a packet's buffer are offsets from `nx_packet_data_start`; the
    buffer `data` runs from there to `nx_packet_data_end`. */
module Packets {
  import opened Octets
  import opened PoolLayout
  import opened Segments
  import opened Sequences

  datatype Status = Success | NoPacket | InvalidParameters | InvalidPacket
                  | Underflow | NotSupported | PtrError

  /** `nx_packet_tcp_queue_next`: the two marker values, or a real link. */
  datatype Mark = Free | Allocated | TcpQueued

  class Packet {
    const owner: Pool
    const data: array<byte>
    var prepend: nat
    var append: nat
    var next: Packet?
    var last: Packet?
    var length: nat
    var queueNext: Packet?
    var mark: Mark
    var interfaceId: nat   // `nx_packet_interface_ptr`; 0 is null
    var ipHeader: int

    constructor (owner: Pool, size: nat, zero: byte)
      ensures this.owner == owner && fresh(data) && data.Length == size
      ensures mark == Mark.Free && queueNext == null
    {
      this.owner := owner;
      this.data := new byte[size](_ => zero);
      prepend, append, length := 0, 0, 0;
      next, last, queueNext := null, null, null;
      mark, interfaceId, ipHeader := Mark.Free, 0, 0;
    }

    /** The field set-up that every newly allocated packet gets. */
    method Reset(packetType: nat)
      modifies this
      ensures next == null && last == null && queueNext == null && length == 0
      ensures prepend == append == packetType && mark == Allocated && interfaceId == 0
      ensures ipHeader == old(ipHeader)
    {
      queueNext := null;
      next := null;
      last := null;
      length := 0;
      prepend := packetType;
      append := prepend;
      interfaceId := 0;
      mark := Allocated;
    }

    ghost function Seg(): Segment
      reads this, data
    {
      Segment(data[..], prepend, append)
    }
  }

  /** The link that packet `i` of a list carries. */
  function LinkAt(ps: seq<Packet>, i: int): Packet? {
    if 0 <= i + 1 < |ps| then ps[i + 1] else null
  }

  /** Different packets have different buffers. */
  ghost predicate Apart(ps: set<Packet>) {
    forall p, q :: p in ps && q in ps && p != q ==> p.data != q.data
  }

  ghost function Buffers(ps: seq<Packet>): set<array<byte>> {
    set p | p in ps :: p.data
  }

  ghost function SetOf(ps: seq<Packet>): set<Packet> {
    set p | p in ps
  }

  class Pool {
    const payloadSize: nat
    var available: nat
    var availableList: Packet?
    ghost var free: seq<Packet>   // the packets of the available list, in order

    ghost predicate Valid()
      reads this, free
    {
      && available == |free|
      && availableList == LinkAt(free, -1)
      && Distinct(free)
      && (forall i {:trigger free[i].queueNext} :: 0 <= i < |free| ==>
            free[i].queueNext == LinkAt(free, i))
      && forall i :: 0 <= i < |free| ==>
           free[i].owner == this && free[i].mark == Mark.Free && free[i].data.Length == payloadSize
    }

    constructor (payloadSize: nat)
      ensures Valid() && free == [] && this.payloadSize == payloadSize
    {
      this.payloadSize := payloadSize;
      available, availableList, free := 0, null, [];
    }

    lemma HeadOfFree()
      requires Valid()
      ensures availableList == LinkAt(free, -1) && available == |free|
    {
    }

    lemma FreeFacts()
      requires Valid()
      ensures forall i :: 0 <= i < |free| ==> free[i].owner == this && free[i].data.Length == payloadSize
    {
    }

    lemma NotFree(p: Packet)
      requires Valid() && p.mark == Allocated
      ensures p !in free
    {
    }

    /** Takes the head off the available list. */
    method Pop() returns (packet: Packet)
      requires Valid() && available != 0
      modifies this`available, this`availableList, this`free
      ensures Valid() && packet == old(free)[0] && free == old(free)[1..]
      ensures packet == old(availableList) && packet !in free
    {
      available := available - 1;
      packet := availableList;
      availableList := packet.queueNext;
      ghost var was := free;
      free := free[1..];
      assert was == [packet] + free;
    }

    /** `_nx_packet_allocate` without suspension: pops the head of the available
        list and resets it, or reports why it could not. */
    method Allocate(packetType: nat) returns (status: Status, packet: Packet?)
      requires Valid()
      modifies this, availableList
      ensures Valid()
      ensures status == (if payloadSize < packetType then InvalidParameters
                         else if |old(free)| == 0 then NoPacket else Success)
      ensures status != Success ==> packet == null && unchanged(this)
      ensures status != Success && availableList != null ==> unchanged(availableList)
      ensures status == Success ==>
        && packet != null && packet == old(free)[0] && free == old(free)[1..]
        && packet.next == null && packet.last == null && packet.queueNext == null
        && packet.length == 0 && packet.prepend == packet.append == packetType
        && packet.mark == Allocated && packet.interfaceId == 0
        && packet.ipHeader == old(packet.ipHeader)
    {
      if payloadSize < packetType {
        return InvalidParameters, null;
      }
      if available != 0 {
        var taken := Pop();
        taken.Reset(packetType);
        status, packet := Success, taken;
      } else {
        status, packet := NoPacket, null;
      }
    }
  }

  /** The packets a pool is built from so far, linked in order. */
  ghost predicate Carved(pool: Pool, free: seq<Packet>, first: Packet?, last: Packet?)
    reads free
  {
    && first == LinkAt(free, -1) && last == (if free == [] then null else free[|free| - 1])
    && (forall i, j :: 0 <= i < j < |free| ==> free[i] != free[j] && free[i].data != free[j].data)
    && (forall i {:trigger free[i].queueNext} :: 0 <= i < |free| ==> free[i].queueNext == LinkAt(free, i))
    && forall i :: 0 <= i < |free| ==>
         free[i].owner == pool && free[i].mark == Mark.Free && free[i].data.Length == pool.payloadSize
  }

  /** Sets up the next packet of a pool. */
  method CarveOne(pool: Pool, ghost free: seq<Packet>, first: Packet?, last: Packet?, zero: byte)
    returns (packet: Packet, newFirst: Packet)
    requires Carved(pool, free, first, last)
    modifies last
    ensures fresh(packet) && fresh(packet.data) && Carved(pool, free + [packet], newFirst, packet)
  {
    packet := new Packet(pool, pool.payloadSize, zero);
    newFirst := packet;
    if last != null {
      last.queueNext := packet;
      newFirst := first;
    }
  }

  /** `_nx_packet_pool_create`, but for the list of created pools: as many packets as the area
      holds, which must be one at least, linked in the order of their addresses. */
  method CreatePool(area: Area, payloadSize: nat, zero: byte) returns (pool: Pool, ghost addresses: seq<nat>)
    requires area.Usable() && Count(Carve(area, payloadSize)) != 0
    ensures fresh(pool) && pool.Valid() && pool.payloadSize == payloadSize
    ensures |addresses| == |pool.free| == Count(Carve(area, payloadSize))
    ensures forall i :: 0 <= i < |addresses| ==> addresses[i] == Address(Carve(area, payloadSize), i)
    ensures (forall i :: 0 <= i < |pool.free| ==> fresh(pool.free[i])) && Apart(SetOf(pool.free))
  {
    hide Carve, Carved, Count;
    var l := Carve(area, payloadSize);
    pool := new Pool(payloadSize);
    var first: Packet?, last: Packet?, packets := null, null, 0;
    ghost var free: seq<Packet> := [];
    NoneCarved(pool);
    addresses := [];
    var packetPtr := l.first;
    var nextPacketPtr := packetPtr + l.stride;
    CountExactly(l, 0);
    while nextPacketPtr <= l.end
      invariant packets == |free| == |addresses| <= Count(l)
      invariant packetPtr == Address(l, packets) && nextPacketPtr == Address(l, packets + 1)
      invariant forall i :: 0 <= i < |addresses| ==> addresses[i] == Address(l, i)
      invariant fresh(pool) && pool.payloadSize == payloadSize && Carved(pool, free, first, last)
      invariant last != null ==> fresh(last)
      invariant forall i :: 0 <= i < |free| ==> fresh(free[i])
      decreases Count(l) - packets
    {
      CountExactly(l, packets);
      NextAddress(l, packets);
      var packet;
      packet, first := CarveOne(pool, free, first, last, zero);
      addresses := addresses + [packetPtr];
      last := packet;
      free := free + [packet];
      packets := packets + 1;
      packetPtr := nextPacketPtr;
      nextPacketPtr := packetPtr + l.stride;
    }
    CountExactly(l, packets);
    pool.available, pool.availableList, pool.free := packets, first, free;
    CarvedIsFree(pool, first, last);
  }

  lemma NoneCarved(pool: Pool)
    ensures Carved(pool, [], null, null)
  {
  }

  lemma NextAddress(l: Layout, k: nat)
    ensures Address(l, k + 2) == Address(l, k + 1) + l.stride
  {
  }

  lemma CarvedIsFree(pool: Pool, first: Packet?, last: Packet?)
    requires Carved(pool, pool.free, first, last) && pool.available == |pool.free| && pool.availableList == first
    ensures pool.Valid() && Apart(SetOf(pool.free))
  {
  }

  /** A pool's available list after the first `n` packets of `chain` were released
      one by one: each goes to the head of its own pool's list. */
  ghost function Returned(chain: seq<Packet>, n: nat, pool: Pool, free: seq<Packet>): seq<Packet>
    requires n <= |chain|
  {
    if n == 0 then free
    else
      var rest := Returned(chain, n - 1, pool, free);
      if chain[n - 1].owner == pool then [chain[n - 1]] + rest else rest
  }

  ghost function Reversed(ps: seq<Packet>): (r: seq<Packet>)
    ensures |r| == |ps| && multiset(r) == multiset(ps)
  {
    if ps == [] then []
    else
      var front, last := ps[..|ps| - 1], ps[|ps| - 1];
      assert ps == front + [last];
      [last] + Reversed(front)
  }

  /** When one pool owns the whole chain, its list grows by the reversed chain. */
  lemma {:induction false} ReturnedToOnePool(chain: seq<Packet>, n: nat, pool: Pool, free: seq<Packet>)
    requires n <= |chain| && forall i :: 0 <= i < n ==> chain[i].owner == pool
    ensures Returned(chain, n, pool, free) == Reversed(chain[..n]) + free
  {
    if n != 0 {
      ReturnedToOnePool(chain, n - 1, pool, free);
      assert chain[..n][..n - 1] == chain[..n - 1];
    }
  }

  /** The next-links run through `ps` and end in null. */
  ghost predicate Linked(ps: seq<Packet>)
    reads ps
  {
    && Distinct(ps)
    && forall i {:trigger ps[i].next} :: 0 <= i < |ps| ==> ps[i].next == LinkAt(ps, i)
  }

  /** Puts one packet back at the head of its owner's available list. */
  method ReleaseOne(p: Packet, ghost pools: set<Pool>)
    requires p.owner in pools && p.mark == Allocated && p.data.Length == p.owner.payloadSize
    requires forall pool :: pool in pools ==> pool.Valid()
    modifies p`mark, p`queueNext
    modifies p.owner`free, p.owner`available, p.owner`availableList
    ensures p.mark == Mark.Free && p.owner.free == [p] + old(p.owner.free)
    ensures forall pool :: pool in pools ==> pool.Valid()
  {
    var pool := p.owner;
    p.mark := Mark.Free;
    p.queueNext := pool.availableList;
    pool.availableList := p;
    pool.available := pool.available + 1;
    ghost var was := pool.free;
    pool.free := [p] + pool.free;
    assert forall i :: 0 <= i < |pool.free| ==> LinkAt(pool.free, i) == LinkAt(was, i - 1);
  }

  /** What releasing the first `n` packets of a chain makes of the available lists
      `before`, and that it keeps every pool valid. */
  ghost predicate Released(chain: seq<Packet>, n: nat, pools: set<Pool>, before: map<Pool, seq<Packet>>)
    requires n <= |chain| && pools <= before.Keys
    reads *
  {
    && (forall pool {:trigger pool.Valid()} :: pool in pools ==> pool.Valid())
    && forall pool {:trigger Returned(chain, n, pool, before[pool])} :: pool in pools ==>
         pool.free == Returned(chain, n, pool, before[pool])
  }

  lemma ReleasedNone(chain: seq<Packet>, pools: set<Pool>, before: map<Pool, seq<Packet>>)
    requires pools <= before.Keys && forall pool :: pool in pools ==> pool.Valid() && before[pool] == pool.free
    ensures Released(chain, 0, pools, before)
  {
  }

  /** One turn of the release loop. */
  method ReleaseNext(p: Packet, ghost chain: seq<Packet>, ghost n: nat, ghost pools: set<Pool>,
    ghost before: map<Pool, seq<Packet>>)
    requires n < |chain| && pools <= before.Keys && Released(chain, n, pools, before)
    requires chain[n] == p && p.owner in pools && p.mark == Allocated
    requires p.data.Length == p.owner.payloadSize
    modifies p`mark, p`queueNext, p.owner`free, p.owner`available, p.owner`availableList
    ensures Released(chain, n + 1, pools, before)
  {
    ReleaseOne(p, pools);
    forall pool | pool in pools
      ensures pool.free == Returned(chain, n + 1, pool, before[pool])
    {
    }
  }

  /** `_nx_packet_release`: puts every packet of the chain back on its own pool's
      available list, the pools being possibly different; it stops at the first
      packet that is not marked allocated. */
  method Release(head: Packet?, ghost chain: seq<Packet>, ghost pools: set<Pool>,
    ghost before: map<Pool, seq<Packet>>)
    returns (status: Status, ghost count: nat)
    requires before.Keys == pools && forall pool :: pool in pools ==> before[pool] == pool.free
    requires Linked(chain) && head == LinkAt(chain, -1)
    requires forall i :: 0 <= i < |chain| ==>
      chain[i].owner in pools && chain[i].data.Length == chain[i].owner.payloadSize
    requires forall pool :: pool in pools ==> pool.Valid()
    modifies pools, chain
    ensures count <= |chain| && Released(chain, count, pools, before)
    ensures forall j :: 0 <= j < count ==> old(chain[j].mark) == Allocated
    ensures count < |chain| ==> old(chain[count].mark) != Allocated
    ensures status == (if count == |chain| then Success else PtrError)
  {
    hide Released, Returned, Pool.Valid;
    ReleasedNone(chain, pools, before);
    var cur := head;
    count := 0;
    while cur != null
      invariant count <= |chain| && cur == LinkAt(chain, count - 1)
      invariant forall j :: 0 <= j < count ==> old(chain[j].mark) == Allocated
      invariant forall j :: count <= j < |chain| ==> chain[j].mark == old(chain[j].mark)
      invariant Linked(chain)
      invariant Released(chain, count, pools, before)
      decreases |chain| - count
    {
      if cur.mark != Allocated {
        return PtrError, count;
      }
      var nextPacket := cur.next;
      ReleaseNext(cur, chain, count, pools, before);
      cur := nextPacket;
      count := count + 1;
    }
    status := Success;
  }
}
