/** `_nx_packet_data_append`: adds bytes at the end of a packet chain, taking the
    packets it needs from a pool first, and all of them or none. */
module PacketAppend {
  import opened Octets
  import opened Segments
  import opened Packets

  /** The segments of a chain, front to back. */
  ghost function Segs(ps: seq<Packet>): (ss: seq<Segment>)
    reads ps, Buffers(ps)
    ensures |ss| == |ps|
  {
    seq(|ps|, i requires 0 <= i < |ps| reads ps, Buffers(ps) => ps[i].Seg())
  }

  /** Packets that are in use and whose buffer has the size of their pool. */
  ghost predicate InUse(ps: seq<Packet>)
    reads ps
  {
    forall i :: 0 <= i < |ps| ==>
      ps[i].mark == Allocated && ps[i].data.Length == ps[i].owner.payloadSize
  }

  /** `nx_packet_last` of the head: null for a single packet, else the final one. */
  function LastOf(ps: seq<Packet>): Packet? {
    if |ps| <= 1 then null else ps[|ps| - 1]
  }

  /** What links and markers of a chain must be. */
  ghost predicate Shape(ps: seq<Packet>)
    reads ps
  {
    |ps| != 0 && Linked(ps) && InUse(ps) && ps[0].last == LastOf(ps)
  }

  /** The chain invariant: shape, sound positions, and the cached total length. */
  ghost predicate WellFormed(ps: seq<Packet>)
    reads ps, Buffers(ps)
  {
    Shape(ps) && AllOk(Segs(ps)) && ps[0].length == |Bytes(Segs(ps))|
  }

  /** The temporary list of newly allocated packets; its head's `last` tracks the end. */
  ghost predicate NewList(list: Packet?, taken: seq<Packet>)
    reads taken
  {
    && list == LinkAt(taken, -1)
    && Linked(taken) && InUse(taken)
    && (forall i :: 0 <= i < |taken| ==>
          taken[i].prepend == 0 && taken[i].append == 0 && taken[i].length == 0)
    && (taken != [] ==> taken[0].last == LastOf(taken))
    && forall i :: 0 < i < |taken| ==> taken[i].last == null
  }

  lemma NewListEmpty()
    ensures NewList(null, [])
  {
  }

  /** Links one more packet to the end of the temporary list. */
  method LinkNew(list: Packet?, work: Packet, ghost taken: seq<Packet>) returns (newList: Packet)
    requires NewList(list, taken) && work !in taken
    requires NewList(work, [work])
    modifies taken
    ensures NewList(newList, taken + [work])
  {
    if list != null {
      if list.last != null {
        list.last.next := work;
        list.last := work;
      } else {
        list.last := work;
        list.next := work;
      }
      newList := list;
    } else {
      newList := work;
    }
  }

  /** Releases a whole chain of one pool: its packets go back in chain order, so
      they end up reversed. */
  method ReleaseAll(head: Packet?, pool: Pool, ghost chain: seq<Packet>)
    requires Linked(chain) && InUse(chain) && head == LinkAt(chain, -1) && pool.Valid()
    requires forall i :: 0 <= i < |chain| ==> chain[i].owner == pool
    modifies pool, chain
    ensures pool.Valid() && pool.free == Reversed(chain) + old(pool.free)
  {
    ghost var before := map[pool := pool.free];
    var status, count := Release(head, chain, {pool}, before);
    assert pool.free == Returned(chain, count, pool, before[pool]);
    ReturnedToOnePool(chain, count, pool, before[pool]);
    assert chain[..count] == chain;
  }

  lemma NewListIsChain(list: Packet?, taken: seq<Packet>)
    requires NewList(list, taken)
    ensures Linked(taken) && InUse(taken) && list == LinkAt(taken, -1)
  {
  }

  /** One turn of the allocation loop. */
  method TakeOne(pool: Pool, list: Packet?, ghost taken: seq<Packet>)
    returns (status: Status, newList: Packet?, ghost work: Packet?)
    requires pool.Valid() && NewList(list, taken)
    modifies pool, pool.availableList, taken
    ensures pool.Valid()
    ensures status == (if |old(pool.free)| == 0 then NoPacket else Success)
    ensures status != Success ==> newList == list && NewList(list, taken) && pool.free == []
    ensures status == Success ==>
      && work != null && work == old(pool.free)[0] && pool.free == old(pool.free)[1..] && work.owner == pool
      && NewList(newList, taken + [work])
  {
    var packet;
    status, packet := pool.Allocate(0);
    work, newList := packet, list;
    if status == Success {
      newList := LinkNew(list, packet, taken);
    }
  }

  /** The buffer bytes of `n` packets of a pool, `n * payload` without the product. */
  function Room(n: nat, payload: nat): (r: nat) {
    if n == 0 then 0 else Room(n - 1, payload) + payload
  }

  lemma {:induction false} RoomIsProduct(n: nat, payload: nat)
    ensures Room(n, payload) == n * payload
  {
    if n != 0 {
      RoomIsProduct(n - 1, payload);
      assert n * payload == (n - 1) * payload + payload;
    }
  }

  lemma {:induction false} RoomGrows(m: nat, n: nat, payload: nat)
    requires m <= n
    ensures Room(m, payload) <= Room(n, payload)
  {
    if m < n {
      RoomGrows(m, n - 1, payload);
    }
  }

  /** The allocation loop of the append: takes packets until `available` covers
      `size`.  It succeeds exactly when the pool holds enough; otherwise it has
      emptied the pool and puts everything back. */
  method Gather(pool: Pool, available: nat, size: nat)
    returns (status: Status, list: Packet?, ghost taken: seq<Packet>)
    requires pool.Valid() && available < size
    modifies pool, pool.free
    ensures pool.Valid()
    ensures status == Success || status == NoPacket
    ensures status == Success <==> available + Room(|old(pool.free)|, pool.payloadSize) >= size
    ensures status == Success ==>
      && NewList(list, taken) && taken != [] && |taken| <= |old(pool.free)|
      && taken == old(pool.free)[..|taken|] && pool.free == old(pool.free)[|taken|..]
      && (forall i :: 0 <= i < |taken| ==> taken[i].owner == pool)
      && available + Room(|taken| - 1, pool.payloadSize) < size <= available + Room(|taken|, pool.payloadSize)
    ensures status != Success ==> pool.free == Reversed(old(pool.free))
  {
    hide NewList, Pool.Valid;
    ghost var all := pool.free;
    var got := available;
    list, taken := null, [];
    NewListEmpty();
    while got < size
      invariant pool.Valid() && NewList(list, taken) && |taken| <= |all|
      invariant taken == all[..|taken|] && pool.free == all[|taken|..]
      invariant forall i :: 0 <= i < |taken| ==> taken[i].owner == pool
      invariant got == available + Room(|taken|, pool.payloadSize)
      invariant taken != [] ==> got - pool.payloadSize < size
      decreases |pool.free|
    {
      ghost var work;
      pool.HeadOfFree();
      status, list, work := TakeOne(pool, list, taken);
      if status != Success {
        assert taken == all;
        NewListIsChain(list, taken);
        if list != null {
          ReleaseAll(list, pool, taken);
        }
        return status, null, [];
      }
      taken := taken + [work];
      got := got + pool.payloadSize;
    }
    RoomGrows(|taken|, |all|, pool.payloadSize);
    status := Success;
  }

  /** Copies `d` to the append position of packet `k`: a memcpy and a pointer move. */
  method PutInto(work: Packet, d: seq<byte>, ghost ps: seq<Packet>, ghost k: nat)
    requires k < |ps| && work == ps[k] && Linked(ps) && InUse(ps) && Apart(SetOf(ps))
    requires work.Seg().Ok() && |d| <= work.Seg().Space()
    modifies work`append, work.data
    ensures Linked(ps) && InUse(ps)
    ensures Segs(ps) == old(Segs(ps))[k := old(work.Seg()).Put(d)]
  {
    ghost var before := work.data[..];
    forall i | 0 <= i < |d| {
      work.data[work.append + i] := d[i];
    }
    assert work.data[..] == before[..work.append] + d + before[work.append + |d|..];
    work.append := work.append + |d|;
    forall i | 0 <= i < |ps| && i != k
      ensures ps[i].Seg() == old(ps[i].Seg())
    {
      assert ps[i] in SetOf(ps) && work in SetOf(ps) && ps[i] != work;
    }
  }

  /** The state of the copy loop on abstract segments: `done` has been appended to
      the chain `orig`, segments `k0 .. k - 1` are full, and those after `k`, which
      are new packets of `payload` bytes, are still empty. */
  ghost predicate Filling(ss: seq<Segment>, orig: seq<Segment>, k0: nat, k: nat, payload: nat, done: seq<byte>) {
    && AllOk(ss) && AllOk(orig) && |ss| == |orig| && k0 <= k < |ss|
    && Bytes(ss) == Bytes(orig) + done
    && (forall i :: 0 <= i < k0 ==> ss[i] == orig[i])
    && (forall i :: k0 <= i < k ==> ss[i].Space() == 0)
    && (forall i :: k0 < i < |ss| ==> |ss[i].mem| == payload && ss[i].prepend == 0)
    && (forall i :: k < i < |ss| ==> ss[i].append == 0)
    && SameHead(ss[k0], orig[k0])
    && |done| == if k == k0 then ss[k].append - orig[k].append
                 else orig[k0].Space() + Room(k - k0 - 1, payload) + ss[k].append
  }

  /** `s` is `t` with bytes added at the end only. */
  ghost predicate SameHead(s: Segment, t: Segment) {
    && s.prepend == t.prepend && |s.mem| == |t.mem| && t.append <= s.append <= |s.mem|
    && s.mem[..t.append] == t.mem[..t.append]
  }

  lemma FillPut(ss: seq<Segment>, orig: seq<Segment>, k0: nat, k: nat, payload: nat, done: seq<byte>, d: seq<byte>)
    requires Filling(ss, orig, k0, k, payload, done) && |d| <= ss[k].Space()
    ensures Filling(ss[k := ss[k].Put(d)], orig, k0, k, payload, done + d)
  {
    hide Bytes, Room;
    PutAppends(ss, k, d);
    assert Bytes(orig) + done + d == Bytes(orig) + (done + d);
    var tt := ss[k := ss[k].Put(d)];
    assert k == k0 ==> tt[k0].mem[..orig[k0].append] == ss[k0].mem[..orig[k0].append];
  }

  /** What the copy loop needs to know about its current segment. */
  lemma FillFacts(ss: seq<Segment>, orig: seq<Segment>, k0: nat, k: nat, payload: nat, done: seq<byte>)
    requires Filling(ss, orig, k0, k, payload, done)
    ensures k0 <= k < |ss| == |orig| && AllOk(ss) && AllOk(orig)
    ensures ss[k].Space() == 0 ==> |done| == orig[k0].Space() + Room(k - k0, payload)
  {
  }

  lemma FillMove(ss: seq<Segment>, orig: seq<Segment>, k0: nat, k: nat, payload: nat, done: seq<byte>)
    requires Filling(ss, orig, k0, k, payload, done) && ss[k].Space() == 0 && k + 1 < |ss|
    ensures Filling(ss, orig, k0, k + 1, payload, done)
  {
  }

  /** Moves the copy loop to the next packet and makes it the chain's last one. */
  method Advance(head: Packet, work: Packet, ghost ps: seq<Packet>, ghost k: nat) returns (next: Packet)
    requires k + 1 < |ps| && head == ps[0] && work == ps[k] && Linked(ps) && InUse(ps)
    modifies head`last
    ensures next == ps[k + 1] && head.last == next
    ensures Linked(ps) && InUse(ps) && Segs(ps) == old(Segs(ps))
  {
    next := work.next;
    head.last := next;
  }

  lemma {:induction false} RoomOrder(m: nat, n: nat, payload: nat)
    requires Room(m, payload) < Room(n, payload)
    ensures m < n
  {
    if n <= m {
      RoomGrows(n, m, payload);
    }
  }

  /** One turn of the copy loop: fill the current packet, then move on if bytes are left. */
  method CopyTurn(head: Packet, work: Packet, rest: seq<byte>, ghost ps: seq<Packet>, ghost orig: seq<Segment>,
    ghost k0: nat, ghost k: nat, ghost payload: nat, ghost done: seq<byte>)
    returns (nextWork: Packet, nextRest: seq<byte>, ghost nextDone: seq<byte>)
    requires k < |ps| && head == ps[0] && work == ps[k] && Linked(ps) && InUse(ps) && Apart(SetOf(ps))
    requires Filling(Segs(ps), orig, k0, k, payload, done) && rest != []
    requires |done + rest| <= orig[k0].Space() + Room(|ps| - 1 - k0, payload)
    modifies work`append, work.data, head`last
    ensures Linked(ps) && InUse(ps)
    ensures nextDone + nextRest == done + rest && |nextRest| <= |rest|
    ensures nextRest != [] ==>
      && k + 1 < |ps| && nextWork == ps[k + 1] && head.last == nextWork
      && Filling(Segs(ps), orig, k0, k + 1, payload, nextDone)
    ensures nextRest == [] ==>
      && nextWork == work && head.last == old(head.last)
      && Filling(Segs(ps), orig, k0, k, payload, nextDone)
  {
    hide Linked, InUse, Apart, Filling, Room;
    FillFacts(Segs(ps), orig, k0, k, payload, done);
    var space := work.data.Length - work.append;
    var copySize := if |rest| < space then |rest| else space;
    FillPut(Segs(ps), orig, k0, k, payload, done, rest[..copySize]);
    PutInto(work, rest[..copySize], ps, k);
    nextWork, nextRest, nextDone := work, rest[copySize..], done + rest[..copySize];
    assert rest == rest[..copySize] + rest[copySize..];
    if nextRest != [] {
      FillFacts(Segs(ps), orig, k0, k, payload, nextDone);
      RoomOrder(k - k0, |ps| - 1 - k0, payload);
      FillMove(Segs(ps), orig, k0, k, payload, nextDone);
      nextWork := Advance(head, work, ps, k);
    }
  }

  /** Every packet before the last one reached is needed, so the loop that stops
      with `data` placed has reached the last packet of the chain. */
  lemma StopsAtEnd(ss: seq<Segment>, orig: seq<Segment>, k0: nat, k: nat, payload: nat, data: seq<byte>)
    requires Filling(ss, orig, k0, k, payload, data)
    requires k0 + 1 < |ss| ==> orig[k0].Space() + Room(|ss| - 2 - k0, payload) < |data|
    ensures k == |ss| - 1
  {
    if k < |ss| - 1 {
      RoomGrows(if k == k0 then 0 else k - k0, |ss| - 2 - k0, payload);
    }
  }

  /** The packet fields that copying bytes in leaves alone. */
  twostate predicate Kept(p: Packet)
    reads p
  {
    && p.length == old(p.length) && p.interfaceId == old(p.interfaceId)
    && p.ipHeader == old(p.ipHeader) && p.queueNext == old(p.queueNext)
  }

  /** The copy loop of the append. */
  method CopyIn(head: Packet, data: seq<byte>, ghost ps: seq<Packet>, ghost k0: nat, ghost payload: nat)
    requires k0 < |ps| && head == ps[0] && Linked(ps) && InUse(ps) && Apart(SetOf(ps))
    requires head.last == if k0 == 0 then null else ps[k0]
    requires Filling(Segs(ps), Segs(ps), k0, k0, payload, [])
    requires |data| <= Segs(ps)[k0].Space() + Room(|ps| - 1 - k0, payload)
    requires k0 + 1 < |ps| ==> Segs(ps)[k0].Space() + Room(|ps| - 2 - k0, payload) < |data|
    modifies ps, Buffers(ps)
    ensures Linked(ps) && InUse(ps) && head.last == LastOf(ps)
    ensures forall i :: 0 <= i < |ps| ==> Kept(ps[i])
    ensures Filling(Segs(ps), old(Segs(ps)), k0, |ps| - 1, payload, data)
  {
    hide Filling, Linked, InUse, Apart, Segs, Room;
    ghost var orig := Segs(ps);
    var work := if head.last != null then head.last else head;
    var rest := data;
    ghost var k, done := k0, [];
    while rest != []
      invariant k0 <= k < |ps| && work == ps[k] && Linked(ps) && InUse(ps)
      invariant head.last == if k == 0 then null else ps[k]
      invariant done + rest == data && Filling(Segs(ps), orig, k0, k, payload, done)
      invariant forall i :: 0 <= i < |ps| ==> Kept(ps[i])
      decreases |rest|, |ps| - k
    {
      work, rest, done := CopyTurn(head, work, rest, ps, orig, k0, k, payload, done);
      if rest != [] {
        k := k + 1;
      }
    }
    assert done == data;
    StopsAtEnd(Segs(ps), orig, k0, k, payload, data);
  }

  /** Free bytes at the end of the chain: the walk from the last packet on. */
  method TailSpace(head: Packet, ghost chain: seq<Packet>, ghost tail: Segment)
    returns (available: nat, lastPacket: Packet?)
    requires Shape(chain) && head == chain[0]
    requires tail == Segs(chain)[|chain| - 1] && tail.Ok()
    ensures available == tail.Space() && lastPacket == head.last == LastOf(chain)
  {
    lastPacket := null;
    if head.last != null {
      available := 0;
      var work := head.last;
      assert work == chain[|chain| - 1];
      while work != null
        invariant work != null ==> work == chain[|chain| - 1] && available == 0
        invariant work == null ==> available == tail.Space() && lastPacket == chain[|chain| - 1]
        decreases work != null
      {
        assert work.Seg() == tail;
        available := available + (work.data.Length - work.append);
        lastPacket := work;
        work := work.next;
      }
    } else {
      assert head.Seg() == tail;
      available := head.data.Length - head.append;
    }
  }

  /** Links the new packets behind the chain. */
  method Join(head: Packet, lastPacket: Packet?, list: Packet, ghost chain: seq<Packet>, ghost taken: seq<Packet>)
    requires Shape(chain) && head == chain[0] && lastPacket == LastOf(chain)
    requires NewList(list, taken) && taken != []
    requires forall i, j :: 0 <= i < |chain| && 0 <= j < |taken| ==> chain[i] != taken[j]
    modifies chain, taken
    ensures Linked(chain + taken) && InUse(chain + taken)
    ensures Segs(chain + taken) == old(Segs(chain) + Segs(taken))
    ensures head.last == old(head.last) && head.length == old(head.length)
    ensures forall i :: 0 <= i < |chain| ==> Kept(chain[i])
  {
    if lastPacket != null {
      lastPacket.next := list;
    } else {
      head.next := list;
    }
    list.last := null;
  }

  lemma InUseIsNotFree(ps: seq<Packet>, pool: Pool)
    requires InUse(ps) && pool.Valid()
    ensures forall i :: 0 <= i < |ps| ==> ps[i] !in pool.free
  {
  }

  /** New packets are empty segments of the pool's payload size. */
  lemma NewListSegs(list: Packet?, taken: seq<Packet>, payload: nat)
    requires NewList(list, taken)
    requires forall i :: 0 <= i < |taken| ==> taken[i].owner.payloadSize == payload
    ensures list == LinkAt(taken, -1)
    ensures InUse(taken)
    ensures AllOk(Segs(taken)) && Bytes(Segs(taken)) == []
    ensures forall i :: 0 <= i < |taken| ==>
      var s := Segs(taken)[i]; |s.mem| == payload && s.prepend == 0 && s.append == 0
  {
    assert forall i :: 0 <= i < |taken| ==> Segs(taken)[i] == taken[i].Seg();
    BytesOfEmpty(Segs(taken));
  }

  lemma FillStart(ss: seq<Segment>, tt: seq<Segment>, payload: nat)
    requires AllOk(ss) && ss != [] && AllOk(tt) && Bytes(tt) == []
    requires forall i :: 0 <= i < |tt| ==> |tt[i].mem| == payload && tt[i].prepend == 0 && tt[i].append == 0
    ensures Filling(ss + tt, ss + tt, |ss| - 1, |ss| - 1, payload, [])
    ensures Bytes(ss + tt) == Bytes(ss)
  {
    hide Bytes;
    BytesConcat(ss, tt);
    var all := ss + tt;
    assert Bytes(all) == Bytes(all) + [];
    assert forall i :: |ss| <= i < |all| ==> all[i] == tt[i - |ss|];
  }

  lemma FillStartAlone(ss: seq<Segment>, payload: nat)
    requires AllOk(ss) && ss != []
    ensures Filling(ss, ss, |ss| - 1, |ss| - 1, payload, [])
  {
    FillStart(ss, [], payload);
    assert ss + [] == ss;
  }

  twostate lemma SegsSame(ps: seq<Packet>)
    requires forall i :: 0 <= i < |ps| ==> unchanged(ps[i]) && unchanged(ps[i].data)
    ensures Segs(ps) == old(Segs(ps))
  {
  }

  twostate lemma InUseSame(ps: seq<Packet>)
    requires forall i :: 0 <= i < |ps| ==> unchanged(ps[i])
    requires old(Linked(ps)) && old(InUse(ps))
    ensures Linked(ps) && InUse(ps)
  {
  }

  /** A chain with room for what will be copied behind its old last packet `k0`. */
  ghost predicate Roomy(head: Packet, ps: seq<Packet>, k0: nat, payload: nat)
    reads ps, Buffers(ps)
  {
    && k0 < |ps| && head == ps[0] && Linked(ps) && InUse(ps)
    && head.last == (if k0 == 0 then null else ps[k0])
    && Filling(Segs(ps), Segs(ps), k0, k0, payload, [])
  }

  /** The allocation branch of the append: new packets are gathered and linked in. */
  method Grow(head: Packet, lastPacket: Packet?, available: nat, size: nat, pool: Pool, ghost chain: seq<Packet>)
    returns (status: Status, ghost taken: seq<Packet>)
    requires Shape(chain) && AllOk(Segs(chain)) && head == chain[0] && lastPacket == LastOf(chain)
    requires pool.Valid() && available < size
    modifies pool, pool.free, chain
    ensures pool.Valid() && (status == Success || status == NoPacket)
    ensures status == Success <==> available + Room(|old(pool.free)|, pool.payloadSize) >= size
    ensures status != Success ==>
      pool.free == Reversed(old(pool.free)) && forall i :: 0 <= i < |chain| ==> unchanged(chain[i])
    ensures status == Success ==>
      && taken != [] && |taken| <= |old(pool.free)|
      && taken == old(pool.free)[..|taken|] && pool.free == old(pool.free)[|taken|..]
      && available + Room(|taken| - 1, pool.payloadSize) < size <= available + Room(|taken|, pool.payloadSize)
      && Roomy(head, chain + taken, |chain| - 1, pool.payloadSize)
      && Segs(chain + taken)[..|chain|] == old(Segs(chain))
      && Bytes(Segs(chain + taken)) == Bytes(old(Segs(chain)))
      && (forall i :: 0 <= i < |chain| ==> Kept(chain[i]))
  {
    hide NewList, Linked, Segs, Bytes, Filling, Room, Pool.Valid;
    ghost var ss := Segs(chain);
    InUseIsNotFree(chain, pool);
    var list;
    label before:
    status, list, taken := Gather(pool, available, size);
    if status == Success {
      assert forall i :: 0 <= i < |chain| ==> unchanged@before(chain[i]) && unchanged@before(chain[i].data);
      SegsSame@before(chain);
      assert forall j :: 0 <= j < |taken| ==> taken[j] in old(pool.free);
      InUseIsNotFree(chain, pool);
      NewListSegs(list, taken, pool.payloadSize);
      InUseIsNotFree(taken, pool);
      FillStart(ss, Segs(taken), pool.payloadSize);
      Join(head, lastPacket, list, chain, taken);
    }
  }

  /** What a successful append does to the abstract chain `ss`: `data` is put behind
      it, starting in its last segment; every earlier segment is untouched; the
      new segments all hold data, and only the last of them may have space left. */
  ghost predicate Appended(tt: seq<Segment>, ss: seq<Segment>, payload: nat, data: seq<byte>)
    requires ss != []
  {
    var k0 := |ss| - 1;
    && AllOk(ss) && AllOk(tt) && |ss| <= |tt|
    && Bytes(tt) == Bytes(ss) + data
    && (forall i :: 0 <= i < k0 ==> tt[i] == ss[i])
    && SameHead(tt[k0], ss[k0])
    && (forall i :: k0 <= i < |tt| - 1 ==> tt[i].Space() == 0)
    && (forall i :: k0 < i < |tt| ==> |tt[i].mem| == payload && tt[i].prepend == 0 && 0 < tt[i].append)
    && |data| == if |tt| == |ss| then tt[k0].append - ss[k0].append
                 else ss[k0].Space() + Room(|tt| - |ss| - 1, payload) + tt[|tt| - 1].append
  }

  lemma FilledIsAppended(tt: seq<Segment>, orig: seq<Segment>, ss: seq<Segment>, payload: nat, data: seq<byte>)
    requires ss != [] && |ss| <= |orig| == |tt| && orig[..|ss|] == ss && AllOk(ss)
    requires Filling(tt, orig, |ss| - 1, |tt| - 1, payload, data) && Bytes(orig) == Bytes(ss)
    requires |ss| < |orig| ==> ss[|ss| - 1].Space() + Room(|orig| - |ss| - 1, payload) < |data|
    ensures Appended(tt, ss, payload, data)
    ensures AllOk(tt) && |Bytes(tt)| == |Bytes(ss)| + |data|
  {
    hide Bytes;
    assert orig[|ss| - 1] == ss[|ss| - 1];
  }

  method AddLength(head: Packet, size: nat, ghost ps: seq<Packet>, ghost k0: nat, ghost payload: nat)
    requires Roomy(head, ps, k0, payload)
    modifies head`length
    ensures Roomy(head, ps, k0, payload) && head.length == old(head.length) + size
    ensures Segs(ps) == old(Segs(ps))
  {
    hide Filling;
    head.length := head.length + size;
    assert Segs(ps) == old(Segs(ps));
  }

  /** The second half of the append: the new length, then the copy loop. */
  method Finish(head: Packet, data: seq<byte>, ghost ps: seq<Packet>, ghost k0: nat, ghost payload: nat)
    requires Roomy(head, ps, k0, payload) && Apart(SetOf(ps))
    requires |data| <= Segs(ps)[k0].Space() + Room(|ps| - 1 - k0, payload)
    requires k0 + 1 < |ps| ==> Segs(ps)[k0].Space() + Room(|ps| - 2 - k0, payload) < |data|
    modifies ps, Buffers(ps)
    ensures Shape(ps) && Filling(Segs(ps), old(Segs(ps)), k0, |ps| - 1, payload, data)
    ensures head.length == old(head.length) + |data|
    ensures head.interfaceId == old(head.interfaceId) && head.ipHeader == old(head.ipHeader)
  {
    hide Filling, Linked, InUse, Segs, Room, Apart;
    AddLength(head, |data|, ps, k0, payload);
    CopyIn(head, data, ps, k0, payload);
  }

  lemma ApartSubset(ps: set<Packet>, qs: set<Packet>)
    requires Apart(qs) && ps <= qs
    ensures Apart(ps)
  {
  }

  /** The first half of the append: room for `size` bytes behind the chain, or nothing. */
  method MakeRoom(head: Packet, size: nat, pool: Pool, ghost chain: seq<Packet>)
    returns (status: Status, ghost result: seq<Packet>)
    requires WellFormed(chain) && head == chain[0] && pool.Valid()
    requires Apart(SetOf(chain) + SetOf(pool.free))
    modifies pool, pool.free, chain
    ensures pool.Valid() && (status == Success || status == NoPacket)
    ensures status == Success <==>
      old(Segs(chain)[|chain| - 1].Space()) + Room(|old(pool.free)|, pool.payloadSize) >= size
    ensures status != Success ==>
      && result == chain && pool.free == Reversed(old(pool.free))
      && forall i :: 0 <= i < |chain| ==> unchanged(chain[i])
    ensures status == Success ==>
      && |chain| <= |result| <= |chain| + |old(pool.free)|
      && result == chain + old(pool.free)[..|result| - |chain|]
      && pool.free == old(pool.free)[|result| - |chain|..]
      && Roomy(head, result, |chain| - 1, pool.payloadSize) && Kept(head) && Apart(SetOf(result))
      && Segs(result)[..|chain|] == old(Segs(chain)) && Bytes(Segs(result)) == Bytes(old(Segs(chain)))
      && size <= old(Segs(chain)[|chain| - 1].Space()) + Room(|result| - |chain|, pool.payloadSize)
      && (|chain| < |result| ==>
            old(Segs(chain)[|chain| - 1].Space()) + Room(|result| - |chain| - 1, pool.payloadSize) < size)
  {
    hide Linked, InUse, Segs, Bytes, Filling, Room, Pool.Valid, Apart, Reversed;
    ghost var ss := Segs(chain);
    var available, lastPacket := TailSpace(head, chain, ss[|chain| - 1]);
    SegsSame(chain);
    ghost var taken := [];
    result := chain;
    status := Success;
    if available < size {
      status, taken := Grow(head, lastPacket, available, size, pool, chain);
      if status != Success {
        return;
      }
      result := chain + taken;
    } else {
      FillStartAlone(ss, pool.payloadSize);
    }
    ApartSubset(SetOf(result), SetOf(chain) + SetOf(old(pool.free)));
  }

  /** `_nx_packet_data_append` (no wait). */
  method Append(head: Packet, data: seq<byte>, pool: Pool, ghost chain: seq<Packet>)
    returns (status: Status, ghost result: seq<Packet>)
    requires WellFormed(chain) && head == chain[0] && pool.Valid()
    requires Apart(SetOf(chain) + SetOf(pool.free))
    modifies pool, pool.free, chain, Buffers(chain), Buffers(pool.free)
    ensures pool.Valid() && (status == Success || status == NoPacket)
    ensures status == Success <==>
      old(Segs(chain)[|chain| - 1].Space()) + Room(|old(pool.free)|, pool.payloadSize) >= |data|
    ensures status != Success ==>
      && result == chain && pool.free == Reversed(old(pool.free))
      && forall i :: 0 <= i < |chain| ==> unchanged(chain[i]) && unchanged(chain[i].data)
    ensures status == Success ==>
      && |chain| <= |result| <= |chain| + |old(pool.free)|
      && result == chain + old(pool.free)[..|result| - |chain|]
      && pool.free == old(pool.free)[|result| - |chain|..]
      && WellFormed(result) && head.length == old(head.length) + |data|
      && Appended(Segs(result), old(Segs(chain)), pool.payloadSize, data)
      && head.interfaceId == old(head.interfaceId) && head.ipHeader == old(head.ipHeader)
  {
    hide Linked, InUse, Segs, Bytes, Filling, Room, Pool.Valid, Appended, Apart, Reversed;
    ghost var ss := Segs(chain);
    status, result := MakeRoom(head, |data|, pool, chain);
    if status == Success {
      InUseIsNotFree(result, pool);
      ghost var orig := Segs(result);
      Finish(head, data, result, |chain| - 1, pool.payloadSize);
      FilledIsAppended(Segs(result), orig, ss, pool.payloadSize, data);
    }
  }
}
