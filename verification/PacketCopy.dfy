/** `_nx_packet_copy`: clones a chain into packets of another pool by appending
    everything from the head's buffer start on, then restoring the headroom. */
module PacketCopy {
  import opened Octets
  import opened Segments
  import opened Packets
  import opened PacketAppend

  /** A chain built by appends alone: buffers of `payload` bytes, filled from their
      start, all but the last one full. */
  ghost predicate Packed(ss: seq<Segment>, payload: nat, bytes: seq<byte>) {
    && ss != [] && AllOk(ss) && Bytes(ss) == bytes
    && (forall i :: 0 <= i < |ss| ==> ss[i].prepend == 0 && |ss[i].mem| == payload)
    && (forall i :: 0 <= i < |ss| - 1 ==> ss[i].Space() == 0)
    && (forall i :: 0 < i < |ss| ==> 0 < ss[i].append)
  }

  lemma PackedAppend(ss: seq<Segment>, tt: seq<Segment>, payload: nat, bytes: seq<byte>, d: seq<byte>)
    requires Packed(ss, payload, bytes) && Appended(tt, ss, payload, d)
    ensures Packed(tt, payload, bytes + d)
  {
    hide Bytes, Room;
  }

  /** How many packets a packed chain needs is fixed by its size alone. */
  lemma {:induction false} PackedRoom(ss: seq<Segment>, payload: nat, bytes: seq<byte>)
    requires Packed(ss, payload, bytes)
    ensures Room(|ss|, payload) == |bytes| + ss[|ss| - 1].Space()
    ensures 1 < |ss| ==> Room(|ss| - 1, payload) < |bytes|
  {
    if |ss| == 1 {
      BytesOne(ss[0]);
      assert ss == [ss[0]];
      assert Room(1, payload) == Room(0, payload) + payload;
    } else {
      var rest := ss[1..];
      assert Packed(rest, payload, Bytes(rest));
      PackedRoom(rest, payload, Bytes(rest));
      assert |bytes| == payload + |Bytes(rest)|;
      assert Room(|ss| - 1, payload) == Room(|ss| - 2, payload) + payload;
    }
  }

  lemma {:induction false} RoomAdds(m: nat, n: nat, payload: nat)
    ensures Room(m + n, payload) == Room(m, payload) + Room(n, payload)
  {
    if n != 0 {
      RoomAdds(m, n - 1, payload);
    }
  }

  /** The chain under construction: it and the pool share out the packets `all`. */
  ghost predicate Building(work: Packet, dup: seq<Packet>, pool: Pool, all: seq<Packet>, bytes: seq<byte>)
    reads *
  {
    && pool.Valid() && 1 <= |dup| <= |all| && dup == all[..|dup|] && pool.free == all[|dup|..]
    && (forall i :: 0 <= i < |dup| ==> dup[i].owner == pool)
    && WellFormed(dup) && work == dup[0] && Packed(Segs(dup), pool.payloadSize, bytes)
  }

  /** One append of the copy loop: it fails exactly when the pool was too small from
      the start, and then leaves the packets not in `dup` on the pool's list. */
  method CopyOne(work: Packet, d: seq<byte>, pool: Pool, ghost dup: seq<Packet>, ghost all: seq<Packet>,
    ghost bytes: seq<byte>)
    returns (status: Status, ghost newDup: seq<Packet>)
    requires Building(work, dup, pool, all, bytes) && Apart(SetOf(all))
    requires forall i :: 0 <= i < |all| ==> all[i].owner == pool
    modifies pool, all, Buffers(all)
    ensures status == Success || status == NoPacket
    ensures status == Success <==> Room(|all|, pool.payloadSize) >= |bytes| + |d|
    ensures status == Success ==> Building(work, newDup, pool, all, bytes + d)
    ensures status == Success ==>
      work.interfaceId == old(work.interfaceId) && work.ipHeader == old(work.ipHeader)
    ensures status != Success ==>
      && newDup == dup && pool.Valid() && WellFormed(dup) && pool.free == Reversed(all[|dup|..])
  {
    hide Packed, Appended, Pool.Valid, Linked, InUse, Bytes, Segs, Room, Apart, Reversed;
    ghost var ss := Segs(dup);
    ApartSubset(SetOf(dup) + SetOf(pool.free), SetOf(all));
    PackedRoom(ss, pool.payloadSize, bytes);
    RoomAdds(|dup|, |all| - |dup|, pool.payloadSize);
    status, newDup := Append(work, d, pool, dup);
    if status == Success {
      PackedAppend(ss, Segs(newDup), pool.payloadSize, bytes, d);
    }
  }

  /** What the copy loop has appended after `n` source packets: the head's buffer
      from its start, then the payloads. */
  function Image(ss: seq<Segment>, n: nat): seq<byte>
    requires AllOk(ss) && n <= |ss|
  {
    if n == 0 then [] else ss[0].mem[..ss[0].prepend] + Bytes(ss[..n])
  }

  lemma ImageOfNone(ss: seq<Segment>)
    requires AllOk(ss)
    ensures Image(ss, 0) == []
  {
  }

  lemma ImageStep(ss: seq<Segment>, n: nat)
    requires AllOk(ss) && n < |ss|
    ensures Image(ss, n + 1) == Image(ss, n) + if n == 0 then ss[0].mem[..ss[0].append] else ss[n].Payload()
  {
    hide Bytes;
    assert ss[..n + 1] == ss[..n] + [ss[n]];
    BytesConcat(ss[..n], [ss[n]]);
    BytesOne(ss[n]);
    if n == 0 {
      assert ss[..0] == [];
      BytesOfEmpty(ss[..0]);
    }
  }

  lemma {:induction false} ImageGrows(ss: seq<Segment>, n: nat, m: nat)
    requires AllOk(ss) && n <= m <= |ss|
    ensures |Image(ss, n)| <= |Image(ss, m)|
  {
    hide Image, Bytes;
    if n < m {
      ImageGrows(ss, n, m - 1);
      ImageStep(ss, m - 1);
    }
  }

  /** The packets of `chain` and their buffers are none of `all`'s. */
  ghost predicate Outside(chain: seq<Packet>, all: seq<Packet>) {
    forall i :: 0 <= i < |chain| ==> chain[i] !in all && chain[i].data !in Buffers(all)
  }

  /** `k` is the least number of packets, and at least one, that hold `size` bytes. */
  predicate Least(k: nat, payload: nat, size: nat) {
    1 <= k && size <= Room(k, payload) && (1 < k ==> Room(k - 1, payload) < size)
  }

  /** What a failed copy of `ss` leaves in a pool that had the packets `all`, having taken the
      first `k` of them for the first `n` source packets.  If an append failed, those are
      released in front of the others, which that append had reversed; if the source's length
      was wrong, in front of the others as they were. */
  ghost predicate GivenBack(free: seq<Packet>, status: Status, all: seq<Packet>, k: nat, payload: nat,
    ss: seq<Segment>, n: nat)
    requires AllOk(ss)
  {
    && k <= |all| && n <= |ss| && Least(k, payload, |Image(ss, n)|)
    && multiset(free) == multiset(all)
    && if status == NoPacket then
         && n < |ss| && |Image(ss, n)| <= Room(|all|, payload) < |Image(ss, n + 1)|
         && free == Reversed(all[..k]) + Reversed(all[k..])
       else
         n == |ss| && free == Reversed(all[..k]) + all[k..]
  }

  lemma PacketsBack(free: seq<Packet>, status: Status, all: seq<Packet>, k: nat, payload: nat, ss: seq<Segment>, n: nat)
    requires AllOk(ss) && k <= |all| && n <= |ss| && Least(k, payload, |Image(ss, n)|)
    requires if status == NoPacket then
        && n < |ss| && |Image(ss, n)| <= Room(|all|, payload) < |Image(ss, n + 1)|
        && free == Reversed(all[..k]) + Reversed(all[k..])
      else
        n == |ss| && free == Reversed(all[..k]) + all[k..]
    ensures GivenBack(free, status, all, k, payload, ss, n)
  {
    hide Image, Least, Room, Reversed;
    assert all == all[..k] + all[k..];
  }

  twostate lemma OutsideSame(chain: seq<Packet>)
    requires old(Linked(chain))
    requires forall i :: 0 <= i < |chain| ==> unchanged(chain[i]) && unchanged(chain[i].data)
    ensures Linked(chain) && Segs(chain) == old(Segs(chain))
  {
  }

  /** One turn of the copy loop: append this packet's bytes, or give up and release
      the copy made so far. */
  method CopyNext(packet: Packet, first: bool, work: Packet, pool: Pool, ghost chain: seq<Packet>,
    ghost all: seq<Packet>, ghost dup: seq<Packet>, ghost ss: seq<Segment>, ghost n: nat)
    returns (status: Status, next: Packet?, ghost newDup: seq<Packet>)
    requires n < |chain| && packet == chain[n] && first == (n == 0)
    requires Linked(chain) && Outside(chain, all) && Segs(chain) == ss && AllOk(ss)
    requires Building(work, dup, pool, all, Image(ss, n)) && Apart(SetOf(all))
    requires forall i :: 0 <= i < |all| ==> all[i].owner == pool
    modifies pool, all, Buffers(all)
    ensures status == Success || status == NoPacket
    ensures Linked(chain) && Segs(chain) == ss && next == LinkAt(chain, n)
    ensures status == Success <==> Room(|all|, pool.payloadSize) >= |Image(ss, n + 1)|
    ensures status == Success ==> Building(work, newDup, pool, all, Image(ss, n + 1))
    ensures status == Success ==>
      work.interfaceId == old(work.interfaceId) && work.ipHeader == old(work.ipHeader)
    ensures status != Success ==> pool.Valid() && GivenBack(pool.free, status, all, |dup|, pool.payloadSize, ss, n)
  {
    hide Packed, Pool.Valid, InUse, Bytes, Room, Apart, Reversed, Building, Image, Segs, GivenBack, Least;
    SegsAt(chain, n);
    ImageStep(ss, n);
    BuildingFacts(work, dup, pool, all, Image(ss, n));
    CopyNeeds(work, dup, pool, all, Image(ss, n));
    next := packet.next;
    var from := if first then 0 else packet.prepend;
    label before:
    status, newDup := CopyOne(work, packet.data[from..packet.append], pool, dup, all, Image(ss, n));
    if status != Success {
      ReleaseAll(work, pool, dup);
      PacketsBack(pool.free, status, all, |dup|, pool.payloadSize, ss, n);
    }
    assert forall i :: 0 <= i < |chain| ==> unchanged@before(chain[i]) && unchanged@before(chain[i].data);
    OutsideSame@before(chain);
  }

  lemma BuildingFacts(work: Packet, dup: seq<Packet>, pool: Pool, all: seq<Packet>, bytes: seq<byte>)
    requires Building(work, dup, pool, all, bytes)
    ensures 1 <= |dup| <= |all| && dup == all[..|dup|] && work == dup[0]
    ensures forall i :: 0 <= i < |dup| ==> dup[i] in all && dup[i].owner == pool
    ensures multiset(dup) + multiset(all[|dup|..]) == multiset(all)
  {
    assert all == all[..|dup|] + all[|dup|..];
    assert forall i :: 0 <= i < |dup| ==> dup[i] == all[i];
  }

  lemma SegsAt(ps: seq<Packet>, i: nat)
    requires i < |ps|
    ensures Segs(ps)[i] == ps[i].Seg()
  {
  }

  /** The copy loop. */
  method CopyAll(source: Packet, work: Packet, pool: Pool, ghost chain: seq<Packet>, ghost all: seq<Packet>)
    returns (status: Status, ghost dup: seq<Packet>, ghost n: nat)
    requires chain != [] && source == chain[0] && Linked(chain) && AllOk(Segs(chain)) && Outside(chain, all)
    requires Building(work, [work], pool, all, []) && Apart(SetOf(all))
    requires forall i :: 0 <= i < |all| ==> all[i].owner == pool
    modifies pool, all, Buffers(all)
    ensures status == Success || status == NoPacket
    ensures Linked(chain) && Segs(chain) == old(Segs(chain))
    ensures status == Success <==>
      Room(|all|, pool.payloadSize) >= |Image(old(Segs(chain)), |chain|)|
    ensures status == Success ==>
      && Building(work, dup, pool, all, Image(old(Segs(chain)), |chain|))
      && work.interfaceId == old(work.interfaceId) && work.ipHeader == old(work.ipHeader)
    ensures status != Success ==>
      pool.Valid() && GivenBack(pool.free, status, all, |dup|, pool.payloadSize, old(Segs(chain)), n)
    ensures status == Success ==> n == |chain|
  {
    hide GivenBack, Image, Packed, Pool.Valid, Linked, InUse, Bytes, Segs, Room, Apart, Reversed, Building;
    ghost var ss := Segs(chain);
    dup := [work];
    var packet: Packet? := source;
    var first := true;
    n := 0;
    status := Success;
    ImageOfNone(ss);
    ImageGrows(ss, 0, |chain|);
    while packet != null
      invariant n <= |chain| && packet == LinkAt(chain, n - 1) && first == (n == 0)
      invariant status == Success && Building(work, dup, pool, all, Image(ss, n))
      invariant Room(|all|, pool.payloadSize) >= |Image(ss, n)|
      invariant Segs(chain) == ss && Linked(chain)
      invariant work.interfaceId == old(work.interfaceId) && work.ipHeader == old(work.ipHeader)
      decreases |chain| - n
    {
      ImageGrows(ss, n + 1, |chain|);
      ghost var nowDup;
      status, packet, nowDup := CopyNext(packet, first, work, pool, chain, all, dup, ss, n);
      if status != Success {
        return;
      }
      dup := nowDup;
      first := false;
      n := n + 1;
    }
  }

  /** Moving the head's prepend position to `offset` drops the first `offset` bytes,
      as long as they all lie in the head's buffer. */
  lemma DropHead(ss: seq<Segment>, payload: nat, bytes: seq<byte>, offset: nat)
    requires Packed(ss, payload, bytes) && offset <= |bytes|
    ensures var tt := ss[0 := ss[0].(prepend := offset)];
      && (AllOk(tt) <==> offset <= payload)
      && (offset <= payload ==> Bytes(tt) == bytes[offset..])
  {
    hide Room;
    var tt := ss[0 := ss[0].(prepend := offset)];
    assert tt[1..] == ss[1..] && tt[0].Ok() == (offset <= ss[0].append);
    if |ss| == 1 {
      BytesOne(ss[0]);
      assert ss == [ss[0]];
    }
    if offset <= ss[0].append {
      assert AllOk(tt);
    }
  }

  /** A source of one packet with headroom 3 and one byte, copied into packets of 2 bytes: two of
      them hold what is copied, so that the copy succeeds; its head is then given a prepend
      position that lies behind its data and its buffer. */
  lemma HeadroomBeyondHead(zero: byte)
    ensures
      var source := [Segment([zero, zero, zero, zero, zero], 3, 4)];
      var full := Segment([zero, zero], 0, 2);
      && AllOk(source) && |Bytes(source)| == 1
      && Least(2, 2, |Image(source, 1)|) && Packed([full, full], 2, Image(source, 1))
      && !AllOk([full, full][0 := full.(prepend := source[0].prepend)])
  {
    var head := Segment([zero, zero, zero, zero, zero], 3, 4);
    BytesOne(head);
    assert [head][..1] == [head];
    assert Image([head], 1) == [zero, zero, zero, zero];
    assert Room(2, 2) == Room(1, 2) + 2 == 4;
    var full := Segment([zero, zero], 0, 2);
    assert [full, full][1..] == [full];
    BytesOne(full);
    assert Bytes([full, full]) == [zero, zero, zero, zero];
    assert !AllOk([full, full][0 := full.(prepend := 3)]) by {
      assert !([full, full][0 := full.(prepend := 3)])[0].Ok();
    }
  }

  /** The copy's head gets the source's headroom and header position. */
  method SetHeadroom(work: Packet, offset: nat, ipHeader: int, ghost dup: seq<Packet>)
    requires WellFormed(dup) && work == dup[0] && offset <= work.length
    modifies work`prepend, work`length, work`ipHeader
    ensures Shape(dup) && Segs(dup) == old(Segs(dup)[0 := Segs(dup)[0].(prepend := offset)])
    ensures work.prepend == offset && work.length == old(work.length) - offset && work.ipHeader == ipHeader
    ensures work.interfaceId == old(work.interfaceId)
  {
    work.prepend := offset;
    work.length := work.length - offset;
    work.ipHeader := ipHeader;
    assert forall i :: 1 <= i < |dup| ==> dup[i].Seg() == old(dup[i].Seg());
  }

  lemma StartBuilding(work: Packet, pool: Pool, all: seq<Packet>)
    requires pool.Valid() && all != [] && work == all[0] && pool.free == all[1..]
    requires work.owner == pool && work.mark == Allocated && work.data.Length == pool.payloadSize
    requires work.next == null && work.last == null && work.length == 0 && work.prepend == work.append == 0
    ensures Building(work, [work], pool, all, [])
  {
    assert Segs([work]) == [work.Seg()];
    BytesOne(work.Seg());
  }

  /** A chain with its head's payload taken from the start of the head's buffer. */
  function FromStart(ss: seq<Segment>): seq<Segment>
    requires ss != []
  {
    ss[0 := ss[0].(prepend := 0)]
  }

  /** The state of a finished copy.  The bytes in front of the payload, which the header position
      points into, are copied as well, wherever the prepend position comes to lie. */
  ghost predicate Copied(source: Packet, copy: Packet, dup: seq<Packet>, ss: seq<Segment>, payload: nat)
    requires ss != [] && AllOk(ss) && ss[0].prepend == source.prepend
    reads source, dup, Buffers(dup), copy, copy.data
  {
    && Shape(dup) && copy == dup[0] && copy.length == |Bytes(ss)|
    && copy.prepend == source.prepend && copy.ipHeader == source.ipHeader
    && copy.interfaceId == source.interfaceId
    && (WellFormed(dup) <==> source.prepend <= payload)
    && (WellFormed(dup) ==> Bytes(Segs(dup)) == Bytes(ss))
    && AllOk(FromStart(Segs(dup)))
    && Bytes(FromStart(Segs(dup))) == ss[0].mem[..ss[0].append] + Bytes(ss[1..])
    && (source.prepend <= payload ==>
          source.prepend <= copy.data.Length && copy.data[..source.prepend] == ss[0].mem[..source.prepend])
  }

  lemma ImageOfAll(ss: seq<Segment>)
    requires ss != [] && AllOk(ss)
    ensures Image(ss, |ss|) == ss[0].mem[..ss[0].prepend] + Bytes(ss)
    ensures Image(ss, |ss|) == ss[0].mem[..ss[0].append] + Bytes(ss[1..])
  {
    hide Bytes;
    assert ss[..|ss|] == ss;
    BytesFront(ss);
    var s, rest := ss[0], Bytes(ss[1..]);
    assert s.mem[..s.prepend] + s.Payload() == s.mem[..s.append];
    Regroup(s.mem[..s.prepend], s.Payload(), rest);
  }

  lemma Regroup(a: seq<byte>, b: seq<byte>, c: seq<byte>)
    ensures a + (b + c) == a + b + c
  {
  }

  /** What restoring the headroom of the finished copy `tt` of `ss` keeps. */
  lemma HeadersKept(tt: seq<Segment>, payload: nat, ss: seq<Segment>)
    requires ss != [] && AllOk(ss) && Packed(tt, payload, Image(ss, |ss|))
    ensures var offset := ss[0].prepend;
      && FromStart(tt[0 := tt[0].(prepend := offset)]) == tt && AllOk(tt)
      && Bytes(tt) == ss[0].mem[..ss[0].append] + Bytes(ss[1..])
      && (offset <= payload ==> offset <= tt[0].append && tt[0].mem[..offset] == ss[0].mem[..offset])
  {
    hide Bytes, Image, Room;
    var offset := ss[0].prepend;
    ImageOfAll(ss);
    BytesFront(tt);
    DropHead(tt, payload, Image(ss, |ss|), offset);
    assert FromStart(tt[0 := tt[0].(prepend := offset)]) == tt;
    if offset <= payload {
      assert tt[0 := tt[0].(prepend := offset)][0].Ok();
      assert tt[0].Payload()[..offset] == Bytes(tt)[..offset];
    }
  }

  lemma BytesFront(ss: seq<Segment>)
    requires ss != [] && AllOk(ss)
    ensures Bytes(ss) == ss[0].Payload() + Bytes(ss[1..])
  {
  }

  /** The last part of the copy. */
  method Restore(source: Packet, work: Packet, pool: Pool, ghost dup: seq<Packet>, ghost all: seq<Packet>,
    ghost ss: seq<Segment>)
    requires ss != [] && AllOk(ss) && ss[0] == source.Seg() && source !in dup
    requires Building(work, dup, pool, all, Image(ss, |ss|)) && work.interfaceId == source.interfaceId
    modifies work
    ensures pool.Valid() && Copied(source, work, dup, ss, pool.payloadSize)
  {
    hide Linked, InUse, Bytes, Segs, Room, Packed, Pool.Valid;
    ImageOfAll(ss);
    SegsAt(dup, 0);
    HeadersKept(Segs(dup), pool.payloadSize, ss);
    DropHead(Segs(dup), pool.payloadSize, Image(ss, |ss|), source.prepend);
    PackedFacts(Segs(dup), pool.payloadSize, Image(ss, |ss|));
    InUseIsNotFree(dup, pool);
    SetHeadroom(work, source.prepend, source.ipHeader, dup);
  }

  lemma PackedFacts(ss: seq<Segment>, payload: nat, bytes: seq<byte>)
    requires Packed(ss, payload, bytes)
    ensures AllOk(ss) && Bytes(ss) == bytes
  {
  }

  /** The copy once its first packet, the head of the old available list `all`, was
      allocated. */
  method FillCopy(source: Packet, work: Packet, pool: Pool, ghost chain: seq<Packet>, ghost all: seq<Packet>)
    returns (status: Status, copy: Packet?, ghost dup: seq<Packet>, ghost n: nat)
    requires chain != [] && source == chain[0] && Linked(chain) && AllOk(Segs(chain)) && Outside(chain, all)
    requires pool.Valid() && all != [] && work == all[0] && pool.free == all[1..] && Apart(SetOf(all))
    requires forall i :: 0 <= i < |all| ==> all[i].owner == pool && all[i].data.Length == pool.payloadSize
    requires work.mark == Allocated && work !in pool.free
    requires work.next == null && work.last == null && work.length == 0 && work.prepend == work.append == 0
    modifies pool, all, Buffers(all)
    ensures pool.Valid()
    ensures var ss := old(Segs(chain));
      status ==
        if Room(|all|, pool.payloadSize) < |Image(ss, |ss|)| then NoPacket
        else if old(source.length) != |Bytes(ss)| then InvalidPacket
        else Success
    ensures status != Success ==>
      copy == null && GivenBack(pool.free, status, all, |dup|, pool.payloadSize, old(Segs(chain)), n)
    ensures status == Success ==>
      && copy != null && Copied(source, copy, dup, old(Segs(chain)), pool.payloadSize)
      && 1 <= |dup| <= |all| && dup == all[..|dup|] && pool.free == all[|dup|..]
      && Least(|dup|, pool.payloadSize, |Image(old(Segs(chain)), |chain|)|)
  {
    hide Linked, InUse, Bytes, Segs, Room, Packed, Pool.Valid, Apart, Building, WellFormed, Image, GivenBack, Least;
    ghost var ss := Segs(chain);
    SegsAt(chain, 0);
    assert chain[0] !in all && work in all;
    assert forall i :: 0 <= i < |chain| ==> chain[i] != work;
    label before:
    work.interfaceId := source.interfaceId;
    OutsideSame@before(chain);
    StartBuilding(work, pool, all);
    status, dup, n := CopyAll(source, work, pool, chain, all);
    copy := null;
    if status == Success {
      SegsAt(chain, 0);
      BuildingFacts(work, dup, pool, all, Image(ss, |ss|));
      CopyNeeds(work, dup, pool, all, Image(ss, |ss|));
      Restore(source, work, pool, dup, all, ss);
      if source.length != work.length {
        ReleaseAll(work, pool, dup);
        status := InvalidPacket;
        PacketsBack(pool.free, status, all, |dup|, pool.payloadSize, ss, n);
      } else {
        copy := work;
      }
    }
  }

  lemma CopyNeeds(work: Packet, dup: seq<Packet>, pool: Pool, all: seq<Packet>, bytes: seq<byte>)
    requires Building(work, dup, pool, all, bytes)
    ensures Least(|dup|, pool.payloadSize, |bytes|) && |bytes| <= Room(|all|, pool.payloadSize)
    ensures pool.free == all[|dup|..]
  {
    hide Pool.Valid, WellFormed, Packed, Room;
    PackedRoom(Segs(dup), pool.payloadSize, bytes);
    RoomGrows(|dup|, |all|, pool.payloadSize);
  }

  /** `_nx_packet_copy` (no wait). */
  method Copy(source: Packet, pool: Pool, ghost chain: seq<Packet>)
    returns (status: Status, copy: Packet?, ghost dup: seq<Packet>, ghost n: nat)
    requires chain != [] && source == chain[0] && Linked(chain) && AllOk(Segs(chain))
    requires pool.Valid() && Outside(chain, pool.free) && Apart(SetOf(pool.free))
    modifies pool, pool.free, Buffers(pool.free)
    ensures pool.Valid() && Linked(chain) && Segs(chain) == old(Segs(chain))
    ensures var ss, free := old(Segs(chain)), old(pool.free);
      status ==
        if source.length == 0 then InvalidPacket
        else if free == [] || Room(|free|, pool.payloadSize) < |Image(ss, |ss|)| then NoPacket
        else if source.length != |Bytes(ss)| then InvalidPacket
        else Success
    ensures status != Success ==>
      && copy == null
      && if source.length == 0 || old(pool.free) == [] then pool.free == old(pool.free)
         else GivenBack(pool.free, status, old(pool.free), |dup|, pool.payloadSize, old(Segs(chain)), n)
    ensures status == Success ==>
      && copy != null && Copied(source, copy, dup, old(Segs(chain)), pool.payloadSize)
      && 1 <= |dup| <= |old(pool.free)|
      && dup == old(pool.free)[..|dup|] && pool.free == old(pool.free)[|dup|..]
      && Least(|dup|, pool.payloadSize, |Image(old(Segs(chain)), |chain|)|)
  {
    hide Linked, InUse, Bytes, Segs, Room, Packed, Pool.Valid, Apart, Building, WellFormed, Image, GivenBack;
    ghost var ss, all := Segs(chain), pool.free;
    copy, dup, n := null, [], 0;
    if source.length == 0 {
      return InvalidPacket, null, [], 0;
    }
    pool.HeadOfFree();
    pool.FreeFacts();
    SegsAt(chain, 0);
    var work;
    label before:
    status, work := pool.Allocate(0);
    assert forall i :: 0 <= i < |chain| ==> unchanged@before(chain[i]) && unchanged@before(chain[i].data);
    OutsideSame@before(chain);
    if status != Success {
      return;
    }
    pool.NotFree(work);
    status, copy, dup, n := FillCopy(source, work, pool, chain, all);
    assert forall i :: 0 <= i < |chain| ==> unchanged@before(chain[i]) && unchanged@before(chain[i].data);
    OutsideSame@before(chain);
  }
}
