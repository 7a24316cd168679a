/** `_nx_packet_data_adjust`: makes room for a header in front of a chain's data,
    by doing nothing, by shifting the head's data, or by spilling part of it into a
    packet inserted behind the head. */
module PacketAdjust {
  import opened Octets
  import opened Segments
  import opened Packets
  import opened PacketAppend

  /** memmove within the buffer, from offset `from` to offset `to`. */
  method MoveBytes(data: array<byte>, from: nat, to: nat, count: nat)
    requires from + count <= data.Length && to + count <= data.Length
    modifies data
    ensures data[to..to + count] == old(data[from..from + count])
  {
    forall i | 0 <= i < count {
      data[to + i] := data[from + i];
    }
  }

  /** Moves the first `count` payload bytes to offset `header`, then the two pointers. */
  method Shift(head: Packet, header: nat, count: nat, ghost ps: seq<Packet>)
    requires ps != [] && head == ps[0] && Linked(ps) && InUse(ps) && Apart(SetOf(ps))
    requires head.Seg().Ok() && count <= |head.Seg().Payload()| && header + count <= head.data.Length
    modifies head`prepend, head`append, head.data
    ensures Linked(ps) && InUse(ps) && Segs(ps)[1..] == old(Segs(ps))[1..]
    ensures head.Seg().Ok() && head.Seg().Payload() == old(head.Seg().Payload())[..count]
    ensures head.prepend == header && head.append == header + count
  {
    hide Apart;
    OthersApart(ps);
    ghost var moved := head.data[head.prepend..head.prepend + count];
    assert head.Seg().Payload()[..count] == moved;
    MoveBytes(head.data, head.prepend, header, count);
    head.prepend := header;
    head.append := head.prepend + count;
    assert head.Seg().Payload() == moved;
    forall i | 1 <= i < |ps|
      ensures ps[i].Seg() == old(ps[i].Seg())
    {
    }
  }

  lemma OthersApart(ps: seq<Packet>)
    requires ps != [] && Linked(ps) && Apart(SetOf(ps))
    ensures forall i :: 1 <= i < |ps| ==> ps[i] != ps[0] && ps[i].data != ps[0].data
  {
    forall i | 1 <= i < |ps|
      ensures ps[i] != ps[0] && ps[i].data != ps[0].data
    {
      assert ps[i] in SetOf(ps) && ps[0] in SetOf(ps);
    }
  }

  /** Replacing the head segment by segments with the same bytes. */
  lemma BytesSplitHead(ss: seq<Segment>, front: seq<Segment>)
    requires ss != [] && AllOk(ss) && AllOk(front) && Bytes(front) == ss[0].Payload()
    ensures AllOk(front + ss[1..]) && Bytes(front + ss[1..]) == Bytes(ss)
  {
    BytesConcat(front, ss[1..]);
  }

  lemma BytesTwo(s: Segment, t: Segment)
    requires s.Ok() && t.Ok()
    ensures AllOk([s, t]) && Bytes([s, t]) == s.Payload() + t.Payload()
  {
    BytesConcat([s], [t]);
    BytesOne(s);
    BytesOne(t);
  }

  /** Copies the overflowing bytes into the new packet. */
  method Spill(work: Packet, d: seq<byte>)
    requires work.prepend == work.append == 0 && |d| <= work.data.Length
    modifies work`append, work.data
    ensures work.Seg().Ok() && work.Seg().Payload() == d && work.prepend == 0
  {
    forall i | 0 <= i < |d| {
      work.data[work.prepend + i] := d[i];
    }
    work.append := work.prepend + |d|;
  }

  /** Inserts the new packet behind the head. */
  method Insert(head: Packet, work: Packet, ghost chain: seq<Packet>)
    requires Shape(chain) && head == chain[0] && work !in chain
    requires work.mark == Allocated && work.data.Length == work.owner.payloadSize
    modifies head`next, head`last, work`next
    ensures Shape([head, work] + chain[1..])
    ensures Segs(chain) == old(Segs(chain)) && work.Seg() == old(work.Seg())
  {
    ghost var ps := [head, work] + chain[1..];
    work.next := head.next;
    head.next := work;
    if head.last == null {
      head.last := work;
    }
    assert forall i :: 2 <= i < |ps| ==> ps[i] == chain[i - 1] && LinkAt(ps, i) == LinkAt(chain, i - 1);
    assert LinkAt(ps, 1) == LinkAt(chain, 0);
    assert Linked(ps);
    assert InUse(ps);
  }

  lemma SegsInserted(head: Packet, work: Packet, chain: seq<Packet>)
    requires chain != [] && head == chain[0]
    ensures Segs([head, work] + chain[1..]) == [head.Seg(), work.Seg()] + Segs(chain)[1..]
  {
  }

  /** Spreads the head's payload over the head and a new, empty packet. */
  method Spread(head: Packet, work: Packet, header: nat, overflow: nat, ghost chain: seq<Packet>)
    requires WellFormed(chain) && head == chain[0]
    requires work.mark == Allocated && work.data.Length == work.owner.payloadSize
    requires work !in chain && work.prepend == work.append == 0
    requires Apart(SetOf(chain) + {work}) && header <= head.data.Length == work.data.Length
    requires 0 < overflow == header - head.prepend - (head.data.Length - head.append)
    modifies head, head.data, work, work.data
    ensures WellFormed([head, work] + chain[1..]) && work.prepend == 0 && work.append == overflow
    ensures Bytes(Segs([head, work] + chain[1..])) == old(Bytes(Segs(chain)))
    ensures head.length == old(head.length)
    ensures head.prepend == header && head.append == head.data.Length
  {
    hide Linked, InUse, Bytes;
    assert head.Seg() == Segs(chain)[0];
    ghost var ss, payload := Segs(chain), head.Seg().Payload();
    var dataStart := head.append - overflow;
    Spill(work, head.data[dataStart..head.append]);
    assert work.Seg().Payload() == payload[|payload| - overflow..];
    SegsSame(chain);
    Shift(head, header, head.append - head.prepend - overflow, chain);
    Insert(head, work, chain);
    SegsInserted(head, work, chain);
    BytesTwo(head.Seg(), work.Seg());
    BytesSplitHead(ss, [head.Seg(), work.Seg()]);
  }

  /** The third case: the bytes that do not fit move to a new packet. */
  method SpillOver(head: Packet, header: nat, overflow: nat, ghost chain: seq<Packet>)
    returns (status: Status, ghost work: Packet?)
    requires WellFormed(chain) && head == chain[0] && head.owner.Valid()
    requires Apart(SetOf(chain) + SetOf(head.owner.free))
    requires header <= head.data.Length
    requires 0 < overflow == header - head.prepend - (head.data.Length - head.append)
    modifies head, head.data, head.owner, head.owner.free, Buffers(head.owner.free)
    ensures head.owner.Valid()
    ensures status == if |old(head.owner.free)| == 0 then NoPacket else Success
    ensures status != Success ==> unchanged(head) && unchanged(head.data) && unchanged(head.owner)
    ensures status == Success ==>
      && work != null && work == old(head.owner.free)[0] && head.owner.free == old(head.owner.free)[1..]
      && WellFormed([head, work] + chain[1..]) && work.prepend == 0 && work.append == overflow
      && Bytes(Segs([head, work] + chain[1..])) == old(Bytes(Segs(chain)))
      && head.length == old(head.length)
      && head.prepend == header && head.append == head.data.Length
  {
    hide Linked, InUse, Bytes, Segs, Pool.Valid;
    var packet;
    InUseIsNotFree(chain, head.owner);
    head.owner.HeadOfFree();
    head.owner.FreeFacts();
    label before:
    status, packet := head.owner.Allocate(0);
    work := packet;
    if status == Success {
      assert forall i :: 0 <= i < |chain| ==> unchanged@before(chain[i]) && unchanged@before(chain[i].data);
      SegsSame@before(chain);
      InUseSame@before(chain);
      InUseIsNotFree(chain, head.owner);
      head.owner.NotFree(packet);
      ApartSubset(SetOf(chain) + {packet}, SetOf(chain) + SetOf(old(head.owner.free)));
      Spread(head, packet, header, overflow, chain);
    }
  }

  /** The second case: the header fits once the data is moved up. */
  method MoveUp(head: Packet, header: nat, ghost chain: seq<Packet>)
    requires WellFormed(chain) && head == chain[0]
    requires Apart(SetOf(chain)) && header <= head.prepend + head.data.Length - head.append
    modifies head`prepend, head`append, head.data
    ensures WellFormed(chain) && Bytes(Segs(chain)) == old(Bytes(Segs(chain)))
    ensures head.prepend == header
  {
    hide Linked, InUse, Bytes;
    assert head.Seg() == Segs(chain)[0];
    ghost var ss := Segs(chain);
    Shift(head, header, head.append - head.prepend, chain);
    assert Segs(chain) == [head.Seg()] + ss[1..];
    BytesOne(head.Seg());
    BytesSplitHead(ss, [head.Seg()]);
  }

  /** `_nx_packet_data_adjust`. */
  method Adjust(head: Packet, header: nat, ghost chain: seq<Packet>)
    returns (status: Status, ghost result: seq<Packet>)
    requires WellFormed(chain) && head == chain[0] && head.owner.Valid()
    requires Apart(SetOf(chain) + SetOf(head.owner.free))
    modifies head, head.data, head.owner, head.owner.free, Buffers(head.owner.free)
    ensures head.owner.Valid()
    ensures status ==
      var room := old(head.prepend + head.data.Length - head.append);
      if head.data.Length < header then Underflow
      else if old(head.prepend) >= header || room >= header then Success
      else if header % 2 == 1 then NotSupported
      else if |old(head.owner.free)| == 0 then NoPacket
      else Success
    ensures status != Success ==>
      result == chain && unchanged(head) && unchanged(head.data) && unchanged(head.owner)
    ensures status == Success ==>
      && WellFormed(result) && Bytes(Segs(result)) == old(Bytes(Segs(chain)))
      && head.length == old(head.length) && header <= head.prepend
    ensures status == Success && header <= old(head.prepend) ==>
      result == chain && unchanged(head) && unchanged(head.data) && unchanged(head.owner)
    ensures status == Success && old(head.prepend) < header <= old(head.prepend + head.data.Length - head.append) ==>
      result == chain && head.prepend == header && unchanged(head.owner)
    ensures status == Success && old(head.prepend + head.data.Length - head.append) < header ==>
      && |old(head.owner.free)| != 0
      && result == [head, old(head.owner.free)[0]] + chain[1..]
      && head.owner.free == old(head.owner.free)[1..]
      && head.prepend == header && head.append == head.data.Length
      && result[1].prepend == 0
      && result[1].append == header - old(head.prepend + head.data.Length - head.append)
  {
    hide Linked, InUse, Bytes, Pool.Valid;
    assert head.Seg() == Segs(chain)[0];
    result := chain;
    if head.data.Length < header {
      return Underflow, chain;
    }
    if head.prepend >= header {
      return Success, chain;
    }
    var available := head.prepend + (head.data.Length - head.append);
    if available >= header {
      InUseIsNotFree(chain, head.owner);
      assert chain[0] !in head.owner.free;
      ApartSubset(SetOf(chain), SetOf(chain) + SetOf(head.owner.free));
      MoveUp(head, header, chain);
      return Success, chain;
    }
    if header % 2 == 1 {
      return NotSupported, chain;
    }
    ghost var work;
    status, work := SpillOver(head, header, header - available, chain);
    if status == Success {
      result := [head, work] + chain[1..];
    }
  }
}
