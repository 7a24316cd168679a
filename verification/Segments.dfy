/** The abstract value of a packet chain: a sequence of buffer segments, and the
    byte string they hold.  Everything here is pure; the packet classes are
    related to it by `Packets.Segs`. */
module Segments {
  import opened Octets

  /** One packet buffer: its whole memory and the two positions in it. */
  datatype Segment = Segment(mem: seq<byte>, prepend: nat, append: nat) {

    predicate Ok() {
      prepend <= append <= |mem|
    }

    function Payload(): seq<byte>
      requires Ok()
    {
      mem[prepend..append]
    }

    /** Bytes that can still be added at the end. */
    function Space(): nat
      requires Ok()
    {
      |mem| - append
    }

    /** The segment after `d` was written at the append position. */
    function Put(d: seq<byte>): (s: Segment)
      requires Ok() && |d| <= Space()
      ensures s.Ok() && s.Payload() == Payload() + d && s.Space() == Space() - |d|
    {
      var s := Segment(mem[..append] + d + mem[append + |d|..], prepend, append + |d|);
      assert s.mem[prepend..append + |d|] == mem[prepend..append] + d;
      s
    }
  }

  predicate AllOk(ss: seq<Segment>) {
    forall i :: 0 <= i < |ss| ==> ss[i].Ok()
  }

  /** The bytes of a chain, front to back. */
  function Bytes(ss: seq<Segment>): seq<byte>
    requires AllOk(ss)
  {
    if ss == [] then [] else ss[0].Payload() + Bytes(ss[1..])
  }

  lemma {:induction false} BytesConcat(a: seq<Segment>, b: seq<Segment>)
    requires AllOk(a) && AllOk(b)
    ensures AllOk(a + b) && Bytes(a + b) == Bytes(a) + Bytes(b)
  {
    assert AllOk(a + b);
    if a == [] {
      assert a + b == b;
    } else {
      assert (a + b)[1..] == a[1..] + b;
      BytesConcat(a[1..], b);
    }
  }

  lemma BytesOne(s: Segment)
    requires s.Ok()
    ensures Bytes([s]) == s.Payload()
  {
  }

  lemma {:induction false} BytesOfEmpty(ss: seq<Segment>)
    requires AllOk(ss) && forall i :: 0 <= i < |ss| ==> ss[i].prepend == ss[i].append
    ensures Bytes(ss) == []
  {
    if ss != [] {
      BytesOfEmpty(ss[1..]);
    }
  }

  lemma BytesHead(ss: seq<Segment>)
    requires AllOk(ss) && ss != []
    ensures Bytes(ss) == ss[0].Payload() + Bytes(ss[1..])
  {
  }

  /** Splitting a chain at one segment. */
  lemma BytesAround(ss: seq<Segment>, k: nat)
    requires AllOk(ss) && k < |ss|
    ensures AllOk(ss[..k]) && AllOk(ss[k + 1..])
    ensures Bytes(ss) == Bytes(ss[..k]) + ss[k].Payload() + Bytes(ss[k + 1..])
  {
    hide Bytes;
    assert ss[k..][1..] == ss[k + 1..];
    assert ss == ss[..k] + ss[k..];
    BytesConcat(ss[..k], ss[k..]);
    BytesHead(ss[k..]);
  }

  /** Putting `d` into segment `k` of a chain whose later segments are empty
      appends `d` to the chain. */
  lemma PutAppends(ss: seq<Segment>, k: nat, d: seq<byte>)
    requires AllOk(ss) && k < |ss| && |d| <= ss[k].Space()
    requires forall i :: k < i < |ss| ==> ss[i].prepend == ss[i].append
    ensures AllOk(ss[k := ss[k].Put(d)])
    ensures Bytes(ss[k := ss[k].Put(d)]) == Bytes(ss) + d
  {
    hide Bytes;
    var tt := ss[k := ss[k].Put(d)];
    assert tt[..k] == ss[..k] && tt[k + 1..] == ss[k + 1..];
    BytesAround(ss, k);
    BytesAround(tt, k);
    BytesOfEmpty(ss[k + 1..]);
  }
}
