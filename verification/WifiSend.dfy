/** The send loop of nx_wifi.c: a chain is handed to the module packet by packet. */
module WifiSend {
  import opened Octets
  import opened Segments
  import opened Packets
  import opened PacketAppend
  import opened WifiQueue

  /** What the module answers to one send. */
  datatype Ack = Ack(ok: bool, length: nat) {

    predicate Takes(size: nat) {
      ok && length == size
    }
  }

  /** How many packets the module takes whole before the first it does not. */
  function Taken(ss: seq<Segment>, acks: seq<Ack>): (n: nat)
    requires AllOk(ss)
    ensures n <= |ss|
  {
    if ss == [] || acks == [] || !acks[0].Takes(|ss[0].Payload()|) then 0
    else Taken(ss[1..], acks[1..]) + 1
  }

  /** These are the packets that are acknowledged with their length, one after the other. */
  lemma {:induction false} TakenExactly(ss: seq<Segment>, acks: seq<Ack>)
    requires AllOk(ss)
    ensures var n := Taken(ss, acks);
      && n <= |acks| && (forall k :: 0 <= k < n ==> acks[k].ok && acks[k].length == |ss[k].Payload()|)
      && (n < |ss| && n < |acks| ==> !acks[n].ok || acks[n].length != |ss[n].Payload()|)
  {
    if ss != [] && acks != [] && acks[0].Takes(|ss[0].Payload()|) {
      TakenExactly(ss[1..], acks[1..]);
    }
  }

  /** `out` is the payloads of the first packets, in order. */
  predicate InOrder(out: seq<seq<byte>>, ss: seq<Segment>) {
    AllOk(ss) && |out| <= |ss| && forall k :: 0 <= k < |out| ==> out[k] == ss[k].Payload()
  }

  lemma OneMoreSent(ss: seq<Segment>, k: nat, out: seq<seq<byte>>)
    requires AllOk(ss) && k < |ss| && Flatten(out) == Bytes(ss[..k])
    ensures Flatten(out + [ss[k].Payload()]) == Bytes(ss[..k + 1])
  {
    FlattenConcat(out, [ss[k].Payload()]);
    FlattenOne(ss[k].Payload());
    assert ss[..k + 1] == ss[..k] + [ss[k]];
    BytesConcat(ss[..k], [ss[k]]);
    BytesOne(ss[k]);
  }

  /** The loop over the packets; `out` is the data of each call to the module. */
  method HandOut(packet: Packet?, acks: seq<Ack>, ghost chain: seq<Packet>, ghost ss: seq<Segment>)
    returns (ok: bool, out: seq<seq<byte>>)
    requires Linked(chain) && packet == LinkAt(chain, -1) && Segs(chain) == ss && AllOk(ss)
    ensures ok <==> Taken(ss, acks) == |ss|
    ensures |out| == if ok then |ss| else Taken(ss, acks) + 1
    ensures InOrder(out, ss) && Flatten(out) == Bytes(ss[..|out|])
  {
    hide Linked, Bytes, Flatten, Segs;
    var current := packet;
    out := [];
    assert Flatten(out) == Bytes(ss[..0]) by {
      NothingSent(ss);
    }
    while current != null
      invariant Linked(chain) && Segs(chain) == ss
      invariant |out| <= |chain| && current == LinkAt(chain, |out| - 1)
      invariant InOrder(out, ss) && Flatten(out) == Bytes(ss[..|out|])
      invariant |out| <= |acks| && Taken(ss, acks) == |out| + Taken(ss[|out|..], acks[|out|..])
      decreases |chain| - |out|
    {
      ghost var k := |out|;
      SegAt(chain, k);
      assert ss[k..][0] == ss[k] && ss[k..][1..] == ss[k + 1..];
      var size := current.append - current.prepend;
      OneMoreSent(ss, k, out);
      out := out + [current.data[current.prepend..current.append]];
      if |acks| < |out| || !acks[|out| - 1].Takes(size) {
        return false, out;
      }
      assert acks[k..][0] == acks[k] && acks[k..][1..] == acks[k + 1..];
      NextLink(chain, k);
      current := current.next;
    }
    ok := true;
  }

  lemma SegAt(chain: seq<Packet>, k: nat)
    requires k < |chain| && AllOk(Segs(chain))
    ensures chain[k].Seg() == Segs(chain)[k] && chain[k].Seg().Ok()
  {
  }

  lemma NothingSent(ss: seq<Segment>)
    requires AllOk(ss)
    ensures Flatten([]) == Bytes(ss[..0])
  {
  }

  lemma NextLink(chain: seq<Packet>, k: nat)
    requires Linked(chain) && k < |chain|
    ensures chain[k].next == LinkAt(chain, k)
  {
  }
}
