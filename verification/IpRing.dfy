/** The circular list of created IP instances: `_nx_ip_create` puts an instance at its tail,
    `_nx_ip_delete` takes one out. */
module IpRing {
  import opened Options
  import opened Sequences

  datatype Status = Success | SocketsBound | PtrError

  /** NX_IP_ID and NX_PACKET_POOL_ID */
  const IP_ID: nat := 0x49502020
  const PACKET_POOL_ID: nat := 0x5041434B

  /** The part of an NX_IP control block that the list and its guard use. */
  class Ip {
    var id: nat
    var next: Ip?
    var previous: Ip?
    var udpSockets: nat
    var tcpSockets: nat

    constructor ()
    {
      id, next, previous, udpSockets, tcpSockets := 0, null, null, 0, 0;
    }
  }

  /** The neighbours of position `i` around the ring. */
  function After<T>(ring: seq<T>, i: nat): T
    requires i < |ring|
  {
    if i + 1 < |ring| then ring[i + 1] else ring[0]
  }

  function Before<T>(ring: seq<T>, i: nat): T
    requires i < |ring|
  {
    if i > 0 then ring[i - 1] else ring[|ring| - 1]
  }

  /** The ring without its element `k`. */
  function Drop<T>(ring: seq<T>, k: nat): (rest: seq<T>)
    requires k < |ring|
    ensures |rest| == |ring| - 1
    ensures forall i :: 0 <= i < |rest| ==> rest[i] == if i < k then ring[i] else ring[i + 1]
  {
    ring[..k] + ring[k + 1..]
  }

  /** Next-links run once around the ring; previous-links run back. */
  ghost predicate Linked(ring: seq<Ip>)
    reads ring
  {
    && Distinct(ring)
    && (forall i {:trigger ring[i].next} :: 0 <= i < |ring| ==> ring[i].next == After(ring, i))
    && (forall i {:trigger ring[i].previous} :: 0 <= i < |ring| ==> ring[i].previous == Before(ring, i))
  }

  /** Who follows and precedes whom once element `k` is gone. */
  lemma DropNeighbours<T>(ring: seq<T>, k: nat, i: nat)
    requires k < |ring| && 1 < |ring| && i < |ring| - 1
    ensures var j := if i < k then i else i + 1;
      && After(Drop(ring, k), i) ==
          After(ring, if j + 1 == k || (k == 0 && j + 1 == |ring|) then k else j)
      && Before(Drop(ring, k), i) ==
          Before(ring, if j == k + 1 || (j == 0 && k == |ring| - 1) then k else j)
  {
  }

  /** Links up the neighbours of an instance that is not the only one. */
  method Unlink(ip: Ip, ghost ring: seq<Ip>, ghost k: nat)
    requires Linked(ring) && k < |ring| && ip == ring[k] && 1 < |ring|
    modifies ip.next`previous, ip.previous`next
    ensures Linked(Drop(ring, k)) && ip.next == old(ip.next)
  {
    ghost var rest := Drop(ring, k);
    ip.next.previous := ip.previous;
    ip.previous.next := ip.next;
    forall i | 0 <= i < |rest|
      ensures rest[i].next == After(rest, i) && rest[i].previous == Before(rest, i)
    {
      DropNeighbours(ring, k, i);
    }
  }

  /** Puts an instance between the tail and the head. */
  method Insert(ip: Ip, head: Ip, ghost ring: seq<Ip>)
    requires Linked(ring) && ring != [] && head == ring[0] && ip !in ring
    modifies ip`next, ip`previous, head`previous, head.previous`next
    ensures Linked(ring + [ip])
  {
    var tail := head.previous;
    head.previous := ip;
    tail.next := ip;
    ip.previous := tail;
    ip.next := head;
  }

  /** `_nx_ip_created_ptr` and `_nx_ip_created_count`. */
  class IpList {
    var created: Ip?
    var count: int
    ghost var ring: seq<Ip>    // the instances from the head on
    ghost var known: set<Ip>   // every control block that was ever handed in
    ghost var ops: seq<Op<Ip>>   // the creates and deletes that were carried out

    /** The list is the ring, and a control block carries the IP id exactly while it is in. */
    ghost predicate Sound()
      reads this, ring, known
    {
      && Linked(ring) && count == |ring| && created == (if ring == [] then null else ring[0])
      && (forall i :: 0 <= i < |ring| ==> ring[i] in known)
      && forall ip :: ip in known ==> (ip.id == IP_ID <==> ip in ring)
    }

    /** ... and the ring is what the operations so far come to. */
    ghost predicate Valid()
      reads this, ring, known
    {
      Sound() && ring == Ring(ops)
    }

    /** `_nx_ip_initialize` */
    constructor ()
      ensures Valid() && ring == [] && known == {} && ops == []
    {
      created, count, ring, known, ops := null, 0, [], {}, [];
    }

    /** After any calls: the head pointer and the links run through the live instances in the
        order of their creation and back to the head, the previous-links run back, and the
        counter is their number. */
    lemma InCreationOrder()
      requires Valid()
      ensures CreationOrder(ring, ops) && Linked(ring)
      ensures count == |ring| && created == if ring == [] then null else ring[0]
    {
      RingIsCreationOrder(ops);
    }

    /** Puts an instance on the list. */
    method Attach(ip: Ip)
      requires Sound() && ip !in ring
      modifies `created, `count, `ring, `known, ip, ring
      ensures Sound() && ring == old(ring) + [ip] && known == old(known) + {ip}
      ensures ip.udpSockets == ip.tcpSockets == 0
    {
      ip.next, ip.previous, ip.udpSockets, ip.tcpSockets := null, null, 0, 0;
      ip.id := IP_ID;
      if created != null {
        Insert(ip, created, ring);
      } else {
        created := ip;
        ip.next := ip;
        ip.previous := ip;
      }
      count := count + 1;
      ring := ring + [ip];
      known := known + {ip};
    }

    /** The list part of `_nx_ip_create`; the control block is cleared first. */
    method Create(ip: Ip)
      requires Valid() && ip !in ring
      modifies this, ip, ring
      ensures Valid() && ring == old(ring) + [ip] && known == old(known) + {ip}
      ensures ip.udpSockets == ip.tcpSockets == 0 && ops == old(ops) + [Created(ip)]
    {
      hide Ring, Linked;
      CreatedRing(ring, ops, ip);
      Attach(ip);
      ops := ops + [Created(ip)];
    }

    /** `_nxe_ip_create`: refuses null pointers, a pool without its id, a control block of a wrong
        size, and an instance that is on the list, looking at as many as the counter says.
        `poolId` is the id that the given pool carries, if there is a pool. */
    method CheckedCreate(ip: Ip?, poolId: Option<nat>, sizeMatches: bool) returns (status: Status)
      requires Valid()
      modifies this, ip, ring
      ensures Valid()
      ensures var proper := ip != null && poolId == Some(PACKET_POOL_ID) && sizeMatches;
        status == if !proper || ip in old(ring) then PtrError else Success
      ensures status == PtrError ==> unchanged(this) && forall i :: 0 <= i < |ring| ==> unchanged(ring[i])
      ensures status == PtrError && ip != null ==> unchanged(ip)
      ensures status == Success ==>
        && ring == Changed(old(ring), Created(ip)) && ops == old(ops) + [Created(ip)]
        && known == old(known) + {ip}
    {
      if ip == null || poolId == None || poolId.value != PACKET_POOL_ID || !sizeMatches {
        return PtrError;
      }
      var cursor := created;
      var left := count;
      ghost var i := 0;
      while left > 0
        invariant 0 <= left == |ring| - i && (left > 0 ==> cursor == ring[i])
        invariant forall j :: 0 <= j < i ==> ring[j] != ip
        invariant Valid() && unchanged(this) && forall j :: 0 <= j < |ring| ==> unchanged(ring[j])
      {
        if ip == cursor {
          return PtrError;
        }
        cursor := cursor.next;
        left := left - 1;
        i := i + 1;
      }
      Create(ip);
      status := Success;
    }

    /** Takes instance `k` out of the ring. */
    method TakeOut(ip: Ip, ghost k: nat)
      requires Linked(ring) && k < |ring| && ip == ring[k] && created == ring[0]
      modifies `created, ring
      ensures Linked(Drop(ring, k)) && created == if |ring| == 1 then null else Drop(ring, k)[0]
      ensures forall i :: 0 <= i < |ring| ==> ring[i].id == old(ring[i].id)
    {
      if ip == ip.next {
        created := null;
      } else {
        Unlink(ip, ring, k);
        if created == ip {
          created := ip.next;
        }
      }
    }

    /** Takes instance `k` off the list. */
    method Detach(ip: Ip, ghost k: nat)
      requires Sound() && k < |ring| && ip == ring[k]
      modifies `created, `count, `ring, ring
      ensures Sound() && ring == Drop(old(ring), k)
    {
      DropMembers(ring, k);
      TakeOut(ip, k);
      count := count - 1;
      ring := Drop(ring, k);
      ip.id := 0;
    }

    lemma RingFacts()
      requires Sound()
      ensures Distinct(ring)
    {
    }

    /** `_nx_ip_delete` */
    method Delete(ip: Ip, ghost k: nat) returns (status: Status)
      requires Valid() && k < |ring| && ip == ring[k]
      modifies this, ring
      ensures Valid() && known == old(known)
      ensures status == if old(ip.udpSockets) != 0 || old(ip.tcpSockets) != 0 then SocketsBound else Success
      ensures status == SocketsBound ==> unchanged(this) && forall i :: 0 <= i < |ring| ==> unchanged(ring[i])
      ensures status == Success ==> ring == Drop(old(ring), k) && ops == old(ops) + [Deleted(ip, false)]
    {
      if ip.udpSockets != 0 || ip.tcpSockets != 0 {
        return SocketsBound;
      }
      hide Ring, Drop, Linked, Sound;
      RingFacts();
      DeletedRing(ring, ops, k);
      Detach(ip, k);
      ops := ops + [Deleted(ip, false)];
      assert Sound();
      status := Success;
    }

    /** `_nxe_ip_delete`: refuses the null pointer and a control block that does not carry the IP
        id.  A block that was never handed in must not carry it by chance. */
    method CheckedDelete(ip: Ip?) returns (status: Status)
      requires Valid() && (ip != null ==> ip in known || ip.id != IP_ID)
      modifies this, ip, ring
      ensures Valid() && known == old(known)
      ensures ip == null ==> status == PtrError && unchanged(this) && forall i :: 0 <= i < |ring| ==> unchanged(ring[i])
      ensures ip != null ==>
        var bound := old(ip.udpSockets) != 0 || old(ip.tcpSockets) != 0;
        && ring == Changed(old(ring), Deleted(ip, bound))
        && status == if ip !in old(ring) then PtrError else if bound then SocketsBound else Success
    {
      if ip == null || ip.id != IP_ID {
        return PtrError;
      }
      ghost var k: nat :| k < |ring| && ring[k] == ip;
      WithoutIsDrop(ring, ip, k);
      status := Delete(ip, k);
    }
  }

  // ---------- every run ----------

  /** A create, and a delete with whether sockets are bound at that point. */
  datatype Op<T> = Created(x: T) | Deleted(x: T, bound: bool)

  function Without<T(==)>(ring: seq<T>, x: T): seq<T> {
    if ring == [] then [] else if ring[0] == x then ring[1..] else [ring[0]] + Without(ring[1..], x)
  }

  lemma {:induction false} WithoutIsDrop<T>(ring: seq<T>, x: T, k: nat)
    requires Distinct(ring) && k < |ring| && ring[k] == x
    ensures Without(ring, x) == Drop(ring, k)
  {
    if k != 0 {
      WithoutIsDrop(ring[1..], x, k - 1);
    }
  }

  /** What one operation makes of the ring. */
  function Changed<T(==)>(ring: seq<T>, op: Op<T>): seq<T> {
    match op
    case Created(x) => if x in ring then ring else ring + [x]
    case Deleted(x, bound) => if x in ring && !bound then Without(ring, x) else ring
  }

  function Ring<T(==)>(ops: seq<Op<T>>): seq<T> {
    if ops == [] then [] else Changed(Ring(ops[..|ops| - 1]), ops[|ops| - 1])
  }

  lemma RingStep<T>(ops: seq<Op<T>>, op: Op<T>)
    ensures Ring(ops + [op]) == Changed(Ring(ops), op)
  {
    assert (ops + [op])[..|ops|] == ops;
  }

  lemma CreatedRing<T>(ring: seq<T>, ops: seq<Op<T>>, x: T)
    requires ring == Ring(ops) && x !in ring
    ensures Ring(ops + [Created(x)]) == ring + [x]
  {
    RingStep(ops, Created(x));
  }

  lemma DeletedRing<T>(ring: seq<T>, ops: seq<Op<T>>, k: nat)
    requires ring == Ring(ops) && Distinct(ring) && k < |ring|
    ensures Ring(ops + [Deleted(ring[k], false)]) == Drop(ring, k)
  {
    RingStep(ops, Deleted(ring[k], false));
    WithoutIsDrop(ring, ring[k], k);
  }

  /** The position of the create that `x` is live since, if it is live after `ops`. */
  function Born<T(==)>(ops: seq<Op<T>>, x: T): (r: int)
    ensures -1 <= r < |ops| && (r != -1 ==> ops[r] == Created(x))
  {
    if ops == [] then -1
    else
      var before, op := Born(ops[..|ops| - 1], x), ops[|ops| - 1];
      if op == Created(x) && before == -1 then |ops| - 1
      else if op == Deleted(x, false) then -1
      else before
  }

  /** The ring holds exactly the live instances, in the order of their creation. */
  ghost predicate CreationOrder<T>(ring: seq<T>, ops: seq<Op<T>>) {
    && (forall i :: 0 <= i < |ring| ==> Born(ops, ring[i]) != -1)
    && (forall k :: 0 <= k < |ops| && Born(ops, ops[k].x) != -1 ==> ops[k].x in ring)
    && forall i, j :: 0 <= i < j < |ring| ==> Born(ops, ring[i]) < Born(ops, ring[j])
  }

  /** Exactly the live instances: what is live was created at some point. */
  lemma LiveIsIn<T>(ring: seq<T>, ops: seq<Op<T>>, x: T)
    requires CreationOrder(ring, ops)
    ensures x in ring <==> Born(ops, x) != -1
  {
    hide Born;
    if Born(ops, x) != -1 {
      assert ops[Born(ops, x)].x == x;
    }
  }

  /** `Born` after one more operation. */
  function BornNext<T(==)>(ops: seq<Op<T>>, op: Op<T>, x: T): int {
    if op == Created(x) && Born(ops, x) == -1 then |ops|
    else if op == Deleted(x, false) then -1
    else Born(ops, x)
  }

  lemma BornStep<T>(ops: seq<Op<T>>, op: Op<T>, x: T)
    ensures Born(ops + [op], x) == BornNext(ops, op, x)
  {
    assert (ops + [op])[..|ops|] == ops;
  }

  lemma OrderIsDistinct<T>(ring: seq<T>, ops: seq<Op<T>>)
    requires CreationOrder(ring, ops)
    ensures Distinct(ring)
  {
    hide Born;
    forall i, j | 0 <= i < j < |ring|
      ensures ring[i] != ring[j]
    {
      assert Born(ops, ring[i]) < Born(ops, ring[j]);
    }
  }

  lemma DropMembers<T>(ring: seq<T>, k: nat)
    requires Distinct(ring) && k < |ring|
    ensures forall x :: x in Drop(ring, k) ==> x in ring && x != ring[k]
    ensures forall x :: x in ring && x != ring[k] ==> x in Drop(ring, k)
  {
    forall x | x in ring && x != ring[k]
      ensures x in Drop(ring, k)
    {
      var i: nat :| i < |ring| && ring[i] == x;
      assert Drop(ring, k)[if i < k then i else i - 1] == x;
    }
  }

  /** The positions of births after one more operation, for the ring's elements and for all
      that occurs in the operations. */
  lemma BirthsStep<T>(ring: seq<T>, ops: seq<Op<T>>, op: Op<T>)
    ensures forall i :: 0 <= i < |ring| ==> Born(ops + [op], ring[i]) == BornNext(ops, op, ring[i])
    ensures forall k :: 0 <= k < |ops + [op]| ==>
      Born(ops + [op], (ops + [op])[k].x) == BornNext(ops, op, (ops + [op])[k].x)
  {
    hide Born;
    forall i | 0 <= i < |ring| {
      BornStep(ops, op, ring[i]);
    }
    forall k | 0 <= k < |ops + [op]| {
      BornStep(ops, op, (ops + [op])[k].x);
    }
  }

  lemma CreatedStep<T>(ring: seq<T>, ops: seq<Op<T>>, x: T)
    requires CreationOrder(ring, ops) && x !in ring
    ensures CreationOrder(ring + [x], ops + [Created(x)])
  {
    hide Born;
    LiveIsIn(ring, ops, x);
    BirthsStep(ring + [x], ops, Created(x));
  }

  lemma DeletedStep<T>(ring: seq<T>, ops: seq<Op<T>>, k: nat)
    requires CreationOrder(ring, ops) && k < |ring|
    ensures CreationOrder(Drop(ring, k), ops + [Deleted(ring[k], false)])
  {
    hide Born;
    OrderIsDistinct(ring, ops);
    DropMembers(ring, k);
    LiveIsIn(ring, ops, ring[k]);
    BirthsStep(Drop(ring, k), ops, Deleted(ring[k], false));
  }

  lemma IdleStep<T>(ring: seq<T>, ops: seq<Op<T>>, op: Op<T>)
    requires CreationOrder(ring, ops)
    requires if op.Created? then op.x in ring else op.x !in ring || op.bound
    ensures CreationOrder(ring, ops + [op])
  {
    hide Born;
    LiveIsIn(ring, ops, op.x);
    BirthsStep(ring, ops, op);
  }

  lemma OrderStep<T>(ring: seq<T>, ops: seq<Op<T>>, op: Op<T>)
    requires CreationOrder(ring, ops)
    ensures CreationOrder(Changed(ring, op), ops + [op])
  {
    hide CreationOrder;
    if if op.Created? then op.x in ring else op.x !in ring || op.bound {
      IdleStep(ring, ops, op);
    } else if op.Created? {
      CreatedStep(ring, ops, op.x);
    } else {
      var k: nat :| k < |ring| && ring[k] == op.x;
      OrderIsDistinct(ring, ops);
      WithoutIsDrop(ring, op.x, k);
      DeletedStep(ring, ops, k);
    }
  }

  /** After every sequence of creates and deletes the ring holds exactly the live instances,
      in the order of their creation. */
  lemma {:induction false} RingIsCreationOrder<T>(ops: seq<Op<T>>)
    ensures CreationOrder(Ring(ops), ops)
  {
    hide CreationOrder, Changed;
    if ops == [] {
      EmptyOrder<T>();
    } else {
      var before, op := ops[..|ops| - 1], ops[|ops| - 1];
      RingIsCreationOrder(before);
      OrderStep(Ring(before), before, op);
      assert before + [op] == ops;
    }
  }

  lemma EmptyOrder<T>()
    ensures CreationOrder<T>([], [])
  {
  }
}
