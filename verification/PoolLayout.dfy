/** Where `_nx_packet_pool_create` puts the packets of a pool within its memory area. */
module PoolLayout {

  /** The least multiple of `alignment` that is not below `n`, and the greatest not above. */
  function Up(n: nat, alignment: nat): (r: nat)
    requires alignment != 0
    ensures n <= r < n + alignment && r % alignment == 0
  {
    Multiple((n + alignment - 1) / alignment, alignment);
    (n + alignment - 1) / alignment * alignment
  }

  function Down(n: nat, alignment: nat): (r: nat)
    requires alignment != 0
    ensures r <= n < r + alignment && r % alignment == 0
  {
    Multiple(n / alignment, alignment);
    n / alignment * alignment
  }

  lemma Multiple(k: nat, alignment: nat)
    requires alignment != 0
    ensures k * alignment % alignment == 0
  {
    var q, r := k * alignment / alignment, k * alignment % alignment;
    assert (k - q) * alignment == r;
    if k > q {
      Grows(1, k - q, alignment);
    } else {
      Grows(0, q - k, alignment);
      assert (k - q) * alignment == -((q - k) * alignment);
    }
  }

  lemma Grows(a: nat, b: nat, c: nat)
    requires a <= b
    ensures a * c <= b * c
  {
  }

  /** A memory area, the size of a packet's control block, and `NX_PACKET_ALIGNMENT`. */
  datatype Area = Area(start: nat, size: nat, control: nat, alignment: nat) {

    /** An aligned address lies in the area. */
    predicate Usable() {
      alignment != 0 && control != 0 && Up(start, alignment) <= start + size
    }
  }

  /** The first packet's address, the distance from a packet to its payload and to the next
      packet, and the end of the pool. */
  datatype Layout = Layout(first: nat, header: nat, stride: nat, end: nat)

  function Carve(a: Area, payload: nat): (l: Layout)
    requires a.Usable()
    ensures l.first <= l.end && l.stride != 0
  {
    var first := Up(a.start, a.alignment);
    var header := Up(first + a.control, a.alignment) - first;
    Layout(first, header, Up(header + payload, a.alignment),
      first + Down(a.size - (first - a.start), a.alignment))
  }

  function Address(l: Layout, k: nat): nat {
    l.first + k * l.stride
  }

  /** How many packets there are. */
  function Count(l: Layout): nat
    requires l.first <= l.end && l.stride != 0
  {
    (l.end - l.first) / l.stride
  }

  /** Packet `n` is one of the pool exactly if the address behind it is within the end. */
  lemma CountExactly(l: Layout, n: nat)
    requires l.first <= l.end && l.stride != 0
    ensures n < Count(l) <==> Address(l, n + 1) <= l.end
  {
    var size, count := l.end - l.first, Count(l);
    assert count * l.stride <= size < (count + 1) * l.stride;
    if n < count {
      Grows(n + 1, count, l.stride);
    } else {
      Grows(count + 1, n + 1, l.stride);
    }
  }

  /** Every packet and its payload are aligned and lie in the area, and a payload ends where
      the next packet starts, or before. */
  lemma PacketsFit(a: Area, payload: nat, k: nat)
    requires a.Usable()
    ensures var l := Carve(a, payload);
      k < Count(l) ==>
      && a.start <= Address(l, k) && Address(l, k) % a.alignment == 0
      && a.control <= l.header && (Address(l, k) + l.header) % a.alignment == 0
      && Address(l, k) + l.header + payload <= Address(l, k + 1) <= a.start + a.size
  {
    var l := Carve(a, payload);
    hide Carve, Count;
    CountExactly(l, k);
    CarveFacts(a, payload);
    assert Address(l, k + 1) == Address(l, k) + l.stride;
    AlignedSum(l.first, k, l.stride, a.alignment);
    AlignedSum(l.first + l.header, k, l.stride, a.alignment);
  }

  lemma CarveFacts(a: Area, payload: nat)
    requires a.Usable()
    ensures var l := Carve(a, payload);
      && a.start <= l.first && l.end <= a.start + a.size && a.control <= l.header && l.header + payload <= l.stride
      && l.first % a.alignment == 0 && (l.first + l.header) % a.alignment == 0 && l.stride % a.alignment == 0
  {
  }

  /** Nothing is wasted but for alignment: the first packet, its payload and the next packet come
      at the least aligned address that fits, and the end is the greatest. */
  lemma CarveIsTight(a: Area, payload: nat, at: nat)
    requires a.Usable() && at % a.alignment == 0
    ensures var l := Carve(a, payload);
      && (a.start <= at ==> l.first <= at)
      && (l.first + a.control <= at ==> l.first + l.header <= at)
      && (l.header + payload <= at ==> l.stride <= at)
      && (l.first + at <= a.start + a.size ==> l.first + at <= l.end)
  {
    var l := Carve(a, payload);
    UpIsLeast(a.start, a.alignment, at);
    UpIsLeast(l.first + a.control, a.alignment, at);
    UpIsLeast(l.header + payload, a.alignment, at);
    DownIsGreatest(a.size - (l.first - a.start), a.alignment, at);
  }

  lemma UpIsLeast(n: nat, alignment: nat, m: nat)
    requires alignment != 0 && m % alignment == 0
    ensures n <= m ==> Up(n, alignment) <= m
  {
    var u := Up(n, alignment);
    NoneBetween(m, u, alignment);
  }

  lemma DownIsGreatest(n: nat, alignment: nat, m: nat)
    requires alignment != 0 && m % alignment == 0
    ensures m <= n ==> m <= Down(n, alignment)
  {
    var d := Down(n, alignment);
    NoneBetween(d, m, alignment);
  }

  /** Multiples differ by at least one alignment. */
  lemma NoneBetween(a: nat, b: nat, alignment: nat)
    requires alignment != 0 && a % alignment == 0 && b % alignment == 0
    ensures a < b ==> a + alignment <= b
  {
    var i, j := a / alignment, b / alignment;
    assert a == i * alignment && b == j * alignment;
    if a < b {
      if j <= i {
        Grows(j, i, alignment);
      }
      Grows(i + 1, j, alignment);
    }
  }

  /** Steps of an aligned width keep an aligned address aligned. */
  lemma {:induction false} AlignedSum(first: nat, k: nat, stride: nat, alignment: nat)
    requires alignment != 0 && first % alignment == 0 && stride % alignment == 0
    ensures (first + k * stride) % alignment == 0
  {
    if k != 0 {
      AlignedSum(first, k - 1, stride, alignment);
      var before := first + (k - 1) * stride;
      assert first + k * stride == before + stride;
      AddAligned(before, stride, alignment);
    }
  }

  lemma AddAligned(a: nat, b: nat, alignment: nat)
    requires alignment != 0 && a % alignment == 0 && b % alignment == 0
    ensures (a + b) % alignment == 0
  {
    var i, j := a / alignment, b / alignment;
    assert a == i * alignment && b == j * alignment;
    assert a + b == (i + j) * alignment;
    Multiple(i + j, alignment);
  }
}
