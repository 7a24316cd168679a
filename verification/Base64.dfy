/** The base64 routines of sas_token.c, against section 4 of RFC 4648.  Characters
    are unsigned bytes. */
module Base64 {
  import opened Octets

  const PAD: byte := 61   // '='

  /** RFC 4648, table 1; the string `b` of the encoder. */
  function Alphabet(v: byte): byte
    requires v < 64
  {
    if v < 26 then v + 65
    else if v < 52 then v + 71
    else if v < 62 then v - 4
    else if v == 62 then 43
    else 47
  }

  /** The 256-entry table `b` of the decoder: 64 marks everything, '=' included, that is
      not in the alphabet. */
  function Table(c: byte): byte {
    if 65 <= c <= 90 then c - 65
    else if 97 <= c <= 122 then c - 71
    else if 48 <= c <= 57 then c + 4
    else if c == 43 then 62
    else if c == 47 then 63
    else 64
  }

  /** Table 1 of RFC 4648, in the order of the values 0 to 63. */
  const RFC_TABLE: seq<byte> := [
    65, 66, 67, 68, 69, 70, 71, 72, 73, 74, 75, 76, 77, 78, 79, 80, 81, 82, 83, 84, 85, 86, 87, 88, 89, 90,
    97, 98, 99, 100, 101, 102, 103, 104, 105, 106, 107, 108, 109, 110, 111, 112, 113, 114, 115, 116, 117, 118,
    119, 120, 121, 122, 48, 49, 50, 51, 52, 53, 54, 55, 56, 57, 43, 47]

  lemma AlphabetIsTable()
    ensures RFC_TABLE == [
      Alphabet(0), Alphabet(1), Alphabet(2), Alphabet(3), Alphabet(4), Alphabet(5), Alphabet(6), Alphabet(7),
      Alphabet(8), Alphabet(9), Alphabet(10), Alphabet(11), Alphabet(12), Alphabet(13), Alphabet(14), Alphabet(15),
      Alphabet(16), Alphabet(17), Alphabet(18), Alphabet(19), Alphabet(20), Alphabet(21), Alphabet(22), Alphabet(23),
      Alphabet(24), Alphabet(25), Alphabet(26), Alphabet(27), Alphabet(28), Alphabet(29), Alphabet(30), Alphabet(31),
      Alphabet(32), Alphabet(33), Alphabet(34), Alphabet(35), Alphabet(36), Alphabet(37), Alphabet(38), Alphabet(39),
      Alphabet(40), Alphabet(41), Alphabet(42), Alphabet(43), Alphabet(44), Alphabet(45), Alphabet(46), Alphabet(47),
      Alphabet(48), Alphabet(49), Alphabet(50), Alphabet(51), Alphabet(52), Alphabet(53), Alphabet(54), Alphabet(55),
      Alphabet(56), Alphabet(57), Alphabet(58), Alphabet(59), Alphabet(60), Alphabet(61), Alphabet(62), Alphabet(63)]
  {
  }

  /** Everything outside the alphabet is decoded through the value 64. */
  lemma TableElsewhere(c: byte)
    ensures Table(c) == 64 <==> forall v: byte :: v < 64 ==> Alphabet(v) != c
    ensures Table(c) < 64 ==> Alphabet(Table(c)) == c
  {
    if Table(c) < 64 {
      assert Alphabet(Table(c)) == c;
    }
  }

  lemma TableInverse(v: byte)
    requires v < 64
    ensures Table(Alphabet(v)) == v && Alphabet(v) != PAD && Alphabet(v) != 0
  {
  }

  /** RFC 4648, section 4: three octets as a 24-bit group, and its 6-bit parts. */
  function Group(x: byte, y: byte, z: byte): bv24 {
    (x as bv24 << 16) | (y as bv24 << 8) | (z as bv24)
  }

  function Sextet0(g: bv24): byte { ((g >> 18) & 0x3F) as byte }
  function Sextet1(g: bv24): byte { ((g >> 12) & 0x3F) as byte }
  function Sextet2(g: bv24): byte { ((g >> 6) & 0x3F) as byte }
  function Sextet3(g: bv24): byte { (g & 0x3F) as byte }

  /** RFC 4648, section 4. */
  function Encode(x: seq<byte>): (s: seq<byte>) {
    if x == [] then []
    else if |x| == 1 then
      var g := Group(x[0], 0, 0);
      [Alphabet(Sextet0(g)), Alphabet(Sextet1(g)), PAD, PAD]
    else if |x| == 2 then
      var g := Group(x[0], x[1], 0);
      [Alphabet(Sextet0(g)), Alphabet(Sextet1(g)), Alphabet(Sextet2(g)), PAD]
    else
      var g := Group(x[0], x[1], x[2]);
      [Alphabet(Sextet0(g)), Alphabet(Sextet1(g)), Alphabet(Sextet2(g)), Alphabet(Sextet3(g))] + Encode(x[3..])
  }

  /** Section 10 of RFC 4648: "f", "fo", "foo" and "foob". */
  lemma TestVectors()
    ensures Encode([102]) == [90, 103, 61, 61]
    ensures Encode([102, 111]) == [90, 109, 56, 61]
    ensures Encode([102, 111, 111]) == [90, 109, 57, 118]
    ensures Encode([102, 111, 111, 98]) == [90, 109, 57, 118, 89, 103, 61, 61]
  {
    assert [102 as byte, 111, 111, 98][3..] == [98];
    assert Encode([98]) == [89, 103, 61, 61];
  }

  // The table indices as the encoder computes them from its source bytes.

  function Index0(x: byte): (v: byte) ensures v < 64 {
    (x >> 2) & 0x3f
  }

  function Index1(x: byte, y: byte): (v: byte) ensures v < 64 {
    ((x & 0x03) << 4) | ((y & 0xf0) >> 4)
  }

  function Index2(y: byte, z: byte): (v: byte) ensures v < 64 {
    ((y & 0x0f) << 2) | ((z & 0xc0) >> 6)
  }

  function Index3(z: byte): (v: byte) ensures v < 64 {
    z & 0x3f
  }

  function LastIndex1(x: byte): (v: byte) ensures v < 64 {
    (x & 0x03) << 4
  }

  function LastIndex2(y: byte): (v: byte) ensures v < 64 {
    (y & 0x0f) << 2
  }

  /** The encoder's shifts and masks pick out the 6-bit parts of the group. */
  lemma EncoderBits(x: byte, y: byte, z: byte)
    ensures Index0(x) == Sextet0(Group(x, y, z)) && Index1(x, y) == Sextet1(Group(x, y, z))
    ensures Index2(y, z) == Sextet2(Group(x, y, z)) && Index3(z) == Sextet3(Group(x, y, z))
  {
  }

  lemma EncoderBitsPadded(x: byte, y: byte)
    ensures LastIndex1(x) == Sextet1(Group(x, 0, 0)) && LastIndex2(y) == Sextet2(Group(x, y, 0))
  {
  }

  /** The decoder's shifts put a group's parts back together. */
  lemma DecoderBits(x: byte, y: byte, z: byte)
    ensures
      var g := Group(x, y, z);
      && ((Sextet0(g) << 2) | (Sextet1(g) >> 4)) == x
      && ((Sextet1(g) << 4) | (Sextet2(g) >> 2)) == y
      && ((Sextet2(g) << 6) | Sextet3(g)) == z
  {
  }

  /** The characters the encoder writes for `x`, in its own terms. */
  function Written(x: seq<byte>): seq<byte> {
    if x == [] then []
    else if |x| == 1 then
      [Alphabet(Index0(x[0])), Alphabet(LastIndex1(x[0])), PAD, PAD]
    else if |x| == 2 then
      [Alphabet(Index0(x[0])), Alphabet(Index1(x[0], x[1])), Alphabet(LastIndex2(x[1])), PAD]
    else
      [Alphabet(Index0(x[0])), Alphabet(Index1(x[0], x[1])), Alphabet(Index2(x[1], x[2])),
       Alphabet(Index3(x[2]))] + Written(x[3..])
  }

  lemma {:induction false} WrittenIsEncode(x: seq<byte>)
    ensures Written(x) == Encode(x) && |Written(x)| == 4 * ((|x| + 2) / 3)
  {
    hide Alphabet, Group, Sextet0, Sextet1, Sextet2, Sextet3;
    hide Index0, Index1, Index2, Index3, LastIndex1, LastIndex2;
    if |x| == 1 {
      EncoderBits(x[0], 0, 0);
      EncoderBitsPadded(x[0], 0);
    } else if |x| == 2 {
      EncoderBits(x[0], x[1], 0);
      EncoderBitsPadded(x[0], x[1]);
    } else if 3 <= |x| {
      EncoderBits(x[0], x[1], x[2]);
      WrittenIsEncode(x[3..]);
    }
  }

  /** The characters of one whole group. */
  function FourOf(x: byte, y: byte, z: byte): (four: seq<byte>)
    ensures |four| == 4
  {
    [Alphabet(Index0(x)), Alphabet(Index1(x, y)), Alphabet(Index2(y, z)), Alphabet(Index3(z))]
  }

  lemma WrittenStep(src: seq<byte>, p: nat)
    requires p + 3 <= |src|
    ensures Written(src[p..]) == FourOf(src[p], src[p + 1], src[p + 2]) + Written(src[p + 3..])
  {
    hide Alphabet, Index0, Index1, Index2, Index3;
    assert src[p..][3..] == src[p + 3..];
  }

  /** The body of the encoding loop. */
  method PutGroup(x: byte, y: byte, z: byte, out: array<byte>, o: nat)
    requires o + 4 <= out.Length
    modifies out
    ensures out[..o + 4] == old(out[..o]) + FourOf(x, y, z)
  {
    hide Alphabet, Index0, Index1, Index2, Index3;
    out[o] := Alphabet(Index0(x));
    out[o + 1] := Alphabet(Index1(x, y));
    out[o + 2] := Alphabet(Index2(y, z));
    out[o + 3] := Alphabet(Index3(z));
  }

  /** The last one or two source bytes, padded. */
  method PutLast(rest: seq<byte>, out: array<byte>, o: nat)
    requires 1 <= |rest| <= 2 && o + 4 <= out.Length
    modifies out
    ensures out[..o + 4] == old(out[..o]) + Written(rest)
  {
    hide Alphabet, Index0, Index1, LastIndex1, LastIndex2;
    out[o] := Alphabet(Index0(rest[0]));
    if |rest| == 1 {
      out[o + 1] := Alphabet(LastIndex1(rest[0]));
      out[o + 2] := PAD;
    } else {
      out[o + 1] := Alphabet(Index1(rest[0], rest[1]));
      out[o + 2] := Alphabet(LastIndex2(rest[1]));
    }
    out[o + 3] := PAD;
  }

  /** `base64_encode`: the encoding of `src`, then a null. */
  method EncodeTo(src: seq<byte>, out: array<byte>) returns (end: nat)
    requires |Encode(src)| < out.Length
    modifies out
    ensures end == |Encode(src)| && out[..end] == Encode(src) && out[end] == 0
  {
    hide Written, FourOf, Encode;
    WrittenIsEncode(src);
    assert src[0..] == src;
    var p, o := 0, 0;
    while p < |src| - 2
      invariant 0 <= p <= |src| && o <= |Encode(src)| && out[..o] + Written(src[p..]) == Encode(src)
    {
      WrittenStep(src, p);
      PutGroup(src[p], src[p + 1], src[p + 2], out, o);
      o, p := o + 4, p + 3;
    }
    if p < |src| {
      WrittenIsEncode(src[p..]);
      PutLast(src[p..], out, o);
      o := o + 4;
    } else {
      assert src[p..] == [];
      WrittenIsEncode([]);
    }
    out[o] := 0;
    end := o;
  }

  /** What the decoder writes before its final null. */
  function DecodeRaw(s: seq<byte>): seq<byte> {
    if 4 < |s| then
      [First(s[0], s[1]), Second(s[1], s[2]), Third(s[2], s[3])] + DecodeRaw(s[4..])
    else
      (if 1 < |s| then [First(s[0], s[1])] else []) +
      (if 2 < |s| then [Second(s[1], s[2])] else []) +
      (if 3 < |s| then [Third(s[2], s[3])] else [])
  }

  function First(p: byte, q: byte): byte {
    (Table(p) << 2) | (Table(q) >> 4)
  }

  function Second(p: byte, q: byte): byte {
    (Table(p) << 4) | (Table(q) >> 2)
  }

  function Third(p: byte, q: byte): byte {
    (Table(p) << 6) | Table(q)
  }

  /** The body of the decoding loop. */
  method PutTriple(p: seq<byte>, out: array<byte>, o: nat)
    requires 4 <= |p| && o + 3 <= out.Length
    modifies out
    ensures out[..o + 3] == old(out[..o]) + [First(p[0], p[1]), Second(p[1], p[2]), Third(p[2], p[3])]
  {
    hide First, Second, Third;
    out[o] := First(p[0], p[1]);
    out[o + 1] := Second(p[1], p[2]);
    out[o + 2] := Third(p[2], p[3]);
  }

  /** The last group of the decoder, of at most four characters. */
  method PutRest(p: seq<byte>, out: array<byte>, o: nat) returns (end: nat)
    requires |p| <= 4 && o + |DecodeRaw(p)| <= out.Length
    modifies out
    ensures end == o + |DecodeRaw(p)| && out[..end] == old(out[..o]) + DecodeRaw(p)
  {
    hide First, Second, Third;
    end := o;
    if 1 < |p| {
      out[end] := First(p[0], p[1]);
      end := end + 1;
    }
    if 2 < |p| {
      out[end] := Second(p[1], p[2]);
      end := end + 1;
    }
    if 3 < |p| {
      out[end] := Third(p[2], p[3]);
      end := end + 1;
    }
  }

  /** `base64_decode`: the result counts the final null. */
  method DecodeTo(src: seq<byte>, out: array<byte>) returns (size: nat)
    requires |DecodeRaw(src)| < out.Length
    modifies out
    ensures size == |DecodeRaw(src)| + 1
    ensures out[..size - 1] == DecodeRaw(src) && out[size - 1] == 0
  {
    hide First, Second, Third;
    var p, o, len := 0, 0, |src|;
    while 4 < len
      invariant 0 <= p <= |src| && p + len == |src| && o + |DecodeRaw(src[p..])| == |DecodeRaw(src)|
      invariant out[..o] + DecodeRaw(src[p..]) == DecodeRaw(src)
    {
      ghost var rest := src[p..];
      assert rest[4..] == src[p + 4..];
      PutTriple(src[p..], out, o);
      p, o, len := p + 4, o + 3, len - 4;
    }
    o := PutRest(src[p..], out, o);
    out[o] := 0;
    size := o + 1;
  }

  /** The number of trailing '=' characters. */
  function TrailingPads(s: seq<byte>): (n: nat)
    ensures n <= |s|
  {
    if s != [] && s[|s| - 1] == PAD then 1 + TrailingPads(s[..|s| - 1]) else 0
  }

  lemma {:induction false} PadsExactly(s: seq<byte>)
    ensures var n := TrailingPads(s);
      && (forall k :: |s| - n <= k < |s| ==> s[k] == PAD)
      && (n < |s| ==> s[|s| - n - 1] != PAD)
  {
    if s != [] && s[|s| - 1] == PAD {
      PadsExactly(s[..|s| - 1]);
    }
  }

  /** The range of `size_t` on the boards. */
  const SIZE: nat := 0x1_0000_0000

  /** Subtraction of `size_t`. */
  function Minus(n: int, k: nat): (r: nat)
    ensures r < SIZE && (0 <= n - k < SIZE ==> r == n - k)
  {
    (n - k) % SIZE
  }

  lemma MinusOneMore(n: int, k: nat)
    ensures Minus(Minus(n, k), 1) == Minus(n, k + 1)
  {
    var q := (n - k) / SIZE;
    assert n - k == q * SIZE + Minus(n, k);
  }

  /** Six eighths of a length, as `size_t` arithmetic has it. */
  function SixEighths(len: nat): (r: nat)
    ensures r < SIZE && (len * 6 < SIZE ==> r == len * 6 / 8)
  {
    len * 6 % SIZE / 8
  }

  lemma MinusNone(n: nat)
    requires n < SIZE
    ensures Minus(n, 0) == n
  {
  }

  /** `base64_decode_length` on the `len` characters from `base` on, in the memory around them.
      Its loop stops at a character other than '=', which may lie in front of the string. */
  method DecodeLength(memory: seq<byte>, base: nat, len: nat) returns (outlen: nat)
    requires base + len <= |memory| && len < SIZE && TrailingPads(memory[..base + len]) < base + len
    ensures outlen == Minus(SixEighths(len), TrailingPads(memory[..base + len]))
  {
    outlen := SixEighths(len);
    hide Minus, SixEighths;
    ghost var pads, counted: nat := TrailingPads(memory[..base + len]), 0;
    MinusNone(outlen);
    var p := base + len - 1;
    while memory[p] == PAD
      invariant 0 <= p < base + len && TrailingPads(memory[..p + 1]) < p + 1
      invariant counted + TrailingPads(memory[..p + 1]) == pads
      invariant outlen == Minus(SixEighths(len), counted)
      decreases p
    {
      assert memory[..p + 1][..p] == memory[..p];
      MinusOneMore(SixEighths(len), counted);
      outlen := Minus(outlen, 1);
      counted := counted + 1;
      p := p - 1;
    }
  }

  /** The length is that of the string's own padding exactly if the string holds another
      character than '=', or no '=' stands right in front of it. */
  lemma {:induction false} OwnPadding(front: seq<byte>, s: seq<byte>)
    ensures TrailingPads(front + s) == TrailingPads(s) <==> TrailingPads(s) < |s| || TrailingPads(front) == 0
  {
    if s == [] {
      assert front + s == front;
    } else {
      assert (front + s)[..|front + s| - 1] == front + s[..|s| - 1];
      OwnPadding(front, s[..|s| - 1]);
    }
  }

  lemma {:induction false} PadsOfConcat(a: seq<byte>, b: seq<byte>)
    requires TrailingPads(b) < |b|
    ensures TrailingPads(a + b) == TrailingPads(b)
  {
    if b[|b| - 1] == PAD {
      assert (a + b)[..|a + b| - 1] == a + b[..|b| - 1];
      PadsOfConcat(a, b[..|b| - 1]);
    }
  }

  /** No character of a group is '=', and the decoder's table inverts each of them. */
  lemma GroupCharacters(g: bv24)
    ensures Sextet0(g) < 64 && Sextet1(g) < 64 && Sextet2(g) < 64 && Sextet3(g) < 64
    ensures Table(Alphabet(Sextet0(g))) == Sextet0(g) && Table(Alphabet(Sextet1(g))) == Sextet1(g)
    ensures Table(Alphabet(Sextet2(g))) == Sextet2(g) && Table(Alphabet(Sextet3(g))) == Sextet3(g)
    ensures Alphabet(Sextet0(g)) != 0 && Alphabet(Sextet1(g)) != 0
    ensures Alphabet(Sextet2(g)) != 0 && Alphabet(Sextet3(g)) != 0
    ensures Alphabet(Sextet1(g)) != PAD && Alphabet(Sextet2(g)) != PAD && Alphabet(Sextet3(g)) != PAD
  {
    hide Alphabet, Table;
    TableInverse(Sextet0(g));
    TableInverse(Sextet1(g));
    TableInverse(Sextet2(g));
    TableInverse(Sextet3(g));
  }

  /** The decoded length of an encoding is the length of what was encoded. */
  lemma {:induction false} LengthRoundTrip(x: seq<byte>)
    requires x != []
    ensures var s := Encode(x);
      TrailingPads(s) < |s| && |s| * 6 / 8 - TrailingPads(s) == |x|
  {
    hide Alphabet, Table, Group, Sextet0, Sextet1, Sextet2, Sextet3;
    var s := Encode(x);
    WrittenIsEncode(x);
    if |x| == 1 {
      GroupCharacters(Group(x[0], 0, 0));
      assert TrailingPads(s[..2]) == 0;
      assert s[..3][..2] == s[..2] && TrailingPads(s[..3]) == 1;
    } else if |x| == 2 {
      GroupCharacters(Group(x[0], x[1], 0));
      assert TrailingPads(s[..3]) == 0;
    } else {
      GroupCharacters(Group(x[0], x[1], x[2]));
      if 3 < |x| {
        LengthRoundTrip(x[3..]);
        WrittenIsEncode(x[3..]);
        assert s == s[..4] + Encode(x[3..]);
        PadsOfConcat(s[..4], Encode(x[3..]));
      }
    }
  }

  /** Decoding an encoding gives the bytes back; with padding, more bytes follow. */
  lemma {:induction false} RoundTrip(x: seq<byte>)
    requires x != []
    ensures var d := DecodeRaw(Encode(x));
      |x| <= |d| && d[..|x|] == x
  {
    hide Alphabet, Table, Group, Sextet0, Sextet1, Sextet2, Sextet3;
    var s := Encode(x);
    if |x| == 1 {
      GroupCharacters(Group(x[0], 0, 0));
      DecoderBits(x[0], 0, 0);
    } else if |x| == 2 {
      GroupCharacters(Group(x[0], x[1], 0));
      DecoderBits(x[0], x[1], 0);
    } else {
      GroupCharacters(Group(x[0], x[1], x[2]));
      DecoderBits(x[0], x[1], x[2]);
      if 3 < |x| {
        RoundTrip(x[3..]);
        WrittenIsEncode(x[3..]);
        assert s[4..] == Encode(x[3..]);
      }
    }
  }

  /** The decoder writes six bits for every character, padding included. */
  lemma {:induction false} RawLength(s: seq<byte>)
    ensures |DecodeRaw(s)| == |s| * 6 / 8
  {
    hide First, Second, Third;
    if 4 < |s| {
      RawLength(s[4..]);
    }
  }

  lemma {:induction false} NoNulls(x: seq<byte>)
    ensures 0 !in Encode(x)
  {
    hide Alphabet, Group, Sextet0, Sextet1, Sextet2, Sextet3;
    if |x| == 1 {
      GroupCharacters(Group(x[0], 0, 0));
    } else if |x| == 2 {
      GroupCharacters(Group(x[0], x[1], 0));
    } else if 3 <= |x| {
      GroupCharacters(Group(x[0], x[1], x[2]));
      NoNulls(x[3..]);
    }
  }
}
