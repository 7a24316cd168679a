/** The streaming SHA-256 of sha256.c: the compression function with a 16-word
    schedule kept in place and registers renamed instead of moved, and the
    init / update / final interface with padding done in the block buffer. */
module Sha256 {
  import opened Octets
  import opened Fips180

  /** The two logical functions as the program writes them. */
  function ChMacro(x: word, y: word, z: word): word {
    z ^ (x & (y ^ z))
  }

  function MajMacro(x: word, y: word, z: word): word {
    (x & y) | (z & (x | y))
  }

  lemma ChBits(x: word, y: word, z: word)
    ensures z ^ (x & (y ^ z)) == (x & y) ^ (!x & z)
  {
  }

  lemma ChRewritten(x: word, y: word, z: word)
    ensures ChMacro(x, y, z) == Ch(x, y, z)
  {
    ChBits(x, y, z);
  }

  lemma MajBits(x: word, y: word, z: word)
    ensures (x & y) | (z & (x | y)) == (x & y) ^ (x & z) ^ (y & z)
  {
  }

  lemma MajRewritten(x: word, y: word, z: word)
    ensures MajMacro(x, y, z) == Maj(x, y, z)
  {
    MajBits(x, y, z);
  }

  /** What the `R` macro adds to its register `h`. */
  function Added(h: word, s: word, x: word, k: word, w: word): word {
    h + (s + x + k + w)
  }

  lemma AddedRegrouped(h: word, s: word, x: word, k: word, w: word)
    ensures Added(h, s, x, k, w) == Sum5(h, s, x, k, w)
  {
  }

  /** The 16-word window holds the last (at most) sixteen schedule words before `t`. */
  ghost predicate Window(w: seq<word>, m: seq<word>, t: nat) {
    |w| == 16 && |m| == 16 &&
    forall s {:trigger Schedule(m, s)} :: 0 <= s < t <= s + 16 ==> w[s % 16] == Schedule(m, s)
  }

  lemma WindowMoves(w: seq<word>, m: seq<word>, t: nat, x: word)
    requires Window(w, m, t) && x == Schedule(m, t)
    ensures Window(w[t % 16 := x], m, t + 1)
  {
    hide Schedule;
    forall s | 0 <= s < t + 1 <= s + 16
      ensures w[t % 16 := x][s % 16] == Schedule(m, s)
    {
      if s < t {
        assert s % 16 != t % 16;
      }
    }
  }

  lemma BackIndices(i: nat, j: nat)
    requires i < 16 && j % 16 == 0 && j != 0
    ensures 16 <= i + j && (i + j) % 16 == i % 16 == i
    ensures (i + j - 2) % 16 == (i - 2) % 16 && (i + j - 7) % 16 == (i - 7) % 16
    ensures (i + j - 15) % 16 == (i - 15) % 16 && (i + j - 16) % 16 == i % 16
  {
    var q := j / 16;
    ModShift(i, q);
    ModShift(i - 2, q);
    ModShift(i - 7, q);
    ModShift(i - 15, q);
    ModShift(i, q - 1);
  }

  lemma SlotOf(i: nat, j: nat)
    requires i < 16 && j % 16 == 0
    ensures (i + j) % 16 == i
  {
    ModShift(i, j / 16);
  }

  lemma FirstWords(m: seq<word>, i: nat)
    requires |m| == 16 && i < 16
    ensures Schedule(m, i) == m[i]
  {
  }

  lemma ModShift(x: int, q: int)
    ensures (16 * q + x) % 16 == x % 16
  {
  }

  /** The value `blk2` computes is the schedule's next word. */
  lemma BlkValue(w: seq<word>, m: seq<word>, i: nat, j: nat)
    requires Window(w, m, i + j) && i < 16 && j % 16 == 0 && j != 0
    ensures Schedule(m, i + j) ==
      Plus(w[i], Plus(Plus(SmallSigma1(w[(i - 2) % 16]), w[(i - 7) % 16]), SmallSigma0(w[(i - 15) % 16])))
  {
    hide Plus, SmallSigma0, SmallSigma1;
    BackIndices(i, j);
    var t := i + j;
    assert Schedule(m, t - 2) == w[(i - 2) % 16];
    assert Schedule(m, t - 7) == w[(i - 7) % 16];
    assert Schedule(m, t - 15) == w[(i - 15) % 16];
    assert Schedule(m, t - 16) == w[i];
    PlusCommutes(w[i], Plus(Plus(SmallSigma1(w[(i - 2) % 16]), w[(i - 7) % 16]), SmallSigma0(w[(i - 15) % 16])));
  }

  /** `blk0` and `blk2`: schedule word `i + j`, stored over the one sixteen rounds old. */
  method Blk(wArray: array<word>, data: seq<word>, i: nat, j: nat) returns (x: word)
    requires wArray.Length == |data| == 16 && Window(wArray[..], data, i + j) && i < 16 && j % 16 == 0
    modifies wArray
    ensures Window(wArray[..], data, i + j + 1) && x == Schedule(data, i + j)
  {
    hide Plus, SmallSigma0, SmallSigma1, Window, Schedule;
    ghost var was := wArray[..];
    SlotOf(i, j);
    FirstWords(data, i);
    if j != 0 {
      BlkValue(was, data, i, j);
      x := Plus(wArray[i % 16],
        Plus(Plus(SmallSigma1(wArray[(i - 2) % 16]), wArray[(i - 7) % 16]), SmallSigma0(wArray[(i - 15) % 16])));
      wArray[i % 16] := x;
    } else {
      x := data[i];
      wArray[i] := x;
    }
    assert wArray[..] == was[i := x];
    WindowMoves(was, data, i + j, x);
  }

  /** What the `R` macro assigns to its `h` and `d` arguments is one round, with the
      registers renamed instead of moved. */
  lemma RegistersRenamed(a: word, b: word, c: word, d: word, e: word, f: word, g: word, h: word, k: word, w: word)
    ensures
      var t := Added(h, BigSigma1(e), ChMacro(e, f, g), k, w);
      Regs(Plus(t, Plus(BigSigma0(a), MajMacro(a, b, c))), a, b, c, Plus(d, t), e, f, g)
        == Round(Regs(a, b, c, d, e, f, g, h), k, w)
  {
    hide BigSigma0, BigSigma1, ChMacro, MajMacro, Ch, Maj, Plus, Sum5, Added;
    ChRewritten(e, f, g);
    MajRewritten(a, b, c);
    AddedRegrouped(h, BigSigma1(e), Ch(e, f, g), k, w);
  }

  /** The `R` macro for round `i + j`: updates the schedule and two registers. */
  method R(a: word, b: word, c: word, d: word, e: word, f: word, g: word, h: word,
    wArray: array<word>, data: seq<word>, i: nat, j: nat, ghost start: Regs)
    returns (d': word, h': word)
    requires wArray.Length == |data| == 16 && Window(wArray[..], data, i + j)
    requires i < 16 && j % 16 == 0 && i + j < 64
    requires Regs(a, b, c, d, e, f, g, h) == Rounds(start, data, i + j)
    modifies wArray
    ensures Window(wArray[..], data, i + j + 1)
    ensures Regs(h', a, b, c, d', e, f, g) == Rounds(start, data, i + j + 1)
  {
    hide BigSigma0, BigSigma1, ChMacro, MajMacro, Plus, Added, K, Round, Schedule, Window;
    var x := Blk(wArray, data, i, j);
    h' := Added(h, BigSigma1(e), ChMacro(e, f, g), K(i + j), x);
    d' := Plus(d, h');
    h' := Plus(h', Plus(BigSigma0(a), MajMacro(a, b, c)));
    RegistersRenamed(a, b, c, d, e, f, g, h, K(i + j), x);
  }

  /** The `RX_8` macro: eight rounds, after which every name denotes its register again. */
  method Rx8(r: Regs, wArray: array<word>, data: seq<word>, i: nat, j: nat, ghost start: Regs)
    returns (r': Regs)
    requires wArray.Length == |data| == 16 && Window(wArray[..], data, i + j)
    requires i <= 8 && j % 16 == 0 && i + j + 8 <= 64
    requires r == Rounds(start, data, i + j)
    modifies wArray
    ensures Window(wArray[..], data, i + j + 8) && r' == Rounds(start, data, i + j + 8)
  {
    hide Rounds, Window;
    var Regs(a, b, c, d, e, f, g, h) := r;
    d, h := R(a, b, c, d, e, f, g, h, wArray, data, i, j, start);
    c, g := R(h, a, b, c, d, e, f, g, wArray, data, i + 1, j, start);
    b, f := R(g, h, a, b, c, d, e, f, wArray, data, i + 2, j, start);
    a, e := R(f, g, h, a, b, c, d, e, wArray, data, i + 3, j, start);
    h, d := R(e, f, g, h, a, b, c, d, wArray, data, i + 4, j, start);
    g, c := R(d, e, f, g, h, a, b, c, wArray, data, i + 5, j, start);
    f, b := R(c, d, e, f, g, h, a, b, wArray, data, i + 6, j, start);
    e, a := R(b, c, d, e, f, g, h, a, wArray, data, i + 7, j, start);
    r' := Regs(a, b, c, d, e, f, g, h);
  }

  /** The eight state words as a hash value. */
  function RegsOf(s: seq<word>): Regs
    requires |s| == 8
  {
    Regs(s[0], s[1], s[2], s[3], s[4], s[5], s[6], s[7])
  }

  /** `sha256_transform`: one block of FIPS 180-4, in place on the state. */
  method Transform(state: array<word>, data: seq<word>)
    requires state.Length == 8 && |data| == 16
    modifies state
    ensures RegsOf(state[..]) == Compress(old(RegsOf(state[..])), data)
  {
    hide Rounds, Window, Plus;
    ghost var start := RegsOf(state[..]);
    var wArray := new word[16](_ => 0);
    var r := Regs(state[0], state[1], state[2], state[3], state[4], state[5], state[6], state[7]);
    StartTransform(wArray[..], data, r);
    var j := 0;
    while j < 64
      invariant 0 <= j <= 64 && j % 16 == 0
      invariant Window(wArray[..], data, j) && r == Rounds(start, data, j) && state[..] == old(state[..])
    {
      r := Rx8(r, wArray, data, 0, j, start);
      r := Rx8(r, wArray, data, 8, j, start);
      j := j + 16;
    }
    AddInto(state, r);
  }

  /** The registers are added to the state. */
  method AddInto(state: array<word>, r: Regs)
    requires state.Length == 8
    modifies state
    ensures RegsOf(state[..]) == AddRegs(r, old(RegsOf(state[..])))
  {
    hide Plus;
    AddCommutes(RegsOf(state[..]), r);
    state[0] := Plus(state[0], r.a);
    state[1] := Plus(state[1], r.b);
    state[2] := Plus(state[2], r.c);
    state[3] := Plus(state[3], r.d);
    state[4] := Plus(state[4], r.e);
    state[5] := Plus(state[5], r.f);
    state[6] := Plus(state[6], r.g);
    state[7] := Plus(state[7], r.h);
  }

  lemma StartTransform(w: seq<word>, m: seq<word>, r: Regs)
    requires |w| == 16 && |m| == 16
    ensures Window(w, m, 0) && Rounds(r, m, 0) == r
  {
  }

  lemma AddCommutes(r: Regs, s: Regs)
    ensures AddRegs(r, s) == AddRegs(s, r)
  {
    hide Plus;
    PlusCommutes(r.a, s.a);
    PlusCommutes(r.b, s.b);
    PlusCommutes(r.c, s.c);
    PlusCommutes(r.d, s.d);
    PlusCommutes(r.e, s.e);
    PlusCommutes(r.f, s.f);
    PlusCommutes(r.g, s.g);
    PlusCommutes(r.h, s.h);
  }

  const TWO_64 := 0x1_0000_0000_0000_0000

  /** `sha256_t`.  `count` is a 64-bit byte counter; the ghost `message` is what the
      update calls since the last initialisation have been given. */
  class Context {
    const state: array<word>
    const buffer: array<byte>
    var count: nat
    ghost var message: seq<byte>

    /** The blocks of the byte stream `s` but for its last `pos` bytes are hashed
        into the state, and those bytes are at the front of the buffer. */
    ghost predicate Holds(s: seq<byte>, pos: nat)
      reads state, buffer
    {
      && state.Length == 8 && buffer.Length == 64
      && pos <= 64 && pos <= |s| && (|s| - pos) % 64 == 0
      && RegsOf(state[..]) == HashBlocks(s[..|s| - pos])
      && buffer[..pos] == s[|s| - pos..]
    }

    ghost predicate Valid()
      reads this, state, buffer
    {
      Holds(message, |message| % 64) && count == |message| % TWO_64
    }

    constructor ()
      ensures Valid() && message == [] && fresh(state) && fresh(buffer)
    {
      state := new word[8](_ => 0);
      buffer := new byte[64](_ => 0);
      count, message := 0, [];
      new;
      Init();
    }

    /** `sha256_init` */
    method Init()
      requires state.Length == 8 && buffer.Length == 64
      modifies this, state
      ensures Valid() && message == []
    {
      state[0] := 0x6a09e667;
      state[1] := 0xbb67ae85;
      state[2] := 0x3c6ef372;
      state[3] := 0xa54ff53a;
      state[4] := 0x510e527f;
      state[5] := 0x9b05688c;
      state[6] := 0x1f83d9ab;
      state[7] := 0x5be0cd19;
      count := 0;
      message := [];
    }

    /** The sixteen words of the buffer, most significant byte first. */
    method LoadWords() returns (data32: seq<word>)
      requires buffer.Length == 64
      ensures data32 == Words(buffer[..])
    {
      hide WordOf;
      var words := new word[16](_ => 0);
      var i := 0;
      while i < 16
        invariant 0 <= i <= 16
        invariant forall k :: 0 <= k < i ==>
          words[k] == WordOf(buffer[4 * k], buffer[4 * k + 1], buffer[4 * k + 2], buffer[4 * k + 3])
      {
        words[i] := WordOf(buffer[i * 4], buffer[i * 4 + 1], buffer[i * 4 + 2], buffer[i * 4 + 3]);
        i := i + 1;
      }
      data32 := words[..];
      assert data32 == Words(buffer[..]);
    }

    /** `sha256_write_byte_block`: hashes the full buffer. */
    method WriteByteBlock(ghost s: seq<byte>)
      requires Holds(s, 64)
      modifies state
      ensures Holds(s, 0)
    {
      hide Compress, Words, RegsOf;
      var data32 := LoadWords();
      assert buffer[..64] == buffer[..];
      assert s[..|s| - 0] == s;
      Transform(state, data32);
    }

    /** Stores one byte in the buffer. */
    method Put(b: byte, pos: nat, ghost s: seq<byte>)
      requires Holds(s, pos) && pos < 64
      modifies buffer
      ensures Holds(s + [b], pos + 1)
    {
      hide HashBlocks, RegsOf;
      buffer[pos] := b;
      assert (s + [b])[..|s| - pos] == s[..|s| - pos];
    }

    /** One byte of an update. */
    method UpdateByte(b: byte, pos: nat) returns (nextPos: nat)
      requires Valid() && pos == |message| % 64
      modifies this, state, buffer
      ensures Valid() && message == old(message) + [b] && nextPos == |message| % 64
    {
      hide Holds;
      NextPosition(|message|);
      Put(b, pos, message);
      nextPos := pos + 1;
      count := (count + 1) % TWO_64;
      message := message + [b];
      if nextPos == 64 {
        nextPos := 0;
        WriteByteBlock(message);
      }
    }

    /** `sha256_update`: the message grows by `data`. */
    method Update(data: seq<byte>)
      requires Valid()
      modifies this, state, buffer
      ensures Valid() && message == old(message) + data
    {
      hide Valid;
      var curBufferPos := Position();
      var i := 0;
      while i < |data|
        invariant 0 <= i <= |data| && curBufferPos == |message| % 64
        invariant Valid() && message == old(message) + data[..i]
      {
        curBufferPos := UpdateByte(data[i], curBufferPos);
        i := i + 1;
      }
    }

    method Position() returns (pos: nat)
      requires Valid()
      ensures pos == |message| % 64
    {
      CountFacts(|message|);
      pos := count % 64;
    }

    /** One zero byte of the padding, behind a full block if there is one. */
    method PadOne(pos: nat, ghost s: seq<byte>) returns (nextPos: nat)
      requires Holds(s, pos) && 0 < pos <= 64
      modifies state, buffer
      ensures Holds(s + [0], nextPos) && nextPos == pos % 64 + 1
    {
      hide Holds;
      var curBufferPos := pos % 64;
      if curBufferPos == 0 {
        WriteByteBlock(s);
      }
      Put(0, curBufferPos, s);
      nextPos := curBufferPos + 1;
    }

    /** The zero bytes of the padding: from just behind the 0x80 byte to eight bytes
        before the end of a block, hashing a full block on the way if there is one. */
    method PadWithZeros(pos: nat, ghost s: seq<byte>, ghost length: nat)
      requires Holds(s, pos) && |s| == length + 1 && pos == length % 64 + 1
      modifies state, buffer
      ensures Holds(s + Zeros(PadZeros(length)), 56)
    {
      hide Holds, PadZeros, Reached;
      var curBufferPos := pos;
      ghost var zeros := 0;
      PadStart(length);
      assert s + Zeros(0) == s;
      while curBufferPos != 64 - 8
        invariant Reached(length, zeros, curBufferPos)
        invariant Holds(s + Zeros(zeros), curBufferPos)
        decreases PadZeros(length) - zeros
      {
        PadStep(length, zeros, curBufferPos);
        curBufferPos := PadOne(curBufferPos, s + Zeros(zeros));
        assert s + Zeros(zeros) + [0] == s + Zeros(zeros + 1);
        zeros := zeros + 1;
      }
      PadDone(length, zeros);
    }

    /** The eight length bytes at the end of the last block. */
    method PutLength(lenInBits: nat, pos: nat, ghost s: seq<byte>)
      requires Holds(s, 56) && pos == 56 && lenInBits < TWO_64
      modifies buffer
      ensures lenInBits < Pow256(8) && Holds(s + BigEndian(lenInBits, 8), 64)
    {
      hide Holds, BigEndian, Pow256, TopOf, ShiftedUp;
      PowEight();
      var len, curBufferPos := lenInBits, pos;
      ghost var rest: nat, done: seq<byte> := lenInBits, [];
      PowZero();
      assert s + done == s;
      var i := 0;
      while i < 8
        invariant 0 <= i <= 8 && curBufferPos == 56 + i
        invariant rest < Pow256(8 - i) && len == rest * Pow256(i)
        invariant done + BigEndian(rest, 8 - i) == BigEndian(lenInBits, 8)
        invariant Holds(s + done, curBufferPos)
      {
        LengthStep(rest, 8 - i, len);
        ghost var more := BigEndian(rest, 8 - i);
        Put(TopOf(len), curBufferPos, s + done);
        assert s + done + [more[0]] == s + (done + [more[0]]);
        rest, done := rest % Pow256(8 - i - 1), done + [more[0]];
        curBufferPos := curBufferPos + 1;
        len := ShiftedUp(len);
        i := i + 1;
      }
      assert done + BigEndian(rest, 0) == done;
    }

    /** Writes the state as 32 bytes. */
    method WriteState(digest: array<byte>)
      requires state.Length == 8 && digest.Length == 32
      modifies digest
      ensures digest[..] == RegBytes(RegsOf(state[..]))
    {
      hide BytesOf;
      var i := 0;
      while i < 8
        invariant 0 <= i <= 8 && digest[..4 * i] == StateBytes(state[..], i)
      {
        ghost var before := digest[..4 * i];
        digest[4 * i] := BytesOf(state[i])[0];
        digest[4 * i + 1] := BytesOf(state[i])[1];
        digest[4 * i + 2] := BytesOf(state[i])[2];
        digest[4 * i + 3] := BytesOf(state[i])[3];
        assert digest[..4 * (i + 1)] == before + BytesOf(state[i]);
        i := i + 1;
      }
      assert digest[..32] == digest[..];
      StateBytesAll(state[..]);
    }

    /** The padding of `sha256_final`: all of the padded message is hashed. */
    method HashPadding()
      requires Valid()
      modifies state, buffer
      ensures state.Length == 8 && |Pad(message)| % 64 == 0
      ensures RegsOf(state[..]) == HashBlocks(Pad(message))
    {
      hide BigEndian, Pow256, PadZeros, Zeros, HashBlocks, Pad;
      PadLength(message);
      PadParts(message);
      CountFacts(|message|);
      var lenInBits := (count * 8) % TWO_64;
      var curBufferPos := count % 64;
      ghost var s := message + [0x80];
      Put(0x80, curBufferPos, message);
      PadWithZeros(curBufferPos + 1, s, |message|);
      s := s + Zeros(PadZeros(|message|));
      PutLength(lenInBits, 56, s);
      s := s + BigEndian(lenInBits, 8);
      assert s == Pad(message);
      WriteByteBlock(s);
      assert s[..|s| - 0] == s;
    }

    /** `sha256_final`: the digest of everything given since the last initialisation. */
    method Final(digest: array<byte>)
      requires Valid() && digest.Length == 32 && digest != buffer
      modifies this, state, buffer, digest
      ensures digest[..] == Digest(old(message))
      ensures Valid() && message == []
    {
      hide Pad, HashBlocks, RegBytes, Holds;
      assert state.Length == 8 && buffer.Length == 64 by { Lengths(); }
      HashPadding();
      WriteState(digest);
      Init();
    }

    lemma Lengths()
      requires Valid()
      ensures state.Length == 8 && buffer.Length == 64
    {
    }
  }

  /** The first `n` state words as bytes. */
  function StateBytes(s: seq<word>, n: nat): (r: seq<byte>)
    requires n <= |s|
    ensures |r| == 4 * n
  {
    if n == 0 then [] else StateBytes(s, n - 1) + BytesOf(s[n - 1])
  }

  lemma StateBytesAll(s: seq<word>)
    requires |s| == 8
    ensures StateBytes(s, 8) == RegBytes(RegsOf(s))
  {
    hide BytesOf;
    assert StateBytes(s, 2) == BytesOf(s[0]) + BytesOf(s[1]);
    assert StateBytes(s, 4) == StateBytes(s, 2) + BytesOf(s[2]) + BytesOf(s[3]);
    assert StateBytes(s, 6) == StateBytes(s, 4) + BytesOf(s[4]) + BytesOf(s[5]);
  }

  /** `len_in_bits >> 56` and `len_in_bits <<= 8` on 64 bits. */
  function TopOf(len: nat): byte
    requires len < TWO_64
  {
    (len / 0x100_0000_0000_0000) as byte
  }

  function ShiftedUp(len: nat): (r: nat)
    ensures r < TWO_64
  {
    (len * 256) % TWO_64
  }

  /** One step of writing `n` as eight bytes: `len` is what is left of it, left-aligned. */
  lemma LengthStep(r: nat, k: nat, len: nat)
    requires 0 < k <= 8 && r < Pow256(k) && len == r * Pow256(8 - k)
    ensures len < TWO_64 && 0 < Pow256(k - 1)
    ensures var rest := r % Pow256(k - 1);
      && rest < Pow256(k - 1)
      && BigEndian(r, k) == [TopOf(len)] + BigEndian(rest, k - 1)
      && ShiftedUp(len) == rest * Pow256(8 - (k - 1))
  {
    PowEight();
    TopByte(r, k, len);
    DivBound(r, k);
  }

  lemma PowZero()
    ensures Pow256(0) == 1
  {
  }

  lemma NextPosition(length: nat)
    ensures (length % TWO_64 + 1) % TWO_64 == (length + 1) % TWO_64
    ensures (length + 1) % 64 == if length % 64 == 63 then 0 else length % 64 + 1
  {
    NextCount(length);
    NextModulo64(length);
  }

  lemma NextCount(n: nat)
    ensures (n % TWO_64 + 1) % TWO_64 == (n + 1) % TWO_64
  {
    var q, r := n / TWO_64, n % TWO_64;
    assert n + 1 == if r + 1 == TWO_64 then TWO_64 * (q + 1) else TWO_64 * q + (r + 1);
  }

  lemma NextModulo64(n: nat)
    ensures (n + 1) % 64 == if n % 64 == 63 then 0 else n % 64 + 1
  {
    var q, r := n / 64, n % 64;
    assert n + 1 == if r == 63 then 64 * (q + 1) else 64 * q + (r + 1);
  }

  /** The padding loop, `zeros` zero bytes on: the buffer is filled up to `pos`. */
  predicate Reached(length: nat, zeros: nat, pos: nat) {
    zeros <= PadZeros(length) && 0 < pos <= 64 && (length + 1 + zeros) % 64 == pos % 64
  }

  lemma PadStart(length: nat)
    ensures Reached(length, 0, length % 64 + 1)
  {
    hide PadZeros;
    NextModulo64(length);
  }

  lemma PadStep(length: nat, zeros: nat, pos: nat)
    requires Reached(length, zeros, pos) && pos != 56
    ensures 0 < pos <= 64 && zeros < PadZeros(length) && Reached(length, zeros + 1, pos % 64 + 1)
  {
    hide PadZeros;
    NextModulo64(length + 1 + zeros);
  }

  lemma PadDone(length: nat, zeros: nat)
    requires Reached(length, zeros, 56)
    ensures zeros == PadZeros(length)
  {
  }

  /** The 64-bit counter gives the buffer position and the bit length. */
  lemma CountFacts(length: nat)
    ensures (length % TWO_64) % 64 == length % 64
    ensures (8 * (length % TWO_64)) % TWO_64 == (8 * length) % TWO_64
  {
    CountPosition(length);
    CountBits(length);
  }

  lemma CountPosition(length: nat)
    ensures (length % TWO_64) % 64 == length % 64
  {
    var q, r := length / TWO_64, length % TWO_64;
    var a, b := r / 64, r % 64;
    assert length == 64 * (0x400_0000_0000_0000 * q + a) + b;
  }

  lemma CountBits(length: nat)
    ensures (8 * (length % TWO_64)) % TWO_64 == (8 * length) % TWO_64
  {
    var q, r := length / TWO_64, length % TWO_64;
    var eight := 8 * r;
    var c, d := eight / TWO_64, eight % TWO_64;
    RemainderIs(8 * length, 8 * q + c, d);
  }

  lemma RemainderIs(n: nat, q: nat, r: nat)
    requires n == TWO_64 * q + r && r < TWO_64
    ensures n % TWO_64 == r
  {
  }
}
