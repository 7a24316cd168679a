/** SHA-256 as FIPS 180-4 defines it: the reference for module `Sha256`. */
module Fips180 {
  import opened Octets

  /** Section 3.2: circular right shift. */
  function Rotr(x: word, n: bv6): word
    requires 0 < n < 32
  {
    (x >> n) | (x << (32 - n))
  }

  // Section 4.1.2: the logical functions.

  function Ch(x: word, y: word, z: word): word {
    (x & y) ^ (!x & z)
  }

  function Maj(x: word, y: word, z: word): word {
    (x & y) ^ (x & z) ^ (y & z)
  }

  function BigSigma0(x: word): word {
    Rotr(x, 2) ^ Rotr(x, 13) ^ Rotr(x, 22)
  }

  function BigSigma1(x: word): word {
    Rotr(x, 6) ^ Rotr(x, 11) ^ Rotr(x, 25)
  }

  function SmallSigma0(x: word): word {
    Rotr(x, 7) ^ Rotr(x, 18) ^ (x >> 3)
  }

  function SmallSigma1(x: word): word {
    Rotr(x, 17) ^ Rotr(x, 19) ^ (x >> 10)
  }

  /** Section 4.2.2: the round constants, in rows of eight. */
  const ROUND_CONSTANTS: seq<seq<word>> := [
    [0x428a2f98, 0x71374491, 0xb5c0fbcf, 0xe9b5dba5, 0x3956c25b, 0x59f111f1, 0x923f82a4, 0xab1c5ed5],
    [0xd807aa98, 0x12835b01, 0x243185be, 0x550c7dc3, 0x72be5d74, 0x80deb1fe, 0x9bdc06a7, 0xc19bf174],
    [0xe49b69c1, 0xefbe4786, 0x0fc19dc6, 0x240ca1cc, 0x2de92c6f, 0x4a7484aa, 0x5cb0a9dc, 0x76f988da],
    [0x983e5152, 0xa831c66d, 0xb00327c8, 0xbf597fc7, 0xc6e00bf3, 0xd5a79147, 0x06ca6351, 0x14292967],
    [0x27b70a85, 0x2e1b2138, 0x4d2c6dfc, 0x53380d13, 0x650a7354, 0x766a0abb, 0x81c2c92e, 0x92722c85],
    [0xa2bfe8a1, 0xa81a664b, 0xc24b8b70, 0xc76c51a3, 0xd192e819, 0xd6990624, 0xf40e3585, 0x106aa070],
    [0x19a4c116, 0x1e376c08, 0x2748774c, 0x34b0bcb5, 0x391c0cb3, 0x4ed8aa4a, 0x5b9cca4f, 0x682e6ff3],
    [0x748f82ee, 0x78a5636f, 0x84c87814, 0x8cc70208, 0x90befffa, 0xa4506ceb, 0xbef9a3f7, 0xc67178f2]]

  function K(t: nat): word
    requires t < 64
  {
    ROUND_CONSTANTS[t / 8][t % 8]
  }

  /** The eight working variables, or the eight words of a hash value. */
  datatype Regs = Regs(a: word, b: word, c: word, d: word, e: word, f: word, g: word, h: word)

  /** Section 5.3.3: the initial hash value. */
  function Initial(): Regs {
    Regs(0x6a09e667, 0xbb67ae85, 0x3c6ef372, 0xa54ff53a, 0x510e527f, 0x9b05688c, 0x1f83d9ab, 0x5be0cd19)
  }

  /** Section 6.2.2, step 1: word `t` of the message schedule. */
  function Schedule(m: seq<word>, t: nat): word
    requires |m| == 16
  {
    if t < 16 then m[t]
    else
      Plus(Plus(Plus(SmallSigma1(Schedule(m, t - 2)), Schedule(m, t - 7)), SmallSigma0(Schedule(m, t - 15))),
           Schedule(m, t - 16))
  }

  function Sum5(h: word, s: word, x: word, k: word, w: word): word {
    h + s + x + k + w
  }

  /** Section 6.2.2, step 3: one round; every register moves on by one place. */
  function Round(r: Regs, k: word, w: word): Regs {
    var t1 := Sum5(r.h, BigSigma1(r.e), Ch(r.e, r.f, r.g), k, w);
    var t2 := Plus(BigSigma0(r.a), Maj(r.a, r.b, r.c));
    Regs(Plus(t1, t2), r.a, r.b, r.c, Plus(r.d, t1), r.e, r.f, r.g)
  }

  /** The working variables after the first `t` rounds. */
  function Rounds(r: Regs, m: seq<word>, t: nat): Regs
    requires |m| == 16 && t <= 64
  {
    if t == 0 then r else Round(Rounds(r, m, t - 1), K(t - 1), Schedule(m, t - 1))
  }

  /** Section 6.2.2, step 4. */
  function AddRegs(r: Regs, s: Regs): Regs {
    Regs(Plus(r.a, s.a), Plus(r.b, s.b), Plus(r.c, s.c), Plus(r.d, s.d),
         Plus(r.e, s.e), Plus(r.f, s.f), Plus(r.g, s.g), Plus(r.h, s.h))
  }

  /** Section 6.2.2: the hash value after one more message block. */
  function Compress(r: Regs, m: seq<word>): Regs
    requires |m| == 16
  {
    AddRegs(Rounds(r, m, 64), r)
  }

  /** Section 3.1: a word from four bytes, most significant first, and back. */
  function WordOf(b0: byte, b1: byte, b2: byte, b3: byte): word {
    ((b0 as word) << 24) + ((b1 as word) << 16) + ((b2 as word) << 8) + (b3 as word)
  }

  function BytesOf(w: word): (s: seq<byte>)
    ensures |s| == 4
  {
    [(w >> 24) as byte, ((w >> 16) & 0xFF) as byte, ((w >> 8) & 0xFF) as byte, (w & 0xFF) as byte]
  }

  /** Section 5.2.1: a 64-byte block as sixteen words. */
  function Words(block: seq<byte>): (m: seq<word>)
    requires |block| == 64
    ensures |m| == 16
  {
    seq(16, i requires 0 <= i < 16 =>
      WordOf(block[4 * i], block[4 * i + 1], block[4 * i + 2], block[4 * i + 3]))
  }

  /** Section 6.2.2: the hash value after all blocks of `s`. */
  function HashBlocks(s: seq<byte>): Regs
    requires |s| % 64 == 0
  {
    if s == [] then Initial()
    else Compress(HashBlocks(s[..|s| - 64]), Words(s[|s| - 64..]))
  }

  function Pow256(k: nat): nat {
    if k == 0 then 1 else 256 * Pow256(k - 1)
  }

  /** `n` as `k` bytes, most significant first. */
  function BigEndian(n: nat, k: nat): (s: seq<byte>)
    requires n < Pow256(k)
    ensures |s| == k
  {
    if k == 0 then [] else
      DivBound(n, k);
      [(n / Pow256(k - 1)) as byte] + BigEndian(n % Pow256(k - 1), k - 1)
  }

  lemma DivBound(n: nat, k: nat)
    requires 0 < k && n < Pow256(k)
    ensures 0 < Pow256(k - 1) && n / Pow256(k - 1) < 256
  {
    PowPositive(k - 1);
    DivLess(n, Pow256(k - 1), 256);
  }

  lemma DivLess(n: nat, p: nat, q: nat)
    requires 0 < p && n < q * p
    ensures n / p < q
  {
    var d := n / p;
    if q <= d {
      assert q * p <= d * p by { MulGrows(q, d, p); }
    }
  }

  lemma MulGrows(m: nat, n: nat, p: nat)
    requires m <= n
    ensures m * p <= n * p
  {
  }

  lemma PowPositive(k: nat)
    ensures 0 < Pow256(k)
  {
  }

  lemma PowEight()
    ensures Pow256(8) == 0x1_0000_0000_0000_0000
  {
    assert Pow256(2) == 0x1_0000;
    assert Pow256(4) == 0x1_0000_0000;
    assert Pow256(6) == 0x1_0000_0000_0000;
  }

  /** Section 5.1.1: the number of zero bytes between the 1 bit and the length. */
  function PadZeros(length: nat): (k: nat)
    ensures (length + 1 + k) % 64 == 56 && k < 64
  {
    (55 - length) % 64
  }

  function Zeros(k: nat): (s: seq<byte>)
    ensures |s| == k
  {
    seq(k, _ => 0)
  }

  lemma {:induction false} PowAdds(m: nat, n: nat)
    ensures Pow256(m + n) == Pow256(m) * Pow256(n)
  {
    if m != 0 {
      PowAdds(m - 1, n);
      var p, q := Pow256(m - 1), Pow256(n);
      assert 256 * (p * q) == (256 * p) * q;
    }
  }

  lemma DivUnique(n: nat, p: nat, q: nat, r: nat)
    requires 0 < p && n == q * p + r && r < p
    ensures n / p == q && n % p == r
  {
    var d := n / p;
    assert n == d * p + n % p;
    if d < q {
      MulGrows(d + 1, q, p);
    } else if q < d {
      MulGrows(q + 1, d, p);
    }
  }

  lemma ScaledQuotient(q: nat, p: nat, r: nat, s: nat)
    requires r < p && 0 < s
    ensures 0 < p * s && ((q * p + r) * s) / (p * s) == q && ((q * p + r) * s) % (p * s) == r * s
  {
    Distribute(q, p, r, s);
    MulSmaller(r, p, s);
    DivUnique((q * p + r) * s, p * s, q, r * s);
  }

  /** Reading the top byte of a left-aligned `k`-byte number and shifting it out. */
  lemma TopByte(r: nat, k: nat, len: nat)
    requires 0 < k <= 8 && r < Pow256(k) && len == r * Pow256(8 - k)
    ensures 0 < Pow256(k - 1) && 0 < Pow256(7) && 0 < Pow256(8)
    ensures len / Pow256(7) == r / Pow256(k - 1)
    ensures (len * 256) % Pow256(8) == (r % Pow256(k - 1)) * Pow256(9 - k)
  {
    hide Pow256;
    var p, s, t := Pow256(k - 1), Pow256(8 - k), Pow256(9 - k);
    PowPositive(k - 1);
    PowPositive(8 - k);
    PowPositive(9 - k);
    PowAdds(k - 1, 8 - k);
    PowAdds(k - 1, 9 - k);
    PowStep(8 - k);
    var q, r' := r / p, r % p;
    DivMod(r, p);
    ScaledQuotient(q, p, r', s);
    ScaledQuotient(q, p, r', t);
    Shuffle(r, s);
  }

  lemma DivMod(n: nat, p: nat)
    requires 0 < p
    ensures n == (n / p) * p + n % p
  {
  }

  lemma Distribute(q: nat, p: nat, r: nat, s: nat)
    ensures (q * p + r) * s == q * (p * s) + r * s
  {
  }

  lemma Shuffle(r: nat, s: nat)
    ensures (r * s) * 256 == r * (256 * s)
  {
  }

  lemma PowStep(k: nat)
    ensures Pow256(k + 1) == 256 * Pow256(k)
  {
  }

  lemma MulSmaller(m: nat, n: nat, p: nat)
    requires m < n && 0 < p
    ensures m * p < n * p
  {
    MulGrows(m + 1, n, p);
  }

  /** The low 64 bits of `bits` as eight bytes. */
  function LengthBytes(bits: nat): (s: seq<byte>)
    ensures |s| == 8
  {
    PowEight();
    BigEndian(bits % 0x1_0000_0000_0000_0000, 8)
  }

  /** Section 5.1.1: the padded message.  The length in bits is kept modulo 2^64; the
      standard defines the hash for messages shorter than that. */
  function Pad(m: seq<byte>): seq<byte> {
    m + [0x80] + Zeros(PadZeros(|m|)) + LengthBytes(8 * |m|)
  }

  lemma PadParts(m: seq<byte>)
    ensures Pad(m) == m + [0x80] + Zeros(PadZeros(|m|)) + LengthBytes(8 * |m|)
  {
    hide LengthBytes, Zeros, PadZeros;
  }

  lemma PadLength(m: seq<byte>)
    ensures |Pad(m)| % 64 == 0
  {
    hide LengthBytes, Zeros, PadZeros;
    assert |Pad(m)| == |m| + 1 + PadZeros(|m|) + 8;
  }

  function RegBytes(r: Regs): (s: seq<byte>)
    ensures |s| == 32
  {
    BytesOf(r.a) + BytesOf(r.b) + BytesOf(r.c) + BytesOf(r.d) +
    BytesOf(r.e) + BytesOf(r.f) + BytesOf(r.g) + BytesOf(r.h)
  }

  /** Section 6.2: the message digest. */
  function Digest(m: seq<byte>): seq<byte> {
    PadLength(m);
    RegBytes(HashBlocks(Pad(m)))
  }

  lemma DigestLength(m: seq<byte>)
    ensures |Digest(m)| == 32
  {
    hide Pad, HashBlocks;
    PadLength(m);
  }

  /** The number that bytes, most significant first, stand for. */
  function FromBigEndian(s: seq<byte>): nat {
    if s == [] then 0 else (s[0] as nat) * Pow256(|s| - 1) + FromBigEndian(s[1..])
  }

  lemma {:induction false} BigEndianValue(n: nat, k: nat)
    requires n < Pow256(k)
    ensures FromBigEndian(BigEndian(n, k)) == n
  {
    assert Pow256(0) == 1;
    hide Pow256;
    if k != 0 {
      DivBound(n, k);
      var p := Pow256(k - 1);
      BigEndianValue(n % p, k - 1);
      DivMod(n, p);
      ByteValue(n / p);
    }
  }

  /** On every message the standard covers, the length field is the exact bit length. */
  lemma LengthFieldIsExact(m: seq<byte>)
    requires 8 * |m| < 0x1_0000_0000_0000_0000
    ensures FromBigEndian(LengthBytes(8 * |m|)) == 8 * |m|
  {
    hide BigEndian, FromBigEndian, Pow256;
    PowEight();
    BigEndianValue(8 * |m|, 8);
  }
}
