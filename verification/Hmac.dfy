/** HMAC-SHA256 as hmac_sha256.c computes it, against section 2 of RFC 2104. */
module Hmac {
  import opened Octets
  import opened Fips180
  import Sha256

  const BLOCK := 64
  const I_PAD: byte := 0x36
  const O_PAD: byte := 0x5C

  /** RFC 2104, section 2: the key brought to the length of one block. */
  function BlockKey(key: seq<byte>): (k: seq<byte>)
    ensures |k| == BLOCK
  {
    DigestLength(key);
    var k := if |key| > BLOCK then Digest(key) else key;
    k + Zeros(BLOCK - |k|)
  }

  function XorEach(k: seq<byte>, pad: byte): (r: seq<byte>)
    ensures |r| == |k|
  {
    seq(|k|, i requires 0 <= i < |k| => k[i] ^ pad)
  }

  /** RFC 2104, section 2: H(K xor opad, H(K xor ipad, text)). */
  function Mac(key: seq<byte>, text: seq<byte>): seq<byte> {
    Digest(XorEach(BlockKey(key), O_PAD) + Digest(XorEach(BlockKey(key), I_PAD) + text))
  }

  /** RFC 2104, section 2, with its numbers: the key, hashed if it is longer than 64 bytes and
      filled up with zeros to 64, each byte xor 0x36 and 0x5C. */
  lemma MacAsSpecified(key: seq<byte>, text: seq<byte>)
    ensures
      var short := if |key| > 64 then Digest(key) else key;
      var inner := seq(64, i => (if 0 <= i < |short| then short[i] else 0) ^ 0x36);
      var outer := seq(64, i => (if 0 <= i < |short| then short[i] else 0) ^ 0x5C);
      |short| <= 64 && Mac(key, text) == Digest(outer + Digest(inner + text))
  {
    hide Digest;
    DigestLength(key);
    var short := if |key| > 64 then Digest(key) else key;
    assert XorEach(BlockKey(key), 0x36) == seq(64, i => (if 0 <= i < |short| then short[i] else 0) ^ 0x36);
    assert XorEach(BlockKey(key), 0x5C) == seq(64, i => (if 0 <= i < |short| then short[i] else 0) ^ 0x5C);
  }

  /** One of the two key blocks: the key bytes, then the padding, each xor `pad`. */
  method FillKey(kx: array<byte>, key: seq<byte>, pad: byte)
    requires kx.Length == BLOCK && |key| <= BLOCK
    modifies kx
    ensures kx[..] == XorEach(key + Zeros(BLOCK - |key|), pad)
  {
    ghost var padded := key + Zeros(BLOCK - |key|);
    assert |padded| == BLOCK && padded[..|key|] == key && forall k :: |key| <= k < BLOCK ==> padded[k] == 0;
    hide Zeros;
    var i := 0;
    while i < |key|
      invariant 0 <= i <= |key|
      invariant forall k :: 0 <= k < i ==> kx[k] == padded[k] ^ pad
    {
      kx[i] := pad ^ key[i];
      XorCommutes(pad, key[i]);
      i := i + 1;
    }
    while i < BLOCK
      invariant |key| <= i <= BLOCK
      invariant forall k :: 0 <= k < i ==> kx[k] == padded[k] ^ pad
    {
      kx[i] := pad ^ 0;
      XorCommutes(pad, 0);
      i := i + 1;
    }
  }

  lemma XorCommutes(x: byte, y: byte)
    ensures x ^ y == y ^ x
  {
  }

  /** init, one or two updates, final. */
  method HashTwo(ss: Sha256.Context, first: seq<byte>, second: seq<byte>, out: array<byte>)
    requires ss.Valid() && out.Length == 32 && out != ss.buffer
    modifies ss, ss.state, ss.buffer, out
    ensures ss.Valid() && out[..] == Digest(first + second)
  {
    hide Digest;
    hide Sha256.Context.Valid;
    ss.Lengths();
    ss.Init();
    ss.Update(first);
    ss.Update(second);
    assert [] + first + second == first + second;
    ss.Final(out);
  }

  /** A key longer than a block is replaced by its digest. */
  method ShortKey(ss: Sha256.Context, key: seq<byte>) returns (short: seq<byte>)
    requires ss.Valid()
    modifies ss, ss.state, ss.buffer
    ensures ss.Valid() && |short| <= BLOCK && short + Zeros(BLOCK - |short|) == BlockKey(key)
  {
    hide Digest;
    hide Sha256.Context.Valid;
    DigestLength(key);
    short := key;
    if |key| > BLOCK {
      var kh := new byte[32](_ => 0);
      ss.Lengths();
      ss.Init();
      ss.Update(key);
      assert [] + key == key;
      ss.Final(kh);
      short := kh[..];
    }
  }

  /** `hmac_sha256`: the mac of `data` is left in `out`. */
  method Compute(out: array<byte>, data: seq<byte>, key: seq<byte>)
    requires out.Length == 32
    modifies out
    ensures out[..] == Mac(key, data)
  {
    hide Digest, XorEach, BlockKey;
    hide Sha256.Context.Valid;
    var ss := new Sha256.Context();
    var useKey := ShortKey(ss, key);
    var kx := new byte[BLOCK](_ => 0);
    FillKey(kx, useKey, I_PAD);
    HashTwo(ss, kx[..], data, out);
    FillKey(kx, useKey, O_PAD);
    HashTwo(ss, kx[..], out[..], out);
  }
}
