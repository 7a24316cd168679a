/** Unsigned 8-bit and 32-bit machine words. */
module Octets {
  type byte = bv8
  type word = bv32

  /** Addition modulo 2^32. */
  function Plus(x: word, y: word): word {
    x + y
  }

  lemma PlusCommutes(x: word, y: word)
    ensures Plus(x, y) == Plus(y, x)
  {
  }

  lemma Doubled(b: byte, k: byte)
    requires b as nat < 128 && k < 2
    ensures ((b << 1) | k) as nat == 2 * (b as nat) + k as nat
  {
  }

  /** The byte of value `n`, bit by bit. */
  function ByteOf(n: nat): (b: byte)
    requires n < 256
    ensures b as nat == n
  {
    if n == 0 then 0
    else
      var half := ByteOf(n / 2);
      var bit: byte := if n % 2 == 1 then 1 else 0;
      Doubled(half, bit);
      (half << 1) | bit
  }

  lemma ByteValue(n: nat)
    requires n < 256
    ensures (n as byte) as nat == n
  {
    assert ByteOf(n) == n as byte;
  }
}
