/** Bit reversal of 32- and 64-bit words
  * (rustracer-core/src/sampler/lowdiscrepancy.rs:62-76). */
module BitReverse {
  /** `reverse_bits_32`: swap the halves, then the bytes, nibbles, bit pairs
    * and bits within them. */
  function ReverseBits32(n: bv32): bv32
  {
    var n1 := (n << 16) | (n >> 16);
    var n2 := ((n1 & 0x00ff00ff) << 8) | ((n1 & 0xff00ff00) >> 8);
    var n3 := ((n2 & 0x0f0f0f0f) << 4) | ((n2 & 0xf0f0f0f0) >> 4);
    var n4 := ((n3 & 0x33333333) << 2) | ((n3 & 0xcccccccc) >> 2);
    ((n4 & 0x55555555) << 1) | ((n4 & 0xaaaaaaaa) >> 1)
  }

  /** Bit `i` of a 32-bit word. */
  predicate Bit32(n: bv32, i: nat)
    requires i < 32
  {
    (n >> i) & 1 == 1
  }

  /** Bit `i` of the result is bit `31 - i` of the argument. */
  lemma ReverseBits32Reverses(n: bv32, i: nat)
    requires i < 32
    ensures Bit32(ReverseBits32(n), i) == Bit32(n, 31 - i)
  {
    if i == 0 {
    }
    else if i == 1 {
    }
    else if i == 2 {
    }
    else if i == 3 {
    }
    else if i == 4 {
    }
    else if i == 5 {
    }
    else if i == 6 {
    }
    else if i == 7 {
    }
    else if i == 8 {
    }
    else if i == 9 {
    }
    else if i == 10 {
    }
    else if i == 11 {
    }
    else if i == 12 {
    }
    else if i == 13 {
    }
    else if i == 14 {
    }
    else if i == 15 {
    }
    else if i == 16 {
    }
    else if i == 17 {
    }
    else if i == 18 {
    }
    else if i == 19 {
    }
    else if i == 20 {
    }
    else if i == 21 {
    }
    else if i == 22 {
    }
    else if i == 23 {
    }
    else if i == 24 {
    }
    else if i == 25 {
    }
    else if i == 26 {
    }
    else if i == 27 {
    }
    else if i == 28 {
    }
    else if i == 29 {
    }
    else if i == 30 {
    }
    else if i == 31 {
    }
  }

  /** Reversing twice gives the word back. */
  lemma ReverseBits32Involution(n: bv32)
    ensures ReverseBits32(ReverseBits32(n)) == n
  {
  }

  function Low32(n: bv64): bv32
  {
    (n & 0xFFFF_FFFF) as bv32
  }

  function High32(n: bv64): bv32
  {
    (n >> 32) as bv32
  }

  /** The 64-bit word with halves `hi` and `lo`. */
  function Join(hi: bv32, lo: bv32): (r: bv64)
    ensures High32(r) == hi && Low32(r) == lo
  {
    ((hi as bv64) << 32) | (lo as bv64)
  }

  /** `reverse_bits_64`: the reversed low half becomes the high half and the
    * reversed high half the low half. */
  function ReverseBits64(n: bv64): (r: bv64)
    ensures High32(r) == ReverseBits32(Low32(n)) && Low32(r) == ReverseBits32(High32(n))
  {
    Join(ReverseBits32(Low32(n)), ReverseBits32(High32(n)))
  }

  /** Reversing 64 bits twice gives the word back. */
  lemma ReverseBits64Involution(n: bv64)
    ensures ReverseBits64(ReverseBits64(n)) == n
  {
    var r := ReverseBits64(n);
    ReverseBits32Involution(Low32(n));
    ReverseBits32Involution(High32(n));
    assert High32(ReverseBits64(r)) == High32(n) && Low32(ReverseBits64(r)) == Low32(n);
  }
}
