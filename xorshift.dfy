/** The xorshift128+ bit generator: a two-word state advanced in place,
    each advance yielding one 64-bit output. */
module Xorshift {

  /** The word one advance stores in s[1], given the old s[0] (x) and the old s[1] (y). */
  function Mix(x: bv64, y: bv64): bv64
  {
    var x1 := x ^ (x << 23);
    x1 ^ y ^ (x1 >> 18) ^ (y >> 5)
  }

  /** Addition of two words, wrapping at 2^64. */
  function Add(a: bv64, b: bv64): bv64
  {
    a + b
  }

  /** Mixing a word with a zero s[1] gives zero only for a zero word. */
  lemma MixZero(x: bv64, y: bv64)
    requires y == 0 && Mix(x, y) == 0
    ensures x == 0
  {
  }

  /** A state that is not all zero stays not all zero after an advance. */
  lemma NextNonZero(s0: bv64, s1: bv64)
    requires s0 != 0 || s1 != 0
    ensures s1 != 0 || Mix(s0, s1) != 0
  {
    if s1 == 0 && Mix(s0, s1) == 0 {
      MixZero(s0, s1);
    }
  }

  /** The generator state: the two words s[0] and s[1]. */
  class State {
    var word0: bv64
    var word1: bv64

    constructor (w0: bv64, w1: bv64)
      ensures word0 == w0 && word1 == w1
    {
      word0, word1 := w0, w1;
    }

    /** One advance: s[0] takes the old s[1], s[1] takes the mixed word, and
        the result is the new s[1] plus the old s[1], wrapping at 2^64. */
    method Advance() returns (r: bv64)
      modifies this
      ensures word0 == old(word1) && word1 == Mix(old(word0), old(word1))
      ensures r == Add(word1, old(word1))
    {
      var s1 := word0;
      var s0 := word1;
      word0 := s0;
      // the shifted old s[0] folded with the old s[1]
      word1 := Mix(s1, s0);
      r := Add(word1, s0);
    }
  }
}
