/**
 * The deterministic "coin flip" a skip list uses to decide how far a newly
 * inserted key climbs: a pure function of the key's bits and the index of
 * the flip, never of a random source.  One overload takes a 32-bit unsigned
 * key, the other a byte string.
 */
module CoinFlip {

  /** Bit `p` of a 32-bit word, counting from the least significant bit. */
  predicate Bit32(x: bv32, p: nat)
    requires p < 32
  {
    (x >> p) & 1 == 1
  }

  /** Bit `p` of a byte. */
  predicate Bit8(c: bv8, p: nat)
    requires p < 8
  {
    (c >> p) & 1 == 1
  }

  /**
   * Coin flip for an unsigned key: the four bytes of `x` are XOR-folded
   * into one byte `c` (the C++ `char`), and the flip is bit `i mod 8` of
   * `c`.  Stated independently of the masks and divisions: the flip is heads
   * exactly when an odd number of the four bytes of `x` have bit `i mod 8`
   * set.
   */
  function FlipCoin(x: bv32, i: nat): (heads: bool)
    ensures var j := i % 8;
      heads == ((Bit32(x, j) != Bit32(x, 8 + j)) != (Bit32(x, 16 + j) != Bit32(x, 24 + j)))
  {
    var first8Bits := (x & 0xFF00_0000) / 0x0100_0000;
    var next8Bits := (x & 0x00FF_0000) / 0x0001_0000;
    var andThen := (x & 0x0000_FF00) / 0x0000_0100;
    var lastBits := x & 0x0000_00FF;
    // each part is below 256, so storing the fold in a byte loses nothing
    var c := (first8Bits ^ next8Bits ^ andThen ^ lastBits) as bv8;
    c & (1 << (i % 8)) != 0
  }

  /** Only `i mod 8` matters: the flips of one key repeat with period 8. */
  lemma FlipCoinPeriodic(x: bv32, i: nat)
    ensures FlipCoin(x, i + 8) == FlipCoin(x, i)
  {
  }

  /** A key below 256 has three zero bytes, so its flip is just its own bit. */
  lemma FlipCoinSmallKey(x: bv32, i: nat)
    requires x < 256
    ensures FlipCoin(x, i) == Bit32(x, i % 8)
  {
  }

  /** 255 has every bit of its low byte set and no other: always heads. */
  lemma FlipCoinAlwaysHeads(i: nat)
    ensures FlipCoin(255, i)
  {
    FlipCoinSmallKey(255, i);
  }

  /** The XOR of all bytes of `s`; the empty string folds to 0. */
  function XorAll(s: seq<bv8>): bv8
  {
    if |s| == 0 then 0 else XorAll(s[..|s| - 1]) ^ s[|s| - 1]
  }

  /** The flip for a string key: bit `i mod 8` of the XOR of its characters. */
  function StringCoin(s: seq<bv8>, i: nat): bool
  {
    Bit8(XorAll(s), i % 8)
  }

  /**
   * Coin flip for a string key.  The accumulator starts at `s[0]` and every
   * further character is XORed into it; the flip is bit `i mod 8` of the
   * result.  For the empty string `s[0]` is the terminating NUL character
   * of a C++ `std::string`, so the accumulator is 0 and the flip is tails.
   */
  method FlipCoinString(s: seq<bv8>, i: nat) returns (heads: bool)
    ensures heads == StringCoin(s, i)
  {
    var c: bv8 := if |s| > 0 then s[0] else 0;
    assert |s| > 0 ==> s[..1] == [s[0]];
    var j := 1;
    while j < |s|
      invariant 1 <= j
      invariant |s| > 0 ==> j <= |s| && c == XorAll(s[..j])
      invariant |s| == 0 ==> c == 0
    {
      assert s[..j + 1][..j] == s[..j];
      c := c ^ s[j];
      j := j + 1;
    }
    assert |s| > 0 ==> s[..j] == s;
    heads := c & (1 << (i % 8)) != 0;
  }

  /** Folding XOR over a concatenation folds each part. */
  lemma {:induction false} XorAllConcat(a: seq<bv8>, b: seq<bv8>)
    ensures XorAll(a + b) == XorAll(a) ^ XorAll(b)
  {
    if |b| == 0 {
      assert a + b == a;
    } else {
      assert (a + b)[..|a + b| - 1] == a + b[..|b| - 1];
      XorAllConcat(a, b[..|b| - 1]);
    }
  }

  /** Removing one occurrence of `x` from two sequences with equal multisets keeps them equal. */
  lemma RemoveOne(s': seq<bv8>, x: bv8, t: seq<bv8>, p: nat)
    requires p < |t| && t[p] == x
    requires multiset(s' + [x]) == multiset(t)
    ensures multiset(s') == multiset(t[..p] + t[p + 1..])
  {
    assert t == t[..p] + [x] + t[p + 1..];
    assert multiset(t) == multiset(t[..p]) + multiset{x} + multiset(t[p + 1..]);
    assert multiset(s' + [x]) == multiset(s') + multiset{x};
    assert multiset(t[..p] + t[p + 1..]) == multiset(t[..p]) + multiset(t[p + 1..]);
    assert multiset(s') == multiset(s' + [x]) - multiset{x};
    assert multiset(t[..p] + t[p + 1..]) == multiset(t) - multiset{x};
  }

  /** The fold, hence the flip, does not depend on the order of the characters. */
  lemma {:induction false} XorAllPermutation(s: seq<bv8>, t: seq<bv8>)
    requires multiset(s) == multiset(t)
    ensures XorAll(s) == XorAll(t)
    decreases |s|
  {
    if |s| == 0 {
      assert |t| == |multiset(t)| == 0;
    } else {
      var x := s[|s| - 1];
      var s' := s[..|s| - 1];
      assert s == s' + [x];
      assert x in multiset(t);
      var p :| 0 <= p < |t| && t[p] == x;
      RemoveOne(s', x, t, p);
      XorAllPermutation(s', t[..p] + t[p + 1..]);
      assert t == (t[..p] + [x]) + t[p + 1..];
      XorAllConcat(t[..p] + [x], t[p + 1..]);
      XorAllConcat(t[..p], [x]);
      XorAllConcat(t[..p], t[p + 1..]);
      assert XorAll([x]) == x by {
        assert [x][..0] == [];
      }
    }
  }

  /** Hence two strings made of the same characters flip alike. */
  lemma StringCoinOrderIndependent(s: seq<bv8>, t: seq<bv8>, i: nat)
    requires multiset(s) == multiset(t)
    ensures StringCoin(s, i) == StringCoin(t, i)
  {
    XorAllPermutation(s, t);
  }

  /** The string flips repeat with period 8 as well. */
  lemma StringCoinPeriodic(s: seq<bv8>, i: nat)
    ensures StringCoin(s, i + 8) == StringCoin(s, i)
  {
  }
}
