/**
 * Height determination for a newly inserted key: the key climbs one layer
 * per leading "heads" of its coin flips, but never above a cap that depends
 * on how many keys the list holds once the new key is counted.
 */
module Heights {

  function Pow2(n: nat): (r: nat)
    ensures r >= 1
  {
    if n == 0 then 1 else 2 * Pow2(n - 1)
  }

  lemma {:induction false} Pow2Monotone(a: nat, b: nat)
    requires a <= b
    ensures Pow2(a) <= Pow2(b)
    decreases b
  {
    if a < b {
      Pow2Monotone(a, b - 1);
    }
  }

  /** The least `r` with `n <= 2^r`, that is, the ceiling of log2 n (0 for n <= 1). */
  function CeilLog2(n: nat): (r: nat)
    ensures n <= Pow2(r)
    ensures r > 0 ==> Pow2(r - 1) < n
    decreases n
  {
    if n <= 1 then 0 else 1 + CeilLog2((n + 1) / 2)
  }

  /** The two bounds in CeilLog2's contract determine it. */
  lemma CeilLog2Unique(n: nat, r: nat)
    requires n <= Pow2(r)
    requires r > 0 ==> Pow2(r - 1) < n
    ensures CeilLog2(n) == r
  {
    var c := CeilLog2(n);
    if c < r {
      Pow2Monotone(c, r - 1);
    } else if r < c {
      Pow2Monotone(r, c - 1);
    }
  }

  lemma CeilLog2Monotone(a: nat, b: nat)
    requires a <= b
    ensures CeilLog2(a) <= CeilLog2(b)
  {
    var ca, cb := CeilLog2(a), CeilLog2(b);
    if cb < ca {
      Pow2Monotone(cb, ca - 1);
    }
  }

  /**
   * The greatest height a key may be given when the list holds `population`
   * keys, the new one included: 12 while that is at most 16, and
   * 3 * ceil(log2 population) beyond.
   */
  function MaxHeight(population: nat): (h: nat)
    ensures h >= 12
  {
    if population <= 16 then 12 else 3 * CeilLog2(population)
  }

  /**
   * The cap, stated without logarithms: the least multiple of 3 that is at
   * least 12 and whose third `e` satisfies `population <= 2^e`.
   */
  lemma MaxHeightBounds(population: nat)
    ensures MaxHeight(population) % 3 == 0
    ensures population <= Pow2(MaxHeight(population) / 3)
    ensures MaxHeight(population) > 12 ==> Pow2(MaxHeight(population) / 3 - 1) < population
  {
    assert Pow2(4) == 16;
    if population > 16 {
      var e := CeilLog2(population);
      if e < 5 {
        Pow2Monotone(e, 4);
      }
      assert MaxHeight(population) / 3 == e;
    }
  }

  /** With 17 keys the cap is 3 * ceil(log2 17) = 15. */
  lemma MaxHeight17(population: nat)
    requires population == 17
    ensures MaxHeight(population) == 15
  {
    assert Pow2(4) == 16 && Pow2(5) == 32;
    CeilLog2Unique(population, 5);
  }

  /** A larger list never has a lower cap. */
  lemma MaxHeightMonotone(a: nat, b: nat)
    requires a <= b
    ensures MaxHeight(a) <= MaxHeight(b)
  {
    CeilLog2Monotone(a, b);
  }

  /**
   * Starting at flip `from`, the index of the first flip of `k` that shows
   * tails, or `limit` if every flip from `from` to `limit - 1` shows heads.
   */
  function Climb<K>(coin: (K, nat) -> bool, k: K, from: nat, limit: nat): (top: nat)
    requires from <= limit
    ensures from <= top <= limit
    ensures forall j :: from <= j < top ==> coin(k, j)
    ensures top < limit ==> !coin(k, top)
    decreases limit - from
  {
    if from == limit || !coin(k, from) then from else Climb(coin, k, from + 1, limit)
  }

  /** Any index with the three properties of Climb's contract is Climb's result. */
  lemma ClimbUnique<K>(coin: (K, nat) -> bool, k: K, from: nat, limit: nat, top: nat)
    requires from <= top <= limit
    requires forall j :: from <= j < top ==> coin(k, j)
    requires top < limit ==> !coin(k, top)
    ensures Climb(coin, k, from, limit) == top
  {
  }

  /**
   * The height of a key inserted into a list that then holds `population`
   * keys: one plus the number of leading heads of `coin(k, 0), coin(k, 1), ...`,
   * where the climb stops once the key has reached the cap MaxHeight.
   */
  function AssignedHeight<K>(coin: (K, nat) -> bool, k: K, population: nat): (h: nat)
    ensures 1 <= h <= MaxHeight(population)
    ensures forall j :: 0 <= j < h - 1 ==> coin(k, j)
    ensures h < MaxHeight(population) ==> !coin(k, h - 1)
  {
    1 + Climb(coin, k, 0, MaxHeight(population) - 1)
  }

  /**
   * Below the cap the height is one plus the number of leading heads: the
   * flips `0 .. h - 2` are heads and flip `h - 1` is tails.
   */
  lemma AssignedHeightFollowsFlips<K>(coin: (K, nat) -> bool, k: K, population: nat, heads: nat)
    requires forall j :: 0 <= j < heads ==> coin(k, j)
    requires !coin(k, heads)
    requires heads + 1 < MaxHeight(population)
    ensures AssignedHeight(coin, k, population) == heads + 1
  {
    ClimbUnique(coin, k, 0, MaxHeight(population) - 1, heads);
  }

  /** A key whose every flip is heads climbs exactly to the cap. */
  lemma AssignedHeightAlwaysHeads<K>(coin: (K, nat) -> bool, k: K, population: nat)
    requires forall j :: coin(k, j)
    ensures AssignedHeight(coin, k, population) == MaxHeight(population)
  {
  }
}
