/**
 * The unit scenarios of the skip list over 32-bit unsigned keys, ordered by
 * `<` and flipped with the unsigned coin-flip function.
 */
module Scenarios {
  import opened CoinFlip
  import opened Heights
  import opened Ordering
  import opened SkipLists

  /** A C++ `unsigned`: 32 bits wide. */
  newtype Unsigned = x: int | 0 <= x < 0x1_0000_0000

  /** `operator<` on unsigned keys. */
  predicate UnsignedLess(a: Unsigned, b: Unsigned)
  {
    a < b
  }

  /** The coin the skip list flips for an unsigned key. */
  predicate UnsignedCoin(k: Unsigned, i: nat)
  {
    FlipCoin(k as bv32, i)
  }

  lemma UnsignedLessIsStrictTotalOrder()
    ensures StrictTotalOrder(UnsignedLess)
  {
  }

  /** Heights of the unsigned keys 0 .. 15. */
  const SmallKeyHeights: seq<nat> := [1, 2, 1, 3, 1, 2, 1, 4, 1, 2, 1, 3, 1, 2, 1, 5]

  /**
   * A key below 256 whose low bits `0 .. heads - 1` are set and bit `heads`
   * clear climbs `heads` layers above the base lane.
   */
  lemma HeightFromLowBits(k: Unsigned, bits: bv32, population: nat, heads: nat)
    requires bits == k as bv32 && k < 256 && heads < 8
    requires forall j :: 0 <= j < heads ==> Bit32(bits, j)
    requires !Bit32(bits, heads)
    ensures AssignedHeight(UnsignedCoin, k, population) == heads + 1
  {
    forall j | 0 <= j < heads ensures UnsignedCoin(k, j) {
      FlipCoinSmallKey(k as bv32, j);
    }
    FlipCoinSmallKey(k as bv32, heads);
    AssignedHeightFollowsFlips(UnsignedCoin, k, population, heads);
  }

  /** The heights keys 0 .. 15 get, whatever the population: one plus their trailing ones. */
  lemma SmallKeyHeight(k: Unsigned, population: nat)
    requires k < 16
    ensures AssignedHeight(UnsignedCoin, k, population) == SmallKeyHeights[k]
  {
    var heads := SmallKeyHeights[k] - 1;
    var b: bv32 := match k
      case 0 => 0 case 1 => 1 case 2 => 2 case 3 => 3
      case 4 => 4 case 5 => 5 case 6 => 6 case 7 => 7
      case 8 => 8 case 9 => 9 case 10 => 10 case 11 => 11
      case 12 => 12 case 13 => 13 case 14 => 14 case _ => 15;
    HeightFromLowBits(k, b, population, heads);
  }

  /** 255 shows heads on every flip. */
  lemma MagicKeyAlwaysHeads()
    ensures forall i: nat :: UnsignedCoin(255, i)
  {
    forall i: nat ensures UnsignedCoin(255, i) {
      FlipCoinAlwaysHeads(i);
    }
  }

  /** So 255 climbs to the cap ... */
  lemma MagicKeyHeight(population: nat)
    ensures AssignedHeight(UnsignedCoin, 255, population) == MaxHeight(population)
  {
    MagicKeyAlwaysHeads();
    AssignedHeightAlwaysHeads(UnsignedCoin, 255, population);
  }

  /** ... which is 12 in a list of at most 16 keys ... */
  lemma MagicKeyHeightSmall(population: nat)
    requires population <= 16
    ensures AssignedHeight(UnsignedCoin, 255, population) == 12
  {
    MagicKeyHeight(population);
  }

  /** ... and 3 * ceil(log2 17) = 15 in a list of 17 keys. */
  lemma MagicKeyHeight17(population: nat)
    requires population == 17
    ensures AssignedHeight(UnsignedCoin, 255, population) == 15
  {
    MagicKeyHeight(population);
    MaxHeight17(population);
  }

  /** The keys 0 .. n - 1 in increasing order. */
  function Ascending(n: nat): (s: seq<Unsigned>)
    requires n <= 0x1_0000_0000
    ensures |s| == n
    ensures forall j :: 0 <= j < n ==> s[j] as int == j
  {
    if n == 0 then [] else Ascending(n - 1) + [(n - 1) as Unsigned]
  }

  /** An increasing sequence holding exactly the keys below `n` is Ascending(n). */
  lemma AscendingUnique(s: seq<Unsigned>, n: nat)
    requires n <= 0x1_0000_0000
    requires Increasing(UnsignedLess, s)
    requires forall x :: x in s <==> (x as int) < n
    ensures s == Ascending(n)
  {
    var t := Ascending(n);
    assert Increasing(UnsignedLess, t);
    forall x | x in t ensures x in s {
      var j :| 0 <= j < n && t[j] == x;
    }
    forall x | x in s ensures x in t {
      assert t[x as int] == x;
    }
    assert Elements(s) == Elements(t);
    UnsignedLessIsStrictTotalOrder();
    IncreasingUnique(UnsignedLess, s, t);
  }

  /** Adding key `n` to the keys below `n` gives the keys below `n + 1`. */
  lemma AscendingStep(s: seq<Unsigned>, n: nat)
    requires n < 0x1_0000_0000
    requires Increasing(UnsignedLess, s)
    requires Elements(s) == Elements(Ascending(n)) + {n as Unsigned}
    ensures s == Ascending(n + 1)
  {
    var t := Ascending(n);
    forall x ensures x in s <==> (x as int) < n + 1 {
      assert x in s <==> x in Elements(s);
      if (x as int) < n {
        assert t[x as int] == x;
      }
      assert x in t ==> (x as int) < n;
    }
    AscendingUnique(s, n + 1);
  }

  /**
   * The number of layers of a list, starting empty, whose keys were given
   * the heights `hs` in insertion order: the base and fast lanes, grown to
   * one above the highest key.
   */
  function LayersFor(hs: seq<nat>): (l: nat)
    ensures 2 <= l && forall j :: 0 <= j < |hs| ==> hs[j] < l
    ensures l == 2 || exists j :: 0 <= j < |hs| && hs[j] + 1 == l
  {
    if |hs| == 0 then 2
    else
      var l := LayersFor(hs[..|hs| - 1]);
      var h := hs[|hs| - 1];
      assert forall j :: 0 <= j < |hs| - 1 ==> hs[..|hs| - 1][j] == hs[j];
      if h < l then l else h + 1
  }

  /**
   * The heights the keys 0 .. n - 1 are given when inserted in increasing
   * order: key `j` is inserted into a list that then holds `j + 1` keys.
   */
  function AscendingHeights(coin: (Unsigned, nat) -> bool, n: nat): (hs: seq<nat>)
    requires n <= 0x1_0000_0000
    ensures |hs| == n
  {
    if n == 0 then [] else AscendingHeights(coin, n - 1) + [AssignedHeight(coin, (n - 1) as Unsigned, n)]
  }

  lemma AscendingHeightsStep(coin: (Unsigned, nat) -> bool, n: nat, h: nat)
    requires n < 0x1_0000_0000 && h == AssignedHeight(coin, n as Unsigned, n + 1)
    ensures AscendingHeights(coin, n + 1) == AscendingHeights(coin, n) + [h]
  {
  }

  /** Entry `j` is the height key `j` is assigned in a list of `j + 1` keys. */
  lemma {:induction false} AscendingHeightsAt(coin: (Unsigned, nat) -> bool, n: nat, j: nat)
    requires n <= 0x1_0000_0000 && j < n
    ensures AscendingHeights(coin, n)[j] == AssignedHeight(coin, j as Unsigned, j + 1)
  {
    if j < n - 1 {
      AscendingHeightsAt(coin, n - 1, j);
    }
  }

  /** The values stored when key `j` is inserted with value `base + j`, for `j < n`. */
  function AscendingValues(n: nat, base: nat): (m: map<Unsigned, Unsigned>)
    requires base + n <= 0x1_0000_0000
    ensures forall x :: x in m <==> (x as int) < n
    ensures forall x :: x in m ==> m[x] as int == base + x as int
  {
    if n == 0 then map[] else AscendingValues(n - 1, base)[(n - 1) as Unsigned := (base + n - 1) as Unsigned]
  }

  lemma AscendingValuesStep(n: nat, base: nat, v: Unsigned)
    requires base + n < 0x1_0000_0000 && v as int == base + n
    ensures AscendingValues(n + 1, base) == AscendingValues(n, base)[n as Unsigned := v]
  {
  }

  /**
   * The abstract state a list reaches once the keys 0 .. n - 1 have been
   * inserted in increasing order with values `base + i`: `heights` are the
   * heights read back after each insertion.
   */
  ghost predicate BuiltState(
    keys: seq<Unsigned>, values: map<Unsigned, Unsigned>, layers: nat,
    coin: (Unsigned, nat) -> bool, n: nat, base: nat, heights: seq<nat>)
  {
    && base + n <= 0x1_0000_0000
    && keys == Ascending(n)
    && values == AscendingValues(n, base)
    && heights == AscendingHeights(coin, n)
    && layers == LayersFor(heights)
  }

  /** A valid unsigned-keyed list in that state. */
  ghost predicate Built(sl: SkipList<Unsigned, Unsigned>, n: nat, base: nat, heights: seq<nat>)
    reads sl
  {
    && sl.Valid() && sl.less == UnsignedLess
    && BuiltState(sl.keys, sl.values, sl.layers, sl.coin, n, base, heights)
  }

  /** A new, empty list over unsigned keys is built from no keys. */
  lemma BuiltEmpty(sl: SkipList<Unsigned, Unsigned>, base: nat)
    requires sl.Valid() && sl.less == UnsignedLess && base <= 0x1_0000_0000
    requires sl.keys == [] && sl.values == map[] && sl.layers == 2
    ensures Built(sl, 0, base, [])
  {
  }

  /**
   * Adding key `k = n` with value `v = base + n` and its assigned height to the
   * state built from the keys below `n` gives the state built from the keys
   * below `n + 1`.
   */
  lemma BuiltStep(
    keys: seq<Unsigned>, values: map<Unsigned, Unsigned>, layers: nat,
    keys': seq<Unsigned>, values': map<Unsigned, Unsigned>, layers': nat,
    coin: (Unsigned, nat) -> bool, n: nat, base: nat, heights: seq<nat>, k: Unsigned, v: Unsigned, h: nat)
    requires k as int == n && v as int == base + n
    requires BuiltState(keys, values, layers, coin, n, base, heights)
    requires Increasing(UnsignedLess, keys')
    requires Elements(keys') == Elements(keys) + {k}
    requires values' == values[k := v]
    requires h == AssignedHeight(coin, k, |keys| + 1)
    requires layers' == if h < layers then layers else h + 1
    ensures BuiltState(keys', values', layers', coin, n + 1, base, heights + [h])
  {
    AscendingStep(keys', n);
    assert keys' == Ascending(n + 1);
    AscendingValuesStep(n, base, v);
    assert values' == AscendingValues(n + 1, base);
    AscendingHeightsStep(coin, n, h);
    assert heights + [h] == AscendingHeights(coin, n + 1);
    LayersForStep(heights, h);
    assert layers' == LayersFor(heights + [h]);
  }

  /** A key of height `h` grows the layers to one above it when it is higher than them. */
  lemma LayersForStep(hs: seq<nat>, h: nat)
    ensures LayersFor(hs + [h]) == if h < LayersFor(hs) then LayersFor(hs) else h + 1
  {
    assert (hs + [h])[..|hs|] == hs;
  }

  /**
   * Inserts key `k`, absent from the list, with value `v`, and reads back
   * the height it was given.
   */
  method InsertFresh(sl: SkipList<Unsigned, Unsigned>, k: Unsigned, v: Unsigned) returns (h: nat, layers: nat)
    requires sl.Valid() && k !in sl.keys
    modifies sl
    ensures sl.Valid() && Increasing(sl.less, sl.keys)
    ensures Elements(sl.keys) == Elements(old(sl.keys)) + {k}
    ensures sl.values == old(sl.values)[k := v]
    ensures h == AssignedHeight(sl.coin, k, |old(sl.keys)| + 1)
    ensures layers == sl.layers == if h < old(sl.layers) then old(sl.layers) else h + 1
  {
    var inserted := sl.Insert(k, v);
    var r := sl.Height(k);
    h := r.value;
    layers := sl.NumLayers();
  }

  /**
   * Inserts key `k`, absent from the list and showing heads on every flip,
   * and reads back its height, which is the cap, and the number of layers.
   */
  method InsertAlwaysHeads(sl: SkipList<Unsigned, Unsigned>, k: Unsigned, v: Unsigned) returns (h: nat, layers: nat)
    requires sl.Valid() && k !in sl.keys
    requires forall i: nat :: sl.coin(k, i)
    modifies sl
    ensures h == MaxHeight(|old(sl.keys)| + 1)
    ensures layers == if h < old(sl.layers) then old(sl.layers) else h + 1
  {
    AssignedHeightAlwaysHeads(sl.coin, k, |sl.keys| + 1);
    h, layers := InsertFresh(sl, k, v);
  }

  /**
   * Inserts key `i` with value `base + i` into a list holding the keys
   * below `i`, and reads back the height it was given.
   */
  method InsertNext(sl: SkipList<Unsigned, Unsigned>, i: nat, base: nat, heights: seq<nat>)
    returns (heights': seq<nat>)
    requires base + i < 0x1_0000_0000 && Built(sl, i, base, heights)
    modifies sl
    ensures Built(sl, i + 1, base, heights')
  {
    var k, v := i as Unsigned, (base + i) as Unsigned;
    ghost var keys, values, layers := sl.keys, sl.values, sl.layers;
    AscendingExcludes(i, k);
    assert BuiltState(keys, values, layers, sl.coin, i, base, heights);
    var h, _ := InsertFresh(sl, k, v);
    BuiltStep(keys, values, layers, sl.keys, sl.values, sl.layers, sl.coin, i, base, heights, k, v, h);
    heights' := heights + [h];
  }

  /**
   * A new list into which the keys 0 .. n - 1 have been inserted in
   * increasing order, key `i` with value `base + i`; `heights` holds the
   * height of each key read right after its insertion.
   */
  method InsertAscending(coin: (Unsigned, nat) -> bool, n: nat, base: nat)
    returns (sl: SkipList<Unsigned, Unsigned>, heights: seq<nat>)
    requires base + n <= 0x1_0000_0000
    ensures fresh(sl) && sl.coin == coin
    ensures Built(sl, n, base, heights)
  {
    if n == 0 {
      UnsignedLessIsStrictTotalOrder();
      sl := new SkipList(UnsignedLess, coin);
      BuiltEmpty(sl, base);
      heights := [];
    } else {
      sl, heights := InsertAscending(coin, n - 1, base);
      heights := InsertNext(sl, n - 1, base, heights);
    }
  }

  /** Keys 0 .. n - 1 inserted in order get the heights 1, 2, 1, 3, ... while n <= 16. */
  lemma AscendingHeightsSmall(n: nat)
    requires n <= 16
    ensures forall j :: 0 <= j < n ==> AscendingHeights(UnsignedCoin, n)[j] == SmallKeyHeights[j]
  {
    forall j | 0 <= j < n ensures AscendingHeights(UnsignedCoin, n)[j] == SmallKeyHeights[j] {
      AscendingHeightsAt(UnsignedCoin, n, j);
      SmallKeyHeight(j as Unsigned, j + 1);
    }
  }

  /** Keys 0 .. n - 1 with n <= 16 are at most five high ... */
  lemma AscendingHeightsAtMostFive(n: nat)
    requires n <= 16
    ensures forall j :: 0 <= j < n ==> AscendingHeights(UnsignedCoin, n)[j] <= 5
  {
    AscendingHeightsSmall(n);
    forall j | 0 <= j < n ensures SmallKeyHeights[j] <= 5 {
    }
  }

  /** ... so they need at most six layers. */
  lemma AscendingLayersSmall(n: nat)
    requires n <= 16
    ensures LayersFor(AscendingHeights(UnsignedCoin, n)) <= 6
  {
    AscendingHeightsAtMostFive(n);
  }

  /** Keys 0 .. n - 1 do not include 255 while n <= 255. */
  lemma AscendingExcludes(n: nat, k: Unsigned)
    requires n <= k as int
    ensures k !in Ascending(n)
  {
  }

  /** A list holding the keys below `n <= 16` has at most six layers and does not hold 255. */
  lemma BuiltSmall(sl: SkipList<Unsigned, Unsigned>, n: nat, heights: seq<nat>)
    requires n <= 16 && Built(sl, n, 0, heights) && sl.coin == UnsignedCoin
    ensures sl.Valid() && |sl.keys| == n && 255 !in sl.keys && sl.layers <= 6
  {
    AscendingLayersSmall(n);
    AscendingExcludes(n, 255);
  }

  /** The first ten heights, written out. */
  lemma AscendingHeightsTen(n: nat)
    requires n == 10
    ensures AscendingHeights(UnsignedCoin, n) == [1, 2, 1, 3, 1, 2, 1, 4, 1, 2]
  {
    AscendingHeightsSmall(n);
    TenHeightsWritten(AscendingHeights(UnsignedCoin, n));
  }

  /** A sequence agreeing with the first ten small-key heights is them, written out. */
  lemma TenHeightsWritten(hs: seq<nat>)
    requires |hs| == 10 && forall j :: 0 <= j < 10 ==> hs[j] == SmallKeyHeights[j]
    ensures hs == [1, 2, 1, 3, 1, 2, 1, 4, 1, 2]
  {
    assert hs == SmallKeyHeights[..10];
  }

  /** All sixteen heights, written out. */
  lemma AscendingHeightsSixteen(n: nat)
    requires n == 16
    ensures AscendingHeights(UnsignedCoin, n) == [1, 2, 1, 3, 1, 2, 1, 4, 1, 2, 1, 3, 1, 2, 1, 5]
  {
    AscendingHeightsSmall(n);
    assert AscendingHeights(UnsignedCoin, n) == SmallKeyHeights;
  }

  /** The heights read back in the first scenario, written out. */
  lemma SimpleHeightsWritten(hs: seq<nat>, h: nat)
    requires hs == [1, 2, 1, 3, 1, 2, 1, 4, 1, 2] && h == 12
    ensures hs + [h] == [1, 2, 1, 3, 1, 2, 1, 4, 1, 2, 12]
  {
  }

  /** The heights read back in the second scenario, written out. */
  lemma Capacity17Written(hs: seq<nat>, h: nat)
    requires hs == [1, 2, 1, 3, 1, 2, 1, 4, 1, 2, 1, 3, 1, 2, 1, 5] && h == 15
    ensures hs + [h] == [1, 2, 1, 3, 1, 2, 1, 4, 1, 2, 1, 3, 1, 2, 1, 5, 15]
  {
  }

  /**
   * Keys 0 .. n - 1 and then 255 inserted into a new list: the heights read
   * back after each insertion, and the number of layers at the end.  Key
   * 255 always shows heads, so it climbs to the cap.
   */
  method MagicScenario(n: nat) returns (heights: seq<nat>, layers: nat)
    requires n <= 16
    ensures heights == AscendingHeights(UnsignedCoin, n) + [MaxHeight(n + 1)]
    ensures layers == heights[n] + 1
  {
    var sl, hs := InsertAscending(UnsignedCoin, n, 0);
    BuiltSmall(sl, n, hs);
    MagicKeyAlwaysHeads();
    var magic: Unsigned := 255;
    var h;
    h, layers := InsertAlwaysHeads(sl, magic, magic);
    heights := hs + [h];
  }

  /**
   * Keys 0 .. 9 and then 255 inserted into a new list: heights
   * 1, 2, 1, 3, 1, 2, 1, 4, 1, 2 and 12, and 13 layers.
   */
  method SimpleHeights() returns (heights: seq<nat>, layers: nat)
    ensures heights == [1, 2, 1, 3, 1, 2, 1, 4, 1, 2, 12]
    ensures layers == 13
  {
    var n := 10;
    heights, layers := MagicScenario(n);
    AscendingHeightsTen(n);
    SimpleHeightsWritten(heights[..n], heights[n]);
    assert heights == heights[..n] + [heights[n]];
  }

  /**
   * Keys 0 .. 15 and then 255: heights 1, 2, 1, 3, 1, 2, 1, 4, 1, 2, 1, 3,
   * 1, 2, 1, 5 and 15 = 3 * ceil(log2 17), and 16 layers.
   */
  method Capacity17() returns (heights: seq<nat>, layers: nat)
    ensures heights == [1, 2, 1, 3, 1, 2, 1, 4, 1, 2, 1, 3, 1, 2, 1, 5, 15]
    ensures layers == 16
  {
    var n := 16;
    heights, layers := MagicScenario(n);
    AscendingHeightsSixteen(n);
    MaxHeight17(n + 1);
    Capacity17Written(heights[..n], heights[n]);
    assert heights == heights[..n] + [heights[n]];
  }

  /** A new list has two layers and no keys. */
  method CreatedBasics() returns (layers: nat, size: nat, empty: bool)
    ensures layers == 2 && size == 0 && empty
  {
    UnsignedLessIsStrictTotalOrder();
    var sl := new SkipList<Unsigned, Unsigned>(UnsignedLess, UnsignedCoin);
    layers := sl.NumLayers();
    size := sl.Size();
    empty := sl.IsEmpty();
  }

  /** Inserting a key a second time is refused. */
  method InsertTwice(k: Unsigned, v: Unsigned) returns (first: bool, second: bool, found: Result<Unsigned>)
    ensures first && !second
    ensures found == Ok(v)
  {
    UnsignedLessIsStrictTotalOrder();
    var sl := new SkipList<Unsigned, Unsigned>(UnsignedLess, UnsignedCoin);
    first := sl.Insert(k, v);
    second := sl.Insert(k, v);
    found := sl.Find(k);
  }

  /** A list built from the keys below `n` holds `n` keys and lists them in order. */
  lemma AscendingSize(sl: SkipList<Unsigned, Unsigned>, n: nat, base: nat, heights: seq<nat>)
    requires Built(sl, n, base, heights)
    ensures sl.Size() == n
    ensures sl.IsEmpty() <==> n == 0
    ensures sl.AllKeysInOrder() == Ascending(n)
  {
    assert n > 0 ==> (0 as Unsigned) in sl.values;
  }

  /** Key `k` of such a list maps to `base + k`; a key from `n` on is not found. */
  lemma AscendingFind(sl: SkipList<Unsigned, Unsigned>, n: nat, base: nat, heights: seq<nat>, k: Unsigned)
    requires Built(sl, n, base, heights)
    ensures (k as int) < n ==> sl.Find(k).Ok? && sl.Find(k).value as int == base + k as int
    ensures (k as int) >= n ==> sl.Find(k) == Err(KeyNotFound)
  {
    if (k as int) < n {
      assert sl.keys[k] == k;
    }
  }

  /** Keys `i` and `i + 1` of such a list are each other's next and previous key. */
  lemma AscendingNeighbours(sl: SkipList<Unsigned, Unsigned>, n: nat, base: nat, heights: seq<nat>, i: Unsigned)
    requires Built(sl, n, base, heights) && (i as int) + 1 < n
    ensures sl.NextKey(i) == Ok(i + 1)
    ensures sl.PreviousKey(i + 1) == Ok(i)
  {
    assert sl.keys[i] == i && sl.keys[i + 1] == i + 1;
    AdjacentKeys(sl, i as nat);
  }

  /**
   * In such a list 0 is the smallest key and has no previous key, and
   * `n - 1` the largest, with no next key.
   */
  lemma AscendingEnds(sl: SkipList<Unsigned, Unsigned>, n: nat, base: nat, heights: seq<nat>)
    requires Built(sl, n, base, heights) && n > 0
    ensures sl.IsSmallestKey(0) == Ok(true) && sl.PreviousKey(0) == Err(NoSuchNeighbor)
    ensures sl.IsLargestKey((n - 1) as Unsigned) == Ok(true)
    ensures sl.NextKey((n - 1) as Unsigned) == Err(NoSuchNeighbor)
  {
    var last := (n - 1) as Unsigned;
    assert sl.keys[0] == 0 && sl.keys[n - 1] == last;
    SmallestKeyIsFirst(sl, 0);
    LargestKeyIsLast(sl, last);
  }
}
