/**
 * The skip list's public contract, over its abstract state: the keys of the
 * base lane in increasing order, the value and the height of every key, and
 * the number of layers (the fast lane on top included).
 */
module SkipLists {
  import opened Ordering
  import opened Heights

  /** The two conditions under which the skip list raises its runtime error. */
  datatype Error = KeyNotFound | NoSuchNeighbor

  datatype Result<T> = Ok(value: T) | Err(error: Error)

  /** The invariant of a skip list's abstract state. */
  ghost predicate Consistent<K(!new), V>(
    less: (K, K) -> bool, keys: seq<K>, values: map<K, V>, heights: map<K, nat>, layers: nat)
  {
    && StrictTotalOrder(less)
    && Increasing(less, keys)
    && values.Keys == Elements(keys)
    && heights.Keys == Elements(keys)
    // no key is higher than the cap for the present population: it is not
    // higher than the cap it was given, and caps do not shrink
    && (forall x :: x in heights ==> 1 <= heights[x] <= MaxHeight(|keys|))
    // the layers are the highest key's plus the empty fast lane, and at least two
    && 2 <= layers
    && (forall x :: x in heights ==> heights[x] < layers)
    && (layers == 2 || exists x :: x in heights && heights[x] + 1 == layers)
  }

  /**
   * Splicing a new key of height `h` into the base lane at its place in the
   * order, and growing the layers to fit it, keeps the state consistent.
   */
  lemma SpliceConsistent<K(!new), V>(
    less: (K, K) -> bool, keys: seq<K>, values: map<K, V>, heights: map<K, nat>, layers: nat,
    p: nat, k: K, v: V, h: nat)
    requires Consistent(less, keys, values, heights, layers)
    requires p <= |keys|
    requires forall j :: 0 <= j < p ==> less(keys[j], k)
    requires p < |keys| ==> less(k, keys[p])
    requires 1 <= h <= MaxHeight(|keys| + 1)
    ensures k !in keys
    ensures Elements(keys[..p] + [k] + keys[p..]) == Elements(keys) + {k}
    ensures Consistent(less, keys[..p] + [k] + keys[p..], values[k := v], heights[k := h],
                       if layers < h + 1 then h + 1 else layers)
  {
    KeyAbsent(less, keys, p, k);
    SpliceIncreasing(less, keys, p, k);
    SpliceElements(keys, p, k);
    MaxHeightMonotone(|keys|, |keys| + 1);
    SpliceHeights(heights, layers, k, h, MaxHeight(|keys|), MaxHeight(|keys| + 1));
  }

  /** A key strictly between its neighbours is not among the keys yet. */
  lemma KeyAbsent<K(!new)>(less: (K, K) -> bool, keys: seq<K>, p: nat, k: K)
    requires StrictTotalOrder(less) && Increasing(less, keys)
    requires p <= |keys|
    requires forall j :: 0 <= j < p ==> less(keys[j], k)
    requires p < |keys| ==> less(k, keys[p])
    ensures k !in keys
  {
    forall j | 0 <= j < |keys| ensures keys[j] != k {
      if p < j {
        assert Transitive(less, k, keys[p], keys[j]);
      }
    }
  }

  /** Adding a key of height `h` keeps the bounds on heights and the layer count. */
  lemma SpliceHeights<K>(heights: map<K, nat>, layers: nat, k: K, h: nat, cap: nat, cap': nat)
    requires forall x :: x in heights ==> 1 <= heights[x] <= cap
    requires 2 <= layers
    requires forall x :: x in heights ==> heights[x] < layers
    requires layers == 2 || exists x :: x in heights && heights[x] + 1 == layers
    requires cap <= cap' && 1 <= h <= cap'
    requires k !in heights
    ensures var heights', layers' := heights[k := h], if layers < h + 1 then h + 1 else layers;
      && (forall x :: x in heights' ==> 1 <= heights'[x] <= cap')
      && 2 <= layers'
      && (forall x :: x in heights' ==> heights'[x] < layers')
      && (layers' == 2 || exists x :: x in heights' && heights'[x] + 1 == layers')
  {
    var heights', layers' := heights[k := h], if layers < h + 1 then h + 1 else layers;
    if layers' != 2 {
      if layers < h + 1 {
        assert heights'[k] + 1 == layers';
      } else {
        var x :| x in heights && heights[x] + 1 == layers;
        assert heights'[x] + 1 == layers';
      }
    }
  }

  lemma SpliceElements<K>(keys: seq<K>, p: nat, k: K)
    requires p <= |keys|
    ensures Elements(keys[..p] + [k] + keys[p..]) == Elements(keys) + {k}
  {
    var keys' := keys[..p] + [k] + keys[p..];
    assert forall x :: x in keys' <==> x in keys[..p] || x == k || x in keys[p..];
    assert keys == keys[..p] + keys[p..];
  }

  /**
   * A skip list from `K` to `V`.  `less` is the key type's `operator<` and
   * `coin` the key type's coin-flip function; both are fixed at construction,
   * as the C++ template fixes them by the instantiation.
   */
  class SkipList<K(==,!new), V> {
    const less: (K, K) -> bool
    const coin: (K, nat) -> bool

    /** The base lane S_0, left to right. */
    var keys: seq<K>
    var values: map<K, V>
    /** Number of layers each key occupies, the base lane counted as 1. */
    var heights: map<K, nat>
    var layers: nat

    ghost predicate Valid()
      reads this
    {
      Consistent(less, keys, values, heights, layers)
    }

    /** An empty list: the base lane and the fast lane, holding no keys. */
    constructor (less: (K, K) -> bool, coin: (K, nat) -> bool)
      requires StrictTotalOrder(less)
      ensures Valid()
      ensures this.less == less && this.coin == coin
      ensures keys == [] && values == map[] && heights == map[]
      ensures NumLayers() == 2 && Size() == 0 && IsEmpty()
    {
      this.less := less;
      this.coin := coin;
      keys := [];
      values := map[];
      heights := map[];
      layers := 2;
    }

    /** How many distinct keys the list holds. */
    function Size(): (n: nat)
      reads this
      requires Valid()
      ensures n == |values|
    {
      IncreasingCardinality(less, keys);
      |keys|
    }

    /** Whether the list holds no key. */
    function IsEmpty(): (b: bool)
      reads this
      requires Valid()
      ensures b <==> values == map[]
    {
      ElementsEmpty(keys);
      |keys| == 0
    }

    /**
     * How many layers the list has: one more than the greatest height of a
     * key (the fast lane holds no key), and never fewer than two.
     */
    function NumLayers(): (l: nat)
      reads this
      requires Valid()
      ensures 2 <= l <= MaxHeight(|keys|) + 1
      ensures forall x :: x in heights ==> heights[x] < l
      ensures l == 2 || exists x :: x in heights && heights[x] + 1 == l
    {
      layers
    }

    /** The height of `k`, the base lane counting as 1. */
    function Height(k: K): (r: Result<nat>)
      reads this
      requires Valid()
      ensures r.Ok? <==> k in keys
      ensures r.Err? ==> r.error == KeyNotFound
      ensures r.Ok? ==> r.value == heights[k] && 1 <= r.value < NumLayers()
    {
      if k in heights then Ok(heights[k]) else Err(KeyNotFound)
    }

    /** The value stored under `k`. */
    function Find(k: K): (r: Result<V>)
      reads this
      requires Valid()
      ensures r.Ok? <==> k in keys
      ensures r.Err? ==> r.error == KeyNotFound
      ensures r.Ok? ==> r.value == values[k]
    {
      if k in values then Ok(values[k]) else Err(KeyNotFound)
    }

    /** The least key greater than `k`. */
    function NextKey(k: K): (r: Result<K>)
      reads this
      requires Valid()
      ensures r == Err(KeyNotFound) <==> k !in keys
      ensures r == Err(NoSuchNeighbor) <==> k in keys && forall x :: x in keys ==> !less(k, x)
      ensures r.Ok? ==> r.value in keys && less(k, r.value)
      ensures r.Ok? ==> forall x :: x in keys && less(k, x) ==> x == r.value || less(r.value, x)
    {
      if k !in keys then Err(KeyNotFound)
      else
        var i := IndexOf(keys, k);
        IncreasingSuccessor(less, keys, i);
        if i + 1 < |keys| then Ok(keys[i + 1]) else Err(NoSuchNeighbor)
    }

    /** The greatest key less than `k`. */
    function PreviousKey(k: K): (r: Result<K>)
      reads this
      requires Valid()
      ensures r == Err(KeyNotFound) <==> k !in keys
      ensures r == Err(NoSuchNeighbor) <==> k in keys && forall x :: x in keys ==> !less(x, k)
      ensures r.Ok? ==> r.value in keys && less(r.value, k)
      ensures r.Ok? ==> forall x :: x in keys && less(x, k) ==> x == r.value || less(x, r.value)
    {
      if k !in keys then Err(KeyNotFound)
      else
        var i := IndexOf(keys, k);
        IncreasingPredecessor(less, keys, i);
        if i > 0 then Ok(keys[i - 1]) else Err(NoSuchNeighbor)
    }

    /** Whether `k` is less than every other key. */
    function IsSmallestKey(k: K): (r: Result<bool>)
      reads this
      requires Valid()
      ensures r.Ok? <==> k in keys
      ensures r.Err? ==> r.error == KeyNotFound
      ensures r.Ok? ==> (r.value <==> forall x :: x in keys && x != k ==> less(k, x))
    {
      if k !in keys then Err(KeyNotFound)
      else
        IncreasingFirst(less, keys, k);
        Ok(keys[0] == k)
    }

    /** Whether `k` is greater than every other key. */
    function IsLargestKey(k: K): (r: Result<bool>)
      reads this
      requires Valid()
      ensures r.Ok? <==> k in keys
      ensures r.Err? ==> r.error == KeyNotFound
      ensures r.Ok? ==> (r.value <==> forall x :: x in keys && x != k ==> less(x, k))
    {
      if k !in keys then Err(KeyNotFound)
      else
        IncreasingLast(less, keys, k);
        Ok(keys[|keys| - 1] == k)
    }

    /** All keys, in increasing order. */
    function AllKeysInOrder(): (r: seq<K>)
      reads this
      requires Valid()
      ensures Increasing(less, r)
      ensures Elements(r) == values.Keys
      ensures |r| == Size()
    {
      keys
    }

    /**
     * Walks the base lane from the left up to the first key not less than
     * `k`, and returns its position: where `k` is when present, and where it
     * belongs otherwise.
     */
    method SearchBase(k: K) returns (p: nat)
      requires Valid()
      ensures p <= |keys|
      ensures forall j :: 0 <= j < p ==> less(keys[j], k)
      ensures p < |keys| ==> keys[p] == k || less(k, keys[p])
      ensures k in keys <==> p < |keys| && keys[p] == k
    {
      p := 0;
      while p < |keys| && less(keys[p], k)
        invariant p <= |keys|
        invariant forall j :: 0 <= j < p ==> less(keys[j], k)
      {
        p := p + 1;
      }
      if p < |keys| && keys[p] != k {
        assert Trichotomous(less, keys[p], k);
        KeyAbsent(less, keys, p, k);
      } else if p == |keys| {
        KeyAbsent(less, keys, p, k);
      }
    }

    /**
     * The height of `k` if it were inserted now: flips the coin for `k`
     * until it shows tails or the key reaches the cap for the population
     * with `k` counted.
     */
    method NewHeight(k: K) returns (h: nat)
      requires Valid()
      ensures h == AssignedHeight(coin, k, |keys| + 1)
    {
      var cap := MaxHeight(|keys| + 1);
      var flips := 0;
      while flips < cap - 1 && coin(k, flips)
        invariant flips <= cap - 1
        invariant forall j :: 0 <= j < flips ==> coin(k, j)
      {
        flips := flips + 1;
      }
      ClimbUnique(coin, k, 0, cap - 1, flips);
      h := flips + 1;
    }

    /**
     * Inserts `k` with value `v` unless `k` is already present.  The new key
     * is spliced into the base lane at its place in the order and given the
     * height its coin flips and the cap for the grown population assign; the
     * list grows layers until one empty lane is left above the new key.
     */
    method Insert(k: K, v: V) returns (inserted: bool)
      requires Valid()
      modifies this
      ensures Valid()
      ensures inserted <==> k !in old(keys)
      ensures !inserted ==> keys == old(keys) && values == old(values)
      ensures !inserted ==> heights == old(heights) && layers == old(layers)
      ensures inserted ==> Elements(keys) == Elements(old(keys)) + {k}
      ensures inserted ==> values == old(values)[k := v]
      ensures inserted ==> heights == old(heights)[k := AssignedHeight(coin, k, |old(keys)| + 1)]
      ensures inserted ==> layers == if heights[k] < old(layers) then old(layers) else heights[k] + 1
      ensures inserted ==> Find(k) == Ok(v)
      ensures Size() == old(Size()) + (if inserted then 1 else 0)
    {
      var p := SearchBase(k);
      if p < |keys| && keys[p] == k {
        return false;
      }
      var h := NewHeight(k);
      ghost var h0 := AssignedHeight(coin, k, |old(keys)| + 1);
      assert h == h0;
      Splice(p, k, v, h);
      inserted := true;
    }

    /** Links `k` into the base lane at position `p` with height `h`, growing the layers to fit. */
    method Splice(p: nat, k: K, v: V, h: nat)
      requires Valid()
      requires p <= |keys|
      requires forall j :: 0 <= j < p ==> less(keys[j], k)
      requires p < |keys| ==> less(k, keys[p])
      requires 1 <= h <= MaxHeight(|keys| + 1)
      modifies this
      ensures Valid()
      ensures k !in old(keys)
      ensures keys == old(keys)[..p] + [k] + old(keys)[p..]
      ensures Elements(keys) == Elements(old(keys)) + {k}
      ensures values == old(values)[k := v]
      ensures heights == old(heights)[k := h]
      ensures layers == if h < old(layers) then old(layers) else h + 1
    {
      SpliceConsistent(less, keys, values, heights, layers, p, k, v, h);
      keys := keys[..p] + [k] + keys[p..];
      values := values[k := v];
      heights := heights[k := h];
      if layers < h + 1 {
        layers := h + 1;
      }
    }
  }

  /** Adjacent keys of the base lane are each other's next and previous key. */
  lemma AdjacentKeys<K(!new), V>(sl: SkipList<K, V>, i: nat)
    requires sl.Valid()
    requires i + 1 < |sl.keys|
    ensures sl.NextKey(sl.keys[i]) == Ok(sl.keys[i + 1])
    ensures sl.PreviousKey(sl.keys[i + 1]) == Ok(sl.keys[i])
  {
    IncreasingIndexOf(sl.less, sl.keys, i);
    IncreasingIndexOf(sl.less, sl.keys, i + 1);
  }

  /** `b` follows `a` exactly when `a` precedes `b`. */
  lemma NextPreviousInverse<K(!new), V>(sl: SkipList<K, V>, a: K, b: K)
    requires sl.Valid()
    ensures sl.NextKey(a) == Ok(b) <==> sl.PreviousKey(b) == Ok(a)
  {
    if sl.NextKey(a) == Ok(b) {
      var i := IndexOf(sl.keys, a);
      AdjacentKeys(sl, i);
    }
    if sl.PreviousKey(b) == Ok(a) {
      var i := IndexOf(sl.keys, b);
      AdjacentKeys(sl, i - 1);
    }
  }

  /** The smallest key is the one without a previous key, and the first of the order. */
  lemma SmallestKeyIsFirst<K(!new), V>(sl: SkipList<K, V>, k: K)
    requires sl.Valid()
    requires k in sl.keys
    ensures sl.IsSmallestKey(k) == Ok(true) <==> sl.PreviousKey(k) == Err(NoSuchNeighbor)
    ensures sl.IsSmallestKey(k) == Ok(true) <==> sl.AllKeysInOrder()[0] == k
  {
    IncreasingIndexOf(sl.less, sl.keys, 0);
  }

  /** The largest key is the one without a next key, and the last of the order. */
  lemma LargestKeyIsLast<K(!new), V>(sl: SkipList<K, V>, k: K)
    requires sl.Valid()
    requires k in sl.keys
    ensures sl.IsLargestKey(k) == Ok(true) <==> sl.NextKey(k) == Err(NoSuchNeighbor)
    ensures sl.IsLargestKey(k) == Ok(true) <==> sl.AllKeysInOrder()[|sl.keys| - 1] == k
  {
    IncreasingIndexOf(sl.less, sl.keys, |sl.keys| - 1);
  }
}
