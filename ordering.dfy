/**
 * The order a skip list keeps its keys in: a strict total order supplied
 * with the key type, and the strictly increasing sequence of keys that the
 * base lane holds.
 */
module Ordering {

  /**
   * Irreflexive, transitive and total on distinct elements.  Transitivity
   * and totality are stated through the two predicates below, so that a
   * proof uses them where it names them and the solver does not combine
   * every pair of comparisons in sight.
   */
  ghost predicate StrictTotalOrder<K(!new)>(less: (K, K) -> bool)
  {
    && (forall a :: !less(a, a))
    && (forall a, b, c :: Transitive(less, a, b, c))
    && (forall a, b :: Trichotomous(less, a, b))
  }

  ghost predicate Transitive<K>(less: (K, K) -> bool, a: K, b: K, c: K)
  {
    less(a, b) && less(b, c) ==> less(a, c)
  }

  ghost predicate Trichotomous<K>(less: (K, K) -> bool, a: K, b: K)
  {
    a == b || less(a, b) || less(b, a)
  }

  /** Every earlier element is less than every later one. */
  ghost predicate Increasing<K>(less: (K, K) -> bool, s: seq<K>)
  {
    forall i, j {:trigger less(s[i], s[j])} :: 0 <= i < j < |s| ==> less(s[i], s[j])
  }

  function Elements<K>(s: seq<K>): set<K>
  {
    set x | x in s
  }

  lemma ElementsEmpty<K>(s: seq<K>)
    ensures Elements(s) == {} <==> s == []
  {
    if |s| > 0 {
      assert s[0] in Elements(s);
    }
  }

  /** The position of `k` in `s`: its first occurrence. */
  function IndexOf<K(==)>(s: seq<K>, k: K): (i: nat)
    requires k in s
    ensures i < |s| && s[i] == k
    ensures forall j :: 0 <= j < i ==> s[j] != k
  {
    if s[0] == k then 0 else 1 + IndexOf(s[1..], k)
  }

  /** In an increasing sequence an element's position is its only one. */
  lemma IncreasingIndexOf<K(!new)>(less: (K, K) -> bool, s: seq<K>, i: nat)
    requires StrictTotalOrder(less) && Increasing(less, s)
    requires i < |s|
    ensures IndexOf(s, s[i]) == i
  {
    forall j | 0 <= j < i ensures s[j] != s[i] {
      assert less(s[j], s[i]);
    }
  }

  /** An increasing sequence has no repeated element, so its length is its number of elements. */
  lemma {:induction false} IncreasingCardinality<K(!new)>(less: (K, K) -> bool, s: seq<K>)
    requires StrictTotalOrder(less) && Increasing(less, s)
    ensures |Elements(s)| == |s|
  {
    if |s| > 0 {
      var t := s[1..];
      IncreasingCardinality(less, t);
      forall j | 0 <= j < |t| ensures t[j] != s[0] {
        assert less(s[0], s[j + 1]);
      }
      assert Elements(s) == Elements(t) + {s[0]} by {
        assert s == [s[0]] + t;
      }
    }
  }

  /**
   * Two increasing sequences with the same elements are equal: the base lane
   * is determined by the set of keys it holds.
   */
  lemma {:induction false} IncreasingUnique<K(!new)>(less: (K, K) -> bool, s: seq<K>, t: seq<K>)
    requires StrictTotalOrder(less)
    requires Increasing(less, s) && Increasing(less, t)
    requires Elements(s) == Elements(t)
    ensures s == t
    decreases |s|
  {
    if |s| == 0 {
      ElementsEmpty(t);
    } else {
      assert s[0] in Elements(t);
      assert |t| > 0;
      assert t[0] in Elements(s);
      var i :| 0 <= i < |s| && s[i] == t[0];
      var j :| 0 <= j < |t| && t[j] == s[0];
      assert Transitive(less, s[0], t[0], s[0]);
      assert s[0] == t[0];
      assert Elements(s[1..]) == Elements(t[1..]) by {
        forall x | x in s[1..] ensures x in t[1..] {
          var a :| 1 <= a < |s| && s[a] == x;
          assert less(s[0], x);
          assert x in Elements(s);
          var b :| 0 <= b < |t| && t[b] == x;
          assert b != 0;
        }
        forall x | x in t[1..] ensures x in s[1..] {
          var b :| 1 <= b < |t| && t[b] == x;
          assert less(t[0], x);
          assert x in Elements(t);
          var a :| 0 <= a < |s| && s[a] == x;
          assert a != 0;
        }
      }
      IncreasingUnique(less, s[1..], t[1..]);
      assert s == [s[0]] + s[1..] && t == [t[0]] + t[1..];
    }
  }

  /**
   * Splicing `k` in between the elements less than it and those greater
   * keeps the sequence increasing.
   */
  lemma SpliceIncreasing<K(!new)>(less: (K, K) -> bool, s: seq<K>, p: nat, k: K)
    requires StrictTotalOrder(less) && Increasing(less, s)
    requires p <= |s|
    requires forall j :: 0 <= j < p ==> less(s[j], k)
    requires p < |s| ==> less(k, s[p])
    ensures Increasing(less, s[..p] + [k] + s[p..])
  {
    var r := s[..p] + [k] + s[p..];
    forall i, j | 0 <= i < j < |r| ensures less(r[i], r[j]) {
      if j < p {
        assert r[i] == s[i] && r[j] == s[j];
      } else if j == p {
        assert r[i] == s[i];
      } else if i == p {
        assert r[j] == s[j - 1];
        if j - 1 > p {
          assert Transitive(less, k, s[p], s[j - 1]);
        }
      } else if i < p {
        assert r[i] == s[i] && r[j] == s[j - 1];
      } else {
        assert r[i] == s[i - 1] && r[j] == s[j - 1];
      }
    }
  }

  /** The first element of an increasing sequence is the one less than all others. */
  lemma IncreasingFirst<K(!new)>(less: (K, K) -> bool, s: seq<K>, k: K)
    requires StrictTotalOrder(less) && Increasing(less, s)
    requires k in s
    ensures s[0] == k <==> forall x :: x in s && x != k ==> less(k, x)
  {
    if s[0] == k {
      forall x | x in s && x != k ensures less(k, x) {
        var j :| 0 <= j < |s| && s[j] == x;
        assert j != 0;
      }
    } else {
      var i := IndexOf(s, k);
      assert less(s[0], s[i]);
      assert Transitive(less, k, s[0], k);
    }
  }

  /** The last element of an increasing sequence is the one greater than all others. */
  lemma IncreasingLast<K(!new)>(less: (K, K) -> bool, s: seq<K>, k: K)
    requires StrictTotalOrder(less) && Increasing(less, s)
    requires k in s
    ensures s[|s| - 1] == k <==> forall x :: x in s && x != k ==> less(x, k)
  {
    var n := |s| - 1;
    if s[n] == k {
      forall x | x in s && x != k ensures less(x, k) {
        var j :| 0 <= j < |s| && s[j] == x;
        assert j != n;
      }
    } else {
      var i := IndexOf(s, k);
      assert less(s[i], s[n]);
      assert Transitive(less, s[n], k, s[n]);
    }
  }

  /**
   * In an increasing sequence the element after position `i` is the least
   * element greater than `s[i]`, and there is none after the last position.
   */
  lemma IncreasingSuccessor<K(!new)>(less: (K, K) -> bool, s: seq<K>, i: nat)
    requires StrictTotalOrder(less) && Increasing(less, s)
    requires i < |s|
    ensures (forall x :: x in s ==> !less(s[i], x)) <==> i + 1 == |s|
    ensures i + 1 < |s| ==> forall x :: x in s && less(s[i], x) ==> x == s[i + 1] || less(s[i + 1], x)
  {
    forall x | x in s && less(s[i], x)
      ensures exists j :: i < j < |s| && s[j] == x
    {
      var j :| 0 <= j < |s| && s[j] == x;
      assert Transitive(less, s[i], s[j], s[i]);
    }
    if i + 1 < |s| {
      assert s[i + 1] in s && less(s[i], s[i + 1]);
    }
  }

  /**
   * In an increasing sequence the element before position `i` is the
   * greatest element less than `s[i]`, and there is none before the first.
   */
  lemma IncreasingPredecessor<K(!new)>(less: (K, K) -> bool, s: seq<K>, i: nat)
    requires StrictTotalOrder(less) && Increasing(less, s)
    requires i < |s|
    ensures (forall x :: x in s ==> !less(x, s[i])) <==> i == 0
    ensures i > 0 ==> forall x :: x in s && less(x, s[i]) ==> x == s[i - 1] || less(x, s[i - 1])
  {
    forall x | x in s && less(x, s[i])
      ensures exists j :: 0 <= j < i && s[j] == x
    {
      var j :| 0 <= j < |s| && s[j] == x;
      assert Transitive(less, s[i], s[j], s[i]);
    }
    if i > 0 {
      assert s[i - 1] in s && less(s[i - 1], s[i]);
    }
  }
}
