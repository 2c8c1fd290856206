# Skip list with deterministic coin flips — a Dafny model

The system is a templated ordered map, `SkipList<Key, Value>`. It keeps its
keys in a base lane S_0 in increasing order and stacks faster lanes above
it. A newly inserted key climbs one lane per "heads" of a deterministic coin
flip. The flip is a pure function of the key's bits and of the index of the
flip: one overload for 32-bit `unsigned` keys, one for `std::string` keys.
The climb stops at a cap that grows with the number of keys. The list always
keeps one empty fast lane on top, so an empty list has two layers.

The header implements the two coin-flip functions. It only declares the
container's operations, with doc comments that say what each promises. The
unit tests pin the promises down with concrete runs: heights of ascending
keys, the cap for key 255, the layer counts, neighbours, lookups and the
error cases. The model has five modules:

- `CoinFlip`: both `flipCoin` overloads. The unsigned one is a function over
  `bv32` that follows the header's masks and divisions. The string one is a
  method with the header's loop, over bytes.
- `Ordering`: the strict total order on keys and strictly increasing
  sequences, with their first, last, successor and predecessor.
- `Heights`: the cap (`MaxHeight`) and the height a key is given
  (`AssignedHeight`).
- `SkipLists`: the container as a class. Its abstract state is the base
  lane (`keys`), a value and a height per key, and the layer count, with the
  invariant `Valid`. Its queries are functions and `Insert` is a method.
- `Scenarios`: the unit tests over 32-bit unsigned keys, as methods and
  lemmas. Most are stated for any number of keys inserted in increasing
  order, not only the test's ten.

Notes on decisions:

- **The height cap.** A key's height is 1 plus its number of leading heads
  among flips 0, 1, 2, …. It is capped at `MaxHeight(n)`. `MaxHeight(n)` is
  12 while n ≤ 16 and 3·⌈log2 n⌉ beyond that, where n counts the keys
  *including the one being inserted*. The Capacity17 test needs this count:
  16 keys plus key 255 must give height 15, which is 3·⌈log2 17⌉
  (gtest/SkipTests.cpp:176-178). Counting only the keys present before the
  insertion would give 12, so the model does not read the cap that way.
- **allKeysInOrder.** The header's `allKeysInOrder` is a placeholder that
  returns an empty vector. The model follows its doc comment and the test
  `SimpleAllKeysInOrder`: it returns the inserted keys in increasing order.
- **Empty strings.** `flipCoin` on a string starts from `s[0]`. For an
  empty `std::string`, `s[0]` is the terminating NUL. So the fold is 0 and
  every flip is tails. The model states this case rather than excluding it.
- **Key parameters.** The key order (`operator<`) and the coin-flip
  function for the key type are constructor parameters of the generic
  class, as the template instantiation fixes them. The scenarios use
  `Unsigned`, an integer newtype of the 32-bit range, with `<`. Its coin is
  the `bv32` coin applied to the same bits.
- **Errors.** The `RuntimeException` that queries throw is a `Result` value
  `Err(KeyNotFound)` or `Err(NoSuchNeighbor)`.

## Model

| member | source | states |
|---|---|---|
| CoinFlip.FlipCoin | app/SkipList.hpp:17-27 | the flip is heads exactly when an odd number of the key's four bytes have bit `i mod 8` set |
| CoinFlip.FlipCoinPeriodic | app/SkipList.hpp:25 | only `i mod 8` matters: the flips of a key repeat with period 8 |
| CoinFlip.FlipCoinSmallKey | app/SkipList.hpp:20-26 | for a key below 256 the flip is bit `i mod 8` of the key itself |
| CoinFlip.FlipCoinAlwaysHeads | gtest/SkipTests.cpp:138-139 | key 255 gives heads on every flip |
| CoinFlip.FlipCoinString | app/SkipList.hpp:30-39 | the character loop returns bit `i mod 8` of the XOR of all characters, tails for the empty string |
| CoinFlip.XorAllConcat | app/SkipList.hpp:32-36 | the fold over a concatenation is the XOR of the two parts' folds |
| CoinFlip.XorAllPermutation | app/SkipList.hpp:32-36 | two strings with the same characters in any order fold to the same byte |
| CoinFlip.StringCoinOrderIndependent | app/SkipList.hpp:30-39 | so their flips agree for every `i` |
| CoinFlip.StringCoinPeriodic | app/SkipList.hpp:37-38 | string flips repeat with period 8 |
| Heights.CeilLog2 | gtest/SkipTests.cpp:176-177 | the result `r` is the least exponent with `n <= 2^r` |
| Heights.CeilLog2Unique | gtest/SkipTests.cpp:176-177 | any exponent with those two bounds is ⌈log2 n⌉ |
| Heights.CeilLog2Monotone | gtest/SkipTests.cpp:176-177 | ⌈log2⌉ does not decrease as `n` grows |
| Heights.MaxHeight | gtest/SkipTests.cpp:148-149 | the cap is never below 12 |
| Heights.MaxHeightBounds | gtest/SkipTests.cpp:176-177 | the cap is a multiple of 3 whose third `e` is the least with `population <= 2^e` once the cap exceeds 12 |
| Heights.MaxHeight17 | gtest/SkipTests.cpp:176-177 | with 17 keys the cap is 3·⌈log2 17⌉ = 15 |
| Heights.MaxHeightMonotone | gtest/SkipTests.cpp:176-177 | a larger population never has a lower cap |
| Heights.Climb | gtest/SkipTests.cpp:140-142 | the climb stops at the first tails or at the limit, with heads on every flip below it |
| Heights.ClimbUnique | gtest/SkipTests.cpp:140-142 | the stopping index is determined by those properties |
| Heights.AssignedHeight | gtest/SkipTests.cpp:140-142 | the height is between 1 and the cap, all flips below it are heads, and the next flip is tails unless the cap was reached |
| Heights.AssignedHeightFollowsFlips | app/SkipList.hpp:13-16 | below the cap the height is 1 plus the number of leading heads |
| Heights.AssignedHeightAlwaysHeads | gtest/SkipTests.cpp:140-150 | a key that always shows heads climbs exactly to the cap, so insertion ends |
| Ordering.IndexOf | app/SkipList.hpp:88-102 | the returned position holds `k`, and no earlier position does |
| Ordering.IncreasingIndexOf | app/SkipList.hpp:88-102 | in an increasing sequence a key's position is unique |
| Ordering.IncreasingCardinality | app/SkipList.hpp:61-62 | an increasing sequence repeats no key: its length is its number of distinct keys |
| Ordering.IncreasingUnique | app/SkipList.hpp:117-118 | two increasing sequences with the same keys are equal |
| Ordering.SpliceIncreasing | app/SkipList.hpp:110-114 | splicing a key between the smaller and the greater keys keeps the sequence increasing |
| Ordering.IncreasingFirst | app/SkipList.hpp:127-129 | the first element is exactly the one below every other |
| Ordering.IncreasingLast | app/SkipList.hpp:131-133 | the last element is exactly the one above every other |
| Ordering.IncreasingSuccessor | app/SkipList.hpp:88-94 | the next element is the least greater one, and only the last element has none |
| Ordering.IncreasingPredecessor | app/SkipList.hpp:96-102 | the previous element is the greatest smaller one, and only the first element has none |
| SkipLists.SpliceConsistent | app/SkipList.hpp:110-114 | splicing a new key at its place, with a height within the grown cap and the layers grown to fit, keeps the invariant |
| SkipLists.KeyAbsent | app/SkipList.hpp:113 | a key strictly between its neighbours in the base lane is not present |
| SkipLists.SpliceHeights | app/SkipList.hpp:67-75 | adding a key keeps every height within the cap and the layers one above the highest key, at least two |
| SkipLists.SkipList.constructor | app/SkipList.hpp:67-75 | a new list is empty, has two layers and satisfies the invariant |
| SkipLists.SkipList.Size | app/SkipList.hpp:61-62 | the size is the number of distinct keys |
| SkipLists.SkipList.IsEmpty | app/SkipList.hpp:64-65 | empty exactly when no key is stored |
| SkipLists.SkipList.NumLayers | app/SkipList.hpp:67-75 | at least two layers, every key lower than the layer count, and the count is 2 or one above some key's height |
| SkipLists.SkipList.Height | app/SkipList.hpp:77-85 | a present key's height, between 1 and the layer count, and `KeyNotFound` exactly for an absent key |
| SkipLists.SkipList.Find | app/SkipList.hpp:105-108 | a present key's value, and `KeyNotFound` exactly for an absent key |
| SkipLists.SkipList.NextKey | app/SkipList.hpp:88-94 | the least key greater than `k`; `KeyNotFound` exactly when `k` is absent, `NoSuchNeighbor` exactly when `k` is the largest |
| SkipLists.SkipList.PreviousKey | app/SkipList.hpp:96-102 | the greatest key less than `k`; `KeyNotFound` exactly when `k` is absent, `NoSuchNeighbor` exactly when `k` is the smallest |
| SkipLists.SkipList.IsSmallestKey | app/SkipList.hpp:127-129 | true exactly when `k` is less than every other key; `KeyNotFound` for an absent key |
| SkipLists.SkipList.IsLargestKey | app/SkipList.hpp:131-133 | true exactly when `k` is greater than every other key; `KeyNotFound` for an absent key |
| SkipLists.SkipList.AllKeysInOrder | app/SkipList.hpp:117-118 | an increasing sequence of exactly the stored keys, as long as the size |
| SkipLists.SkipList.SearchBase | app/SkipList.hpp:110-114 | the walk along the base lane stops at the first key not less than `k`: `k`'s position when present, its place otherwise |
| SkipLists.SkipList.NewHeight | app/SkipList.hpp:110-112 | the flipping loop ends and yields the assigned height for the grown population |
| SkipLists.SkipList.Insert | app/SkipList.hpp:110-114 | returns true exactly when `k` was absent. A refused insert changes nothing. An accepted one adds `k` with `v` and the assigned height, grows the layers to fit, grows the size by one and keeps the invariant |
| SkipLists.SkipList.Splice | app/SkipList.hpp:110-114 | the new base lane is the old one with `k` at position `p`; values, heights and layers are updated accordingly |
| SkipLists.AdjacentKeys | app/SkipList.hpp:88-102 | neighbouring keys of the base lane are each other's next and previous key |
| SkipLists.NextPreviousInverse | app/SkipList.hpp:88-102 | `nextKey(a) == b` exactly when `previousKey(b) == a` |
| SkipLists.SmallestKeyIsFirst | app/SkipList.hpp:127-129 | a key is the smallest exactly when it has no previous key, and exactly when it comes first in order |
| SkipLists.LargestKeyIsLast | app/SkipList.hpp:131-133 | a key is the largest exactly when it has no next key, and exactly when it comes last in order |
| Scenarios.UnsignedLessIsStrictTotalOrder | gtest/SkipTests.cpp:130 | `<` on unsigned keys is a strict total order |
| Scenarios.HeightFromLowBits | gtest/SkipTests.cpp:132-136 | a key below 256 whose low `heads` bits are set and the next bit clear gets height `heads + 1` |
| Scenarios.SmallKeyHeight | gtest/SkipTests.cpp:164-178 | keys 0 to 15 get heights 1, 2, 1, 3, 1, 2, 1, 4, 1, 2, 1, 3, 1, 2, 1, 5 in any list |
| Scenarios.MagicKeyAlwaysHeads | gtest/SkipTests.cpp:138-139 | every flip of key 255 is heads |
| Scenarios.MagicKeyHeight | gtest/SkipTests.cpp:140-142 | key 255 climbs to the cap |
| Scenarios.MagicKeyHeightSmall | gtest/SkipTests.cpp:148-149 | with at most 16 keys the cap for 255 is 12 |
| Scenarios.MagicKeyHeight17 | gtest/SkipTests.cpp:176-177 | with 17 keys key 255 gets 3·⌈log2 17⌉ = 15 |
| Scenarios.Ascending | gtest/SkipTests.cpp:217-221 | the sequence 0, 1, …, n − 1 |
| Scenarios.AscendingUnique | gtest/SkipTests.cpp:217-222 | any increasing sequence holding exactly the keys below `n` is that sequence |
| Scenarios.AscendingStep | gtest/SkipTests.cpp:217-219 | adding key `n` to the keys below `n` gives the keys below `n + 1` |
| Scenarios.LayersFor | gtest/SkipTests.cpp:153-155 | the layers for a list of keys with heights `hs`: at least two, above every height, and two or one above some height |
| Scenarios.AscendingHeights | gtest/SkipTests.cpp:132-136 | one height per key inserted in ascending order |
| Scenarios.AscendingHeightsAt | gtest/SkipTests.cpp:132-136 | entry `j` is the height key `j` gets in a list then holding `j + 1` keys |
| Scenarios.AscendingValues | gtest/SkipTests.cpp:202-205 | key `x` is present exactly when `x < n` and then maps to `base + x` |
| Scenarios.BuiltStep | gtest/SkipTests.cpp:132-136 | adding the next ascending key, its value and its assigned height to the state built from the keys below it gives the state built from one key more |
| Scenarios.InsertAlwaysHeads | gtest/SkipTests.cpp:140-150 | inserting an absent key that shows heads on every flip gives it the cap for the grown list as its height, and grows the layers to one above it when needed |
| Scenarios.InsertNext | gtest/SkipTests.cpp:132-136 | inserting the next ascending key and reading its height extends the built state by one key |
| Scenarios.InsertAscending | gtest/SkipTests.cpp:132-136 | a new list after inserting keys 0 to n − 1 holds them in order, with values `base + i`, the heights read back and the layers for them |
| Scenarios.AscendingHeightsSmall | gtest/SkipTests.cpp:164-178 | while n ≤ 16 the heights of the ascending keys are the prefix of 1, 2, 1, 3, … |
| Scenarios.AscendingHeightsAtMostFive | gtest/SkipTests.cpp:178 | no key below 16 is more than five high |
| Scenarios.AscendingLayersSmall | gtest/SkipTests.cpp:153-155 | so a list of the keys below `n`, n ≤ 16, has at most six layers |
| Scenarios.AscendingExcludes | gtest/SkipTests.cpp:143-144 | key 255 is not among keys 0 to n − 1 while n ≤ 255 |
| Scenarios.BuiltSmall | gtest/SkipTests.cpp:143-144 | such a list is valid, holds `n` keys, lacks 255 and has at most six layers |
| Scenarios.InsertFresh | gtest/SkipTests.cpp:172-174 | inserting an absent key adds it with its value; the height and the layer count read back are its assigned height and the old count, grown to one above it when needed |
| Scenarios.AscendingHeightsTen | gtest/SkipTests.cpp:150 | the heights of keys 0 to 9 are 1, 2, 1, 3, 1, 2, 1, 4, 1, 2 |
| Scenarios.AscendingHeightsSixteen | gtest/SkipTests.cpp:178 | the heights of keys 0 to 15 are 1, 2, 1, 3, 1, 2, 1, 4, 1, 2, 1, 3, 1, 2, 1, 5 |
| Scenarios.MagicScenario | gtest/SkipTests.cpp:128-184 | keys 0 to n − 1 and then 255 give the ascending heights, then the cap for n + 1 keys for 255, and one layer more than that |
| Scenarios.SimpleHeights | gtest/SkipTests.cpp:128-156 | heights 1, 2, 1, 3, 1, 2, 1, 4, 1, 2, 12 and 13 layers |
| Scenarios.Capacity17 | gtest/SkipTests.cpp:158-184 | heights 1, 2, 1, 3, 1, 2, 1, 4, 1, 2, 1, 3, 1, 2, 1, 5, 15 and 16 layers |
| Scenarios.CreatedBasics | gtest/SkipTests.cpp:18-24 | a new list has two layers and size 0, and is empty |
| Scenarios.InsertTwice | gtest/SkipTests.cpp:81-86 | the first insert of a key succeeds, the second returns false, and the first value is found |
| Scenarios.AscendingSize | gtest/SkipTests.cpp:213-223 | after inserting keys 0 to n − 1 the size is `n`, the list is empty only for n = 0, and the keys in order are 0 to n − 1 |
| Scenarios.AscendingFind | gtest/SkipTests.cpp:199-210 | key `k < n` maps to `base + k`, and a key from `n` on is not found |
| Scenarios.AscendingNeighbours | gtest/SkipTests.cpp:186-197 | keys `i` and `i + 1` are each other's next and previous key |
| Scenarios.AscendingEnds | gtest/SkipTests.cpp:225-234 | 0 is the smallest key with no previous key; n − 1 is the largest with no next key |

## Left out

- The pointer-linked nodes, the sentinels at ±infinity, the per-lane links
  and the destructor are not modelled. They are not in the header. The model
  keeps the abstract state they represent: the base lane, a height per key
  and the layer count.
- `RuntimeException` (runtimeexcept.hpp is not part of this model) is
  modelled as an error result, not as a thrown exception.
- The non-const `find` returns `Value &`, through which a caller may change
  the stored value. The model returns the value. There is no update through
  a reference.
- Copying and assignment are absent from the header and from the model.
- `std::string` keys: their order is not shown in the source. The class
  takes an abstract strict total order, and the string coin is modelled on
  byte sequences (`CoinFlip.StringCoin`). There is no string-keyed scenario.
- The `char`, `int` and `double` tests (gtest/SkipTests.cpp:51-59, 61-79,
  88-126, 236-245) are not modelled as concrete scenarios: they use other key
  types, and the `double` ones use floating point. The `int` tests for size,
  emptiness and the missing next key are covered for unsigned keys by
  `Scenarios.AscendingSize` and `Scenarios.AscendingEnds`, stated for every
  `n`. gtest/SkipTests.cpp:45-47 does not compile and line 58 compares a
  `char` with a string literal; both are left out.
- Unsigned keys: the `unsigned` keys of the scenarios are integers
  of the 32-bit range. Their coin converts them to `bv32` and uses the
  unsigned `flipCoin`. Bit-vector keys themselves would make ordering
  proofs out of reach of the solver.
- Scenarios.AscendingNeighbours, Scenarios.AscendingFind,
  Scenarios.AscendingEnds and Scenarios.AscendingSize are lemmas about any
  list built by inserting 0, 1, …, n − 1. They are not a loop of queries
  over a ten-key list as the tests run them.
