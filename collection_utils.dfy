/**
 * Generic list utilities: in-place swap and append on a mutable list,
 * concatenation, and sums of integral numbers in Java's 64-bit long.
 */
module CollectionUtils {

  // ---------------------------------------------------------------------
  // java.util.List, as far as the utilities use it
  // ---------------------------------------------------------------------

  /** A mutable, zero-based, growable list updated in place. */
  class List<T> {
    var elements: seq<T>

    constructor (initial: seq<T>)
      ensures elements == initial
    {
      elements := initial;
    }

    /** List.get */
    method Get(index: int) returns (e: T)
      requires 0 <= index < |elements|
      ensures e == elements[index]
    {
      e := elements[index];
    }

    /** List.set: replaces one element and returns the one it replaced. */
    method Set(index: int, e: T) returns (previous: T)
      requires 0 <= index < |elements|
      modifies this
      ensures elements == old(elements)[index := e]
      ensures previous == old(elements)[index]
    {
      previous := elements[index];
      elements := elements[index := e];
    }

    /** List.add: appends one element at the end. */
    method Add(e: T)
      modifies this
      ensures elements == old(elements) + [e]
    {
      elements := elements + [e];
    }
  }

  // ---------------------------------------------------------------------
  // swap
  // ---------------------------------------------------------------------

  /** s with the elements at i and j exchanged. */
  function Swapped<T>(s: seq<T>, i: int, j: int): (r: seq<T>)
    requires 0 <= i < |s| && 0 <= j < |s|
    ensures |r| == |s|
    ensures r[i] == s[j] && r[j] == s[i]
    ensures forall k :: 0 <= k < |s| && k != i && k != j ==> r[k] == s[k]
    ensures multiset(r) == multiset(s)
  {
    s[i := s[j]][j := s[i]]
  }

  /** swapHelper: list.set(src, list.set(des, list.get(src))). */
  method SwapHelper<E>(list: List<E>, src: int, des: int)
    requires 0 <= src < |list.elements| && 0 <= des < |list.elements|
    modifies list
    ensures list.elements == Swapped(old(list.elements), src, des)
  {
    var moved := list.Get(src);
    var displaced := list.Set(des, moved);
    var overwritten := list.Set(src, displaced);
    assert overwritten == (if src == des then displaced else old(list.elements)[src]);
  }

  /** swap: exchanges the elements at src and des in place. */
  method Swap<T>(list: List<T>, src: int, des: int)
    requires 0 <= src < |list.elements| && 0 <= des < |list.elements|
    modifies list
    ensures list.elements == Swapped(old(list.elements), src, des)
    ensures list.elements[src] == old(list.elements)[des]
    ensures list.elements[des] == old(list.elements)[src]
  {
    SwapHelper(list, src, des);
  }

  /** Swapping the same pair twice restores the list. */
  lemma SwappedTwiceIsIdentity<T>(s: seq<T>, i: int, j: int)
    requires 0 <= i < |s| && 0 <= j < |s|
    ensures Swapped(Swapped(s, i, j), i, j) == s
  {
    var r := Swapped(Swapped(s, i, j), i, j);
    assert forall k :: 0 <= k < |s| ==> r[k] == s[k];
  }

  /** Swapping an index with itself changes nothing. */
  lemma SwappedSameIndexIsIdentity<T>(s: seq<T>, i: int)
    requires 0 <= i < |s|
    ensures Swapped(s, i, i) == s
  {
  }

  /** Swapping (0, 4) and then (1, 3) reverses a five-element list. */
  lemma TwoSwapsReverseFive<T>(s: seq<T>)
    requires |s| == 5
    ensures Swapped(Swapped(s, 0, 4), 1, 3) == [s[4], s[3], s[2], s[1], s[0]]
  {
  }

  /** The scenario of the integration test: two swaps on ["1", "2", "3", "4", "5"]. */
  method MultipleSwaps() returns (result: seq<string>)
    ensures result == ["5", "4", "3", "2", "1"]
  {
    var list := new List(["1", "2", "3", "4", "5"]);
    Swap(list, 0, 4);
    Swap(list, 1, 3);
    TwoSwapsReverseFive(["1", "2", "3", "4", "5"]);
    result := list.elements;
  }

  // ---------------------------------------------------------------------
  // mergeTypeParameter, mergeWildcard
  // ---------------------------------------------------------------------

  /** mergeTypeParameter: a new list holding listOne's elements, then listTwo's, in order. */
  function MergeTypeParameter<E>(listOne: seq<E>, listTwo: seq<E>): (merged: seq<E>)
    ensures |merged| == |listOne| + |listTwo|
    ensures forall k :: 0 <= k < |listOne| ==> merged[k] == listOne[k]
    ensures forall k :: 0 <= k < |listTwo| ==> merged[|listOne| + k] == listTwo[k]
    ensures multiset(merged) == multiset(listOne) + multiset(listTwo)
  {
    listOne + listTwo
  }

  /** mergeWildcard: the same concatenation under a wildcard signature. */
  function MergeWildcard<E>(listOne: seq<E>, listTwo: seq<E>): (merged: seq<E>)
    ensures merged == MergeTypeParameter(listOne, listTwo)
  {
    listOne + listTwo
  }

  /** An element is in the merge iff it is in one of the inputs. */
  lemma MergeContains<E>(listOne: seq<E>, listTwo: seq<E>, x: E)
    ensures x in MergeTypeParameter(listOne, listTwo) <==> x in listOne || x in listTwo
  {
    assert x in listOne + listTwo <==> x in multiset(listOne + listTwo);
  }

  // ---------------------------------------------------------------------
  // sum, sumTypeParameter, sumWildcard
  // ---------------------------------------------------------------------

  const LONG_MIN: int := -0x8000_0000_0000_0000
  const LONG_MAX: int := 0x7FFF_FFFF_FFFF_FFFF
  const LONG_RANGE: int := 0x1_0000_0000_0000_0000

  /** Java's long. */
  type Long = x: int | LONG_MIN <= x <= LONG_MAX

  /** Java's int. */
  type Int = x: int | -0x8000_0000 <= x <= 0x7FFF_FFFF

  /** Two's-complement wrap-around of a mathematical integer into a long. */
  function WrapLong(x: int): (r: Long)
    ensures (x - r) % LONG_RANGE == 0
  {
    (x - LONG_MIN) % LONG_RANGE + LONG_MIN
  }

  /** A long is its own wrap. */
  lemma WrapLongOfLong(x: int)
    requires LONG_MIN <= x <= LONG_MAX
    ensures WrapLong(x) == x
  {
  }

  /** Wrapping forgets whole multiples of 2^64. */
  lemma WrapLongShift(x: int, q: int)
    ensures WrapLong(x + q * LONG_RANGE) == WrapLong(x)
  {
    var a := x - LONG_MIN;
    assert a + q * LONG_RANGE == (a / LONG_RANGE + q) * LONG_RANGE + a % LONG_RANGE;
  }

  /** Wrapping an intermediate result does not change the wrapped total. */
  lemma WrapLongAdd(x: int, y: int)
    ensures WrapLong(WrapLong(x) + y) == WrapLong(x + y)
  {
    var q := (x - LONG_MIN) / LONG_RANGE;
    assert WrapLong(x) == x - q * LONG_RANGE;
    WrapLongShift(x + y, -q);
  }

  /** The mathematical sum of the elements' integral values. */
  function Total(numbers: seq<int>): (r: int)
  {
    if numbers == [] then 0 else numbers[0] + Total(numbers[1..])
  }

  /**
   * LongStream.sum: adds the elements from left to right in long arithmetic,
   * which comes to wrapping the mathematical total once.
   */
  function SumFrom(acc: Long, numbers: seq<Long>): (r: Long)
    ensures r == WrapLong(acc + Total(numbers))
    decreases |numbers|
  {
    if numbers == [] then
      WrapLongOfLong(acc);
      acc
    else
      WrapLongAdd(acc + numbers[0], Total(numbers[1..]));
      SumFrom(WrapLong(acc + numbers[0]), numbers[1..])
  }

  /** sum: the total of the elements' long values, wrapped to a long as LongStream.sum does. */
  function Sum(numbers: seq<Long>): (r: Long)
    ensures r == WrapLong(Total(numbers))
    ensures numbers == [] ==> r == 0
  {
    SumFrom(0, numbers)
  }

  /** sumTypeParameter: the same stream sum as sum. */
  function SumTypeParameter(numbers: seq<Long>): (r: Long)
    ensures r == Sum(numbers)
  {
    SumFrom(0, numbers)
  }

  /** sumWildcard: the same stream sum as sum. */
  function SumWildcard(numbers: seq<Long>): (r: Long)
    ensures r == Sum(numbers)
  {
    SumFrom(0, numbers)
  }

  /** When the mathematical sum fits in a long, sum returns it exactly. */
  lemma SumIsExactWithoutOverflow(numbers: seq<Long>)
    requires LONG_MIN <= Total(numbers) <= LONG_MAX
    ensures Sum(numbers) == Total(numbers)
  {
    WrapLongOfLong(Total(numbers));
  }

  /** Non-negative elements add up to a non-negative total. */
  lemma {:induction false} TotalOfNonNegatives(numbers: seq<int>)
    requires forall k :: 0 <= k < |numbers| ==> numbers[k] >= 0
    ensures Total(numbers) >= 0
  {
    if numbers != [] {
      TotalOfNonNegatives(numbers[1..]);
    }
  }

  /** The documented result >= 0, under the conditions where it holds: no negative element, no overflow. */
  lemma SumNonNegative(numbers: seq<Long>)
    requires forall k :: 0 <= k < |numbers| ==> numbers[k] >= 0
    requires Total(numbers) <= LONG_MAX
    ensures Sum(numbers) >= 0
  {
    TotalOfNonNegatives(numbers);
    SumIsExactWithoutOverflow(numbers);
  }

  /** The documented result >= 0 fails for a negative element and for a non-negative overflow. */
  lemma SumDocumentedResultCounterexamples()
    ensures Sum([-1]) == -1
    ensures Sum([LONG_MAX, 1]) == LONG_MIN
  {
    assert Total([-1]) == -1 by { assert [-1][1..] == []; }
    assert Total([LONG_MAX, 1]) == LONG_MAX + 1 by {
      assert [LONG_MAX, 1][1..] == [1];
      assert [1][1..] == [];
    }
  }

  /** The unit test's list 1, 2, 3, 4 sums to 10. */
  lemma SumExample()
    ensures Sum([1, 2, 3, 4]) == 10
  {
    assert Total([1, 2, 3, 4]) == 10 by {
      assert [1, 2, 3, 4][1..] == [2, 3, 4];
      assert [2, 3, 4][1..] == [3, 4];
      assert [3, 4][1..] == [4];
      assert [4][1..] == [];
    }
    SumIsExactWithoutOverflow([1, 2, 3, 4]);
  }

  // ---------------------------------------------------------------------
  // addNumber
  // ---------------------------------------------------------------------

  /** addNumber: appends number to the list in place. */
  method AddNumber(list: List<int>, number: Int)
    modifies list
    ensures list.elements == old(list.elements) + [number]
    ensures |list.elements| == |old(list.elements)| + 1
    ensures list.elements[|list.elements| - 1] == number
    ensures number in list.elements
  {
    list.Add(number);
  }

  /** The scenario of the unit test: adding 42 to an empty list. */
  method AddNumberToEmpty() returns (result: seq<int>)
    ensures result == [42]
  {
    var list := new List([]);
    AddNumber(list, 42);
    result := list.elements;
  }
}
