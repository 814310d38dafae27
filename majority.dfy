/** Choosing the leader's commit candidate: the match indices (the leader's
    own last index first, then one per peer) are sorted and the element at
    position `floor(peers / 2)` is taken.

    JavaScript's `Array.prototype.sort()` without a comparator orders numbers
    by their decimal strings. `MajorityIndex` uses the numeric order that the
    commit rule needs; `MajorityIndexAsWritten` follows the string order, and
    `StringSortOverCommits` shows an input on which the two differ. */
module Majority {

  predicate Sorted(s: seq<int>)
  {
    forall j, k :: 0 <= j < k < |s| ==> s[j] <= s[k]
  }

  /** How many elements of `s` are at least `v`. */
  function CountAtLeast(s: seq<int>, v: int): (n: nat)
    ensures n <= |s|
  {
    if s == [] then 0 else (if s[0] >= v then 1 else 0) + CountAtLeast(s[1..], v)
  }

  /** Raising the bar never counts more elements. */
  lemma {:induction false} CountAtLeastAntitone(s: seq<int>, v: int, w: int)
    requires v <= w
    ensures CountAtLeast(s, w) <= CountAtLeast(s, v)
    decreases |s|
  {
    if s != [] {
      CountAtLeastAntitone(s[1..], v, w);
    }
  }

  // ---------------------------------------------------------------------
  // Numeric ascending sort

  function Insert(x: int, s: seq<int>): (r: seq<int>)
    ensures |r| == |s| + 1 && multiset(r) == multiset(s) + multiset{x}
  {
    if s == [] || x <= s[0] then
      [x] + s
    else
      assert s == [s[0]] + s[1..];
      [s[0]] + Insert(x, s[1..])
  }

  /** Inserting into a sorted sequence keeps it sorted. */
  lemma {:induction false} InsertSorted(x: int, s: seq<int>)
    requires Sorted(s)
    ensures Sorted(Insert(x, s))
    ensures Insert(x, s)[0] == x || Insert(x, s)[0] == s[0]
    decreases |s|
  {
    if s != [] && x > s[0] {
      InsertSorted(x, s[1..]);
      var rest := Insert(x, s[1..]);
      assert Insert(x, s) == [s[0]] + rest;
      assert s[0] <= rest[0];
    }
  }

  /** Inserting `x` adds one to the count at or below `x` and nothing above it. */
  lemma {:induction false} InsertCount(x: int, s: seq<int>, v: int)
    ensures CountAtLeast(Insert(x, s), v) == CountAtLeast(s, v) + (if x >= v then 1 else 0)
    decreases |s|
  {
    if s == [] || x <= s[0] {
      assert Insert(x, s)[1..] == s;
    } else {
      InsertCount(x, s[1..], v);
      assert Insert(x, s)[1..] == Insert(x, s[1..]);
    }
  }

  /** The match indices in ascending numeric order: the same elements. */
  function SortAscending(s: seq<int>): (r: seq<int>)
    ensures Sorted(r)
    ensures |r| == |s| && multiset(r) == multiset(s)
  {
    if s == [] then []
    else
      assert s == [s[0]] + s[1..];
      InsertSorted(s[0], SortAscending(s[1..]));
      Insert(s[0], SortAscending(s[1..]))
  }

  /** Sorting keeps the count at or above any value. */
  lemma {:induction false} SortCount(s: seq<int>, v: int)
    ensures CountAtLeast(SortAscending(s), v) == CountAtLeast(s, v)
    decreases |s|
  {
    if s != [] {
      SortCount(s[1..], v);
      InsertCount(s[0], SortAscending(s[1..]), v);
    }
  }

  /** In a sorted sequence every element from position `m` on is at least
      `s[m]`, and every element before it is at most `s[m]`. */
  lemma {:induction false} SortedCountFrom(s: seq<int>, m: int)
    requires Sorted(s) && 0 <= m < |s|
    ensures CountAtLeast(s, s[m]) >= |s| - m
    decreases |s|
  {
    if m > 0 {
      assert Sorted(s[1..]);
      assert s[1..][m - 1] == s[m];
      SortedCountFrom(s[1..], m - 1);
    } else {
      AllAtLeastCounted(s, s[0]);
    }
  }

  lemma {:induction false} AllAtLeastCounted(s: seq<int>, v: int)
    requires forall k :: 0 <= k < |s| ==> s[k] >= v
    ensures CountAtLeast(s, v) == |s|
    decreases |s|
  {
    if s != [] {
      AllAtLeastCounted(s[1..], v);
    }
  }

  /** In a sorted sequence, a value above `s[m]` is met only after position `m`. */
  lemma {:induction false} SortedCountAbove(s: seq<int>, m: int, v: int)
    requires Sorted(s) && 0 <= m < |s| && v > s[m]
    ensures CountAtLeast(s, v) <= |s| - m - 1
    decreases |s|
  {
    if m > 0 {
      assert Sorted(s[1..]);
      assert s[1..][m - 1] == s[m];
      SortedCountAbove(s[1..], m - 1, v);
    } else {
      assert Sorted(s[1..]);
      assert s[0] < v;
    }
  }

  /** The commit candidate under numeric order: the element at position
      `floor(peers / 2)` of the ascending match indices. */
  function MajorityIndex(matchIndices: seq<int>, peerCount: nat): int
    requires |matchIndices| == peerCount + 1
  {
    SortAscending(matchIndices)[peerCount / 2]
  }

  /** The numeric candidate is one of the match indices, a strict majority of
      the match indices are at least it, and it is the largest value with
      that property. */
  lemma MajorityIndexIsMajority(matchIndices: seq<int>, peerCount: nat)
    requires |matchIndices| == peerCount + 1
    ensures var n := MajorityIndex(matchIndices, peerCount);
      && n in multiset(matchIndices)
      && 2 * CountAtLeast(matchIndices, n) > |matchIndices|
      && forall v :: v > n ==> 2 * CountAtLeast(matchIndices, v) <= |matchIndices|
  {
    var sorted := SortAscending(matchIndices);
    var m := peerCount / 2;
    SortedCountFrom(sorted, m);
    SortCount(matchIndices, sorted[m]);
    forall v | v > sorted[m] ensures 2 * CountAtLeast(matchIndices, v) <= |matchIndices| {
      SortedCountAbove(sorted, m, v);
      SortCount(matchIndices, v);
    }
    assert sorted[m] in multiset(sorted);
  }

  // ---------------------------------------------------------------------
  // JavaScript's default sort, as written in the source

  /** The decimal digits of `n`. */
  function Digits(n: nat): (r: string)
    ensures |r| >= 1
    decreases n
  {
    if n < 10 then [DigitChar(n)] else Digits(n / 10) + [DigitChar(n % 10)]
  }

  function DigitChar(d: nat): char
    requires d < 10
  {
    ['0', '1', '2', '3', '4', '5', '6', '7', '8', '9'][d]
  }

  /** `String(n)` for an integer. */
  function NumberString(n: int): string
  {
    if n < 0 then "-" + Digits(-n) else Digits(n)
  }

  /** Strict lexicographic order by character code, as JavaScript compares strings. */
  predicate StringBefore(a: string, b: string)
  {
    if a == [] then b != []
    else if b == [] then false
    else if a[0] != b[0] then a[0] < b[0]
    else StringBefore(a[1..], b[1..])
  }

  /** `s` is in the order the default sort leaves it: no element's string
      comes strictly before the string of an element ahead of it. */
  predicate StringSorted(s: seq<int>)
  {
    forall j, k :: 0 <= j < k < |s| ==> !StringBefore(NumberString(s[k]), NumberString(s[j]))
  }

  /** No string comes strictly before itself, and of two strings at most one
      comes strictly before the other. */
  lemma {:induction false} StringBeforeAsymmetric(a: string, b: string)
    ensures !(StringBefore(a, b) && StringBefore(b, a))
    decreases |a|
  {
    if a != [] && b != [] && a[0] == b[0] {
      StringBeforeAsymmetric(a[1..], b[1..]);
    }
  }

  /** Whatever `b` is, a string before `a` is before `b` or `b` is before `a`:
      "not before" is transitive, which sorting by `StringBefore` relies on. */
  lemma {:induction false} StringBeforeSplits(a: string, b: string, c: string)
    requires StringBefore(c, a)
    ensures StringBefore(b, a) || StringBefore(c, b)
    decreases |a|
  {
    if a != [] && b != [] && c != [] && c[0] == a[0] && b[0] == a[0] {
      StringBeforeSplits(a[1..], b[1..], c[1..]);
    }
  }

  /** One step of insertion sort by string: `x` goes before the first element
      whose string does not come before its own. */
  function InsertByString(x: int, s: seq<int>): (r: seq<int>)
    ensures |r| == |s| + 1
    ensures multiset(r) == multiset(s) + multiset{x}
  {
    if s == [] || !StringBefore(NumberString(s[0]), NumberString(x)) then [x] + s
    else
      assert s == [s[0]] + s[1..];
      [s[0]] + InsertByString(x, s[1..])
  }

  /** No element of `t` sorts strictly before `y`. */
  predicate StringLeast(y: int, t: seq<int>)
  {
    forall i :: 0 <= i < |t| ==> !StringBefore(NumberString(t[i]), NumberString(y))
  }

  lemma StringSortedCons(y: int, t: seq<int>)
    requires StringSorted(t) && StringLeast(y, t)
    ensures StringSorted([y] + t)
  {
    var r := [y] + t;
    forall j, k | 0 <= j < k < |r|
      ensures !StringBefore(NumberString(r[k]), NumberString(r[j]))
    {
      if j == 0 {
        assert r[k] == t[k - 1];
      } else {
        assert r[j] == t[j - 1] && r[k] == t[k - 1];
      }
    }
  }

  /** An element that does not sort after the head of a sorted sequence is
      least in it. */
  lemma StringLeastOfSorted(x: int, s: seq<int>)
    requires StringSorted(s) && s != [] && !StringBefore(NumberString(s[0]), NumberString(x))
    ensures StringLeast(x, s)
  {
    forall i | 0 <= i < |s|
      ensures !StringBefore(NumberString(s[i]), NumberString(x))
    {
      if StringBefore(NumberString(s[i]), NumberString(x)) {
        StringBeforeSplits(NumberString(x), NumberString(s[0]), NumberString(s[i]));
      }
    }
  }

  /** The head of a sorted sequence that sorts before `x` is least in the
      result of inserting `x` into the tail. */
  lemma HeadLeastAfterInsert(x: int, s: seq<int>)
    requires StringSorted(s) && s != [] && StringBefore(NumberString(s[0]), NumberString(x))
    ensures StringLeast(s[0], InsertByString(x, s[1..]))
  {
    var rest := InsertByString(x, s[1..]);
    forall i | 0 <= i < |rest|
      ensures !StringBefore(NumberString(rest[i]), NumberString(s[0]))
    {
      var v := rest[i];
      assert v in multiset(s[1..]) + multiset{x} by {
        assert v in multiset(rest);
      }
      if v == x {
        StringBeforeAsymmetric(NumberString(s[0]), NumberString(x));
      } else {
        assert v in s[1..];
        var n :| 0 <= n < |s[1..]| && s[1..][n] == v;
        assert s[n + 1] == v;
      }
    }
  }

  /** Inserting by string into a string-ordered sequence keeps it string-ordered. */
  lemma {:induction false} InsertByStringSorted(x: int, s: seq<int>)
    requires StringSorted(s)
    ensures StringSorted(InsertByString(x, s))
    decreases |s|
  {
    if s == [] {
      assert InsertByString(x, s) == [x];
    } else if !StringBefore(NumberString(s[0]), NumberString(x)) {
      StringLeastOfSorted(x, s);
      StringSortedCons(x, s);
    } else {
      assert StringSorted(s[1..]) by {
        forall j, k | 0 <= j < k < |s[1..]|
          ensures !StringBefore(NumberString(s[1..][k]), NumberString(s[1..][j]))
        {
          assert s[1..][k] == s[k + 1] && s[1..][j] == s[j + 1];
        }
      }
      InsertByStringSorted(x, s[1..]);
      HeadLeastAfterInsert(x, s);
      StringSortedCons(s[0], InsertByString(x, s[1..]));
    }
  }

  /** `matchIndices.sort()`: the same elements, in ascending string order. */
  function JsDefaultSort(s: seq<int>): (r: seq<int>)
    ensures StringSorted(r)
    ensures |r| == |s| && multiset(r) == multiset(s)
  {
    if s == [] then []
    else
      assert s == [s[0]] + s[1..];
      InsertByStringSorted(s[0], JsDefaultSort(s[1..]));
      InsertByString(s[0], JsDefaultSort(s[1..]))
  }

  /** The commit candidate as the source computes it. */
  function MajorityIndexAsWritten(matchIndices: seq<int>, peerCount: nat): (n: int)
    requires |matchIndices| == peerCount + 1
    ensures n in multiset(matchIndices)
  {
    var sorted := JsDefaultSort(matchIndices);
    assert sorted[peerCount / 2] in multiset(sorted);
    sorted[peerCount / 2]
  }

  /** Three nodes: the leader's last index is 10, one peer has matched 9 and
      the other 1. String order sorts them as "1" < "10" < "9" and picks 10,
      which only the leader holds; numeric order picks 9, held by two of three. */
  lemma StringSortOverCommits()
    ensures MajorityIndexAsWritten([10, 9, 1], 2) == 10
    ensures 2 * CountAtLeast([10, 9, 1], 10) <= 3
    ensures MajorityIndex([10, 9, 1], 2) == 9
  {
    JsSortExample();
    ExampleCounts();
    NumericPick();
  }

  lemma ExampleCounts()
    ensures CountAtLeast([10, 9, 1], 10) == 1
    ensures CountAtLeast([10, 9, 1], 9) == 2
  {
    var counts := [10, 9, 1];
    assert counts[1..] == [9, 1] && counts[1..][1..] == [1] && counts[1..][1..][1..] == [];
  }

  lemma NumericPick()
    ensures MajorityIndex([10, 9, 1], 2) == 9
  {
    ExampleCounts();
    MajorityIndexIsMajority([10, 9, 1], 2);
    var n := MajorityIndex([10, 9, 1], 2);
    assert n in multiset([10, 9, 1]);
    assert n == 10 || n == 9 || n == 1;
  }

  lemma NumberStrings()
    ensures NumberString(10) == "10" && NumberString(9) == "9" && NumberString(1) == "1"
  {
    assert Digits(10) == Digits(1) + [DigitChar(0)];
  }

  lemma JsSortExample()
    ensures JsDefaultSort([10, 9, 1]) == [1, 10, 9]
  {
    var all := [10, 9, 1];
    assert all[1..] == [9, 1];
    SortNineOne();
    InsertTenExample();
  }

  lemma SortNineOne()
    ensures JsDefaultSort([9, 1]) == [1, 9]
  {
    NumberStrings();
    assert StringBefore("1", "9");
    assert [9, 1][1..] == [1] && [1][1..] == [];
    assert JsDefaultSort([1]) == [1];
    assert InsertByString(9, [1]) == [1, 9];
  }

  lemma InsertTenExample()
    ensures InsertByString(10, [1, 9]) == [1, 10, 9]
  {
    NumberStrings();
    assert StringBefore("1", "10") by {
      assert "1"[1..] == [] && "10"[1..] == "0";
    }
    assert StringBefore("10", "9");
    assert !StringBefore("9", "1");
    assert [1, 9][1..] == [9];
    assert InsertByString(10, [9]) == [10, 9];
  }
}
