/** The two sorts the analyser relies on: Python's `sorted` on file names
    (code-point lexicographic order) and numpy's `argsort(-weights)`, which
    orders (colour, weight) pairs by descending weight. Both are written as
    insertion sorts. The weight sort is stable: pairs of equal weight keep
    their input order, an order numpy's default `argsort` does not
    promise. */
module Sorting {

  // ---------------------------------------------------------------------
  // Strings in Python's `<=` order

  /** `a <= b` on Python strings: lexicographic on code points, a prefix first. */
  predicate LexLe(a: string, b: string)
  {
    if a == [] then true
    else if b == [] then false
    else if a[0] != b[0] then a[0] < b[0]
    else LexLe(a[1..], b[1..])
  }

  lemma {:induction false} LexLeTotal(a: string, b: string)
    ensures LexLe(a, b) || LexLe(b, a)
  {
    if a != [] && b != [] && a[0] == b[0] {
      LexLeTotal(a[1..], b[1..]);
    }
  }

  lemma {:induction false} LexLeReflexive(a: string)
    ensures LexLe(a, a)
  {
    if a != [] {
      LexLeReflexive(a[1..]);
    }
  }

  lemma {:induction false} LexLeTransitive(a: string, b: string, c: string)
    requires LexLe(a, b) && LexLe(b, c)
    ensures LexLe(a, c)
  {
    if a != [] && b != [] && c != [] && a[0] == b[0] && b[0] == c[0] {
      LexLeTransitive(a[1..], b[1..], c[1..]);
    }
  }

  lemma {:induction false} LexLeAntisymmetric(a: string, b: string)
    requires LexLe(a, b) && LexLe(b, a)
    ensures a == b
  {
    if a != [] && b != [] {
      LexLeAntisymmetric(a[1..], b[1..]);
      assert a == [a[0]] + a[1..] && b == [b[0]] + b[1..];
    }
  }

  ghost predicate SortedStrings(s: seq<string>)
  {
    forall i, j :: 0 <= i < j < |s| ==> LexLe(s[i], s[j])
  }

  /** Inserts `x` before the first element it does not exceed. */
  function InsertString(x: string, s: seq<string>): (r: seq<string>)
    ensures multiset(r) == multiset(s) + multiset{x}
    ensures |r| == |s| + 1 && (r[0] == x || (s != [] && r[0] == s[0]))
  {
    if s == [] then [x]
    else if LexLe(x, s[0]) then [x] + s
    else
      assert s == [s[0]] + s[1..];
      [s[0]] + InsertString(x, s[1..])
  }

  /** Inserting into a sorted list keeps it sorted. */
  lemma {:induction false} InsertSorted(x: string, s: seq<string>)
    requires SortedStrings(s)
    ensures SortedStrings(InsertString(x, s))
  {
    if s != [] && !LexLe(x, s[0]) {
      LexLeTotal(x, s[0]);
      SortedTail(s);
      InsertSorted(x, s[1..]);
      var rest := InsertString(x, s[1..]);
      assert LexLe(s[0], rest[0]) by {
        if rest[0] != x {
          assert rest[0] == s[1];
        }
      }
      ConsSorted(s[0], rest);
    } else {
      ConsSorted(x, s);
    }
  }

  /** Putting a string no greater than the head in front keeps the order. */
  lemma ConsSorted(x: string, s: seq<string>)
    requires SortedStrings(s) && (s == [] || LexLe(x, s[0]))
    ensures SortedStrings([x] + s)
  {
    var r := [x] + s;
    forall i, j | 0 <= i < j < |r|
      ensures LexLe(r[i], r[j])
    {
      if i == 0 && j > 1 {
        LexLeTransitive(x, s[0], s[j - 1]);
      }
    }
  }

  /** Python's `sorted` on a list of strings. */
  function SortStrings(s: seq<string>): (r: seq<string>)
    ensures multiset(r) == multiset(s)
  {
    if s == [] then []
    else
      assert s == s[..|s| - 1] + [s[|s| - 1]];
      InsertString(s[|s| - 1], SortStrings(s[..|s| - 1]))
  }

  /** What `sorted` returns is in order. */
  lemma {:induction false} SortStringsSorted(s: seq<string>)
    ensures SortedStrings(SortStrings(s))
  {
    if s != [] {
      SortStringsSorted(s[..|s| - 1]);
      InsertSorted(s[|s| - 1], SortStrings(s[..|s| - 1]));
    }
  }

  /** `f` applied to every element, in order. */
  function MapSeq<A, B>(f: A -> B, s: seq<A>): (r: seq<B>)
    ensures |r| == |s| && forall k :: 0 <= k < |s| ==> r[k] == f(s[k])
  {
    seq(|s|, k requires 0 <= k < |s| => f(s[k]))
  }

  lemma MapConcat<A, B>(f: A -> B, a: seq<A>, b: seq<A>)
    ensures MapSeq(f, a + b) == MapSeq(f, a) + MapSeq(f, b)
  {
  }

  /** Inserting a string adds its image to the images. */
  lemma {:induction false} MapInsert<B>(f: string -> B, x: string, s: seq<string>)
    ensures multiset(MapSeq(f, InsertString(x, s))) == multiset(MapSeq(f, s)) + multiset{f(x)}
  {
    if s == [] {
    } else if LexLe(x, s[0]) {
      MapConcat(f, [x], s);
    } else {
      SplitFirst(s);
      MapInsert(f, x, s[1..]);
      MapConcat(f, [s[0]], InsertString(x, s[1..]));
      MapConcat(f, [s[0]], s[1..]);
    }
  }

  /** Sorting the strings rearranges their images the same way. */
  lemma {:induction false} MapSort<B>(f: string -> B, s: seq<string>)
    ensures multiset(MapSeq(f, SortStrings(s))) == multiset(MapSeq(f, s))
  {
    if s != [] {
      var init, last := s[..|s| - 1], s[|s| - 1];
      var sorted := SortStrings(init);
      assert SortStrings(s) == InsertString(last, sorted);
      MapSort(f, init);
      MapInsert(f, last, sorted);
      SplitLast(s);
      MapConcat(f, init, [last]);
    }
  }

  lemma MultisetTail<T>(s: seq<T>)
    requires s != []
    ensures multiset(s[1..]) == multiset(s) - multiset{s[0]}
  {
    assert s == [s[0]] + s[1..];
  }

  lemma SortedHeadFirst(s: seq<string>, x: string)
    requires SortedStrings(s) && x in multiset(s)
    ensures s != [] && LexLe(s[0], x)
  {
    var i :| 0 <= i < |s| && s[i] == x;
    if i == 0 { LexLeReflexive(x); }
  }

  lemma SortedTail(s: seq<string>)
    requires SortedStrings(s) && s != []
    ensures SortedStrings(s[1..])
  {
    forall i, j | 0 <= i < j < |s| - 1
      ensures LexLe(s[1..][i], s[1..][j])
    {
      assert s[1..][i] == s[i + 1] && s[1..][j] == s[j + 1];
    }
  }

  /** A sorted sequence of strings is determined by its multiset: sorting is
      idempotent, and any two sorted rearrangements of one list agree. */
  lemma {:induction false} SortedUnique(a: seq<string>, b: seq<string>)
    requires SortedStrings(a) && SortedStrings(b)
    requires multiset(a) == multiset(b)
    ensures a == b
    decreases |a|
  {
    if a == [] {
      assert |b| == |multiset(b)| == 0;
    } else {
      SortedHeads(a, b);
      SortedUnique(a[1..], b[1..]);
      SplitFirst(a);
      SplitFirst(b);
    }
  }

  /** Two non-empty sorted lists with the same elements share their head,
      and their tails are again such a pair. */
  lemma SortedHeads(a: seq<string>, b: seq<string>)
    requires SortedStrings(a) && SortedStrings(b)
    requires multiset(a) == multiset(b) && a != []
    ensures b != [] && a[0] == b[0]
    ensures SortedStrings(a[1..]) && SortedStrings(b[1..])
    ensures multiset(a[1..]) == multiset(b[1..])
  {
    SortedHeadFirst(b, a[0]);
    SortedHeadFirst(a, b[0]);
    LexLeAntisymmetric(a[0], b[0]);
    MultisetTail(a);
    MultisetTail(b);
    SortedTail(a);
    SortedTail(b);
  }

  // ---------------------------------------------------------------------
  // (item, weight) pairs by descending weight

  predicate NonIncreasing(w: seq<real>)
  {
    forall i, j :: 0 <= i < j < |w| ==> w[i] >= w[j]
  }

  ghost predicate DescendingByWeight<T>(s: seq<(T, real)>)
  {
    forall i, j :: 0 <= i < j < |s| ==> s[i].1 >= s[j].1
  }

  /** Inserts `x` before the first pair that is strictly lighter, so after
      every pair of equal weight. */
  function InsertByWeight<T(==)>(x: (T, real), s: seq<(T, real)>): (r: seq<(T, real)>)
    ensures multiset(r) == multiset(s) + multiset{x}
    ensures |r| == |s| + 1 && (r[0] == x || (s != [] && r[0] == s[0]))
  {
    if s == [] then [x]
    else if x.1 > s[0].1 then [x] + s
    else
      assert s == [s[0]] + s[1..];
      [s[0]] + InsertByWeight(x, s[1..])
  }

  /** Inserting into a descending list keeps it descending. */
  lemma {:induction false} InsertDescending<T>(x: (T, real), s: seq<(T, real)>)
    requires DescendingByWeight(s)
    ensures DescendingByWeight(InsertByWeight(x, s))
  {
    if s != [] && x.1 <= s[0].1 {
      InsertDescending(x, s[1..]);
      ConsDescending(s[0], InsertByWeight(x, s[1..]));
    } else {
      ConsDescending(x, s);
    }
  }

  /** Putting a pair no lighter than the head in front keeps the order. */
  lemma ConsDescending<T>(x: (T, real), s: seq<(T, real)>)
    requires DescendingByWeight(s) && (s == [] || x.1 >= s[0].1)
    ensures DescendingByWeight([x] + s)
  {
    var r := [x] + s;
    forall i, j | 0 <= i < j < |r|
      ensures r[i].1 >= r[j].1
    {
      if i == 0 && j > 1 {
        assert r[j] == s[j - 1] && s[0].1 >= s[j - 1].1;
      }
    }
  }

  /** `argsort(-weights)` applied to the pairs: the same pairs, heaviest first. */
  function SortByWeightDesc<T(==)>(s: seq<(T, real)>): (r: seq<(T, real)>)
    ensures multiset(r) == multiset(s)
  {
    if s == [] then []
    else
      assert s == s[..|s| - 1] + [s[|s| - 1]];
      InsertByWeight(s[|s| - 1], SortByWeightDesc(s[..|s| - 1]))
  }

  /** What `argsort(-weights)` yields is heaviest first. */
  lemma {:induction false} SortByWeightDescending<T>(s: seq<(T, real)>)
    ensures DescendingByWeight(SortByWeightDesc(s))
  {
    if s != [] {
      SortByWeightDescending(s[..|s| - 1]);
      InsertDescending(s[|s| - 1], SortByWeightDesc(s[..|s| - 1]));
    }
  }

  /** A pair no heavier than any pair of the list goes to its end. */
  lemma {:induction false} InsertLightest<T>(x: (T, real), s: seq<(T, real)>)
    requires forall k :: 0 <= k < |s| ==> s[k].1 >= x.1
    ensures InsertByWeight(x, s) == s + [x]
  {
    if s != [] {
      assert forall k :: 0 <= k < |s| - 1 ==> s[1..][k] == s[k + 1];
      InsertLightest(x, s[1..]);
      SplitFirst(s);
    }
  }

  /** The order is stable: a list already heaviest first, equal weights in
      any arrangement, comes back unchanged. */
  lemma {:induction false} SortSortedNoop<T>(s: seq<(T, real)>)
    requires DescendingByWeight(s)
    ensures SortByWeightDesc(s) == s
  {
    if s != [] {
      var init, last := s[..|s| - 1], s[|s| - 1];
      assert forall i :: 0 <= i < |init| ==> init[i] == s[i];
      SortSortedNoop(init);
      InsertLightest(last, init);
      SplitLast(s);
    }
  }

  /** Pairs each item with its weight (Python's `zip`, cut to the shorter list). */
  function Zip<T>(items: seq<T>, weights: seq<real>): (z: seq<(T, real)>)
    ensures |z| == if |items| <= |weights| then |items| else |weights|
    ensures forall k :: 0 <= k < |z| ==> z[k] == (items[k], weights[k])
  {
    var n := if |items| <= |weights| then |items| else |weights|;
    seq(n, k requires 0 <= k < n => (items[k], weights[k]))
  }

  function Firsts<T>(s: seq<(T, real)>): (r: seq<T>)
    ensures |r| == |s| && forall k :: 0 <= k < |s| ==> r[k] == s[k].0
  {
    seq(|s|, k requires 0 <= k < |s| => s[k].0)
  }

  function Seconds<T>(s: seq<(T, real)>): (r: seq<real>)
    ensures |r| == |s| && forall k :: 0 <= k < |s| ==> r[k] == s[k].1
  {
    seq(|s|, k requires 0 <= k < |s| => s[k].1)
  }

  /** The weights of a descending list of pairs are non-increasing. */
  lemma SecondsNonIncreasing<T>(s: seq<(T, real)>)
    requires DescendingByWeight(s)
    ensures NonIncreasing(Seconds(s))
  {
  }

  lemma FirstsConcat<T>(a: seq<(T, real)>, b: seq<(T, real)>)
    ensures Firsts(a + b) == Firsts(a) + Firsts(b)
  {
  }

  lemma SecondsConcat<T>(a: seq<(T, real)>, b: seq<(T, real)>)
    ensures Seconds(a + b) == Seconds(a) + Seconds(b)
  {
  }

  lemma SplitFirst<T>(s: seq<T>)
    requires s != []
    ensures s == [s[0]] + s[1..]
  {
  }

  lemma SplitLast<T>(s: seq<T>)
    requires s != []
    ensures s == s[..|s| - 1] + [s[|s| - 1]]
  {
  }

  /** Inserting a pair adds its weight to the weights. */
  lemma {:induction false} InsertSeconds<T>(x: (T, real), s: seq<(T, real)>)
    ensures multiset(Seconds(InsertByWeight(x, s))) == multiset(Seconds(s)) + multiset{x.1}
  {
    if s == [] {
    } else if x.1 > s[0].1 {
      SecondsConcat([x], s);
    } else {
      assert s == [s[0]] + s[1..];
      InsertSeconds(x, s[1..]);
      SecondsConcat([s[0]], InsertByWeight(x, s[1..]));
      SecondsConcat([s[0]], s[1..]);
    }
  }

  /** Sorting the pairs permutes the weights alone the same way. */
  lemma {:induction false} SortSeconds<T>(s: seq<(T, real)>)
    ensures multiset(Seconds(SortByWeightDesc(s))) == multiset(Seconds(s))
  {
    if s != [] {
      var init, last := s[..|s| - 1], s[|s| - 1];
      var sorted := SortByWeightDesc(init);
      assert SortByWeightDesc(s) == InsertByWeight(last, sorted);
      SortSeconds(init);
      InsertSeconds(last, sorted);
      SplitLast(s);
      SecondsConcat(init, [last]);
    }
  }
}
