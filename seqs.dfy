/** The list operations the components apply to member lists:
    `Array.prototype.filter` and a stable `Array.prototype.sort`. */
module Seqs {

  /** `s.filter(p)`: the elements of `s` that satisfy `p`, in their order. */
  function Filter<T>(s: seq<T>, p: T -> bool): (r: seq<T>)
    ensures |r| <= |s|
    ensures forall i :: 0 <= i < |r| ==> p(r[i])
  {
    if s == [] then []
    else
      assert s == [s[0]] + s[1..];
      (if p(s[0]) then [s[0]] else []) + Filter(s[1..], p)
  }

  /** `a` is `b` with some elements deleted, the rest kept in order. */
  predicate IsSubsequence<T(==)>(a: seq<T>, b: seq<T>)
    decreases |b|
  {
    if a == [] then true
    else if b == [] then false
    else if a[0] == b[0] then IsSubsequence(a[1..], b[1..])
    else IsSubsequence(a, b[1..])
  }

  /** Filtering keeps exactly the elements that satisfy the predicate. */
  lemma {:induction false} FilterMembership<T>(s: seq<T>, p: T -> bool, x: T)
    ensures x in Filter(s, p) <==> x in s && p(x)
  {
    if s != [] {
      FilterMembership(s[1..], p, x);
      assert s == [s[0]] + s[1..];
    }
  }

  /** Filtering preserves the order of what it keeps. */
  lemma {:induction false} FilterIsSubsequence<T>(s: seq<T>, p: T -> bool)
    ensures IsSubsequence(Filter(s, p), s)
  {
    if s != [] {
      FilterIsSubsequence(s[1..], p);
      var r := Filter(s, p);
      if p(s[0]) {
        assert r == [s[0]] + Filter(s[1..], p);
        assert r[1..] == Filter(s[1..], p);
      } else {
        assert r == Filter(s[1..], p);
        if r != [] {
          assert p(r[0]);
          assert r[0] != s[0];
        }
      }
    }
  }

  /** A predicate that holds of every element filters nothing out. */
  lemma {:induction false} FilterAll<T>(s: seq<T>, p: T -> bool)
    requires forall i :: 0 <= i < |s| ==> p(s[i])
    ensures Filter(s, p) == s
  {
    if s != [] {
      FilterAll(s[1..], p);
      assert s == [s[0]] + s[1..];
    }
  }

  /** Predicates that agree on the elements give the same filtered list. */
  lemma {:induction false} FilterExt<T>(s: seq<T>, p: T -> bool, q: T -> bool)
    requires forall i :: 0 <= i < |s| ==> p(s[i]) == q(s[i])
    ensures Filter(s, p) == Filter(s, q)
  {
    if s != [] {
      FilterExt(s[1..], p, q);
    }
  }

  /** Two filters in a row are one filter by the conjunction `both`. */
  lemma {:induction false} FilterFilter<T>(s: seq<T>, p: T -> bool, q: T -> bool, both: T -> bool)
    requires forall x :: both(x) == (p(x) && q(x))
    ensures Filter(Filter(s, p), q) == Filter(s, both)
  {
    if s != [] {
      FilterFilter(s[1..], p, q, both);
      var f := Filter(s, p);
      if p(s[0]) {
        assert f == [s[0]] + Filter(s[1..], p);
        assert f[1..] == Filter(s[1..], p);
        assert Filter(f, q) == (if q(s[0]) then [s[0]] else []) + Filter(f[1..], q);
      } else {
        assert f == Filter(s[1..], p);
      }
    }
  }

  /** Filtering a list extended at the end. */
  lemma {:induction false} FilterAppend<T>(s: seq<T>, x: T, p: T -> bool)
    ensures Filter(s + [x], p) == Filter(s, p) + (if p(x) then [x] else [])
  {
    if s == [] {
      assert s + [x] == [x];
      assert [x][1..] == [];
    } else {
      var head := if p(s[0]) then [s[0]] else [];
      var tail := if p(x) then [x] else [];
      assert (s + [x])[0] == s[0];
      assert (s + [x])[1..] == s[1..] + [x];
      FilterAppend(s[1..], x, p);
      assert Filter(s + [x], p) == head + (Filter(s[1..], p) + tail);
      assert Filter(s, p) == head + Filter(s[1..], p);
    }
  }

  /** Two filters whose predicates exclude each other keep at most the whole list. */
  lemma {:induction false} DisjointFiltersBound<T>(s: seq<T>, p: T -> bool, q: T -> bool)
    requires forall i :: 0 <= i < |s| ==> !(p(s[i]) && q(s[i]))
    ensures |Filter(s, p)| + |Filter(s, q)| <= |s|
  {
    if s != [] {
      DisjointFiltersBound(s[1..], p, q);
    }
  }

  /** Filtering by a disjoint union counts each part separately. */
  lemma {:induction false} FilterDisjointUnion<T>(s: seq<T>, p: T -> bool, q: T -> bool, either: T -> bool)
    requires forall x :: either(x) == (p(x) || q(x))
    requires forall i :: 0 <= i < |s| ==> !(p(s[i]) && q(s[i]))
    ensures |Filter(s, either)| == |Filter(s, p)| + |Filter(s, q)|
  {
    if s != [] {
      FilterDisjointUnion(s[1..], p, q, either);
    }
  }

  /** Every index moved up by one. */
  function Shifted(idx: seq<nat>): (r: seq<nat>)
    ensures |r| == |idx|
    ensures forall j :: 0 <= j < |idx| ==> r[j] == idx[j] + 1
  {
    seq(|idx|, j requires 0 <= j < |idx| => idx[j] + 1)
  }

  /** The positions of `s` whose elements `Filter(s, p)` keeps. */
  function KeptIndices<T>(s: seq<T>, p: T -> bool): seq<nat> {
    if s == [] then []
    else (if p(s[0]) then [0] else []) + Shifted(KeptIndices(s[1..], p))
  }

  lemma {:induction false} KeptIndicesLength<T>(s: seq<T>, p: T -> bool)
    ensures |KeptIndices(s, p)| == |Filter(s, p)|
  {
    if s != [] {
      KeptIndicesLength(s[1..], p);
    }
  }

  lemma {:induction false} KeptIndexElement<T>(s: seq<T>, p: T -> bool, j: nat)
    requires j < |Filter(s, p)|
    ensures |KeptIndices(s, p)| == |Filter(s, p)|
    ensures KeptIndices(s, p)[j] < |s| && Filter(s, p)[j] == s[KeptIndices(s, p)[j]]
  {
    KeptIndicesLength(s, p);
    var t := s[1..];
    KeptIndicesLength(t, p);
    var rest := KeptIndices(t, p);
    if p(s[0]) {
      assert Filter(s, p) == [s[0]] + Filter(t, p);
      assert KeptIndices(s, p) == [0] + Shifted(rest);
      if j > 0 {
        KeptIndexElement(t, p, j - 1);
      }
    } else {
      assert Filter(s, p) == Filter(t, p);
      assert KeptIndices(s, p) == Shifted(rest);
      KeptIndexElement(t, p, j);
    }
  }

  /** Element `j` of the filtered list stands at position `KeptIndices(s, p)[j]` of `s`. */
  lemma KeptIndicesElements<T>(s: seq<T>, p: T -> bool)
    ensures |KeptIndices(s, p)| == |Filter(s, p)|
    ensures forall j :: 0 <= j < |Filter(s, p)| ==>
      KeptIndices(s, p)[j] < |s| && Filter(s, p)[j] == s[KeptIndices(s, p)[j]]
  {
    KeptIndicesLength(s, p);
    forall j | 0 <= j < |Filter(s, p)|
      ensures KeptIndices(s, p)[j] < |s| && Filter(s, p)[j] == s[KeptIndices(s, p)[j]]
    {
      KeptIndexElement(s, p, j);
    }
  }

  /** The kept positions are strictly increasing, so the filtered list keeps the order. */
  lemma {:induction false} KeptIndicesIncreasing<T>(s: seq<T>, p: T -> bool)
    ensures forall j, k :: 0 <= j < k < |KeptIndices(s, p)| ==>
      KeptIndices(s, p)[j] < KeptIndices(s, p)[k]
  {
    if s != [] {
      KeptIndicesIncreasing(s[1..], p);
    }
  }

  /** Every position whose element satisfies `p` is kept. */
  lemma {:induction false} KeptIndicesComplete<T>(s: seq<T>, p: T -> bool, i: nat)
    requires i < |s| && p(s[i])
    ensures i in KeptIndices(s, p)
  {
    var rest := KeptIndices(s[1..], p);
    if i > 0 {
      KeptIndicesComplete(s[1..], p, i - 1);
      var j :| 0 <= j < |rest| && rest[j] == i - 1;
      assert Shifted(rest)[j] == i;
    }
  }

  // ---------------------------------------------------------------------------
  // Stable sorting by a comparator
  // ---------------------------------------------------------------------------

  /** Inserts `x` before the first element it strictly precedes, so after every
      element it ties with. */
  function Insert<T>(x: T, s: seq<T>, less: (T, T) -> bool): (r: seq<T>)
    ensures multiset(r) == multiset(s) + multiset{x}
    ensures |r| == |s| + 1
  {
    if s == [] then [x]
    else if less(x, s[0]) then [x] + s
    else
      assert s == [s[0]] + s[1..];
      [s[0]] + Insert(x, s[1..], less)
  }

  /** A stable sort: the elements are inserted in list order. */
  function InsertionSort<T>(s: seq<T>, less: (T, T) -> bool): (r: seq<T>)
    ensures multiset(r) == multiset(s)
    ensures |r| == |s|
  {
    if s == [] then []
    else
      assert s == s[..|s| - 1] + [s[|s| - 1]];
      Insert(s[|s| - 1], InsertionSort(s[..|s| - 1], less), less)
  }

  /** `less` is a strict order: irreflexive and transitive. */
  ghost predicate StrictOrder<T(!new)>(less: (T, T) -> bool) {
    (forall a :: !less(a, a))
    && (forall a, b, c :: less(a, b) && less(b, c) ==> less(a, c))
  }

  /** No element strictly precedes one that stands before it. */
  ghost predicate SortedBy<T>(s: seq<T>, less: (T, T) -> bool) {
    forall i, j :: 0 <= i < j < |s| ==> !less(s[j], s[i])
  }

  /** Every element of `Insert(x, s, less)` is `x` (index -1) or an element of `s`. */
  lemma {:induction false} InsertElement<T>(x: T, s: seq<T>, less: (T, T) -> bool, j: nat) returns (k: int)
    requires j < |Insert(x, s, less)|
    ensures k == -1 ==> Insert(x, s, less)[j] == x
    ensures k != -1 ==> 0 <= k < |s| && Insert(x, s, less)[j] == s[k]
  {
    var r := Insert(x, s, less);
    if s == [] {
      k := -1;
    } else if less(x, s[0]) {
      k := j - 1;
    } else if j == 0 {
      k := 0;
    } else {
      assert r[j] == Insert(x, s[1..], less)[j - 1];
      var k' := InsertElement(x, s[1..], less, j - 1);
      k := if k' == -1 then -1 else k' + 1;
    }
  }

  lemma {:induction false} InsertSorted<T(!new)>(x: T, s: seq<T>, less: (T, T) -> bool)
    requires StrictOrder(less) && SortedBy(s, less)
    ensures SortedBy(Insert(x, s, less), less)
  {
    var r := Insert(x, s, less);
    if s == [] {
    } else if less(x, s[0]) {
      assert r == [x] + s;
      forall i, j | 0 <= i < j < |r| ensures !less(r[j], r[i]) {
        if i == 0 {
          assert r[j] == s[j - 1];
        } else {
          assert r[i] == s[i - 1] && r[j] == s[j - 1];
        }
      }
    } else {
      var t := s[1..];
      forall i, j | 0 <= i < j < |t| ensures !less(t[j], t[i]) {
        assert t[i] == s[i + 1] && t[j] == s[j + 1];
      }
      InsertSorted(x, t, less);
      var rest := Insert(x, t, less);
      assert r == [s[0]] + rest;
      forall i, j | 0 <= i < j < |r| ensures !less(r[j], r[i]) {
        if i == 0 {
          var k := InsertElement(x, t, less, j - 1);
          if k != -1 {
            assert r[j] == s[k + 1];
          }
        } else {
          assert r[i] == rest[i - 1] && r[j] == rest[j - 1];
        }
      }
    }
  }

  /** Sorting with a transitive strict order yields a sorted permutation. */
  lemma {:induction false} InsertionSortSorted<T(!new)>(s: seq<T>, less: (T, T) -> bool)
    requires StrictOrder(less)
    ensures SortedBy(InsertionSort(s, less), less)
    ensures multiset(InsertionSort(s, less)) == multiset(s)
  {
    if s != [] {
      InsertionSortSorted(s[..|s| - 1], less);
      InsertSorted(s[|s| - 1], InsertionSort(s[..|s| - 1], less), less);
    }
  }

  /** The comparator never reports "before". */
  ghost predicate NeverLess<T(!new)>(less: (T, T) -> bool) {
    forall a, b :: !less(a, b)
  }

  /** A comparator that never reports "before" leaves the list as it is. */
  lemma {:induction false} InsertionSortNoOrder<T(!new)>(s: seq<T>, less: (T, T) -> bool)
    requires NeverLess(less)
    ensures InsertionSort(s, less) == s
  {
    if s != [] {
      var init := s[..|s| - 1];
      var x := s[|s| - 1];
      InsertionSortNoOrder(init, less);
      InsertAtEnd(x, init, less);
      assert s == init + [x];
    }
  }

  lemma {:induction false} InsertAtEnd<T>(x: T, s: seq<T>, less: (T, T) -> bool)
    requires forall i :: 0 <= i < |s| ==> !less(x, s[i])
    ensures Insert(x, s, less) == s + [x]
  {
    if s != [] {
      InsertAtEnd(x, s[1..], less);
      assert s == [s[0]] + s[1..];
    }
  }
}
