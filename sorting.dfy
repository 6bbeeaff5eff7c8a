/**
 A stable in-place sort by a two-key rank, both keys descending: the
 comparator shape the dashboard hands to `Array.prototype.sort`. The sort
 is generic in the element type and sees elements only through `key`.
 */
module Sorting {
  import opened Collections

  /** The sort keys of one element; a larger `primary`, then a larger `secondary`, goes first. */
  datatype Rank = Rank(primary: int, secondary: int)

  /** Negative when `r` goes before `q`, zero when they tie on both keys. */
  function CompareRanks(r: Rank, q: Rank): int {
    if q.primary != r.primary then q.primary - r.primary else q.secondary - r.secondary
  }

  /** Every earlier element is ranked no lower than every later one. */
  ghost predicate SortedBy<T>(s: seq<T>, key: T -> Rank) {
    forall i, j :: 0 <= i < j < |s| ==> CompareRanks(key(s[i]), key(s[j])) <= 0
  }

  function HasKey<T>(key: T -> Rank, k: Rank): T -> bool {
    x => key(x) == k
  }

  /**
   For every rank, the elements of that rank appear in `s` in the same
   order as in `t`: what stability of a sort means.
   */
  ghost predicate SameKeyOrder<T(!new)>(s: seq<T>, t: seq<T>, key: T -> Rank) {
    forall k :: Filter(s, HasKey(key, k)) == Filter(t, HasKey(key, k))
  }

  lemma SameKeyOrderTransitive<T(!new)>(s: seq<T>, t: seq<T>, u: seq<T>, key: T -> Rank)
    requires SameKeyOrder(s, t, key) && SameKeyOrder(t, u, key)
    ensures SameKeyOrder(s, u, key)
  {
    forall k ensures Filter(s, HasKey(key, k)) == Filter(u, HasKey(key, k)) {
      assert Filter(s, HasKey(key, k)) == Filter(t, HasKey(key, k));
    }
  }

  lemma FilterSwapPair<T(!new)>(u: T, v: T, p: T -> bool)
    requires !(p(u) && p(v))
    ensures Filter([u, v], p) == Filter([v, u], p)
  {
    assert [u, v][1..] == [v] && [v, u][1..] == [u];
    assert [u][1..] == [] && [v][1..] == [];
  }

  /** Swapping two neighbours of different rank keeps the order within every rank. */
  lemma SwapKeepsKeyOrder<T(!new)>(s: seq<T>, j: nat, orig: seq<T>, key: T -> Rank)
    requires 0 < j < |s| && key(s[j - 1]) != key(s[j])
    requires SameKeyOrder(s, orig, key)
    ensures SameKeyOrder(s[j - 1 := s[j]][j := s[j - 1]], orig, key)
  {
    var swapped := s[j - 1 := s[j]][j := s[j - 1]];
    var front, back := s[..j - 1], s[j + 1..];
    assert s == front + [s[j - 1], s[j]] + back;
    assert swapped == front + [s[j], s[j - 1]] + back;
    forall k ensures Filter(swapped, HasKey(key, k)) == Filter(orig, HasKey(key, k)) {
      var p := HasKey(key, k);
      FilterConcat(front + [s[j - 1], s[j]], back, p);
      FilterConcat(front, [s[j - 1], s[j]], p);
      FilterConcat(front + [s[j], s[j - 1]], back, p);
      FilterConcat(front, [s[j], s[j - 1]], p);
      FilterSwapPair(s[j - 1], s[j], p);
      assert Filter(s, p) == Filter(orig, p);
    }
  }

  /**
   The state of the inner insertion loop on `s`: `s[..i + 1]` is sorted
   except that the element at `j` still has to move left, and it outranks
   every element after it up to `i`.
   */
  ghost predicate Inserting<T>(s: seq<T>, j: nat, i: nat, key: T -> Rank) {
    && j <= i < |s|
    && (forall p, q :: 0 <= p < q <= i && p != j && q != j ==> CompareRanks(key(s[p]), key(s[q])) <= 0)
    && (forall q :: j < q <= i ==> CompareRanks(key(s[j]), key(s[q])) < 0)
  }

  lemma InsertingStart<T>(s: seq<T>, i: nat, key: T -> Rank)
    requires i < |s| && SortedBy(s[..i], key)
    ensures Inserting(s, i, i, key)
  {
    forall p, q | 0 <= p < q <= i && p != i && q != i ensures CompareRanks(key(s[p]), key(s[q])) <= 0 {
      assert s[p] == s[..i][p] && s[q] == s[..i][q];
    }
  }

  lemma InsertingStep<T>(s: seq<T>, j: nat, i: nat, key: T -> Rank)
    requires Inserting(s, j, i, key) && 0 < j && CompareRanks(key(s[j - 1]), key(s[j])) > 0
    ensures Inserting(s[j - 1 := s[j]][j := s[j - 1]], j - 1, i, key)
  {
    var t := s[j - 1 := s[j]][j := s[j - 1]];
    forall p, q | 0 <= p < q <= i && p != j - 1 && q != j - 1
      ensures CompareRanks(key(t[p]), key(t[q])) <= 0
    {
      if q == j {
        assert t[q] == s[j - 1] && t[p] == s[p];
      } else if p == j {
        assert t[p] == s[j - 1] && t[q] == s[q];
      } else {
        assert t[p] == s[p] && t[q] == s[q];
      }
    }
  }

  lemma InsertingDone<T>(s: seq<T>, j: nat, i: nat, key: T -> Rank)
    requires Inserting(s, j, i, key) && (j == 0 || CompareRanks(key(s[j - 1]), key(s[j])) <= 0)
    ensures SortedBy(s[..i + 1], key)
  {
    forall p, q | 0 <= p < q <= i ensures CompareRanks(key(s[p]), key(s[q])) <= 0 {
      if q == j && p < j - 1 {
        assert CompareRanks(key(s[p]), key(s[j - 1])) <= 0;
      }
    }
  }

  /** One swap of the inner loop keeps all three facts the loop maintains. */
  lemma SwapStep<T(!new)>(s: seq<T>, j: nat, i: nat, orig: seq<T>, key: T -> Rank)
    requires Inserting(s, j, i, key) && 0 < j && CompareRanks(key(s[j - 1]), key(s[j])) > 0
    requires multiset(s) == multiset(orig) && SameKeyOrder(s, orig, key)
    ensures Inserting(s[j - 1 := s[j]][j := s[j - 1]], j - 1, i, key)
    ensures multiset(s[j - 1 := s[j]][j := s[j - 1]]) == multiset(orig)
    ensures SameKeyOrder(s[j - 1 := s[j]][j := s[j - 1]], orig, key)
  {
    InsertingStep(s, j, i, key);
    SwapKeepsKeyOrder(s, j, orig, key);
  }

  /** One pass of the insertion sort: move `a[i]` left into the sorted prefix `a[..i]`. */
  method InsertIntoPrefix<T(!new)>(a: array<T>, i: nat, key: T -> Rank)
    requires i < a.Length && SortedBy(a[..i], key)
    modifies a
    ensures SortedBy(a[..i + 1], key)
    ensures multiset(a[..]) == multiset(old(a[..]))
    ensures SameKeyOrder(a[..], old(a[..]), key)
  {
    InsertingStart(a[..], i, key);
    var j: nat := i;
    while j > 0 && CompareRanks(key(a[j - 1]), key(a[j])) > 0
      invariant Inserting(a[..], j, i, key)
      invariant multiset(a[..]) == multiset(old(a[..]))
      invariant SameKeyOrder(a[..], old(a[..]), key)
    {
      ghost var before := a[..];
      SwapStep(before, j, i, old(a[..]), key);
      a[j - 1], a[j] := a[j], a[j - 1];
      assert a[..] == before[j - 1 := before[j]][j := before[j - 1]];
      j := j - 1;
    }
    InsertingDone(a[..], j, i, key);
  }

  /** A stable insertion sort in place: each new element moves left past the elements it outranks. */
  method SortByKey<T(!new)>(a: array<T>, key: T -> Rank)
    modifies a
    ensures SortedBy(a[..], key)
    ensures multiset(a[..]) == multiset(old(a[..]))
    ensures SameKeyOrder(a[..], old(a[..]), key)
  {
    var i := 0;
    while i < a.Length
      invariant 0 <= i <= a.Length
      invariant SortedBy(a[..i], key)
      invariant multiset(a[..]) == multiset(old(a[..]))
      invariant SameKeyOrder(a[..], old(a[..]), key)
    {
      ghost var before := a[..];
      InsertIntoPrefix(a, i, key);
      SameKeyOrderTransitive(a[..], before, old(a[..]), key);
      i := i + 1;
    }
    assert a[..] == a[..a.Length];
  }

  /** The first element of `s` is the first of its rank in `s`. */
  lemma FilterHead<T(!new)>(s: seq<T>, key: T -> Rank)
    requires s != []
    ensures Filter(s, HasKey(key, key(s[0]))) != []
    ensures Filter(s, HasKey(key, key(s[0])))[0] == s[0]
  {
  }

  /** Two sorted lists with the same elements and the same order within ranks start alike. */
  lemma SortedHeadsAgree<T(!new)>(s: seq<T>, t: seq<T>, key: T -> Rank)
    requires s != [] && multiset(s) == multiset(t)
    requires SortedBy(s, key) && SortedBy(t, key)
    requires SameKeyOrder(s, t, key)
    ensures t != [] && s[0] == t[0]
  {
    assert s[0] in multiset(t);
    assert t[0] in multiset(s);
    var m :| 0 <= m < |t| && t[m] == s[0];
    var n :| 0 <= n < |s| && s[n] == t[0];
    assert CompareRanks(key(t[0]), key(t[m])) <= 0 && CompareRanks(key(s[0]), key(s[n])) <= 0;
    assert key(s[0]) == key(t[0]);
    FilterHead(s, key);
    FilterHead(t, key);
  }

  lemma TailsKeepKeyOrder<T(!new)>(s: seq<T>, t: seq<T>, key: T -> Rank)
    requires s != [] && t != [] && s[0] == t[0]
    requires SameKeyOrder(s, t, key)
    ensures SameKeyOrder(s[1..], t[1..], key)
  {
    forall k ensures Filter(s[1..], HasKey(key, k)) == Filter(t[1..], HasKey(key, k)) {
      var p := HasKey(key, k);
      var h := if p(s[0]) then [s[0]] else [];
      var fs, ft := Filter(s[1..], p), Filter(t[1..], p);
      assert Filter(s, p) == h + fs;
      assert Filter(t, p) == h + ft;
      assert fs == (h + fs)[|h|..] && ft == (h + ft)[|h|..];
    }
  }

  lemma TailsSameElements<T>(s: seq<T>, t: seq<T>)
    requires s != [] && t != [] && s[0] == t[0] && multiset(s) == multiset(t)
    ensures multiset(s[1..]) == multiset(t[1..])
  {
    assert s == [s[0]] + s[1..] && t == [t[0]] + t[1..];
    assert multiset(s[1..]) == multiset(s) - multiset([s[0]]);
    assert multiset(t[1..]) == multiset(t) - multiset([s[0]]);
  }

  lemma SortedTail<T>(s: seq<T>, key: T -> Rank)
    requires s != [] && SortedBy(s, key)
    ensures SortedBy(s[1..], key)
  {
    forall i, j | 0 <= i < j < |s| - 1 ensures CompareRanks(key(s[1..][i]), key(s[1..][j])) <= 0 {
      assert s[1..][i] == s[i + 1] && s[1..][j] == s[j + 1];
    }
  }

  /**
   A sorted permutation of `t` that keeps the order of `t` within every
   rank is unique: every stable sort by this comparator, whatever its
   algorithm, gives the same list as `SortByKey`.
   */
  lemma {:induction false} StableSortIsUnique<T(!new)>(s: seq<T>, t: seq<T>, key: T -> Rank)
    requires multiset(s) == multiset(t)
    requires SortedBy(s, key) && SortedBy(t, key)
    requires SameKeyOrder(s, t, key)
    ensures s == t
    decreases |s|
  {
    if s == [] {
      assert |t| == |multiset(t)| == 0;
    } else {
      SortedHeadsAgree(s, t, key);
      TailsKeepKeyOrder(s, t, key);
      TailsSameElements(s, t);
      SortedTail(s, key);
      SortedTail(t, key);
      StableSortIsUnique(s[1..], t[1..], key);
      assert s == [s[0]] + s[1..] && t == [t[0]] + t[1..];
    }
  }
}
