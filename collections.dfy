/**
 Sequence operations that the store and the dashboard are built from:
 `Array.prototype.filter`, the `[...new Set(xs)]` de-duplication idiom,
 and the "remove if present, else append" toggle used for bookmarks and
 read markers. Sequences play the part of JavaScript arrays throughout.
 */
module Collections {

  datatype Option<T> = None | Some(value: T) {
    /** The carried value, or `default` for `None`. */
    function GetOr(default: T): T {
      match this
      case Some(v) => v
      case None => default
    }
  }

  /** No element occurs twice. */
  ghost predicate NoDuplicates<T>(xs: seq<T>) {
    forall i, j :: 0 <= i < j < |xs| ==> xs[i] != xs[j]
  }

  /** `r` is obtained from `s` by deleting elements, keeping the order of the rest. */
  ghost predicate IsSubsequence<T>(r: seq<T>, s: seq<T>)
    decreases |s|
  {
    r == [] ||
      (s != [] &&
        ((r[0] == s[0] && IsSubsequence(r[1..], s[1..])) || IsSubsequence(r, s[1..])))
  }

  lemma {:induction false} SubsequenceTransitive<T>(a: seq<T>, b: seq<T>, c: seq<T>)
    requires IsSubsequence(a, b) && IsSubsequence(b, c)
    ensures IsSubsequence(a, c)
    decreases |c|
  {
    if a != [] {
      assert b != [] && c != [];
      if IsSubsequence(b, c[1..]) {
        SubsequenceTransitive(a, b, c[1..]);
      } else {
        assert b[0] == c[0] && IsSubsequence(b[1..], c[1..]);
        if a[0] == b[0] && IsSubsequence(a[1..], b[1..]) {
          SubsequenceTransitive(a[1..], b[1..], c[1..]);
        } else {
          SubsequenceTransitive(a, b[1..], c[1..]);
        }
      }
    }
  }

  /** The elements of `xs` that satisfy `p`, in their original order. */
  function Filter<T(==,!new)>(xs: seq<T>, p: T -> bool): (r: seq<T>)
    ensures |r| <= |xs|
    ensures forall y :: y in r <==> y in xs && p(y)
    ensures forall y :: multiset(r)[y] == if p(y) then multiset(xs)[y] else 0
  {
    if xs == [] then []
    else
      assert xs == [xs[0]] + xs[1..];
      (if p(xs[0]) then [xs[0]] else []) + Filter(xs[1..], p)
  }

  lemma {:induction false} FilterConcat<T(!new)>(xs: seq<T>, ys: seq<T>, p: T -> bool)
    ensures Filter(xs + ys, p) == Filter(xs, p) + Filter(ys, p)
  {
    if xs == [] {
      assert xs + ys == ys;
    } else {
      assert (xs + ys)[0] == xs[0];
      assert (xs + ys)[1..] == xs[1..] + ys;
      FilterConcat(xs[1..], ys, p);
    }
  }

  /** Filtering with a predicate every element satisfies changes nothing. */
  lemma {:induction false} FilterIdentity<T(!new)>(xs: seq<T>, p: T -> bool)
    requires forall y :: y in xs ==> p(y)
    ensures Filter(xs, p) == xs
  {
    if xs != [] {
      assert forall y :: y in xs[1..] ==> y in xs;
      FilterIdentity(xs[1..], p);
    }
  }

  /** Filtering keeps the relative order of the elements it keeps. */
  lemma {:induction false} FilterIsSubsequence<T(!new)>(xs: seq<T>, p: T -> bool)
    ensures IsSubsequence(Filter(xs, p), xs)
  {
    if xs != [] {
      FilterIsSubsequence(xs[1..], p);
      var r := Filter(xs, p);
      if p(xs[0]) {
        assert r[0] == xs[0] && r[1..] == Filter(xs[1..], p);
      } else {
        assert r == Filter(xs[1..], p);
      }
    }
  }

  lemma {:induction false} FilterNoDuplicates<T(!new)>(xs: seq<T>, p: T -> bool)
    requires NoDuplicates(xs)
    ensures NoDuplicates(Filter(xs, p))
  {
    if xs != [] {
      assert NoDuplicates(xs[1..]) by {
        forall i, j | 0 <= i < j < |xs[1..]| ensures xs[1..][i] != xs[1..][j] {
          assert xs[1..][i] == xs[i + 1] && xs[1..][j] == xs[j + 1];
        }
      }
      FilterNoDuplicates(xs[1..], p);
      assert xs[0] !in xs[1..];
    }
  }

  /** `xs` with every occurrence of `x` removed (`xs.filter(y => y !== x)`). */
  function Without<T(==,!new)>(xs: seq<T>, x: T): (r: seq<T>)
    ensures x !in r
    ensures forall y :: y != x ==> (y in r <==> y in xs)
  {
    Filter(xs, y => y != x)
  }

  lemma WithoutPreservesNoDuplicates<T(!new)>(xs: seq<T>, x: T)
    requires NoDuplicates(xs)
    ensures NoDuplicates(Without(xs, x))
  {
    FilterNoDuplicates(xs, y => y != x);
  }

  lemma WithoutAbsent<T(!new)>(xs: seq<T>, x: T)
    requires x !in xs
    ensures Without(xs, x) == xs
  {
    FilterIdentity(xs, y => y != x);
  }

  lemma WithoutKeepsOrder<T(!new)>(xs: seq<T>, x: T)
    ensures IsSubsequence(Without(xs, x), xs)
  {
    FilterIsSubsequence(xs, y => y != x);
  }

  lemma WithoutConcat<T(!new)>(xs: seq<T>, ys: seq<T>, x: T)
    ensures Without(xs + ys, x) == Without(xs, x) + Without(ys, x)
  {
    FilterConcat(xs, ys, y => y != x);
  }

  /**
   Remove `x` if it occurs, append it otherwise:
   `xs.includes(x) ? xs.filter(y => y !== x) : [...xs, x]`.
   */
  function Toggle<T(==,!new)>(xs: seq<T>, x: T): (r: seq<T>)
    ensures x in r <==> x !in xs
    ensures forall y :: y != x ==> (y in r <==> y in xs)
  {
    if x in xs then Without(xs, x) else xs + [x]
  }

  /** A toggle keeps a duplicate-free sequence duplicate-free. */
  lemma TogglePreservesNoDuplicates<T(!new)>(xs: seq<T>, x: T)
    requires NoDuplicates(xs)
    ensures NoDuplicates(Toggle(xs, x))
  {
    if x in xs {
      FilterNoDuplicates(xs, y => y != x);
    }
  }

  /** Toggling twice gives back the same elements. */
  lemma ToggleTwiceSameElements<T(!new)>(xs: seq<T>, x: T)
    ensures forall y :: y in Toggle(Toggle(xs, x), x) <==> y in xs
  {
  }

  /** Toggling an absent element twice gives back the very same sequence. */
  lemma ToggleTwiceAbsent<T(!new)>(xs: seq<T>, x: T)
    requires x !in xs
    ensures Toggle(Toggle(xs, x), x) == xs
  {
    WithoutConcat(xs, [x], x);
    WithoutAbsent(xs, x);
    assert Without([x], x) == [];
  }

  lemma WithoutSingleton<T(!new)>(x: T)
    ensures Without([x], x) == []
  {
    assert [x][1..] == [];
  }

  /** Removing the one occurrence of `x` closes the gap. */
  lemma WithoutSingleOccurrence<T(!new)>(a: seq<T>, x: T, b: seq<T>)
    requires x !in a && x !in b
    ensures Without(a + [x] + b, x) == a + b
  {
    var front := a + [x];
    WithoutConcat(front, b, x);
    WithoutConcat(a, [x], x);
    WithoutAbsent(a, x);
    WithoutAbsent(b, x);
    WithoutSingleton(x);
    assert Without(front, x) == a;
  }

  /** Toggling an element present once twice moves it to the end. */
  lemma ToggleTwicePresentOnce<T(!new)>(a: seq<T>, x: T, b: seq<T>)
    requires x !in a && x !in b
    ensures Toggle(Toggle(a + [x] + b, x), x) == a + b + [x]
  {
    var xs := a + [x] + b;
    assert xs[|a|] == x;
    WithoutSingleOccurrence(a, x, b);
    assert Toggle(xs, x) == a + b;
    assert x !in a + b;
  }

  /**
   The first occurrence of each element, in order of first appearance:
   JavaScript's `[...new Set(xs)]`, which inserts left to right and
   ignores elements already present.
   */
  function Dedup<T(==,!new)>(xs: seq<T>): (r: seq<T>)
    ensures NoDuplicates(r)
    ensures forall y :: y in r <==> y in xs
    decreases |xs|
  {
    if xs == [] then []
    else
      var init, last := xs[..|xs| - 1], xs[|xs| - 1];
      assert xs == init + [last];
      var d := Dedup(init);
      if last in d then d else d + [last]
  }

  /** De-duplicating a duplicate-free sequence changes nothing. */
  lemma {:induction false} DedupOfUnique<T(!new)>(xs: seq<T>)
    requires NoDuplicates(xs)
    ensures Dedup(xs) == xs
    decreases |xs|
  {
    if xs != [] {
      var init := xs[..|xs| - 1];
      assert NoDuplicates(init) by {
        forall i, j | 0 <= i < j < |init| ensures init[i] != init[j] {
          assert init[i] == xs[i] && init[j] == xs[j];
        }
      }
      DedupOfUnique(init);
      assert xs[|xs| - 1] !in init by {
        forall i | 0 <= i < |init| ensures init[i] != xs[|xs| - 1] {
          assert init[i] == xs[i];
        }
      }
      assert xs == init + [xs[|xs| - 1]];
    }
  }

  /** A duplicate-free prefix survives de-duplication in place, in order. */
  lemma {:induction false} DedupKeepsPrefix<T(!new)>(xs: seq<T>, ys: seq<T>)
    requires NoDuplicates(xs)
    ensures |Dedup(xs + ys)| >= |xs| && Dedup(xs + ys)[..|xs|] == xs
    decreases |ys|
  {
    if ys == [] {
      assert xs + ys == xs;
      DedupOfUnique(xs);
    } else {
      var s := xs + ys;
      var ys' := ys[..|ys| - 1];
      assert s[..|s| - 1] == xs + ys';
      DedupKeepsPrefix(xs, ys');
    }
  }

  /** Appending to a duplicate-free sequence and de-duplicating is a set insert. */
  lemma DedupAppend<T(!new)>(xs: seq<T>, x: T)
    requires NoDuplicates(xs)
    ensures Dedup(xs + [x]) == if x in xs then xs else xs + [x]
  {
    assert (xs + [x])[..|xs|] == xs;
    DedupOfUnique(xs);
  }

  /** An element occurs exactly once in a duplicate-free sequence holding it. */
  lemma {:induction false} NoDuplicatesCountOne<T(!new)>(xs: seq<T>, x: T)
    requires NoDuplicates(xs) && x in xs
    ensures multiset(xs)[x] == 1
  {
    assert xs == [xs[0]] + xs[1..];
    var tail := xs[1..];
    assert NoDuplicates(tail) by {
      forall i, j | 0 <= i < j < |tail| ensures tail[i] != tail[j] {
        assert tail[i] == xs[i + 1] && tail[j] == xs[j + 1];
      }
    }
    assert xs[0] !in tail;
    if xs[0] == x {
      assert multiset(tail)[x] == 0;
    } else {
      NoDuplicatesCountOne(tail, x);
    }
  }
}
