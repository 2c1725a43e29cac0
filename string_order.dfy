/**
 * Go's ordering of strings, and the two `sort` package routines the
 * header allow-list relies on: `sort.Strings` (an in-place sort) and
 * `sort.SearchStrings` (a binary search for the lowest insertion index).
 *
 * Go strings are arbitrary byte sequences, compared byte by byte. A Go
 * string is read here as the Dafny string holding one `char` per byte, each
 * below 256, so `char` order is byte order and any byte sequence, valid
 * UTF-8 or not, has a model. (For valid UTF-8 text, reading each Unicode
 * scalar value as one `char` gives the same order as well.)
 */
module StringOrder {

  /** Go's `a <= b` on strings: lexicographic, a proper prefix comes first. */
  function LessEq(a: string, b: string): (r: bool)
    ensures |a| < |b| && a == b[..|a|] ==> r
    ensures |b| == 0 ==> (r <==> |a| == 0)
    decreases |a|
  {
    |a| == 0 || (|b| > 0 && (a[0] < b[0] || (a[0] == b[0] && LessEq(a[1..], b[1..]))))
  }

  lemma {:induction false} LessEqReflexive(a: string)
    ensures LessEq(a, a)
    decreases |a|
  {
    if |a| > 0 {
      LessEqReflexive(a[1..]);
    }
  }

  lemma {:induction false} LessEqAntisymmetric(a: string, b: string)
    requires LessEq(a, b) && LessEq(b, a)
    ensures a == b
    decreases |a|
  {
    if |a| > 0 {
      LessEqAntisymmetric(a[1..], b[1..]);
      assert a == [a[0]] + a[1..] && b == [b[0]] + b[1..];
    }
  }

  lemma {:induction false} LessEqTransitive(a: string, b: string, c: string)
    requires LessEq(a, b) && LessEq(b, c)
    ensures LessEq(a, c)
    decreases |a|
  {
    if |a| > 0 && a[0] == b[0] && b[0] == c[0] {
      LessEqTransitive(a[1..], b[1..], c[1..]);
    }
  }

  lemma {:induction false} LessEqTotal(a: string, b: string)
    ensures LessEq(a, b) || LessEq(b, a)
    decreases |a|
  {
    if |a| > 0 && |b| > 0 && a[0] == b[0] {
      LessEqTotal(a[1..], b[1..]);
    }
  }

  /** Every element is `<=` every later element (duplicates allowed). */
  ghost predicate Sorted(s: seq<string>)
  {
    forall i, j :: 0 <= i < j < |s| ==> LessEq(s[i], s[j])
  }

  /**
   * Two sorted sequences holding the same elements are equal: whichever
   * algorithm sorts the array, the result is the same.
   */
  lemma {:induction false} SortedPermutationUnique(a: seq<string>, b: seq<string>)
    requires Sorted(a) && Sorted(b) && multiset(a) == multiset(b)
    ensures a == b
    decreases |a|
  {
    if |a| > 0 {
      assert |b| == |multiset(b)| == |multiset(a)| == |a|;
      assert a[0] in multiset(b) && b[0] in multiset(a);
      HeadIsLeast(b, a[0]);
      HeadIsLeast(a, b[0]);
      LessEqAntisymmetric(a[0], b[0]);
      TailMultiset(a);
      TailMultiset(b);
      TailSorted(a);
      TailSorted(b);
      SortedPermutationUnique(a[1..], b[1..]);
      assert a == [a[0]] + a[1..] && b == [b[0]] + b[1..];
    }
  }

  /** The first element of a sorted sequence is `<=` each of its elements. */
  lemma HeadIsLeast(s: seq<string>, x: string)
    requires Sorted(s) && x in s
    ensures LessEq(s[0], x)
  {
    var j :| 0 <= j < |s| && s[j] == x;
    if j == 0 {
      LessEqReflexive(x);
    }
  }

  lemma TailMultiset(s: seq<string>)
    requires |s| > 0
    ensures multiset(s[1..]) == multiset(s) - multiset{s[0]}
  {
    assert s == [s[0]] + s[1..];
  }

  lemma TailSorted(s: seq<string>)
    requires |s| > 0 && Sorted(s)
    ensures Sorted(s[1..])
  {
    forall i, j | 0 <= i < j < |s| - 1 ensures LessEq(s[1..][i], s[1..][j]) {
      assert s[1..][i] == s[i + 1] && s[1..][j] == s[j + 1];
    }
  }

  /**
   * `i` is what `sort.SearchStrings(s, x)` returns: the lowest index whose
   * element is `>= x`, or `|s|` when there is none.
   */
  ghost predicate IsSearchIndex(s: seq<string>, x: string, i: int)
  {
    && 0 <= i <= |s|
    && (forall j :: 0 <= j < i ==> !LessEq(x, s[j]))
    && (forall j :: i <= j < |s| ==> LessEq(x, s[j]))
  }

  /**
   * The membership test `i < len(s) && s[i] == x` on the search index is
   * exactly `x in s`, also when `s` holds duplicates.
   */
  lemma SearchIndexMembership(s: seq<string>, x: string, i: int)
    requires Sorted(s) && IsSearchIndex(s, x, i)
    ensures (i < |s| && s[i] == x) <==> x in s
  {
    if x in s {
      var j :| 0 <= j < |s| && s[j] == x;
      LessEqReflexive(x);
      assert i <= j;
      if i < j {
        assert LessEq(s[i], s[j]);
      } else {
        LessEqReflexive(s[i]);
      }
      LessEqAntisymmetric(s[i], x);
    }
  }

  /** `sort.SearchStrings`: Go's `sort.Search` bisection with predicate `s[h] >= x`. */
  method SearchStrings(a: array<string>, x: string) returns (i: int)
    requires Sorted(a[..])
    ensures IsSearchIndex(a[..], x, i)
  {
    var lo, hi := 0, a.Length;
    while lo < hi
      invariant 0 <= lo <= hi <= a.Length
      invariant forall j :: 0 <= j < lo ==> !LessEq(x, a[j])
      invariant forall j :: hi <= j < a.Length ==> LessEq(x, a[j])
    {
      var h := (lo + hi) / 2;
      if !LessEq(x, a[h]) {
        forall j | lo <= j <= h ensures !LessEq(x, a[j]) {
          if j < h {
            assert LessEq(a[..][j], a[..][h]);
            if LessEq(x, a[j]) { LessEqTransitive(x, a[j], a[h]); }
          }
        }
        lo := h + 1;
      } else {
        forall j | h < j < hi ensures LessEq(x, a[j]) {
          assert LessEq(a[..][h], a[..][j]);
          LessEqTransitive(x, a[h], a[j]);
        }
        hi := h;
      }
    }
    i := lo;
  }

  /** Exchanges two elements of `a`, as Go's `Swap`. */
  method Swap(a: array<string>, i: int, j: int)
    requires 0 <= i < a.Length && 0 <= j < a.Length
    modifies a
    ensures a[..] == old(a[..])[i := old(a[j])][j := old(a[i])]
    ensures multiset(a[..]) == old(multiset(a[..]))
  {
    a[i], a[j] := a[j], a[i];
  }

  /**
   * `sort.Strings`: sorts `a` in place into ascending order. Modelled as the
   * insertion sort Go uses for short runs (swap backwards while `a[j] < a[j-1]`).
   */
  method SortStrings(a: array<string>)
    modifies a
    ensures Sorted(a[..])
    ensures multiset(a[..]) == old(multiset(a[..]))
  {
    var i := 0;
    while i < a.Length
      invariant 0 <= i <= a.Length
      invariant Sorted(a[..i])
      invariant multiset(a[..]) == old(multiset(a[..]))
    {
      var j := i;
      while j > 0 && !LessEq(a[j - 1], a[j])
        invariant 0 <= j <= i
        invariant forall p, q :: 0 <= p < q <= i && q != j ==> LessEq(a[p], a[q])
        invariant multiset(a[..]) == old(multiset(a[..]))
      {
        InsertStep(a, i, j);
        j := j - 1;
      }
      forall p, q | 0 <= p < q <= i ensures LessEq(a[p], a[q]) {
        if q == j {
          if p < j - 1 { LessEqTransitive(a[p], a[j - 1], a[j]); }
        }
      }
      i := i + 1;
    }
  }

  /** One backward swap of the insertion loop keeps the prefix sorted except at `j - 1`. */
  method InsertStep(a: array<string>, i: int, j: int)
    requires 0 < j <= i < a.Length
    requires !LessEq(a[j - 1], a[j])
    requires forall p, q :: 0 <= p < q <= i && q != j ==> LessEq(a[p], a[q])
    modifies a
    ensures forall p, q :: 0 <= p < q <= i && q != j - 1 ==> LessEq(a[p], a[q])
    ensures multiset(a[..]) == old(multiset(a[..]))
    ensures forall k :: 0 <= k < a.Length && k != j - 1 && k != j ==> a[k] == old(a[k])
  {
    ghost var x, y := a[j], a[j - 1];
    LessEqTotal(x, y);
    Swap(a, j - 1, j);
    assert a[j - 1] == x && a[j] == y;
  }
}
