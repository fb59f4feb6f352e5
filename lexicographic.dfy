/** The order Python 2 gives byte strings (compare character by character; a
    proper prefix comes first), `list.sort()` and `sorted(set(xs))` on lists
    of strings. */
module Lexicographic {

  /** `a < b` on Python 2 strings. */
  predicate Less(a: string, b: string)
    ensures Less(a, b) ==> a != b
    ensures |a| < |b| && a == b[..|a|] ==> Less(a, b)
    decreases |a|
  {
    if a == [] then b != []
    else if b == [] then false
    else if a[0] == b[0] then Less(a[1..], b[1..])
    else a[0] < b[0]
  }

  lemma {:induction false} LessIrreflexive(a: string)
    ensures !Less(a, a)
    decreases |a|
  {
    if a != [] {
      LessIrreflexive(a[1..]);
    }
  }

  lemma {:induction false} LessTransitive(a: string, b: string, c: string)
    requires Less(a, b) && Less(b, c)
    ensures Less(a, c)
    decreases |a|
  {
    if a != [] && b != [] && c != [] && a[0] == b[0] && b[0] == c[0] {
      LessTransitive(a[1..], b[1..], c[1..]);
    }
  }

  lemma {:induction false} LessTotal(a: string, b: string)
    ensures a == b || Less(a, b) || Less(b, a)
    decreases |a|
  {
    if a != [] && b != [] && a[0] == b[0] {
      LessTotal(a[1..], b[1..]);
      if a[1..] == b[1..] {
        assert a == [a[0]] + a[1..] && b == [b[0]] + b[1..];
      }
    }
  }

  lemma LessAsymmetric(a: string, b: string)
    requires Less(a, b)
    ensures !Less(b, a)
  {
    if Less(b, a) {
      LessTransitive(a, b, a);
      LessIrreflexive(a);
    }
  }

  /** Strictly increasing, hence free of duplicates. */
  predicate StrictlySorted(s: seq<string>) {
    forall i, j :: 0 <= i < j < |s| ==> Less(s[i], s[j])
  }

  /** Non-decreasing: no later element is below an earlier one. */
  predicate Sorted(s: seq<string>) {
    forall i, j :: 0 <= i < j < |s| ==> !Less(s[j], s[i])
  }

  lemma StrictlySortedDistinct(s: seq<string>)
    requires StrictlySorted(s)
    ensures forall i, j :: 0 <= i < j < |s| ==> s[i] != s[j]
  {
    forall i, j | 0 <= i < j < |s| ensures s[i] != s[j] {
      LessIrreflexive(s[i]);
    }
  }

  /** Puts `y` in front of a strictly sorted sequence all of whose elements
      are above `y`. */
  lemma PrependBelow(y: string, s: seq<string>)
    requires StrictlySorted(s)
    requires forall k :: 0 <= k < |s| ==> Less(y, s[k])
    ensures StrictlySorted([y] + s)
  {
    var t := [y] + s;
    forall i, j | 0 <= i < j < |t| ensures Less(t[i], t[j]) {
      if i > 0 {
        assert t[i] == s[i - 1] && t[j] == s[j - 1];
      }
    }
  }

  /** Adds `x` to a strictly sorted sequence unless it is already there. */
  function InsertUnique(x: string, s: seq<string>): (r: seq<string>)
    requires StrictlySorted(s)
    ensures StrictlySorted(r)
    ensures forall y :: y in r <==> y == x || y in s
    decreases |s|
  {
    if s == [] then [x]
    else if x == s[0] then s
    else if Less(x, s[0]) then
      PrependLeast(x, s);
      [x] + s
    else
      LessTotal(x, s[0]);
      var r' := InsertUnique(x, s[1..]);
      PrependFirst(s, x, r');
      [s[0]] + r'
  }

  lemma PrependLeast(x: string, s: seq<string>)
    requires StrictlySorted(s) && s != [] && Less(x, s[0])
    ensures StrictlySorted([x] + s)
  {
    forall k | 0 <= k < |s| ensures Less(x, s[k]) {
      if k > 0 {
        LessTransitive(x, s[0], s[k]);
      }
    }
    PrependBelow(x, s);
  }

  lemma PrependFirst(s: seq<string>, x: string, r: seq<string>)
    requires StrictlySorted(s) && s != [] && Less(s[0], x)
    requires StrictlySorted(r)
    requires forall y :: y in r <==> y == x || y in s[1..]
    ensures StrictlySorted([s[0]] + r)
  {
    forall k | 0 <= k < |r| ensures Less(s[0], r[k]) {
      assert r[k] in r;
      if r[k] != x {
        var m :| 1 <= m < |s| && s[m] == r[k];
      }
    }
    PrependBelow(s[0], r);
  }

  /** `sorted(set(xs))`: the distinct elements of `xs` in increasing order. */
  function SortedSet(xs: seq<string>): (r: seq<string>)
    ensures StrictlySorted(r)
    ensures forall y :: y in r <==> y in xs
  {
    if xs == [] then []
    else
      var n := |xs| - 1;
      assert xs == xs[..n] + [xs[n]];
      InsertUnique(xs[n], SortedSet(xs[..n]))
  }

  /** A strictly sorted sequence is determined by its elements. */
  lemma {:induction false} StrictlySortedUnique(a: seq<string>, b: seq<string>)
    requires StrictlySorted(a) && StrictlySorted(b)
    requires forall y :: y in a <==> y in b
    ensures a == b
    decreases |a|
  {
    assert a != [] ==> a[0] in a;
    assert b != [] ==> b[0] in b;
    if a != [] && b != [] {
      if a[0] != b[0] {
        assert a[0] in b;
        var j :| 0 < j < |b| && b[j] == a[0];
        assert b[0] in a;
        var i :| 0 < i < |a| && a[i] == b[0];
        LessAsymmetric(a[0], b[0]);
        assert false;
      }
      StrictlySortedDistinct(a);
      StrictlySortedDistinct(b);
      forall y ensures y in a[1..] <==> y in b[1..] {
        if y in a[1..] {
          var i :| 1 <= i < |a| && a[i] == y;
          assert y in b;
          var j :| 0 <= j < |b| && b[j] == y;
          assert j != 0 && b[1..][j - 1] == y;
        }
        if y in b[1..] {
          var j :| 1 <= j < |b| && b[j] == y;
          assert y in a;
          var i :| 0 <= i < |a| && a[i] == y;
          assert i != 0 && a[1..][i - 1] == y;
        }
      }
      StrictlySortedUnique(a[1..], b[1..]);
      assert a == [a[0]] + a[1..] && b == [b[0]] + b[1..];
    }
  }

  /** `sorted(set(xs))` depends only on which strings occur in `xs`: not on
      their order, nor on how often each occurs. */
  lemma SortedSetOfSameElements(xs: seq<string>, ys: seq<string>)
    requires forall y :: y in xs <==> y in ys
    ensures SortedSet(xs) == SortedSet(ys)
  {
    StrictlySortedUnique(SortedSet(xs), SortedSet(ys));
  }

  /** Inserts `x` into a sorted sequence in front of the first element not
      below it. */
  function InsertSorted(x: string, s: seq<string>): (r: seq<string>)
    requires Sorted(s)
    ensures Sorted(r)
    ensures multiset(r) == multiset(s) + multiset{x}
    decreases |s|
  {
    if s == [] || !Less(s[0], x) then
      PrependNotAbove(x, s);
      [x] + s
    else
      var r' := InsertSorted(x, s[1..]);
      assert s == [s[0]] + s[1..];
      PrependSmallest(s, x, r');
      [s[0]] + r'
  }

  lemma PrependNotAbove(x: string, s: seq<string>)
    requires Sorted(s) && (s == [] || !Less(s[0], x))
    ensures Sorted([x] + s)
  {
    var t := [x] + s;
    forall i, j | 0 <= i < j < |t| ensures !Less(t[j], t[i]) {
      if i == 0 {
        assert t[j] == s[j - 1];
        if Less(s[j - 1], x) {
          LessTotal(s[0], s[j - 1]);
          if Less(s[0], s[j - 1]) {
            LessTransitive(s[0], s[j - 1], x);
          }
        }
      } else {
        assert t[i] == s[i - 1] && t[j] == s[j - 1];
      }
    }
  }

  lemma PrependSmallest(s: seq<string>, x: string, r: seq<string>)
    requires Sorted(s) && s != [] && Less(s[0], x)
    requires Sorted(r) && multiset(r) == multiset(s[1..]) + multiset{x}
    ensures Sorted([s[0]] + r)
  {
    var t := [s[0]] + r;
    forall i, j | 0 <= i < j < |t| ensures !Less(t[j], t[i]) {
      assert t[j] == r[j - 1];
      if i == 0 {
        assert r[j - 1] in multiset(r);
        if r[j - 1] == x {
          LessAsymmetric(s[0], x);
        } else {
          assert r[j - 1] in multiset(s[1..]);
          var m :| 1 <= m < |s| && s[m] == r[j - 1];
        }
      } else {
        assert t[i] == r[i - 1];
      }
    }
  }

  /** `xs.sort()`: a sorted permutation of `xs`. */
  function Sort(xs: seq<string>): (r: seq<string>)
    ensures Sorted(r)
    ensures multiset(r) == multiset(xs)
  {
    if xs == [] then []
    else
      var n := |xs| - 1;
      assert xs == xs[..n] + [xs[n]];
      InsertSorted(xs[n], Sort(xs[..n]))
  }

  /** Sorting a list first does not change `sorted(set(..))` of it. */
  lemma SortedSetAfterSort(xs: seq<string>)
    ensures SortedSet(Sort(xs)) == SortedSet(xs)
  {
    forall y ensures y in Sort(xs) <==> y in xs {
      assert y in Sort(xs) <==> y in multiset(Sort(xs));
      assert y in xs <==> y in multiset(xs);
    }
    SortedSetOfSameElements(Sort(xs), xs);
  }
}
