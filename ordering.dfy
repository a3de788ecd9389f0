/** The orders pandas uses when it sorts labels (pivot sorts its row and
    column labels): integers by value, strings by code point, lexicographically.
    `SortedDistinct` gives the ascending list of distinct labels. */
module Ordering {
  import opened Base

  ghost predicate StrictTotalOrder<T(!new)>(lt: (T, T) -> bool)
  {
    && (forall a :: !lt(a, a))
    && (forall a, b, c :: lt(a, b) && lt(b, c) ==> lt(a, c))
    && (forall a, b :: a != b ==> lt(a, b) || lt(b, a))
  }

  /** Every element strictly below every later one: sorted and without repeats. */
  predicate Increasing<T>(s: seq<T>, lt: (T, T) -> bool)
  {
    forall i, j :: 0 <= i < j < |s| ==> lt(s[i], s[j])
  }

  function IntLess(a: int, b: int): bool { a < b }

  /** Python's `<` on str: code points compared left to right, a proper prefix first. */
  predicate StrLess(a: string, b: string)
    decreases |a|
  {
    if |a| == 0 then |b| > 0
    else if |b| == 0 then false
    else if a[0] != b[0] then a[0] < b[0]
    else StrLess(a[1..], b[1..])
  }

  lemma {:induction false} StrLessIrreflexive(a: string)
    ensures !StrLess(a, a)
    decreases |a|
  {
    if |a| > 0 { StrLessIrreflexive(a[1..]); }
  }

  lemma {:induction false} StrLessTransitive(a: string, b: string, c: string)
    requires StrLess(a, b) && StrLess(b, c)
    ensures StrLess(a, c)
    decreases |a|
  {
    if |a| > 0 && a[0] == b[0] && b[0] == c[0] {
      StrLessTransitive(a[1..], b[1..], c[1..]);
    }
  }

  lemma {:induction false} StrLessTotal(a: string, b: string)
    requires a != b
    ensures StrLess(a, b) || StrLess(b, a)
    decreases |a|
  {
    if |a| > 0 && |b| > 0 && a[0] == b[0] {
      assert a == [a[0]] + a[1..] && b == [b[0]] + b[1..];
      StrLessTotal(a[1..], b[1..]);
    }
  }

  lemma IntLessIsStrictTotalOrder()
    ensures StrictTotalOrder(IntLess)
  {
  }

  lemma StrLessIsStrictTotalOrder()
    ensures StrictTotalOrder(StrLess)
  {
    forall a: string ensures !StrLess(a, a) { StrLessIrreflexive(a); }
    forall a: string, b: string, c: string | StrLess(a, b) && StrLess(b, c)
      ensures StrLess(a, c)
    {
      StrLessTransitive(a, b, c);
    }
    forall a: string, b: string | a != b ensures StrLess(a, b) || StrLess(b, a) {
      StrLessTotal(a, b);
    }
  }

  /** Inserts `x` into an increasing sequence unless it is already there. */
  function Insert<T(!new,==)>(s: seq<T>, x: T, lt: (T, T) -> bool): (r: seq<T>)
    requires StrictTotalOrder(lt) && Increasing(s, lt)
    ensures Increasing(r, lt) && Elems(r) == Elems(s) + {x}
  {
    if s == [] then [x]
    else if x == s[0] then s
    else if lt(x, s[0]) then
      assert Elems([x] + s) == Elems(s) + {x};
      [x] + s
    else
      var rest := Insert(s[1..], x, lt);
      assert s == [s[0]] + s[1..];
      assert Elems(s) == {s[0]} + Elems(s[1..]);
      assert Elems([s[0]] + rest) == {s[0]} + Elems(rest);
      assert forall k :: 0 <= k < |rest| ==> rest[k] in Elems(rest);
      [s[0]] + rest
  }

  /** The distinct elements of `xs` in ascending order. */
  function SortedDistinct<T(!new,==)>(xs: seq<T>, lt: (T, T) -> bool): (r: seq<T>)
    requires StrictTotalOrder(lt)
    ensures Increasing(r, lt) && Elems(r) == Elems(xs)
  {
    if xs == [] then []
    else
      var r := Insert(SortedDistinct(xs[..|xs| - 1], lt), xs[|xs| - 1], lt);
      assert xs == xs[..|xs| - 1] + [xs[|xs| - 1]];
      assert Elems(xs) == Elems(xs[..|xs| - 1]) + {xs[|xs| - 1]};
      r
  }

  /** In an increasing sequence each element sits at exactly one position. */
  lemma IncreasingUnique<T(!new)>(s: seq<T>, lt: (T, T) -> bool, i: nat, j: nat)
    requires StrictTotalOrder(lt) && Increasing(s, lt)
    requires i < |s| && j < |s| && s[i] == s[j]
    ensures i == j
  {
  }
}
