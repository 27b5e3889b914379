/**
 * Python's `sorted()` on a list of strings: strings compare character by
 * character on code points, and a proper prefix comes first.
 */
module Sorting {

  /** `a <= b` for Python strings. */
  predicate StrLe(a: string, b: string)
    decreases |a|
  {
    a == [] || (b != [] && (a[0] < b[0] || (a[0] == b[0] && StrLe(a[1..], b[1..]))))
  }

  lemma {:induction false} StrLeTotal(a: string, b: string)
    ensures StrLe(a, b) || StrLe(b, a)
    decreases |a|
  {
    if a != [] && b != [] && a[0] == b[0] {
      StrLeTotal(a[1..], b[1..]);
    }
  }

  lemma {:induction false} StrLeReflexive(a: string)
    ensures StrLe(a, a)
    decreases |a|
  {
    if a != [] {
      StrLeReflexive(a[1..]);
    }
  }

  lemma {:induction false} StrLeTransitive(a: string, b: string, c: string)
    requires StrLe(a, b) && StrLe(b, c)
    ensures StrLe(a, c)
    decreases |a|
  {
    if a != [] && a[0] == b[0] && b[0] == c[0] {
      StrLeTransitive(a[1..], b[1..], c[1..]);
    }
  }

  lemma {:induction false} StrLeAntisymmetric(a: string, b: string)
    requires StrLe(a, b) && StrLe(b, a)
    ensures a == b
    decreases |a|
  {
    if a != [] {
      StrLeAntisymmetric(a[1..], b[1..]);
      assert a == [a[0]] + a[1..] && b == [b[0]] + b[1..];
    }
  }

  predicate Sorted(s: seq<string>) {
    forall i, j :: 0 <= i < j < |s| ==> StrLe(s[i], s[j])
  }

  /** Places `x` before the first element it is not above. */
  function Insert(x: string, s: seq<string>): seq<string> {
    if s == [] then [x]
    else if StrLe(x, s[0]) then [x] + s
    else [s[0]] + Insert(x, s[1..])
  }

  /** Inserting into a sorted list keeps it sorted and adds exactly `x`. */
  lemma {:induction false} InsertSorted(x: string, s: seq<string>)
    requires Sorted(s)
    ensures Sorted(Insert(x, s))
    ensures multiset(Insert(x, s)) == multiset(s) + multiset{x}
  {
    if s == [] {
    } else if StrLe(x, s[0]) {
      StrLeBelowAll(x, s);
    } else {
      StrLeTotal(x, s[0]);
      InsertSorted(x, s[1..]);
      assert s == [s[0]] + s[1..];
      HeadBelowInsert(x, s, Insert(x, s[1..]));
    }
  }

  lemma HeadBelowInsert(x: string, s: seq<string>, rest: seq<string>)
    requires Sorted(s) && s != [] && StrLe(s[0], x)
    requires Sorted(rest) && multiset(rest) == multiset(s[1..]) + multiset{x}
    ensures Sorted([s[0]] + rest)
  {
    forall j | 0 <= j < |rest| ensures StrLe(s[0], rest[j]) {
      assert rest[j] in multiset(rest);
      if rest[j] != x {
        assert rest[j] in s[1..];
      }
    }
  }

  /** A string below the head of a sorted list is below all of it. */
  lemma StrLeBelowAll(x: string, s: seq<string>)
    requires Sorted(s) && s != [] && StrLe(x, s[0])
    ensures Sorted([x] + s)
  {
    forall j | 0 <= j < |s| ensures StrLe(x, s[j]) {
      if j > 0 {
        StrLeTransitive(x, s[0], s[j]);
      }
    }
  }

  /** `sorted(xs)`, as insertion sort. */
  function Sort(xs: seq<string>): seq<string> {
    if xs == [] then [] else Insert(xs[0], Sort(xs[1..]))
  }

  /** `sorted(xs)` holds the same strings as `xs`, in ascending order. */
  lemma {:induction false} SortSorted(xs: seq<string>)
    ensures Sorted(Sort(xs))
    ensures multiset(Sort(xs)) == multiset(xs)
  {
    if xs != [] {
      SortSorted(xs[1..]);
      InsertSorted(xs[0], Sort(xs[1..]));
      assert xs == [xs[0]] + xs[1..];
    }
  }

  /** The head of a sorted list is below each of its elements. */
  lemma HeadIsLeast(a: seq<string>, x: string)
    requires Sorted(a) && x in a
    ensures StrLe(a[0], x)
  {
    var j :| 0 <= j < |a| && a[j] == x;
    if j == 0 {
      StrLeReflexive(x);
    }
  }

  lemma TailMultiset(a: seq<string>)
    requires a != []
    ensures multiset(a[1..]) == multiset(a) - multiset{a[0]}
  {
    assert a == [a[0]] + a[1..];
  }

  lemma SortLength(xs: seq<string>)
    ensures |Sort(xs)| == |xs|
  {
    SortSorted(xs);
    assert |Sort(xs)| == |multiset(Sort(xs))| == |multiset(xs)| == |xs|;
  }

  /** There is only one sorted arrangement of a given multiset of strings. */
  lemma {:induction false} SortedUnique(a: seq<string>, b: seq<string>)
    requires Sorted(a) && Sorted(b) && multiset(a) == multiset(b)
    ensures a == b
  {
    if a == [] {
      assert |b| == |multiset(b)| == 0;
    } else {
      assert |b| == |multiset(a)| > 0;
      assert a[0] in multiset(b) && b[0] in multiset(a);
      HeadIsLeast(b, a[0]);
      HeadIsLeast(a, b[0]);
      StrLeAntisymmetric(a[0], b[0]);
      TailMultiset(a);
      TailMultiset(b);
      SortedUnique(a[1..], b[1..]);
      assert a == [a[0]] + a[1..] && b == [b[0]] + b[1..];
    }
  }

  /** `sorted()` ignores the order of its input. */
  lemma SortIgnoresOrder(xs: seq<string>, ys: seq<string>)
    requires multiset(xs) == multiset(ys)
    ensures Sort(xs) == Sort(ys)
  {
    SortSorted(xs);
    SortSorted(ys);
    SortedUnique(Sort(xs), Sort(ys));
  }
}
