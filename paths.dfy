/** File paths and the order Python's `sorted` puts them in: strings compare
    lexicographically by code point, and a proper prefix comes first. */
module Paths {
  import opened Seqs

  type Path = string

  predicate LexLe(a: string, b: string)
    decreases |a|
  {
    |a| == 0 || (|b| > 0 && (a[0] < b[0] || (a[0] == b[0] && LexLe(a[1..], b[1..]))))
  }

  lemma {:induction false} LexLeTotalAt(a: string, b: string)
    ensures LexLe(a, b) || LexLe(b, a)
    decreases |a|
  {
    if |a| > 0 && |b| > 0 && a[0] == b[0] {
      LexLeTotalAt(a[1..], b[1..]);
    }
  }

  lemma {:induction false} LexLeTransitiveAt(a: string, b: string, c: string)
    requires LexLe(a, b) && LexLe(b, c)
    ensures LexLe(a, c)
    decreases |a|
  {
    if |a| > 0 && a[0] == b[0] && b[0] == c[0] {
      LexLeTransitiveAt(a[1..], b[1..], c[1..]);
    }
  }

  lemma {:induction false} LexLeAntisymmetricAt(a: string, b: string)
    requires LexLe(a, b) && LexLe(b, a)
    ensures a == b
    decreases |a|
  {
    if |a| > 0 {
      LexLeAntisymmetricAt(a[1..], b[1..]);
      assert a == [a[0]] + a[1..] && b == [b[0]] + b[1..];
    }
  }

  /** The string order is a total order. */
  lemma LexLeIsTotalOrder()
    ensures Total(LexLe) && Transitive(LexLe) && Antisymmetric(LexLe)
  {
    forall a, b ensures LexLe(a, b) || LexLe(b, a) {
      LexLeTotalAt(a, b);
    }
    forall a, b, c | LexLe(a, b) && LexLe(b, c) ensures LexLe(a, c) {
      LexLeTransitiveAt(a, b, c);
    }
    forall a, b | LexLe(a, b) && LexLe(b, a) ensures a == b {
      LexLeAntisymmetricAt(a, b);
    }
  }

  /** `sorted(paths)`: the paths in ascending order, duplicates kept. */
  function SortPaths(paths: seq<Path>): (r: seq<Path>)
    ensures Sorted(r, LexLe)
    ensures multiset(r) == multiset(paths)
  {
    LexLeIsTotalOrder();
    Sort(paths, LexLe)
  }

  /** The sorted order depends only on which paths are given, not on their order. */
  lemma SortPathsIgnoresGivenOrder(p1: seq<Path>, p2: seq<Path>)
    requires multiset(p1) == multiset(p2)
    ensures SortPaths(p1) == SortPaths(p2)
  {
    LexLeIsTotalOrder();
    SortedUnique(SortPaths(p1), SortPaths(p2), LexLe);
  }
}
