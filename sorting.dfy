/**
  The ORDER BY clauses of the services' queries, as an insertion sort over a
  comparison. The sort happens to keep ties in table order, but SQL leaves the
  order of ties open, so no contract here promises anything about it.
 */
module Sorting {

  ghost predicate Total<T(!new)>(le: (T, T) -> bool) {
    forall a, b :: le(a, b) || le(b, a)
  }

  ghost predicate Transitive<T(!new)>(le: (T, T) -> bool) {
    forall a, b, c :: le(a, b) && le(b, c) ==> le(a, c)
  }

  /** Each element is at most its successor. */
  predicate Sorted<T>(s: seq<T>, le: (T, T) -> bool) {
    forall i :: 0 <= i < |s| - 1 ==> le(s[i], s[i + 1])
  }

  function Insert<T(!new)>(x: T, s: seq<T>, le: (T, T) -> bool): (r: seq<T>)
    ensures |r| == |s| + 1
    ensures multiset(r) == multiset(s) + multiset{x}
    ensures r[0] == x || (|s| > 0 && r[0] == s[0])
    ensures Total(le) && Sorted(s, le) ==> Sorted(r, le)
  {
    if |s| == 0 then [x]
    else if le(x, s[0]) then [x] + s
    else
      assert s == [s[0]] + s[1..];
      [s[0]] + Insert(x, s[1..], le)
  }

  /** `ORDER BY`: a permutation of `s`, sorted whenever `le` is total. */
  function Sort<T(!new)>(s: seq<T>, le: (T, T) -> bool): (r: seq<T>)
    ensures |r| == |s|
    ensures multiset(r) == multiset(s)
    ensures Total(le) ==> Sorted(r, le)
  {
    if |s| == 0 then []
    else
      assert s == [s[0]] + s[1..];
      Insert(s[0], Sort(s[1..], le), le)
  }

  /** For a transitive order, sorted successors give a sorted whole. */
  lemma {:induction false} SortedPairwise<T(!new)>(s: seq<T>, le: (T, T) -> bool)
    requires Transitive(le) && Sorted(s, le)
    ensures forall i, j :: 0 <= i < j < |s| ==> le(s[i], s[j])
  {
    forall i, j | 0 <= i < j < |s| ensures le(s[i], s[j]) {
      SortedPair(s, le, i, j);
    }
  }

  lemma {:induction false} SortedPair<T(!new)>(s: seq<T>, le: (T, T) -> bool, i: nat, j: nat)
    requires Transitive(le) && Sorted(s, le)
    requires i < j < |s|
    ensures le(s[i], s[j])
    decreases j - i
  {
    if i + 1 < j {
      SortedPair(s, le, i + 1, j);
    }
  }

  /**
    SQLite's default (BINARY) collation on text: code-point order, a proper
    prefix first.
   */
  predicate LexLe(a: string, b: string)
    decreases |a|
  {
    |a| == 0 || (|b| > 0 && (a[0] < b[0] || (a[0] == b[0] && LexLe(a[1..], b[1..]))))
  }

  /** Any two names are comparable. */
  lemma {:induction false} LexLeTotalAt(a: string, b: string)
    ensures LexLe(a, b) || LexLe(b, a)
    decreases |a|
  {
    if |a| > 0 && |b| > 0 && a[0] == b[0] {
      LexLeTotalAt(a[1..], b[1..]);
    }
  }

  /** The name order is transitive. */
  lemma {:induction false} LexLeTransitiveAt(a: string, b: string, c: string)
    requires LexLe(a, b) && LexLe(b, c)
    ensures LexLe(a, c)
    decreases |a|
  {
    if |a| > 0 && a[0] == b[0] && b[0] == c[0] {
      LexLeTransitiveAt(a[1..], b[1..], c[1..]);
    }
  }

  /** `LexLe` is a total order, as `Sort` needs. */
  lemma LexLeIsTotalOrder()
    ensures Total(LexLe) && Transitive(LexLe)
  {
    forall a, b ensures LexLe(a, b) || LexLe(b, a) {
      LexLeTotalAt(a, b);
    }
    forall a, b, c | LexLe(a, b) && LexLe(b, c) ensures LexLe(a, c) {
      LexLeTransitiveAt(a, b, c);
    }
  }
}
