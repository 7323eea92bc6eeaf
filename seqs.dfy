/**
  Sequence helpers standing in for the SQL the services issue: MAX over a column,
  lookup of a row by primary key, and the primary-key uniqueness of a table.
 */
module Seqs {
  import opened Wrappers

  /** SQL `MAX(column)`: None on an empty column, otherwise the largest value. */
  function Max(xs: seq<int>): (r: Option<int>)
    ensures r.None? <==> |xs| == 0
    ensures r.Some? ==> r.value in xs
    ensures r.Some? ==> forall i :: 0 <= i < |xs| ==> xs[i] <= r.value
  {
    if |xs| == 0 then None
    else
      var last := xs[|xs| - 1];
      assert xs == xs[..|xs| - 1] + [last];
      match Max(xs[..|xs| - 1])
      case None => Some(last)
      case Some(m) => Some(if last > m then last else m)
  }

  /** `query.filter(key == k).first()`: the index of the first row whose key is `k`. */
  function Find<T, K(==)>(s: seq<T>, key: T -> K, k: K): (r: Option<nat>)
    ensures r.Some? ==> r.value < |s| && key(s[r.value]) == k
    ensures r.Some? ==> forall i :: 0 <= i < r.value ==> key(s[i]) != k
    ensures r.None? <==> forall i :: 0 <= i < |s| ==> key(s[i]) != k
  {
    if |s| == 0 then None
    else if key(s[0]) == k then Some(0)
    else match Find(s[1..], key, k)
      case None => None
      case Some(j) => Some(j + 1)
  }

  /** Rows that kept their keys are found at the same places. */
  lemma {:induction false} FindSameKeys<T, K>(s: seq<T>, s': seq<T>, key: T -> K, k: K)
    requires |s| == |s'|
    requires forall i :: 0 <= i < |s| ==> key(s'[i]) == key(s[i])
    ensures Find(s', key, k) == Find(s, key, k)
  {
    if |s| > 0 && key(s[0]) != k {
      FindSameKeys(s[1..], s'[1..], key, k);
    }
  }

  /** SQL `OFFSET skip LIMIT limit`. */
  function Page<T>(s: seq<T>, skip: nat, limit: nat): (r: seq<T>)
    ensures |r| <= limit
    ensures skip <= |s| ==> |r| == if |s| - skip < limit then |s| - skip else limit
    ensures forall k :: 0 <= k < |r| ==> skip + k < |s| && r[k] == s[skip + k]
  {
    if skip >= |s| then []
    else if |s| - skip <= limit then s[skip..]
    else s[skip..skip + limit]
  }

  /** Primary-key uniqueness. */
  predicate UniqueKeys<T, K(==)>(s: seq<T>, key: T -> K) {
    forall i, j :: 0 <= i < j < |s| ==> key(s[i]) != key(s[j])
  }

  /** Every key is below `bound`: the next key handed out is fresh. */
  predicate KeysBelow<T>(s: seq<T>, key: T -> nat, bound: nat) {
    forall i :: 0 <= i < |s| ==> key(s[i]) < bound
  }

  /** With unique keys, the row `Find` returns is the only one carrying the key. */
  lemma FindIsOnly<T, K>(s: seq<T>, key: T -> K, k: K, i: nat)
    requires UniqueKeys(s, key)
    requires i < |s| && key(s[i]) == k
    ensures Find(s, key, k) == Some(i)
  {
  }

  /** Appending a row whose key is the current bound keeps the keys unique and below the next bound. */
  lemma AppendFresh<T>(s: seq<T>, key: T -> nat, bound: nat, x: T)
    requires UniqueKeys(s, key) && KeysBelow(s, key, bound)
    requires key(x) == bound
    ensures UniqueKeys(s + [x], key) && KeysBelow(s + [x], key, bound + 1)
  {
  }

  /** Appending an element whose key no element carries keeps keys unique. */
  lemma SnocUnique<T, K>(s: seq<T>, key: T -> K, x: T)
    requires UniqueKeys(s, key)
    requires forall y :: y in s ==> key(y) != key(x)
    ensures UniqueKeys(s + [x], key)
  {
    var s' := s + [x];
    forall i, j | 0 <= i < j < |s'| ensures key(s'[i]) != key(s'[j]) {
      if j == |s| {
        assert s'[i] == s[i] && s[i] in s;
      }
    }
  }

  /** A raised bound keeps keys below it. */
  lemma RaiseBound<T>(s: seq<T>, key: T -> nat, bound: nat, bound': nat)
    requires KeysBelow(s, key, bound) && bound <= bound'
    ensures KeysBelow(s, key, bound')
  {
  }

  /** Rewriting a row in place without changing keys keeps the key properties. */
  lemma SameKeys<T, K>(s: seq<T>, s': seq<T>, key: T -> K)
    requires |s| == |s'|
    requires forall i :: 0 <= i < |s| ==> key(s'[i]) == key(s[i])
    ensures UniqueKeys(s, key) ==> UniqueKeys(s', key)
  {
  }

  /** Deleting one row keeps keys unique and below the bound. */
  lemma RemoveKeepsKeys<T>(s: seq<T>, key: T -> nat, bound: nat, i: nat)
    requires i < |s|
    requires UniqueKeys(s, key) && KeysBelow(s, key, bound)
    ensures UniqueKeys(s[..i] + s[i + 1..], key) && KeysBelow(s[..i] + s[i + 1..], key, bound)
  {
    var r := s[..i] + s[i + 1..];
    forall a, b | 0 <= a < b < |r| ensures key(r[a]) != key(r[b]) {
      var a' := if a < i then a else a + 1;
      var b' := if b < i then b else b + 1;
      assert r[a] == s[a'] && r[b] == s[b'];
    }
    forall a | 0 <= a < |r| ensures key(r[a]) < bound {
      assert r[a] == s[if a < i then a else a + 1];
    }
  }

  /** With unique keys, every element occurs at most once. */
  lemma {:induction false} UniqueKeysNoRepeats<T, K>(s: seq<T>, key: T -> K)
    requires UniqueKeys(s, key)
    ensures forall x :: multiset(s)[x] <= 1
  {
    if |s| > 0 {
      var init, last := s[..|s| - 1], s[|s| - 1];
      assert s == init + [last];
      UniqueKeysNoRepeats(init, key);
      assert last !in init;
    }
  }

  /** An element found at two positions occurs at least twice. */
  lemma RepeatCounts<T>(s: seq<T>, i: nat, j: nat)
    requires i < j < |s| && s[i] == s[j]
    ensures multiset(s)[s[j]] >= 2
  {
    assert s == s[..j] + [s[j]] + s[j + 1..];
    assert s[i] in s[..j];
    assert multiset(s) == multiset(s[..j]) + multiset([s[j]]) + multiset(s[j + 1..]);
  }

  /** Reordering a sequence with unique keys keeps its keys unique. */
  lemma PermutationKeepsUniqueKeys<T, K>(s: seq<T>, s': seq<T>, key: T -> K)
    requires UniqueKeys(s, key) && multiset(s) == multiset(s')
    ensures UniqueKeys(s', key)
  {
    UniqueKeysNoRepeats(s, key);
    forall i, j | 0 <= i < j < |s'| ensures key(s'[i]) != key(s'[j]) {
      if s'[i] == s'[j] {
        RepeatCounts(s', i, j);
      }
      assert s'[i] in multiset(s) && s'[j] in multiset(s);
      var a :| 0 <= a < |s| && s[a] == s'[i];
      var b :| 0 <= b < |s| && s[b] == s'[j];
    }
  }
}
