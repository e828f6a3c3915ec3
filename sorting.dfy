/** The ordering tools the dashboard relies on: a stable sort under a total
    preorder (pandas' multi-key sort_values), the ascending list of distinct
    keys (the key order of groupby), and cardinality facts about them. */
module Sorting {

  /** `le` is total and transitive: a key order in which ties are allowed. */
  ghost predicate TotalPreorder<T(!new)>(le: (T, T) -> bool) {
    && (forall a, b :: le(a, b) || le(b, a))
    && (forall a, b, c :: le(a, b) && le(b, c) ==> le(a, c))
  }

  ghost predicate SortedBy<T>(s: seq<T>, le: (T, T) -> bool) {
    forall i, j :: 0 <= i < j < |s| ==> le(s[i], s[j])
  }

  /** Puts `x` after every element of `s` that is not strictly after it,
      so that an element inserted later stays behind its equals. */
  function Insert<T>(x: T, s: seq<T>, le: (T, T) -> bool): (r: seq<T>)
    ensures multiset(r) == multiset(s) + multiset{x}
    ensures |r| == |s| + 1
  {
    if s == [] then [x]
    else if le(s[0], x) then
      assert s == [s[0]] + s[1..];
      [s[0]] + Insert(x, s[1..], le)
    else [x] + s
  }

  lemma {:induction false} InsertSorted<T(!new)>(x: T, s: seq<T>, le: (T, T) -> bool)
    requires TotalPreorder(le) && SortedBy(s, le)
    ensures SortedBy(Insert(x, s, le), le)
  {
    if s == [] {
    } else if le(s[0], x) {
      var tail := Insert(x, s[1..], le);
      InsertSorted(x, s[1..], le);
      forall k | 0 <= k < |tail| ensures le(s[0], tail[k]) {
        assert tail[k] in multiset(tail);
        assert tail[k] in multiset(s[1..]) || tail[k] == x;
        if tail[k] != x {
          var m :| 1 <= m < |s| && s[m] == tail[k] by {
            assert tail[k] in s[1..];
          }
        }
      }
      assert Insert(x, s, le) == [s[0]] + tail;
    } else {
      assert le(x, s[0]);
      forall k | 0 <= k < |s| ensures le(x, s[k]) {
        if k > 0 { assert le(s[0], s[k]); }
      }
    }
  }

  /** Stable insertion sort: the elements of `s` in `le` order, equal
      elements keeping their order in `s`. */
  function Sort<T>(s: seq<T>, le: (T, T) -> bool): (r: seq<T>)
    ensures multiset(r) == multiset(s)
    ensures |r| == |s|
  {
    if s == [] then []
    else
      assert s == s[..|s| - 1] + [s[|s| - 1]];
      Insert(s[|s| - 1], Sort(s[..|s| - 1], le), le)
  }

  /** The sort orders its input and keeps exactly its elements. */
  lemma {:induction false} SortCorrect<T(!new)>(s: seq<T>, le: (T, T) -> bool)
    requires TotalPreorder(le)
    ensures SortedBy(Sort(s, le), le)
    ensures multiset(Sort(s, le)) == multiset(s)
  {
    if s != [] {
      SortCorrect(s[..|s| - 1], le);
      InsertSorted(s[|s| - 1], Sort(s[..|s| - 1], le), le);
    }
  }

  ghost predicate StrictlyIncreasing(s: seq<int>) {
    forall i, j :: 0 <= i < j < |s| ==> s[i] < s[j]
  }

  /** Adds `x` to a strictly increasing list unless it is already there. */
  function InsertDistinct(x: int, s: seq<int>): (r: seq<int>)
    requires StrictlyIncreasing(s)
    ensures StrictlyIncreasing(r)
    ensures forall y :: y in r <==> y in s || y == x
  {
    if s == [] then [x]
    else if x < s[0] then [x] + s
    else if x == s[0] then s
    else
      var tail := InsertDistinct(x, s[1..]);
      assert forall k :: 0 <= k < |tail| ==> s[0] < tail[k] by {
        forall k | 0 <= k < |tail| ensures s[0] < tail[k] {
          assert tail[k] in tail;
        }
      }
      [s[0]] + tail
  }

  /** The distinct values of `xs` in ascending order: the keys of a pandas
      groupby, which sorts them. */
  function SortedDistinct(xs: seq<int>): (r: seq<int>)
    ensures StrictlyIncreasing(r)
    ensures forall y :: y in r <==> y in xs
  {
    if xs == [] then []
    else InsertDistinct(xs[|xs| - 1], SortedDistinct(xs[..|xs| - 1]))
  }

  /** A strictly increasing list has as many elements as its set. */
  lemma {:induction false} IncreasingCard(s: seq<int>)
    requires StrictlyIncreasing(s)
    ensures |set x | x in s| == |s|
  {
    if s != [] {
      IncreasingCard(s[1..]);
      assert (set x | x in s) == (set x | x in s[1..]) + {s[0]};
      assert s[0] !in (set x | x in s[1..]);
    }
  }

  /** The integers lo .. hi - 1. */
  function Interval(lo: int, hi: int): (r: set<int>)
    ensures forall p :: p in r <==> lo <= p < hi
    ensures lo <= hi ==> |r| == hi - lo
    decreases hi - lo
  {
    if hi <= lo then {} else Interval(lo, hi - 1) + {hi - 1}
  }

  /** Some member of a non-empty set. */
  lemma Pick<T>(s: set<T>) returns (x: T)
    requires s != {}
    ensures x in s
  {
    x :| x in s;
  }

  /** A subset as large as a finite set is the whole set. */
  lemma SubsetFull<T>(a: set<T>, b: set<T>)
    requires a <= b && |a| == |b|
    ensures a == b
  {
    if a != b {
      assert b - a != {} by {
        if b - a == {} {
          forall y | y in b ensures y in a { assert y !in b - a; }
        }
      }
      var x :| x in b - a;
      assert a <= b - {x};
      assert |b - {x}| == |b| - 1;
      SubsetCard(a, b - {x});
    }
  }

  lemma SubsetCard<T>(a: set<T>, b: set<T>)
    requires a <= b
    ensures |a| <= |b|
  {
    assert b == a + (b - a);
  }

  /** No two elements share a key. */
  ghost predicate KeysDistinct<T, K>(s: seq<T>, key: T -> K) {
    forall i, j :: 0 <= i < j < |s| ==> key(s[i]) != key(s[j])
  }

  /** No element occurs twice: each element is its own key. */
  ghost predicate Distinct<T>(s: seq<T>) {
    KeysDistinct(s, x => x)
  }

  /** Appending elements whose keys are new keeps the keys distinct. */
  lemma KeysDistinctAppend<T, K>(a: seq<T>, b: seq<T>, key: T -> K)
    requires KeysDistinct(a, key) && KeysDistinct(b, key)
    requires forall i, j :: 0 <= i < |a| && 0 <= j < |b| ==> key(a[i]) != key(b[j])
    ensures KeysDistinct(a + b, key)
  {
    forall i, j | 0 <= i < j < |a + b| ensures key((a + b)[i]) != key((a + b)[j]) {
      if j < |a| {
      } else if i < |a| {
        assert (a + b)[j] == b[j - |a|];
      } else {
        assert (a + b)[i] == b[i - |a|] && (a + b)[j] == b[j - |a|];
      }
    }
  }

  /** Removing one position removes one copy of its element. */
  lemma RemoveAtMultiset<T>(b: seq<T>, m: nat)
    requires m < |b|
    ensures multiset(b[..m] + b[m + 1..]) == multiset(b) - multiset{b[m]}
  {
    assert b == b[..m] + [b[m]] + b[m + 1..];
    assert multiset(b) == multiset(b[..m]) + multiset{b[m]} + multiset(b[m + 1..]);
  }

  /** Inserting an element whose key is new into a sequence of distinct
      keys keeps them distinct. */
  lemma InsertAtKeysDistinct<T, K>(b: seq<T>, m: nat, key: T -> K)
    requires m < |b|
    requires KeysDistinct(b[..m] + b[m + 1..], key)
    requires forall k :: 0 <= k < |b| && k != m ==> key(b[k]) != key(b[m])
    ensures KeysDistinct(b, key)
  {
    var others := b[..m] + b[m + 1..];
    forall i, j | 0 <= i < j < |b| ensures key(b[i]) != key(b[j]) {
      if i != m && j != m {
        if j < m {
          assert b[i] == others[i] && b[j] == others[j];
        } else if i < m {
          assert b[i] == others[i] && b[j] == others[j - 1];
        } else {
          assert b[i] == others[i - 1] && b[j] == others[j - 1];
        }
      }
    }
  }

  /** In a reordering of `a`, the copy of `a`'s last element shares its key
      with no other element. */
  lemma LastKeyFresh<T, K>(a: seq<T>, b: seq<T>, m: nat, key: T -> K)
    requires multiset(a) == multiset(b) && KeysDistinct(a, key)
    requires 0 < |a| && m < |b| && b[m] == a[|a| - 1]
    ensures forall k :: 0 <= k < |b| && k != m ==> key(b[k]) != key(b[m])
  {
    var rest := a[..|a| - 1];
    var others := b[..m] + b[m + 1..];
    RemoveAtMultiset(b, m);
    RemoveAtMultiset(a, |a| - 1);
    assert a[..|a| - 1] + a[|a|..] == rest;
    forall k | 0 <= k < |b| && k != m ensures key(b[k]) != key(b[m]) {
      var o := if k < m then k else k - 1;
      assert b[k] == others[o];
      assert b[k] in multiset(rest);
      var p :| 0 <= p < |rest| && rest[p] == b[k];
      assert a[p] == rest[p];
    }
  }

  /** Reordering a sequence keeps its keys distinct. */
  lemma {:induction false} PermutationKeepsKeysDistinct<T, K>(a: seq<T>, b: seq<T>, key: T -> K)
    requires multiset(a) == multiset(b)
    requires KeysDistinct(a, key)
    ensures KeysDistinct(b, key)
    decreases |a|
  {
    if |a| > 0 {
      var x := a[|a| - 1];
      assert x in multiset(a);
      var m :| 0 <= m < |b| && b[m] == x;
      RemoveMatched(a, b, m, key);
      PermutationKeepsKeysDistinct(a[..|a| - 1], b[..m] + b[m + 1..], key);
      LastKeyFresh(a, b, m, key);
      InsertAtKeysDistinct(b, m, key);
    }
  }

  /** Taking the last element of `a` and its match at `m` in `b` out of two
      reorderings of each other leaves two reorderings of each other. */
  lemma RemoveMatched<T, K>(a: seq<T>, b: seq<T>, m: nat, key: T -> K)
    requires multiset(a) == multiset(b) && KeysDistinct(a, key)
    requires 0 < |a| && m < |b| && b[m] == a[|a| - 1]
    ensures multiset(a[..|a| - 1]) == multiset(b[..m] + b[m + 1..])
    ensures KeysDistinct(a[..|a| - 1], key)
  {
    var x := b[m];
    RemoveAtMultiset(b, m);
    assert a == a[..|a| - 1] + [x];
    assert multiset(a[..|a| - 1]) == multiset(a) - multiset{x};
    PrefixKeysDistinct(a, |a| - 1, key);
  }

  lemma PrefixKeysDistinct<T, K>(a: seq<T>, n: nat, key: T -> K)
    requires KeysDistinct(a, key) && n <= |a|
    ensures KeysDistinct(a[..n], key)
  {
    assert forall i :: 0 <= i < n ==> a[..n][i] == a[i];
  }
}
