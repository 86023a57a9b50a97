/**
  The JavaScript array operations the router and the tables are written with:
  `filter`, `map`, `indexOf`, the `indexOf(x) === i` de-duplication idiom and
  `splice(i, 1)`, as functions on sequences with their meaning proved.
 */
module Seqs {
  import opened Wrappers

  /** `s.filter(p)`: the elements of `s` that satisfy `p`, in their order. */
  function Filter<T(!new)>(p: T -> bool, s: seq<T>): (r: seq<T>)
    ensures |r| <= |s|
    ensures forall x :: x in r <==> x in s && p(x)
    ensures forall x {:trigger multiset(r)[x]} :: multiset(r)[x] == if p(x) then multiset(s)[x] else 0
    ensures forall i :: 0 <= i < |r| ==> p(r[i])
    ensures r == [] <==> forall x :: x in s ==> !p(x)
    decreases |s|
  {
    if |s| == 0 then []
    else
      assert s == [s[0]] + s[1..];
      if p(s[0]) then [s[0]] + Filter(p, s[1..])
      else Filter(p, s[1..])
  }

  /** Filtering a concatenation filters each part and keeps the parts in their order. */
  lemma {:induction false} FilterAppend<T(!new)>(p: T -> bool, a: seq<T>, b: seq<T>)
    ensures Filter(p, a + b) == Filter(p, a) + Filter(p, b)
    decreases |a|
  {
    if |a| == 0 {
      assert a + b == b;
    } else {
      assert (a + b)[1..] == a[1..] + b;
      FilterAppend(p, a[1..], b);
    }
  }

  /** `s.map(f)`. */
  function Map<T(!new), U(!new)>(f: T -> U, s: seq<T>): (r: seq<U>)
    ensures |r| == |s|
    ensures forall i :: 0 <= i < |s| ==> r[i] == f(s[i])
    ensures forall x :: x in s ==> f(x) in r
    ensures forall y :: y in r ==> exists x :: x in s && f(x) == y
    decreases |s|
  {
    if |s| == 0 then [] else [f(s[0])] + Map(f, s[1..])
  }

  /** `s.find(p)`, or a lookup by unique key: the first element satisfying `p`, if any. */
  function FindFirst<T(!new)>(p: T -> bool, s: seq<T>): (r: Option<T>)
    ensures r.None? <==> forall x :: x in s ==> !p(x)
    ensures r.Some? ==> r.value in s && p(r.value)
    decreases |s|
  {
    if |s| == 0 then None
    else if p(s[0]) then Some(s[0])
    else FindFirst(p, s[1..])
  }

  /** No element occurs twice. */
  ghost predicate Distinct<T>(s: seq<T>) {
    forall i, j :: 0 <= i < j < |s| ==> s[i] != s[j]
  }

  /** `s.indexOf(x)`: the first position of `x`, or -1 when it does not occur. */
  function IndexOf<T(==)>(s: seq<T>, x: T): (r: int)
    ensures r == -1 <==> x !in s
    ensures r != -1 ==> 0 <= r < |s| && s[r] == x && x !in s[..r]
    decreases |s|
  {
    if |s| == 0 then -1
    else if s[0] == x then 0
    else
      var k := IndexOf(s[1..], x);
      if k == -1 then -1
      else
        assert s[..k + 1] == [s[0]] + s[1..][..k];
        k + 1
  }

  /** `s.filter((x, i) => s.indexOf(x) === i)` restricted to the first `k` positions. */
  function FirstOccurrences<T(==,!new)>(s: seq<T>, k: nat): (r: seq<T>)
    requires k <= |s|
    ensures forall x :: x in r <==> x in s[..k]
    ensures Distinct(r)
    decreases k
  {
    if k == 0 then []
    else
      var prev := FirstOccurrences(s, k - 1);
      assert s[..k] == s[..k - 1] + [s[k - 1]];
      if IndexOf(s, s[k - 1]) == k - 1 then
        assert s[..k - 1] == s[..IndexOf(s, s[k - 1])];
        prev + [s[k - 1]]
      else
        assert s[k - 1] in s[..k - 1] by {
          var j := IndexOf(s, s[k - 1]);
          assert 0 <= j < k - 1 && s[j] == s[k - 1];
          assert s[..k - 1][j] == s[k - 1];
        }
        prev
  }

  /** `s.filter((x, i) => s.indexOf(x) === i)`: every value once, at its first position. */
  function Dedupe<T(==,!new)>(s: seq<T>): (r: seq<T>)
    ensures forall x :: x in r <==> x in s
    ensures Distinct(r)
  {
    assert s[..|s|] == s;
    FirstOccurrences(s, |s|)
  }

  /** `s.splice(i, 1)`: the element at `i` is gone, the others keep their order. */
  function RemoveAt<T>(s: seq<T>, i: nat): (r: seq<T>)
    requires i < |s|
    ensures |r| == |s| - 1
    ensures forall j :: 0 <= j < i ==> r[j] == s[j]
    ensures forall j :: i <= j < |r| ==> r[j] == s[j + 1]
  {
    s[..i] + s[i + 1..]
  }

  /** Two filters over one sequence agree when their predicates agree on its elements. */
  lemma {:induction false} FilterCongruence<T(!new)>(p: T -> bool, q: T -> bool, s: seq<T>)
    requires forall x :: x in s ==> p(x) == q(x)
    ensures Filter(p, s) == Filter(q, s)
    decreases |s|
  {
    if |s| > 0 {
      FilterCongruence(p, q, s[1..]);
    }
  }

  /** The tail of a duplicate-free sequence is duplicate-free and does not hold its head. */
  lemma DistinctUncons<K>(ks: seq<K>)
    requires |ks| > 0
    requires Distinct(ks)
    ensures Distinct(ks[1..])
    ensures ks[0] !in ks[1..]
  {
    forall i, j | 0 <= i < j < |ks[1..]|
      ensures ks[1..][i] != ks[1..][j]
    {
      assert ks[i + 1] != ks[j + 1];
    }
    forall j | 0 <= j < |ks[1..]|
      ensures ks[1..][j] != ks[0]
    {
      assert ks[0] != ks[j + 1];
    }
  }

  /** Putting a new key in front of a duplicate-free column keeps it duplicate-free. */
  lemma DistinctCons<K>(k: K, ks: seq<K>)
    requires Distinct(ks)
    requires k !in ks
    ensures Distinct([k] + ks)
  {
    forall i, j | 0 <= i < j < |[k] + ks|
      ensures ([k] + ks)[i] != ([k] + ks)[j]
    {
      if i == 0 {
        assert ks[j - 1] in ks;
      } else {
        assert ([k] + ks)[i] == ks[i - 1] && ([k] + ks)[j] == ks[j - 1];
      }
    }
  }

  /** Appending a new key to a duplicate-free column keeps it duplicate-free. */
  lemma DistinctSnoc<K>(ks: seq<K>, k: K)
    requires Distinct(ks)
    requires k !in ks
    ensures Distinct(ks + [k])
  {
    forall i, j | 0 <= i < j < |ks + [k]|
      ensures (ks + [k])[i] != (ks + [k])[j]
    {
      if j == |ks| {
        assert ks[i] in ks;
      } else {
        assert (ks + [k])[i] == ks[i] && (ks + [k])[j] == ks[j];
      }
    }
  }

  /** Filtering rows whose keys are distinct leaves rows whose keys are distinct. */
  lemma {:induction false} FilterKeepsKeysDistinct<T(!new), K(!new)>(key: T -> K, p: T -> bool, s: seq<T>)
    requires Distinct(Map(key, s))
    ensures Distinct(Map(key, Filter(p, s)))
    decreases |s|
  {
    if |s| > 0 {
      var tail := s[1..];
      assert Map(key, s) == [key(s[0])] + Map(key, tail);
      assert Map(key, s)[1..] == Map(key, tail);
      DistinctUncons(Map(key, s));
      FilterKeepsKeysDistinct(key, p, tail);
      if p(s[0]) {
        var rest := Filter(p, tail);
        assert Filter(p, s) == [s[0]] + rest;
        assert ([s[0]] + rest)[1..] == rest;
        assert key(s[0]) !in Map(key, rest);
        DistinctCons(key(s[0]), Map(key, rest));
      }
    }
  }
}
