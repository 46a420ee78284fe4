/** Sequence operations that stand for the query clauses of the store:
    `filter`, `order_by`, `offset`, `limit` and Python's `list.reverse()`. */
module Seqs {

  /** The elements of `s` that satisfy `p`, in their original order (a SQL `WHERE`). */
  function Filter<T>(s: seq<T>, p: T -> bool): (r: seq<T>)
    ensures |r| <= |s|
    ensures forall i :: 0 <= i < |r| ==> p(r[i])
  {
    if s == [] then []
    else
      assert s == [s[0]] + s[1..];
      (if p(s[0]) then [s[0]] else []) + Filter(s[1..], p)
  }

  lemma {:induction false} FilterAppend<T>(a: seq<T>, b: seq<T>, p: T -> bool)
    ensures Filter(a + b, p) == Filter(a, p) + Filter(b, p)
  {
    if a == [] {
      assert a + b == b;
    } else {
      assert (a + b)[1..] == a[1..] + b;
      FilterAppend(a[1..], b, p);
    }
  }

  /** Filtering keeps every element that satisfies `p`, with its multiplicity. */
  lemma {:induction false} FilterMultiset<T>(s: seq<T>, p: T -> bool)
    ensures forall x :: p(x) ==> multiset(Filter(s, p))[x] == multiset(s)[x]
    ensures forall x :: !p(x) ==> multiset(Filter(s, p))[x] == 0
  {
    if s != [] {
      assert s == [s[0]] + s[1..];
      FilterMultiset(s[1..], p);
    }
  }

  /** An element is kept exactly when it occurs in `s` and satisfies `p`. */
  lemma FilterMembers<T>(s: seq<T>, p: T -> bool)
    ensures forall x :: x in Filter(s, p) <==> x in s && p(x)
  {
    FilterMultiset(s, p);
    assert forall x :: x in Filter(s, p) <==> multiset(Filter(s, p))[x] > 0;
  }

  /** A second filter whose condition implies the first adds nothing to the first. */
  lemma {:induction false} FilterFilterWeaker<T>(s: seq<T>, p: T -> bool, q: T -> bool)
    requires forall x :: q(x) ==> p(x)
    ensures Filter(Filter(s, p), q) == Filter(s, q)
  {
    if s != [] {
      var head, tail := s[0], s[1..];
      FilterFilterWeaker(tail, p, q);
      if p(head) {
        calc {
          Filter(Filter(s, p), q);
          Filter([head] + Filter(tail, p), q);
          { FilterAppend([head], Filter(tail, p), q); }
          Filter([head], q) + Filter(Filter(tail, p), q);
        }
        assert [head][1..] == [];
      } else {
        assert Filter(s, p) == Filter(tail, p);
      }
    }
  }

  /** A second filter whose condition contradicts the first keeps nothing. */
  lemma {:induction false} FilterFilterDisjoint<T>(s: seq<T>, p: T -> bool, q: T -> bool)
    requires forall x :: p(x) ==> !q(x)
    ensures Filter(Filter(s, p), q) == []
  {
    if s != [] {
      var head, tail := s[0], s[1..];
      FilterFilterDisjoint(tail, p, q);
      if p(head) {
        FilterAppend([head], Filter(tail, p), q);
        assert [head][1..] == [];
        assert Filter([head], q) == [];
      } else {
        assert Filter(s, p) == Filter(tail, p);
      }
    }
  }

  /** Every element of `s` has a key no larger than the one after it. */
  ghost predicate SortedBy<T>(s: seq<T>, key: T -> int) {
    forall i, j :: 0 <= i < j < |s| ==> key(s[i]) <= key(s[j])
  }

  /** Putting a key no larger than all others in front keeps a sequence sorted. */
  lemma SortedCons<T>(x: T, s: seq<T>, key: T -> int)
    requires SortedBy(s, key)
    requires forall i :: 0 <= i < |s| ==> key(x) <= key(s[i])
    ensures SortedBy([x] + s, key)
  {
    var r := [x] + s;
    forall i, j | 0 <= i < j < |r|
      ensures key(r[i]) <= key(r[j])
    {
      assert r[j] == s[j - 1];
      if i > 0 {
        assert r[i] == s[i - 1];
      }
    }
  }

  /** Inserts `x` before the first element whose key is at least `key(x)`. */
  function Insert<T>(x: T, s: seq<T>, key: T -> int): (r: seq<T>)
    ensures |r| == |s| + 1
    ensures multiset(r) == multiset(s) + multiset{x}
  {
    if s == [] then [x]
    else if key(x) <= key(s[0]) then [x] + s
    else
      assert s == [s[0]] + s[1..];
      [s[0]] + Insert(x, s[1..], key)
  }

  /** Inserting into a sorted sequence keeps it sorted. */
  lemma {:induction false} InsertSorted<T>(x: T, s: seq<T>, key: T -> int)
    requires SortedBy(s, key)
    ensures SortedBy(Insert(x, s, key), key)
  {
    if s == [] {
    } else if key(x) <= key(s[0]) {
      SortedCons(x, s, key);
    } else {
      var tail := s[1..];
      assert SortedBy(tail, key) by {
        assert forall i :: 0 <= i < |tail| ==> tail[i] == s[i + 1];
      }
      InsertSorted(x, tail, key);
      var rest := Insert(x, tail, key);
      forall i | 0 <= i < |rest|
        ensures key(s[0]) <= key(rest[i])
      {
        assert rest[i] in multiset(rest);
        if rest[i] != x {
          assert rest[i] in tail;
          var j :| 0 <= j < |tail| && tail[j] == rest[i];
          assert tail[j] == s[j + 1];
        }
      }
      SortedCons(s[0], rest, key);
    }
  }

  /** Stable insertion sort by ascending key (an SQL `ORDER BY key ASC`; ties stay in input order). */
  function SortBy<T>(s: seq<T>, key: T -> int): (r: seq<T>)
    ensures SortedBy(r, key)
    ensures |r| == |s|
    ensures multiset(r) == multiset(s)
  {
    if s == [] then []
    else
      assert s == [s[0]] + s[1..];
      var rest := SortBy(s[1..], key);
      InsertSorted(s[0], rest, key);
      Insert(s[0], rest, key)
  }

  /** The first `n` elements, or all of them when there are fewer (SQL `LIMIT n`). */
  function Take<T>(s: seq<T>, n: nat): (r: seq<T>)
    ensures |r| == if n < |s| then n else |s|
    ensures r == s[..|r|]
  {
    if n < |s| then s[..n] else s
  }

  /** All but the first `n` elements, or none when there are fewer (SQL `OFFSET n`). */
  function Drop<T>(s: seq<T>, n: nat): (r: seq<T>)
    ensures |r| == if n < |s| then |s| - n else 0
    ensures r == s[|s| - |r|..]
  {
    if n < |s| then s[n..] else []
  }

  /** Python's `list.reverse()`, as a value. */
  function Reverse<T>(s: seq<T>): (r: seq<T>)
    ensures |r| == |s|
    ensures forall k :: 0 <= k < |s| ==> r[k] == s[|s| - 1 - k]
    ensures multiset(r) == multiset(s)
  {
    if s == [] then []
    else
      assert s == [s[0]] + s[1..];
      Reverse(s[1..]) + [s[0]]
  }

  lemma SortByMembers<T>(s: seq<T>, key: T -> int)
    ensures forall x :: x in SortBy(s, key) <==> x in s
  {
    assert forall x :: x in SortBy(s, key) <==> x in multiset(SortBy(s, key));
  }

  lemma ReverseMembers<T>(s: seq<T>)
    ensures forall x :: x in Reverse(s) <==> x in s
  {
    assert forall x :: x in Reverse(s) <==> x in multiset(Reverse(s));
  }

  lemma TakeMultiset<T>(s: seq<T>, n: nat)
    ensures multiset(Take(s, n)) <= multiset(s)
  {
    var k := Take(s, n);
    assert s == k + s[|k|..];
    assert multiset(s) == multiset(k) + multiset(s[|k|..]);
  }

  /** A page (`OFFSET` then `LIMIT`) of a sorted sequence is sorted and drawn from it. */
  lemma WindowOfSorted<T>(s: seq<T>, key: T -> int, offset: nat, limit: nat)
    requires SortedBy(s, key)
    ensures SortedBy(Take(Drop(s, offset), limit), key)
    ensures forall x :: x in Take(Drop(s, offset), limit) ==> x in s
    ensures multiset(Take(Drop(s, offset), limit)) <= multiset(s)
    ensures offset == 0 ==> Take(Drop(s, offset), limit) == Take(s, limit)
    ensures offset == 0 && limit >= |s| ==> Take(Drop(s, offset), limit) == s
  {
    var d := Drop(s, offset);
    var r := Take(d, limit);
    var base := |s| - |d|;
    assert s == s[..base] + d;
    assert multiset(s) == multiset(s[..base]) + multiset(d);
    TakeMultiset(d, limit);
    assert forall i :: 0 <= i < |r| ==> r[i] == s[base + i];
    forall i, j | 0 <= i < j < |r|
      ensures key(r[i]) <= key(r[j])
    {
      assert key(s[base + i]) <= key(s[base + j]);
    }
  }

  /** In a sorted sequence, an element of which the first `n` hold fewer copies
      than the whole has a key no smaller than any of those `n`. */
  lemma TakeOfSortedIsLeast<T>(d: seq<T>, key: T -> int, n: nat, t: T)
    requires SortedBy(d, key)
    requires multiset(Take(d, n))[t] < multiset(d)[t]
    ensures forall u :: u in Take(d, n) ==> key(u) <= key(t)
  {
    var k := Take(d, n);
    var rest := d[|k|..];
    assert d == k + rest;
    assert multiset(d) == multiset(k) + multiset(rest);
    assert t in multiset(rest);
    var j :| 0 <= j < |rest| && rest[j] == t;
    assert d[|k| + j] == t;
    forall u | u in k
      ensures key(u) <= key(t)
    {
      var i :| 0 <= i < |k| && k[i] == u;
      assert d[i] == u;
    }
  }

  /** Sorting a filtered sequence keeps exactly the elements satisfying `p`, each as often as in `s`. */
  lemma SortedFilterCounts<T>(s: seq<T>, p: T -> bool, key: T -> int)
    ensures forall x :: x in SortBy(Filter(s, p), key) <==> x in s && p(x)
    ensures forall x :: multiset(SortBy(Filter(s, p), key))[x] == if p(x) then multiset(s)[x] else 0
  {
    FilterMembers(s, p);
    FilterMultiset(s, p);
    SortByMembers(Filter(s, p), key);
  }
}
