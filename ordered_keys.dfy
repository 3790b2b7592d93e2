/**
  The ascending key walk of the int-keyed red-black tree that stages fetched
  pages: `Keys()` yields the keys of the tree in ascending order. The tree
  itself is a `map<int, V>`; this module gives its key sequence.
*/
module OrderedKeys {

  ghost predicate StrictlyIncreasing(s: seq<int>)
  {
    forall i, j :: 0 <= i < j < |s| ==> s[i] < s[j]
  }

  /** Every non-empty finite set of integers has a least element. */
  lemma {:induction false} MinExists(s: set<int>)
    requires s != {}
    ensures exists m :: m in s && forall k :: k in s ==> m <= k
    decreases |s|
  {
    if forall y :: y !in s {
      assert false;
    }
    var x :| x in s;
    var others := s - {x};
    if others == {} {
      assert s == {x};
      assert x in s && forall k :: k in s ==> x <= k;
    } else {
      MinExists(others);
      var m :| m in others && forall k :: k in others ==> m <= k;
      var least := if x < m then x else m;
      forall k | k in s
        ensures least <= k
      {
        if k != x {
          assert k in others;
        }
      }
      assert least in s && forall k :: k in s ==> least <= k;
    }
  }

  /** The least element of a non-empty finite set of integers. */
  ghost function Least(s: set<int>): (m: int)
    requires s != {}
    ensures m in s && forall k :: k in s ==> m <= k
  {
    MinExists(s);
    var m :| m in s && forall k :: k in s ==> m <= k;
    m
  }

  /**
    The keys of a tree holding the key set `s`, in ascending order: the least
    key, then the keys of the rest. SortedKeysIncreasing proves the order.
  */
  ghost function SortedKeys(s: set<int>): (r: seq<int>)
    ensures |r| == |s|
    ensures forall k :: k in r <==> k in s
    decreases |s|
  {
    if s == {} then []
    else
      var m := Least(s);
      var rest := SortedKeys(s - {m});
      assert |s - {m}| == |s| - 1;
      [m] + rest
  }

  /** The key walk is strictly ascending. */
  lemma {:induction false} SortedKeysIncreasing(s: set<int>)
    ensures StrictlyIncreasing(SortedKeys(s))
    decreases |s|
  {
    if s != {} {
      var m := Least(s);
      var rest := SortedKeys(s - {m});
      SortedKeysIncreasing(s - {m});
      forall i | 0 <= i < |rest|
        ensures m < rest[i]
      {
        assert rest[i] in rest;
      }
      IncreasingCons(m, rest);
    }
  }

  /** A key below every key of an ascending sequence can go in front of it. */
  lemma IncreasingCons(m: int, rest: seq<int>)
    requires StrictlyIncreasing(rest)
    requires forall i :: 0 <= i < |rest| ==> m < rest[i]
    ensures StrictlyIncreasing([m] + rest)
  {
    var r := [m] + rest;
    forall i, j | 0 <= i < j < |r|
      ensures r[i] < r[j]
    {
      assert r[j] == rest[j - 1];
      if i > 0 {
        assert r[i] == rest[i - 1];
      }
    }
  }

  /** A strictly increasing sequence is determined by the set of its elements. */
  lemma {:induction false} StrictlyIncreasingUnique(a: seq<int>, b: seq<int>)
    requires StrictlyIncreasing(a) && StrictlyIncreasing(b)
    requires forall k :: k in a <==> k in b
    ensures a == b
    decreases |a|
  {
    if a != [] {
      assert a[0] in a;
      assert a[0] in b;
    }
    if b != [] {
      assert b[0] in b;
      assert b[0] in a;
    }
    if a != [] {
      var i :| 0 <= i < |b| && b[i] == a[0];
      var j :| 0 <= j < |a| && a[j] == b[0];
      assert b[0] <= b[i];
      assert a[0] <= a[j];
      forall k
        ensures k in a[1..] <==> k in b[1..]
      {
        if k in a[1..] {
          var i :| 1 <= i < |a| && a[i] == k;
          assert k in b;
          assert k != b[0] by { assert a[0] < a[i]; }
        }
        if k in b[1..] {
          var i :| 1 <= i < |b| && b[i] == k;
          assert k in a;
          assert k != a[0] by { assert b[0] < b[i]; }
        }
      }
      StrictlyIncreasingUnique(a[1..], b[1..]);
      assert a == [a[0]] + a[1..];
      assert b == [b[0]] + b[1..];
    }
  }

  /** The page indices 1..n. */
  function PageRange(n: nat): (r: set<int>)
    ensures forall i :: i in r <==> 1 <= i <= n
  {
    if n == 0 then {} else PageRange(n - 1) + {n}
  }

  /** The sequence 1, 2, ..., n. */
  function IndexRange(n: nat): (r: seq<int>)
    ensures |r| == n
    ensures forall i :: 0 <= i < n ==> r[i] == i + 1
  {
    if n == 0 then [] else IndexRange(n - 1) + [n]
  }

  /** The keys 1..n come out of the tree as 1, 2, ..., n. */
  lemma KeysOfPageRange(n: nat)
    ensures SortedKeys(PageRange(n)) == IndexRange(n)
  {
    var want := IndexRange(n);
    forall k
      ensures k in want <==> k in PageRange(n)
    {
      if 1 <= k <= n {
        assert want[k - 1] == k;
      }
    }
    SortedKeysIncreasing(PageRange(n));
    StrictlyIncreasingUnique(SortedKeys(PageRange(n)), want);
  }
}
