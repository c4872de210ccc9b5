/** Sequence filtering: the shape of a SQL `WHERE` clause over a table kept in insertion order. */
module Seqs {

  /** The elements of `s` that satisfy `keep`, in their original order. */
  function Filter<T(!new)>(s: seq<T>, keep: T -> bool): (r: seq<T>)
    ensures |r| <= |s|
    ensures forall x :: x in r <==> x in s && keep(x)
    decreases |s|
  {
    if s == [] then []
    else if keep(s[0]) then [s[0]] + Filter(s[1..], keep)
    else Filter(s[1..], keep)
  }

  /** Filtering distributes over concatenation. */
  lemma {:induction false} FilterConcat<T(!new)>(a: seq<T>, b: seq<T>, keep: T -> bool)
    ensures Filter(a + b, keep) == Filter(a, keep) + Filter(b, keep)
    decreases |a|
  {
    if a != [] {
      assert (a + b)[1..] == a[1..] + b;
      FilterConcat(a[1..], b, keep);
    } else {
      assert a + b == b;
    }
  }

  /** Filtering a sequence extended by one element. */
  lemma FilterSnoc<T(!new)>(s: seq<T>, x: T, keep: T -> bool)
    ensures Filter(s + [x], keep) == Filter(s, keep) + (if keep(x) then [x] else [])
  {
    FilterConcat(s, [x], keep);
    assert Filter([x], keep) == (if keep(x) then [x] else []) by {
      assert [x][1..] == [];
    }
  }

  /** A filter that every element passes changes nothing. */
  lemma {:induction false} FilterKeepsAll<T(!new)>(s: seq<T>, keep: T -> bool)
    requires forall i :: 0 <= i < |s| ==> keep(s[i])
    ensures Filter(s, keep) == s
    decreases |s|
  {
    if s != [] {
      FilterKeepsAll(s[1..], keep);
    }
  }

  /** Two filters may be applied in either order. */
  lemma {:induction false} FilterCommutes<T(!new)>(s: seq<T>, p: T -> bool, q: T -> bool)
    ensures Filter(Filter(s, p), q) == Filter(Filter(s, q), p)
    decreases |s|
  {
    if s != [] {
      FilterCommutes(s[1..], p, q);
      FilterConcat([s[0]], s[1..], p);
      FilterConcat([s[0]], s[1..], q);
      assert s == [s[0]] + s[1..];
      var rest_pq := Filter(Filter(s[1..], p), q);
      if p(s[0]) {
        FilterConcat([s[0]], Filter(s[1..], p), q);
      }
      if q(s[0]) {
        FilterConcat([s[0]], Filter(s[1..], q), p);
      }
    }
  }

  /** Filtering out exactly the last element, when every other element passes, drops that element. */
  lemma {:induction false} FilterDropsLast<T(!new)>(s: seq<T>, keep: T -> bool)
    requires s != []
    requires forall i :: 0 <= i < |s| - 1 ==> keep(s[i])
    requires !keep(s[|s| - 1])
    ensures Filter(s, keep) == s[..|s| - 1]
    decreases |s|
  {
    if |s| > 1 {
      var rest := s[1..];
      assert forall i :: 0 <= i < |rest| - 1 ==> keep(rest[i]) by {
        forall i | 0 <= i < |rest| - 1 ensures keep(rest[i]) {
          assert rest[i] == s[i + 1];
        }
      }
      assert rest[|rest| - 1] == s[|s| - 1];
      FilterDropsLast(rest, keep);
      assert [s[0]] + rest[..|rest| - 1] == s[..|s| - 1];
    }
  }

  /** `m` is an element of `s` passing `keep` whose `time` is greatest among those that pass. */
  ghost predicate IsLatestBy<T(!new)>(s: seq<T>, keep: T -> bool, time: T -> int, m: T) {
    && m in s
    && keep(m)
    && forall x :: x in s && keep(x) ==> time(x) <= time(m)
  }

  /** `time` strictly increases along `s`. */
  predicate StrictlyIncreasing<T>(s: seq<T>, time: T -> int) {
    forall i, j :: 0 <= i < j < |s| ==> time(s[i]) < time(s[j])
  }

  /** When some element passes `keep`, one of them has the greatest `time`. */
  lemma {:induction false} LatestByExists<T(!new)>(s: seq<T>, keep: T -> bool, time: T -> int)
    requires Filter(s, keep) != []
    ensures exists m :: IsLatestBy(s, keep, time, m)
    decreases |s|
  {
    var head, rest := s[0], s[1..];
    assert s == [head] + rest;
    if Filter(rest, keep) == [] {
      var w := Filter(s, keep)[0];
      assert w in s && keep(w);
      assert w !in rest;
      assert IsLatestBy(s, keep, time, head);
    } else {
      LatestByExists(rest, keep, time);
      var m :| IsLatestBy(rest, keep, time, m);
      if keep(head) && time(head) > time(m) {
        assert IsLatestBy(s, keep, time, head);
      } else {
        assert IsLatestBy(s, keep, time, m);
      }
    }
  }

  /**
   * When `time` strictly increases along the elements that pass `keep`, an
   * element has the greatest `time` exactly when it is the last of them.
   */
  lemma LatestByIsLast<T(!new)>(s: seq<T>, keep: T -> bool, time: T -> int, m: T)
    requires StrictlyIncreasing(Filter(s, keep), time)
    ensures IsLatestBy(s, keep, time, m) <==>
      (var f := Filter(s, keep); f != [] && m == f[|f| - 1])
  {
    var f := Filter(s, keep);
    if IsLatestBy(s, keep, time, m) {
      assert m in f;
      var i :| 0 <= i < |f| && f[i] == m;
      var last := f[|f| - 1];
      assert last in s && keep(last);
    }
    if f != [] && m == f[|f| - 1] {
      assert m in f;
      forall x | x in s && keep(x) ensures time(x) <= time(m) {
        assert x in f;
        var i :| 0 <= i < |f| && f[i] == x;
        if i < |f| - 1 {
          assert time(f[i]) < time(f[|f| - 1]);
        }
      }
    }
  }

  /** No two positions of `s` share a key (a primary-key constraint). */
  predicate DistinctKeys<T, K(==)>(s: seq<T>, key: T -> K) {
    forall i, j :: 0 <= i < j < |s| ==> key(s[i]) != key(s[j])
  }

  /** Under distinct keys, a key identifies one element. */
  lemma DistinctKeysIdentify<T(!new), K>(s: seq<T>, key: T -> K, x: T, y: T)
    requires DistinctKeys(s, key)
    requires x in s && y in s && key(x) == key(y)
    ensures x == y
  {
    var i :| 0 <= i < |s| && s[i] == x;
    var j :| 0 <= j < |s| && s[j] == y;
    assert key(s[i]) == key(s[j]);
  }

  /** Removing elements never makes two keys collide. */
  lemma {:induction false} FilterKeepsDistinctKeys<T(!new), K>(s: seq<T>, keep: T -> bool, key: T -> K)
    requires DistinctKeys(s, key)
    ensures DistinctKeys(Filter(s, keep), key)
    decreases |s|
  {
    if s != [] {
      var rest := s[1..];
      assert DistinctKeys(rest, key) by {
        forall i, j | 0 <= i < j < |rest| ensures key(rest[i]) != key(rest[j]) {
          assert rest[i] == s[i + 1] && rest[j] == s[j + 1];
        }
      }
      FilterKeepsDistinctKeys(rest, keep, key);
      if keep(s[0]) {
        var f := Filter(rest, keep);
        var r := [s[0]] + f;
        forall i, j | 0 <= i < j < |r| ensures key(r[i]) != key(r[j]) {
          if i == 0 {
            assert r[j] == f[j - 1] && r[j] in rest;
            var k :| 0 <= k < |rest| && rest[k] == r[j];
            assert s[k + 1] == r[j];
          } else {
            assert r[i] == f[i - 1] && r[j] == f[j - 1];
          }
        }
      }
    }
  }
}
