/**
 * `Array.prototype.filter` and the stable `Array.prototype.sort` used by the
 * views, with the facts the views' properties rest on.
 */
module Seqs {
  import opened Wrappers

  /** `s.filter(p)`: the elements of `s` that satisfy `p`, in their order in `s`. */
  function Filter<T>(s: seq<T>, p: T -> bool): (r: seq<T>)
    ensures |r| <= |s|
    ensures forall i :: 0 <= i < |r| ==> r[i] in s && p(r[i])
    ensures forall i :: 0 <= i < |s| && p(s[i]) ==> s[i] in r
    decreases |s|
  {
    if s == [] then []
    else Filter(s[..|s| - 1], p) + (if p(s[|s| - 1]) then [s[|s| - 1]] else [])
  }

  /** Filtering distributes over concatenation, so the relative order of kept elements never changes. */
  lemma {:induction false} FilterAppend<T>(a: seq<T>, b: seq<T>, p: T -> bool)
    ensures Filter(a + b, p) == Filter(a, p) + Filter(b, p)
    decreases |b|
  {
    if b == [] {
      assert a + b == a;
    } else {
      var b' := b[..|b| - 1];
      assert (a + b)[..|a + b| - 1] == a + b';
      FilterAppend(a, b', p);
    }
  }

  /** A filter that rejects nothing gives back the whole sequence. */
  lemma {:induction false} FilterKeepsAll<T>(s: seq<T>, p: T -> bool)
    requires forall i :: 0 <= i < |s| ==> p(s[i])
    ensures Filter(s, p) == s
    decreases |s|
  {
    if s != [] {
      FilterKeepsAll(s[..|s| - 1], p);
      assert s[..|s| - 1] + [s[|s| - 1]] == s;
    }
  }

  /** The conjunction of two conditions. */
  function Both<T>(p: T -> bool, q: T -> bool): T -> bool {
    x => p(x) && q(x)
  }

  /** Filtering a filtered sequence is filtering once by both conditions. */
  lemma {:induction false} FilterFilter<T>(s: seq<T>, p: T -> bool, q: T -> bool)
    ensures Filter(Filter(s, p), q) == Filter(s, Both(p, q))
    decreases |s|
  {
    if s != [] {
      var s' := s[..|s| - 1];
      var x := s[|s| - 1];
      FilterFilter(s', p, q);
      FilterAppend(Filter(s', p), if p(x) then [x] else [], q);
    }
  }

  /** Two conditions that agree on every element of `s` filter it alike. */
  lemma {:induction false} FilterCongruent<T>(s: seq<T>, p: T -> bool, q: T -> bool)
    requires forall i :: 0 <= i < |s| ==> p(s[i]) == q(s[i])
    ensures Filter(s, p) == Filter(s, q)
    decreases |s|
  {
    if s != [] {
      FilterCongruent(s[..|s| - 1], p, q);
    }
  }

  /** `s.find(p)`: the first element that satisfies `p`, if any. */
  function Find<T>(s: seq<T>, p: T -> bool): (r: Option<T>)
    ensures r.None? <==> forall i :: 0 <= i < |s| ==> !p(s[i])
    ensures r.Some? ==> exists i :: 0 <= i < |s| && s[i] == r.value && p(s[i])
                                    && forall j :: 0 <= j < i ==> !p(s[j])
  {
    if s == [] then None
    else if p(s[0]) then Some(s[0])
    else
      var r := Find(s[1..], p);
      assert forall i :: 1 <= i < |s| ==> s[i] == s[1..][i - 1];
      assert r.Some? ==> exists i :: 0 <= i < |s| && s[i] == r.value && p(s[i])
                                     && forall j :: 0 <= j < i ==> !p(s[j]) by {
        if r.Some? {
          var i :| 0 <= i < |s[1..]| && s[1..][i] == r.value && p(s[1..][i])
                   && forall j :: 0 <= j < i ==> !p(s[1..][j]);
          assert s[i + 1] == r.value && forall j :: 0 <= j < i + 1 ==> !p(s[j]);
        }
      }
      r
  }

  /** Once nothing in `s` satisfies `p`, appending an element that does makes it the one found. */
  lemma {:induction false} FindAppended<T>(s: seq<T>, x: T, p: T -> bool)
    requires Find(s, p).None?
    requires p(x)
    ensures Find(s + [x], p) == Some(x)
    decreases |s|
  {
    if s != [] {
      assert (s + [x])[1..] == s[1..] + [x];
      FindAppended(s[1..], x, p);
    }
  }

  /** `s.map(f)`. */
  function Map<T, U>(s: seq<T>, f: T -> U): (r: seq<U>)
    ensures |r| == |s|
    ensures forall i :: 0 <= i < |s| ==> r[i] == f(s[i])
  {
    seq(|s|, i requires 0 <= i < |s| => f(s[i]))
  }

  lemma MapAppend<T, U>(a: seq<T>, b: seq<T>, f: T -> U)
    ensures Map(a + b, f) == Map(a, f) + Map(b, f)
  {
  }

  /** `s` is in ascending order of `key`. */
  ghost predicate SortedBy<T>(s: seq<T>, key: T -> int) {
    forall i, j :: 0 <= i < j < |s| ==> key(s[i]) <= key(s[j])
  }

  /**
   * Inserts `x` after every trailing element of `t` whose key is greater than
   * `x`'s; on a sorted `t` that is after every element whose key is not
   * greater, which is what keeps the sort stable.
   */
  function InsertBy<T>(x: T, t: seq<T>, key: T -> int): (r: seq<T>)
    ensures multiset(r) == multiset(t) + multiset{x}
    ensures forall i :: 0 <= i < |r| ==> r[i] == x || r[i] in t
    decreases |t|
  {
    if t == [] then [x]
    else if key(t[|t| - 1]) <= key(x) then t + [x]
    else
      var t', last := t[..|t| - 1], t[|t| - 1];
      assert t' + [last] == t;
      InsertBy(x, t', key) + [last]
  }

  lemma {:induction false} InsertBySorted<T>(x: T, t: seq<T>, key: T -> int)
    requires SortedBy(t, key)
    ensures SortedBy(InsertBy(x, t, key), key)
    decreases |t|
  {
    if t != [] && key(x) < key(t[|t| - 1]) {
      var t', last := t[..|t| - 1], t[|t| - 1];
      InsertBySorted(x, t', key);
      var r' := InsertBy(x, t', key);
      assert forall i :: 0 <= i < |r'| ==> key(r'[i]) <= key(last);
    }
  }

  /**
   * `s.sort((a, b) => key(a) - key(b))`: since ECMAScript 2019 the sort is
   * stable, modelled here as an insertion sort.
   */
  function SortBy<T>(s: seq<T>, key: T -> int): (r: seq<T>)
    ensures SortedBy(r, key)
    ensures multiset(r) == multiset(s)
    decreases |s|
  {
    if s == [] then []
    else
      assert s[..|s| - 1] + [s[|s| - 1]] == s;
      InsertBySorted(s[|s| - 1], SortBy(s[..|s| - 1], key), key);
      InsertBy(s[|s| - 1], SortBy(s[..|s| - 1], key), key)
  }

  /** The elements whose key is `k`. */
  function KeyIs<T>(key: T -> int, k: int): T -> bool {
    y => key(y) == k
  }

  /** Inserting an element with a different key leaves the elements with key `k` as they were. */
  lemma {:induction false} InsertByOtherKey<T>(x: T, t: seq<T>, key: T -> int, k: int)
    requires key(x) != k
    ensures Filter(InsertBy(x, t, key), KeyIs(key, k)) == Filter(t, KeyIs(key, k))
    decreases |t|
  {
    var p := KeyIs(key, k);
    assert !p(x);
    assert [x][..0] == [];
    if t == [] {
      assert InsertBy(x, t, key) == [x];
    } else if key(t[|t| - 1]) <= key(x) {
      assert InsertBy(x, t, key) == t + [x];
      FilterAppend(t, [x], p);
    } else {
      var t', last := t[..|t| - 1], t[|t| - 1];
      var inserted := InsertBy(x, t', key);
      calc {
        Filter(InsertBy(x, t, key), p);
        { assert InsertBy(x, t, key) == inserted + [last]; }
        Filter(inserted + [last], p);
        { FilterAppend(inserted, [last], p); }
        Filter(inserted, p) + Filter([last], p);
        { InsertByOtherKey(x, t', key, k); }
        Filter(t', p) + Filter([last], p);
        { assert t' + [last] == t; FilterAppend(t', [last], p); }
        Filter(t, p);
      }
    }
  }

  /** Filtering a one-element sequence by a condition its element meets keeps it. */
  lemma FilterSingleton<T>(x: T, p: T -> bool)
    requires p(x)
    ensures Filter([x], p) == [x]
  {
    assert [x][..0] == [];
  }

  /** Inserting an element with key `k` puts it after every element that already has key `k`. */
  lemma {:induction false} InsertBySameKey<T>(x: T, t: seq<T>, key: T -> int, k: int)
    requires key(x) == k
    ensures Filter(InsertBy(x, t, key), KeyIs(key, k)) == Filter(t, KeyIs(key, k)) + [x]
    decreases |t|, 1
  {
    var p := KeyIs(key, k);
    assert p(x);
    FilterSingleton(x, p);
    if t == [] {
      assert InsertBy(x, t, key) == [x];
    } else if key(t[|t| - 1]) <= key(x) {
      assert InsertBy(x, t, key) == t + [x];
      FilterAppend(t, [x], p);
    } else {
      InsertBySameKeyBehind(x, t, key, k);
    }
  }

  /** The step of InsertBySameKey where `x` moves in front of the last element. */
  lemma {:induction false} InsertBySameKeyBehind<T>(x: T, t: seq<T>, key: T -> int, k: int)
    requires key(x) == k
    requires t != [] && key(x) < key(t[|t| - 1])
    ensures Filter(InsertBy(x, t, key), KeyIs(key, k)) == Filter(t, KeyIs(key, k)) + [x]
    decreases |t|, 0
  {
    var p := KeyIs(key, k);
    var t', last := t[..|t| - 1], t[|t| - 1];
    var inserted := InsertBy(x, t', key);
    assert !p(last);
    assert Filter([last], p) == [];
    calc {
      Filter(InsertBy(x, t, key), p);
      { assert InsertBy(x, t, key) == inserted + [last]; }
      Filter(inserted + [last], p);
      { FilterAppend(inserted, [last], p); }
      Filter(inserted, p);
      { InsertBySameKey(x, t', key, k); }
      Filter(t', p) + [x];
      { assert t' + [last] == t; FilterAppend(t', [last], p); }
      Filter(t, p) + [x];
    }
  }

  /** Stability: the elements that share one key keep their input order after the sort. */
  lemma {:induction false} SortByStable<T>(s: seq<T>, key: T -> int, k: int)
    ensures Filter(SortBy(s, key), KeyIs(key, k)) == Filter(s, KeyIs(key, k))
    decreases |s|
  {
    if s != [] {
      var s' := s[..|s| - 1];
      var x := s[|s| - 1];
      SortByStable(s', key, k);
      if key(x) == k {
        InsertBySameKey(x, SortBy(s', key), key, k);
      } else {
        InsertByOtherKey(x, SortBy(s', key), key, k);
      }
    }
  }
}
