/** What the query programs do with a set of hits once they have it: walk
    an unordered container, intersect document sets, sort by score
    (`std::sort` with `a.score > b.score`) and cut to the first `top_k`
    (`resize`). Scores are `real`s; the floating-point arithmetic that
    produces them is not modelled. */
module Ranking {
  import opened Common

  /** `order` lists the elements of `s`, each once: the traversal order of
      an unordered container. */
  ghost predicate Listed<T(!new)>(order: seq<T>, s: set<T>) {
    (forall x :: x in s <==> x in order)
    && forall i, j :: 0 <= i < j < |order| ==> order[i] != order[j]
  }

  /** Walking a container, the elements taken so far that are to be kept
      are those of `order`, each once; the rest are in `todo`. */
  ghost predicate Walking<T(!new)>(keep: set<T>, order: seq<T>, todo: set<T>) {
    (forall x :: x in order <==> x in keep && x !in todo)
    && forall i, j :: 0 <= i < j < |order| ==> order[i] != order[j]
  }

  /** One element more, kept or not. */
  lemma WalkStep<T(!new)>(keep: set<T>, order: seq<T>, todo: set<T>, x: T)
    requires Walking(keep, order, todo) && x in todo
    ensures x in keep ==> Walking(keep, order + [x], todo - {x})
    ensures x !in keep ==> Walking(keep, order, todo - {x})
  {
  }

  /** When nothing is left, `order` lists what was kept. */
  lemma WalkDone<T(!new)>(keep: set<T>, order: seq<T>)
    requires Walking(keep, order, {})
    ensures Listed(order, keep)
  {
  }

  /** A listing has one place per element. */
  lemma {:induction false} ListedSize<T(!new)>(order: seq<T>, s: set<T>)
    requires Listed(order, s)
    ensures |order| == |s|
  {
    if order == [] {
      assert forall x :: x !in s;
      assert s == {};
    } else {
      var n := |order| - 1;
      var x := order[n];
      assert order == order[..n] + [x];
      assert Listed(order[..n], s - {x});
      ListedSize(order[..n], s - {x});
    }
  }

  /** The values of `m` at the keys of `order`, in that order. */
  function ValuesAt<K, V>(m: map<K, V>, order: seq<K>): (vs: seq<V>)
    requires forall k :: 0 <= k < |order| ==> order[k] in m
    ensures |vs| == |order|
  {
    seq(|order|, k requires 0 <= k < |order| => m[order[k]])
  }

  /** The loop copying the values of a map into a vector, in the map's
      traversal order. */
  method ValuesOf<K(!new), V>(m: map<K, V>) returns (vs: seq<V>, ghost order: seq<K>)
    ensures Listed(order, m.Keys)
    ensures forall k :: 0 <= k < |order| ==> order[k] in m
    ensures vs == ValuesAt(m, order)
  {
    vs, order := [], [];
    var todo := m.Keys;
    while todo != {}
      invariant todo <= m.Keys && Walking(m.Keys, order, todo)
      invariant forall k :: 0 <= k < |order| ==> order[k] in m
      invariant vs == ValuesAt(m, order)
      decreases |todo|
    {
      var key :| key in todo;
      WalkStep(m.Keys, order, todo, key);
      vs := vs + [m[key]];
      order := order + [key];
      todo := todo - {key};
    }
    WalkDone(m.Keys, order);
  }

  /** Sorting the values of a map and keeping the first `k`: each kept
      value is one of the map's, and when the map has no more than `k`
      entries every value is kept. */
  lemma TopOfValues<K(!new), V>(m: map<K, V>, order: seq<K>, ranked: seq<V>, k: nat, score: V -> real)
    requires Listed(order, m.Keys) && Ranked(ranked, ValuesAt(m, order), score)
    ensures forall v :: v in Top(ranked, k) ==> exists key :: key in m && m[key] == v
    ensures |m| <= k ==> forall key :: key in m ==> m[key] in Top(ranked, k)
  {
    var vs := ValuesAt(m, order);
    forall v | v in Top(ranked, k) ensures exists key :: key in m && m[key] == v {
      assert v in multiset(ranked);
      assert v in multiset(vs);
      var i :| 0 <= i < |vs| && vs[i] == v;
      assert m[order[i]] == v;
    }
    ListedSize(order, m.Keys);
    if |m| <= k {
      assert |ranked| == |vs| by {
        assert |multiset(ranked)| == |multiset(vs)|;
      }
      forall key | key in m ensures m[key] in Top(ranked, k) {
        var i :| 0 <= i < |order| && order[i] == key;
        assert vs[i] == m[key];
        assert m[key] in multiset(vs);
      }
    }
  }

  /** Scores never increase along `s`. */
  predicate NonIncreasing<T>(s: seq<T>, score: T -> real) {
    forall i, j :: 0 <= i < j < |s| ==> score(s[i]) >= score(s[j])
  }

  /** `r` is `s` sorted by descending score: what `std::sort` may leave,
      in any order among equal scores. */
  predicate Ranked<T(==)>(r: seq<T>, s: seq<T>, score: T -> real) {
    multiset(r) == multiset(s) && NonIncreasing(r, score)
  }

  /** The sort by descending score: each element goes in after those that
      score at least as much. */
  method SortByScore<T(==)>(s: seq<T>, score: T -> real) returns (r: seq<T>)
    ensures Ranked(r, s, score)
  {
    r := [];
    for i := 0 to |s|
      invariant Ranked(r, s[..i], score)
    {
      var x := s[i];
      var j := 0;
      while j < |r| && score(r[j]) >= score(x)
        invariant j <= |r| && forall k :: 0 <= k < j ==> score(r[k]) >= score(x)
        decreases |r| - j
      {
        j := j + 1;
      }
      InsertRanked(r, j, x, score);
      InsertCount(r, j, x);
      assert s[..i + 1] == s[..i] + [x];
      r := r[..j] + [x] + r[j..];
    }
    assert s[..|s|] == s;
  }

  /** Putting `x` after the elements that score at least as much keeps the
      order. */
  lemma InsertRanked<T>(r: seq<T>, j: nat, x: T, score: T -> real)
    requires NonIncreasing(r, score) && j <= |r|
    requires forall k :: 0 <= k < j ==> score(r[k]) >= score(x)
    requires j < |r| ==> score(r[j]) < score(x)
    ensures NonIncreasing(r[..j] + [x] + r[j..], score)
  {
    var t := r[..j] + [x] + r[j..];
    forall a, b | 0 <= a < b < |t| ensures score(t[a]) >= score(t[b]) {
      if b < j {
        assert t[a] == r[a] && t[b] == r[b];
      } else if b == j {
        assert t[a] == r[a] && t[b] == x;
      } else if a < j {
        assert t[a] == r[a] && t[b] == r[b - 1];
      } else if a == j {
        assert t[a] == x && t[b] == r[b - 1];
        assert score(r[j]) >= score(r[b - 1]);
      } else {
        assert t[a] == r[a - 1] && t[b] == r[b - 1];
      }
    }
  }

  lemma InsertCount<T>(r: seq<T>, j: nat, x: T)
    requires j <= |r|
    ensures multiset(r[..j] + [x] + r[j..]) == multiset(r) + multiset{x}
  {
    assert r == r[..j] + r[j..];
  }

  function Min(a: nat, b: nat): nat { if a <= b then a else b }

  /** `resize(top_k)` on a longer vector; nothing changes otherwise. */
  function Top<T>(s: seq<T>, k: nat): seq<T> {
    s[..Min(k, |s|)]
  }

  /** At most `k` elements survive, they are the first ones, and all of
      them when there are no more than `k`; on a ranked sequence each kept
      one scores at least as much as each dropped one. */
  lemma TopSpec<T>(s: seq<T>, k: nat, score: T -> real)
    ensures |Top(s, k)| <= k && |Top(s, k)| <= |s|
    ensures forall i :: 0 <= i < |Top(s, k)| ==> Top(s, k)[i] == s[i]
    ensures |s| <= k ==> Top(s, k) == s
    ensures NonIncreasing(s, score) ==>
              forall i, j :: 0 <= i < |Top(s, k)| <= j < |s| ==> score(Top(s, k)[i]) >= score(s[j])
  {
  }

  /** The loop that keeps the elements of `s` that `t` holds, walking `s`
      in whatever order it yields them. */
  method Intersect<T(==)>(s: set<T>, t: set<T>) returns (r: set<T>)
    ensures r == s * t
  {
    r := {};
    var todo := s;
    while todo != {}
      invariant todo <= s && r == (s - todo) * t
      decreases |todo|
    {
      var x :| x in todo;
      if x in t {
        r := r + {x};
      }
      todo := todo - {x};
    }
  }
}
