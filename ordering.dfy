/** The orderings the engine relies on: `operator<` of `std::string`, and
    `std::sort` / `std::unique` over numbers and over records by a key. */
module Ordering {
  import opened Common

  /** `a < b` on `std::string`: the first differing character decides, and
      a proper prefix comes first. */
  predicate LexLess(a: string, b: string)
    decreases |a|
  {
    |b| > 0 && (|a| == 0 || a[0] < b[0] || (a[0] == b[0] && LexLess(a[1..], b[1..])))
  }

  lemma {:induction false} LexIrreflexive(a: string)
    ensures !LexLess(a, a)
    decreases |a|
  {
    if |a| > 0 {
      LexIrreflexive(a[1..]);
    }
  }

  lemma {:induction false} LexTransitive(a: string, b: string, c: string)
    requires LexLess(a, b) && LexLess(b, c)
    ensures LexLess(a, c)
    decreases |a|
  {
    if |a| > 0 && a[0] == b[0] && b[0] == c[0] {
      LexTransitive(a[1..], b[1..], c[1..]);
    }
  }

  /** Any two different strings are ordered one way or the other. */
  lemma {:induction false} LexTotal(a: string, b: string)
    ensures a == b || LexLess(a, b) || LexLess(b, a)
    decreases |a|
  {
    if |a| > 0 && |b| > 0 && a[0] == b[0] {
      LexTotal(a[1..], b[1..]);
      if a[1..] == b[1..] {
        assert a == [a[0]] + a[1..] && b == [b[0]] + b[1..];
      }
    }
  }

  lemma LexAsymmetric(a: string, b: string)
    requires LexLess(a, b)
    ensures !LexLess(b, a)
  {
    if LexLess(b, a) {
      LexTransitive(a, b, a);
      LexIrreflexive(a);
    }
  }

  predicate Ascending(s: seq<int>) {
    forall i, j :: 0 <= i < j < |s| ==> s[i] <= s[j]
  }

  predicate StrictlyAscending(s: seq<int>) {
    forall i, j :: 0 <= i < j < |s| ==> s[i] < s[j]
  }

  /** `x` put in its place in an ascending sequence. */
  function Insert(x: uint32, s: seq<uint32>): (r: seq<uint32>)
    requires Ascending(s)
    ensures Ascending(r) && multiset(r) == multiset(s) + multiset{x}
  {
    if s == [] || x <= s[0] then [x] + s
    else
      var t := Insert(x, s[1..]);
      InsertBelow(s, x, t);
      [s[0]] + t
  }

  /** The head of an ascending sequence stays below what its tail becomes
      once a larger element is inserted. */
  lemma InsertBelow(s: seq<uint32>, x: uint32, t: seq<uint32>)
    requires s != [] && Ascending(s) && s[0] < x
    requires multiset(t) == multiset(s[1..]) + multiset{x}
    ensures Ascending(t) ==> Ascending([s[0]] + t)
    ensures multiset([s[0]] + t) == multiset(s) + multiset{x}
  {
    assert s == [s[0]] + s[1..];
    forall k | 0 <= k < |t| ensures s[0] <= t[k] {
      assert t[k] in multiset(t);
      if t[k] != x {
        assert t[k] in s[1..];
      }
    }
    var r := [s[0]] + t;
    if Ascending(t) {
      forall i, j | 0 <= i < j < |r| ensures r[i] <= r[j] {
        if i > 0 {
          assert r[i] == t[i - 1] && r[j] == t[j - 1];
        }
      }
    }
  }

  /** `std::sort` of numbers: the same numbers, ascending. */
  function Sort(s: seq<uint32>): (r: seq<uint32>)
    ensures Ascending(r) && multiset(r) == multiset(s) && |r| == |s|
  {
    if s == [] then []
    else
      assert s == [s[0]] + s[1..];
      Insert(s[0], Sort(s[1..]))
  }

  /** A sequence ordered by a key of its elements. */
  predicate AscendingBy<T>(s: seq<T>, key: T -> int) {
    forall i, j :: 0 <= i < j < |s| ==> key(s[i]) <= key(s[j])
  }

  function InsertBy<T>(x: T, s: seq<T>, key: T -> int): (r: seq<T>)
    requires AscendingBy(s, key)
    ensures AscendingBy(r, key) && multiset(r) == multiset(s) + multiset{x}
  {
    if s == [] || key(x) <= key(s[0]) then [x] + s
    else
      var t := InsertBy(x, s[1..], key);
      InsertByBelow(s, x, t, key);
      [s[0]] + t
  }

  lemma InsertByBelow<T>(s: seq<T>, x: T, t: seq<T>, key: T -> int)
    requires s != [] && AscendingBy(s, key) && key(s[0]) < key(x)
    requires multiset(t) == multiset(s[1..]) + multiset{x}
    ensures AscendingBy(t, key) ==> AscendingBy([s[0]] + t, key)
    ensures multiset([s[0]] + t) == multiset(s) + multiset{x}
  {
    assert s == [s[0]] + s[1..];
    forall k | 0 <= k < |t| ensures key(s[0]) <= key(t[k]) {
      assert t[k] in multiset(t);
      if t[k] != x {
        assert t[k] in s[1..];
      }
    }
    var r := [s[0]] + t;
    if AscendingBy(t, key) {
      forall i, j | 0 <= i < j < |r| ensures key(r[i]) <= key(r[j]) {
        if i > 0 {
          assert r[i] == t[i - 1] && r[j] == t[j - 1];
        }
      }
    }
  }

  /** `std::sort` with a comparator on a key: a permutation ordered by the
      key. Ties are kept in input order, one of the orders `std::sort` may
      produce. */
  function SortBy<T>(s: seq<T>, key: T -> int): (r: seq<T>)
    ensures AscendingBy(r, key) && multiset(r) == multiset(s) && |r| == |s|
  {
    if s == [] then []
    else
      assert s == [s[0]] + s[1..];
      InsertBy(s[0], SortBy(s[1..], key), key)
  }

  /** `std::unique` followed by `erase`: runs of equal neighbours collapse
      to one element. */
  function Unique(s: seq<uint32>): (r: seq<uint32>)
    ensures |r| <= |s|
    ensures forall x :: x in r <==> x in s
    ensures Ascending(s) ==> StrictlyAscending(r)
    ensures s != [] ==> r != [] && r[0] == s[0]
  {
    if |s| <= 1 then s
    else
      var t := Unique(s[1..]);
      assert forall x :: x in s <==> x == s[0] || x in s[1..] by {
        assert s == [s[0]] + s[1..];
      }
      if s[0] == s[1] then t
      else
        assert Ascending(s) ==> Ascending(s[1..]) && forall k :: 0 <= k < |t| ==> s[0] < t[k] by {
          if Ascending(s) {
            forall k | 0 <= k < |t| ensures s[0] < t[k] {
              assert t[k] in s[1..];
            }
          }
        }
        [s[0]] + t
  }

  /** Strings ascending by `operator<`, each strictly before the next. */
  predicate StrictlySorted(s: seq<string>) {
    forall i, j :: 0 <= i < j < |s| ==> LexLess(s[i], s[j])
  }

  function InsertString(x: string, s: seq<string>): (r: seq<string>)
    requires StrictlySorted(s) && x !in s
    ensures StrictlySorted(r) && multiset(r) == multiset(s) + multiset{x}
  {
    if s == [] then [x]
    else if LexLess(x, s[0]) then
      assert forall k :: 0 <= k < |s| ==> LexLess(x, s[k]) by {
        forall k | 0 <= k < |s| ensures LexLess(x, s[k]) {
          if k > 0 { LexTransitive(x, s[0], s[k]); }
        }
      }
      [x] + s
    else
      LexTotal(x, s[0]);
      assert s == [s[0]] + s[1..];
      var t := InsertString(x, s[1..]);
      assert forall k :: 0 <= k < |t| ==> LexLess(s[0], t[k]) by {
        forall k | 0 <= k < |t| ensures LexLess(s[0], t[k]) {
          assert t[k] in multiset(t);
          assert t[k] == x || t[k] in s[1..];
        }
      }
      [s[0]] + t
  }

  /** `std::sort` of distinct strings. */
  function SortStrings(s: seq<string>): (r: seq<string>)
    requires forall i, j :: 0 <= i < j < |s| ==> s[i] != s[j]
    ensures StrictlySorted(r) && multiset(r) == multiset(s)
  {
    if s == [] then []
    else
      assert s == [s[0]] + s[1..];
      var t := SortStrings(s[1..]);
      assert s[0] !in t by {
        assert s[0] !in multiset(s[1..]);
      }
      InsertString(s[0], t)
  }

  // ---------------------------------------------------------------------
  // Keys of a hash table in ascending order, and distinct sequences

  /** The least element of a non-empty set. */
  ghost function MinOf(ks: set<uint32>): (k: uint32)
    requires ks != {}
    ensures k in ks && forall j :: j in ks ==> k <= j
    decreases |ks|
  {
    var x :| x in ks;
    if ks == {x} then
      assert forall j :: j in ks ==> j == x;
      x
    else
      var m := MinOf(ks - {x});
      assert forall j :: j in ks ==> j == x || j in ks - {x};
      if x < m then x else m
  }

  /** The elements of a set in ascending order. */
  ghost function SortedSet(ks: set<uint32>): (r: seq<uint32>)
    ensures |r| == |ks| && forall x :: x in r <==> x in ks
    decreases |ks|
  {
    if ks == {} then [] else [MinOf(ks)] + SortedSet(ks - {MinOf(ks)})
  }

  /** `SortedSet` lists the elements in strictly ascending order. */
  lemma {:induction false} SortedSetAscending(ks: set<uint32>)
    ensures StrictlyAscending(SortedSet(ks))
    decreases |ks|
  {
    if ks != {} {
      var k := MinOf(ks);
      SortedSetAscending(ks - {k});
      AscendingCons(k, SortedSet(ks - {k}));
    }
  }

  lemma AscendingCons(k: uint32, t: seq<uint32>)
    requires StrictlyAscending(t) && forall x :: x in t ==> k < x
    ensures StrictlyAscending([k] + t)
  {
    var s := [k] + t;
    forall i, j | 0 <= i < j < |s| ensures s[i] < s[j] {
      assert s[j] == t[j - 1] && t[j - 1] in t;
      if i > 0 {
        assert s[i] == t[i - 1];
      } else {
        assert s[i] == k;
      }
    }
  }

  /** A strictly ascending sequence is determined by its elements. */
  lemma {:induction false} SortedSetUnique(xs: seq<uint32>, ks: set<uint32>)
    requires StrictlyAscending(xs) && forall x :: x in xs <==> x in ks
    ensures xs == SortedSet(ks)
    decreases |xs|
  {
    if xs == [] {
      assert forall x :: x !in ks;
    } else {
      assert xs[0] in ks;
      var k := MinOf(ks);
      assert k in xs;
      assert xs[0] == k by {
        var i :| 0 <= i < |xs| && xs[i] == k;
        assert xs[0] <= xs[i];
      }
      forall x ensures x in xs[1..] <==> x in ks - {k} {
        assert xs == [xs[0]] + xs[1..];
        if x in xs[1..] {
          var i :| 0 <= i < |xs[1..]| && xs[1..][i] == x;
          assert xs[0] < xs[i + 1];
        }
      }
      SortedSetUnique(xs[1..], ks - {k});
    }
  }

  predicate Distinct<T(==)>(s: seq<T>) {
    forall i, j :: 0 <= i < j < |s| ==> s[i] != s[j]
  }

  lemma {:induction false} DistinctCount<T>(s: seq<T>, x: T)
    requires Distinct(s)
    ensures multiset(s)[x] <= 1
    decreases |s|
  {
    if s != [] {
      var init := s[..|s| - 1];
      assert s == init + [s[|s| - 1]];
      DistinctCount(init, x);
      if s[|s| - 1] == x {
        assert x !in init;
      }
    }
  }

  lemma RepeatCount<T>(s: seq<T>, i: nat, j: nat)
    requires i < j < |s| && s[i] == s[j]
    ensures multiset(s)[s[i]] >= 2
  {
    assert s == s[..j] + [s[j]] + s[j + 1..];
    assert s[i] in s[..j];
  }

  /** A permutation of a sequence without repeats has none either. */
  lemma DistinctPermutation<T>(a: seq<T>, b: seq<T>)
    requires Distinct(a) && multiset(a) == multiset(b)
    ensures Distinct(b)
  {
    forall i, j | 0 <= i < j < |b| ensures b[i] != b[j] {
      if b[i] == b[j] {
        RepeatCount(b, i, j);
        DistinctCount(a, b[i]);
      }
    }
  }
}
