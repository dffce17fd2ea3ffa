/**
 * The two orderings the viewer relies on: `List.sort` with a comparator (a stable
 * sort, modelled as insertion sort), and the key order of a `TreeMap<String, _>`
 * (kept as a strictly increasing list of keys under `String.compareTo`).
 */
module Sorting {
  import opened JavaString

  /** `cmp` is a total preorder on the values in `S`, as `List.sort` demands of a comparator. */
  ghost predicate TotalPreorderOn<T>(cmp: (T, T) -> int, S: set<T>) {
    (forall a, b :: a in S && b in S ==> cmp(a, b) <= 0 || cmp(b, a) <= 0) &&
    (forall a, b, c :: a in S && b in S && c in S && cmp(a, b) <= 0 && cmp(b, c) <= 0 ==> cmp(a, c) <= 0)
  }

  predicate SortedBy<T>(s: seq<T>, cmp: (T, T) -> int) {
    forall i, j :: 0 <= i < j < |s| ==> cmp(s[i], s[j]) <= 0
  }

  function Elements<T>(s: seq<T>): set<T> {
    set i | 0 <= i < |s| :: s[i]
  }

  /** Puts `x` in front of the first element it does not exceed. */
  function Insert<T>(x: T, s: seq<T>, cmp: (T, T) -> int): seq<T> {
    if s == [] then [x]
    else if cmp(x, s[0]) <= 0 then [x] + s
    else [s[0]] + Insert(x, s[1..], cmp)
  }

  /**
   * Sorting by `cmp`. An element is placed before the later elements that compare
   * equal to it, so equal elements keep their order, as in `List.sort`.
   */
  function SortBy<T>(s: seq<T>, cmp: (T, T) -> int): seq<T> {
    if s == [] then [] else Insert(s[0], SortBy(s[1..], cmp), cmp)
  }

  lemma {:induction false} InsertPermutes<T>(x: T, s: seq<T>, cmp: (T, T) -> int)
    ensures multiset(Insert(x, s, cmp)) == multiset(s) + multiset{x}
  {
    if s != [] && cmp(x, s[0]) > 0 {
      InsertPermutes(x, s[1..], cmp);
      assert s == [s[0]] + s[1..];
    }
  }

  lemma {:induction false} SortByPermutes<T>(s: seq<T>, cmp: (T, T) -> int)
    ensures multiset(SortBy(s, cmp)) == multiset(s)
  {
    if s != [] {
      SortByPermutes(s[1..], cmp);
      InsertPermutes(s[0], SortBy(s[1..], cmp), cmp);
      assert s == [s[0]] + s[1..];
    }
  }

  lemma ElementsOfMultiset<T>(s: seq<T>, t: seq<T>)
    requires multiset(s) == multiset(t)
    ensures Elements(s) == Elements(t)
  {
    forall x | x in Elements(s) ensures x in Elements(t) {
      assert x in multiset(s);
    }
    forall x | x in Elements(t) ensures x in Elements(s) {
      assert x in multiset(t);
    }
  }

  lemma {:induction false} InsertSorted<T>(x: T, s: seq<T>, cmp: (T, T) -> int, S: set<T>)
    requires TotalPreorderOn(cmp, S)
    requires x in S && Elements(s) <= S
    requires SortedBy(s, cmp)
    ensures SortedBy(Insert(x, s, cmp), cmp)
  {
    if s != [] {
      assert s[0] in S;
      var t := s[1..];
      forall y | y in s ensures y in S && cmp(s[0], y) <= 0 {
        var k :| 0 <= k < |s| && s[k] == y;
        assert y in Elements(s);
        if k > 0 {
          assert cmp(s[0], s[k]) <= 0;
        }
      }
      if cmp(x, s[0]) <= 0 {
        forall y | y in s ensures cmp(x, y) <= 0 {
          assert cmp(s[0], y) <= 0;
        }
        ConsSorted(x, s, cmp);
      } else {
        assert Elements(t) <= Elements(s);
        InsertSorted(x, t, cmp, S);
        assert forall y :: y in t ==> y in s;
        InsertBounded(s[0], x, t, cmp);
        ConsSorted(s[0], Insert(x, t, cmp), cmp);
      }
    }
  }

  /** Inserting a value bounded below by `a` into a list bounded below by `a` keeps it so. */
  lemma InsertBounded<T>(a: T, x: T, t: seq<T>, cmp: (T, T) -> int)
    requires cmp(a, x) <= 0 && forall y :: y in t ==> cmp(a, y) <= 0
    ensures forall y :: y in Insert(x, t, cmp) ==> cmp(a, y) <= 0
  {
    InsertPermutes(x, t, cmp);
    forall y | y in Insert(x, t, cmp) ensures cmp(a, y) <= 0 {
      assert y in multiset(Insert(x, t, cmp));
      assert y in multiset(t) || y == x;
    }
  }

  /** A value below everything in a sorted list may go in front of it. */
  lemma ConsSorted<T>(a: T, t: seq<T>, cmp: (T, T) -> int)
    requires SortedBy(t, cmp) && forall y :: y in t ==> cmp(a, y) <= 0
    ensures SortedBy([a] + t, cmp)
  {
    var r := [a] + t;
    forall i, j | 0 <= i < j < |r| ensures cmp(r[i], r[j]) <= 0 {
      assert r[j] == t[j - 1];
      if i > 0 {
        assert r[i] == t[i - 1];
      }
    }
  }

  /** `SortBy` orders a list by any comparator that is a total preorder on its elements. */
  lemma {:induction false} SortBySorted<T>(s: seq<T>, cmp: (T, T) -> int)
    requires TotalPreorderOn(cmp, Elements(s))
    ensures SortedBy(SortBy(s, cmp), cmp)
  {
    if s != [] {
      var S := Elements(s);
      assert Elements(s[1..]) <= S;
      assert TotalPreorderOn(cmp, Elements(s[1..]));
      SortBySorted(s[1..], cmp);
      SortByPermutes(s[1..], cmp);
      ElementsOfMultiset(SortBy(s[1..], cmp), s[1..]);
      InsertSorted(s[0], SortBy(s[1..], cmp), cmp, S);
    }
  }

  /** Sorting a list that is already sorted leaves it as it is. */
  lemma {:induction false} SortedIdempotent<T>(s: seq<T>, cmp: (T, T) -> int)
    requires SortedBy(s, cmp)
    ensures SortBy(s, cmp) == s
  {
    if s != [] {
      assert SortedBy(s[1..], cmp);
      SortedIdempotent(s[1..], cmp);
      assert s == [s[0]] + s[1..];
    }
  }

  /** Sorting a second time changes nothing. */
  lemma SortTwice<T>(s: seq<T>, cmp: (T, T) -> int)
    requires TotalPreorderOn(cmp, Elements(s))
    ensures SortBy(SortBy(s, cmp), cmp) == SortBy(s, cmp)
  {
    SortBySorted(s, cmp);
    SortedIdempotent(SortBy(s, cmp), cmp);
  }

  /** Sorting keeps exactly the members it was given. */
  lemma SortByMembers<T>(s: seq<T>, cmp: (T, T) -> int)
    ensures forall x :: x in SortBy(s, cmp) <==> x in s
  {
    SortByPermutes(s, cmp);
    forall x ensures x in SortBy(s, cmp) <==> x in s {
      assert x in SortBy(s, cmp) <==> x in multiset(SortBy(s, cmp));
      assert x in s <==> x in multiset(s);
    }
  }

  /** `cmp` ranks `a` and `b` alike: neither exceeds the other. */
  predicate Alike<T>(cmp: (T, T) -> int, a: T, b: T) {
    cmp(a, b) <= 0 && cmp(b, a) <= 0
  }

  /** The elements of `s` that rank alike with `k`, in their order in `s`. */
  function AlikeTo<T>(s: seq<T>, k: T, cmp: (T, T) -> int): seq<T> {
    if s == [] then []
    else (if Alike(cmp, k, s[0]) then [s[0]] else []) + AlikeTo(s[1..], k, cmp)
  }

  /** Two elements that rank alike with a third are ordered either way. */
  lemma AlikeToSame<T>(cmp: (T, T) -> int, S: set<T>, x: T, k: T, y: T)
    requires TotalPreorderOn(cmp, S) && x in S && k in S && y in S
    requires Alike(cmp, k, x) && Alike(cmp, k, y)
    ensures cmp(x, y) <= 0
  {
    assert cmp(x, k) <= 0 && cmp(k, y) <= 0;
  }

  lemma AlikeToCons<T>(a: T, rest: seq<T>, k: T, cmp: (T, T) -> int)
    ensures AlikeTo([a] + rest, k, cmp) == (if Alike(cmp, k, a) then [a] else []) + AlikeTo(rest, k, cmp)
  {
    assert ([a] + rest)[0] == a && ([a] + rest)[1..] == rest;
  }

  /** Inserting `x` puts it before every element that ranks alike with it. */
  lemma {:induction false} InsertAlike<T>(x: T, t: seq<T>, k: T, cmp: (T, T) -> int, S: set<T>)
    requires TotalPreorderOn(cmp, S) && x in S && k in S && forall y :: y in t ==> y in S
    ensures AlikeTo(Insert(x, t, cmp), k, cmp) == (if Alike(cmp, k, x) then [x] else []) + AlikeTo(t, k, cmp)
  {
    if t == [] {
      AlikeToCons(x, [], k, cmp);
    } else if cmp(x, t[0]) <= 0 {
      AlikeToCons(x, t, k, cmp);
    } else {
      assert t == [t[0]] + t[1..];
      assert forall y :: y in t[1..] ==> y in t;
      InsertAlike(x, t[1..], k, cmp, S);
      AlikeToCons(t[0], Insert(x, t[1..], cmp), k, cmp);
      AlikeToCons(t[0], t[1..], k, cmp);
    }
  }

  /**
   * `SortBy` is stable: the elements that rank alike with any `k` come out in the
   * order they went in, as `List.sort` promises.
   */
  lemma {:induction false} SortByStable<T>(s: seq<T>, k: T, cmp: (T, T) -> int, S: set<T>)
    requires TotalPreorderOn(cmp, S) && k in S && forall y :: y in s ==> y in S
    ensures AlikeTo(SortBy(s, cmp), k, cmp) == AlikeTo(s, k, cmp)
  {
    if s != [] {
      assert forall y :: y in s[1..] ==> y in s;
      SortByStable(s[1..], k, cmp, S);
      SortByWithin(s[1..], cmp, S);
      InsertAlike(s[0], SortBy(s[1..], cmp), k, cmp, S);
    }
  }

  lemma SortByWithin<T>(s: seq<T>, cmp: (T, T) -> int, S: set<T>)
    requires forall y :: y in s ==> y in S
    ensures forall y :: y in SortBy(s, cmp) ==> y in S
  {
    SortByPermutes(s, cmp);
    forall y | y in SortBy(s, cmp) ensures y in S {
      assert y in multiset(SortBy(s, cmp));
      assert y in multiset(s);
    }
  }

  // ---------------------------------------------------------------------------
  // TreeMap<String, _> keys

  predicate StrictlySorted(keys: seq<string>) {
    forall i, j :: 0 <= i < j < |keys| ==> CompareTo(keys[i], keys[j]) < 0
  }

  /** The key list of a `TreeMap` after `put` of a new key. */
  function InsertKey(keys: seq<string>, k: string): (r: seq<string>)
    requires StrictlySorted(keys) && k !in keys
    ensures StrictlySorted(r)
    ensures forall x :: x in r <==> x in keys || x == k
    ensures |r| == |keys| + 1
  {
    if keys == [] then [k]
    else if CompareTo(k, keys[0]) < 0 then
      var r := [k] + keys;
      assert forall j :: 0 < j < |keys| ==> CompareTo(keys[0], keys[j]) < 0;
      forall j | 0 < j < |r| ensures CompareTo(k, r[j]) < 0 {
        if j > 1 {
          CompareToStrictTransitive(k, keys[0], keys[j - 1]);
        }
      }
      r
    else
      var t := InsertKey(keys[1..], k);
      var r := [keys[0]] + t;
      CompareToZeroIffEqual(k, keys[0]);
      CompareToAntisymmetric(k, keys[0]);
      forall j | 0 < j < |r| ensures CompareTo(keys[0], r[j]) < 0 {
        if r[j] != k {
          assert r[j] in keys[1..];
          var m :| 0 <= m < |keys[1..]| && keys[1..][m] == r[j];
          assert keys[m + 1] == r[j];
        }
      }
      assert keys == [keys[0]] + keys[1..];
      r
  }
}
