/** The stable sort that Python's `list.sort(key=...)` and `sorted(...)`
    perform, modelled as insertion sort on values. An element inserted into a
    sorted sequence goes before every element with an equal key; since
    `SortBy` inserts the elements from the back of the input forward, elements
    with equal keys keep their input order. */
module Sorting {
  import opened Seqs

  ghost predicate SortedBy<T>(s: seq<T>, key: T -> real)
  {
    forall i, j :: 0 <= i < j < |s| ==> key(s[i]) <= key(s[j])
  }

  ghost predicate StrictlySortedBy<T>(s: seq<T>, key: T -> real)
  {
    forall i, j :: 0 <= i < j < |s| ==> key(s[i]) < key(s[j])
  }

  /** No two positions of `s` carry the same key. */
  ghost predicate DistinctKeys<T>(s: seq<T>, key: T -> real)
  {
    forall i, j :: 0 <= i < j < |s| ==> key(s[i]) != key(s[j])
  }

  /** Appending an element whose key is new keeps the keys distinct. */
  lemma DistinctAppend<T>(s: seq<T>, x: T, key: T -> real)
    requires DistinctKeys(s, key)
    requires forall i :: 0 <= i < |s| ==> key(s[i]) != key(x)
    ensures DistinctKeys(s + [x], key)
  {
    var r := s + [x];
    forall i, j | 0 <= i < j < |r| ensures key(r[i]) != key(r[j]) {
      assert r[i] == s[i];
    }
  }

  function Insert<T>(x: T, s: seq<T>, key: T -> real): (r: seq<T>)
    ensures |r| == |s| + 1
  {
    if s == [] || key(x) <= key(s[0]) then [x] + s
    else [s[0]] + Insert(x, s[1..], key)
  }

  /** Stable ascending sort of `s` by `key`. */
  function SortBy<T>(s: seq<T>, key: T -> real): (r: seq<T>)
    ensures |r| == |s|
  {
    if s == [] then []
    else Insert(s[0], SortBy(s[1..], key), key)
  }

  lemma {:induction false} InsertPermutes<T>(x: T, s: seq<T>, key: T -> real)
    ensures multiset(Insert(x, s, key)) == multiset(s) + multiset{x}
  {
    if s != [] && key(x) > key(s[0]) {
      InsertPermutes(x, s[1..], key);
      assert s == [s[0]] + s[1..];
    }
  }

  /** Sorting permutes its input. */
  lemma {:induction false} SortByPermutes<T>(s: seq<T>, key: T -> real)
    ensures multiset(SortBy(s, key)) == multiset(s)
  {
    if s != [] {
      SortByPermutes(s[1..], key);
      InsertPermutes(s[0], SortBy(s[1..], key), key);
      assert s == [s[0]] + s[1..];
    }
  }

  lemma {:induction false} InsertSorted<T>(x: T, s: seq<T>, key: T -> real)
    requires SortedBy(s, key)
    ensures SortedBy(Insert(x, s, key), key)
  {
    if s != [] && key(x) > key(s[0]) {
      InsertSorted(x, s[1..], key);
      var r := Insert(x, s[1..], key);
      forall k | 0 <= k < |r| ensures key(s[0]) <= key(r[k]) {
        InsertElement(x, s[1..], key, k);
      }
      var t := [s[0]] + r;
      forall i, j | 0 <= i < j < |t| ensures key(t[i]) <= key(t[j]) {
        if i > 0 {
          assert t[i] == r[i - 1] && t[j] == r[j - 1];
        }
      }
    }
  }

  /** Every position of an insertion holds the inserted element or one of
      the original elements. */
  lemma {:induction false} InsertElement<T>(x: T, s: seq<T>, key: T -> real, k: int)
    requires 0 <= k < |Insert(x, s, key)|
    ensures Insert(x, s, key)[k] == x || Insert(x, s, key)[k] in s
  {
    if s != [] && key(x) > key(s[0]) && k > 0 {
      InsertElement(x, s[1..], key, k - 1);
    }
  }

  lemma {:induction false} SortBySorted<T>(s: seq<T>, key: T -> real)
    ensures SortedBy(SortBy(s, key), key)
  {
    if s != [] {
      SortBySorted(s[1..], key);
      InsertSorted(s[0], SortBy(s[1..], key), key);
    }
  }

  /** Elements of a sorted sequence are those of its input. */
  lemma SortBySameElements<T>(s: seq<T>, key: T -> real)
    ensures forall x :: x in SortBy(s, key) <==> x in s
  {
    var r := SortBy(s, key);
    SortByPermutes(s, key);
    forall x ensures x in r <==> x in s {
      assert x in r <==> x in multiset(r);
      assert x in s <==> x in multiset(s);
    }
  }

  /** Inserting an element whose key no element of a strictly sorted
      sequence carries keeps it strictly sorted. */
  lemma {:induction false} InsertStrictlySorted<T>(x: T, s: seq<T>, key: T -> real)
    requires StrictlySortedBy(s, key)
    requires forall i :: 0 <= i < |s| ==> key(s[i]) != key(x)
    ensures StrictlySortedBy(Insert(x, s, key), key)
  {
    if s != [] && key(x) > key(s[0]) {
      InsertStrictlySorted(x, s[1..], key);
      InsertPermutes(x, s[1..], key);
      var r := Insert(x, s[1..], key);
      forall k | 0 <= k < |r| ensures key(s[0]) < key(r[k]) {
        assert r[k] in multiset(s[1..]) + multiset{x};
        if r[k] != x {
          assert r[k] in s[1..];
        }
      }
    }
  }

  /** Sorting a sequence whose keys are pairwise distinct yields a strictly
      increasing sequence of keys. */
  lemma {:induction false} SortByStrictlySorted<T>(s: seq<T>, key: T -> real)
    requires DistinctKeys(s, key)
    ensures StrictlySortedBy(SortBy(s, key), key)
  {
    if s != [] {
      var rest := s[1..];
      assert DistinctKeys(rest, key) by {
        forall i, j | 0 <= i < j < |rest| ensures key(rest[i]) != key(rest[j]) {
          assert rest[i] == s[i + 1] && rest[j] == s[j + 1];
        }
      }
      SortByStrictlySorted(rest, key);
      var u := SortBy(rest, key);
      SortByPermutes(rest, key);
      forall i | 0 <= i < |u| ensures key(u[i]) != key(s[0]) {
        assert u[i] in multiset(u);
        assert u[i] in multiset(rest);
        assert u[i] in rest;
        var j :| 0 <= j < |rest| && rest[j] == u[i];
        assert s[j + 1] == u[i];
      }
      InsertStrictlySorted(s[0], u, key);
    }
  }

  /** `s[j]` is the first element of `s`, in input order, with the least key. */
  ghost predicate IsFirstLeast<T>(s: seq<T>, key: T -> real, j: int)
  {
    && 0 <= j < |s|
    && (forall k :: 0 <= k < |s| ==> key(s[j]) <= key(s[k]))
    && (forall k :: 0 <= k < j ==> key(s[j]) < key(s[k]))
  }

  /** `s[j]` is the last element of `s`, in input order, with the greatest key. */
  ghost predicate IsLastGreatest<T>(s: seq<T>, key: T -> real, j: int)
  {
    && 0 <= j < |s|
    && (forall k :: 0 <= k < |s| ==> key(s[k]) <= key(s[j]))
    && (forall k :: j < k < |s| ==> key(s[k]) < key(s[j]))
  }

  /** Stability at the front: the head of the sorted sequence is the first
      input element among those with the least key. */
  lemma {:induction false} SortByHead<T>(s: seq<T>, key: T -> real)
    requires |s| > 0
    ensures exists j :: IsFirstLeast(s, key, j) && SortBy(s, key)[0] == s[j]
  {
    if |s| == 1 {
      assert IsFirstLeast(s, key, 0);
    } else {
      var rest := s[1..];
      SortByHead(rest, key);
      var j' :| IsFirstLeast(rest, key, j') && SortBy(rest, key)[0] == rest[j'];
      var u := SortBy(rest, key);
      if key(s[0]) <= key(u[0]) {
        assert SortBy(s, key)[0] == s[0];
        forall k | 0 <= k < |s| ensures key(s[0]) <= key(s[k]) {
          if k > 0 { assert s[k] == rest[k - 1]; }
        }
        assert IsFirstLeast(s, key, 0);
      } else {
        assert SortBy(s, key)[0] == u[0];
        forall k | 0 <= k < |s| ensures key(s[j' + 1]) <= key(s[k]) {
          if k > 0 { assert s[k] == rest[k - 1]; }
        }
        forall k | 0 <= k < j' + 1 ensures key(s[j' + 1]) < key(s[k]) {
          if k > 0 { assert s[k] == rest[k - 1]; }
        }
        assert IsFirstLeast(s, key, j' + 1);
      }
    }
  }

  /** The last element after an insertion into a sorted sequence. */
  lemma {:induction false} InsertLast<T>(x: T, s: seq<T>, key: T -> real)
    requires |s| > 0 && SortedBy(s, key)
    ensures Insert(x, s, key)[|s|] == if key(x) > key(s[|s| - 1]) then x else s[|s| - 1]
  {
    if key(x) <= key(s[0]) {
      assert key(s[0]) <= key(s[|s| - 1]) || |s| == 1;
    } else if |s| > 1 {
      InsertLast(x, s[1..], key);
    }
  }

  /** Stability at the back: the last element of the sorted sequence is the
      last input element among those with the greatest key. */
  lemma {:induction false} SortByLast<T>(s: seq<T>, key: T -> real)
    requires |s| > 0
    ensures exists j :: IsLastGreatest(s, key, j) && SortBy(s, key)[|s| - 1] == s[j]
  {
    if |s| == 1 {
      assert IsLastGreatest(s, key, 0);
    } else {
      var rest := s[1..];
      SortByLast(rest, key);
      var j' :| IsLastGreatest(rest, key, j') && SortBy(rest, key)[|rest| - 1] == rest[j'];
      var u := SortBy(rest, key);
      SortBySorted(rest, key);
      InsertLast(s[0], u, key);
      assert SortBy(s, key) == Insert(s[0], u, key);
      assert |u| == |s| - 1;
      if key(s[0]) > key(u[|u| - 1]) {
        LastGreatestAtFront(s, key, j');
        assert SortBy(s, key)[|s| - 1] == s[0];
      } else {
        LastGreatestBehindFront(s, key, j');
        assert SortBy(s, key)[|s| - 1] == s[j' + 1];
      }
    }
  }

  lemma LastGreatestAtFront<T>(s: seq<T>, key: T -> real, j': int)
    requires |s| > 1 && IsLastGreatest(s[1..], key, j') && key(s[0]) > key(s[j' + 1])
    ensures IsLastGreatest(s, key, 0)
  {
    forall k | 0 < k < |s| ensures key(s[k]) < key(s[0]) {
      assert s[k] == s[1..][k - 1];
    }
  }

  lemma LastGreatestBehindFront<T>(s: seq<T>, key: T -> real, j': int)
    requires |s| > 1 && IsLastGreatest(s[1..], key, j') && key(s[0]) <= key(s[j' + 1])
    ensures IsLastGreatest(s, key, j' + 1)
  {
    forall k | 0 < k < |s| ensures key(s[k]) <= key(s[j' + 1]) {
      assert s[k] == s[1..][k - 1];
    }
    forall k | j' + 1 < k < |s| ensures key(s[k]) < key(s[j' + 1]) {
      assert s[k] == s[1..][k - 1];
    }
  }

  /** Insertion adds the inserted element's value to any sum. */
  lemma {:induction false} InsertSum<T>(x: T, s: seq<T>, key: T -> real, f: T -> real)
    ensures SumOf(Insert(x, s, key), f) == f(x) + SumOf(s, f)
  {
    if s != [] && key(x) > key(s[0]) {
      InsertSum(x, s[1..], key, f);
      assert ([s[0]] + Insert(x, s[1..], key))[1..] == Insert(x, s[1..], key);
    }
  }

  /** Sorting does not change a sum. */
  lemma {:induction false} SortBySum<T>(s: seq<T>, key: T -> real, f: T -> real)
    ensures SumOf(SortBy(s, key), f) == SumOf(s, f)
  {
    if s != [] {
      SortBySum(s[1..], key, f);
      InsertSum(s[0], SortBy(s[1..], key), key, f);
    }
  }

  /** The elements of `s` whose key is `v`, in their order in `s`. */
  function KeyClass<T>(s: seq<T>, key: T -> real, v: real): seq<T>
  {
    if s == [] then [] else (if key(s[0]) == v then [s[0]] else []) + KeyClass(s[1..], key, v)
  }

  /** Inserting `x` puts it in front of every element of its key class. */
  lemma {:induction false} InsertClass<T>(x: T, s: seq<T>, key: T -> real, v: real)
    ensures KeyClass(Insert(x, s, key), key, v) == (if key(x) == v then [x] else []) + KeyClass(s, key, v)
  {
    if s != [] && key(x) > key(s[0]) {
      InsertClass(x, s[1..], key, v);
      assert ([s[0]] + Insert(x, s[1..], key))[1..] == Insert(x, s[1..], key);
    } else {
      assert ([x] + s)[1..] == s;
    }
  }

  /** Full stability: for every key value, the elements with that key appear
      in the sorted sequence in exactly their input order. */
  lemma {:induction false} SortByStable<T>(s: seq<T>, key: T -> real)
    ensures forall v :: KeyClass(SortBy(s, key), key, v) == KeyClass(s, key, v)
  {
    if s != [] {
      SortByStable(s[1..], key);
      forall v ensures KeyClass(SortBy(s, key), key, v) == KeyClass(s, key, v) {
        InsertClass(s[0], SortBy(s[1..], key), key, v);
      }
    }
  }

  /** The key class of a prefix is a prefix of the key class. */
  lemma {:induction false} PrefixClass<T>(s: seq<T>, n: nat, key: T -> real, v: real)
    requires n <= |s|
    ensures KeyClass(s[..n], key, v) <= KeyClass(s, key, v)
  {
    if n > 0 {
      PrefixClass(s[1..], n - 1, key, v);
      assert s[..n][1..] == s[1..][..n - 1];
    }
  }
}
