/** Generic facts about sequences: duplicate-freedom, subsequences and a stable sort by an integer key.
    The stable sort stands for both orderings the system relies on: MongoDB's `sort({ createdAt: 1 })`
    and JavaScript's `Array.prototype.sort` with a `(a, b) => a.createdAt - b.createdAt` comparator
    (stable since ECMAScript 2019). */
module Seqs {

  /** No element occurs twice. */
  predicate NoDup<T(==)>(s: seq<T>) {
    forall i, j :: 0 <= i < j < |s| ==> s[i] != s[j]
  }

  /** Every element's key is at most the key of every later element. */
  predicate SortedBy<T>(s: seq<T>, key: T -> int) {
    forall i, j :: 0 <= i < j < |s| ==> key(s[i]) <= key(s[j])
  }

  /** `sub` is `s` with some elements dropped and the rest kept in their order. */
  predicate IsSubseq<T(==)>(sub: seq<T>, s: seq<T>)
    decreases |s|
  {
    if sub == [] then true
    else if s == [] then false
    else if sub[0] == s[0] then IsSubseq(sub[1..], s[1..])
    else IsSubseq(sub, s[1..])
  }

  /** The elements of `s` whose key is `k`, in their order in `s`. */
  function WithKey<T>(s: seq<T>, key: T -> int, k: int): (r: seq<T>)
    ensures forall i :: 0 <= i < |r| ==> key(r[i]) == k
  {
    if s == [] then []
    else WithKey(s[..|s| - 1], key, k) + (if key(s[|s| - 1]) == k then [s[|s| - 1]] else [])
  }

  /** Stable insertion of `x` into `t`: `x` lands after the trailing run of elements whose keys exceed
      its own, so it follows every element of `t` with a key at most its own when `t` is sorted. */
  function Insert<T>(t: seq<T>, x: T, key: T -> int): (r: seq<T>)
    ensures |r| == |t| + 1
    ensures multiset(r) == multiset(t) + multiset{x}
    ensures SortedBy(t, key) ==> SortedBy(r, key)
  {
    if t == [] || key(t[|t| - 1]) <= key(x) then t + [x]
    else
      var init, last := t[..|t| - 1], t[|t| - 1];
      assert t == init + [last];
      var r' := Insert(init, x, key);
      assert SortedBy(t, key) ==> SortedBy(r' + [last], key) by {
        if SortedBy(t, key) {
          assert SortedBy(init, key);
          forall e | e in r' ensures key(e) <= key(last) {
            assert e in multiset(r');
            if e != x {
              var k :| 0 <= k < |init| && init[k] == e;
              assert t[k] == e;
            }
          }
        }
      }
      r' + [last]
  }

  /** Insertion sort: sorted by `key`, a permutation of `s`. */
  function SortBy<T>(s: seq<T>, key: T -> int): (r: seq<T>)
    ensures |r| == |s|
    ensures multiset(r) == multiset(s)
    ensures SortedBy(r, key)
  {
    if s == [] then []
    else
      assert s == s[..|s| - 1] + [s[|s| - 1]];
      Insert(SortBy(s[..|s| - 1], key), s[|s| - 1], key)
  }

  lemma {:induction false} WithKeyAppend<T>(a: seq<T>, b: seq<T>, key: T -> int, k: int)
    ensures WithKey(a + b, key, k) == WithKey(a, key, k) + WithKey(b, key, k)
    decreases |b|
  {
    if b == [] {
      assert a + b == a;
    } else {
      var b', last := b[..|b| - 1], b[|b| - 1];
      assert (a + b)[..|a + b| - 1] == a + b';
      WithKeyAppend(a, b', key, k);
    }
  }

  /** Insertion puts `x` among the elements with its key after all of them and moves no other element
      past one with the same key. */
  lemma {:induction false} InsertWithKey<T>(t: seq<T>, x: T, key: T -> int, k: int)
    ensures WithKey(Insert(t, x, key), key, k) == WithKey(t, key, k) + (if key(x) == k then [x] else [])
    decreases |t|
  {
    if t == [] || key(t[|t| - 1]) <= key(x) {
      WithKeyAppend(t, [x], key, k);
    } else {
      var init, last := t[..|t| - 1], t[|t| - 1];
      InsertWithKey(init, x, key, k);
      WithKeyAppend(Insert(init, x, key), [last], key, k);
    }
  }

  /** The sort is stable: among elements with equal keys, the input order survives. */
  lemma {:induction false} SortByStable<T>(s: seq<T>, key: T -> int, k: int)
    ensures WithKey(SortBy(s, key), key, k) == WithKey(s, key, k)
    decreases |s|
  {
    if s != [] {
      SortByStable(s[..|s| - 1], key, k);
      InsertWithKey(SortBy(s[..|s| - 1], key), s[|s| - 1], key, k);
    }
  }

  /** Sorting a sequence that is already in key order leaves it as it is. */
  lemma {:induction false} SortBySortedIdentity<T>(s: seq<T>, key: T -> int)
    requires SortedBy(s, key)
    ensures SortBy(s, key) == s
    decreases |s|
  {
    if s != [] {
      var init := s[..|s| - 1];
      assert SortedBy(init, key);
      SortBySortedIdentity(init, key);
      if |init| > 0 {
        assert key(init[|init| - 1]) <= key(s[|s| - 1]);
      }
      assert init + [s[|s| - 1]] == s;
    }
  }

  /** Insertion splits `t` in two at `i` and puts `x` between the halves; every element after `x` has a
      larger key. */
  lemma {:induction false} InsertSplits<T>(t: seq<T>, x: T, key: T -> int) returns (i: nat)
    ensures i <= |t| && Insert(t, x, key) == t[..i] + [x] + t[i..]
    ensures forall j :: i <= j < |t| ==> key(x) < key(t[j])
    decreases |t|
  {
    if t == [] || key(t[|t| - 1]) <= key(x) {
      i := |t|;
      assert Insert(t, x, key) == t[..|t|] + [x] + t[|t|..];
    } else {
      var init, last := t[..|t| - 1], t[|t| - 1];
      assert t == init + [last];
      i := InsertSplits(init, x, key);
      assert Insert(t, x, key) == Insert(init, x, key) + [last];
      SplitThenAppend(init, last, x, i);
      forall j | i <= j < |t| ensures key(x) < key(t[j]) {
        if j < |init| {
          assert t[j] == init[j];
        }
      }
    }
  }

  /** Splitting, then appending, is appending, then splitting at the same place. */
  lemma SplitThenAppend<T>(s: seq<T>, last: T, x: T, i: nat)
    requires i <= |s|
    ensures s[..i] + [x] + s[i..] + [last] == (s + [last])[..i] + [x] + (s + [last])[i..]
  {
    assert (s + [last])[..i] == s[..i];
    assert (s + [last])[i..] == s[i..] + [last];
  }

  /** Appending one element to a sorted sequence and sorting again keeps every existing element in its
      place relative to the others: the new element lands at `i`, the one gap with every element whose
      key is at most its own before it and every element with a larger key after it. */
  lemma AppendThenSort<T>(s: seq<T>, x: T, key: T -> int) returns (i: nat)
    requires SortedBy(s, key)
    ensures i <= |s| && SortBy(s + [x], key) == s[..i] + [x] + s[i..]
    ensures forall j :: 0 <= j < i ==> key(s[j]) <= key(x)
    ensures forall j :: i <= j < |s| ==> key(x) < key(s[j])
  {
    assert (s + [x])[..|s + [x]| - 1] == s;
    SortBySortedIdentity(s, key);
    i := InsertSplits(s, x, key);
    var r := Insert(s, x, key);
    forall j | 0 <= j < i ensures key(s[j]) <= key(x) {
      assert r[j] == s[j] && r[i] == x;
    }
  }

  /** A duplicate-free sequence holds each value at most once. */
  lemma {:induction false} NoDupCount<T>(s: seq<T>, x: T)
    requires NoDup(s)
    ensures multiset(s)[x] <= 1
    decreases |s|
  {
    if s != [] {
      assert s == [s[0]] + s[1..];
      assert NoDup(s[1..]);
      NoDupCount(s[1..], x);
      if x == s[0] {
        assert x !in s[1..];
      }
    }
  }

  /** A permutation has the same elements. */
  lemma PermutationSameMembers<T>(s: seq<T>, t: seq<T>)
    requires multiset(s) == multiset(t)
    ensures forall x :: x in s <==> x in t
  {
    forall x ensures x in s <==> x in t {
      assert x in s <==> x in multiset(s);
      assert x in t <==> x in multiset(t);
    }
  }

  /** A permutation of a duplicate-free sequence is duplicate-free. */
  lemma PermutationKeepsNoDup<T>(s: seq<T>, t: seq<T>)
    requires NoDup(s) && multiset(s) == multiset(t)
    ensures NoDup(t)
  {
    forall i, j | 0 <= i < j < |t| ensures t[i] != t[j] {
      if t[i] == t[j] {
        var x := t[i];
        assert t == t[..j] + [t[j]] + t[j + 1..];
        assert x in t[..j];
        assert multiset(t)[x] >= 2;
        NoDupCount(s, x);
        assert false;
      }
    }
  }

  /** A subsequence of a sorted sequence is sorted. */
  lemma {:induction false} SubseqSorted<T>(sub: seq<T>, s: seq<T>, key: T -> int)
    requires IsSubseq(sub, s) && SortedBy(s, key)
    ensures SortedBy(sub, key)
    decreases |s|
  {
    if sub != [] && s != [] {
      assert SortedBy(s[1..], key);
      if sub[0] == s[0] {
        SubseqSorted(sub[1..], s[1..], key);
        SubseqMembers(sub[1..], s[1..]);
        forall j | 0 < j < |sub| ensures key(sub[0]) <= key(sub[j]) {
          assert sub[j] == sub[1..][j - 1];
          assert sub[j] in s[1..];
        }
      } else {
        SubseqSorted(sub, s[1..], key);
      }
    }
  }

  /** Every element of a subsequence is an element of the sequence. */
  lemma {:induction false} SubseqMembers<T>(sub: seq<T>, s: seq<T>)
    requires IsSubseq(sub, s)
    ensures forall e :: e in sub ==> e in s
    decreases |s|
  {
    if sub != [] && s != [] {
      if sub[0] == s[0] {
        SubseqMembers(sub[1..], s[1..]);
        assert sub == [sub[0]] + sub[1..];
      } else {
        SubseqMembers(sub, s[1..]);
      }
    }
  }
}
