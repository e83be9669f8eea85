/**
 * Sequence utilities: the stable sort that `Array.prototype.sort` performs with a numeric
 * comparator `(a, b) => key(a) - key(b)`, and the subsequence relation used to say that a
 * list was filtered without being reordered.
 */
module Seqs {

  predicate SortedBy<T(==)>(s: seq<T>, key: T -> int) {
    forall i, j :: 0 <= i < j < |s| ==> key(s[i]) <= key(s[j])
  }

  /** No two positions share a key (for text spans: no two spans start at the same offset). */
  predicate DistinctKeys<T(==)>(s: seq<T>, key: T -> int) {
    forall i, j :: 0 <= i < |s| && 0 <= j < |s| && i != j ==> key(s[i]) != key(s[j])
  }

  /** Inserts `x` in front of the first element whose key is not smaller. */
  function InsertBy<T(==)>(x: T, s: seq<T>, key: T -> int): (r: seq<T>)
    requires SortedBy(s, key)
    ensures SortedBy(r, key)
    ensures multiset(r) == multiset(s) + multiset{x}
  {
    if s == [] || key(x) <= key(s[0]) then
      ConsSorted(x, s, key);
      [x] + s
    else
      var rest := InsertBy(x, s[1..], key);
      assert s == [s[0]] + s[1..];
      BoundedBelow(s[0], s[1..], x, rest, key);
      ConsSorted(s[0], rest, key);
      [s[0]] + rest
  }

  /** An element whose key bounds a sorted list from below can be put in front of it. */
  lemma ConsSorted<T>(h: T, t: seq<T>, key: T -> int)
    requires SortedBy(t, key)
    requires t == [] || key(h) <= key(t[0])
    ensures SortedBy([h] + t, key)
  {
    var r := [h] + t;
    forall i, j | 0 <= i < j < |r| ensures key(r[i]) <= key(r[j]) {
      if i == 0 {
        assert key(t[0]) <= key(t[j - 1]);
      }
    }
  }

  /** A lower bound of a list and of `x` bounds every permutation of the two together. */
  lemma BoundedBelow<T>(h: T, s: seq<T>, x: T, r: seq<T>, key: T -> int)
    requires SortedBy(s, key) && (s == [] || key(h) <= key(s[0])) && key(h) <= key(x)
    requires multiset(r) == multiset(s) + multiset{x}
    ensures r == [] || key(h) <= key(r[0])
  {
    if r != [] {
      assert r[0] in multiset(r);
      if r[0] != x {
        assert r[0] in multiset(s);
        var i :| 0 <= i < |s| && s[i] == r[0];
        assert key(s[0]) <= key(s[i]);
      }
    }
  }

  /** Stable sort by ascending key: an element never overtakes an earlier one with an equal key. */
  function SortBy<T(==)>(s: seq<T>, key: T -> int): (r: seq<T>)
    ensures SortedBy(r, key)
    ensures multiset(r) == multiset(s)
    ensures |r| == |s|
  {
    if s == [] then []
    else
      var r := InsertBy(s[0], SortBy(s[1..], key), key);
      assert s == [s[0]] + s[1..];
      assert |r| == |multiset(r)|;
      r
  }

  /** A sorted arrangement of elements with distinct keys is unique. */
  lemma {:induction false} SortedUnique<T>(a: seq<T>, b: seq<T>, key: T -> int)
    requires SortedBy(a, key) && SortedBy(b, key)
    requires multiset(a) == multiset(b)
    requires DistinctKeys(a, key)
    ensures a == b
  {
    if a == [] {
      assert |b| == |multiset(b)| == 0;
    } else {
      assert |b| == |multiset(b)| == |multiset(a)| == |a|;
      var j := IndexOfElement(b, a[0]);
      var i := IndexOfElement(a, b[0]);
      assert key(a[0]) <= key(a[i]);
      assert key(b[0]) <= key(b[j]);
      if i != 0 {
        assert false;
      }
      assert a[0] == b[0];
      HeadTail(a);
      HeadTail(b);
      assert multiset(a[1..]) == multiset(a) - multiset{a[0]};
      assert multiset(b[1..]) == multiset(b) - multiset{b[0]};
      SortedUnique(a[1..], b[1..], key);
    }
  }

  /** Returns a position at which `x` occurs in `s`, given that it occurs. */
  lemma IndexOfElement<T>(s: seq<T>, x: T) returns (i: nat)
    requires x in multiset(s)
    ensures i < |s| && s[i] == x
  {
    assert x in s;
    i :| 0 <= i < |s| && s[i] == x;
  }

  lemma HeadTail<T>(s: seq<T>)
    requires s != []
    ensures multiset(s) == multiset{s[0]} + multiset(s[1..])
  {
    assert s == [s[0]] + s[1..];
  }

  /** Sorting makes the order in which elements were collected irrelevant, as long as keys are distinct. */
  lemma SortIgnoresArrivalOrder<T>(a: seq<T>, b: seq<T>, key: T -> int)
    requires multiset(a) == multiset(b)
    requires DistinctKeys(a, key)
    ensures SortBy(a, key) == SortBy(b, key)
  {
    var sa := SortBy(a, key);
    assert DistinctKeys(sa, key) by {
      forall i, j | 0 <= i < |sa| && 0 <= j < |sa| && i != j
        ensures key(sa[i]) != key(sa[j])
      {
        DistinctKeysOfPermutation(a, sa, key, i, j);
      }
    }
    SortedUnique(sa, SortBy(b, key), key);
  }

  lemma DistinctKeysOfPermutation<T>(a: seq<T>, p: seq<T>, key: T -> int, i: nat, j: nat)
    requires multiset(a) == multiset(p) && DistinctKeys(a, key)
    requires i < |p| && j < |p| && i != j
    ensures key(p[i]) != key(p[j])
  {
    var x := IndexOfElement(a, p[i]);
    if p[i] == p[j] {
      RepeatedCount(p, i, j);
      var y := SecondOccurrence(a, x);
      assert false;
    } else {
      var y := IndexOfElement(a, p[j]);
      assert x != y;
    }
  }

  /** Two positions holding the same value make its multiplicity at least two. */
  lemma RepeatedCount<T>(s: seq<T>, i: nat, j: nat)
    requires i < |s| && j < |s| && i != j && s[i] == s[j]
    ensures multiset(s)[s[i]] >= 2
  {
    var rest := s[..i] + s[i + 1..];
    assert s == s[..i] + [s[i]] + s[i + 1..];
    assert multiset(s) == multiset(rest) + multiset{s[i]};
    if j < i {
      assert rest[j] == s[j];
    } else {
      assert rest[j - 1] == s[j];
    }
    assert s[j] in multiset(rest);
  }

  /** A value of multiplicity at least two occurs at a second position. */
  lemma SecondOccurrence<T>(s: seq<T>, x: nat) returns (y: nat)
    requires x < |s| && multiset(s)[s[x]] >= 2
    ensures y < |s| && y != x && s[y] == s[x]
  {
    var rest := s[..x] + s[x + 1..];
    assert s == s[..x] + [s[x]] + s[x + 1..];
    assert multiset(s) == multiset(rest) + multiset{s[x]};
    var k := IndexOfElement(rest, s[x]);
    y := if k < x then k else k + 1;
  }

  /** Intervals `[lo, hi)` that are non-empty and pairwise do not overlap, in whatever order. */
  predicate Apart<T>(s: seq<T>, lo: T -> int, hi: T -> int) {
    (forall i :: 0 <= i < |s| ==> lo(s[i]) < hi(s[i]))
    && forall i, j :: 0 <= i < |s| && 0 <= j < |s| && i != j ==>
      hi(s[i]) <= lo(s[j]) || hi(s[j]) <= lo(s[i])
  }

  /** In any arrangement of intervals that do not overlap, one starting no later than another ends before it. */
  lemma PermutedPairFollows<T>(s: seq<T>, p: seq<T>, lo: T -> int, hi: T -> int, i: nat, j: nat)
    requires Apart(s, lo, hi) && multiset(p) == multiset(s)
    requires i < j < |p| && lo(p[i]) <= lo(p[j])
    ensures hi(p[i]) <= lo(p[j])
  {
    var x := IndexOfElement(s, p[i]);
    var y := IndexOfElement(s, p[j]);
    if x == y {
      RepeatedCount(p, i, j);
      var z := SecondOccurrence(s, x);
      assert false;
    }
  }

  /** Extending a prefix by the next element gives the next prefix. */
  lemma PrefixSnoc<T>(s: seq<T>, i: nat)
    requires i < |s|
    ensures s[..i] + [s[i]] == s[..i + 1]
  {
  }

  /** Concatenation is associative. */
  lemma Assoc<T>(a: seq<T>, b: seq<T>, c: seq<T>)
    ensures a + (b + c) == (a + b) + c
  {
  }

  /** Overwriting position `i` extends the prefix by the new value and keeps what follows. */
  lemma UpdateAt<T>(s: seq<T>, i: nat, x: T)
    requires i < |s|
    ensures s[i := x][..i + 1] == s[..i] + [x] && s[i := x][i + 1..] == s[i + 1..]
  {
  }

  /** Where the five parts of `pre + o + mid + c + post` lie, `o` and `c` being the delimiters. */
  lemma Framed<T>(pre: seq<T>, o: seq<T>, mid: seq<T>, c: seq<T>, post: seq<T>)
    ensures var s := pre + o + mid + c + post;
      var p0, q0 := |pre|, |pre| + |o| + |mid|;
      |s| == q0 + |c| + |post|
      && s[p0..p0 + |o|] == o && s[q0..q0 + |c|] == c && s[p0..q0 + |c|] == o + mid + c
      && (forall k :: 0 <= k < p0 ==> s[k] == pre[k])
      && (forall k :: q0 + |c| <= k < |s| ==> s[k] == post[k - q0 - |c|])
  {
    var s := pre + o + mid + c + post;
    var p0, q0 := |pre|, |pre| + |o| + |mid|;
    assert s == pre + (o + mid + c) + post;
    assert s[p0..q0 + |c|] == o + mid + c;
    assert (o + mid + c)[..|o|] == o;
    assert (o + mid + c)[|o| + |mid|..] == c;
  }

  predicate IsSubsequence<T(==)>(a: seq<T>, b: seq<T>)
    decreases |b|
  {
    if a == [] then true
    else if b == [] then false
    else (a[0] == b[0] && IsSubsequence(a[1..], b[1..])) || IsSubsequence(a, b[1..])
  }
}
