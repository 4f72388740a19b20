/** `Array.prototype.sort(compare)`, which the completers and the dependency wizard call
    on search results, modelled as a stable insertion sort. The engine's own algorithm is
    not specified by the language; where `compare` is a total preorder on the input every
    stable sort gives this result. */
module Sorting {

  /** Inserts `x` before the first element it does not compare above. */
  function Insert<T>(x: T, s: seq<T>, compare: (T, T) -> int): (r: seq<T>)
    ensures |r| == |s| + 1
  {
    if s == [] then [x]
    else if compare(x, s[0]) <= 0 then [x] + s
    else
      var rest := Insert(x, s[1..], compare);
      assert s == [s[0]] + s[1..];
      [s[0]] + rest
  }

  /** `s.sort(compare)` */
  function Sort<T>(s: seq<T>, compare: (T, T) -> int): (r: seq<T>)
    ensures |r| == |s|
  {
    if s == [] then []
    else
      assert s == [s[0]] + s[1..];
      Insert(s[0], Sort(s[1..], compare), compare)
  }

  lemma {:induction false} InsertPermutes<T>(x: T, s: seq<T>, compare: (T, T) -> int)
    ensures multiset(Insert(x, s, compare)) == multiset(s) + multiset{x}
  {
    if s != [] && compare(x, s[0]) > 0 {
      InsertPermutes(x, s[1..], compare);
      assert s == [s[0]] + s[1..];
    }
  }

  /** The sorted sequence is a permutation of the input. */
  lemma {:induction false} SortPermutes<T>(s: seq<T>, compare: (T, T) -> int)
    ensures multiset(Sort(s, compare)) == multiset(s)
  {
    if s != [] {
      SortPermutes(s[1..], compare);
      InsertPermutes(s[0], Sort(s[1..], compare), compare);
      assert s == [s[0]] + s[1..];
    }
  }

  /** Every earlier element compares at most equal to every later one. */
  ghost predicate SortedBy<T>(s: seq<T>, compare: (T, T) -> int) {
    forall i, j :: 0 <= i < j < |s| ==> compare(s[i], s[j]) <= 0
  }

  /** `compare(a, b) <= 0` is total and transitive on the elements of `s`. */
  ghost predicate TotalPreorderOn<T>(compare: (T, T) -> int, s: multiset<T>) {
    && (forall a, b {:trigger compare(a, b)} :: a in s && b in s ==> compare(a, b) <= 0 || compare(b, a) <= 0)
    && (forall a, b, c {:trigger compare(a, b), compare(b, c)} ::
          a in s && b in s && c in s && compare(a, b) <= 0 && compare(b, c) <= 0 ==> compare(a, c) <= 0)
  }

  lemma TotalPreorderOnSubset<T>(compare: (T, T) -> int, s: multiset<T>, t: multiset<T>)
    requires TotalPreorderOn(compare, s) && t <= s
    ensures TotalPreorderOn(compare, t)
  {
  }

  lemma HeadAtMostAll<T>(s: seq<T>, compare: (T, T) -> int)
    requires SortedBy(s, compare) && s != []
    ensures forall y :: y in s[1..] ==> compare(s[0], y) <= 0
  {
    forall y | y in s[1..] ensures compare(s[0], y) <= 0 {
      var k :| 0 <= k < |s[1..]| && s[1..][k] == y;
      assert s[k + 1] == y;
    }
  }

  lemma ConsSorted<T>(y: T, s: seq<T>, compare: (T, T) -> int)
    requires SortedBy(s, compare)
    requires forall z :: z in s ==> compare(y, z) <= 0
    ensures SortedBy([y] + s, compare)
  {
    var r := [y] + s;
    forall i, j | 0 <= i < j < |r| ensures compare(r[i], r[j]) <= 0 {
      assert r[j] == s[j - 1];
      if i == 0 {
        assert s[j - 1] in s;
      } else {
        assert r[i] == s[i - 1];
      }
    }
  }

  /** `x` placed before a sorted `s` whose head it does not exceed keeps the order. */
  lemma SortedInFront<T>(x: T, s: seq<T>, compare: (T, T) -> int)
    requires SortedBy(s, compare) && s != []
    requires TotalPreorderOn(compare, multiset(s) + multiset{x})
    requires compare(x, s[0]) <= 0
    ensures SortedBy([x] + s, compare)
  {
    var m := multiset(s) + multiset{x};
    HeadAtMostAll(s, compare);
    forall z | z in s ensures compare(x, z) <= 0 {
      if z != s[0] {
        assert z in s[1..];
        assert s[0] in m && x in m && z in m;
      }
    }
    ConsSorted(x, s, compare);
  }

  lemma SortedTail<T>(s: seq<T>, compare: (T, T) -> int)
    requires SortedBy(s, compare) && s != []
    ensures SortedBy(s[1..], compare)
  {
  }

  /** The head of a sorted `s` that does not exceed `x` stays in front of `x` inserted in the tail. */
  lemma HeadBeforeInsert<T>(x: T, s: seq<T>, compare: (T, T) -> int)
    requires SortedBy(s, compare) && s != []
    requires compare(s[0], x) <= 0
    ensures forall z :: z in Insert(x, s[1..], compare) ==> compare(s[0], z) <= 0
  {
    HeadAtMostAll(s, compare);
    var rest := Insert(x, s[1..], compare);
    InsertPermutes(x, s[1..], compare);
    forall z | z in rest ensures compare(s[0], z) <= 0 {
      assert z in multiset(rest);
    }
  }

  lemma {:induction false} InsertSorted<T>(x: T, s: seq<T>, compare: (T, T) -> int)
    requires SortedBy(s, compare)
    requires TotalPreorderOn(compare, multiset(s) + multiset{x})
    ensures SortedBy(Insert(x, s, compare), compare)
  {
    if s == [] {
    } else if compare(x, s[0]) <= 0 {
      SortedInFront(x, s, compare);
    } else {
      var m := multiset(s) + multiset{x};
      var tail := s[1..];
      assert s == [s[0]] + tail;
      assert s[0] in m && x in m;
      assert compare(s[0], x) <= 0;
      TotalPreorderOnSubset(compare, m, multiset(tail) + multiset{x});
      SortedTail(s, compare);
      InsertSorted(x, tail, compare);
      HeadBeforeInsert(x, s, compare);
      ConsSorted(s[0], Insert(x, tail, compare), compare);
    }
  }

  /** Sorting with a total preorder yields a sorted permutation. */
  lemma {:induction false} SortSorted<T>(s: seq<T>, compare: (T, T) -> int)
    requires TotalPreorderOn(compare, multiset(s))
    ensures SortedBy(Sort(s, compare), compare)
  {
    if s != [] {
      assert s == [s[0]] + s[1..];
      TotalPreorderOnSubset(compare, multiset(s), multiset(s[1..]));
      SortSorted(s[1..], compare);
      SortPermutes(s[1..], compare);
      InsertSorted(s[0], Sort(s[1..], compare), compare);
    }
  }

  /** A strict weak order on keys: irreflexive, transitive, and "not below" is transitive. */
  ghost predicate StrictWeakOn<T>(below: (T, T) -> bool, s: multiset<T>) {
    && (forall a {:trigger below(a, a)} :: a in s ==> !below(a, a))
    && (forall a, b, c {:trigger below(a, b), below(b, c)} ::
          a in s && b in s && c in s && below(a, b) && below(b, c) ==> below(a, c))
    && (forall a, b, c {:trigger below(a, b), below(b, c)} ::
          a in s && b in s && c in s && !below(a, b) && !below(b, c) ==> !below(a, c))
  }

  /** `compare` puts `a` first whenever its key is below `b`'s, and last in the opposite case. */
  ghost predicate RespectsKeys<T>(compare: (T, T) -> int, below: (T, T) -> bool, s: multiset<T>) {
    forall a, b {:trigger compare(a, b)} :: a in s && b in s ==>
      (below(a, b) ==> compare(a, b) < 0) && (below(b, a) ==> compare(a, b) > 0)
  }

  /** No later element has a key below an earlier one. */
  ghost predicate KeyOrdered<T>(s: seq<T>, below: (T, T) -> bool) {
    forall i, j :: 0 <= i < j < |s| ==> !below(s[j], s[i])
  }

  lemma ConsKeyOrdered<T>(y: T, s: seq<T>, below: (T, T) -> bool)
    requires KeyOrdered(s, below)
    requires forall z :: z in s ==> !below(z, y)
    ensures KeyOrdered([y] + s, below)
  {
    var r := [y] + s;
    forall i, j | 0 <= i < j < |r| ensures !below(r[j], r[i]) {
      assert r[j] == s[j - 1];
      if i == 0 {
        assert s[j - 1] in s;
      } else {
        assert r[i] == s[i - 1];
      }
    }
  }

  lemma {:induction false} InsertKeyOrdered<T>(x: T, s: seq<T>, compare: (T, T) -> int, below: (T, T) -> bool)
    requires KeyOrdered(s, below)
    requires StrictWeakOn(below, multiset(s) + multiset{x})
    requires RespectsKeys(compare, below, multiset(s) + multiset{x})
    ensures KeyOrdered(Insert(x, s, compare), below)
  {
    var m := multiset(s) + multiset{x};
    if s == [] {
    } else {
      var tail := s[1..];
      assert s == [s[0]] + tail;
      assert s[0] in m && x in m;
      var c := compare(x, s[0]);
      if c <= 0 {
        assert !below(s[0], x);
        forall z | z in s ensures !below(z, x) {
          if z != s[0] {
            var k :| 0 <= k < |s| && s[k] == z;
            assert !below(s[k], s[0]);
            assert z in m;
          }
        }
        ConsKeyOrdered(x, s, below);
      } else {
        assert !below(x, s[0]);
        assert multiset(tail) + multiset{x} <= m;
        assert KeyOrdered(tail, below);
        InsertKeyOrdered(x, tail, compare, below);
        var rest := Insert(x, tail, compare);
        InsertPermutes(x, tail, compare);
        forall z | z in rest ensures !below(z, s[0]) {
          assert z in multiset(rest);
          if z != x {
            assert z in tail;
            var k :| 0 <= k < |tail| && tail[k] == z;
            assert s[k + 1] == z;
          }
        }
        ConsKeyOrdered(s[0], rest, below);
      }
    }
  }

  /** Sorting with a comparator that respects a key order leaves the keys in order,
      whatever the comparator does between elements of equal key. */
  lemma {:induction false} SortKeyOrdered<T>(s: seq<T>, compare: (T, T) -> int, below: (T, T) -> bool)
    requires StrictWeakOn(below, multiset(s))
    requires RespectsKeys(compare, below, multiset(s))
    ensures KeyOrdered(Sort(s, compare), below)
  {
    if s != [] {
      assert s == [s[0]] + s[1..];
      assert multiset(s[1..]) <= multiset(s);
      SortKeyOrdered(s[1..], compare, below);
      SortPermutes(s[1..], compare);
      InsertKeyOrdered(s[0], Sort(s[1..], compare), compare, below);
    }
  }

  /** `x` lands after the longest prefix of `s` whose elements all compare above it. */
  lemma {:induction false} InsertAt<T>(x: T, s: seq<T>, compare: (T, T) -> int, m: nat)
    requires m <= |s|
    requires forall k :: 0 <= k < m ==> compare(x, s[k]) > 0
    requires m < |s| ==> compare(x, s[m]) <= 0
    ensures Insert(x, s, compare) == s[..m] + [x] + s[m..]
  {
    if m == 0 {
      assert s[..0] + [x] + s[0..] == [x] + s;
    } else {
      var rest := s[1..];
      assert Insert(x, rest, compare) == rest[..m - 1] + [x] + rest[m - 1..] by {
        forall k | 0 <= k < m - 1 ensures compare(x, rest[k]) > 0 {
          assert rest[k] == s[k + 1];
        }
        InsertAt(x, rest, compare, m - 1);
      }
      assert Insert(x, s, compare) == [s[0]] + Insert(x, rest, compare) by {
        InsertPast(x, s, compare);
      }
      assert [s[0]] + (rest[..m - 1] + [x] + rest[m - 1..]) == s[..m] + [x] + s[m..] by {
        assert rest[..m - 1] == s[1..m] && rest[m - 1..] == s[m..];
        assert s[..m] == [s[0]] + s[1..m];
      }
    }
  }

  lemma InsertPast<T>(x: T, s: seq<T>, compare: (T, T) -> int)
    requires s != [] && compare(x, s[0]) > 0
    ensures Insert(x, s, compare) == [s[0]] + Insert(x, s[1..], compare)
  {
  }

  /** `array.sort(compare)` in place: the suffix from `i` on is kept sorted while `i` moves
      to the front. */
  method SortInPlace<T>(a: array<T>, compare: (T, T) -> int)
    modifies a
    ensures a[..] == Sort(old(a[..]), compare)
  {
    ghost var s := a[..];
    var i := a.Length;
    while i > 0
      invariant 0 <= i <= a.Length
      invariant a[..i] == s[..i]
      invariant a[i..] == Sort(s[i..], compare)
    {
      assert a[i - 1] == s[i - 1];
      InsertInPlace(a, i - 1, compare);
      assert s[i - 1..][0] == s[i - 1] && s[i - 1..][1..] == s[i..];
      i := i - 1;
    }
  }

  /** Slides `a[i]` right past the elements after it that it compares above. */
  method InsertInPlace<T>(a: array<T>, i: nat, compare: (T, T) -> int)
    requires i < a.Length
    modifies a
    ensures a[..i] == old(a[..i])
    ensures a[i..] == Insert(old(a[i]), old(a[i + 1..]), compare)
  {
    var x := a[i];
    ghost var t := a[i + 1..];
    assert x == old(a[i]) && t == old(a[i + 1..]);
    var j := i;
    while j + 1 < a.Length && compare(x, a[j + 1]) > 0
      invariant i <= j < a.Length
      invariant forall k :: 0 <= k < i ==> a[k] == old(a[k])
      invariant forall k :: i <= k < j ==> a[k] == t[k - i]
      invariant forall k :: j < k < a.Length ==> a[k] == t[k - i - 1]
      invariant forall k :: 0 <= k < j - i ==> compare(x, t[k]) > 0
    {
      a[j] := a[j + 1];
      j := j + 1;
    }
    assert j + 1 < a.Length ==> compare(x, t[j - i]) <= 0;
    a[j] := x;
    ghost var b := a[..];
    SlidSuffix(b, i, j, t, x, compare);
    assert a[i..] == b[i..];
    assert a[..i] == old(a[..i]);
  }

  /** The suffix the slide leaves is `t` with `x` inserted: the elements `x` passed, then
      `x`, then the rest. */
  lemma SlidSuffix<T>(b: seq<T>, i: nat, j: nat, t: seq<T>, x: T, compare: (T, T) -> int)
    requires i <= j < |b| && |t| == |b| - i - 1
    requires forall k :: i <= k < j ==> b[k] == t[k - i]
    requires b[j] == x
    requires forall k :: j < k < |b| ==> b[k] == t[k - i - 1]
    requires forall k :: 0 <= k < j - i ==> compare(x, t[k]) > 0
    requires j - i < |t| ==> compare(x, t[j - i]) <= 0
    ensures b[i..] == Insert(x, t, compare)
  {
    InsertAt(x, t, compare, j - i);
    SlidParts(b, i, j, t, x);
  }

  lemma SlidParts<T>(b: seq<T>, i: nat, j: nat, t: seq<T>, x: T)
    requires i <= j < |b| && |t| == |b| - i - 1
    requires forall k :: i <= k < j ==> b[k] == t[k - i]
    requires b[j] == x
    requires forall k :: j < k < |b| ==> b[k] == t[k - i - 1]
    ensures b[i..] == t[..j - i] + [x] + t[j - i..]
  {
  }
}
