/** Lexicographic order on strings, and sorting by a string key. */
module Ordering {

  /** `a` comes before `b` or equals it. */
  predicate Leq(a: string, b: string) {
    a == [] || (b != [] && (a[0] < b[0] || (a[0] == b[0] && Leq(a[1..], b[1..]))))
  }

  predicate Below(a: string, b: string) {
    Leq(a, b) && a != b
  }

  lemma {:induction false} LeqReflexive(a: string)
    ensures Leq(a, a)
  {
    if a != [] {
      LeqReflexive(a[1..]);
    }
  }

  lemma {:induction false} LeqTransitive(a: string, b: string, c: string)
    requires Leq(a, b) && Leq(b, c)
    ensures Leq(a, c)
  {
    if a != [] && a[0] == b[0] && b[0] == c[0] {
      LeqTransitive(a[1..], b[1..], c[1..]);
    }
  }

  lemma {:induction false} LeqTotal(a: string, b: string)
    ensures Leq(a, b) || Leq(b, a)
  {
    if a != [] && b != [] && a[0] == b[0] {
      LeqTotal(a[1..], b[1..]);
    }
  }

  lemma {:induction false} LeqAntisymmetric(a: string, b: string)
    requires Leq(a, b) && Leq(b, a)
    ensures a == b
  {
    if a != [] && b != [] {
      LeqAntisymmetric(a[1..], b[1..]);
      assert a == [a[0]] + a[1..] && b == [b[0]] + b[1..];
    }
  }

  /** The strings agree up to `k`, where `a` has the smaller character. */
  predicate SmallerAt(a: string, b: string, k: nat) {
    k < |a| && k < |b| && a[..k] == b[..k] && a[k] < b[k]
  }

  lemma AgreeFurther<T>(a: seq<T>, b: seq<T>, k: nat)
    requires k < |a| && k < |b| && a[0] == b[0]
    ensures a[..k + 1] == b[..k + 1] <==> a[1..][..k] == b[1..][..k]
  {
    assert a[..k + 1] == [a[0]] + a[1..][..k] && b[..k + 1] == [b[0]] + b[1..][..k];
    assert a[..k + 1][1..] == a[1..][..k] && b[..k + 1][1..] == b[1..][..k];
  }

  lemma AgreeFirst<T>(a: seq<T>, b: seq<T>, k: nat)
    requires 0 < k <= |a| && k <= |b| && a[..k] == b[..k]
    ensures a[0] == b[0]
  {
    assert a[..k][0] == a[0] && b[..k][0] == b[0];
  }

  /** The order goes by the first character in which the strings differ, and a prefix comes first. */
  lemma {:induction false} LeqByFirstDifference(a: string, b: string)
    ensures Leq(a, b) <==> a <= b || exists k :: SmallerAt(a, b, k)
  {
    if a != [] && b != [] && a[0] == b[0] {
      LeqByFirstDifference(a[1..], b[1..]);
      assert a == [a[0]] + a[1..] && b == [b[0]] + b[1..];
      if k: nat :| SmallerAt(a[1..], b[1..], k) {
        AgreeFurther(a, b, k);
        assert SmallerAt(a, b, k + 1);
      }
      if k: nat :| SmallerAt(a, b, k) {
        AgreeFurther(a, b, k - 1);
        assert SmallerAt(a[1..], b[1..], k - 1);
      }
    } else if a != [] && b != [] {
      assert a[0] < b[0] ==> SmallerAt(a, b, 0);
      if k: nat :| SmallerAt(a, b, k) {
        if k > 0 {
          AgreeFirst(a, b, k);
        }
      }
    }
  }

  /* ---- Sorting ---- */

  /** Any two items can be compared, and comparisons chain. */
  ghost predicate TotalPreorder<T(!new)>(leq: (T, T) -> bool) {
    && (forall a, b :: leq(a, b) || leq(b, a))
    && (forall a, b, c :: leq(a, b) && leq(b, c) ==> leq(a, c))
  }

  predicate SortedBy<T>(items: seq<T>, leq: (T, T) -> bool) {
    |items| < 2 || (leq(items[0], items[1]) && SortedBy(items[1..], leq))
  }

  function InsertBy<T>(item: T, items: seq<T>, leq: (T, T) -> bool): seq<T> {
    if items == [] || !leq(items[0], item) then [item] + items else [items[0]] + InsertBy(item, items[1..], leq)
  }

  /** A stable sort: an item is put after the equal ones that came before it. */
  function SortBy<T>(items: seq<T>, leq: (T, T) -> bool): seq<T> {
    if items == [] then [] else InsertBy(items[|items| - 1], SortBy(items[..|items| - 1], leq), leq)
  }

  lemma {:induction false} InsertedIn<T>(item: T, items: seq<T>, leq: (T, T) -> bool)
    ensures multiset(InsertBy(item, items, leq)) == multiset(items) + multiset{item}
  {
    if items != [] && leq(items[0], item) {
      InsertedIn(item, items[1..], leq);
      assert items == [items[0]] + items[1..];
    }
  }

  lemma {:induction false} InsertSorted<T(!new)>(item: T, items: seq<T>, leq: (T, T) -> bool)
    requires TotalPreorder(leq) && SortedBy(items, leq)
    ensures SortedBy(InsertBy(item, items, leq), leq)
  {
    if items == [] {
    } else if !leq(items[0], item) {
      assert leq(item, items[0]);
      assert ([item] + items)[1..] == items;
    } else {
      InsertSorted(item, items[1..], leq);
      var rest := InsertBy(item, items[1..], leq);
      assert ([items[0]] + rest)[1..] == rest;
      assert rest[0] == item || rest[0] == items[1];
    }
  }

  lemma {:induction false} SortSorts<T(!new)>(items: seq<T>, leq: (T, T) -> bool)
    requires TotalPreorder(leq)
    ensures SortedBy(SortBy(items, leq), leq)
    decreases |items|
  {
    if items != [] {
      SortSorts(items[..|items| - 1], leq);
      InsertSorted(items[|items| - 1], SortBy(items[..|items| - 1], leq), leq);
    }
  }

  /** Sorting loses nothing and adds nothing. */
  lemma {:induction false} SortPermutes<T>(items: seq<T>, leq: (T, T) -> bool)
    ensures multiset(SortBy(items, leq)) == multiset(items)
    decreases |items|
  {
    if items != [] {
      var last := items[|items| - 1];
      SortPermutes(items[..|items| - 1], leq);
      InsertedIn(last, SortBy(items[..|items| - 1], leq), leq);
      assert items == items[..|items| - 1] + [last];
    }
  }

  lemma {:induction false} SortedPair<T(!new)>(items: seq<T>, leq: (T, T) -> bool, i: nat, j: nat)
    requires TotalPreorder(leq) && SortedBy(items, leq) && i <= j < |items|
    ensures leq(items[i], items[j])
  {
    if i > 0 {
      SortedPair(items[1..], leq, i - 1, j - 1);
    } else if j > 1 {
      SortedPair(items[1..], leq, 0, j - 1);
    }
  }

  /** Two sequences with the same items have the same members. */
  lemma SameMembers<T>(a: seq<T>, b: seq<T>)
    requires multiset(a) == multiset(b)
    ensures |a| == |b|
    ensures forall x :: x in a <==> x in b
  {
    assert |multiset(a)| == |a| && |multiset(b)| == |b|;
    forall x ensures x in a <==> x in b {
      assert x in a <==> x in multiset(a);
      assert x in b <==> x in multiset(b);
    }
  }

  lemma RepeatedCounts<T>(items: seq<T>, i: nat, j: nat)
    requires i < j < |items|
    ensures items[i] == items[j] ==> multiset(items)[items[j]] >= 2
  {
    assert items == items[..j] + [items[j]] + items[j + 1..];
    assert items[i] in items[..j];
    assert multiset(items[..j])[items[i]] >= 1;
    assert multiset(items) == multiset(items[..j]) + multiset{items[j]} + multiset(items[j + 1..]);
  }

  lemma {:induction false} CountedRepeats<T>(items: seq<T>, x: T)
    requires multiset(items)[x] >= 2
    ensures exists i, j :: 0 <= i < j < |items| && items[i] == x && items[j] == x
  {
    var n := |items| - 1;
    assert items == items[..n] + [items[n]];
    if multiset(items[..n])[x] >= 2 {
      CountedRepeats(items[..n], x);
      var i, j :| 0 <= i < j < n && items[..n][i] == x && items[..n][j] == x;
      assert items[i] == x && items[j] == x;
    } else {
      assert x in multiset(items[..n]);
      var i :| 0 <= i < n && items[..n][i] == x;
      assert items[i] == x && items[n] == x;
    }
  }
}
