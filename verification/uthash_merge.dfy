/** Bottom-up merging of sorted runs, as HASH_SRT does it, on sequences. */
module HashMerge {
  import opened Words
  import opened HashLists

  /** The comparison function of the application, on the two entries. */
  type Cmp<!K, !V> = ((K, V), (K, V)) -> int

  predicate Le<K, V>(cmp: Cmp<K, V>, x: Item<K, V>, y: Item<K, V>) {
    cmp((x.key, x.value), (y.key, y.value)) <= 0
  }

  /** A total preorder, as qsort demands of its comparison function. */
  ghost predicate Ordering<K(!new), V(!new)>(cmp: Cmp<K, V>) {
    && (forall a, b :: cmp(a, b) <= 0 || cmp(b, a) <= 0)
    && (forall a, b, c :: cmp(a, b) <= 0 && cmp(b, c) <= 0 ==> cmp(a, c) <= 0)
  }

  ghost function Merge<K, V>(cmp: Cmp<K, V>, a: seq<Item<K, V>>, b: seq<Item<K, V>>)
    : (r: seq<Item<K, V>>)
    ensures |r| == |a| + |b|
  {
    if a == [] then b
    else if b == [] then a
    else if Le(cmp, a[0], b[0]) then [a[0]] + Merge(cmp, a[1..], b)
    else [b[0]] + Merge(cmp, a, b[1..])
  }

  /** One pass: neighbouring runs of length `k` are merged two by two. */
  ghost function Pass<K, V>(cmp: Cmp<K, V>, s: seq<Item<K, V>>, k: nat): (r: seq<Item<K, V>>)
    requires k > 0
    ensures |r| == |s|
    decreases |s|
  {
    if s == [] then []
    else
      var m, e := Min(k, |s|), Min(2 * k, |s|);
      Merge(cmp, s[..m], s[m..e]) + Pass(cmp, s[e..], k)
  }

  /** Passes with doubling run length until one merge covers the list. */
  ghost function SortFrom<K, V>(cmp: Cmp<K, V>, s: seq<Item<K, V>>, k: nat): (r: seq<Item<K, V>>)
    requires k > 0
    ensures |r| == |s|
    decreases if k < |s| then |s| - k else 0
  {
    if |s| <= 2 * k then Pass(cmp, s, k) else SortFrom(cmp, Pass(cmp, s, k), 2 * k)
  }

  // ---------- permutation ----------

  lemma {:induction false} MergePermutes<K, V>(
    cmp: Cmp<K, V>, a: seq<Item<K, V>>, b: seq<Item<K, V>>)
    ensures multiset(Merge(cmp, a, b)) == multiset(a) + multiset(b)
    decreases |a| + |b|
  {
    if a != [] && b != [] {
      if Le(cmp, a[0], b[0]) {
        MergePermutes(cmp, a[1..], b);
        assert a == [a[0]] + a[1..];
      } else {
        MergePermutes(cmp, a, b[1..]);
        assert b == [b[0]] + b[1..];
      }
    }
  }

  lemma ConcatPermutes<T>(a: seq<T>, b: seq<T>, c: seq<T>, ab: seq<T>, c': seq<T>)
    requires multiset(ab) == multiset(a) + multiset(b) && multiset(c') == multiset(c)
    ensures multiset(ab + c') == multiset(a + b + c)
  {
  }

  lemma {:induction false} PassPermutes<K, V>(cmp: Cmp<K, V>, s: seq<Item<K, V>>, k: nat)
    requires k > 0
    ensures multiset(Pass(cmp, s, k)) == multiset(s)
    decreases |s|
  {
    if s != [] {
      hide Merge;
      var m, e := Min(k, |s|), Min(2 * k, |s|);
      var a, b, rest := s[..m], s[m..e], s[e..];
      assert s == a + b + rest;
      MergePermutes(cmp, a, b);
      PassPermutes(cmp, rest, k);
      ConcatPermutes(a, b, rest, Merge(cmp, a, b), Pass(cmp, rest, k));
    }
  }

  // ---------- order ----------

  ghost predicate Sorted<K, V>(cmp: Cmp<K, V>, s: seq<Item<K, V>>) {
    forall i, j :: 0 <= i < j < |s| ==> Le(cmp, s[i], s[j])
  }

  /** Every run of length `k` (the last may be shorter) is sorted. */
  ghost predicate RunsSorted<K, V>(cmp: Cmp<K, V>, s: seq<Item<K, V>>, k: nat)
    requires k > 0
    decreases |s|
  {
    s == [] || (Sorted(cmp, s[..Min(k, |s|)]) && RunsSorted(cmp, s[Min(k, |s|)..], k))
  }

  lemma {:induction false} MergeMembers<K, V>(
    cmp: Cmp<K, V>, a: seq<Item<K, V>>, b: seq<Item<K, V>>, x: Item<K, V>)
    ensures x in Merge(cmp, a, b) <==> x in a || x in b
  {
    MergePermutes(cmp, a, b);
    assert x in Merge(cmp, a, b) <==> x in multiset(Merge(cmp, a, b));
  }

  lemma SortedCons<K, V>(cmp: Cmp<K, V>, x: Item<K, V>, s: seq<Item<K, V>>)
    requires Sorted(cmp, s) && forall i :: 0 <= i < |s| ==> Le(cmp, x, s[i])
    ensures Sorted(cmp, [x] + s)
  {
  }

  /** The item that the merge takes first is below all others. */
  lemma LeastFirst<K(!new), V(!new)>(
    cmp: Cmp<K, V>, a: seq<Item<K, V>>, b: seq<Item<K, V>>, y: Item<K, V>)
    requires Ordering(cmp) && Sorted(cmp, a) && Sorted(cmp, b) && a != [] && b != []
    requires y in a || y in b
    ensures Le(cmp, if Le(cmp, a[0], b[0]) then a[0] else b[0], y)
  {
    assert Le(cmp, a[0], a[0]) && Le(cmp, b[0], b[0]);
    if y in a {
      assert Le(cmp, a[0], y);
    } else {
      assert Le(cmp, b[0], y);
    }
  }

  lemma {:induction false} MergeSorts<K(!new), V(!new)>(
    cmp: Cmp<K, V>, a: seq<Item<K, V>>, b: seq<Item<K, V>>)
    requires Ordering(cmp) && Sorted(cmp, a) && Sorted(cmp, b)
    ensures Sorted(cmp, Merge(cmp, a, b))
    decreases |a| + |b|
  {
    if a != [] && b != [] {
      var fromA := Le(cmp, a[0], b[0]);
      var x := if fromA then a[0] else b[0];
      var a', b' := if fromA then a[1..] else a, if fromA then b else b[1..];
      MergeSorts(cmp, a', b');
      var rest := Merge(cmp, a', b');
      forall i | 0 <= i < |rest| ensures Le(cmp, x, rest[i]) {
        MergeMembers(cmp, a', b', rest[i]);
        LeastFirst(cmp, a, b, rest[i]);
      }
      SortedCons(cmp, x, rest);
    }
  }

  lemma RunsSortedConcat<K, V>(cmp: Cmp<K, V>, r: seq<Item<K, V>>, t: seq<Item<K, V>>, k: nat)
    requires k > 0 && Sorted(cmp, r) && RunsSorted(cmp, t, k)
    requires |r| == k || (|r| <= k && t == [])
    ensures RunsSorted(cmp, r + t, k)
  {
    var s := r + t;
    if s != [] {
      assert s[..Min(k, |s|)] == r && s[Min(k, |s|)..] == t;
    }
  }

  lemma EmptySorted<K, V>(cmp: Cmp<K, V>, s: seq<Item<K, V>>)
    requires |s| <= 1
    ensures Sorted(cmp, s)
  {
  }

  /** A pass over sorted runs of length `k` leaves sorted runs of length `2k`. */
  lemma {:induction false} PassSorts<K(!new), V(!new)>(cmp: Cmp<K, V>, s: seq<Item<K, V>>, k: nat)
    requires k > 0 && Ordering(cmp) && RunsSorted(cmp, s, k)
    ensures RunsSorted(cmp, Pass(cmp, s, k), 2 * k)
    decreases |s|
  {
    if s != [] {
      hide Ordering, Merge, Sorted;
      var m, e := Min(k, |s|), Min(2 * k, |s|);
      var t := s[m..];
      if t != [] {
        assert t[..Min(k, |t|)] == s[m..e] && t[Min(k, |t|)..] == s[e..];
      } else {
        assert Sorted(cmp, s[m..e]) by { EmptySorted(cmp, s[m..e]); }
        assert s[e..] == t;
      }
      MergeSorts(cmp, s[..m], s[m..e]);
      PassSorts(cmp, s[e..], k);
      RunsSortedConcat(cmp, Merge(cmp, s[..m], s[m..e]), Pass(cmp, s[e..], k), 2 * k);
    }
  }

  lemma {:induction false} SingleRuns<K, V>(cmp: Cmp<K, V>, s: seq<Item<K, V>>)
    ensures RunsSorted(cmp, s, 1)
    decreases |s|
  {
    if s != [] {
      EmptySorted(cmp, s[..1]);
      SingleRuns(cmp, s[1..]);
    }
  }

  // ---------- stability ----------

  ghost predicate Before<K, V>(s: seq<Item<K, V>>, x: Item<K, V>, y: Item<K, V>) {
    s != [] && ((s[0] == x && y in s[1..]) || Before(s[1..], x, y))
  }

  /** Whatever stood in order and may stay in order does stay in order. */
  ghost predicate Stable<K, V>(cmp: Cmp<K, V>, s: seq<Item<K, V>>, r: seq<Item<K, V>>) {
    forall x, y {:trigger Before(s, x, y)} {:trigger Before(r, x, y)} ::
      x in s && y in s && Before(s, x, y) && Le(cmp, x, y) ==> Before(r, x, y)
  }

  lemma {:induction false} BeforeConcat<K, V>(
    a: seq<Item<K, V>>, b: seq<Item<K, V>>, x: Item<K, V>, y: Item<K, V>)
    ensures Before(a + b, x, y) <==> Before(a, x, y) || Before(b, x, y) || (x in a && y in b)
    decreases |a|
  {
    if a == [] {
      assert a + b == b;
    } else {
      assert (a + b)[1..] == a[1..] + b;
      BeforeConcat(a[1..], b, x, y);
    }
  }

  lemma {:induction false} BeforeMembers<K, V>(s: seq<Item<K, V>>, x: Item<K, V>, y: Item<K, V>)
    requires Before(s, x, y)
    ensures x in s && y in s && y in s[1..]
    decreases |s|
  {
    if !(s[0] == x && y in s[1..]) {
      BeforeMembers(s[1..], x, y);
    }
  }

  lemma AfterFirst<K, V>(a: seq<Item<K, V>>, b: seq<Item<K, V>>, x: Item<K, V>, y: Item<K, V>)
    requires a != [] && (Before(a, x, y) || Before(b, x, y) || (x in a && y in b))
    ensures y in a[1..] || y in b
  {
    if Before(a, x, y) {
      BeforeMembers(a, x, y);
    } else if Before(b, x, y) {
      BeforeMembers(b, x, y);
    }
  }

  lemma {:induction false} MergeStable<K(!new), V(!new)>(
    cmp: Cmp<K, V>, a: seq<Item<K, V>>, b: seq<Item<K, V>>, x: Item<K, V>, y: Item<K, V>)
    requires Ordering(cmp) && Sorted(cmp, a) && Sorted(cmp, b)
    requires Before(a + b, x, y) && Le(cmp, x, y)
    ensures Before(Merge(cmp, a, b), x, y)
    decreases |a| + |b|
  {
    BeforeConcat(a, b, x, y);
    if a == [] || b == [] {
    } else if Le(cmp, a[0], b[0]) {
      var rest := Merge(cmp, a[1..], b);
      assert Merge(cmp, a, b)[1..] == rest;
      BeforeConcat(a[1..], b, x, y);
      MergeMembers(cmp, a[1..], b, y);
      if a[0] == x {
        assert y in a[1..] || y in b by { AfterFirst(a, b, x, y); }
      } else {
        MergeStable(cmp, a[1..], b, x, y);
      }
    } else {
      var rest := Merge(cmp, a, b[1..]);
      assert Merge(cmp, a, b)[1..] == rest;
      BeforeConcat(a, b[1..], x, y);
      MergeMembers(cmp, a, b[1..], y);
      if b[0] == x && y in b[1..] {
      } else if x in a && y == b[0] {
        assert Le(cmp, a[0], x) by { assert Le(cmp, a[0], a[0]); }
        assert false;
      } else {
        MergeStable(cmp, a, b[1..], x, y);
      }
    }
  }

  lemma RunsSplit<K, V>(cmp: Cmp<K, V>, s: seq<Item<K, V>>, k: nat)
    requires k > 0 && RunsSorted(cmp, s, k) && s != []
    ensures var m, e := Min(k, |s|), Min(2 * k, |s|);
      Sorted(cmp, s[..m]) && Sorted(cmp, s[m..e]) && RunsSorted(cmp, s[e..], k)
  {
    hide Sorted;
    var m, e := Min(k, |s|), Min(2 * k, |s|);
    var t := s[m..];
    if t != [] {
      assert t[..Min(k, |t|)] == s[m..e] && t[Min(k, |t|)..] == s[e..];
    } else {
      EmptySorted(cmp, s[m..e]);
      assert s[e..] == t;
    }
  }

  lemma {:induction false} PassStable<K(!new), V(!new)>(
    cmp: Cmp<K, V>, s: seq<Item<K, V>>, k: nat, x: Item<K, V>, y: Item<K, V>)
    requires k > 0 && Ordering(cmp) && RunsSorted(cmp, s, k)
    requires Before(s, x, y) && Le(cmp, x, y)
    ensures Before(Pass(cmp, s, k), x, y)
    decreases |s|
  {
    hide Ordering, Merge, Sorted, Le, Before;
    if s == [] {
      BeforeMembers(s, x, y);
    } else {
      var m, e := Min(k, |s|), Min(2 * k, |s|);
      var a, b, rest := s[..m], s[m..e], s[e..];
      RunsSplit(cmp, s, k);
      assert s == (a + b) + rest;
      BeforeConcat(a + b, rest, x, y);
      BeforeConcat(Merge(cmp, a, b), Pass(cmp, rest, k), x, y);
      if Before(a + b, x, y) {
        MergeStable(cmp, a, b, x, y);
      } else if Before(rest, x, y) {
        PassStable(cmp, rest, k, x, y);
      } else {
        MergeMembers(cmp, a, b, x);
        PassPermutes(cmp, rest, k);
        assert y in multiset(Pass(cmp, rest, k));
      }
    }
  }

  lemma {:induction false} SortFromPermutes<K, V>(cmp: Cmp<K, V>, s: seq<Item<K, V>>, k: nat)
    requires k > 0
    ensures multiset(SortFrom(cmp, s, k)) == multiset(s)
    decreases if k < |s| then |s| - k else 0
  {
    PassPermutes(cmp, s, k);
    if |s| > 2 * k {
      SortFromPermutes(cmp, Pass(cmp, s, k), 2 * k);
    }
  }

  /** From sorted runs, the passes end in a sorted list in which equal items keep their order. */
  lemma {:induction false} SortFromSorts<K(!new), V(!new)>(
    cmp: Cmp<K, V>, s: seq<Item<K, V>>, k: nat)
    requires k > 0 && Ordering(cmp) && RunsSorted(cmp, s, k)
    ensures Sorted(cmp, SortFrom(cmp, s, k)) && Stable(cmp, s, SortFrom(cmp, s, k))
    decreases if k < |s| then |s| - k else 0
  {
    hide Ordering, Sorted, Le, Before, Pass;
    var r := Pass(cmp, s, k);
    PassSorts(cmp, s, k);
    forall x, y {:trigger Before(s, x, y)} | x in s && y in s && Before(s, x, y) && Le(cmp, x, y)
      ensures Before(SortFrom(cmp, s, k), x, y)
    {
      PassStable(cmp, s, k, x, y);
      BeforeMembers(r, x, y) by { hide Stable; }
      if |s| > 2 * k {
        SortFromSorts(cmp, r, 2 * k);
        assert Before(r, x, y);
      }
    }
    if |s| > 2 * k {
      SortFromSorts(cmp, r, 2 * k);
    } else {
      assert r[..Min(2 * k, |r|)] == r;
      if r == [] {
        EmptySorted(cmp, r);
      }
    }
  }

  /** The mergesort gives a stable sorted permutation for every ordering. */
  lemma SortIsStableSort<K(!new), V(!new)>(cmp: Cmp<K, V>, s: seq<Item<K, V>>)
    requires Ordering(cmp)
    ensures var r := SortFrom(cmp, s, 1);
      Sorted(cmp, r) && Stable(cmp, s, r) && multiset(r) == multiset(s)
    ensures var r := SortFrom(cmp, s, 1);
      forall i, j :: 0 <= i < j < |r| ==>
        cmp((r[i].key, r[i].value), (r[j].key, r[j].value)) <= 0
  {
    SingleRuns(cmp, s);
    SortFromSorts(cmp, s, 1);
    SortFromPermutes(cmp, s, 1);
  }
}
