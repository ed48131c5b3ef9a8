/** HASH_SRT of praxis2/include/uthash.h: a mergesort that relinks the application order in place. */
module HashSort {
  import opened Words
  import opened HashLists
  import opened HashMerge
  import opened UtHash

  /** The list built so far; the link of its last item is still the old one. */
  ghost predicate Output<K, V>(out: seq<Item<K, V>>)
    reads (set x | x in out)`prev, (set x | x in out)`next
  {
    && Distinct(out)
    && forall i {:trigger out[i].prev} {:trigger out[i].next} :: 0 <= i < |out| ==>
      out[i].prev == At(out, i - 1) && (i + 1 < |out| ==> out[i].next == out[i + 1])
  }

  /** The items of `s` from index `lo` to below `hi` still point to their old successors. */
  ghost predicate Intact<K, V>(s: seq<Item<K, V>>, lo: nat, hi: nat)
    reads (set x | x in s)`next
  {
    forall i {:trigger s[i].next} :: lo <= i < hi && i < |s| ==> s[i].next == At(s, i + 1)
  }

  /** Appends the chosen item to the output list. */
  method Emit<K, V>(e: Item<K, V>, list: Item?<K, V>, tail: Item?<K, V>, ghost out: seq<Item<K, V>>)
    returns (list': Item<K, V>, tail': Item<K, V>)
    requires Output(out) && e !in out && list == At(out, 0) && tail == At(out, |out| - 1)
    modifies (set x | x in out)`next, e`prev
    ensures Output(out + [e]) && list' == (out + [e])[0] && tail' == e
  {
    if tail != null {
      tail.next := e;
      list' := list;
    } else {
      list' := e;
    }
    e.prev := tail;
    tail' := e;
    assert forall i :: 0 <= i < |out| ==> (out + [e])[i] == out[i];
  }

  /** Steps over at most `insize` items, counting them. */
  method Advance<K, V>(p: Item<K, V>, insize: nat, ghost s: seq<Item<K, V>>)
    returns (q: Item?<K, V>, psize: nat)
    requires s != [] && p == s[0] && insize > 0 && Intact(s, 0, |s|)
    ensures psize == Min(insize, |s|) && q == At(s, psize)
  {
    q := p;
    psize := 0;
    for i := 0 to insize
      invariant psize == i < |s| && q == s[i]
    {
      psize := psize + 1;
      q := q.next;
      if q == null {
        break;
      }
    }
  }

  /** The next item of a merge of two runs. */
  lemma MergeNext<K, V>(cmp: Cmp<K, V>, s: seq<Item<K, V>>, i: nat, m: nat, j: nat, end: nat)
    requires i <= m <= j <= end <= |s| && (i < m || j < end)
    ensures Merge(cmp, s[i..m], s[j..end]) ==
      if i == m || (j < end && !Le(cmp, s[i], s[j]))
      then [s[j]] + Merge(cmp, s[i..m], s[j + 1..end])
      else [s[i]] + Merge(cmp, s[i + 1..m], s[j..end])
  {
    var a, b := s[i..m], s[j..end];
    assert i < m ==> a[1..] == s[i + 1..m] && a[0] == s[i];
    assert j < end ==> b[1..] == s[j + 1..end] && b[0] == s[j];
    if i == m {
      assert b == [b[0]] + b[1..];
    } else if j == end {
      assert a == [a[0]] + a[1..];
    }
  }

  /** Takes the next item from one of the two runs, the first run winning ties. */
  method Choose<K, V>(cmp: Cmp<K, V>, p: Item?<K, V>, q: Item?<K, V>, psize: nat, qsize: nat,
                      ghost insize: nat, ghost s: seq<Item<K, V>>, ghost i: nat, ghost m: nat,
                      ghost j: nat, ghost end: nat, ghost out: seq<Item<K, V>>)
    returns (e: Item<K, V>, p': Item?<K, V>, q': Item?<K, V>, psize': nat, qsize': nat,
             ghost i': nat, ghost j': nat)
    requires Distinct(s) && insize > 0 && m == Min(insize, |s|) && end == Min(2 * insize, |s|)
    requires i <= m <= j <= end && psize == m - i && qsize == insize - (j - m)
    requires psize != 0 || (qsize != 0 && q != null)
    requires (i < m ==> p == s[i]) && q == At(s, j) && Intact(s, i, m) && Intact(s, j, |s|)
    requires forall k :: i <= k < m || j <= k < |s| ==> s[k] !in out
    ensures i <= i' <= m <= j <= j' <= end && psize' == m - i' && qsize' == insize - (j' - m)
    ensures psize' + qsize' < psize + qsize
    ensures (i' < m ==> p' == s[i']) && q' == At(s, j')
    ensures e in s && e !in out
    ensures forall k :: i' <= k < m || j' <= k < |s| ==> s[k] !in out && s[k] != e
    ensures out + Merge(cmp, s[i..m], s[j..end]) == out + [e] + Merge(cmp, s[i'..m], s[j'..end])
  {
    hide Merge, Le;
    MergeNext(cmp, s, i, m, j, end);
    p', q', psize', qsize', i', j' := p, q, psize, qsize, i, j;
    if psize == 0 || (qsize != 0 && q != null && !Le(cmp, p, q)) {
      e, q', qsize', j' := q, q.next, qsize - 1, j + 1;
    } else {
      e, p', psize', i' := p, p.next, psize - 1, i + 1;
    }
    ghost var rest := Merge(cmp, s[i'..m], s[j'..end]);
    assert out + ([e] + rest) == out + [e] + rest;
  }

  lemma MergedAll<K, V>(cmp: Cmp<K, V>, s: seq<Item<K, V>>, m: nat, end: nat,
                        out: seq<Item<K, V>>)
    requires m <= end <= |s|
    ensures out + Merge(cmp, s[m..m], s[end..end]) == out
  {
  }

  /** Appending an item of `s` leaves the links of the items still to come alone. */
  method EmitKeeps<K, V>(e: Item<K, V>, list: Item?<K, V>, tail: Item?<K, V>,
                         ghost out: seq<Item<K, V>>, ghost s: seq<Item<K, V>>,
                         ghost i: nat, ghost m: nat, ghost j: nat)
    returns (list': Item<K, V>, tail': Item<K, V>)
    requires Output(out) && e !in out && list == At(out, 0) && tail == At(out, |out| - 1)
    requires Intact(s, i, m) && Intact(s, j, |s|) && i <= m <= j <= |s|
    requires forall k :: i <= k < m || j <= k < |s| ==> s[k] !in out && s[k] != e
    modifies (set x | x in out)`next, e`prev
    ensures Output(out + [e]) && list' == (out + [e])[0] && tail' == e
    ensures Intact(s, i, m) && Intact(s, j, |s|)
    ensures forall k :: i <= k < m || j <= k < |s| ==> s[k] !in out + [e]
  {
    hide Output;
    list', tail' := Emit(e, list, tail, out);
  }

  /** Merges the run of `psize` items at `p` with the run of at most `insize` items at `q`. */
  method MergeRuns<K, V>(cmp: Cmp<K, V>, p0: Item<K, V>, q0: Item?<K, V>, psize0: nat, insize: nat,
                         list: Item?<K, V>, tail: Item?<K, V>, ghost s: seq<Item<K, V>>,
                         ghost out: seq<Item<K, V>>)
    returns (q: Item?<K, V>, list': Item?<K, V>, tail': Item?<K, V>, ghost out': seq<Item<K, V>>)
    requires s != [] && insize > 0 && psize0 == Min(insize, |s|)
    requires p0 == s[0] && q0 == At(s, psize0) && Intact(s, 0, |s|) && Distinct(s)
    requires Output(out) && forall x :: x in s ==> x !in out
    requires list == At(out, 0) && tail == At(out, |out| - 1)
    modifies (set x | x in s)`next, (set x | x in s)`prev, (set x | x in out)`next
    ensures var e := Min(2 * insize, |s|);
      && q == At(s, e) && Intact(s, e, |s|)
      && out' == out + Merge(cmp, s[..psize0], s[psize0..e])
      && forall i :: e <= i < |s| ==> s[i] !in out'
    ensures Output(out') && list' == At(out', 0) && tail' == At(out', |out'| - 1)
  {
    hide Merge, Le, Output;
    ghost var m, end := psize0, Min(2 * insize, |s|);
    ghost var i, j := 0, m;
    assert s[0..m] == s[..m];
    var p: Item?<K, V>, psize, qsize := p0, psize0, insize;
    q, list', tail', out' := q0, list, tail, out;
    while psize != 0 || (qsize != 0 && q != null)
      invariant 0 <= i <= m <= j <= end
      invariant psize == m - i && qsize == insize - (j - m)
      invariant (i < m ==> p == s[i]) && q == At(s, j)
      invariant Intact(s, i, m) && Intact(s, j, |s|)
      invariant out' + Merge(cmp, s[i..m], s[j..end]) == out + Merge(cmp, s[..m], s[m..end])
      invariant Output(out') && list' == At(out', 0) && tail' == At(out', |out'| - 1)
      invariant forall k :: i <= k < m || j <= k < |s| ==> s[k] !in out'
      invariant forall x :: x in out' ==> x in out || x in s
      decreases psize + qsize
    {
      var e: Item<K, V>;
      e, p, q, psize, qsize, i, j := Choose(cmp, p, q, psize, qsize, insize, s, i, m, j, end, out');
      list', tail' := EmitKeeps(e, list', tail', out', s, i, m, j);
      out' := out' + [e];
    }
    MergedAll(cmp, s, m, end, out');
  }

  /** The remaining list and the output so far make up the pass over the whole list. */
  ghost predicate InPass<K, V>(cmp: Cmp<K, V>, all: seq<Item<K, V>>, s: seq<Item<K, V>>,
                               out: seq<Item<K, V>>, insize: nat)
  {
    && insize > 0
    && out + Pass(cmp, s, insize) == Pass(cmp, all, insize)
    && Distinct(s)
    && forall x :: x in s ==> x !in out
  }

  /** The links of both lists, and the ends of the output. */
  ghost predicate Threaded<K, V>(s: seq<Item<K, V>>, out: seq<Item<K, V>>, l: Item?<K, V>, t: Item?<K, V>)
    reads (set x | x in s)`next, (set x | x in out)`prev, (set x | x in out)`next
  {
    && Intact(s, 0, |s|)
    && Output(out) && l == At(out, 0) && t == At(out, |out| - 1)
  }

  lemma InPassNext<K, V>(cmp: Cmp<K, V>, all: seq<Item<K, V>>, s: seq<Item<K, V>>,
                         out: seq<Item<K, V>>, insize: nat)
    requires s != [] && InPass(cmp, all, s, out, insize)
    ensures var m, e := Min(insize, |s|), Min(2 * insize, |s|);
      var out' := out + Merge(cmp, s[..m], s[m..e]);
      InPass(cmp, all, s[e..], out', insize) && forall x :: x in out' ==> x in out || x in s
  {
    hide Merge;
    var m, e := Min(insize, |s|), Min(2 * insize, |s|);
    var merged := Merge(cmp, s[..m], s[m..e]);
    var rest := s[e..];
    assert out + merged + Pass(cmp, rest, insize) == out + (merged + Pass(cmp, rest, insize));
    forall x | x in merged ensures x in s && x !in rest {
      MergeMembers(cmp, s[..m], s[m..e], x);
    }
    assert Distinct(rest) by {
      assert forall i :: 0 <= i < |rest| ==> rest[i] == s[e + i];
    }
  }

  /** Merges the first two runs of the remaining list and moves on behind them. */
  method PassStep<K, V>(cmp: Cmp<K, V>, p: Item<K, V>, insize: nat, l: Item?<K, V>, t: Item?<K, V>,
                        ghost all: seq<Item<K, V>>, ghost s: seq<Item<K, V>>,
                        ghost out: seq<Item<K, V>>)
    returns (p': Item?<K, V>, l': Item?<K, V>, t': Item?<K, V>, ghost s': seq<Item<K, V>>,
             ghost out': seq<Item<K, V>>)
    requires s != [] && p == s[0] && InPass(cmp, all, s, out, insize) && Threaded(s, out, l, t)
    modifies (set x | x in s)`next, (set x | x in s)`prev, (set x | x in out)`next
    ensures s' == s[Min(2 * insize, |s|)..] && p' == At(s', 0)
    ensures InPass(cmp, all, s', out', insize) && Threaded(s', out', l', t')
    ensures forall x :: x in s' || x in out' ==> x in s || x in out
  {
    hide Output, Merge, Pass;
    var q, psize := Advance(p, insize, s);
    ghost var e := Min(2 * insize, |s|);
    ghost var merged := Merge(cmp, s[..psize], s[psize..e]);
    p', l', t', out' := MergeRuns(cmp, p, q, psize, insize, l, t, s, out);
    s' := s[e..];
    assert forall i :: 0 <= i < |s'| ==> s'[i] == s[e + i];
    InPassNext(cmp, all, s, out, insize);
  }

  lemma StartPass<K, V>(cmp: Cmp<K, V>, all: seq<Item<K, V>>, insize: nat)
    requires insize > 0 && AppList(all)
    ensures InPass(cmp, all, all, [], insize) && Threaded(all, [], null, null)
  {
    assert [] + Pass(cmp, all, insize) == Pass(cmp, all, insize);
  }

  lemma EndPass<K, V>(cmp: Cmp<K, V>, all: seq<Item<K, V>>, insize: nat, s: seq<Item<K, V>>,
                      out: seq<Item<K, V>>)
    requires At(s, 0) == null && InPass(cmp, all, s, out, insize)
    ensures out == Pass(cmp, all, insize) && s == []
  {
    assert s == [] && out + [] == out;
  }

  method MergeAll<K, V>(cmp: Cmp<K, V>, first: Item<K, V>, insize: nat, ghost all: seq<Item<K, V>>)
    returns (l: Item?<K, V>, t: Item?<K, V>, nmerges: nat, ghost s: seq<Item<K, V>>,
             ghost out: seq<Item<K, V>>)
    requires all != [] && AppList(all) && first == all[0] && insize > 0
    modifies (set x | x in all)`prev, (set x | x in all)`next
    ensures out == Pass(cmp, all, insize) && Threaded(s, out, l, t) && s == []
    ensures forall x :: x in out ==> x in all
    ensures nmerges <= 1 <==> |all| <= 2 * insize
  {
    hide Pass, Output, Intact, InPass, Threaded;
    s, out := all, [];
    StartPass(cmp, all, insize);
    var p: Item?<K, V> := first;
    l, t, nmerges := null, null, 0;
    while p != null
      invariant p == At(s, 0) && InPass(cmp, all, s, out, insize) && Threaded(s, out, l, t)
      invariant forall x :: x in s || x in out ==> x in all
      invariant nmerges == 0 ==> |s| == |all|
      invariant nmerges == 1 ==> |s| == |all| - Min(2 * insize, |all|)
      invariant nmerges > 1 ==> |all| > 2 * insize
      decreases |s|
    {
      p, l, t, s, out := PassStep(cmp, p, insize, l, t, all, s, out);
      nmerges := nmerges + 1;
    }
    EndPass(cmp, all, insize, s, out);
  }

  method CloseList<K, V>(ghost s: seq<Item<K, V>>, ghost out: seq<Item<K, V>>,
                         l: Item?<K, V>, t: Item?<K, V>)
    returns (list: Item<K, V>, tail: Item<K, V>)
    requires Threaded(s, out, l, t) && out != []
    modifies (set x | x in out)`next
    ensures AppList(out) && list == out[0] && tail == out[|out| - 1]
  {
    t.next := null;
    list, tail := l, t;
  }

  /** One pass over the list, which must not be empty. */
  method OnePass<K, V>(cmp: Cmp<K, V>, first: Item<K, V>, insize: nat, ghost all: seq<Item<K, V>>)
    returns (list: Item<K, V>, tail: Item<K, V>, nmerges: nat)
    requires all != [] && AppList(all) && first == all[0] && insize > 0
    modifies (set x | x in all)`prev, (set x | x in all)`next
    ensures var out := Pass(cmp, all, insize); AppList(out) && list == out[0] && tail == out[|out| - 1]
    ensures nmerges <= 1 <==> |all| <= 2 * insize
  {
    hide Pass, Threaded, AppList;
    var l, t;
    ghost var s, out;
    l, t, nmerges, s, out := MergeAll(cmp, first, insize, all);
    list, tail := CloseList(s, out, l, t);
  }

  lemma PassMembers<K, V>(cmp: Cmp<K, V>, s: seq<Item<K, V>>, k: nat)
    requires k > 0
    ensures forall x {:trigger x in Pass(cmp, s, k)} :: x in Pass(cmp, s, k) ==> x in s
  {
    PassPermutes(cmp, s, k);
    forall x | x in Pass(cmp, s, k) ensures x in s {
      assert x in multiset(Pass(cmp, s, k));
    }
  }

  /** The loop of HASH_SRT: passes with doubling run length until one merge was enough. */
  method SortLoop<K, V>(cmp: Cmp<K, V>, first: Item<K, V>, ghost all: seq<Item<K, V>>)
    returns (list: Item<K, V>, tail: Item<K, V>)
    requires all != [] && AppList(all) && first == all[0]
    modifies (set x | x in all)`prev, (set x | x in all)`next
    ensures var s := SortFrom(cmp, all, 1); AppList(s) && list == s[0] && tail == s[|s| - 1]
  {
    hide Pass, AppList;
    var insize, looping := 1, true;
    list, tail := first, first;
    ghost var s := all;
    while looping
      invariant |s| == |all| && list == s[0] && AppList(s) && insize > 0
      invariant forall x :: x in s ==> x in all
      invariant SortFrom(cmp, all, 1) == if looping then SortFrom(cmp, s, insize) else s
      invariant looping || tail == s[|s| - 1]
      decreases looping, if insize < |all| then |all| - insize else 0
    {
      PassMembers(cmp, s, insize);
      var nmerges;
      list, tail, nmerges := OnePass(cmp, list, insize, s);
      s := Pass(cmp, s, insize);
      if nmerges <= 1 {
        looping := false;
      }
      insize := insize * 2;
    }
  }

  /** The bucket conditions do not depend on the application order. */
  ghost method Reorder<K, V>(tbl: Table<K, V>, s: seq<Item<K, V>>)
    requires tbl.app != [] ==> tbl.BucketsOk()
    requires multiset(s) == multiset(tbl.app)
    modifies tbl`app
    ensures tbl.app == s && (s != [] ==> tbl.BucketsOk())
    ensures old(tbl.app) == [] ==> s == []
  {
    assert forall x :: x in s <==> x in multiset(s);
    assert forall x :: x in tbl.app <==> x in multiset(tbl.app);
    assert |s| == |multiset(s)| == |tbl.app|;
    tbl.app := s;
  }

  /** HASH_SRT relinks the application order and leaves every bucket chain alone. */
  method HashSort<K, V>(tbl: Table<K, V>, cmp: Cmp<K, V>)
    requires tbl.Valid()
    modifies tbl`head, tbl`tail, tbl`app
    modifies (set x | x in tbl.app)`prev, (set x | x in tbl.app)`next
    ensures tbl.Valid() && tbl.app == SortFrom(cmp, old(tbl.app), 1)
  {
    hide Table.BucketsOk, SortFrom;
    ghost var all := tbl.app;
    if tbl.head != null {
      tbl.head, tbl.tail := SortLoop(cmp, tbl.head, all);
    }
    SortFromPermutes(cmp, all, 1);
    Reorder(tbl, SortFrom(cmp, all, 1));
  }
}
