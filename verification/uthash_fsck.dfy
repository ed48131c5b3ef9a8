/** HASH_FSCK of praxis2/include/uthash.h: the integrity check that debug builds run. */
module HashFsck {
  import opened HashLists
  import opened HashChains
  import opened UtHash

  // ---------- a table of which only the forward links are known ----------

  ghost predicate ForwardChain<K, V>(c: seq<Item<K, V>>)
    reads (set x | x in c)`hhNext
  {
    forall i {:trigger c[i].hhNext} :: 0 <= i < |c| ==> c[i].hhNext == At(c, i + 1)
  }

  ghost predicate ForwardApp<K, V>(s: seq<Item<K, V>>)
    reads (set x | x in s)`next
  {
    forall i {:trigger s[i].next} :: 0 <= i < |s| ==> s[i].next == At(s, i + 1)
  }

  ghost predicate BackChain<K, V>(c: seq<Item<K, V>>, n: nat)
    requires n <= |c|
    reads (set x | x in c)`hhPrev
  {
    forall i {:trigger c[i].hhPrev} :: 0 <= i < n ==> c[i].hhPrev == At(c, i - 1)
  }

  ghost predicate BackApp<K, V>(s: seq<Item<K, V>>, n: nat)
    requires n <= |s|
    reads (set x | x in s)`prev
  {
    forall i {:trigger s[i].prev} :: 0 <= i < n ==> s[i].prev == At(s, i - 1)
  }

  /** Walking forward from the heads gives these chains and this application order. */
  ghost predicate Walks<K, V>(tbl: Table<K, V>, app: seq<Item<K, V>>, chains: seq<seq<Item<K, V>>>)
    reads tbl, tbl.buckets, (set x | x in app)`next
    reads (set b, x | 0 <= b < |chains| && x in chains[b] :: x)`hhNext
  {
    && tbl.head == At(app, 0) && ForwardApp(app)
    && tbl.numBuckets == |chains| == tbl.buckets.Length
    && forall b {:trigger chains[b]} :: 0 <= b < |chains| ==>
      tbl.buckets[b].head == At(chains[b], 0) && ForwardChain(chains[b])
  }

  /** The back links and the count of one bucket are right. */
  ghost predicate BucketIntact<K, V>(bucket: Bucket<K, V>, c: seq<Item<K, V>>)
    reads (set x | x in c)`hhPrev
  {
    BackChain(c, |c|) && bucket.count == |c|
  }

  /** What the check is about: all back links, the count of every bucket and both totals. */
  ghost predicate Intact<K, V>(tbl: Table<K, V>, app: seq<Item<K, V>>, chains: seq<seq<Item<K, V>>>)
    requires tbl.buckets.Length == |chains|
    reads tbl, tbl.buckets, (set x | x in app)`prev
    reads (set b, x | 0 <= b < |chains| && x in chains[b] :: x)`hhPrev
  {
    && (forall b {:trigger chains[b]} :: 0 <= b < |chains| ==>
          BucketIntact(tbl.buckets[b], chains[b]))
    && Total(chains) == tbl.numItems
    && BackApp(app, |app|) && |app| == tbl.numItems
  }

  // ---------- the check ----------

  /** Counts a chain, comparing every back link with the item walked over before. */
  method CheckChain<K, V>(first: Item?<K, V>, ghost c: seq<Item<K, V>>)
    returns (ok: bool, count: nat)
    requires ForwardChain(c) && first == At(c, 0)
    ensures count == |c| && (ok <==> BackChain(c, |c|))
  {
    var thh, prev: Item?<K, V> := first, null;
    ok, count := true, 0;
    while thh != null
      invariant 0 <= count <= |c| && thh == At(c, count) && prev == At(c, count - 1)
      invariant ok <==> BackChain(c, count)
      decreases |c| - count
    {
      assert thh == c[count];
      if prev != thh.hhPrev {
        ok := false;
      }
      count := count + 1;
      prev := thh;
      thh := thh.hhNext;
    }
  }

  /** The same walk along the application order. */
  method CheckApp<K, V>(first: Item?<K, V>, ghost s: seq<Item<K, V>>)
    returns (ok: bool, count: nat)
    requires ForwardApp(s) && first == At(s, 0)
    ensures count == |s| && (ok <==> BackApp(s, |s|))
  {
    var thh, prev: Item?<K, V> := first, null;
    ok, count := true, 0;
    while thh != null
      invariant 0 <= count <= |s| && thh == At(s, count) && prev == At(s, count - 1)
      invariant ok <==> BackApp(s, count)
      decreases |s| - count
    {
      assert thh == s[count];
      if prev != thh.prev {
        ok := false;
      }
      count := count + 1;
      prev := thh;
      thh := thh.next;
    }
  }

  /** A table behind a null pointer passes; any other passes if and only if it is intact. */
  method Fsck<K, V>(tbl: Table<K, V>, ghost app: seq<Item<K, V>>, ghost chains: seq<seq<Item<K, V>>>)
    returns (ok: bool)
    requires Walks(tbl, app, chains)
    ensures ok <==> tbl.head == null || Intact(tbl, app, chains)
  {
    ok := true;
    if tbl.head != null {
      hide BackChain, ForwardChain, BackApp, ForwardApp;
      var count := 0;
      assert chains[..0] == [] && Total(chains[..0]) == 0;
      for i := 0 to tbl.numBuckets
        invariant count == Total(chains[..i])
        invariant ok <==> forall b {:trigger chains[b]} :: 0 <= b < i ==>
          BucketIntact(tbl.buckets[b], chains[b])
      {
        var good, bktCount := CheckChain(tbl.buckets[i].head, chains[i]);
        count := count + bktCount;
        if !good || tbl.buckets[i].count != bktCount {
          ok := false;
        }
        TotalPrefix(chains, i);
      }
      assert chains[..tbl.numBuckets] == chains;
      if count != tbl.numItems {
        ok := false;
      }
      var good, appCount := CheckApp(tbl.head, app);
      if !good || appCount != tbl.numItems {
        ok := false;
      }
    }
  }

  /** Every sound table passes: no add, delete or sort can ever make the check complain. */
  lemma SoundIsIntact<K, V>(tbl: Table<K, V>)
    requires tbl.Valid() && tbl.app != []
    ensures Walks(tbl, tbl.app, tbl.chains) && Intact(tbl, tbl.app, tbl.chains)
  {
    hide Placed, TrailingIneffective, TwoIneffective, Total;
    assert forall b {:trigger tbl.buckets[b]} :: 0 <= b < tbl.buckets.Length ==>
      tbl.buckets[..][b] == tbl.buckets[b];
  }
}
