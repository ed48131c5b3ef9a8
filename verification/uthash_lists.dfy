/** The two doubly linked lists that thread the items of a uthash table (praxis2/include/uthash.h). */
module HashLists {
  import opened Words

  /**
   * An item with its UT_hash_handle: `prev`/`next` in application order, `hhPrev`/`hhNext`
   * within a bucket. Key, value and hash value do not change while the item is in a table.
   */
  class Item<K, V> {
    const key: K
    const value: V
    const hashv: nat
    var prev: Item?<K, V>
    var next: Item?<K, V>
    var hhPrev: Item?<K, V>
    var hhNext: Item?<K, V>

    constructor (key: K, value: V, hashv: nat)
      ensures this.key == key && this.value == value && this.hashv == hashv
    {
      this.key, this.value, this.hashv := key, value, hashv;
      prev, next, hhPrev, hhNext := null, null, null, null;
    }
  }

  ghost predicate Distinct<T>(s: seq<T>) {
    forall i, j :: 0 <= i < j < |s| ==> s[i] != s[j]
  }

  /** The item at an index, and no item beyond the ends. */
  ghost function At<K, V>(s: seq<Item<K, V>>, i: int): Item?<K, V> {
    if 0 <= i < |s| then s[i] else null
  }

  lemma RemoveAtDistinct<T>(s: seq<T>, k: nat)
    requires k < |s| && Distinct(s)
    ensures Distinct(RemoveAt(s, k))
    ensures forall x :: x in RemoveAt(s, k) <==> x in s && x != s[k]
  {
    var r := RemoveAt(s, k);
    forall x ensures x in r <==> x in s && x != s[k] {
      if x in s && x != s[k] {
        var i :| 0 <= i < |s| && s[i] == x;
        assert r[if i < k then i else i - 1] == x;
      }
    }
  }

  // ---------- application order ----------

  /** `s` is a list linked both ways by `next` and `prev`. */
  ghost predicate AppList<K, V>(s: seq<Item<K, V>>)
    reads (set x | x in s)`prev, (set x | x in s)`next
  {
    && Distinct(s)
    && forall i {:trigger s[i].prev} {:trigger s[i].next} :: 0 <= i < |s| ==>
      s[i].prev == At(s, i - 1) && s[i].next == At(s, i + 1)
  }

  lemma OnlyItem<K, V>(s: seq<Item<K, V>>, k: nat)
    requires AppList(s) && k < |s|
    ensures s[k].prev == null && s[k].next == null <==> |s| == 1
    ensures Distinct(s) && AppList<K, V>([])
  {
  }

  /** HASH_APPEND_LIST, without the update of `tail`. */
  method AppendList<K, V>(ghost s: seq<Item<K, V>>, tail: Item<K, V>, add: Item<K, V>)
    requires AppList(s) && s != [] && s[|s| - 1] == tail && add !in s
    modifies tail`next, add`prev, add`next
    ensures AppList(s + [add])
  {
    add.next := null;
    add.prev := tail;
    tail.next := add;
    ghost var t := s + [add];
    assert forall i :: 0 <= i < |s| ==> t[i] == s[i];
  }

  /** Once the neighbours of item `k` point past it, the others form a list. */
  lemma BridgedIsList<K, V>(s: seq<Item<K, V>>, k: nat)
    requires k < |s| && Distinct(s)
    requires forall i {:trigger s[i].prev} {:trigger s[i].next} :: 0 <= i < |s| && i != k ==>
      && s[i].prev == At(s, if i == k + 1 then k - 1 else i - 1)
      && s[i].next == At(s, if i == k - 1 then k + 1 else i + 1)
    ensures AppList(RemoveAt(s, k))
  {
    RemoveAtDistinct(s, k);
    var r := RemoveAt(s, k);
    forall j | 0 <= j < |r|
      ensures r[j].prev == At(r, j - 1) && r[j].next == At(r, j + 1)
    {
      var i := if j < k then j else j + 1;
      assert r[j] == s[i];
    }
  }

  /** The list part of HASH_DELETE_HH: bridges the gap, and gives the new head and tail. */
  method UnlinkApp<K, V>(ghost s: seq<Item<K, V>>, ghost k: nat, head: Item<K, V>,
                         tail: Item<K, V>, del: Item<K, V>)
    returns (head': Item?<K, V>, tail': Item?<K, V>)
    requires AppList(s) && |s| > 1 && k < |s| && s[k] == del
    requires head == s[0] && tail == s[|s| - 1]
    modifies (set x | x in s)`prev, (set x | x in s)`next
    ensures AppList(RemoveAt(s, k))
    ensures var r := RemoveAt(s, k); head' == r[0] && tail' == r[|r| - 1]
  {
    head', tail' := head, tail;
    if del == tail {
      tail' := del.prev;
    }
    if del.prev != null {
      del.prev.next := del.next;
    } else {
      head' := del.next;
    }
    if del.next != null {
      del.next.prev := del.prev;
    }
    BridgedIsList(s, k);
  }

  // ---------- bucket chains ----------

  /** `c` is a chain linked both ways by `hhNext` and `hhPrev`. */
  ghost predicate Chain<K, V>(c: seq<Item<K, V>>)
    reads (set x | x in c)`hhPrev, (set x | x in c)`hhNext
  {
    && Distinct(c)
    && forall i {:trigger c[i].hhPrev} {:trigger c[i].hhNext} :: 0 <= i < |c| ==>
      c[i].hhPrev == At(c, i - 1) && c[i].hhNext == At(c, i + 1)
  }

  /** The part of a chain that a forward walk relies on. */
  ghost predicate Walkable<K, V>(c: seq<Item<K, V>>)
    reads (set x | x in c)`hhNext
  {
    && Distinct(c)
    && forall i {:trigger c[i].hhNext} :: 0 <= i < |c| ==> c[i].hhNext == At(c, i + 1)
  }

  /** Puts an item in front of a chain. */
  method PushFront<K, V>(ghost c: seq<Item<K, V>>, head: Item?<K, V>, add: Item<K, V>)
    requires Chain(c) && head == At(c, 0) && add !in c
    modifies add`hhPrev, add`hhNext, (set x | x in c)`hhPrev
    ensures Chain([add] + c)
  {
    add.hhNext := head;
    add.hhPrev := null;
    if head != null {
      head.hhPrev := add;
    }
    ghost var t := [add] + c;
    assert forall i :: 0 < i < |t| ==> t[i] == c[i - 1];
  }

  /** The same for a bucket chain. */
  lemma BridgedIsChain<K, V>(c: seq<Item<K, V>>, k: nat)
    requires k < |c| && Distinct(c)
    requires forall i {:trigger c[i].hhPrev} {:trigger c[i].hhNext} :: 0 <= i < |c| && i != k ==>
      && c[i].hhPrev == At(c, if i == k + 1 then k - 1 else i - 1)
      && c[i].hhNext == At(c, if i == k - 1 then k + 1 else i + 1)
    ensures Chain(RemoveAt(c, k))
  {
    RemoveAtDistinct(c, k);
    var r := RemoveAt(c, k);
    forall j | 0 <= j < |r|
      ensures r[j].hhPrev == At(r, j - 1) && r[j].hhNext == At(r, j + 1)
    {
      var i := if j < k then j else j + 1;
      assert r[j] == c[i];
    }
  }

  /** HASH_DEL_IN_BKT, without the count: takes an item out and gives the new chain head. */
  method UnlinkChain<K, V>(ghost c: seq<Item<K, V>>, ghost k: nat, head: Item?<K, V>,
                           del: Item<K, V>)
    returns (head': Item?<K, V>)
    requires Chain(c) && k < |c| && c[k] == del && head == c[0]
    modifies (set x | x in c)`hhPrev, (set x | x in c)`hhNext
    ensures Chain(RemoveAt(c, k)) && head' == At(RemoveAt(c, k), 0)
  {
    head' := head;
    if head == del {
      head' := del.hhNext;
    }
    if del.hhPrev != null {
      del.hhPrev.hhNext := del.hhNext;
    }
    if del.hhNext != null {
      del.hhNext.hhPrev := del.hhPrev;
    }
    BridgedIsChain(c, k);
  }
}
