/** The hash table of praxis2/include/uthash.h: find, add, delete and bucket expansion. */
module UtHash {
  import opened Words
  import opened HashLists
  import opened HashChains
  import Bits

  const INITIAL_NUM_BUCKETS := 32
  const INITIAL_NUM_BUCKETS_LOG2 := 5
  const BKT_CAPACITY_THRESH := 10

  datatype Bucket<!K, !V> = Bucket(head: Item?<K, V>, count: nat, expandMult: nat)

  /** HASH_TO_BKT. */
  function ToBkt(hashv: nat, numBuckets: nat): nat
    requires numBuckets > 0
  {
    Bits.And(hashv, numBuckets - 1)
  }

  /** The bucket array shows the first item and the length of every chain. */
  ghost predicate Shows<K, V>(bs: seq<Bucket<K, V>>, chains: seq<seq<Item<K, V>>>) {
    && |bs| == |chains|
    && forall b {:trigger bs[b]} :: 0 <= b < |bs| ==>
      bs[b].head == At(chains[b], 0) && bs[b].count == |chains[b]|
  }

  /** The multiplier of a bucket that has received `n` items during an expansion. */
  function ExpandMult(n: nat, ideal: nat): nat {
    if n == 0 then 0
    else
      var m := ExpandMult(n - 1, ideal);
      if n > ideal && n > m * ideal then m + 1 else m
  }

  /** The multiplier is positive exactly for an overlong chain and stays near its share. */
  lemma {:induction false} ExpandMultBound(n: nat, ideal: nat)
    ensures ExpandMult(n, ideal) > 0 <==> n > ideal
    ensures n > ideal ==> (ExpandMult(n, ideal) - 1) * ideal < n
  {
    if n > 0 {
      ExpandMultBound(n - 1, ideal);
    }
  }

  /**
   * The exact multiplier. With ideal length 1 every item but the first counts. Otherwise it is 0
   * up to the ideal length, 1 for one item more, and from then on the number of ideal lengths
   * that the chain needs.
   */
  lemma {:induction false} ExpandMultExact(n: nat, ideal: nat)
    ensures ideal == 1 ==> ExpandMult(n, ideal) == if n == 0 then 0 else n - 1
    ensures ideal >= 2 && n <= ideal ==> ExpandMult(n, ideal) == 0
    ensures ideal >= 2 && n == ideal + 1 ==> ExpandMult(n, ideal) == 1
    ensures ideal >= 2 && n >= ideal + 2 ==>
      (ExpandMult(n, ideal) - 1) * ideal < n <= ExpandMult(n, ideal) * ideal
  {
    if n > 0 {
      ExpandMultExact(n - 1, ideal);
    }
  }

  /** The multipliers of a bucket array, after an expansion that spread `chains`. */
  ghost predicate Multiplied<K, V>(bs: seq<Bucket<K, V>>, chains: seq<seq<Item<K, V>>>, ideal: nat) {
    && |bs| == |chains|
    && forall b {:trigger bs[b]} :: 0 <= b < |bs| ==> bs[b].expandMult == ExpandMult(|chains[b]|, ideal)
  }

  /** The statistics that an expansion keeps while it spreads `chains`. */
  ghost predicate Tallied<K, V>(bs: seq<Bucket<K, V>>, chains: seq<seq<Item<K, V>>>, ideal: nat,
                                nonideal: nat)
  {
    nonideal == Excess(chains, ideal) && Multiplied(bs, chains, ideal)
  }

  /** The statistics are those of the chains: every bucket's multiplier, and all nonideal items. */
  lemma TalliedExactly<K, V>(bs: seq<Bucket<K, V>>, chains: seq<seq<Item<K, V>>>, ideal: nat,
                             nonideal: nat)
    ensures Tallied(bs, chains, ideal, nonideal) <==>
      && nonideal + Within(chains, ideal) == Total(chains)
      && |bs| == |chains|
      && forall b {:trigger bs[b]} :: 0 <= b < |bs| ==>
        bs[b].expandMult == ExpandMult(|chains[b]|, ideal)
  {
    hide ExpandMult;
    ExcessExactly(chains, ideal);
  }

  /** The number of ineffective expansions at the end of a history. */
  function TrailingIneffective(expansions: seq<bool>): nat {
    if expansions == [] || !expansions[|expansions| - 1] then 0
    else 1 + TrailingIneffective(expansions[..|expansions| - 1])
  }

  predicate TwoIneffective(expansions: seq<bool>) {
    var n := |expansions|;
    n >= 2 && expansions[n - 1] && expansions[n - 2]
  }

  lemma TwoTrailing(expansions: seq<bool>)
    ensures TwoIneffective(expansions) <==> TrailingIneffective(expansions) > 1
  {
    var n := |expansions|;
    if n >= 2 {
      assert expansions[..n - 1][|expansions[..n - 1]| - 1] == expansions[n - 2];
    }
  }

  /** Whether an item with that hash fills its bucket to the threshold while expansion is allowed. */
  ghost predicate Full<K, V>(chains: seq<seq<Item<K, V>>>, bs: seq<Bucket<K, V>>, noexpand: bool,
                             hashv: nat)
  {
    && |bs| == |chains| > 0
    && var b := hashv % |chains|;
    && |chains[b]| + 1 >= (bs[b].expandMult + 1) * BKT_CAPACITY_THRESH && !noexpand
  }

  /** Before any expansion the tenth item fills a bucket; a multiplier allows for ten more each. */
  lemma FullExactly<K, V>(chains: seq<seq<Item<K, V>>>, bs: seq<Bucket<K, V>>, noexpand: bool,
                          hashv: nat)
    requires |bs| == |chains| > 0
    ensures var b := hashv % |chains|;
      Full(chains, bs, noexpand, hashv)
      <==> !noexpand && |chains[b]| >= 9 + 10 * bs[b].expandMult
  {
  }

  lemma NothingFull<K, V>(chains: seq<seq<Item<K, V>>>, bs: seq<Bucket<K, V>>, noexpand: bool,
                          hashv: nat)
    requires forall b :: 0 <= b < |chains| ==> chains[b] == []
    ensures !Full(chains, bs, noexpand, hashv)
  {
    if |bs| == |chains| > 0 {
      var b := hashv % |chains|;
      assert chains[b] == [];
    }
  }

  lemma InitialSize()
    ensures Bits.Pow2(INITIAL_NUM_BUCKETS_LOG2) == INITIAL_NUM_BUCKETS == 32
  {
    assert Bits.Pow2(2) == 4;
  }

  /** The chains built so far are well linked and the new bucket array shows them. */
  ghost predicate Spread<K, V>(bs: seq<Bucket<K, V>>, cs: seq<seq<Item<K, V>>>)
    reads set b, x | 0 <= b < |cs| && x in cs[b] :: x
  {
    && Shows(bs, cs) && InBuckets(cs)
    && forall b {:trigger cs[b]} :: 0 <= b < |cs| ==> Chain(cs[b])
  }

  /** Moves one item to the front of its new bucket and keeps the statistics. */
  method MoveItem<K, V>(thh: Item<K, V>, newBuckets: array<Bucket<K, V>>, ideal: nat,
                        nonideal: nat, ghost log2: nat, ghost cs: seq<seq<Item<K, V>>>)
    returns (nonideal': nat, ghost cs': seq<seq<Item<K, V>>>)
    requires newBuckets.Length == |cs| == Bits.Pow2(log2)
    requires Spread(newBuckets[..], cs) && Tallied(newBuckets[..], cs, ideal, nonideal)
    requires forall b {:trigger cs[b]} :: 0 <= b < |cs| ==> thh !in cs[b]
    modifies newBuckets, thh`hhPrev, thh`hhNext
    modifies (set b, x | 0 <= b < |cs| && x in cs[b] :: x)`hhPrev
    ensures var j := thh.hashv % |cs|; cs' == cs[j := [thh] + cs[j]]
    ensures Spread(newBuckets[..], cs') && Tallied(newBuckets[..], cs', ideal, nonideal')
  {
    Bits.MaskIsMod(thh.hashv, log2);
    var j := ToBkt(thh.hashv, newBuckets.Length);
    var bucket := newBuckets[j];
    assert newBuckets[..][j] == bucket;
    var count, mult := bucket.count + 1, bucket.expandMult;
    nonideal' := nonideal;
    if count > ideal {
      nonideal' := nonideal' + 1;
      if count > mult * ideal {
        mult := mult + 1;
      }
    }
    PushFront(cs[j], bucket.head, thh);
    newBuckets[j] := Bucket(thh, count, mult);
    cs' := cs[j := [thh] + cs[j]];
    ExcessPush(cs, j, [thh] + cs[j], ideal);
  }

  /** Landing of a prefix grows by one item. */
  lemma LandingNext<K, V>(c: seq<Item<K, V>>, p: nat, m: nat, j: nat)
    requires m > 0 && p < |c|
    ensures Landing(c[..p + 1], m, j)
      == (if c[p].hashv % m == j then [c[p]] else []) + Landing(c[..p], m, j)
  {
    assert c[..p + 1][..p] == c[..p];
  }

  /** One round of the inner loop, seen from the chain that is being walked. */
  method MoveStep<K, V>(thh: Item<K, V>, newBuckets: array<Bucket<K, V>>, ideal: nat,
                        nonideal: nat, ghost log2: nat, ghost c: seq<Item<K, V>>, ghost p: nat,
                        ghost cs0: seq<seq<Item<K, V>>>, ghost cs: seq<seq<Item<K, V>>>,
                        ghost items: set<Item<K, V>>)
    returns (nonideal': nat, ghost cs': seq<seq<Item<K, V>>>)
    requires Distinct(c) && p < |c| && thh == c[p] && forall x :: x in c ==> x in items
    requires newBuckets.Length == |cs| == |cs0| == Bits.Pow2(log2)
    requires Spread(newBuckets[..], cs) && Tallied(newBuckets[..], cs, ideal, nonideal)
    requires forall b, x {:trigger x in cs0[b]} :: 0 <= b < |cs0| && x in cs0[b] ==>
      x in items && x !in c
    requires forall j {:trigger cs[j]} :: 0 <= j < |cs| ==> cs[j] == Landing(c[..p], |cs|, j) + cs0[j]
    modifies newBuckets, items`hhPrev, items`hhNext
    ensures |cs'| == |cs| && Spread(newBuckets[..], cs') && Tallied(newBuckets[..], cs', ideal, nonideal')
    ensures forall j {:trigger cs'[j]} :: 0 <= j < |cs| ==>
      cs'[j] == Landing(c[..p + 1], |cs|, j) + cs0[j]
    ensures Total(cs') == Total(cs) + 1
    ensures forall x :: x in items && x != thh ==> x.hhNext == old(x.hhNext)
  {
    hide Landing, Tallied, Total, Bits.Pow2, Shows, Chain;
    var j := thh.hashv % |cs|;
    forall b {:trigger cs[b]} | 0 <= b < |cs|
      ensures thh !in cs[b] && forall x :: x in cs[b] ==> x in items
    {
      LandingMembers(c[..p], |cs|, b);
    }
    nonideal', cs' := MoveItem(thh, newBuckets, ideal, nonideal, log2, cs);
    forall b {:trigger cs'[b]} | 0 <= b < |cs|
      ensures cs'[b] == Landing(c[..p + 1], |cs|, b) + cs0[b]
    {
      LandingNext(c, p, |cs|, b);
    }
    TotalUpdate(cs, j, [thh] + cs[j]);
  }

  /** The inner loop: walks an old chain and moves every item of it. */
  method MoveChain<K, V>(first: Item?<K, V>, newBuckets: array<Bucket<K, V>>, ideal: nat,
                         nonideal: nat, ghost log2: nat, ghost c: seq<Item<K, V>>,
                         ghost cs: seq<seq<Item<K, V>>>, ghost items: set<Item<K, V>>)
    returns (nonideal': nat, ghost cs': seq<seq<Item<K, V>>>)
    requires first == At(c, 0) && Walkable(c) && forall x :: x in c ==> x in items
    requires newBuckets.Length == |cs| == Bits.Pow2(log2)
    requires Spread(newBuckets[..], cs) && Tallied(newBuckets[..], cs, ideal, nonideal)
    requires forall b, x {:trigger x in cs[b]} :: 0 <= b < |cs| && x in cs[b] ==>
      x in items && x !in c
    modifies newBuckets, items`hhPrev, items`hhNext
    ensures |cs'| == |cs| && Spread(newBuckets[..], cs') && Tallied(newBuckets[..], cs', ideal, nonideal')
    ensures forall j {:trigger cs'[j]} :: 0 <= j < |cs| ==> cs'[j] == Landing(c, |cs|, j) + cs[j]
    ensures Total(cs') == Total(cs) + |c|
    ensures forall x :: x in items && x !in c ==> x.hhNext == old(x.hhNext)
  {
    var thh := first;
    nonideal', cs' := nonideal, cs;
    ghost var p := 0;
    while thh != null
      invariant 0 <= p <= |c| && thh == At(c, p)
      invariant forall q {:trigger c[q].hhNext} :: p <= q < |c| ==> c[q].hhNext == At(c, q + 1)
      invariant |cs'| == |cs| && Spread(newBuckets[..], cs') && Tallied(newBuckets[..], cs', ideal, nonideal')
      invariant forall j {:trigger cs'[j]} :: 0 <= j < |cs| ==>
        cs'[j] == Landing(c[..p], |cs|, j) + cs[j]
      invariant Total(cs') == Total(cs) + p
      invariant forall x :: x in items && x !in c ==> x.hhNext == old(x.hhNext)
      decreases |c| - p
    {
      var hhNxt := thh.hhNext;
      nonideal', cs' := MoveStep(thh, newBuckets, ideal, nonideal', log2, c, p, cs, cs', items);
      thh := hhNxt;
      p := p + 1;
    }
    assert c[..p] == c;
  }

  /** Chain `j` of the doubled table once the first `i` old chains have been moved. */
  ghost function Landed<K, V>(chains: seq<seq<Item<K, V>>>, i: nat, j: nat): seq<Item<K, V>>
    requires |chains| > 0
  {
    if j % |chains| < i then Landing(chains[j % |chains|], 2 * |chains|, j) else []
  }

  lemma LandedMembers<K, V>(chains: seq<seq<Item<K, V>>>, i: nat, j: nat, x: Item<K, V>)
    requires |chains| > 0 && InBuckets(chains) && j < 2 * |chains|
    ensures x in Landed(chains, i, j) <==>
      j % |chains| < i && x in chains[j % |chains|] && x.hashv % (2 * |chains|) == j
  {
    LandingMembers(chains[j % |chains|], 2 * |chains|, j);
  }

  /** Items already moved come from other chains than the next one. */
  lemma LandedElsewhere<K, V>(chains: seq<seq<Item<K, V>>>, i: nat, cs: seq<seq<Item<K, V>>>)
    requires |chains| > 0 && InBuckets(chains) && i < |chains| && |cs| == 2 * |chains|
    requires forall j {:trigger cs[j]} :: 0 <= j < |cs| ==> cs[j] == Landed(chains, i, j)
    ensures forall j, x {:trigger x in cs[j]} :: 0 <= j < |cs| && x in cs[j] ==>
      x in chains[j % |chains|] && x !in chains[i]
  {
    forall j, x {:trigger x in cs[j]} | 0 <= j < |cs| && x in cs[j]
      ensures x in chains[j % |chains|] && x !in chains[i]
    {
      LandedMembers(chains, i, j, x);
    }
  }

  lemma LandedAll<K, V>(chains: seq<seq<Item<K, V>>>, cs: seq<seq<Item<K, V>>>)
    requires |chains| > 0 && |cs| == 2 * |chains|
    requires forall j {:trigger cs[j]} :: 0 <= j < |cs| ==> cs[j] == Landed(chains, |chains|, j)
    ensures forall j {:trigger cs[j]} :: 0 <= j < |cs| ==>
      cs[j] == Landing(chains[j % |chains|], |cs|, j)
  {
    hide Landing;
  }

  /** The shift and mask formula is the ceiling of items by new buckets. */
  lemma IdealIsCeil(n: nat, log2: nat, buckets: nat, ideal: nat)
    requires buckets == Bits.Pow2(log2)
    requires ideal == Bits.Shr(n, log2 + 1) + if Bits.And(n, buckets * 2 - 1) != 0 then 1 else 0
    ensures ideal * (2 * buckets) >= n
    ensures ideal > 0 ==> (ideal - 1) * (2 * buckets) < n
  {
    hide Bits.Shr, Bits.And;
    assert Bits.Pow2(log2 + 1) == 2 * buckets;
    Bits.CeilByShiftIsCeil(n, log2 + 1);
  }

  lemma NothingLands<K, V>(chains: seq<seq<Item<K, V>>>, i: nat, j: nat)
    requires |chains| > 0 && InBuckets(chains) && i < |chains| && j % |chains| != i
    ensures Landing(chains[i], 2 * |chains|, j) == []
  {
    forall x | x in chains[i] ensures x.hashv % (2 * |chains|) != j {
      ModOfDouble(x.hashv, |chains|);
    }
    LandingNone(chains[i], 2 * |chains|, j);
  }

  lemma LandedStep<K, V>(chains: seq<seq<Item<K, V>>>, i: nat, cs: seq<seq<Item<K, V>>>,
                         cs': seq<seq<Item<K, V>>>)
    requires |chains| > 0 && InBuckets(chains) && i < |chains| && |cs| == |cs'| == 2 * |chains|
    requires forall j {:trigger cs[j]} :: 0 <= j < |cs| ==> cs[j] == Landed(chains, i, j)
    requires forall j {:trigger cs'[j]} :: 0 <= j < |cs| ==>
      cs'[j] == Landing(chains[i], |cs|, j) + cs[j]
    ensures forall j {:trigger cs'[j]} :: 0 <= j < |cs| ==> cs'[j] == Landed(chains, i + 1, j)
  {
    hide Landing;
    forall j {:trigger cs'[j]} | 0 <= j < |cs| ensures cs'[j] == Landed(chains, i + 1, j) {
      var l := Landing(chains[i], |cs|, j);
      if j % |chains| != i {
        NothingLands(chains, i, j);
      }
      assert l + [] == l;
    }
  }

  lemma LandedPlaced<K, V>(app: seq<Item<K, V>>, chains: seq<seq<Item<K, V>>>,
                           cs: seq<seq<Item<K, V>>>)
    requires Placed(app, chains) && |cs| == 2 * |chains|
    requires forall j {:trigger cs[j]} :: 0 <= j < |cs| ==> cs[j] == Landed(chains, |chains|, j)
    ensures Placed(app, cs)
  {
    hide Landed;
    forall j, x {:trigger x in cs[j]} | 0 <= j < |cs| && x in cs[j]
      ensures x in app && x.hashv % |cs| == j
    {
      LandedMembers(chains, |chains|, j, x);
    }
    forall x {:trigger x in app} | x in app ensures x in cs[x.hashv % |cs|] {
      var j := x.hashv % |cs|;
      ModOfDouble(x.hashv, |chains|);
      LandedMembers(chains, |chains|, j, x);
    }
  }

  lemma {:induction false} TotalSnocEmpty<T>(chains: seq<seq<T>>)
    ensures Total(chains + [[]]) == Total(chains)
    decreases |chains|
  {
    if chains != [] {
      assert (chains + [[]])[1..] == chains[1..] + [[]];
      TotalSnocEmpty(chains[1..]);
    }
  }

  lemma TotalPrefix<T>(chains: seq<seq<T>>, i: nat)
    requires i < |chains|
    ensures Total(chains[..i + 1]) == Total(chains[..i]) + |chains[i]|
  {
    var padded := chains[..i] + [[]];
    assert padded[i := chains[i]] == chains[..i + 1];
    TotalUpdate(padded, i, chains[i]);
    TotalSnocEmpty(chains[..i]);
  }

  class Table<K(==), V> {
    const hashFcn: K -> nat

    var head: Item?<K, V>
    var tail: Item?<K, V>
    var buckets: array<Bucket<K, V>>
    var numBuckets: nat
    var log2NumBuckets: nat
    var numItems: nat
    var idealChainMaxlen: nat
    var nonidealItems: nat
    var ineffExpands: nat
    var noexpand: bool

    /** The items in application order and by bucket, and whether each expansion was ineffective. */
    ghost var app: seq<Item<K, V>>
    ghost var chains: seq<seq<Item<K, V>>>
    ghost var expansions: seq<bool>

    /** The integrity conditions on the buckets. */
    ghost predicate BucketsOk()
      reads this`app, this`chains, this`expansions, this`buckets, this`numBuckets,
        this`log2NumBuckets, this`numItems, this`ineffExpands, this`noexpand, buckets,
        (set x | x in app)`hhPrev, (set x | x in app)`hhNext
    {
      && numItems == |app|
      && numBuckets == |chains| == Bits.Pow2(log2NumBuckets)
      && Shows(buckets[..], chains)
      && Placed(app, chains) && Total(chains) == |app|
      && (forall b {:trigger chains[b]} :: 0 <= b < |chains| ==> Chain(chains[b]))
      && (forall x :: x in app ==> x.hashv == hashFcn(x.key))
      && log2NumBuckets == INITIAL_NUM_BUCKETS_LOG2 + |expansions|
      && ineffExpands == TrailingIneffective(expansions)
      && noexpand == TwoIneffective(expansions)
    }

    /** What HASH_FSCK checks; with `head == null` there is no table behind the pointer. */
    ghost predicate Valid()
      reads this, buckets, set x | x in app
    {
      && head == At(app, 0)
      && AppList(app)
      && (app != [] ==> tail == app[|app| - 1] && BucketsOk())
    }

    constructor (hashFcn: K -> nat)
      ensures Valid() && app == [] && this.hashFcn == hashFcn && fresh(buckets)
    {
      this.hashFcn := hashFcn;
      head, tail := null, null;
      buckets := new Bucket<K, V>[0];
      numBuckets, log2NumBuckets, numItems := 0, 0, 0;
      idealChainMaxlen, nonidealItems, ineffExpands, noexpand := 0, 0, 0, false;
      app, chains, expansions := [], [], [];
    }

    /** HASH_FIND and HASH_FIND_IN_BKT. */
    method Find(key: K) returns (out: Item?<K, V>)
      requires Valid()
      ensures out != null ==> out in app && out.key == key
      ensures out == null ==> forall x :: x in app ==> x.key != key
    {
      out := null;
      if head != null {
        var hashv := hashFcn(key);
        Bits.MaskIsMod(hashv, log2NumBuckets);
        var bkt := ToBkt(hashv, numBuckets);
        ghost var c := chains[bkt];
        assert Chain(c);
        out := buckets[..][bkt].head;
        ghost var i := 0;
        while out != null
          invariant 0 <= i <= |c| && out == At(c, i)
          invariant forall q :: 0 <= q < i ==> c[q].key != key
          decreases |c| - i
        {
          assert out == c[i] && out in chains[bkt];
          if out.hashv == hashv && out.key == key {
            break;
          }
          out := out.hhNext;
          i := i + 1;
        }
        assert forall x :: x in app && x.key == key ==> x in c;
      }
    }

    // ---------- a new table, and linking into a bucket ----------

    lemma EmptyTableOk()
      requires app == [] && numItems == 0 && ineffExpands == 0 && !noexpand && expansions == []
      requires numBuckets == INITIAL_NUM_BUCKETS && log2NumBuckets == INITIAL_NUM_BUCKETS_LOG2
      requires buckets[..] == seq(INITIAL_NUM_BUCKETS, _ => Bucket(null, 0, 0))
      requires chains == seq(INITIAL_NUM_BUCKETS, _ => [])
      ensures BucketsOk()
    {
      TotalEmpty(chains);
      InitialSize();
    }

    /** HASH_MAKE_TABLE: an empty table with 32 buckets. */
    method MakeTable(first: Item<K, V>)
      requires app == []
      modifies this
      ensures head == old(head) && app == [] && tail == first
      ensures BucketsOk() && fresh(buckets) && expansions == []
      ensures numItems == idealChainMaxlen == nonidealItems == 0
      ensures chains == seq(INITIAL_NUM_BUCKETS, _ => [])
    {
      hide BucketsOk;
      tail := first;
      numBuckets := INITIAL_NUM_BUCKETS;
      log2NumBuckets := INITIAL_NUM_BUCKETS_LOG2;
      numItems, idealChainMaxlen, nonidealItems, ineffExpands, noexpand := 0, 0, 0, 0, false;
      buckets := new Bucket<K, V>[INITIAL_NUM_BUCKETS](_ => Bucket(null, 0, 0));
      chains := seq(INITIAL_NUM_BUCKETS, _ => []);
      expansions := [];
      EmptyTableOk();
    }

    /** The table has doubled exactly when the item's bucket was full. */
    ghost predicate Grown(full: bool, chains0: seq<seq<Item<K, V>>>, expansions0: seq<bool>,
                          add: Item<K, V>)
      requires |chains0| > 0
      reads this
    {
      if full then |chains| == 2 * |chains0| && |expansions| == |expansions0| + 1
      else
        var b := add.hashv % |chains0|;
        chains == chains0[b := [add] + chains0[b]] && expansions == expansions0
    }

    lemma SameSizes()
      requires BucketsOk()
      ensures buckets.Length == |chains| > 0
    {
    }

    method LinkToBkt(bkt: nat, add: Item<K, V>) returns (bucket: Bucket<K, V>)
      requires bkt < |chains| && Shows(buckets[..], chains) && Placed(app, chains) && add !in app
      requires forall b {:trigger chains[b]} :: 0 <= b < |chains| ==> Chain(chains[b])
      modifies buckets, (set x | x in app)`hhPrev, add`hhPrev, add`hhNext
      ensures var chains' := chains[bkt := [add] + chains[bkt]];
        && Shows(buckets[..], chains')
        && forall b {:trigger chains'[b]} :: 0 <= b < |chains'| ==> Chain(chains'[b])
      ensures bucket.count == |chains[bkt]| + 1
      ensures bucket.expandMult == old(buckets[bkt]).expandMult
    {
      ghost var c := chains[bkt];
      bucket := buckets[bkt];
      assert buckets[..][bkt] == bucket;
      PushFront(c, bucket.head, add);
      bucket := bucket.(head := add, count := bucket.count + 1);
      buckets[bkt] := bucket;
    }

    /** HASH_ADD_TO_BKT up to the test whether to expand, and the bucket to test. */
    method AddToBkt(add: Item<K, V>) returns (bucket: Bucket<K, V>)
      requires BucketsOk() && add !in app && add.hashv == hashFcn(add.key)
      modifies this`numItems, this`app, this`chains, buckets
      modifies (set x | x in app)`hhPrev, add`hhPrev, add`hhNext
      ensures app == old(app) + [add] && BucketsOk()
      ensures var b := add.hashv % |old(chains)|;
        && chains == old(chains)[b := [add] + old(chains)[b]]
        && bucket.count == |old(chains)[b]| + 1 && bucket.expandMult == old(buckets[b]).expandMult
    {
      hide Total, TrailingIneffective, TwoIneffective, Bits.Pow2, Bits.And, Shows, Chain;
      SameSizes();
      numItems := numItems + 1;
      Bits.MaskIsMod(add.hashv, log2NumBuckets);
      var bkt := ToBkt(add.hashv, numBuckets);
      PlacedAdd(app, chains, add);
      bucket := LinkToBkt(bkt, add);
      chains := chains[bkt := [add] + chains[bkt]];
      app := app + [add];
    }

    // ---------- doubling the buckets ----------

    /** One round of the outer loop moves chain `i`. */
    method ExpandStep(i: nat, newBuckets: array<Bucket<K, V>>, ideal: nat, nonideal: nat,
                      ghost cs: seq<seq<Item<K, V>>>, ghost items: set<Item<K, V>>)
      returns (nonideal': nat, ghost cs': seq<seq<Item<K, V>>>)
      requires Placed(app, chains) && items == (set x | x in app) && newBuckets != buckets
      requires numBuckets == |chains| == Bits.Pow2(log2NumBuckets) && Shows(buckets[..], chains)
      requires i < numBuckets && newBuckets.Length == |cs| == 2 * |chains|
      requires Spread(newBuckets[..], cs) && Tallied(newBuckets[..], cs, ideal, nonideal)
      requires forall j {:trigger cs[j]} :: 0 <= j < |cs| ==> cs[j] == Landed(chains, i, j)
      requires Total(cs) == Total(chains[..i])
      requires forall b {:trigger chains[b]} :: i <= b < |chains| ==> Walkable(chains[b])
      modifies newBuckets, items`hhPrev, items`hhNext
      ensures |cs'| == |cs| && Spread(newBuckets[..], cs') && Tallied(newBuckets[..], cs', ideal, nonideal')
      ensures forall j {:trigger cs'[j]} :: 0 <= j < |cs| ==> cs'[j] == Landed(chains, i + 1, j)
      ensures Total(cs') == Total(chains[..i + 1])
      ensures forall b {:trigger chains[b]} :: i + 1 <= b < |chains| ==> Walkable(chains[b])
    {
      LandedElsewhere(chains, i, cs);
      ghost var c := chains[i];
      assert buckets[..][i] == buckets[i];
      nonideal', cs' := MoveChain(
        buckets[i].head, newBuckets, ideal, nonideal, log2NumBuckets + 1, c, cs, items);
      LandedStep(chains, i, cs, cs');
      TotalPrefix(chains, i);
    }

    /** The two nested loops of HASH_EXPAND_BUCKETS. */
    method MoveAll(newBuckets: array<Bucket<K, V>>, ideal: nat)
      returns (nonideal: nat, ghost cs: seq<seq<Item<K, V>>>)
      requires BucketsOk() && newBuckets != buckets && newBuckets.Length == 2 * numBuckets
      requires forall j :: 0 <= j < newBuckets.Length ==> newBuckets[j] == Bucket(null, 0, 0)
      modifies newBuckets, (set x | x in app)`hhPrev, (set x | x in app)`hhNext
      ensures |cs| == 2 * |chains| && Spread(newBuckets[..], cs) && Tallied(newBuckets[..], cs, ideal, nonideal)
      ensures forall j {:trigger cs[j]} :: 0 <= j < |cs| ==> cs[j] == Landed(chains, |chains|, j)
      ensures Total(cs) == |app|
    {
      hide Landing, Total, Excess;
      ghost var items := set x | x in app;
      cs := seq(2 * numBuckets, _ => []);
      nonideal := 0;
      TotalEmpty(cs);
      ExcessEmpty(cs, ideal);
      assert chains[..0] == [];
      TotalEmpty(chains[..0]);
      var i := 0;
      while i < numBuckets
        invariant 0 <= i <= numBuckets && newBuckets.Length == |cs| == 2 * |chains|
        invariant Spread(newBuckets[..], cs) && Tallied(newBuckets[..], cs, ideal, nonideal)
        invariant forall j {:trigger cs[j]} :: 0 <= j < |cs| ==> cs[j] == Landed(chains, i, j)
        invariant Total(cs) == Total(chains[..i])
        invariant forall b {:trigger chains[b]} :: i <= b < |chains| ==> Walkable(chains[b])
      {
        nonideal, cs := ExpandStep(i, newBuckets, ideal, nonideal, cs, items);
        i := i + 1;
      }
      assert chains[..numBuckets] == chains;
    }

    /** Installs the new buckets and draws the balance of the expansion. */
    method FinishExpand(newBuckets: array<Bucket<K, V>>, ideal: nat, nonideal: nat,
                        ghost cs: seq<seq<Item<K, V>>>)
      requires numItems == |app| && numBuckets == |chains| == Bits.Pow2(log2NumBuckets)
      requires Placed(app, chains) && Total(chains) == |app|
      requires forall x :: x in app ==> x.hashv == hashFcn(x.key)
      requires log2NumBuckets == INITIAL_NUM_BUCKETS_LOG2 + |expansions|
      requires ineffExpands == TrailingIneffective(expansions) && !noexpand
      requires newBuckets.Length == |cs| == 2 * |chains|
      requires Spread(newBuckets[..], cs) && Tallied(newBuckets[..], cs, ideal, nonideal)
      requires forall j {:trigger cs[j]} :: 0 <= j < |cs| ==> cs[j] == Landed(chains, |chains|, j)
      requires Total(cs) == |app|
      modifies this`buckets, this`numBuckets, this`log2NumBuckets, this`idealChainMaxlen,
        this`nonidealItems, this`ineffExpands, this`noexpand, this`chains, this`expansions
      ensures BucketsOk() && buckets == newBuckets && chains == cs
      ensures idealChainMaxlen == ideal && nonidealItems == nonideal
      ensures expansions == old(expansions) + [nonideal > |app| / 2]
    {
      hide Placed, Shows, Chain, InBuckets, Landed, Total, Tallied;
      LandedPlaced(app, chains, cs);
      idealChainMaxlen := ideal;
      nonidealItems := nonideal;
      numBuckets := numBuckets * 2;
      log2NumBuckets := log2NumBuckets + 1;
      buckets := newBuckets;
      ineffExpands := if nonidealItems > numItems / 2 then ineffExpands + 1 else 0;
      if ineffExpands > 1 {
        noexpand := true;
      }
      assert (expansions + [nonideal > |app| / 2])[..|expansions|] == expansions;
      expansions := expansions + [nonideal > |app| / 2];
      chains := cs;
      TwoTrailing(expansions);
    }

    /** HASH_EXPAND_BUCKETS. */
    method ExpandBuckets()
      requires BucketsOk() && !noexpand
      modifies this`buckets, this`numBuckets, this`log2NumBuckets, this`idealChainMaxlen,
        this`nonidealItems, this`ineffExpands, this`noexpand, this`chains, this`expansions,
        (set x | x in app)`hhPrev, (set x | x in app)`hhNext
      ensures BucketsOk() && fresh(buckets)
      ensures |chains| == 2 * |old(chains)|
      ensures forall j :: 0 <= j < |chains| ==>
        chains[j] == Landing(old(chains)[j % |old(chains)|], |chains|, j)
      ensures idealChainMaxlen * |chains| >= |app|
      ensures idealChainMaxlen > 0 ==> (idealChainMaxlen - 1) * |chains| < |app|
      ensures Tallied(buckets[..], chains, idealChainMaxlen, nonidealItems)
      ensures app == old(app)
      ensures expansions == old(expansions) + [nonidealItems > |app| / 2]
    {
      hide Placed, Shows, Chain, InBuckets, Landed, Landing, Total, Tallied, Spread;
      var newBuckets := new Bucket<K, V>[2 * numBuckets](_ => Bucket(null, 0, 0));
      var ideal := Bits.Shr(numItems, log2NumBuckets + 1)
        + if Bits.And(numItems, numBuckets * 2 - 1) != 0 then 1 else 0;
      IdealIsCeil(numItems, log2NumBuckets, numBuckets, ideal);
      var nonideal, cs := MoveAll(newBuckets, ideal);
      LandedAll(chains, cs);
      FinishExpand(newBuckets, ideal, nonideal, cs);
    }

    // ---------- adding an item ----------

    /** HASH_ADD_TO_TABLE: the item, already in the list, goes to its bucket. */
    method AddToTable(add: Item<K, V>)
      requires BucketsOk() && add !in app && add.hashv == hashFcn(add.key)
      requires AppList(app + [add]) && head == At(app + [add], 0) && tail == add
      modifies this, buckets, app, add
      ensures Valid() && app == old(app) + [add]
      ensures buckets == old(buckets) || fresh(buckets)
      ensures |old(chains)| > 0
      ensures var full := Full(old(chains), old(buckets[..]), old(noexpand), add.hashv);
        Grown(full, old(chains), old(expansions), add)
    {
      hide BucketsOk;
      SameSizes();
      var bucket := AddToBkt(add);
      if bucket.count >= (bucket.expandMult + 1) * BKT_CAPACITY_THRESH && !noexpand {
        ExpandBuckets();
      }
    }

    /** HASH_ADD_KEYPTR: a new item at the end of the application order. */
    method AddKeyptr(key: K, value: V) returns (add: Item<K, V>)
      requires Valid()
      modifies this, buckets, app
      ensures Valid() && app == old(app) + [add]
      ensures fresh(add) && add.key == key && add.value == value
      ensures buckets == old(buckets) || fresh(buckets)
      ensures old(app) == [] ==> |chains| == INITIAL_NUM_BUCKETS && expansions == []
      ensures old(app) != [] ==> (
        var full := Full(old(chains), old(buckets[..]), old(noexpand), add.hashv);
        |old(chains)| > 0 && Grown(full, old(chains), old(expansions), add))
    {
      add := new Item(key, value, hashFcn(key));
      if head == null {
        add.next := null;
        add.prev := null;
        MakeTable(add);
        head := add;
        assert AppList([] + [add]);
        NothingFull(chains, buckets[..], noexpand, add.hashv);
        AddToTable(add);
      } else {
        AppendList(app, tail, add);
        tail := add;
        AddToTable(add);
      }
    }

    // ---------- deleting ----------

    method UnlinkFromBkt(bkt: nat, del: Item<K, V>) returns (ghost j: nat)
      requires bkt < |chains| && Shows(buckets[..], chains) && Placed(app, chains)
      requires forall b {:trigger chains[b]} :: 0 <= b < |chains| ==> Chain(chains[b])
      requires del in chains[bkt]
      modifies buckets, (set x | x in app)`hhPrev, (set x | x in app)`hhNext
      ensures j < |chains[bkt]| && chains[bkt][j] == del && Distinct(chains[bkt])
      ensures var chains' := chains[bkt := RemoveAt(chains[bkt], j)];
        && Shows(buckets[..], chains')
        && forall b {:trigger chains'[b]} :: 0 <= b < |chains'| ==> Chain(chains'[b])
    {
      hide RemoveAt;
      ghost var c := chains[bkt];
      j :| 0 <= j < |c| && c[j] == del;
      var bucket := buckets[bkt];
      assert buckets[..][bkt] == bucket;
      assert Chain(c);
      var first := UnlinkChain(c, j, bucket.head, del);
      buckets[bkt] := bucket.(head := first, count := bucket.count - 1);
    }

    /** HASH_DEL_IN_BKT and the item count. */
    method DeleteFromBkt(ghost k: nat, del: Item<K, V>)
      requires BucketsOk() && Distinct(app) && k < |app| && app[k] == del
      modifies this`numItems, this`app, this`chains, buckets
      modifies (set x | x in app)`hhPrev, (set x | x in app)`hhNext
      ensures BucketsOk() && app == RemoveAt(old(app), k) && |chains| == |old(chains)|
    {
      hide Total, TrailingIneffective, TwoIneffective, Bits.Pow2, Bits.And, Shows, Chain, RemoveAt;
      Bits.MaskIsMod(del.hashv, log2NumBuckets);
      var bkt := ToBkt(del.hashv, numBuckets);
      assert del in app && del in chains[bkt];
      ghost var j := UnlinkFromBkt(bkt, del);
      PlacedRemove(app, chains, k, bkt, j);
      RemoveAtDistinct(app, k);
      numItems := numItems - 1;
      chains := chains[bkt := RemoveAt(chains[bkt], j)];
      app := RemoveAt(app, k);
    }

    /** HASH_DELETE_HH. Deleting the last item frees the table. */
    method Delete(del: Item<K, V>)
      requires Valid() && del in app
      modifies this, buckets, set x | x in app
      ensures Valid() && buckets == old(buckets)
      ensures exists k :: 0 <= k < |old(app)| && old(app)[k] == del && app == RemoveAt(old(app), k)
      ensures app != [] ==> |chains| == |old(chains)| && expansions == old(expansions)
    {
      hide BucketsOk, AppList, RemoveAt;
      ghost var k :| 0 <= k < |app| && app[k] == del;
      OnlyItem(app, k);
      if del.prev == null && del.next == null {
        head := null;
        app, chains := [], [];
      } else {
        head, tail := UnlinkApp(app, k, head, tail, del);
        assert AppList(RemoveAt(app, k));
        DeleteFromBkt(k, del);
        assert AppList(app);
      }
    }
  }
}
