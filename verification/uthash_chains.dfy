/** How the items of a uthash table are spread over its bucket chains, without the links. */
module HashChains {
  import opened Words
  import opened HashLists
  import Bits

  /** Each chain holds items that hash to its bucket. */
  ghost predicate InBuckets<K, V>(chains: seq<seq<Item<K, V>>>) {
    forall b, x {:trigger x in chains[b]} :: 0 <= b < |chains| && x in chains[b] ==>
      x.hashv % |chains| == b
  }

  /** Both structures hold the same items, each item in the chain of its own bucket. */
  ghost predicate Placed<K, V>(app: seq<Item<K, V>>, chains: seq<seq<Item<K, V>>>) {
    && |chains| > 0
    && InBuckets(chains)
    && (forall b, x {:trigger x in chains[b]} :: 0 <= b < |chains| && x in chains[b] ==> x in app)
    && (forall x {:trigger x in app} :: x in app ==> x in chains[x.hashv % |chains|])
  }

  function Total<T>(chains: seq<seq<T>>): nat {
    if chains == [] then 0 else |chains[0]| + Total(chains[1..])
  }

  lemma {:induction false} TotalUpdate<T>(chains: seq<seq<T>>, b: nat, c: seq<T>)
    requires b < |chains|
    ensures Total(chains[b := c]) == Total(chains) - |chains[b]| + |c|
    decreases |chains|
  {
    if b == 0 {
      assert chains[b := c][1..] == chains[1..];
    } else {
      assert chains[b := c][1..] == chains[1..][b - 1 := c];
      TotalUpdate(chains[1..], b - 1, c);
    }
  }

  lemma {:induction false} TotalEmpty<T>(chains: seq<seq<T>>)
    requires forall b :: 0 <= b < |chains| ==> chains[b] == []
    ensures Total(chains) == 0
    decreases |chains|
  {
    if chains != [] {
      TotalEmpty(chains[1..]);
    }
  }

  /** The number of items beyond the ideal length of their chains. */
  function Excess<T>(chains: seq<seq<T>>, ideal: nat): nat {
    if chains == [] then 0
    else (if |chains[0]| > ideal then |chains[0]| - ideal else 0) + Excess(chains[1..], ideal)
  }

  lemma {:induction false} ExcessPush<T>(chains: seq<seq<T>>, b: nat, c: seq<T>, ideal: nat)
    requires b < |chains| && |c| == |chains[b]| + 1
    ensures Excess(chains[b := c], ideal)
      == Excess(chains, ideal) + if |c| > ideal then 1 else 0
    decreases |chains|
  {
    if b == 0 {
      assert chains[b := c][1..] == chains[1..];
    } else {
      assert chains[b := c][1..] == chains[1..][b - 1 := c];
      ExcessPush(chains[1..], b - 1, c, ideal);
    }
  }

  /** The items within the ideal length of their chains. */
  function Within<T>(chains: seq<seq<T>>, ideal: nat): nat {
    if chains == [] then 0 else Min(|chains[0]|, ideal) + Within(chains[1..], ideal)
  }

  /** Every item is within or beyond the ideal length; none is beyond exactly if no chain is longer. */
  lemma {:induction false} ExcessExactly<T>(chains: seq<seq<T>>, ideal: nat)
    ensures Excess(chains, ideal) + Within(chains, ideal) == Total(chains)
    ensures Excess(chains, ideal) == 0 <==> forall b :: 0 <= b < |chains| ==> |chains[b]| <= ideal
    decreases |chains|
  {
    if chains != [] {
      var rest := chains[1..];
      ExcessExactly(rest, ideal);
      assert forall b :: 0 < b < |chains| ==> chains[b] == rest[b - 1];
      assert forall b :: 0 <= b < |rest| ==> rest[b] == chains[b + 1];
    }
  }

  lemma {:induction false} ExcessEmpty<T>(chains: seq<seq<T>>, ideal: nat)
    requires forall b :: 0 <= b < |chains| ==> chains[b] == []
    ensures Excess(chains, ideal) == 0
    decreases |chains|
  {
    if chains != [] {
      ExcessEmpty(chains[1..], ideal);
    }
  }

  // ---------- adding and removing one item ----------

  lemma PlacedAdd<K, V>(app: seq<Item<K, V>>, chains: seq<seq<Item<K, V>>>, x: Item<K, V>)
    requires Placed(app, chains) && Total(chains) == |app| && x !in app
    ensures var b := x.hashv % |chains|;
      var chains' := chains[b := [x] + chains[b]];
      Placed(app + [x], chains') && Total(chains') == |app| + 1
  {
    var b := x.hashv % |chains|;
    TotalUpdate(chains, b, [x] + chains[b]);
  }

  lemma PlacedRemove<K, V>(
    app: seq<Item<K, V>>, chains: seq<seq<Item<K, V>>>, k: nat, b: nat, j: nat)
    requires Placed(app, chains) && Total(chains) == |app| && Distinct(app)
    requires k < |app| && b < |chains| && j < |chains[b]| && app[k] == chains[b][j]
    requires Distinct(chains[b])
    ensures var chains' := chains[b := RemoveAt(chains[b], j)];
      Placed(RemoveAt(app, k), chains') && Total(chains') == |app| - 1
  {
    RemoveAtDistinct(app, k);
    RemoveAtDistinct(chains[b], j);
    TotalUpdate(chains, b, RemoveAt(chains[b], j));
    var chains' := chains[b := RemoveAt(chains[b], j)];
    forall b', x {:trigger x in chains'[b']} | 0 <= b' < |chains| && x in chains'[b']
      ensures x in RemoveAt(app, k)
    {
      assert x in chains[b'];
      assert app[k] in chains[b];
    }
  }

  // ---------- doubling ----------

  /** The items of `c` that land in bucket `j` of `m`, last one first. */
  ghost function Landing<K, V>(c: seq<Item<K, V>>, m: nat, j: nat): seq<Item<K, V>>
    requires m > 0
  {
    if c == [] then []
    else
      var x := c[|c| - 1];
      (if x.hashv % m == j then [x] else []) + Landing(c[..|c| - 1], m, j)
  }

  lemma {:induction false} LandingMembers<K, V>(c: seq<Item<K, V>>, m: nat, j: nat)
    requires m > 0
    ensures forall x {:trigger x in Landing(c, m, j)} {:trigger x in c} ::
      x in Landing(c, m, j) <==> x in c && x.hashv % m == j
    decreases |c|
  {
    if c != [] {
      LandingMembers(c[..|c| - 1], m, j);
      assert c == c[..|c| - 1] + [c[|c| - 1]];
    }
  }

  /** The last landing item of the old chain becomes the first of the new one. */
  lemma {:induction false} LandingReverses<K, V>(c: seq<Item<K, V>>, m: nat, j: nat, p: nat, q: nat)
    returns (p': nat, q': nat)
    requires m > 0 && p < q < |c| && c[p].hashv % m == j && c[q].hashv % m == j
    ensures q' < p' < |Landing(c, m, j)| && Landing(c, m, j)[p'] == c[p] && Landing(c, m, j)[q'] == c[q]
    decreases |c|
  {
    var init := c[..|c| - 1];
    if q < |c| - 1 {
      p', q' := LandingReverses(init, m, j, p, q);
      if c[|c| - 1].hashv % m == j {
        p', q' := p' + 1, q' + 1;
      }
    } else {
      LandingMembers(init, m, j);
      assert init[p] in Landing(init, m, j);
      p' :| 0 <= p' < |Landing(init, m, j)| && Landing(init, m, j)[p'] == c[p];
      p', q' := p' + 1, 0;
    }
  }

  lemma {:induction false} LandingNone<K, V>(c: seq<Item<K, V>>, m: nat, j: nat)
    requires m > 0 && forall x :: x in c ==> x.hashv % m != j
    ensures Landing(c, m, j) == []
    decreases |c|
  {
    if c != [] {
      assert c[|c| - 1] in c;
      LandingNone(c[..|c| - 1], m, j);
    }
  }

  lemma DivUnique(x: int, p: int, q: int, r: int)
    requires p > 0 && x == p * q + r && 0 <= r < p
    ensures x % p == r
  {
    Bits.QuotientUnique(x, p, q, r);
  }

  lemma ModOfDouble(h: nat, b: nat)
    requires b > 0
    ensures h % (2 * b) % b == h % b
    ensures h % (2 * b) < b ==> h % (2 * b) == h % b
    ensures h % (2 * b) >= b ==> h % (2 * b) == h % b + b
  {
    var q, r := h / (2 * b), h % (2 * b);
    assert h == 2 * b * q + r;
    if r < b {
      assert h == b * (2 * q) + r;
      DivUnique(h, b, 2 * q, r);
      DivUnique(r, b, 0, r);
    } else {
      assert h == b * (2 * q + 1) + (r - b);
      DivUnique(h, b, 2 * q + 1, r - b);
      DivUnique(r, b, 1, r - b);
    }
  }
}
