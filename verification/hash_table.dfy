/** The key-value store of praxis2/src/hash_table.c on top of uthash. */
module HashTables {
  import opened Words
  import opened HashLists
  import opened UtHash

  // ---------- a table as a finite map ----------

  /** Keys and values in application order. */
  ghost function Pairs<K, V>(app: seq<Item<K, V>>): (ps: seq<(K, V)>)
    ensures |ps| == |app|
    ensures forall i :: 0 <= i < |ps| ==> ps[i] == (app[i].key, app[i].value)
  {
    seq(|app|, i requires 0 <= i < |app| => (app[i].key, app[i].value))
  }

  predicate UniqueKeys<K(==), V>(ps: seq<(K, V)>) {
    forall i, j :: 0 <= i < j < |ps| ==> ps[i].0 != ps[j].0
  }

  function MapOf<K, V>(ps: seq<(K, V)>): map<K, V> {
    if ps == [] then map[]
    else MapOf(ps[..|ps| - 1])[ps[|ps| - 1].0 := ps[|ps| - 1].1]
  }

  /** The entries without those for a key, in the same order. */
  function DropKey<K(==), V>(ps: seq<(K, V)>, key: K): seq<(K, V)> {
    if ps == [] then []
    else
      var last := ps[|ps| - 1];
      DropKey(ps[..|ps| - 1], key) + if last.0 == key then [] else [last]
  }

  lemma {:induction false} MapOfHas<K, V>(ps: seq<(K, V)>, key: K)
    ensures key in MapOf(ps) <==> exists i :: 0 <= i < |ps| && ps[i].0 == key
    ensures UniqueKeys(ps) ==>
      forall i :: 0 <= i < |ps| && ps[i].0 == key ==> MapOf(ps)[key] == ps[i].1
    decreases |ps|
  {
    if ps != [] {
      var init := ps[..|ps| - 1];
      MapOfHas(init, key);
      assert forall i :: 0 <= i < |init| ==> init[i] == ps[i];
    }
  }

  lemma {:induction false} DropAbsent<K, V>(ps: seq<(K, V)>, key: K)
    requires forall i :: 0 <= i < |ps| ==> ps[i].0 != key
    ensures DropKey(ps, key) == ps
    decreases |ps|
  {
    if ps != [] {
      DropAbsent(ps[..|ps| - 1], key);
    }
  }

  /** With unique keys, dropping a key is removing its one entry. */
  lemma {:induction false} DropIsRemove<K, V>(ps: seq<(K, V)>, k: nat)
    requires k < |ps| && UniqueKeys(ps)
    ensures DropKey(ps, ps[k].0) == RemoveAt(ps, k)
    decreases |ps|
  {
    var n := |ps| - 1;
    var init := ps[..n];
    assert ps == init + [ps[n]];
    if k == n {
      DropAbsent(init, ps[k].0);
    } else {
      DropIsRemove(init, k);
    }
  }

  lemma UpdateMinus<K, V>(m: map<K, V>, k: K, v: V, key: K)
    ensures m[k := v] - {key} == if k == key then m - {key} else (m - {key})[k := v]
  {
  }

  lemma MapOfSnoc<K, V>(ps: seq<(K, V)>, key: K, value: V)
    ensures MapOf(ps + [(key, value)]) == MapOf(ps)[key := value]
  {
    assert (ps + [(key, value)])[..|ps|] == ps;
  }

  lemma {:induction false} DropKeyMap<K, V>(ps: seq<(K, V)>, key: K)
    ensures MapOf(DropKey(ps, key)) == MapOf(ps) - {key}
    decreases |ps|
  {
    if ps != [] {
      hide MapOf;
      var n := |ps| - 1;
      DropKeyMap(ps[..n], key);
      assert ps == ps[..n] + [(ps[n].0, ps[n].1)];
      MapOfSnoc(ps[..n], ps[n].0, ps[n].1);
      UpdateMinus(MapOf(ps[..n]), ps[n].0, ps[n].1, key);
      if ps[n].0 == key {
        assert DropKey(ps[..n], key) + [] == DropKey(ps[..n], key);
      } else {
        MapOfSnoc(DropKey(ps[..n], key), ps[n].0, ps[n].1);
      }
    }
  }

  lemma {:induction false} DropKeyKeys<K, V>(ps: seq<(K, V)>, key: K)
    ensures forall i :: 0 <= i < |DropKey(ps, key)| ==>
      DropKey(ps, key)[i].0 != key && DropKey(ps, key)[i] in ps
    ensures UniqueKeys(ps) ==> UniqueKeys(DropKey(ps, key))
    decreases |ps|
  {
    if ps != [] {
      var n := |ps| - 1;
      DropKeyKeys(ps[..n], key);
      assert forall p :: p in ps[..n] ==> exists i :: 0 <= i < n && ps[i] == p;
    }
  }

  // ---------- the store ----------

  type HTable = Table<Bytes, Bytes>

  /** The entries in application order. */
  ghost function Entries<K, V>(ht: Table<K, V>): seq<(K, V)>
    reads ht
  {
    Pairs(ht.app)
  }

  /** The finite map that the table stands for. */
  ghost function Contents<K, V>(ht: Table<K, V>): map<K, V>
    reads ht
  {
    MapOf(Pairs(ht.app))
  }

  ghost function Footprint<K, V>(ht: Table<K, V>): set<object>
    reads ht
  {
    {ht, ht.buckets} + set x | x in ht.app
  }

  /** A sound table without two entries for one key. */
  ghost predicate Sound<K, V>(ht: Table<K, V>)
    reads Footprint(ht), ht
  {
    ht.Valid() && UniqueKeys(Pairs(ht.app))
  }

  lemma EmptySound<K, V>(ht: Table<K, V>)
    requires ht.Valid() && ht.app == []
    ensures Sound(ht) && Contents(ht) == map[]
  {
  }

  /** HASH_FIND gives the entry of the map, whatever the buckets look like. */
  method HashFind<K(==), V>(ht: Table<K, V>, key: K) returns (out: Item?<K, V>)
    requires Sound(ht)
    ensures out == null <==> key !in Contents(ht)
    ensures out != null ==> out in ht.app && out.key == key && out.value == Contents(ht)[key]
  {
    hide Table.Valid, MapOf;
    out := ht.Find(key);
    MapOfHas(Pairs(ht.app), key);
    if out != null {
      ghost var i :| 0 <= i < |ht.app| && ht.app[i] == out;
      assert Pairs(ht.app)[i] == (key, out.value);
    } else {
      forall i | 0 <= i < |ht.app| ensures Pairs(ht.app)[i].0 != key {
        assert ht.app[i] in ht.app;
      }
    }
  }

  lemma PairsRemove<K, V>(app: seq<Item<K, V>>, k: nat)
    requires k < |app|
    ensures Pairs(RemoveAt(app, k)) == RemoveAt(Pairs(app), k)
    ensures UniqueKeys(Pairs(app)) ==> UniqueKeys(RemoveAt(Pairs(app), k))
    ensures forall x :: x in RemoveAt(app, k) ==> x in app
  {
    var r, s := Pairs(RemoveAt(app, k)), RemoveAt(Pairs(app), k);
    assert forall i :: 0 <= i < |r| ==> r[i] == s[i];
  }

  /** HASH_DEL takes the one entry of its key off the map and off the application order. */
  method HashDel<K(==), V>(ht: Table<K, V>, del: Item<K, V>)
    requires Sound(ht) && del in ht.app
    modifies Footprint(ht)
    ensures Sound(ht) && fresh(Footprint(ht) - old(Footprint(ht)))
    ensures Entries(ht) == DropKey(old(Entries(ht)), del.key)
    ensures Contents(ht) == old(Contents(ht)) - {del.key}
  {
    hide Table.Valid, MapOf, DropKey, RemoveAt;
    ghost var app0 := ht.app;
    ghost var ps := Pairs(app0);
    ht.Delete(del);
    ghost var k :| 0 <= k < |app0| && app0[k] == del && ht.app == RemoveAt(app0, k);
    DropIsRemove(ps, k);
    DropKeyMap(ps, del.key);
    PairsRemove(app0, k);
  }

  /** HASH_ADD of a key that is not in the table: its entry becomes the last one. */
  method HashAdd<K(==), V>(ht: Table<K, V>, key: K, value: V)
    requires Sound(ht) && key !in Contents(ht)
    modifies Footprint(ht)
    ensures Sound(ht) && fresh(Footprint(ht) - old(Footprint(ht)))
    ensures Entries(ht) == old(Entries(ht)) + [(key, value)]
    ensures Contents(ht) == old(Contents(ht))[key := value]
  {
    hide Table.Valid, MapOf;
    ghost var ps := Pairs(ht.app);
    MapOfHas(ps, key);
    var add := ht.AddKeyptr(key, value);
    assert Pairs(ht.app) == ps + [(key, value)];
    MapOfSnoc(ps, key, value);
  }

  /** SET: an existing entry is deleted first, so the key moves to the end of the order. */
  method HtableSet(ht: HTable, key: Bytes, value: Bytes)
    requires Sound(ht)
    modifies Footprint(ht)
    ensures Sound(ht) && fresh(Footprint(ht) - old(Footprint(ht)))
    ensures Entries(ht) == DropKey(old(Entries(ht)), key) + [(key, value)]
    ensures Contents(ht) == old(Contents(ht))[key := value]
  {
    hide Sound, MapOf, DropKey, UniqueKeys;
    var entry := HashFind(ht, key);
    if entry != null {
      HashDel(ht, entry);
    } else {
      MapOfHas(Pairs(ht.app), key);
      DropAbsent(Pairs(ht.app), key);
    }
    HashAdd(ht, key, value);
  }

  /** GET. */
  method HtableGet(ht: HTable, key: Bytes) returns (entry: Item?<Bytes, Bytes>)
    requires Sound(ht)
    ensures entry == null <==> key !in Contents(ht)
    ensures entry != null ==> entry.key == key && entry.value == Contents(ht)[key]
  {
    entry := HashFind(ht, key);
  }

  /** DELETE: of an absent key it changes nothing. */
  method HtableDelete(ht: HTable, key: Bytes)
    requires Sound(ht)
    modifies Footprint(ht)
    ensures Sound(ht) && fresh(Footprint(ht) - old(Footprint(ht)))
    ensures Entries(ht) == DropKey(old(Entries(ht)), key)
    ensures Contents(ht) == old(Contents(ht)) - {key}
  {
    hide Sound, MapOf, DropKey, UniqueKeys;
    var entry := HashFind(ht, key);
    if entry != null {
      HashDel(ht, entry);
    } else {
      MapOfHas(Pairs(ht.app), key);
      DropAbsent(Pairs(ht.app), key);
    }
  }
}
