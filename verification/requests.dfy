/** The table of parked requests (praxis2/src/requests.c): a FIFO list per hash. */
module Requests {
  import opened Words
  import opened Packets
  import opened PeerSteps
  import opened UtHash
  import opened HashTables

  /** A parked request; `home` is the hash that it is parked under. */
  class Parked {
    const socket: int
    const packet: Packet
    ghost const home: uint16
    var next: Parked?

    constructor (socket: int, packet: Packet, ghost home: uint16)
      ensures this.socket == socket && this.packet == packet && this.home == home && next == null
    {
      this.socket, this.packet, this.home, this.next := socket, packet, home, null;
    }
  }

  ghost function Nth(s: seq<Parked>, i: int): Parked? {
    if 0 <= i < |s| then s[i] else null
  }

  /** `s` is a list linked by `next`. */
  ghost predicate Linked(s: seq<Parked>)
    reads (set x | x in s)`next
  {
    && (forall i, j :: 0 <= i < j < |s| ==> s[i] != s[j])
    && forall i {:trigger s[i].next} :: 0 <= i < |s| ==> s[i].next == Nth(s, i + 1)
  }

  ghost function AsRequests(s: seq<Parked>): (rs: seq<Request>)
    ensures |rs| == |s|
    ensures forall i :: 0 <= i < |s| ==> rs[i] == Request(s[i].socket, s[i].packet)
  {
    seq(|s|, i requires 0 <= i < |s| => Request(s[i].socket, s[i].packet))
  }

  ghost function AllRequests(lists: map<uint16, seq<Parked>>): (m: map<uint16, seq<Request>>)
    ensures m.Keys == lists.Keys
  {
    map h | h in lists :: AsRequests(lists[h])
  }

  lemma AllRequestsAdd(lists: map<uint16, seq<Parked>>, h: uint16, s: seq<Parked>, r: Parked)
    requires s == if h in lists then lists[h] else []
    ensures AllRequests(lists[h := s + [r]])
      == AllRequests(lists)[h := (if h in lists then AllRequests(lists)[h] else [])
                                 + [Request(r.socket, r.packet)]]
  {
    assert AsRequests(s + [r]) == AsRequests(s) + [Request(r.socket, r.packet)];
  }

  lemma AllRequestsDrop(lists: map<uint16, seq<Parked>>, h: uint16)
    ensures AllRequests(lists - {h}) == AllRequests(lists) - {h}
    ensures h !in lists ==> AllRequests(lists) - {h} == AllRequests(lists)
  {
  }

  lemma OneLinked(r: Parked)
    requires r.next == null
    ensures Linked([r])
  {
  }

  /** The walk to the last request of a list, which is then linked to a new one. */
  method WalkAndLink(ghost s: seq<Parked>, first: Parked, r: Parked)
    requires Linked(s) && s != [] && first == s[0] && r !in s && r.next == null
    modifies (set x | x in s)`next
    ensures Linked(s + [r])
  {
    var re := first;
    ghost var i := 0;
    while re.next != null
      invariant 0 <= i < |s| && re == s[i]
      decreases |s| - i
    {
      re := re.next;
      i := i + 1;
    }
    re.next := r;
    assert forall k :: 0 <= k < |s| ==> (s + [r])[k] == s[k];
  }

  class RTable {
    const index: Table<uint16, Parked>
    ghost var lists: map<uint16, seq<Parked>>
    ghost var nodes: set<Parked>

    /** The index has the first request of each list. */
    ghost predicate Indexed()
      reads this, index
    {
      && Contents(index).Keys == lists.Keys
      && forall h {:trigger lists[h]} :: h in lists ==>
        lists[h] != [] && Contents(index)[h] == lists[h][0]
    }

    /** Every list is well linked and holds the requests for its hash. */
    ghost predicate ListsOk()
      reads this, nodes
    {
      && (forall h, x {:trigger x in lists[h]} :: h in lists && x in lists[h] ==> x in nodes)
      && forall h {:trigger lists[h]} :: h in lists ==>
        Linked(lists[h]) && forall x :: x in lists[h] ==> x.home == h
    }

    ghost predicate Valid()
      reads this, index, Footprint(index), nodes
    {
      Sound(index) && Indexed() && ListsOk()
    }

    /** The requests parked for each hash, oldest first. */
    ghost function Pending(): map<uint16, seq<Request>>
      reads this
    {
      AllRequests(lists)
    }

    ghost function Repr(): set<object>
      reads this, index
    {
      {this} + Footprint(index) + nodes
    }

    constructor (hashFcn: uint16 -> nat)
      ensures Valid() && Pending() == map[] && fresh(Repr())
    {
      index := new Table(hashFcn);
      lists, nodes := map[], {};
    }

    /** Links a request behind the last one of a list; the index stays as it is. */
    method LinkLast(h: uint16, first: Parked, r: Parked)
      requires ListsOk() && r !in nodes && r.next == null && r.home == h
      requires h in lists && lists[h] != [] && first == lists[h][0]
      modifies this`lists, this`nodes, nodes
      ensures ListsOk() && nodes == old(nodes) + {r}
      ensures lists == old(lists)[h := old(lists)[h] + [r]]
    {
      hide Linked, Nth;
      WalkAndLink(lists[h], first, r);
      lists, nodes := lists[h := lists[h] + [r]], nodes + {r};
    }

    method AppendTo(h: uint16, first: Parked, r: Parked)
      requires Valid() && r !in nodes && r.next == null && r.home == h
      requires h in lists && first == lists[h][0]
      modifies this`lists, this`nodes, nodes
      ensures Valid() && nodes == old(nodes) + {r}
      ensures lists == old(lists)[h := old(lists)[h] + [r]]
    {
      hide Sound, Contents, Linked, Nth, ListsOk;
      Apart(this);
      LinkLast(h, first, r);
    }

    method StartList(h: uint16, r: Parked)
      requires Valid() && r !in nodes && r.next == null && r.home == h && h !in lists
      modifies Repr()
      ensures Valid() && fresh(Repr() - old(Repr()) - {r})
      ensures lists == old(lists)[h := [r]]
    {
      hide Sound, Contents, Linked, Entries, DropKey, Nth;
      Apart(this);
      HashAdd(index, h, r);
      OneLinked(r);
      lists, nodes := lists[h := [r]], nodes + {r};
    }

    /** The first request parked for a hash; the others follow by `next`. */
    method GetRequests(h: uint16) returns (first: Parked?)
      requires Valid()
      ensures h in lists ==> lists[h] != [] && first == lists[h][0]
      ensures h !in lists ==> first == null
    {
      var existing := HashFind(index, h);
      first := if existing != null then existing.value else null;
    }

    method Enqueue(h: uint16, r: Parked)
      requires Valid() && r !in nodes && r.next == null && r.home == h
      modifies Repr()
      modifies r
      ensures Valid() && fresh(Repr() - old(Repr()) - {r})
      ensures lists == old(lists)[h := (if h in old(lists) then old(lists)[h] else []) + [r]]
    {
      hide Valid;
      var first := GetRequests(h);
      if first != null {
        AppendTo(h, first, r);
      } else {
        StartList(h, r);
        assert [] + [r] == [r];
      }
    }

    /** Appends at the end of the list for the hash, or starts one. */
    method AddRequest(h: uint16, socket: int, packet: Packet)
      requires Valid()
      modifies Repr()
      ensures Valid() && fresh(Repr() - old(Repr()))
      ensures Pending() == old(Pending())[h :=
        (if h in old(Pending()) then old(Pending())[h] else []) + [Request(socket, packet)]]
    {
      hide Valid, AllRequests;
      var r := new Parked(socket, packet, h);
      ghost var before := lists;
      Enqueue(h, r);
      AllRequestsAdd(before, h, if h in before then before[h] else [], r);
    }

    lemma ListLinked(h: uint16)
      requires Valid()
      ensures h in lists ==> Linked(lists[h])
      ensures Linked([])
    {
    }

    method Forget(h: uint16)
      requires Valid()
      modifies Repr()
      ensures Valid() && fresh(Repr() - old(Repr()))
      ensures lists == old(lists) - {h}
    {
      hide Sound, Contents, Linked, Entries, DropKey, Nth;
      Apart(this);
      var existing := HashFind(index, h);
      if existing != null {
        HashDel(index, existing);
        lists := lists - {h};
      }
    }

    /** Forgets all requests for a hash. */
    method ClearRequests(h: uint16)
      requires Valid()
      modifies Repr()
      ensures Valid() && fresh(Repr() - old(Repr()))
      ensures Pending() == old(Pending()) - {h}
    {
      hide Valid, AllRequests, Footprint;
      AllRequestsDrop(lists, h);
      Forget(h);
    }
  }

  /** The index shares no object with the lists. */
  lemma Apart(t: RTable)
    ensures t !in Footprint(t.index) && t.index in Footprint(t.index)
    ensures forall x: Parked :: x !in Footprint(t.index)
  {
  }
}
