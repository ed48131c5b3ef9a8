/** The client list and the receive sweep of the server (praxis2/src/server.c). */
module Servers {
  import opened Words
  import opened Packets
  import opened Framing
  import opened Clients
  import opened Rounds

  ghost function Nth(s: seq<Client>, i: int): Client? {
    if 0 <= i < |s| then s[i] else null
  }

  /** `s` is a list linked by `next`, without two clients for one socket. */
  ghost predicate Linked(s: seq<Client>)
    reads (set x | x in s)`next
  {
    && (forall i, j :: 0 <= i < j < |s| ==> s[i].socket != s[j].socket)
    && forall i {:trigger s[i].next} :: 0 <= i < |s| ==> s[i].next == Nth(s, i + 1)
  }

  ghost function Sockets(s: seq<Client>): (ss: seq<int>)
    ensures |ss| == |s| && forall k :: 0 <= k < |s| ==> ss[k] == s[k].socket
  {
    seq(|s|, k requires 0 <= k < |s| => s[k].socket)
  }

  /** The clients of `s` other than `c`. */
  ghost function Others(s: seq<Client>, c: Client): seq<Client> {
    if s == [] then []
    else (if s[0] == c then [] else [s[0]]) + Others(s[1..], c)
  }

  lemma {:induction false} OthersAbsent(s: seq<Client>, c: Client)
    requires c !in s
    ensures Others(s, c) == s
  {
    if s != [] {
      OthersAbsent(s[1..], c);
    }
  }

  lemma {:induction false} OthersIsRemoval(s: seq<Client>, k: nat)
    requires k < |s| && forall i, j :: 0 <= i < j < |s| ==> s[i] != s[j]
    ensures Others(s, s[k]) == s[..k] + s[k + 1..]
    decreases k
  {
    var rest := s[1..];
    if k == 0 {
      OthersAbsent(rest, s[0]);
    } else {
      assert rest[k - 1] == s[k] && s[0] != s[k];
      OthersIsRemoval(rest, k - 1);
      assert [s[0]] + (rest[..k - 1] + rest[k..]) == s[..k] + s[k + 1..];
    }
  }

  lemma {:induction false} OthersSubset(s: seq<Client>, c: Client)
    ensures forall x {:trigger x in Others(s, c)} {:trigger x in s} ::
      x in Others(s, c) <==> x in s && x != c
  {
    if s != [] {
      OthersSubset(s[1..], c);
    }
  }

  lemma {:induction false} OthersConcat(a: seq<Client>, b: seq<Client>, c: Client)
    ensures Others(a + b, c) == Others(a, c) + Others(b, c)
    decreases |a|
  {
    if a == [] {
      assert a + b == b;
    } else {
      assert (a + b)[1..] == a[1..] + b;
      OthersConcat(a[1..], b, c);
    }
  }

  /** Visiting client `t` takes it off the rest, and keeps it unless it leaves. */
  lemma StayersStep(all: seq<Client>, leaving: seq<bool>, t: nat)
    requires t < |all| == |leaving| && forall i, j :: 0 <= i < j < |all| ==> all[i] != all[j]
    ensures var s := Stayers(all, leaving, t) + all[t..];
      Stayers(all, leaving, t + 1) + all[t + 1..] == if leaving[t] then Others(s, all[t]) else s
  {
    hide Others;
    var st := Stayers(all, leaving, t);
    var s := st + all[t..];
    if leaving[t] {
      StayersFrom(all, leaving, t);
      OthersConcat(st, all[t..], all[t]);
      assert all[t] !in all[..t];
      OthersAbsent(st, all[t]);
      OthersIsRemoval(all[t..], 0);
      assert all[t..][1..] == all[t + 1..];
    } else {
      assert st + [all[t]] + all[t + 1..] == s;
    }
  }

  /** The client serves the socket of the entry and holds what has been read from it. */
  ghost predicate Shows(c: Client, e: Entry)
    reads c`state, c`pktBuf, c`pack, c.headerBuf, c.pktBuf, c.Repr() - {c}
  {
    && c.socket == e.socket && e.conn.open
    && c.Valid() && c.state != REMOVE && c.View() == e.conn.view
  }

  lemma ReadInTable(table: seq<Entry>, p: Poll, j: nat)
    requires LegalSweep(table, p) && j < |table|
    ensures p.recvs[j].Returned? ==> |p.recvs[j].chunk| <= Needed(table[j].conn.view)
  {
    assert ViewsOf(table)[j] == table[j].conn.view;
  }

  /** Which clients are marked for removal. */
  ghost function Marked(s: seq<Client>): (m: seq<bool>)
    reads (set x | x in s)`state
    ensures |m| == |s| && forall k :: 0 <= k < |s| ==> m[k] == (s[k].state == REMOVE)
  {
    if s == [] then [] else [s[0].state == REMOVE] + Marked(s[1..])
  }

  lemma {:induction false} NoneMarked(all: seq<Client>, m: nat)
    requires m <= |all|
    ensures forall x :: x in Stayers(all, Marked(all), m) ==> x.state != REMOVE
  {
    if m > 0 {
      NoneMarked(all, m - 1);
    }
  }

  /** Once the predecessor of item `k` points past it, the others form a list. */
  lemma BridgedIsLinked(s: seq<Client>, k: nat)
    requires k < |s| && forall i, j :: 0 <= i < j < |s| ==> s[i].socket != s[j].socket
    requires forall i {:trigger s[i].next} :: 0 <= i < |s| && i != k ==>
      s[i].next == Nth(s, if i == k - 1 then k + 1 else i + 1)
    ensures Linked(s[..k] + s[k + 1..])
  {
    var r := s[..k] + s[k + 1..];
    forall j | 0 <= j < |r| ensures r[j].next == Nth(r, j + 1) {
      var i := if j < k then j else j + 1;
      assert r[j] == s[i];
    }
  }

  class Server {
    var clients: Client?
    var nClients: int
    ghost var list: seq<Client>
    /** Which client each object on the heap of the server belongs to. */
    ghost var owner: map<object, Client>

    /** The list is well linked and `n_clients` is its length. */
    ghost predicate ListOk()
      reads this, (set x | x in list)`next
    {
      Linked(list) && clients == Nth(list, 0) && nClients == |list|
    }

    ghost predicate Owned(c: Client)
      reads this`owner, c`pktBuf, c.headerBuf, c.pktBuf
    {
      forall o {:trigger o in c.Repr()} :: o in c.Repr() ==> o in owner && owner[o] == c
    }

    /** Every client is sound and owns its buffers alone. */
    ghost predicate ClientsOk()
      reads this, (set x | x in list), (set x | x in list :: x.headerBuf),
        (set x | x in list :: x.pktBuf), owner.Keys
    {
      && this !in owner
      && forall c :: c in list ==> Owned(c) && c.Valid()
    }

    /** The clients are those of the table, none is marked, and each holds what the table says. */
    ghost predicate Holds(table: seq<Entry>)
      reads this, (set x | x in list), (set x | x in list :: x.headerBuf),
        (set x | x in list :: x.pktBuf), (set x, o | x in list && o in x.Repr() :: o)
    {
      && |list| == |table|
      && forall k {:trigger list[k]} {:trigger table[k]} :: 0 <= k < |list| ==>
        Shows(list[k], table[k])
    }

    /** server_setup: nobody is connected. */
    constructor ()
      ensures ListOk() && ClientsOk() && Holds([]) && list == [] && owner == map[]
    {
      clients, nClients, list, owner := null, 0, [], map[];
    }

    /** server_remove_client: walks to the client with a trailing pointer and unlinks it. */
    method RemoveClient(c: Client)
      requires ListOk() && c in list
      modifies this`clients, this`nClients, this`list, (set x | x in list)`next
      ensures ListOk() && list == Others(old(list), c)
    {
      var p := clients;
      var prev: Client? := null;
      ghost var k := 0;
      while p != null && p != c
        invariant 0 <= k <= |list| && p == Nth(list, k) && prev == Nth(list, k - 1)
        invariant c !in list[..k]
        decreases |list| - k
      {
        prev := p;
        p := p.next;
        k := k + 1;
      }
      OthersIsRemoval(list, k);
      ghost var s := list;
      if prev == null {
        clients := p.next;
      } else {
        prev.next := p.next;
      }
      nClients := nClients - 1;
      list := list[..k] + list[k + 1..];
      BridgedIsLinked(s, k);
    }

    /** server_close_socket: marks the first client with that socket. */
    method CloseSocket(socket: int)
      requires ListOk()
      modifies (set x | x in list)`state
      ensures forall x :: x in list ==>
        x.state == if x.socket == socket then REMOVE else old(x.state)
    {
      var c := clients;
      ghost var k := 0;
      while c != null
        invariant 0 <= k <= |list| && c == Nth(list, k)
        invariant forall x :: x in list ==> x.state == old(x.state)
        invariant forall x :: x in list[..k] ==> x.socket != socket
        decreases |list| - k
      {
        if c.socket == socket {
          c.state := REMOVE;
          break;
        }
        c := c.next;
        k := k + 1;
      }
    }

    method Prepend(c: Client)
      requires ListOk() && c !in list && forall x :: x in list ==> x.socket != c.socket
      modifies this`clients, this`nClients, this`list, c`next
      ensures ListOk() && list == [c] + old(list)
    {
      c.next := clients;
      clients := c;
      nClients := nClients + 1;
      ghost var s := list;
      list := [c] + list;
      assert forall i :: 0 < i < |list| ==> list[i] == s[i - 1];
    }

    /** The client becomes the owner of all its objects. */
    ghost method Adopt(c: Client)
      requires c in list && c.Valid() && this !in owner && this !in c.Repr()
      requires forall x :: x in list && x != c ==> Owned(x) && x.Valid() && x.Repr() !! c.Repr()
      modifies this`owner
      ensures ClientsOk() && owner.Keys == old(owner.Keys) + c.Repr()
    {
      hide Client.Valid;
      owner := owner + map o | o in c.Repr() :: c;
    }

    /** server_add_client: a new client in front of the list, with buffers of its own. */
    method AddClient(socket: int)
      requires ListOk() && ClientsOk() && forall x :: x in list ==> x.socket != socket
      modifies this`clients, this`nClients, this`list, this`owner
      ensures ListOk() && ClientsOk() && |list| == |old(list)| + 1 && list[1..] == old(list)
      ensures fresh(list[0]) && fresh(list[0].Repr()) && owner.Keys == old(owner.Keys) + list[0].Repr()
      ensures list[0].Valid() && list[0].socket == socket
      ensures list[0].state == IDLE && list[0].View() == FRESH
    {
      hide Client.Valid, Client.View, Linked;
      var c := new Client(socket);
      assert forall x :: x in list ==> Owned(x) && x.Valid() && x.Repr() !! c.Repr();
      Prepend(c);
      Adopt(c);
    }

    // ---------- one client of the receive loop ----------

    /** A client that is not marked for removal still holds the same bytes. */
    twostate predicate SameView(x: Client)
      requires old(x.Valid()) && x.Valid()
      reads x, x.headerBuf, x.pktBuf, x.Repr()
    {
      x.state != REMOVE && old(x.state) != REMOVE ==> x.View() == old(x.View())
    }

    /** Marks every socket that a packet callback closed. */
    method CloseAll(sockets: seq<int>)
      requires ListOk() && ClientsOk()
      modifies (set x | x in list)`state
      ensures ListOk() && ClientsOk()
      ensures forall x :: x in list ==>
        && x.state == (if x.socket in sockets then REMOVE else old(x.state))
        && SameView(x)
    {
      hide Linked, Client.IdleOk, Client.BodyOk;
      for k := 0 to |sockets|
        invariant ListOk()
        invariant forall x :: x in list ==>
          x.state == if x.socket in sockets[..k] then REMOVE else old(x.state)
      {
        CloseSocket(sockets[k]);
        assert sockets[..k + 1] == sockets[..k] + [sockets[k]];
      }
      assert sockets[..|sockets|] == sockets;
    }

    /** No two clients share an object. */
    lemma Apart(c: Client)
      requires ClientsOk() && c in list
      ensures forall x :: x in list && x != c ==> x.Repr() !! c.Repr()
    {
      hide Client.Valid;
    }

    /** Bytes read for one client reach that client only. */
    method ReceiveFor(c: Client, chunk: Bytes) returns (packet: Option<Decoded>)
      requires ListOk() && ClientsOk() && c in list
      requires c.state != REMOVE && 1 <= |chunk| <= Needed(c.View())
      modifies this`owner, owner.Keys
      ensures ListOk() && ClientsOk() && old(owner.Keys) <= owner.Keys
      ensures fresh(owner.Keys - old(owner.Keys))
      ensures c.state != REMOVE && (c.View(), packet) == Receive(old(c.View()), chunk)
      ensures forall x :: x in list && x != c ==> x.state == old(x.state) && SameView(x)
    {
      hide Client.Valid, Client.View, Receive, Needed, Linked;
      Apart(c);
      packet := c.ReceiveBytes(chunk);
      Adopt(c);
    }

    /** Removing a client changes no other client but for its link. */
    method Drop(c: Client)
      requires ListOk() && ClientsOk() && c in list
      modifies this`clients, this`nClients, this`list, (set x | x in list)`next
      ensures ListOk() && ClientsOk() && list == Others(old(list), c)
      ensures forall x :: x in old(list) ==> x.Valid() && x.state == old(x.state) && SameView(x)
    {
      hide Client.Valid, Client.View, Linked, Others;
      ghost var all := list;
      RemoveClient(c);
      OthersSubset(all, c);
      assert forall x :: x in all ==> Owned(x) && x.Valid();
    }

    /** server_deliver_packet: the callback closes sockets and may remove the client. */
    method Deliver(c: Client, cb: Callback)
      requires ListOk() && ClientsOk() && c in list
      modifies this`clients, this`nClients, this`list
      modifies (set x | x in list)`state, (set x | x in list)`next
      ensures ListOk() && ClientsOk()
      ensures list == if cb.verdict.RemoveClient? then Others(old(list), c) else old(list)
      ensures forall x :: x in old(list) ==>
        && x.Valid() && x.state == (if x.socket in cb.closes then REMOVE else old(x.state))
        && SameView(x)
    {
      hide Linked, ListOk, Client.Valid, Client.View, Others;
      CloseAll(cb.closes);
      if cb.verdict.RemoveClient? {
        Drop(c);
      }
    }

    lemma AllOwned()
      requires ClientsOk()
      ensures forall x :: x in list ==> x in owner
    {
      assert forall x :: x in list ==> x in x.Repr();
    }

    /** Some bytes have been read for a client; a packet that they complete is delivered. */
    method Read(c: Client, chunk: Bytes, cb: Callback, ghost v: View) returns (packet: Option<Decoded>)
      requires ListOk() && ClientsOk() && c in list
      requires c.state != REMOVE && c.View() == v && 1 <= |chunk| <= Needed(v)
      modifies this`clients, this`nClients, this`list, this`owner, owner.Keys
      ensures ListOk() && ClientsOk()
      ensures old(owner.Keys) <= owner.Keys && fresh(owner.Keys - old(owner.Keys))
      ensures packet == Receive(v, chunk).1
      ensures list
        == if packet.Some? && cb.verdict.RemoveClient? then Others(old(list), c) else old(list)
      ensures c.Valid() && (c.state == REMOVE <==> packet.Some? && c.socket in cb.closes)
      ensures c.state != REMOVE ==> c.View() == Receive(v, chunk).0
      ensures forall x :: x in old(list) && x != c ==>
        && x.Valid()
        && x.state == (if packet.Some? && x.socket in cb.closes then REMOVE else old(x.state))
        && SameView(x)
    {
      hide Linked, ListOk, Others, Client.Valid, Client.View, Receive, Needed;
      AllOwned();
      packet := ReceiveFor(c, chunk);
      if packet.Some? {
        Deliver(c, cb);
      }
    }

    /** The body of the receive loop for one client. */
    method Visit(c: Client, r: Recv, cb: Callback, ghost v: View) returns (packet: Option<Decoded>)
      requires ListOk() && ClientsOk() && c in list
      requires c.state != REMOVE ==> c.View() == v
      requires r.Returned? ==> c.state != REMOVE && |r.chunk| <= Needed(v)
      modifies this`clients, this`nClients, this`list, this`owner, owner.Keys
      ensures ListOk() && ClientsOk()
      ensures old(owner.Keys) <= owner.Keys && fresh(owner.Keys - old(owner.Keys))
      ensures packet == PacketOf(v, r)
      ensures list == if Leaves(v, r, cb) then Others(old(list), c) else old(list)
      ensures !Leaves(v, r, cb) ==>
        && c.Valid()
        && (c.state == REMOVE <==>
              old(c.state) == REMOVE || (packet.Some? && c.socket in cb.closes))
        && (c.state != REMOVE ==> c.View() == ViewAfter(v, r))
      ensures forall x :: x in old(list) && x != c ==>
        && x.Valid()
        && x.state == (if packet.Some? && x.socket in cb.closes then REMOVE else old(x.state))
        && SameView(x)
    {
      hide Linked, ListOk, Others, Client.Valid, Client.View, Receive, Needed;
      packet := None;
      if r.Returned? {
        AllOwned();
        var bytesNeeded := c.BytesNeeded();
        if |r.chunk| > 0 {
          packet := Read(c, r.chunk, cb, v);
        } else {
          Drop(c);
        }
      }
    }

    // ---------- a round ----------

    /** The poll set: standard input, the listening socket, then one entry per client. */
    method PollSet(stdin: int, listener: int) returns (fds: array<int>)
      requires ListOk()
      ensures fresh(fds) && fds.Length == |list| + 2 && fds[0] == stdin && fds[1] == listener
      ensures forall k :: 0 <= k < |list| ==> fds[k + 2] == list[k].socket
    {
      fds := new int[nClients + 2](_ => 0);
      fds[0], fds[1] := stdin, listener;
      var i, c := 2, clients;
      while i < nClients + 2 && c != null
        invariant 2 <= i <= nClients + 2 && c == Nth(list, i - 2)
        invariant fds[0] == stdin && fds[1] == listener
        invariant forall k :: 0 <= k < i - 2 ==> fds[k + 2] == list[k].socket
      {
        fds[i] := c.socket;
        i, c := i + 1, c.next;
      }
    }

    /** The clients visited so far are off the list if they left; the others are untouched. */
    ghost predicate InSweep(all: seq<Client>, leaving: seq<bool>, t: nat)
      reads this
    {
      && t <= |all| == |leaving|
      && (forall i, j :: 0 <= i < j < |all| ==> all[i].socket != all[j].socket)
      && list == Stayers(all, leaving, t) + all[t..]
    }

    /** After `t` visits: who is marked, and what every client that is not holds. */
    ghost predicate Tracked(all: seq<Client>, leaving: seq<bool>, views: seq<View>,
                            recvs: seq<Recv>, cbs: seq<Callback>, t: nat)
      reads (set x | x in all), (set x | x in all :: x.headerBuf), (set x | x in all :: x.pktBuf)
      reads set x, o | x in all && o in x.Repr() :: o
    {
      && t <= |all| == |leaving| == |views| == |recvs| == |cbs|
      && forall j {:trigger all[j]} :: 0 <= j < |all| && (j >= t || !leaving[j]) ==>
        && all[j].Valid()
        && (all[j].state == REMOVE <==> ClosedBefore(views, recvs, cbs, t, all[j].socket))
        && (all[j].state != REMOVE ==>
              all[j].View() == if j < t then ViewAfter(views[j], recvs[j]) else views[j])
    }

    lemma StartSweep(all: seq<Client>, leaving: seq<bool>, views: seq<View>, recvs: seq<Recv>,
                     cbs: seq<Callback>)
      requires ListOk() && ClientsOk() && list == all
      requires |recvs| == |cbs| == |views| == |list| == |leaving|
      requires forall k :: 0 <= k < |list| ==> list[k].state != REMOVE && list[k].View() == views[k]
      ensures InSweep(all, leaving, 0) && Tracked(all, leaving, views, recvs, cbs, 0)
      ensures DeliveredBy(Sockets(all), views, recvs, 0) == []
    {
      hide Client.Valid, Client.View, Needed;
      assert Stayers(all, leaving, 0) + all[0..] == all;
    }

    /** The loop condition `i < n_clients + 2` is the one that VisitedFrom counts by. */
    lemma StillIn(all: seq<Client>, leaving: seq<bool>, t: nat)
      requires ListOk() && InSweep(all, leaving, t)
      ensures nClients == |leaving| - Gone(leaving, t)
      ensures VisitedFrom(leaving, t) == if t < nClients then VisitedFrom(leaving, t + 1) else t
      ensures Nth(all, t) == null ==> t >= nClients
      ensures list == Stayers(all, leaving, t) + all[t..]
    {
      hide Linked;
      StayersFrom(all, leaving, t);
    }

    /** The link to the next client, read before the current one may be freed. */
    lemma NextInAll(c: Client, all: seq<Client>, leaving: seq<bool>, t: nat)
      requires ListOk() && InSweep(all, leaving, t) && t < |all| && c == all[t]
      ensures c.next == Nth(all, t + 1)
    {
      hide Stayers;
      var k := |Stayers(all, leaving, t)|;
      assert list[k] == c && Nth(list, k + 1) == Nth(all, t + 1);
    }

    lemma StillListed(all: seq<Client>, leaving: seq<bool>, t: nat)
      requires InSweep(all, leaving, t)
      ensures forall j {:trigger all[j]} :: 0 <= j < |all| && (j >= t || !leaving[j]) ==>
        all[j] in list
    {
      hide Stayers;
      forall j {:trigger all[j]} | 0 <= j < |all| && (j >= t || !leaving[j]) ensures all[j] in list {
        if j < t {
          StayersHas(all, leaving, t, j);
        } else {
          assert all[t..][j - t] == all[j];
        }
      }
    }

    method SweepVisit(c: Client, recvs: seq<Recv>, cbs: seq<Callback>, ghost all: seq<Client>,
                      ghost leaving: seq<bool>, ghost views: seq<View>, t: nat)
      returns (packet: Option<Decoded>)
      requires ListOk() && ClientsOk() && InSweep(all, leaving, t)
      requires Tracked(all, leaving, views, recvs, cbs, t) && LegalReads(views, recvs)
      requires t < |all| && c == all[t] && leaving == LeavingOf(views, recvs, cbs)
      requires ClosedHaveNoData(Sockets(all), views, recvs, cbs) && t < VisitedFrom(leaving, 0)
      modifies this`clients, this`nClients, this`list, this`owner, owner.Keys
      ensures ListOk() && ClientsOk()
      ensures old(owner.Keys) <= owner.Keys && fresh(owner.Keys - old(owner.Keys))
      ensures packet == PacketOf(views[t], recvs[t])
      ensures InSweep(all, leaving, t + 1) && Tracked(all, leaving, views, recvs, cbs, t + 1)
    {
      hide ListOk, ClientsOk, Client.Valid, Client.View, PacketOf, ViewAfter, Leaves, Needed, Stayers,
        Others, ClosedHaveNoData, VisitedFrom, LegalReads;
      ReadyOpen(Sockets(all), views, recvs, cbs, t);
      StayersStep(all, leaving, t);
      StillListed(all, leaving, t);
      packet := Visit(c, recvs[t], cbs[t], views[t]);
    }

    /**
     * The receive loop of server_run. `recvs[k]` is what recv gives on the descriptor of entry
     * `k + 2` of the poll set, `cbs[k]` what the callback does with a packet from there.
     */
    method Sweep(fds: array<int>, recvs: seq<Recv>, cbs: seq<Callback>, ghost views: seq<View>)
      returns (ghost visited: nat, delivered: seq<(int, Decoded)>)
      requires ListOk() && ClientsOk() && |recvs| == |cbs| == |views| == |list|
      requires fds.Length == |list| + 2 && fds !in owner
      requires forall k :: 0 <= k < |list| ==> fds[k + 2] == list[k].socket
      requires forall k :: 0 <= k < |list| ==> list[k].state != REMOVE && list[k].View() == views[k]
      requires LegalReads(views, recvs) && ClosedHaveNoData(Sockets(list), views, recvs, cbs)
      modifies this`clients, this`nClients, this`list, this`owner, owner.Keys
      ensures ListOk() && ClientsOk()
      ensures old(owner.Keys) <= owner.Keys && fresh(owner.Keys - old(owner.Keys))
      ensures visited == VisitedFrom(LeavingOf(views, recvs, cbs), 0)
      ensures list == Stayers(old(list), LeavingOf(views, recvs, cbs), visited) + old(list)[visited..]
      ensures delivered == DeliveredBy(Sockets(old(list)), views, recvs, visited)
      ensures Tracked(old(list), LeavingOf(views, recvs, cbs), views, recvs, cbs, visited)
    {
      hide Linked, ClientsOk, PacketOf, Needed, Stayers, DeliveredBy, LeavingOf, InSweep, Tracked,
        Gone, VisitedFrom, ClosedHaveNoData, LegalReads;
      ghost var all, leaving, t := list, LeavingOf(views, recvs, cbs), 0;
      StartSweep(all, leaving, views, recvs, cbs);
      delivered := [];
      var i, c := 2, clients;
      while i < nClients + 2 && c != null
        invariant i == t + 2 && t <= |all| && c == Nth(all, t)
        invariant ListOk() && ClientsOk()
        invariant old(owner.Keys) <= owner.Keys && fresh(owner.Keys - old(owner.Keys))
        invariant InSweep(all, leaving, t) && Tracked(all, leaving, views, recvs, cbs, t)
        invariant VisitedFrom(leaving, t) == VisitedFrom(leaving, 0)
        invariant delivered == DeliveredBy(Sockets(all), views, recvs, t)
        decreases |all| - t
      {
        StillIn(all, leaving, t);
        NextInAll(c, all, leaving, t);
        var next := c.next;
        assert fds[i] == c.socket;
        DeliveredNext(Sockets(all), views, recvs, t);
        var k := i - 2;
        assert k == t;
        var packet := SweepVisit(c, recvs, cbs, all, leaving, views, k);
        if packet.Some? {
          delivered := delivered + [(fds[i], packet.value)];
        }
        i, c, t := i + 1, next, t + 1;
      }
      visited := t;
      StillIn(all, leaving, t);
    }

    /** The first `t` clients have been removed if they were marked. */
    ghost predicate Reaping(all: seq<Client>, t: nat)
      reads *
    {
      ListOk() && ClientsOk() && InSweep(all, Marked(all), t)
    }

    lemma AllReaped(all: seq<Client>)
      requires Reaping(all, |all|)
      ensures ListOk() && ClientsOk() && list == Stayers(all, Marked(all), |all|)
      ensures forall x :: x in list ==> x.state != REMOVE
    {
      hide Linked, Stayers, Marked, ClientsOk;
      StillIn(all, Marked(all), |all|);
      NoneMarked(all, |all|);
    }

    /** One step of Reap, for the list that it produces. */
    lemma StayersStepIn(all: seq<Client>, marked: seq<bool>, t: nat)
      requires ListOk() && InSweep(all, marked, t) && t < |all| && marked == Marked(all)
      ensures all[t] in list && marked[t] == (all[t].state == REMOVE)
      ensures Stayers(all, marked, t + 1) + all[t + 1..]
        == if marked[t] then Others(list, all[t]) else list
    {
      hide Linked, Others, Stayers;
      StayersStep(all, marked, t);
      assert list[|Stayers(all, marked, t)|] == all[t];
    }

    method ReapOne(c: Client, ghost all: seq<Client>, ghost t: nat) returns (next: Client?)
      requires Reaping(all, t) && t < |all| && c == all[t]
      modifies this`clients, this`nClients, this`list, (set x | x in list)`next
      ensures Reaping(all, t + 1) && next == Nth(all, t + 1)
      ensures forall x :: x in list ==> x in old(list)
    {
      hide Linked, ListOk, ClientsOk, Stayers, Marked, Others;
      ghost var before, marked := list, Marked(all);
      StayersStepIn(all, marked, t);
      NextInAll(c, all, marked, t);
      next := c.next;
      if c.state == REMOVE {
        Drop(c);
      }
      OthersSubset(before, c);
      assert Marked(all) == marked;
    }

    lemma StartReap(all: seq<Client>)
      requires ListOk() && ClientsOk() && list == all
      ensures Reaping(all, 0) && clients == Nth(all, 0)
    {
      hide ClientsOk;
      assert Stayers(all, Marked(all), 0) + all[0..] == all;
    }

    /** The loop after the sweep: removes every client that is marked, and only these. */
    method Reap()
      requires ListOk() && ClientsOk()
      modifies this`clients, this`nClients, this`list, (set x | x in list)`next
      ensures ListOk() && ClientsOk() && forall x :: x in list ==> x.state != REMOVE
      ensures list == Stayers(old(list), Marked(old(list)), |old(list)|)
    {
      hide Linked, ListOk, ClientsOk, Stayers, Marked, Reaping;
      ghost var all, t := list, 0;
      StartReap(all);
      var c := clients;
      while c != null
        invariant t <= |all| && c == Nth(all, t) && Reaping(all, t)
        invariant forall x :: x in list ==> x in all
        decreases |all| - t
      {
        c := ReapOne(c, all, t);
        t := t + 1;
      }
      AllReaped(all);
    }

    // ---------- whole rounds ----------

    /** After the visits, a client that does not depart is unmarked and shows what its read left. */
    lemma ShowsSwept(all: seq<Client>, table: seq<Entry>, p: Poll, visited: nat, j: nat)
      requires |all| == |table| && LegalSweep(table, p) && visited == VisitedIn(table, p)
      requires Tracked(all, LeavingOf(ViewsOf(table), p.recvs, p.cbs), ViewsOf(table), p.recvs, p.cbs,
                       visited)
      requires forall k :: 0 <= k < |all| ==> all[k].socket == table[k].socket && table[k].conn.open
      requires j < |all| && !Departing(table, p)[j]
      ensures Shows(all[j], Swept(table, p)[j])
    {
      hide Client.Valid, Client.View, Leaves, ClosedBefore, Needed, Visited, VisitedFrom, LegalReads,
        ViewAfter, ClosedHaveNoData;
      if j < visited {
        ReadInTable(table, p, j);
        VisitedOpen(table[j].conn, p.recvs[j], p.cbs[j]);
      }
    }

    /** Before the loop that removes the marked clients: who is left after it. */
    lemma LeftAfterSweep(all: seq<Client>, table: seq<Entry>, p: Poll, visited: nat,
                         closed: set<Client>)
      requires |all| == |table| && LegalSweep(table, p) && visited == VisitedIn(table, p)
      requires var leaving := LeavingOf(ViewsOf(table), p.recvs, p.cbs);
        InSweep(all, leaving, visited)
        && Tracked(all, leaving, ViewsOf(table), p.recvs, p.cbs, visited)
      requires forall k :: 0 <= k < |all| ==> all[k].socket == table[k].socket && table[k].conn.open
      requires closed == set x | x in list && x.state == REMOVE
      ensures Stayers(list, Marked(list), |list|) == Stayers(all, Departing(table, p), |all|)
      ensures forall j {:trigger all[j]} :: 0 <= j < |all| && !Departing(table, p)[j] ==>
        Shows(all[j], Swept(table, p)[j])
    {
      hide Client.Valid, Client.View, Stayers, Leaves, ClosedBefore, Needed, Visited, VisitedFrom,
        LegalReads, ViewAfter, ClosedHaveNoData, Shows, Swept;
      var (views, gone) := (ViewsOf(table), Departing(table, p));
      var leaving := LeavingOf(views, p.recvs, p.cbs);
      var early := Early(leaving, visited);
      StillListed(all, leaving, visited);
      StayersEarly(all, leaving, visited, |all|);
      assert Stayers(all, early, |all|) == list by { assert all[visited..|all|] == all[visited..]; }
      assert Marked(list) == Within(list, closed);
      StayersTwice(all, early, closed, gone, |all|);
      forall j {:trigger all[j]} | 0 <= j < |all| && !gone[j] ensures Shows(all[j], Swept(table, p)[j]) {
        ShowsSwept(all, table, p, visited, j);
      }
    }

    lemma HoldsRemaining(all: seq<Client>, table: seq<Entry>, p: Poll)
      requires |all| == |table| && LegalSweep(table, p)
      requires list == Stayers(all, Departing(table, p), |all|)
      requires forall j {:trigger all[j]} :: 0 <= j < |all| && !Departing(table, p)[j] ==>
        Shows(all[j], Swept(table, p)[j])
      ensures Holds(Remaining(table, p))
    {
      hide Shows, Stayers, Departing, Swept, ClosedHaveNoData, LegalReads;
      var (swept, gone, rest) := (Swept(table, p), Departing(table, p), Remaining(table, p));
      StayersFrom(all, gone, |all|);
      StayersFrom(swept, gone, |all|);
      forall k {:trigger list[k]} {:trigger rest[k]} | 0 <= k < |list| ensures Shows(list[k], rest[k]) {
        var j := StayersPair(all, swept, gone, |all|, k);
        assert Shows(all[j], swept[j]);
      }
    }

    method ReapRemaining(ghost all: seq<Client>, ghost table: seq<Entry>, ghost p: Poll,
                         ghost visited: nat)
      requires ListOk() && ClientsOk()
      requires |all| == |table| && LegalSweep(table, p) && visited == VisitedIn(table, p)
      requires var leaving := LeavingOf(ViewsOf(table), p.recvs, p.cbs);
        InSweep(all, leaving, visited)
        && Tracked(all, leaving, ViewsOf(table), p.recvs, p.cbs, visited)
      requires forall k :: 0 <= k < |all| ==> all[k].socket == table[k].socket && table[k].conn.open
      modifies this`clients, this`nClients, this`list, (set x | x in list)`next
      ensures ListOk() && ClientsOk() && Holds(Remaining(table, p))
    {
      hide ListOk, ClientsOk, Linked, Tracked, InSweep, ClosedHaveNoData, LegalReads, Stayers, Departing, Swept, Remaining,
        Holds, Client.Valid, Client.View;
      LeftAfterSweep(all, table, p, visited, set x | x in list && x.state == REMOVE);
      label before:
      Reap();
      forall j {:trigger all[j]} | 0 <= j < |all| && !Departing(table, p)[j]
        ensures Shows(all[j], Swept(table, p)[j])
      {
        assert old@before(Shows(all[j], Swept(table, p)[j]));
        var c := all[j];
        assert c.Repr() == old@before(c.Repr());
        assert c.Valid() && c.View() == old@before(c.View());
      }
      HoldsRemaining(all, table, p);
    }

    /** The sweep and the loop after it leave the clients that remain on values. */
    method SweepAndReap(fds: array<int>, p: Poll, ghost table: seq<Entry>)
      returns (delivered: seq<(int, Decoded)>)
      requires ListOk() && ClientsOk() && Holds(table) && LegalSweep(table, p)
      requires fds.Length == |list| + 2 && fds !in owner
      requires forall k :: 0 <= k < |list| ==> fds[k + 2] == list[k].socket
      modifies this`clients, this`nClients, this`list, this`owner, owner.Keys
      ensures ListOk() && ClientsOk()
      ensures old(owner.Keys) <= owner.Keys && fresh(owner.Keys - old(owner.Keys))
      ensures Holds(Remaining(table, p))
      ensures delivered == DeliveredBy(SocketsOf(table), ViewsOf(table), p.recvs, VisitedIn(table, p))
    {
      hide Client.Valid, Client.View, ClientsOk, Remaining, Departing, Swept, LegalReads,
        ClosedHaveNoData, VisitedFrom, Stayers, DeliveredBy, Tracked;
      ghost var all := list;
      ghost var visited: nat;
      assert Sockets(list) == SocketsOf(table);
      visited, delivered := Sweep(fds, p.recvs, p.cbs, ViewsOf(table));
      AllOwned();
      ReapRemaining(all, table, p, visited);
    }

    /** accept: the new client stands in front of those that remain. */
    method Accept(accepted: Option<int>, ghost rest: seq<Entry>)
      requires ListOk() && ClientsOk() && Holds(rest)
      requires accepted.Some? ==> forall k :: 0 <= k < |rest| ==> rest[k].socket != accepted.value
      modifies this`clients, this`nClients, this`list, this`owner
      ensures ListOk() && ClientsOk()
      ensures old(owner.Keys) <= owner.Keys && fresh(owner.Keys - old(owner.Keys))
      ensures Holds((if accepted.Some? then [Entry(accepted.value, ACCEPTED)] else []) + rest)
    {
      hide Client.Valid, Client.View, Linked;
      if accepted.Some? {
        AddClient(accepted.value);
        assert forall k :: 0 < k < |list| ==> list[k] == list[1..][k - 1];
      } else {
        assert [] + rest == rest;
      }
    }

    /** One iteration of the loop in server_run. It restores what it requires. */
    method Round(stdin: int, listener: int, p: Poll, ghost table: seq<Entry>)
      returns (delivered: seq<(int, Decoded)>)
      requires ListOk() && ClientsOk() && Holds(table) && LegalPoll(table, p) && !p.Stop?
      modifies this`clients, this`nClients, this`list, this`owner, owner.Keys
      ensures ListOk() && ClientsOk() && Holds(AfterPoll(table, p))
      ensures old(owner.Keys) <= owner.Keys && fresh(owner.Keys - old(owner.Keys))
      ensures delivered == DeliveredIn(table, p)
    {
      hide ListOk, ClientsOk, ClosedHaveNoData, LegalReads, Remaining, DeliveredBy, VisitedIn, Client.Valid, Client.View;
      label before:
      var fds := PollSet(stdin, listener);
      delivered := [];
      forall k {:trigger list[k]} {:trigger table[k]} | 0 <= k < |list| ensures Shows(list[k], table[k]) {
        assert old@before(Shows(list[k], table[k]));
        var c := list[k];
        assert c.Repr() == old@before(c.Repr());
        assert c.Valid() && c.View() == old@before(c.View());
      }
      if p.Ready? {
        delivered := SweepAndReap(fds, p, table);
        Accept(p.accepted, Remaining(table, p));
      }
    }

    /** server_stop: removes the clients one by one. */
    method Stop()
      requires ListOk()
      modifies this`clients, this`nClients, this`list, (set x | x in list)`next
      ensures ListOk() && list == [] && nClients == 0
    {
      ghost var all, t := list, 0;
      var c := clients;
      while c != null
        invariant t <= |all| && c == Nth(all, t) && ListOk() && list == all[t..]
        decreases |all| - t
      {
        var next := c.next;
        assert list[0] == c && list[1..] == all[t + 1..];
        OthersIsRemoval(list, 0);
        RemoveClient(c);
        c, t := next, t + 1;
      }
    }
  }

  /**
   * server_run, for whatever poll, recv, accept and the packet callback do: the packets that
   * reach the callback are those of the rounds on values, and every precondition of a round
   * holds when it begins; at the end no client is left.
   */
  method ServerRun(stdin: int, listener: int, polls: seq<Poll>)
    returns (delivered: seq<(int, Decoded)>, nClients: int)
    requires LegalPolls([], polls)
    ensures delivered == DeliveredAll([], polls) && nClients == 0
  {
    hide Server.ListOk, Server.ClientsOk, Server.Holds, LegalReads, ClosedHaveNoData, AcceptOk,
      AfterPoll, DeliveredIn;
    var srv := new Server();
    ghost var table: seq<Entry> := [];
    delivered := [];
    var i := 0;
    assert polls[0..] == polls;
    while i < |polls| && !polls[i].Stop?
      invariant 0 <= i <= |polls| && fresh(srv) && fresh(srv.owner.Keys)
      invariant srv.ListOk() && srv.ClientsOk() && srv.Holds(table)
      invariant LegalPolls(table, polls[i..])
      invariant delivered + DeliveredAll(table, polls[i..]) == DeliveredAll([], polls)
    {
      ghost var rest := polls[i..];
      assert rest[0] == polls[i] && rest[1..] == polls[i + 1..];
      var more := srv.Round(stdin, listener, polls[i], table);
      assert delivered + (more + DeliveredAll(AfterPoll(table, polls[i]), polls[i + 1..]))
        == delivered + more + DeliveredAll(AfterPoll(table, polls[i]), polls[i + 1..]);
      delivered := delivered + more;
      table := AfterPoll(table, polls[i]);
      i := i + 1;
    }
    assert delivered + [] == delivered;
    srv.AllOwned();
    srv.Stop();
    nClients := srv.nClients;
  }
}
