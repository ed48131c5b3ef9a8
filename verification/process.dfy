/** The peer's handlers behind the server's poll loop: one process of praxis2. */
module Processes {
  import opened Words
  import opened Packets
  import opened Intervals
  import opened Framing
  import opened PeerSteps
  import opened Rounds
  import opened Streams

  // ---------- the peer's handlers as callbacks ----------

  function Closes(es: seq<Effect>): seq<int> {
    if es == [] then []
    else (if es[0].CloseSocket? then [es[0].socket] else []) + Closes(es[1..])
  }

  /** What the server sees of a packet that the peer handles. */
  function CallbackOf(o: Outcome): Callback {
    Callback(o.verdict, Closes(o.effects))
  }

  function SocketsIn(rs: seq<Request>): seq<int> {
    if rs == [] then [] else [rs[0].socket] + SocketsIn(rs[1..])
  }

  lemma {:induction false} ReleasesClose(rs: seq<Request>, target: Addr)
    ensures Closes(Releases(rs, target)) == SocketsIn(rs)
  {
    if rs != [] {
      var es := Releases(rs, target);
      assert es[1..][1..] == Releases(rs[1..], target);
      ReleasesClose(rs[1..], target);
    }
  }

  /**
   * The peer closes no socket but those of the requests that a reply releases, in order, and
   * keeps a client connected exactly when it parks its request.
   */
  lemma HandlerCallback(c: Conf, node: Node, socket: int, p: Packet)
    ensures var o := HandlePacket(c, node, socket, p);
      && CallbackOf(o).closes
         == (if IsControl(p) && !Has(p.flags, LKUP) && Has(p.flags, RPLY)
             then SocketsIn(Pending(node, p.hashId)) else [])
      && (CallbackOf(o).verdict == KeepClient
          <==> !IsControl(p) && Pending(o.node, PseudoHash(p.key))
                 == Pending(node, PseudoHash(p.key)) + [Request(socket, p)])
  {
    hide PseudoHash, PeerIsResponsible, OwnReply, OwnTable, Serialize, Has, Releases;
    var o := HandlePacket(c, node, socket, p);
    if IsControl(p) {
      ReleasesClose(Pending(node, p.hashId), Addr(p.nodeIp, p.nodePort));
    } else {
      KeptExactlyWhileParked(c, node, socket, p);
      assert |o.effects| == 1 && !o.effects[0].CloseSocket? && Closes(o.effects[1..]) == [];
    }
  }

  // ---------- who is parked ----------

  predicate ParkedAt(node: Node, h: uint16, socket: int) {
    socket in SocketsIn(Pending(node, h))
  }

  ghost predicate IsParked(node: Node, socket: int) {
    exists h :: ParkedAt(node, h, socket)
  }

  /** No client has requests parked for two hashes. */
  ghost predicate OneHash(node: Node) {
    forall h, h', socket :: ParkedAt(node, h, socket) && ParkedAt(node, h', socket) ==> h == h'
  }

  lemma {:induction false} SocketsInConcat(a: seq<Request>, b: seq<Request>)
    ensures SocketsIn(a + b) == SocketsIn(a) + SocketsIn(b)
    decreases |a|
  {
    if a == [] {
      assert a + b == b;
    } else {
      assert (a + b)[1..] == a[1..] + b;
      SocketsInConcat(a[1..], b);
    }
  }

  predicate Releasing(p: Packet) {
    IsControl(p) && !Has(p.flags, LKUP) && Has(p.flags, RPLY)
  }

  lemma OnlySocket(r: Request)
    ensures SocketsIn([r]) == [r.socket]
  {
  }

  lemma NoSockets()
    ensures SocketsIn([]) == []
  {
  }

  /** What a handled packet does to the requests parked for each hash. */
  lemma HandlerPending(c: Conf, node: Node, socket: int, p: Packet)
    ensures var o := HandlePacket(c, node, socket, p);
      forall h {:trigger Pending(o.node, h)} ::
        Pending(o.node, h)
        == if !IsControl(p) && o.verdict == KeepClient && h == PseudoHash(p.key)
           then Pending(node, h) + [Request(socket, p)]
           else if Releasing(p) && h == p.hashId then []
           else Pending(node, h)
  {
    hide PseudoHash, PeerIsResponsible, OwnReply, OwnTable, Serialize, Has, Releases;
  }

  /** Which sockets a handled packet parks, unparks and closes. */
  lemma HandlerParkedAt(c: Conf, node: Node, socket: int, p: Packet)
    ensures var o := HandlePacket(c, node, socket, p);
      && (forall h, s {:trigger ParkedAt(o.node, h, s)} :: ParkedAt(o.node, h, s) <==>
            !(Releasing(p) && h == p.hashId)
            && (ParkedAt(node, h, s)
                || (o.verdict == KeepClient && h == PseudoHash(p.key) && s == socket)))
      && (forall s :: s in CallbackOf(o).closes <==> Releasing(p) && ParkedAt(node, p.hashId, s))
  {
    hide PseudoHash, Has, HandlePacket, SocketsIn, Closes, IsControl;
    HandlerCallback(c, node, socket, p);
    HandlerPending(c, node, socket, p);
    NoSockets();
    OnlySocket(Request(socket, p));
    var o := HandlePacket(c, node, socket, p);
    forall h, s {:trigger ParkedAt(o.node, h, s)}
      ensures ParkedAt(o.node, h, s) <==>
        !(Releasing(p) && h == p.hashId)
        && (ParkedAt(node, h, s)
            || (o.verdict == KeepClient && h == PseudoHash(p.key) && s == socket))
    {
      SocketsInConcat(Pending(node, h), [Request(socket, p)]);
    }
  }

  lemma ReleasingCloses(c: Conf, node: Node, socket: int, p: Packet)
    ensures Releasing(p) ==> HandlePacket(c, node, socket, p).verdict == RemoveClient
  {
    hide PseudoHash, PeerIsResponsible, OwnReply, OwnTable, Serialize, Has, Releases;
  }

  /** Handling a packet parks no client but its own, and unparks those whose sockets it closes. */
  lemma HandlerParks(c: Conf, node: Node, socket: int, p: Packet)
    requires OneHash(node)
    ensures var o := HandlePacket(c, node, socket, p);
      && (forall s :: IsParked(o.node, s) ==>
            IsParked(node, s) || (s == socket && o.verdict == KeepClient))
      && (forall s :: s in CallbackOf(o).closes ==> IsParked(node, s) && !IsParked(o.node, s))
      && (!IsParked(node, socket) ==> OneHash(o.node))
  {
    hide PseudoHash, HandlePacket, ParkedAt, Closes, Releasing;
    HandlerParkedAt(c, node, socket, p);
    ReleasingCloses(c, node, socket, p);
  }

  // ---------- a round of the process ----------

  /** The node after the packets in a log, in order. */
  function HandleAll(c: Conf, node: Node, log: seq<(int, Decoded)>): Node {
    if log == [] then node
    else
      var (before, (socket, d)) := (HandleAll(c, node, log[..|log| - 1]), log[|log| - 1]);
      if d.Complete? then HandlePacket(c, before, socket, d.packet).node else before
  }

  /** The node when the round visits client `t`. */
  function NodeAt(c: Conf, node: Node, table: seq<Entry>, recvs: seq<Recv>, t: nat): Node
    requires t <= |table| == |recvs|
  {
    HandleAll(c, node, DeliveredBy(SocketsOf(table), ViewsOf(table), recvs, t))
  }

  /** The visit of client `t` completes no packet, or one that the peer handles as the callback. */
  predicate HandledBy(c: Conf, node: Node, table: seq<Entry>, p: Poll, t: nat)
    requires ReadsFit(table, p) && t < |table|
  {
    match PacketOf(table[t].conn.view, p.recvs[t])
    case Some(d) =>
      && d.Complete?
      && p.cbs[t] == CallbackOf(
           HandlePacket(c, NodeAt(c, node, table, p.recvs, t), table[t].socket, d.packet))
    case None => true
  }

  /** A client whose request is parked waits for its answer: it sends nothing and does not close. */
  ghost predicate ParkedQuiet(node: Node, table: seq<Entry>, p: Poll)
    requires ReadsFit(table, p)
  {
    forall j :: 0 <= j < |table| && p.recvs[j].Returned? ==> !IsParked(node, table[j].socket)
  }

  /** A weaker assumption: it sends nothing, but it may close. */
  ghost predicate ParkedSilent(node: Node, table: seq<Entry>, p: Poll)
    requires ReadsFit(table, p)
  {
    forall j :: 0 <= j < |table| && p.recvs[j].Returned? && IsParked(node, table[j].socket) ==>
      p.recvs[j].chunk == []
  }

  /** A round whose callbacks are those of the peer. */
  predicate PeerCallbacks(c: Conf, node: Node, table: seq<Entry>, p: Poll) {
    && ReadsFit(table, p) && AcceptOk(table, p)
    && forall t :: 0 <= t < VisitedIn(table, p) ==> HandledBy(c, node, table, p, t)
  }

  ghost predicate Driven(c: Conf, node: Node, table: seq<Entry>, p: Poll) {
    p.Ready? ==> PeerCallbacks(c, node, table, p) && ParkedQuiet(node, table, p)
  }

  function NodeAfter(c: Conf, node: Node, table: seq<Entry>, p: Poll): Node
    requires p.Ready? ==> ReadsFit(table, p)
  {
    HandleAll(c, node, DeliveredIn(table, p))
  }

  /** Every parked request belongs to a client that is still connected. */
  ghost predicate ParkedConnected(node: Node, table: seq<Entry>) {
    forall h, s :: ParkedAt(node, h, s) ==> s in SocketsOf(table)
  }

  ghost predicate ProcessOk(node: Node, table: seq<Entry>) {
    Distinct(SocketsOf(table)) && OneHash(node) && ParkedConnected(node, table)
  }

  predicate ParksItself(table: seq<Entry>, p: Poll, k: nat)
    requires ReadsFit(table, p) && k < |table|
  {
    && PacketOf(table[k].conn.view, p.recvs[k]).Some?
    && p.cbs[k].verdict == KeepClient
  }

  /** Socket `s` was parked when the round began, or its client sent a packet that was parked. */
  ghost predicate Cause(node: Node, table: seq<Entry>, p: Poll, t: nat, s: int)
    requires ReadsFit(table, p) && t <= |table|
  {
    IsParked(node, s)
    || exists k :: 0 <= k < t && table[k].socket == s && ParksItself(table, p, k)
  }

  /** What holds when the round visits client `t`. */
  ghost predicate Midway(c: Conf, node: Node, table: seq<Entry>, p: Poll, t: nat)
    requires ReadsFit(table, p) && t <= |table|
  {
    var now := NodeAt(c, node, table, p.recvs, t);
    && OneHash(now)
    && (forall s :: IsParked(now, s) ==> Cause(node, table, p, t, s))
    && (forall s :: ClosedBefore(ViewsOf(table), p.recvs, p.cbs, t, s) ==>
          !IsParked(now, s) && (IsParked(node, s) || exists k :: 0 <= k < t && table[k].socket == s))
  }

  lemma MidwayStart(c: Conf, node: Node, table: seq<Entry>, p: Poll)
    requires ReadsFit(table, p) && OneHash(node)
    ensures Midway(c, node, table, p, 0)
  {
    assert NodeAt(c, node, table, p.recvs, 0) == node;
  }

  lemma VerdictOf(o: Outcome)
    ensures CallbackOf(o).verdict == o.verdict
  {
  }

  lemma CompletedRead(v: View, r: Recv)
    ensures PacketOf(v, r).Some? ==> r.Returned? && r.chunk != []
  {
  }

  lemma NodeNext(c: Conf, node: Node, table: seq<Entry>, recvs: seq<Recv>, t: nat)
    requires t < |table| == |recvs|
    ensures var now := NodeAt(c, node, table, recvs, t);
      NodeAt(c, node, table, recvs, t + 1)
      == match PacketOf(table[t].conn.view, recvs[t])
         case Some(d) =>
           if d.Complete? then HandlePacket(c, now, table[t].socket, d.packet).node else now
         case None => now
  {
    hide HandlePacket, PacketOf;
    var (sockets, views) := (SocketsOf(table), ViewsOf(table));
    var log := DeliveredBy(sockets, views, recvs, t);
    match PacketOf(table[t].conn.view, recvs[t])
    case Some(d) =>
      assert (log + [(sockets[t], d)])[..|log|] == log;
    case None =>
      assert log + [] == log;
  }

  lemma MidwayStep(c: Conf, node: Node, table: seq<Entry>, p: Poll, t: nat)
    requires ReadsFit(table, p) && t < |table| && Distinct(SocketsOf(table))
    requires HandledBy(c, node, table, p, t) && ParkedSilent(node, table, p)
    requires Midway(c, node, table, p, t)
    ensures Midway(c, node, table, p, t + 1)
  {
    hide HandlePacket, HandleAll, IsParked, OneHash, PacketOf, CallbackOf, DeliveredBy;
    var (sockets, views, now) := (SocketsOf(table), ViewsOf(table), NodeAt(c, node, table, p.recvs, t));
    NodeNext(c, node, table, p.recvs, t);
    forall k | 0 <= k < t ensures table[k].socket != table[t].socket {
      assert sockets[k] != sockets[t];
    }
    match PacketOf(table[t].conn.view, p.recvs[t])
    case Some(d) =>
      CompletedRead(table[t].conn.view, p.recvs[t]);
      assert !IsParked(now, table[t].socket);
      HandlerParks(c, now, table[t].socket, d.packet);
      var o := HandlePacket(c, now, table[t].socket, d.packet);
      assert o.verdict == CallbackOf(o).verdict by { VerdictOf(o); }
      assert o.verdict == KeepClient ==> ParksItself(table, p, t);
    case None =>
  }

  lemma {:induction false} AllMidway(c: Conf, node: Node, table: seq<Entry>, p: Poll, t: nat)
    requires PeerCallbacks(c, node, table, p) && ParkedSilent(node, table, p)
    requires t <= VisitedIn(table, p)
    requires Distinct(SocketsOf(table)) && OneHash(node)
    ensures Midway(c, node, table, p, t)
  {
    hide Midway, HandledBy, ParkedSilent, OneHash, VisitedIn;
    if t == 0 {
      MidwayStart(c, node, table, p);
    } else {
      AllMidway(c, node, table, p, t - 1);
      MidwayStep(c, node, table, p, t - 1);
    }
  }

  /** The callbacks of the peer never close a client that has data ready. */
  lemma DrivenIsLegal(c: Conf, node: Node, table: seq<Entry>, p: Poll)
    requires Driven(c, node, table, p) && ProcessOk(node, table)
    ensures LegalPoll(table, p)
  {
    hide OneHash, ParkedConnected, ClosedBefore, IsParked, LegalReads, AcceptOk, HandledBy;
    if p.Ready? {
      var sockets := SocketsOf(table);
      forall j | 0 <= j < VisitedIn(table, p) && p.recvs[j].Returned?
        ensures !ClosedBefore(ViewsOf(table), p.recvs, p.cbs, j, sockets[j])
      {
        AllMidway(c, node, table, p, j);
        forall k | 0 <= k < j ensures table[k].socket != table[j].socket {
          assert sockets[k] != sockets[j];
        }
      }
    }
  }

  ghost predicate ClosesParked(node: Node, table: seq<Entry>, p: Poll, j: nat)
    requires ReadsFit(table, p) && j < |table|
  {
    p.recvs[j] == Returned([]) && IsParked(node, table[j].socket)
  }

  /**
   * Every parked client that closes during the round has its request released by a reply that
   * arrives later in the round.
   */
  ghost predicate NoneOrphaned(c: Conf, node: Node, table: seq<Entry>, p: Poll)
    requires ReadsFit(table, p)
  {
    forall j :: 0 <= j < VisitedIn(table, p) && ClosesParked(node, table, p, j) ==>
      !IsParked(NodeAfter(c, node, table, p), table[j].socket)
  }

  /** Then a client that is parked after the round has not left during it. */
  lemma ParkedNotDeparting(c: Conf, node: Node, table: seq<Entry>, p: Poll, s: int) returns (j: nat)
    requires PeerCallbacks(c, node, table, p) && ParkedSilent(node, table, p)
    requires ProcessOk(node, table) && NoneOrphaned(c, node, table, p)
    requires IsParked(NodeAfter(c, node, table, p), s)
    ensures j < |table| && table[j].socket == s && !Departing(table, p)[j]
  {
    hide OneHash, ClosedBefore, ParkedAt, LegalReads, AcceptOk, HandledBy, VisitedIn, HandleAll,
      PacketOf, DeliveredBy;
    var (sockets, m) := (SocketsOf(table), VisitedIn(table, p));
    AllMidway(c, node, table, p, m);
    assert Cause(node, table, p, m, s);
    assert s in sockets;
    j :| 0 <= j < |sockets| && sockets[j] == s;
    assert forall k :: 0 <= k < |table| && k != j ==> sockets[k] != sockets[j];
    assert ViewsOf(table)[j] == table[j].conn.view;
    CompletedRead(table[j].conn.view, p.recvs[j]);
    if p.recvs[j].Returned? {
      assert forall k :: 0 <= k < m && table[k].socket == s ==> k == j;
    }
  }

  lemma SocketListed(table: seq<Entry>, e: Entry)
    requires e in table
    ensures e.socket in SocketsOf(table)
  {
    var k :| 0 <= k < |table| && table[k] == e;
    assert SocketsOf(table)[k] == e.socket;
  }

  lemma NothingHandled(c: Conf, node: Node)
    ensures HandleAll(c, node, []) == node
  {
  }

  /** A round that orphans nobody keeps every parked client connected, and parks none twice. */
  lemma NoneOrphanedKeeps(c: Conf, node: Node, table: seq<Entry>, p: Poll)
    requires PeerCallbacks(c, node, table, p) && ParkedSilent(node, table, p)
    requires ProcessOk(node, table) && LegalPoll(table, p) && NoneOrphaned(c, node, table, p)
    ensures ProcessOk(NodeAfter(c, node, table, p), AfterPoll(table, p))
  {
    hide OneHash, ClosedBefore, ParkedAt, LegalReads, AcceptOk, HandledBy, VisitedIn, Swept, Departing,
      ParkedSilent, HandleAll, DeliveredBy, Stayers, ClosedHaveNoData, NoneOrphaned;
    PollDistinct(table, p);
    var (after, n) := (NodeAfter(c, node, table, p), |table|);
    AllMidway(c, node, table, p, VisitedIn(table, p));
    SweptSockets(table, p);
    forall h, s | ParkedAt(after, h, s) ensures s in SocketsOf(AfterPoll(table, p)) {
      var j := ParkedNotDeparting(c, node, table, p, s);
      StayersHas(Swept(table, p), Departing(table, p), n, j);
      assert SocketsOf(Swept(table, p))[j] == s;
      SocketListed(AfterPoll(table, p), Swept(table, p)[j]);
    }
  }

  /** A client that leaves is not in the table any more. */
  lemma DepartingGone(table: seq<Entry>, p: Poll, j: nat)
    requires LegalPoll(table, p) && p.Ready? && Distinct(SocketsOf(table))
    requires j < |table| && Departing(table, p)[j] && p.accepted != Some(table[j].socket)
    ensures table[j].socket !in SocketsOf(AfterPoll(table, p))
  {
    hide Swept, Departing, Stayers, LegalReads, ClosedHaveNoData, AcceptOk;
    var (after, sockets) := (AfterPoll(table, p), SocketsOf(table));
    SweptSockets(table, p);
    StayersKept(Swept(table, p), Departing(table, p), |table|);
    forall k | 0 <= k < |after| ensures after[k].socket != table[j].socket {
      assert after[k] in after;
      if after[k] in Remaining(table, p) {
        var i :| 0 <= i < |table| && !Departing(table, p)[i] && Swept(table, p)[i] == after[k];
        assert SocketsOf(Swept(table, p))[i] == sockets[i];
        assert i != j && sockets[i] != sockets[j];
      }
    }
  }

  /**
   * The code does not purge the requests of a client that disconnects: a round keeps every
   * parked request with its client connected if and only if each parked client that closes
   * during the round is released by a reply later in it.
   */
  lemma OrphansExactly(c: Conf, node: Node, table: seq<Entry>, p: Poll)
    requires PeerCallbacks(c, node, table, p) && ParkedSilent(node, table, p)
    requires ProcessOk(node, table) && LegalPoll(table, p)
    requires p.accepted.Some? ==> p.accepted.value !in SocketsOf(table)
    ensures ParkedConnected(NodeAfter(c, node, table, p), AfterPoll(table, p))
      <==> NoneOrphaned(c, node, table, p)
  {
    hide OneHash, ClosedBefore, ParkedAt, LegalReads, AcceptOk, HandledBy, VisitedIn, Swept,
      HandleAll, DeliveredBy, Stayers, ClosedHaveNoData, AfterPoll, ParkedSilent;
    var after := NodeAfter(c, node, table, p);
    if NoneOrphaned(c, node, table, p) {
      NoneOrphanedKeeps(c, node, table, p);
    } else {
      var j :| 0 <= j < VisitedIn(table, p) && ClosesParked(node, table, p, j)
        && IsParked(after, table[j].socket);
      assert SocketsOf(table)[j] == table[j].socket;
      DepartingGone(table, p, j);
    }
  }

  lemma NothingHandledIn(c: Conf, node: Node, table: seq<Entry>, p: Poll)
    requires p.Nothing?
    ensures NodeAfter(c, node, table, p) == node && AfterPoll(table, p) == table
  {
  }

  lemma DrivenFits(c: Conf, node: Node, table: seq<Entry>, p: Poll)
    requires Driven(c, node, table, p)
    ensures p.Ready? ==> ReadsFit(table, p)
  {
  }

  /** If parked clients wait, every parked request keeps its client connected. */
  lemma RoundKeepsProcess(c: Conf, node: Node, table: seq<Entry>, p: Poll)
    requires Driven(c, node, table, p) && ProcessOk(node, table) && !p.Stop?
    ensures LegalPoll(table, p)
    ensures ProcessOk(NodeAfter(c, node, table, p), AfterPoll(table, p))
  {
    hide PeerCallbacks, NodeAfter, AfterPoll, ProcessOk, IsParked;
    DrivenIsLegal(c, node, table, p);
    if p.Ready? {
      DrivenFits(c, node, table, p);
      NoneOrphanedKeeps(c, node, table, p);
    } else {
      NothingHandledIn(c, node, table, p);
    }
  }

  // ---------- a client that closes while its request is parked ----------

  const PARKED_GET := NewPacket(GET).(keyLen := 2, key := [0, 100])
  const PARKED_NODE := Node(map[], map[100 := [Request(7, PARKED_GET)]])
  const CLOSING := Ready([Returned([])], [Callback(KeepClient, [])], None)

  /** The client on socket 7 is parked and closes: nobody is connected, its request stays. */
  lemma ParkedClientOrphaned(c: Conf)
    ensures var table := [Entry(7, ACCEPTED)];
      && ProcessOk(PARKED_NODE, table)
      && PeerCallbacks(c, PARKED_NODE, table, CLOSING) && LegalPoll(table, CLOSING)
      && AfterPoll(table, CLOSING) == []
      && NodeAfter(c, PARKED_NODE, table, CLOSING) == PARKED_NODE
      && ParkedAt(PARKED_NODE, 100, 7)
  {
    hide HandlePacket;
    var table := [Entry(7, ACCEPTED)];
    var leaving := LeavingOf(ViewsOf(table), CLOSING.recvs, CLOSING.cbs);
    assert PacketOf(FRESH, Returned([])) == None;
    assert leaving == [true];
    assert Gone(leaving, 1) == 1 && VisitedFrom(leaving, 1) == 1 && VisitedFrom(leaving, 0) == 1;
    assert VisitedIn(table, CLOSING) == 1;
    assert DeliveredBy(SocketsOf(table), ViewsOf(table), CLOSING.recvs, 0) == [];
    assert DeliveredIn(table, CLOSING) == [];
    assert Departing(table, CLOSING) == [true];
    assert Stayers(Swept(table, CLOSING), [true], 0) == [];
    assert Remaining(table, CLOSING) == [];
    OnlySocket(Request(7, PARKED_GET));
    NoSockets();
    assert SocketsOf(table)[0] == 7;
  }

  // ---------- every run of the process ----------

  /** Rounds whose callbacks are those of the peer, with its state carried from round to round. */
  ghost predicate DrivenRun(c: Conf, node: Node, table: seq<Entry>, ps: seq<Poll>)
    decreases |ps|
  {
    ps == [] || ps[0].Stop?
    || (Driven(c, node, table, ps[0])
        && DrivenRun(c, NodeAfter(c, node, table, ps[0]), AfterPoll(table, ps[0]), ps[1..]))
  }

  function FinalNode(c: Conf, node: Node, table: seq<Entry>, ps: seq<Poll>): Node
    requires LegalPolls(table, ps)
    decreases |ps|
  {
    if ps == [] || ps[0].Stop? then node
    else FinalNode(c, NodeAfter(c, node, table, ps[0]), AfterPoll(table, ps[0]), ps[1..])
  }

  predicate NoStop(ps: seq<Poll>) {
    forall p :: p in ps ==> !p.Stop?
  }

  lemma {:induction false} HandleConcat(c: Conf, node: Node, a: seq<(int, Decoded)>,
                                        b: seq<(int, Decoded)>)
    ensures HandleAll(c, node, a + b) == HandleAll(c, HandleAll(c, node, a), b)
    decreases |b|
  {
    hide HandlePacket;
    if b == [] {
      assert a + b == a;
    } else {
      assert (a + b)[..|a + b| - 1] == a + b[..|b| - 1];
      HandleConcat(c, node, a, b[..|b| - 1]);
    }
  }

  /**
   * In every run of the process in which parked clients wait: no callback closes a client with
   * data ready, so the server runs; the state of the peer is that of its handlers on the
   * packets which the server cuts out of the streams, in order; and every parked request still
   * has its client connected.
   */
  lemma {:induction false} ProcessRuns(c: Conf, node: Node, table: seq<Entry>, ps: seq<Poll>)
    requires ProcessOk(node, table) && DrivenRun(c, node, table, ps)
    ensures LegalPolls(table, ps)
    ensures FinalNode(c, node, table, ps) == HandleAll(c, node, DeliveredAll(table, ps))
    ensures NoStop(ps) ==> ProcessOk(FinalNode(c, node, table, ps), AfterPolls(table, ps))
    decreases |ps|
  {
    hide ProcessOk, Driven, AfterPoll, DeliveredIn, HandleAll, LegalPoll;
    if ps == [] || ps[0].Stop? {
      NothingHandled(c, node);
    } else {
      var (p, rest) := (ps[0], ps[1..]);
      DrivenFits(c, node, table, p);
      RoundKeepsProcess(c, node, table, p);
      var (next, table') := (NodeAfter(c, node, table, p), AfterPoll(table, p));
      ProcessRuns(c, next, table', rest);
      HandleConcat(c, node, DeliveredIn(table, p), DeliveredAll(table', rest));
      assert NoStop(ps) ==> NoStop(rest);
    }
  }

  /** A process starts with empty tables and no clients. */
  lemma ProcessStarts()
    ensures ProcessOk(Node(map[], map[]), [])
  {
  }
}
