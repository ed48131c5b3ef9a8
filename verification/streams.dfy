/** What the rounds of the server do to each connection, from accept to close. */
module Streams {
  import opened Words
  import opened Packets
  import opened Framing
  import opened Rounds

  // ---------- the connections that have left ----------

  function Not(l: seq<bool>): (n: seq<bool>)
    ensures |n| == |l|
  {
    seq(|l|, j requires 0 <= j < |l| => !l[j])
  }

  /** The connections that a round closes, as it leaves them. */
  function Departed(table: seq<Entry>, p: Poll): seq<Entry>
    requires LegalPoll(table, p)
  {
    match p
    case Nothing => []
    case Stop => table
    case Ready(_, _, _) => Stayers(Swept(table, p), Not(Departing(table, p)), |table|)
  }

  /** The connections that a run closes, in the order in which they leave. */
  function Departures(table: seq<Entry>, ps: seq<Poll>): seq<Entry>
    requires LegalPolls(table, ps)
    decreases |ps|
  {
    if ps == [] then []
    else if ps[0].Stop? then table
    else Departed(table, ps[0]) + Departures(AfterPoll(table, ps[0]), ps[1..])
  }

  // ---------- what a socket has delivered ----------

  /** The packets in the log that came from a socket. */
  function From(log: seq<(int, Decoded)>, socket: int): seq<Decoded> {
    if log == [] then []
    else
      From(log[..|log| - 1], socket)
      + if log[|log| - 1].0 == socket then [log[|log| - 1].1] else []
  }

  lemma {:induction false} FromConcat(a: seq<(int, Decoded)>, b: seq<(int, Decoded)>, socket: int)
    ensures From(a + b, socket) == From(a, socket) + From(b, socket)
    decreases |b|
  {
    if b == [] {
      assert a + b == a;
    } else {
      assert (a + b)[..|a + b| - 1] == a + b[..|b| - 1];
      FromConcat(a, b[..|b| - 1], socket);
    }
  }

  /** The packets of all connections that used a socket, one connection after the other. */
  function Joined(es: seq<Entry>, socket: int): seq<Decoded> {
    if es == [] then []
    else
      var e := es[|es| - 1];
      Joined(es[..|es| - 1], socket) + if e.socket == socket then e.conn.delivered else []
  }

  lemma {:induction false} JoinedConcat(a: seq<Entry>, b: seq<Entry>, socket: int)
    ensures Joined(a + b, socket) == Joined(a, socket) + Joined(b, socket)
    decreases |b|
  {
    if b == [] {
      assert a + b == a;
    } else {
      assert (a + b)[..|a + b| - 1] == a + b[..|b| - 1];
      JoinedConcat(a, b[..|b| - 1], socket);
    }
  }

  lemma JoinedOne(a: seq<Entry>, e: Entry, socket: int)
    ensures Joined(a + [e], socket)
      == Joined(a, socket) + if e.socket == socket then e.conn.delivered else []
  {
    assert (a + [e])[..|a|] == a;
  }

  /** The socket is entry `j` and no other, or none at all if `j` is past the end. */
  predicate OnlyAt(ss: seq<int>, socket: int, j: nat) {
    && (j < |ss| ==> ss[j] == socket)
    && forall k :: 0 <= k < |ss| && k != j ==> ss[k] != socket
  }

  lemma Locate(ss: seq<int>, socket: int) returns (j: nat)
    requires Distinct(ss)
    ensures j <= |ss| && OnlyAt(ss, socket, j)
  {
    j := |ss|;
    if k :| 0 <= k < |ss| && ss[k] == socket {
      j := k;
      assert forall i :: 0 <= i < |ss| && i != k ==> ss[i] != ss[k];
    }
  }

  lemma NothingJoined(socket: int)
    ensures Joined([], socket) == []
  {
  }

  lemma {:induction false} JoinedStayers(
    all: seq<Entry>, leaving: seq<bool>, m: nat, socket: int, j: nat)
    requires m <= |all| == |leaving| && OnlyAt(SocketsOf(all), socket, j)
    ensures Joined(Stayers(all, leaving, m), socket)
      == if j < m && !leaving[j] then all[j].conn.delivered else []
  {
    hide Joined;
    if m > 0 {
      JoinedStayers(all, leaving, m - 1, socket, j);
      JoinedOne(Stayers(all, leaving, m - 1), all[m - 1], socket);
      assert SocketsOf(all)[m - 1] == all[m - 1].socket;
      assert leaving[m - 1] ==> Stayers(all, leaving, m) == Stayers(all, leaving, m - 1);
    } else {
      NothingJoined(socket);
    }
  }

  lemma {:induction false} AllStay<T>(all: seq<T>, m: nat)
    requires m <= |all|
    ensures Stayers(all, Not(seq(|all|, _ => true)), m) == all[..m]
  {
    if m > 0 {
      AllStay(all, m - 1);
    }
  }

  lemma JoinedTable(table: seq<Entry>, socket: int, j: nat)
    requires OnlyAt(SocketsOf(table), socket, j)
    ensures Joined(table, socket) == if j < |table| then table[j].conn.delivered else []
  {
    hide Joined, Stayers;
    AllStay(table, |table|);
    assert table[..|table|] == table;
    JoinedStayers(table, Not(seq(|table|, _ => true)), |table|, socket, j);
  }

  lemma FromVisit(log: seq<(int, Decoded)>, from: int, d: Option<Decoded>, socket: int)
    ensures var more := match d case Some(x) => [(from, x)] case None => [];
      From(log + more, socket) == From(log, socket) + if from == socket then Listed(d) else []
  {
    match d
    case Some(x) =>
      assert (log + [(from, x)])[..|log|] == log;
    case None =>
      assert log + [] == log;
  }

  lemma FromNothing(sockets: seq<int>, views: seq<View>, recvs: seq<Recv>, socket: int)
    requires |sockets| == |views| == |recvs|
    ensures From(DeliveredBy(sockets, views, recvs, 0), socket) == []
  {
  }

  /** A round delivers at most one packet for each client, from its own bytes. */
  lemma {:induction false} FromRound(
    sockets: seq<int>, views: seq<View>, recvs: seq<Recv>, m: nat, socket: int, j: nat)
    requires m <= |sockets| == |views| == |recvs| && OnlyAt(sockets, socket, j)
    ensures From(DeliveredBy(sockets, views, recvs, m), socket)
      == if j < m then Listed(PacketOf(views[j], recvs[j])) else []
  {
    hide PacketOf, From, DeliveredBy, Listed;
    if m > 0 {
      FromRound(sockets, views, recvs, m - 1, socket, j);
      DeliveredNext(sockets, views, recvs, m - 1);
      FromVisit(DeliveredBy(sockets, views, recvs, m - 1), sockets[m - 1],
                PacketOf(views[m - 1], recvs[m - 1]), socket);
    } else {
      FromNothing(sockets, views, recvs, socket);
    }
  }

  // ---------- every connection is parsed, over any number of rounds ----------

  /**
   * `past` holds the connections that have left and `table` those that are open. Each has
   * delivered the greedy parse of the bytes read from it, and for each socket the log consists
   * of what its connections delivered, one after the other.
   */
  ghost predicate HistoryOk(past: seq<Entry>, table: seq<Entry>, log: seq<(int, Decoded)>) {
    && Distinct(SocketsOf(table))
    && (forall e :: e in past ==> Agrees(e.conn))
    && (forall e :: e in table ==> e.conn.open && Agrees(e.conn))
    && forall socket :: From(log, socket) == Joined(past + table, socket)
  }

  lemma {:induction false} StayersKept<T>(all: seq<T>, leaving: seq<bool>, m: nat)
    requires m <= |all| == |leaving|
    ensures forall x {:trigger x in Stayers(all, leaving, m)} :: x in Stayers(all, leaving, m) ==>
      exists j :: 0 <= j < m && !leaving[j] && all[j] == x
  {
    if m > 0 {
      StayersKept(all, leaving, m - 1);
      forall x {:trigger x in Stayers(all, leaving, m)} | x in Stayers(all, leaving, m)
        ensures exists j :: 0 <= j < m && !leaving[j] && all[j] == x
      {
        if x in Stayers(all, leaving, m - 1) {
          var j :| 0 <= j < m - 1 && !leaving[j] && all[j] == x;
        } else {
          assert !leaving[m - 1] && all[m - 1] == x;
        }
      }
    }
  }

  lemma {:induction false} StayersDistinct(all: seq<Entry>, leaving: seq<bool>, m: nat)
    requires m <= |all| == |leaving| && Distinct(SocketsOf(all))
    ensures Distinct(SocketsOf(Stayers(all, leaving, m)))
  {
    if m > 0 {
      StayersDistinct(all, leaving, m - 1);
      StayersKept(all, leaving, m - 1);
      var (st, ss) := (Stayers(all, leaving, m - 1), SocketsOf(all));
      forall k | 0 <= k < |st| ensures st[k].socket != all[m - 1].socket {
        assert st[k] in st;
        var j :| 0 <= j < m - 1 && all[j] == st[k];
        assert ss[j] != ss[m - 1];
      }
    }
  }

  lemma SweptSockets(table: seq<Entry>, p: Poll)
    requires LegalSweep(table, p)
    ensures SocketsOf(Swept(table, p)) == SocketsOf(table)
  {
  }

  /** One visit keeps the agreement and delivers what its read completed. */
  lemma VisitKeeps(c: Conn, r: Recv, cb: Callback)
    requires c.open && Agrees(c) && (r.Returned? ==> |r.chunk| <= Needed(c.view))
    ensures Agrees(Visited(c, r, cb))
    ensures Visited(c, r, cb).delivered == c.delivered + Listed(PacketOf(c.view, r))
  {
    hide Agrees, Receive, Needed;
    if r.Returned? {
      EventAgrees(c, Readable(r.chunk, cb.verdict.KeepClient?));
    }
  }

  lemma SweptKeeps(table: seq<Entry>, p: Poll, j: nat)
    requires LegalSweep(table, p) && j < |table| && table[j].conn.open && Agrees(table[j].conn)
    ensures var e := Swept(table, p)[j];
      && Agrees(e.conn)
      && (!Departing(table, p)[j] ==> e.conn.open)
      && e.conn.delivered == table[j].conn.delivered
         + if j < VisitedIn(table, p) then Listed(PacketOf(table[j].conn.view, p.recvs[j])) else []
  {
    hide Agrees, Leaves, PacketOf, Needed, Visited, VisitedFrom, ClosedBefore;
    assert ViewsOf(table)[j] == table[j].conn.view;
    if j < VisitedIn(table, p) {
      VisitKeeps(table[j].conn, p.recvs[j], p.cbs[j]);
      if !Departing(table, p)[j] {
        VisitedOpen(table[j].conn, p.recvs[j], p.cbs[j]);
      }
    }
  }

  /** A fresh connection has delivered nothing. */
  lemma AcceptedJoins(accepted: Option<int>, rest: seq<Entry>, socket: int)
    ensures var front := if accepted.Some? then [Entry(accepted.value, ACCEPTED)] else [];
      Joined(front + rest, socket) == Joined(rest, socket)
  {
    var front := if accepted.Some? then [Entry(accepted.value, ACCEPTED)] else [];
    JoinedConcat(front, rest, socket);
    assert Joined(front, socket) == [] by {
      assert front != [] ==> front[..0] == [];
    }
  }

  /** What a socket delivers in a round is what its connection delivers, whether it leaves or not. */
  lemma RoundDelivers(table: seq<Entry>, p: Poll, socket: int)
    requires LegalSweep(table, p) && Distinct(SocketsOf(table))
    requires forall e :: e in table ==> e.conn.open && Agrees(e.conn)
    ensures var (swept, gone) := (Swept(table, p), Departing(table, p));
      Joined(Stayers(swept, Not(gone), |table|), socket) + Joined(Remaining(table, p), socket)
      == Joined(table, socket)
         + From(DeliveredBy(SocketsOf(table), ViewsOf(table), p.recvs, VisitedIn(table, p)), socket)
  {
    hide Agrees, Leaves, PacketOf, Needed, VisitedFrom, Departing, Swept, Joined, From, Stayers,
      LegalReads, ClosedHaveNoData, DeliveredBy, VisitedIn;
    var (swept, gone, n) := (Swept(table, p), Departing(table, p), |table|);
    var j := Locate(SocketsOf(table), socket);
    SweptSockets(table, p);
    FromRound(SocketsOf(table), ViewsOf(table), p.recvs, VisitedIn(table, p), socket, j);
    JoinedTable(table, socket, j);
    JoinedStayers(swept, Not(gone), n, socket, j);
    JoinedStayers(swept, gone, n, socket, j);
    if j < n {
      SweptKeeps(table, p, j);
    }
  }

  lemma Regroup<T>(a: seq<T>, b: seq<T>, c: seq<T>, d: seq<T>, e: seq<T>)
    requires b + c == d + e
    ensures a + b + c == a + d + e
  {
    assert a + b + c == a + (b + c) && a + d + e == a + (d + e);
  }

  lemma RoundJoined(past: seq<Entry>, table: seq<Entry>, log: seq<(int, Decoded)>, p: Poll,
                    socket: int)
    requires HistoryOk(past, table, log) && LegalPoll(table, p) && p.Ready?
    ensures From(log + DeliveredIn(table, p), socket)
      == Joined(past + Departed(table, p) + AfterPoll(table, p), socket)
  {
    hide Agrees, VisitedIn, Departing, Swept, Joined, From, Stayers, ClosedHaveNoData,
      LegalReads, DeliveredBy, Remaining;
    RoundDelivers(table, p, socket);
    FromConcat(log, DeliveredIn(table, p), socket);
    JoinedConcat(past, table, socket);
    JoinedConcat(past, Departed(table, p), socket);
    JoinedConcat(past + Departed(table, p), AfterPoll(table, p), socket);
    AcceptedJoins(p.accepted, Remaining(table, p), socket);
    Regroup(Joined(past, socket), Joined(table, socket), From(DeliveredIn(table, p), socket),
            Joined(Departed(table, p), socket), Joined(AfterPoll(table, p), socket));
  }

  lemma PollDistinct(table: seq<Entry>, p: Poll)
    requires LegalPoll(table, p) && Distinct(SocketsOf(table))
    ensures Distinct(SocketsOf(AfterPoll(table, p)))
  {
    hide Swept, Departing, ClosedHaveNoData, LegalReads, Stayers;
    if p.Ready? {
      SweptSockets(table, p);
      StayersDistinct(Swept(table, p), Departing(table, p), |table|);
    }
  }

  lemma FreshAgrees()
    ensures Agrees(ACCEPTED)
  {
  }

  lemma RoundAgrees(table: seq<Entry>, p: Poll)
    requires LegalPoll(table, p) && p.Ready?
    requires forall e :: e in table ==> e.conn.open && Agrees(e.conn)
    ensures forall e :: e in Departed(table, p) ==> Agrees(e.conn)
    ensures forall e :: e in AfterPoll(table, p) ==> e.conn.open && Agrees(e.conn)
  {
    hide Agrees, Swept, Departing, ClosedHaveNoData, LegalReads, Stayers;
    var (swept, gone, n) := (Swept(table, p), Departing(table, p), |table|);
    StayersKept(swept, Not(gone), n);
    StayersKept(swept, gone, n);
    forall j | 0 <= j < n ensures Agrees(swept[j].conn) && (!gone[j] ==> swept[j].conn.open) {
      SweptKeeps(table, p, j);
    }
    FreshAgrees();
  }

  lemma PollKeeps(past: seq<Entry>, table: seq<Entry>, log: seq<(int, Decoded)>, p: Poll)
    requires HistoryOk(past, table, log) && LegalPoll(table, p)
    ensures HistoryOk(past + Departed(table, p), AfterPoll(table, p), log + DeliveredIn(table, p))
  {
    hide Agrees, From, Joined;
    if p.Ready? {
      hide AfterPoll, Departed, DeliveredIn, LegalPoll;
      RoundAgrees(table, p);
      PollDistinct(table, p);
      forall socket
        ensures From(log + DeliveredIn(table, p), socket)
          == Joined(past + Departed(table, p) + AfterPoll(table, p), socket)
      {
        RoundJoined(past, table, log, p, socket);
      }
    } else {
      assert log + [] == log && past + [] == past && past + table + [] == past + table;
    }
  }

  lemma StopIs(table: seq<Entry>, p: Poll)
    requires p.Stop?
    ensures Departed(table, p) == table && AfterPoll(table, p) == [] && DeliveredIn(table, p) == []
  {
  }

  /**
   * However reads, callbacks, removals and new connections interleave over the rounds of the
   * server: each connection, whether it has left or not, delivers exactly the greedy parse of
   * the bytes read from it, and nothing else is delivered.
   */
  lemma {:induction false} EveryStreamParsed(
    past: seq<Entry>, table: seq<Entry>, log: seq<(int, Decoded)>, ps: seq<Poll>)
    requires HistoryOk(past, table, log) && LegalPolls(table, ps)
    ensures HistoryOk(past + Departures(table, ps), AfterPolls(table, ps),
                      log + DeliveredAll(table, ps))
    decreases |ps|
  {
    hide HistoryOk, AfterPoll, DeliveredIn, Departed;
    if ps == [] {
      assert log + [] == log && past + [] == past;
    } else if ps[0].Stop? {
      assert LegalPoll(table, ps[0]);
      PollKeeps(past, table, log, ps[0]);
      StopIs(table, ps[0]);
    } else {
      var (more, left) := (DeliveredIn(table, ps[0]), Departed(table, ps[0]));
      PollKeeps(past, table, log, ps[0]);
      var next := AfterPoll(table, ps[0]);
      EveryStreamParsed(past + left, next, log + more, ps[1..]);
      assert log + more + DeliveredAll(next, ps[1..]) == log + (more + DeliveredAll(next, ps[1..]));
      assert past + left + Departures(next, ps[1..]) == past + (left + Departures(next, ps[1..]));
    }
  }

  lemma NothingYet()
    ensures HistoryOk([], [], [])
  {
  }

  /** From the start of the server: every connection that ever was, and every packet. */
  lemma ServerHistory(ps: seq<Poll>)
    requires LegalPolls([], ps)
    ensures HistoryOk(Departures([], ps), AfterPolls([], ps), DeliveredAll([], ps))
  {
    hide Departures, AfterPolls, DeliveredAll;
    NothingYet();
    EveryStreamParsed([], [], [], ps);
    assert [] + Departures([], ps) == Departures([], ps);
    assert [] + DeliveredAll([], ps) == DeliveredAll([], ps);
  }
}
