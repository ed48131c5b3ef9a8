/** What a round of the server's poll loop does (praxis2/src/server.c), on values. */
module Rounds {
  import opened Words
  import opened Packets
  import opened Framing
  import opened PeerSteps

  /** What recv did for one client in a round: not readable or failed, or some bytes returned. */
  datatype Recv = Quiet | Returned(chunk: Bytes)

  /** What the packet callback did: its verdict, and the sockets that it asked to close. */
  datatype Callback = Callback(verdict: Verdict, closes: seq<int>)

  /** The packet that a read completes. */
  function PacketOf(v: View, r: Recv): Option<Decoded> {
    if r.Returned? && 1 <= |r.chunk| <= Needed(v) then Receive(v, r.chunk).1 else None
  }

  /** What the client holds after its visit, if it stays. */
  function ViewAfter(v: View, r: Recv): View {
    if r.Returned? && 1 <= |r.chunk| <= Needed(v) then Receive(v, r.chunk).0 else v
  }

  /** Whether the client is removed during its visit: closed, or not kept by the callback. */
  predicate Leaves(v: View, r: Recv, cb: Callback) {
    r.Returned? && (r.chunk == [] || (PacketOf(v, r).Some? && cb.verdict.RemoveClient?))
  }

  // ---------- what one round visits, removes and delivers ----------

  /** The number of removals among the first `m` visits. */
  function Gone(leaving: seq<bool>, m: nat): (g: nat)
    requires m <= |leaving|
    ensures g <= m
  {
    if m == 0 then 0 else Gone(leaving, m - 1) + if leaving[m - 1] then 1 else 0
  }

  /** The loop compares its index with a count of clients that shrinks with each removal. */
  function VisitedFrom(leaving: seq<bool>, t: nat): (m: nat)
    requires t <= |leaving|
    ensures t <= m <= |leaving|
    decreases |leaving| - t
  {
    if t < |leaving| - Gone(leaving, t) then VisitedFrom(leaving, t + 1) else t
  }

  /** The first `m` clients without those that left. */
  function Stayers<T>(all: seq<T>, leaving: seq<bool>, m: nat): seq<T>
    requires m <= |all| == |leaving|
  {
    if m == 0 then []
    else Stayers(all, leaving, m - 1) + if leaving[m - 1] then [] else [all[m - 1]]
  }

  /** The packets that the first `m` visits complete, with the sockets they came from. */
  function DeliveredBy(sockets: seq<int>, views: seq<View>, recvs: seq<Recv>, m: nat)
    : seq<(int, Decoded)>
    requires m <= |sockets| == |views| == |recvs|
  {
    if m == 0 then []
    else
      DeliveredBy(sockets, views, recvs, m - 1)
      + match PacketOf(views[m - 1], recvs[m - 1])
        case Some(d) => [(sockets[m - 1], d)]
        case None => []
  }

  lemma DeliveredNext(sockets: seq<int>, views: seq<View>, recvs: seq<Recv>, t: nat)
    requires t < |sockets| == |views| == |recvs|
    ensures DeliveredBy(sockets, views, recvs, t + 1) == DeliveredBy(sockets, views, recvs, t)
      + match PacketOf(views[t], recvs[t]) case Some(d) => [(sockets[t], d)] case None => []
  {
    hide PacketOf;
  }

  lemma {:induction false} GoneGrows(leaving: seq<bool>, m: nat, n: nat)
    requires m <= n <= |leaving|
    ensures Gone(leaving, m) <= Gone(leaving, n)
    decreases n
  {
    if m < n {
      GoneGrows(leaving, m, n - 1);
    }
  }

  /**
   * Every removal puts off at most one later client to the next round, and without a removal
   * every client is visited.
   */
  lemma {:induction false} PutOffBound(leaving: seq<bool>, t: nat)
    requires t <= |leaving| && t <= |leaving| - Gone(leaving, t)
    ensures var m := VisitedFrom(leaving, t);
      |leaving| - Gone(leaving, m) <= m && |leaving| - m <= Gone(leaving, |leaving|)
    decreases |leaving| - t
  {
    if t < |leaving| - Gone(leaving, t) {
      if t + 1 <= |leaving| - Gone(leaving, t + 1) {
        PutOffBound(leaving, t + 1);
      } else {
        GoneGrows(leaving, t + 1, |leaving|);
      }
    } else {
      GoneGrows(leaving, t, |leaving|);
    }
  }

  /** recv returns no more bytes than it was asked for. */
  predicate LegalReads(views: seq<View>, recvs: seq<Recv>) {
    && |views| == |recvs|
    && forall k :: 0 <= k < |views| && recvs[k].Returned? ==> |recvs[k].chunk| <= Needed(views[k])
  }

  function LeavingOf(views: seq<View>, recvs: seq<Recv>, cbs: seq<Callback>): (l: seq<bool>)
    requires |views| == |recvs| == |cbs|
    ensures |l| == |views|
    ensures forall k :: 0 <= k < |l| ==> l[k] == Leaves(views[k], recvs[k], cbs[k])
  {
    seq(|views|, k requires 0 <= k < |views| => Leaves(views[k], recvs[k], cbs[k]))
  }

  /** Whether a callback during the first `t` visits asked to close the socket. */
  predicate ClosedBefore(views: seq<View>, recvs: seq<Recv>, cbs: seq<Callback>, t: nat, socket: int)
    requires t <= |views| == |recvs| == |cbs|
  {
    t > 0
    && (ClosedBefore(views, recvs, cbs, t - 1, socket)
        || (PacketOf(views[t - 1], recvs[t - 1]).Some? && socket in cbs[t - 1].closes))
  }

  /** A socket has been closed exactly if some callback that was called asked for it. */
  lemma {:induction false} ClosedExactly(views: seq<View>, recvs: seq<Recv>, cbs: seq<Callback>,
                                         t: nat, socket: int)
    requires t <= |views| == |recvs| == |cbs|
    ensures ClosedBefore(views, recvs, cbs, t, socket) <==>
      exists i :: 0 <= i < t && PacketOf(views[i], recvs[i]).Some? && socket in cbs[i].closes
  {
    hide PacketOf;
    if t > 0 {
      ClosedExactly(views, recvs, cbs, t - 1, socket);
    }
  }

  /** No data is ready for a visited client that a callback earlier in the round has closed. */
  predicate ClosedHaveNoData(sockets: seq<int>, views: seq<View>, recvs: seq<Recv>,
                             cbs: seq<Callback>)
  {
    && |sockets| == |views| == |recvs| == |cbs|
    && forall j :: 0 <= j < VisitedFrom(LeavingOf(views, recvs, cbs), 0) && recvs[j].Returned? ==>
      !ClosedBefore(views, recvs, cbs, j, sockets[j])
  }

  lemma ReadyOpen(sockets: seq<int>, views: seq<View>, recvs: seq<Recv>, cbs: seq<Callback>, t: nat)
    requires LegalReads(views, recvs) && ClosedHaveNoData(sockets, views, recvs, cbs)
    requires t < VisitedFrom(LeavingOf(views, recvs, cbs), 0)
    ensures recvs[t].Returned? ==>
      |recvs[t].chunk| <= Needed(views[t]) && !ClosedBefore(views, recvs, cbs, t, sockets[t])
  {
    hide Needed, ClosedBefore, VisitedFrom;
  }

  lemma {:induction false} StayersHas<T>(all: seq<T>, leaving: seq<bool>, m: nat, j: nat)
    requires j < m <= |all| == |leaving| && !leaving[j]
    ensures all[j] in Stayers(all, leaving, m)
  {
    if j < m - 1 {
      StayersHas(all, leaving, m - 1, j);
    }
  }

  lemma {:induction false} StayersFrom<T>(all: seq<T>, leaving: seq<bool>, m: nat)
    requires m <= |all| == |leaving|
    ensures forall x {:trigger x in Stayers(all, leaving, m)} ::
      x in Stayers(all, leaving, m) ==> x in all[..m]
    ensures |Stayers(all, leaving, m)| == m - Gone(leaving, m)
  {
    if m > 0 {
      StayersFrom(all, leaving, m - 1);
      assert all[..m] == all[..m - 1] + [all[m - 1]];
    }
  }

  // ---------- removing in two passes ----------

  function Early(leaving: seq<bool>, m: nat): (l: seq<bool>)
    ensures |l| == |leaving|
  {
    seq(|leaving|, j requires 0 <= j < |leaving| => j < m && leaving[j])
  }

  lemma {:induction false} StayersPrefix<T>(
    all: seq<T>, leaving: seq<bool>, all': seq<T>, leaving': seq<bool>, m: nat)
    requires m <= |all| == |leaving| && m <= |all'| == |leaving'|
    requires forall k :: 0 <= k < m ==> all[k] == all'[k] && leaving[k] == leaving'[k]
    ensures Stayers(all, leaving, m) == Stayers(all', leaving', m)
  {
    if m > 0 {
      StayersPrefix(all, leaving, all', leaving', m - 1);
    }
  }

  /** Those left after `m` visits and those not yet visited. */
  lemma {:induction false} StayersEarly<T>(all: seq<T>, leaving: seq<bool>, m: nat, n: nat)
    requires m <= n <= |all| == |leaving|
    ensures Stayers(all, Early(leaving, m), n) == Stayers(all, leaving, m) + all[m..n]
    decreases n
  {
    if n == m {
      StayersPrefix(all, Early(leaving, m), all, leaving, m);
    } else {
      StayersEarly(all, leaving, m, n - 1);
      assert all[m..n] == all[m..n - 1] + [all[n - 1]];
    }
  }

  ghost function Within<T>(s: seq<T>, d: set<T>): (l: seq<bool>)
    ensures |l| == |s|
  {
    seq(|s|, k requires 0 <= k < |s| => s[k] in d)
  }

  /** Removing some elements and then those in `d` is removing both at once. */
  lemma {:induction false} StayersTwice<T>(
    all: seq<T>, early: seq<bool>, d: set<T>, gone: seq<bool>, m: nat)
    requires m <= |all| == |early| == |gone|
    requires forall j :: 0 <= j < m ==> (gone[j] <==> early[j] || all[j] in d)
    ensures var mid := Stayers(all, early, m);
      Stayers(mid, Within(mid, d), |mid|) == Stayers(all, gone, m)
  {
    if m > 0 {
      StayersTwice(all, early, d, gone, m - 1);
      var (mid, before) := (Stayers(all, early, m), Stayers(all, early, m - 1));
      if !early[m - 1] {
        var n := |before|;
        assert mid == before + [all[m - 1]];
        StayersPrefix(mid, Within(mid, d), before, Within(before, d), n);
        assert Stayers(mid, Within(mid, d), n + 1)
          == Stayers(mid, Within(mid, d), n) + if all[m - 1] in d then [] else [all[m - 1]];
      } else {
        assert mid == before && Stayers(all, gone, m) == Stayers(all, gone, m - 1);
      }
    }
  }

  /** Two sequences thinned out in the same way still correspond. */
  lemma {:induction false} StayersPair<S, T>(a: seq<S>, b: seq<T>, leaving: seq<bool>, m: nat, k: nat)
    returns (j: nat)
    requires m <= |a| == |b| == |leaving| && k < |Stayers(a, leaving, m)|
    ensures |Stayers(a, leaving, m)| == |Stayers(b, leaving, m)|
    ensures j < m && !leaving[j]
    ensures Stayers(a, leaving, m)[k] == a[j] && Stayers(b, leaving, m)[k] == b[j]
  {
    StayersFrom(a, leaving, m);
    StayersFrom(b, leaving, m);
    StayersFrom(a, leaving, m - 1);
    StayersFrom(b, leaving, m - 1);
    if k < |Stayers(a, leaving, m - 1)| {
      j := StayersPair(a, b, leaving, m - 1, k);
    } else {
      j := m - 1;
    }
  }

  // ---------- which clients are visited ----------

  lemma {:induction false} NoneGone(leaving: seq<bool>, t: nat)
    requires t <= |leaving| && forall k :: 0 <= k < t ==> !leaving[k]
    ensures Gone(leaving, t) == 0
  {
    if t > 0 {
      NoneGone(leaving, t - 1);
    }
  }

  /** Once a client has left, the loop ends before the last one. */
  lemma {:induction false} NeverAll(leaving: seq<bool>, t: nat)
    requires t < |leaving| && Gone(leaving, t) > 0
    ensures VisitedFrom(leaving, t) < |leaving|
    decreases |leaving| - t
  {
    if t < |leaving| - Gone(leaving, t) {
      NeverAll(leaving, t + 1);
    }
  }

  lemma {:induction false} AllVisitedFrom(leaving: seq<bool>, t: nat)
    requires t <= |leaving| && forall k :: 0 <= k < t ==> !leaving[k]
    ensures VisitedFrom(leaving, t) == |leaving| <==>
      forall k :: 0 <= k < |leaving| - 1 ==> !leaving[k]
    decreases |leaving| - t
  {
    NoneGone(leaving, t);
    if t < |leaving| {
      if leaving[t] {
        assert Gone(leaving, t + 1) == 1;
        if t + 1 < |leaving| {
          NeverAll(leaving, t + 1);
        }
      } else {
        AllVisitedFrom(leaving, t + 1);
      }
    }
  }

  /** A round visits every client if and only if none but the last one leaves during its visit. */
  lemma AllVisitedExactly(leaving: seq<bool>)
    ensures VisitedFrom(leaving, 0) == |leaving| <==>
      forall k :: 0 <= k < |leaving| - 1 ==> !leaving[k]
  {
    AllVisitedFrom(leaving, 0);
  }

  // ---------- rounds on values ----------

  /** A client of the server and its connection. */
  datatype Entry = Entry(socket: int, conn: Conn)

  /** What poll reported: nothing, a key press or an error, or ready descriptors. */
  datatype Poll = Nothing | Stop | Ready(recvs: seq<Recv>, cbs: seq<Callback>, accepted: Option<int>)

  function ViewsOf(table: seq<Entry>): (vs: seq<View>)
    ensures |vs| == |table| && forall k :: 0 <= k < |vs| ==> vs[k] == table[k].conn.view
  {
    seq(|table|, k requires 0 <= k < |table| => table[k].conn.view)
  }

  function SocketsOf(table: seq<Entry>): (ss: seq<int>)
    ensures |ss| == |table| && forall k :: 0 <= k < |ss| ==> ss[k] == table[k].socket
  {
    seq(|table|, k requires 0 <= k < |table| => table[k].socket)
  }

  predicate ReadsFit(table: seq<Entry>, p: Poll) {
    p.Ready? && |p.recvs| == |p.cbs| == |table| && LegalReads(ViewsOf(table), p.recvs)
  }

  predicate LegalSweep(table: seq<Entry>, p: Poll) {
    && ReadsFit(table, p)
    && ClosedHaveNoData(SocketsOf(table), ViewsOf(table), p.recvs, p.cbs)
  }

  function VisitedIn(table: seq<Entry>, p: Poll): (m: nat)
    requires ReadsFit(table, p)
    ensures m <= |table|
  {
    VisitedFrom(LeavingOf(ViewsOf(table), p.recvs, p.cbs), 0)
  }

  /** Who is gone after the round: those that left during their visit and those closed. */
  function Departing(table: seq<Entry>, p: Poll): (l: seq<bool>)
    requires ReadsFit(table, p)
    ensures |l| == |table|
  {
    var (views, m) := (ViewsOf(table), VisitedIn(table, p));
    seq(|table|, j requires 0 <= j < |table| =>
      || (j < m && Leaves(views[j], p.recvs[j], p.cbs[j]))
      || ClosedBefore(views, p.recvs, p.cbs, m, table[j].socket))
  }

  /** One visit is one readiness event of the connection. */
  function Visited(c: Conn, r: Recv, cb: Callback): Conn
    requires r.Returned? ==> |r.chunk| <= Needed(c.view)
  {
    match r
    case Quiet => c
    case Returned(chunk) => OnEvent(c, Readable(chunk, cb.verdict.KeepClient?))
  }

  /** A client leaves during its visit exactly if its connection is closed by it. */
  lemma LeavesExactly(c: Conn, r: Recv, cb: Callback)
    requires c.open && (r.Returned? ==> |r.chunk| <= Needed(c.view))
    ensures Leaves(c.view, r, cb) <==> !Visited(c, r, cb).open
  {
    hide Receive, Needed;
  }

  /** A visited client that stays is still open and holds what the read left. */
  lemma VisitedOpen(c: Conn, r: Recv, cb: Callback)
    requires c.open && (r.Returned? ==> |r.chunk| <= Needed(c.view)) && !Leaves(c.view, r, cb)
    ensures Visited(c, r, cb).open && Visited(c, r, cb).view == ViewAfter(c.view, r)
  {
    hide Receive, Needed;
  }

  function Swept(table: seq<Entry>, p: Poll): (t: seq<Entry>)
    requires ReadsFit(table, p)
    ensures |t| == |table|
  {
    seq(|table|, j requires 0 <= j < |table| =>
      if j < VisitedIn(table, p)
      then table[j].(conn := Visited(table[j].conn, p.recvs[j], p.cbs[j])) else table[j])
  }

  function Remaining(table: seq<Entry>, p: Poll): seq<Entry>
    requires ReadsFit(table, p)
  {
    Stayers(Swept(table, p), Departing(table, p), |table|)
  }

  /** A socket that accept returns is not one of a client that is still connected. */
  predicate AcceptOk(table: seq<Entry>, p: Poll)
    requires ReadsFit(table, p)
  {
    p.accepted.Some? ==>
      forall k :: 0 <= k < |Remaining(table, p)| ==> Remaining(table, p)[k].socket != p.accepted.value
  }

  predicate LegalPoll(table: seq<Entry>, p: Poll) {
    p.Ready? ==> LegalSweep(table, p) && AcceptOk(table, p)
  }

  function AfterPoll(table: seq<Entry>, p: Poll): seq<Entry>
    requires p.Ready? ==> ReadsFit(table, p)
  {
    match p
    case Nothing => table
    case Stop => []
    case Ready(_, _, accepted) =>
      (if accepted.Some? then [Entry(accepted.value, ACCEPTED)] else []) + Remaining(table, p)
  }

  function DeliveredIn(table: seq<Entry>, p: Poll): seq<(int, Decoded)>
    requires p.Ready? ==> ReadsFit(table, p)
  {
    if p.Ready? then DeliveredBy(SocketsOf(table), ViewsOf(table), p.recvs, VisitedIn(table, p))
    else []
  }

  /** A run of the server ends at the first key press. */
  predicate LegalPolls(table: seq<Entry>, ps: seq<Poll>)
    decreases |ps|
  {
    ps == [] || ps[0].Stop? || (LegalPoll(table, ps[0]) && LegalPolls(AfterPoll(table, ps[0]), ps[1..]))
  }

  function AfterPolls(table: seq<Entry>, ps: seq<Poll>): seq<Entry>
    requires LegalPolls(table, ps)
    decreases |ps|
  {
    if ps == [] then table
    else if ps[0].Stop? then []
    else AfterPolls(AfterPoll(table, ps[0]), ps[1..])
  }

  function DeliveredAll(table: seq<Entry>, ps: seq<Poll>): seq<(int, Decoded)>
    requires LegalPolls(table, ps)
    decreases |ps|
  {
    if ps == [] || ps[0].Stop? then []
    else DeliveredIn(table, ps[0]) + DeliveredAll(AfterPoll(table, ps[0]), ps[1..])
  }

  predicate Distinct(ss: seq<int>) {
    forall i, j :: 0 <= i < j < |ss| ==> ss[i] != ss[j]
  }

  // ---------- a client that is put off ----------

  /** Two clients are ready: the first has closed, the second has sent a byte. */
  const TWO_READY := Ready([Returned([]), Returned([4])],
                          [Callback(KeepClient, []), Callback(KeepClient, [])], None)

  /** The first is removed, the loop bound sinks to one, and the second is not read. */
  lemma ReadyClientSkipped()
    ensures var table := [Entry(7, ACCEPTED), Entry(8, ACCEPTED)];
      && LegalPoll(table, TWO_READY)
      && VisitedIn(table, TWO_READY) == 1
      && AfterPoll(table, TWO_READY) == [Entry(8, ACCEPTED)]
  {
    var table := [Entry(7, ACCEPTED), Entry(8, ACCEPTED)];
    var leaving := LeavingOf(ViewsOf(table), TWO_READY.recvs, TWO_READY.cbs);
    assert leaving == [true, false];
    assert Gone(leaving, 1) == 1;
    assert VisitedFrom(leaving, 1) == 1 && VisitedFrom(leaving, 0) == 1;
    assert LegalSweep(table, TWO_READY);
    var (views, recvs, cbs) := (ViewsOf(table), TWO_READY.recvs, TWO_READY.cbs);
    assert PacketOf(views[0], recvs[0]) == None;
    assert forall socket :: !ClosedBefore(views, recvs, cbs, 1, socket) by {
      assert forall socket :: !ClosedBefore(views, recvs, cbs, 0, socket);
    }
    assert Departing(table, TWO_READY) == [true, false];
    assert Swept(table, TWO_READY)[1] == table[1];
    assert Stayers(Swept(table, TWO_READY), [true, false], 1) == [];
  }
}
