/** Every step of the ring keeps the invariant of RingSafety. */
module RingInvariant {
  import opened Words
  import opened Packets
  import opened Intervals
  import opened Framing
  import opened PeerSteps
  import opened RingMachine
  import opened RingSafety

  lemma InitInv(cfg: Config)
    requires cfg.Ok()
    ensures Inv(cfg, Init(|cfg.ids|))
  {
  }

  /** Whether two states park the same requests. */
  ghost predicate SamePending(s: State, s': State) {
    && |s.nodes| == |s'.nodes|
    && forall i {:trigger s'.nodes[i]} {:trigger s.nodes[i]} :: 0 <= i < |s.nodes| ==>
      s.nodes[i].pending == s'.nodes[i].pending
  }

  lemma SamePendingKeeps(cfg: Config, s: State, s': State)
    requires cfg.Ok() && |s.nodes| == |cfg.ids|
    requires SamePending(s, s') && s.net == s'.net
    requires ParkedRight(cfg, s.nodes) && NoOrphans(cfg, s)
    ensures ParkedRight(cfg, s'.nodes) && NoOrphans(cfg, s')
  {
    hide Responsible, AllFor, Count;
    forall i, h {:trigger Pending(s'.nodes[i], h)} | 0 <= i < |s'.nodes|
      ensures |Pending(s'.nodes[i], h)| <= Count(s'.net, cfg.addrs[i], h)
    {
      assert Pending(s'.nodes[i], h) == Pending(s.nodes[i], h);
    }
  }

  lemma {:induction false} ServedAllKeeps(s: State, i: nat, rs: seq<Request>, t: nat)
    requires t < |s.nodes|
    ensures var s' := ServedAll(s, i, rs, t);
      SamePending(s, s') && s'.net == s.net && s'.arrivals == s.arrivals
    decreases |rs|
  {
    hide OwnTable, OwnReply, Serialize;
    if rs != [] {
      ServedAllKeeps(ServedBy(s, i, rs[0], t), i, rs[1..], t);
    }
  }

  /** Serving a list of requests for `h` appends them, in order, to what `i` had answered for `h`. */
  lemma {:induction false} ServedAllAnswers(s: State, i: nat, rs: seq<Request>, t: nat, h: uint16)
    requires t < |s.nodes| && AllFor(rs, h)
    ensures forall i': nat, h' {:trigger Answered(s.served, i', h')} ::
      Answered(ServedAll(s, i, rs, t).served, i', h')
      == Answered(s.served, i', h') + if i' == i && h' == h then rs else []
    decreases |rs|
  {
    hide OwnTable, OwnReply, Serialize, PseudoHash, Answered, IsRequest;
    if rs != [] {
      var s1 := ServedBy(s, i, rs[0], t);
      assert AllFor(rs[1..], h);
      ServedAllAnswers(s1, i, rs[1..], t, h);
      forall i': nat, h' {:trigger Answered(s.served, i', h')}
        ensures Answered(ServedAll(s, i, rs, t).served, i', h')
          == Answered(s.served, i', h') + if i' == i && h' == h then rs else []
      {
        AnsweredOne(s.served, s1.served[|s.served|], i', h');
        assert Answered(s1.served, i', h')
          == Answered(s.served, i', h') + if i' == i && h' == h then [rs[0]] else [];
        assert rs == [rs[0]] + rs[1..];
      }
    }
  }

  // ---------- a client's request ----------

  function WithArrival(s: State, i: nat, r: Request): State {
    s.(arrivals := s.arrivals + [Arrival(i, r)])
  }

  lemma NotParked(cfg: Config, s: State, i: nat, h: uint16, t: nat)
    requires cfg.Ok() && |s.nodes| == |cfg.ids| && i < |s.nodes| && t < |s.nodes|
    requires ParkedRight(cfg, s.nodes) && Responsible(cfg.ids, t, h)
    requires t == i || t == Succ(|s.nodes|, i)
    ensures Pending(s.nodes[i], h) == []
  {
    hide Responsible;
  }

  /** The request runs at once, at the entry peer or proxied to its successor. */
  lemma ServedAtOnce(cfg: Config, s: State, i: nat, r: Request, t: nat)
    requires Inv(cfg, s) && i < |s.nodes| && t < |s.nodes| && IsRequest(r.packet)
    requires Responsible(cfg.ids, t, PseudoHash(r.packet.key))
    requires t == i || t == Succ(|s.nodes|, i)
    ensures Inv(cfg, ServedBy(WithArrival(s, i, r), i, r, t))
  {
    hide Responsible, IsRequest, PseudoHash, ServedBy, Partition, AnswersRight, Arrived, Answered,
      Count, NetOk, ParkedRight, NoOrphans;
    var h := PseudoHash(r.packet.key);
    var s1 := WithArrival(s, i, r);
    var s' := ServedBy(s1, i, r, t);
    ServedByRefines(cfg, s1, i, r, t);
    assert s' == ServedAll(s1, i, [r], t);
    ServedAllKeeps(s1, i, [r], t);
    assert AllFor([r], h);
    ServedAllAnswers(s1, i, [r], t, h);
    assert ParkedRight(cfg, s1.nodes) && NoOrphans(cfg, s1) by { SamePendingKeeps(cfg, s, s1); }
    SamePendingKeeps(cfg, s1, s');
    NotParked(cfg, s, i, h, t);
    forall i': nat, h' {:trigger Arrived(s'.arrivals, i', h')} | i' < |s'.nodes|
      ensures Arrived(s'.arrivals, i', h') == Answered(s'.served, i', h') + Pending(s'.nodes[i'], h')
    {
      ArrivedOne(s.arrivals, Arrival(i, r), i', h');
      assert Pending(s'.nodes[i'], h') == Pending(s.nodes[i'], h');
      assert Arrived(s.arrivals, i', h') == Answered(s.served, i', h') + Pending(s.nodes[i'], h');
    }
  }

  /** The request is parked and a lookup leaves for the successor. */
  function ParkedAt(cfg: Config, s: State, i: nat, r: Request): State
    requires |cfg.ids| == |cfg.addrs| == |s.nodes| && i < |s.nodes|
  {
    var h := PseudoHash(r.packet.key);
    var node := s.nodes[i];
    s.(nodes := s.nodes[i := node.(pending := node.pending[h := Pending(node, h) + [r]])],
       net := s.net + [Msg(cfg.addrs[Succ(|s.nodes|, i)], LookupPacket(cfg.Peer(i), h), 1)])
  }

  lemma NewLookupOk(cfg: Config, i: nat, h: uint16)
    requires cfg.Ok() && i < |cfg.ids|
    requires !Responsible(cfg.ids, i, h) && !Responsible(cfg.ids, Succ(|cfg.ids|, i), h)
    ensures var j := Succ(|cfg.ids|, i);
      LookupOnItsWay(cfg, Msg(cfg.addrs[j], LookupPacket(cfg.Peer(i), h), 1), i, j)
  {
    OneOwnerIfCovered(cfg.ids, i, h);
    OneOwnerIfCovered(cfg.ids, Succ(|cfg.ids|, i), h);
  }

  lemma CountOne(net: seq<Msg>, m: Msg, a: Addr, h: uint16)
    ensures Count(net + [m], a, h) == Count(net, a, h) + if About(m, a, h) then 1 else 0
  {
    hide About;
    CountConcat(net, [m], a, h);
    assert Count([m], a, h) == if About(m, a, h) then 1 else 0;
  }

  lemma ParksRefines(cfg: Config, s: State, s': State, i: nat)
    requires Refines(cfg, s) && i < |s.nodes| && s'.served == s.served && s'.stuck == s.stuck
    requires exists ps :: s'.nodes == s.nodes[i := s.nodes[i].(pending := ps)]
    ensures Refines(cfg, s')
  {
    hide Responsible, PseudoHash, AnswersRight, MapAfter, Covered;
    forall j | 0 <= j < |s.nodes| ensures s'.nodes[j].table == s.nodes[j].table {
    }
  }

  lemma ParksNet(cfg: Config, net: seq<Msg>, i: nat, h: uint16)
    requires cfg.Ok() && i < |cfg.ids| && NetOk(cfg, net)
    requires !Responsible(cfg.ids, i, h) && !Responsible(cfg.ids, Succ(|cfg.ids|, i), h)
    ensures NetOk(cfg, net + [Msg(cfg.addrs[Succ(|cfg.ids|, i)], LookupPacket(cfg.Peer(i), h), 1)])
  {
    hide LookupOnItsWay, ReplyOnItsWay, Responsible;
    NewLookupOk(cfg, i, h);
  }

  lemma Parks(cfg: Config, s: State, i: nat, r: Request)
    requires Inv(cfg, s) && i < |s.nodes| && IsRequest(r.packet)
    requires var h := PseudoHash(r.packet.key);
      !Responsible(cfg.ids, i, h) && !Responsible(cfg.ids, Succ(|s.nodes|, i), h)
    ensures Inv(cfg, ParkedAt(cfg, WithArrival(s, i, r), i, r))
  {
    hide Responsible, IsRequest, PseudoHash, Partition, AnswersRight, Arrived, Answered, Count, NetOk,
      LookupOnItsWay, MapAfter;
    var h := PseudoHash(r.packet.key);
    var s' := ParkedAt(cfg, WithArrival(s, i, r), i, r);
    ParksRefines(cfg, s, s', i);
    ParksNet(cfg, s.net, i, h);
    var m := s'.net[|s.net|];
    var j := Succ(|s.nodes|, i);
    forall i', h' {:trigger Pending(s'.nodes[i'], h')} | 0 <= i' < |s'.nodes|
      ensures |Pending(s'.nodes[i'], h')| <= Count(s'.net, cfg.addrs[i'], h')
    {
      CountOne(s.net, m, cfg.addrs[i'], h');
      assert |Pending(s.nodes[i'], h')| <= Count(s.net, cfg.addrs[i'], h');
    }
    forall i': nat, h' {:trigger Arrived(s'.arrivals, i', h')} | i' < |s'.nodes|
      ensures Arrived(s'.arrivals, i', h') == Answered(s'.served, i', h') + Pending(s'.nodes[i'], h')
    {
      ArrivedOne(s.arrivals, Arrival(i, r), i', h');
      assert Arrived(s.arrivals, i', h') == Answered(s.served, i', h') + Pending(s.nodes[i'], h');
    }
  }

  lemma Sizes(cfg: Config, s: State)
    requires Inv(cfg, s)
    ensures cfg.Ok() && |s.nodes| == |cfg.ids| && Refines(cfg, s) && ParkedRight(cfg, s.nodes)
    ensures NetOk(cfg, s.net)
  {
  }

  /** The successor's predecessor is the peer itself, so both judge the successor alike. */
  lemma NeighboursAgree(cfg: Config, i: nat, h: uint16)
    requires cfg.Ok() && i < |cfg.ids|
    ensures var c := cfg.Peer(i);
      && (PeerIsResponsible(c.predId, c.selfId, h) <==> Responsible(cfg.ids, i, h))
      && (PeerIsResponsible(c.selfId, c.succId, h) <==> Responsible(cfg.ids, Succ(|cfg.ids|, i), h))
  {
    hide PeerIsResponsible;
    assert Pred(|cfg.ids|, Succ(|cfg.ids|, i)) == i;
  }

  lemma PerformSize(cfg: Config, s: State, i: nat, links: nat, e: Effect)
    requires |cfg.ids| == |cfg.addrs| == |s.nodes|
    ensures |Perform(cfg, s, i, links, e).nodes| == |s.nodes|
  {
    hide OverWire, HandlePacket, IndexOf;
  }

  lemma PerformOne(cfg: Config, s: State, i: nat, links: nat, e: Effect)
    requires |cfg.ids| == |cfg.addrs| == |s.nodes|
    ensures PerformAll(cfg, s, i, links, [e]) == Perform(cfg, s, i, links, e)
  {
    hide Perform;
    assert |Perform(cfg, s, i, links, e).nodes| == |s.nodes| by { PerformSize(cfg, s, i, links, e); }
    assert [e][1..] == [];
  }

  lemma ClientServed(cfg: Config, s: State, i: nat, r: Request)
    requires cfg.Ok() && |s.nodes| == |cfg.ids| && Enabled(cfg, s, Client(i, r))
    requires Responsible(cfg.ids, i, PseudoHash(r.packet.key))
    ensures Step(cfg, s, Client(i, r)) == ServedBy(WithArrival(s, i, r), i, r, i)
  {
    hide Deliverable, PseudoHash, Responsible, PeerIsResponsible, OwnReply, OwnTable, Serialize,
      PerformAll;
    NeighboursAgree(cfg, i, PseudoHash(r.packet.key));
    var s1 := WithArrival(s, i, r);
    var o := HandlePacket(cfg.Peer(i), s1.nodes[i], r.socket, r.packet);
    PerformOne(cfg, s1.(nodes := s1.nodes[i := o.node]), i, 0, o.effects[0]);
    assert o.effects == [o.effects[0]];
  }

  lemma ClientProxied(cfg: Config, s: State, i: nat, r: Request)
    requires cfg.Ok() && |s.nodes| == |cfg.ids| && Enabled(cfg, s, Client(i, r))
    requires var h := PseudoHash(r.packet.key); var j := Succ(|s.nodes|, i);
      !Responsible(cfg.ids, i, h) && Responsible(cfg.ids, j, h)
    ensures Step(cfg, s, Client(i, r))
      == ServedBy(WithArrival(s, i, r), i, r, Succ(|s.nodes|, i))
  {
    hide Deliverable, PseudoHash, Responsible, PeerIsResponsible, Perform, ServedBy;
    var j := Succ(|s.nodes|, i);
    var s1 := WithArrival(s, i, r);
    NeighboursAgree(cfg, i, PseudoHash(r.packet.key));
    ProxyHandledLocally(cfg, s1, i, 0, r, j);
    assert s1.nodes[i := s1.nodes[i]] == s1.nodes;
    var o := HandlePacket(cfg.Peer(i), s1.nodes[i], r.socket, r.packet);
    assert o == Outcome(s1.nodes[i], [Proxy(r.socket, r.packet, cfg.addrs[j])], RemoveClient);
    assert |ServedBy(s1, i, r, j).nodes| == |s1.nodes| by { SameSize(s1, i, r, j); }
    PerformOne(cfg, s1, i, 0, o.effects[0]);
  }

  lemma ClientParked(cfg: Config, s: State, i: nat, r: Request)
    requires cfg.Ok() && |s.nodes| == |cfg.ids| && Enabled(cfg, s, Client(i, r))
    requires var h := PseudoHash(r.packet.key);
      !Responsible(cfg.ids, i, h) && !Responsible(cfg.ids, Succ(|s.nodes|, i), h)
    ensures Step(cfg, s, Client(i, r)) == ParkedAt(cfg, WithArrival(s, i, r), i, r)
  {
    hide Deliverable, PseudoHash, Responsible, PeerIsResponsible, PerformAll, LookupPacket;
    NeighboursAgree(cfg, i, PseudoHash(r.packet.key));
    var s1 := WithArrival(s, i, r);
    var o := HandlePacket(cfg.Peer(i), s1.nodes[i], r.socket, r.packet);
    PerformOne(cfg, s1.(nodes := s1.nodes[i := o.node]), i, 0, o.effects[0]);
    assert o.effects == [o.effects[0]];
  }

  lemma ClientStep(cfg: Config, s: State, i: nat, r: Request)
    requires Inv(cfg, s) && Enabled(cfg, s, Client(i, r))
    ensures Inv(cfg, Step(cfg, s, Client(i, r)))
  {
    hide Inv, Deliverable;
    Sizes(cfg, s);
    var h := PseudoHash(r.packet.key);
    var j := Succ(|s.nodes|, i);
    if Responsible(cfg.ids, i, h) {
      ServedAtOnce(cfg, s, i, r, i);
      ClientServed(cfg, s, i, r);
    } else if Responsible(cfg.ids, j, h) {
      ServedAtOnce(cfg, s, i, r, j);
      ClientProxied(cfg, s, i, r);
    } else {
      Parks(cfg, s, i, r);
      ClientParked(cfg, s, i, r);
    }
  }
}
