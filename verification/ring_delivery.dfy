/** Delivering a message keeps the invariant of RingSafety. */
module RingDelivery {
  import opened Words
  import opened Packets
  import opened Intervals
  import opened Framing
  import opened PeerSteps
  import opened RingMachine
  import opened RingSafety
  import opened RingInvariant

  /** The message `k` is replaced by `m`, which travels one link further. */
  function Replaced(s: State, k: nat, m: Msg): State
    requires k < |s.net|
  {
    s.(net := RemoveAt(s.net, k) + [m])
  }

  /** The reply that names the owner of the looked-up hash. */
  function OwnerReply(cfg: Config, lookup: Msg, i: nat): Msg
    requires cfg.Ok() && i < |cfg.ids|
  {
    var h := lookup.packet.hashId;
    var o := Owner(cfg.ids, h);
    Msg(cfg.addrs[i],
        NewPacket(CTRL + RPLY).(hashId := h, nodeId := cfg.ids[o],
                                nodeIp := cfg.addrs[o].ip, nodePort := cfg.addrs[o].port),
        lookup.links + 1)
  }

  lemma LookupDeliverable(c: Conf, h: uint16)
    ensures var p := LookupPacket(c, h);
      Deliverable(p) && IsControl(p) && Has(p.flags, LKUP)
  {
  }

  lemma ReplyDeliverable(p: Packet)
    requires p == NewPacket(CTRL + RPLY)
      .(hashId := p.hashId, nodeId := p.nodeId, nodeIp := p.nodeIp, nodePort := p.nodePort)
    ensures Deliverable(p) && IsControl(p) && !Has(p.flags, LKUP) && Has(p.flags, RPLY)
  {
  }

  /** Delivering to a known address a packet that arrives intact is handling that packet. */
  lemma DeliverIsHandle(cfg: Config, s: State, k: nat, j: nat)
    requires cfg.Ok() && |s.nodes| == |cfg.ids| && k < |s.net| && j < |cfg.ids|
    requires s.net[k].dest == cfg.addrs[j] && Deliverable(s.net[k].packet)
    ensures Step(cfg, s, Deliver(k))
      == Handled(cfg, s.(net := RemoveAt(s.net, k)), j, s.net[k].links, -1, s.net[k].packet)
  {
    hide Deliverable, OverWire, HandlePacket, PerformAll;
    IndexOfAddr(cfg.addrs, j);
    OverWireIs(s.net[k].packet);
  }

  // ---------- lookups ----------

  lemma LookupFacts(cfg: Config, m: Msg, i: nat, j: nat)
    requires LookupOnItsWay(cfg, m, i, j)
    ensures i < |cfg.ids| && j < |cfg.ids| && cfg.Ok()
    ensures m.dest == cfg.addrs[j] && m.packet == LookupPacket(cfg.Peer(i), m.packet.hashId)
    ensures !Responsible(cfg.ids, j, m.packet.hashId)
  {
    hide Responsible;
    OneOwnerIfCovered(cfg.ids, j, m.packet.hashId);
  }

  /**
   * A lookup that a peer sent never reaches the responsible peer itself; the neighbour in
   * front of that peer answers it with the true owner, any other peer passes it on.
   */
  lemma LookupDelivered(cfg: Config, s: State, k: nat, i: nat, j: nat)
    requires cfg.Ok() && |s.nodes| == |cfg.ids| && k < |s.net|
    requires LookupOnItsWay(cfg, s.net[k], i, j)
    ensures !Responsible(cfg.ids, j, s.net[k].packet.hashId)
    ensures var m := s.net[k]; var succ := Succ(|cfg.ids|, j);
      Step(cfg, s, Deliver(k)) == Replaced(s, k,
        if Responsible(cfg.ids, succ, m.packet.hashId) then OwnerReply(cfg, m, i)
        else Msg(cfg.addrs[succ], m.packet, m.links + 1))
  {
    hide Deliverable, Responsible, PeerIsResponsible, PerformAll, LookupOnItsWay, IsControl, Has;
    var m := s.net[k];
    var h := m.packet.hashId;
    LookupFacts(cfg, m, i, j);
    var succ := Succ(|cfg.ids|, j);
    LookupDeliverable(cfg.Peer(i), h);
    DeliverIsHandle(cfg, s, k, j);
    NeighboursAgree(cfg, j, h);
    var s1 := s.(net := RemoveAt(s.net, k));
    var o := HandlePacket(cfg.Peer(j), s1.nodes[j], -1, m.packet);
    assert o.node == s1.nodes[j] && s1.nodes[j := o.node] == s1.nodes;
    OneOwnerIfCovered(cfg.ids, succ, h);
    assert o.effects == [o.effects[0]];
    PerformOne(cfg, s1, j, m.links, o.effects[0]);
  }

  /** One link further, unless the next peer is the owner, the lookup is still on its way. */
  lemma LookupAdvances(cfg: Config, m: Msg, i: nat, j: nat)
    requires LookupOnItsWay(cfg, m, i, j)
    requires !Responsible(cfg.ids, Succ(|cfg.ids|, j), m.packet.hashId)
    ensures var succ := Succ(|cfg.ids|, j);
      LookupOnItsWay(cfg, Msg(cfg.addrs[succ], m.packet, m.links + 1), i, succ)
  {
    hide Responsible;
    OneOwnerIfCovered(cfg.ids, Succ(|cfg.ids|, j), m.packet.hashId);
  }

  lemma OwnerReplies(cfg: Config, m: Msg, i: nat, j: nat)
    requires LookupOnItsWay(cfg, m, i, j)
    requires Responsible(cfg.ids, Succ(|cfg.ids|, j), m.packet.hashId)
    ensures ReplyOnItsWay(cfg, OwnerReply(cfg, m, i), i)
  {
    hide Responsible;
    var h := m.packet.hashId;
    OneOwnerIfCovered(cfg.ids, Succ(|cfg.ids|, j), h);
    OneOwnerIfCovered(cfg.ids, i, h);
    OneOwnerIfCovered(cfg.ids, Succ(|cfg.ids|, i), h);
  }

  lemma StillConserved(s: State, s': State)
    requires Conserved(s) && s' == s.(net := s'.net)
    ensures Conserved(s')
  {
    hide Arrived, Answered;
    forall i: nat, h {:trigger Arrived(s'.arrivals, i, h)} | i < |s'.nodes|
      ensures Arrived(s'.arrivals, i, h) == Answered(s'.served, i, h) + Pending(s'.nodes[i], h)
    {
      assert Arrived(s.arrivals, i, h) == Answered(s.served, i, h) + Pending(s.nodes[i], h);
    }
  }

  /** Replacing a message by one about the same peer and hash keeps the invariant. */
  lemma ReplacedKeeps(cfg: Config, s: State, k: nat, m: Msg)
    requires Inv(cfg, s) && k < |s.net| && MsgOk(cfg, m)
    requires forall a, h :: About(m, a, h) <==> About(s.net[k], a, h)
    ensures Inv(cfg, Replaced(s, k, m))
  {
    hide Partition, AnswersRight, ParkedRight, MsgOk, About, Conserved, MapAfter;
    var s' := Replaced(s, k, m);
    assert Conserved(s') by { StillConserved(s, s'); }
    forall i, h {:trigger Pending(s'.nodes[i], h)} | 0 <= i < |s'.nodes|
      ensures |Pending(s'.nodes[i], h)| <= Count(s'.net, cfg.addrs[i], h)
    {
      CountOne(RemoveAt(s.net, k), m, cfg.addrs[i], h);
      CountWithout(s.net, k, cfg.addrs[i], h);
      assert |Pending(s.nodes[i], h)| <= Count(s.net, cfg.addrs[i], h);
    }
  }

  lemma OnItsWayIsOk(cfg: Config, m: Msg, i: nat, j: nat)
    requires LookupOnItsWay(cfg, m, i, j) || ReplyOnItsWay(cfg, m, i)
    ensures MsgOk(cfg, m)
  {
    hide LookupOnItsWay, ReplyOnItsWay;
  }

  lemma ReplyIsAboutAsker(cfg: Config, m: Msg, i: nat)
    requires cfg.Ok() && i < |cfg.ids| && m.packet == LookupPacket(cfg.Peer(i), m.packet.hashId)
    ensures forall a, h :: About(OwnerReply(cfg, m, i), a, h) <==> About(m, a, h)
  {
  }

  lemma LookupIsAboutAsker(c: Conf, m: Msg, m': Msg)
    requires m.packet == m'.packet == LookupPacket(c, m.packet.hashId)
    ensures forall a, h :: About(m', a, h) <==> About(m, a, h)
  {
  }

  lemma LookupStep(cfg: Config, s: State, k: nat, i: nat, j: nat)
    requires Inv(cfg, s) && k < |s.net| && LookupOnItsWay(cfg, s.net[k], i, j)
    ensures Inv(cfg, Step(cfg, s, Deliver(k)))
  {
    hide Inv, Responsible, LookupOnItsWay, ReplyOnItsWay, About, Step, Replaced, OwnerReply, MsgOk,
      Refines, ParkedRight, NetOk, LookupPacket;
    Sizes(cfg, s);
    var m := s.net[k];
    LookupFacts(cfg, m, i, j);
    LookupDelivered(cfg, s, k, i, j);
    var succ := Succ(|cfg.ids|, j);
    if Responsible(cfg.ids, succ, m.packet.hashId) {
      OwnerReplies(cfg, m, i, j);
      ReplyIsAboutAsker(cfg, m, i);
      OnItsWayIsOk(cfg, OwnerReply(cfg, m, i), i, i);
      ReplacedKeeps(cfg, s, k, OwnerReply(cfg, m, i));
    } else {
      LookupAdvances(cfg, m, i, j);
      var m' := Msg(cfg.addrs[succ], m.packet, m.links + 1);
      LookupIsAboutAsker(cfg.Peer(i), m, m');
      OnItsWayIsOk(cfg, m', i, succ);
      ReplacedKeeps(cfg, s, k, m');
    }
  }

  // ---------- replies ----------

  /** The reply takes the requests parked for its hash off the table. */
  function Released(s: State, k: nat, i: nat, h: uint16): State
    requires k < |s.net| && i < |s.nodes|
  {
    var node := s.nodes[i];
    s.(net := RemoveAt(s.net, k), nodes := s.nodes[i := node.(pending := node.pending - {h})])
  }

  /** A reply serves, in arrival order, exactly the requests parked for its hash, at the owner. */
  lemma ReplyDelivered(cfg: Config, s: State, k: nat, i: nat)
    requires cfg.Ok() && |s.nodes| == |cfg.ids| && k < |s.net| && ParkedRight(cfg, s.nodes)
    requires ReplyOnItsWay(cfg, s.net[k], i)
    ensures var h := s.net[k].packet.hashId;
      Step(cfg, s, Deliver(k))
      == ServedAll(Released(s, k, i, h), i, Pending(s.nodes[i], h), Owner(cfg.ids, h))
  {
    hide Deliverable, Responsible, PeerIsResponsible, PerformAll, IsControl, Has, Releases, ServedAll,
      IsRequest, Owner, Covered;
    var m := s.net[k];
    var h := m.packet.hashId;
    var o := Owner(cfg.ids, h);
    ReplyDeliverable(m.packet);
    DeliverIsHandle(cfg, s, k, i);
    var rs := Pending(s.nodes[i], h);
    assert AllFor(rs, h);
    OneOwnerIfCovered(cfg.ids, o, h);
    assert HandlePacket(cfg.Peer(i), s.nodes[i], -1, m.packet)
      == Outcome(Released(s, k, i, h).nodes[i], Releases(rs, cfg.addrs[o]), RemoveClient);
    ReleasesServeAll(cfg, Released(s, k, i, h), i, m.links, rs, o);
  }

  lemma ReleasedFacts(cfg: Config, s: State, k: nat, i: nat, h: uint16)
    requires Inv(cfg, s) && k < |s.net| && i < |s.nodes|
    requires forall a, h' :: About(s.net[k], a, h') ==> a == cfg.addrs[i] && h' == h
    ensures var s1 := Released(s, k, i, h);
      Refines(cfg, s1) && ParkedRight(cfg, s1.nodes) && NetOk(cfg, s1.net) && NoOrphans(cfg, s1)
  {
    hide Partition, AnswersRight, MsgOk, About, Conserved, MapAfter, Responsible, AllFor;
    var s1 := Released(s, k, i, h);
    ParksRefines(cfg, s, s1, i);
    forall i', h' {:trigger Pending(s1.nodes[i'], h')} | 0 <= i' < |s1.nodes|
      ensures |Pending(s1.nodes[i'], h')| <= Count(s1.net, cfg.addrs[i'], h')
    {
      CountWithout(s.net, k, cfg.addrs[i'], h');
      assert |Pending(s.nodes[i'], h')| <= Count(s.net, cfg.addrs[i'], h');
      assert i' != i ==> cfg.addrs[i'] != cfg.addrs[i];
    }
  }

  lemma ReplyIsAboutOne(cfg: Config, m: Msg, i: nat)
    requires ReplyOnItsWay(cfg, m, i)
    ensures forall a, h :: About(m, a, h) ==> a == cfg.addrs[i] && h == m.packet.hashId
  {
    hide Owner, Covered;
    ReplyDeliverable(m.packet);
  }

  lemma ReplyConserves(s: State, k: nat, i: nat, h: uint16, o: nat)
    requires Conserved(s) && k < |s.net| && i < |s.nodes| && o < |s.nodes|
    requires AllFor(Pending(s.nodes[i], h), h)
    ensures Conserved(ServedAll(Released(s, k, i, h), i, Pending(s.nodes[i], h), o))
  {
    hide IsRequest, PseudoHash, ServedAll, Arrived, Answered;
    var rs := Pending(s.nodes[i], h);
    var s1 := Released(s, k, i, h);
    var s' := ServedAll(s1, i, rs, o);
    ServedAllKeeps(s1, i, rs, o);
    ServedAllAnswers(s1, i, rs, o, h);
    forall i': nat, h' {:trigger Arrived(s'.arrivals, i', h')} | i' < |s'.nodes|
      ensures Arrived(s'.arrivals, i', h') == Answered(s'.served, i', h') + Pending(s'.nodes[i'], h')
    {
      assert Arrived(s.arrivals, i', h') == Answered(s.served, i', h') + Pending(s.nodes[i'], h');
      assert Pending(s'.nodes[i'], h') == Pending(s1.nodes[i'], h');
    }
  }

  lemma ReplyStep(cfg: Config, s: State, k: nat, i: nat)
    requires Inv(cfg, s) && k < |s.net| && ReplyOnItsWay(cfg, s.net[k], i)
    ensures Inv(cfg, Step(cfg, s, Deliver(k)))
  {
    hide Responsible, About, IsRequest, PseudoHash, ServedBy, ServedAll, Partition, AnswersRight,
      Arrived, Answered, Count, NetOk, NoOrphans, Released, Step;
    var h := s.net[k].packet.hashId;
    var rs := Pending(s.nodes[i], h);
    var s1 := Released(s, k, i, h);
    var o := Owner(cfg.ids, h);
    ReplyDelivered(cfg, s, k, i);
    ReplyIsAboutOne(cfg, s.net[k], i);
    ReleasedFacts(cfg, s, k, i, h);
    OneOwnerIfCovered(cfg.ids, o, h);
    var s' := ServedAll(s1, i, rs, o);
    assert AllFor(rs, h);
    ServedAllRefines(cfg, s1, i, rs, o);
    ServedAllKeeps(s1, i, rs, o);
    SamePendingKeeps(cfg, s1, s');
    ReplyConserves(s, k, i, h, o);
  }

  // ---------- every run ----------

  lemma StepKeepsInv(cfg: Config, s: State, e: Event)
    requires Inv(cfg, s) && Enabled(cfg, s, e)
    ensures Inv(cfg, Step(cfg, s, e))
  {
    hide Inv, Step, LookupOnItsWay, ReplyOnItsWay, Refines;
    match e
    case Client(i, r) => ClientStep(cfg, s, i, r);
    case Deliver(k) =>
      Sizes(cfg, s);
      assert MsgOk(cfg, s.net[k]);
      if i: nat, j: nat :| LookupOnItsWay(cfg, s.net[k], i, j) {
        LookupStep(cfg, s, k, i, j);
      } else {
        var i: nat :| ReplyOnItsWay(cfg, s.net[k], i);
        ReplyStep(cfg, s, k, i);
      }
  }

  /** The invariant holds after every run, and the machine never gets stuck. */
  lemma {:induction false} RunKeepsInv(cfg: Config, s: State, es: seq<Event>)
    requires cfg.Ok() && |s.nodes| == |cfg.ids| && Inv(cfg, s) && AllEnabled(cfg, s, es)
    ensures Inv(cfg, Run(cfg, s, es))
    decreases |es|
  {
    hide Inv, Step;
    if es != [] {
      StepKeepsInv(cfg, s, es[0]);
      Sizes(cfg, Step(cfg, s, es[0]));
      RunKeepsInv(cfg, Step(cfg, s, es[0]), es[1..]);
    }
  }
}
