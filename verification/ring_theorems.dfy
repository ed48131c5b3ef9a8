/** The promises of the ring: safety of every run, and when the network drains. */
module RingTheorems {
  import opened Words
  import opened Packets
  import opened Intervals
  import opened Framing
  import opened PeerSteps
  import opened RingMachine
  import opened RingSafety
  import opened RingInvariant
  import opened RingDelivery

  /**
   * In every run from empty tables, whatever the clients send and in whatever order packets
   * are delivered: each client reads what one global map answers, requests taken in the order
   * in which their owners ran them; each entry of that map is stored at the peer responsible
   * for it and nowhere else; no packet is lost between two peers and no request is proxied
   * twice; per entry peer and hash, requests are answered in the order of their arrival.
   */
  lemma EveryRunIsOneMap(cfg: Config, es: seq<Event>)
    requires cfg.Ok() && AllEnabled(cfg, Init(|cfg.ids|), es)
    ensures var s := Run(cfg, Init(|cfg.ids|), es);
      && !s.stuck
      && AnswersRight(s.served)
      && Partition(cfg, s.nodes, MapAfter(s.served))
      && Conserved(s)
      && NoOrphans(cfg, s)
  {
    hide Init, AnswersRight, Partition, Conserved, NoOrphans;
    InitInv(cfg);
    RunKeepsInv(cfg, Init(|cfg.ids|), es);
  }

  /** A quiet network has answered everything that ever arrived, in order. */
  lemma QuietMeansAnswered(cfg: Config, s: State)
    requires Inv(cfg, s) && s.net == []
    ensures forall i: nat, h :: i < |s.nodes| ==> Pending(s.nodes[i], h) == []
    ensures forall i: nat, h :: i < |s.nodes| ==>
      Arrived(s.arrivals, i, h) == Answered(s.served, i, h)
  {
    hide Arrived, Answered, Partition, AnswersRight, ParkedRight;
    forall i: nat, h | i < |s.nodes|
      ensures Pending(s.nodes[i], h) == []
      ensures Arrived(s.arrivals, i, h) == Answered(s.served, i, h)
    {
      assert |Pending(s.nodes[i], h)| <= Count(s.net, cfg.addrs[i], h);
      assert Answered(s.served, i, h) + [] == Answered(s.served, i, h);
    }
  }

  /** A lookup for a covered hash crosses at most n - 2 links and never reaches the owner. */
  lemma LookupBound(cfg: Config, s: State, k: nat)
    requires Inv(cfg, s) && k < |s.net|
    requires Has(s.net[k].packet.flags, LKUP) && Covered(cfg.ids, s.net[k].packet.hashId)
    ensures 1 <= s.net[k].links <= |cfg.ids| - 2
    ensures s.net[k].dest != cfg.addrs[Owner(cfg.ids, s.net[k].packet.hashId)]
  {
    hide Partition, AnswersRight, ParkedRight, Conserved, NoOrphans, Responsible, Owner, MapAfter;
    var m := s.net[k];
    assert MsgOk(cfg, m);
    if i: nat :| ReplyOnItsWay(cfg, m, i) {
      assert false;
    } else {
      var i: nat, j: nat :| LookupOnItsWay(cfg, m, i, j);
      LookupFacts(cfg, m, i, j);
      OneOwnerIfCovered(cfg.ids, j, m.packet.hashId);
    }
  }

  /** Peer `i`, not responsible itself, asked, and `links` successors on is the destination. */
  predicate AskedBy(cfg: Config, m: Msg, i: nat)
    requires cfg.Ok()
  {
    var (n, p) := (|cfg.ids|, m.packet);
    && i < n && p.nodeId == cfg.ids[i] && Addr(p.nodeIp, p.nodePort) == cfg.addrs[i]
    && !Responsible(cfg.ids, i, p.hashId)
    && m.dest == cfg.addrs[Walk(n, i, m.links)]
  }

  /** Every lookup in flight carries the id and address of the peer that asked. */
  lemma LookupsNameAsker(cfg: Config, s: State, k: nat)
    requires Inv(cfg, s) && k < |s.net| && Has(s.net[k].packet.flags, LKUP)
    ensures exists i: nat :: AskedBy(cfg, s.net[k], i)
  {
    hide Partition, AnswersRight, ParkedRight, Conserved, NoOrphans, Responsible, Owner, MapAfter;
    var m := s.net[k];
    assert MsgOk(cfg, m);
    if i: nat :| ReplyOnItsWay(cfg, m, i) {
      assert false;
    } else {
      var i: nat, j: nat :| LookupOnItsWay(cfg, m, i, j);
      assert AskedBy(cfg, m, i);
    }
  }

  /** Every reply in flight names the true owner and goes to a peer that is not its neighbour. */
  lemma RepliesNameOwner(cfg: Config, s: State, k: nat)
    requires Inv(cfg, s) && k < |s.net| && !Has(s.net[k].packet.flags, LKUP)
    ensures var p := s.net[k].packet; var o := Owner(cfg.ids, p.hashId);
      p.nodeId == cfg.ids[o] && Addr(p.nodeIp, p.nodePort) == cfg.addrs[o]
      && Responsible(cfg.ids, o, p.hashId)
  {
    hide Partition, AnswersRight, ParkedRight, Conserved, NoOrphans, Responsible, Owner, MapAfter;
    var m := s.net[k];
    assert MsgOk(cfg, m);
    OneOwnerIfCovered(cfg.ids, Owner(cfg.ids, m.packet.hashId), m.packet.hashId);
    if i: nat, j: nat :| LookupOnItsWay(cfg, m, i, j) {
      LookupFacts(cfg, m, i, j);
      LookupDeliverable(cfg.Peer(i), m.packet.hashId);
      assert false;
    }
  }

  // ---------- draining ----------

  /**
   * The deliveries that a message for a covered hash still causes: the links to the owner's
   * neighbour and a reply.
   */
  function Weight(cfg: Config, m: Msg): nat {
    if !cfg.Ok() || !Covered(cfg.ids, m.packet.hashId) then 0
    else if !Has(m.packet.flags, LKUP) then 1
    else
      match IndexOf(cfg.addrs, m.dest)
      case Some(j) =>
        var n := |cfg.ids|;
        if j < n then 2 + Dist(n, j, Pred(n, Owner(cfg.ids, m.packet.hashId))) else 1
      case None => 1
  }

  function Total(net: seq<Msg>, weight: Msg -> nat): nat {
    if net == [] then 0 else weight(net[0]) + Total(net[1..], weight)
  }

  function WeightOf(cfg: Config): Msg -> nat {
    (m: Msg) => Weight(cfg, m)
  }

  /** The deliveries that the messages in flight still cause. */
  function Measure(cfg: Config, net: seq<Msg>): nat {
    Total(net, WeightOf(cfg))
  }

  lemma {:induction false} TotalConcat(xs: seq<Msg>, ys: seq<Msg>, weight: Msg -> nat)
    ensures Total(xs + ys, weight) == Total(xs, weight) + Total(ys, weight)
    decreases |xs|
  {
    if xs == [] {
      assert xs + ys == ys;
    } else {
      assert (xs + ys)[1..] == xs[1..] + ys;
      TotalConcat(xs[1..], ys, weight);
    }
  }

  lemma TotalOne(m: Msg, weight: Msg -> nat)
    ensures Total([m], weight) == weight(m)
  {
  }

  /** One message is taken off and others are sent. */
  lemma TotalAfter(net: seq<Msg>, k: nat, sent: seq<Msg>, weight: Msg -> nat)
    requires k < |net|
    ensures Total(RemoveAt(net, k) + sent, weight) + weight(net[k])
      == Total(net, weight) + Total(sent, weight)
  {
    hide Total;
    assert net == net[..k] + ([net[k]] + net[k + 1..]);
    TotalConcat(net[..k], [net[k]] + net[k + 1..], weight);
    TotalConcat([net[k]], net[k + 1..], weight);
    TotalConcat(net[..k], net[k + 1..], weight);
    TotalConcat(RemoveAt(net, k), sent, weight);
    TotalOne(net[k], weight);
  }

  predicate NoneCovered(cfg: Config, net: seq<Msg>)
    requires cfg.Ok()
  {
    forall k :: 0 <= k < |net| ==> !Covered(cfg.ids, net[k].packet.hashId)
  }

  predicate AllCovered(cfg: Config, net: seq<Msg>)
    requires cfg.Ok()
  {
    forall k :: 0 <= k < |net| ==> Covered(cfg.ids, net[k].packet.hashId)
  }

  lemma LookupWeight(cfg: Config, m: Msg, i: nat, j: nat)
    requires LookupOnItsWay(cfg, m, i, j) && Covered(cfg.ids, m.packet.hashId)
    ensures var n := |cfg.ids|;
      Weight(cfg, m) == 2 + Dist(n, j, Pred(n, Owner(cfg.ids, m.packet.hashId)))
  {
    hide Responsible, Owner, Dist, IndexOf, Covered;
    LookupFacts(cfg, m, i, j);
    IndexOfAddr(cfg.addrs, j);
    LookupDeliverable(cfg.Peer(i), m.packet.hashId);
  }

  lemma LookupWeightNext(cfg: Config, m: Msg, i: nat, j: nat)
    requires LookupOnItsWay(cfg, m, i, j) && Covered(cfg.ids, m.packet.hashId)
    requires !Responsible(cfg.ids, Succ(|cfg.ids|, j), m.packet.hashId)
    ensures var succ := Succ(|cfg.ids|, j);
      Weight(cfg, Msg(cfg.addrs[succ], m.packet, m.links + 1)) + 1 == Weight(cfg, m)
  {
    hide Responsible, Owner, Weight, LookupOnItsWay, Covered;
    LookupFacts(cfg, m, i, j);
    var succ := Succ(|cfg.ids|, j);
    LookupWeight(cfg, m, i, j);
    LookupAdvances(cfg, m, i, j);
    LookupWeight(cfg, Msg(cfg.addrs[succ], m.packet, m.links + 1), i, succ);
    OneOwnerIfCovered(cfg.ids, succ, m.packet.hashId);
  }

  lemma ReplyHash(cfg: Config, m: Msg, i: nat)
    requires cfg.Ok() && i < |cfg.ids|
    ensures OwnerReply(cfg, m, i).packet.hashId == m.packet.hashId
  {
  }

  lemma UncoveredWeightless(cfg: Config, m: Msg)
    requires cfg.Ok() && !Covered(cfg.ids, m.packet.hashId)
    ensures Weight(cfg, m) == 0
  {
  }

  lemma ReplyWeight(cfg: Config, m: Msg, i: nat)
    requires ReplyOnItsWay(cfg, m, i)
    ensures Weight(cfg, m) == 1
  {
    hide IndexOf, Owner, Dist;
  }

  lemma ReplyWeightNext(cfg: Config, m: Msg, i: nat, j: nat)
    requires LookupOnItsWay(cfg, m, i, j) && Covered(cfg.ids, m.packet.hashId)
    requires Responsible(cfg.ids, Succ(|cfg.ids|, j), m.packet.hashId)
    ensures Weight(cfg, OwnerReply(cfg, m, i)) + 1 == Weight(cfg, m)
  {
    hide LookupOnItsWay, Responsible, Owner, IndexOf, Covered;
    LookupFacts(cfg, m, i, j);
    LookupWeight(cfg, m, i, j);
    OneOwnerIfCovered(cfg.ids, Succ(|cfg.ids|, j), m.packet.hashId);
  }

  lemma ReplyTakenOff(cfg: Config, s: State, k: nat, i: nat)
    requires Inv(cfg, s) && k < |s.net| && ReplyOnItsWay(cfg, s.net[k], i)
    ensures Step(cfg, s, Deliver(k)).net == RemoveAt(s.net, k)
    ensures Step(cfg, s, Deliver(k)).arrivals == s.arrivals
  {
    hide Inv, Step, Responsible, Refines, Covered, Pending, ServedAll, Partition, NoOrphans, Conserved;
    Sizes(cfg, s);
    ReplyDelivered(cfg, s, k, i);
    var h := s.net[k].packet.hashId;
    ServedAllKeeps(Released(s, k, i, h), i, Pending(s.nodes[i], h), Owner(cfg.ids, h));
  }

  lemma ReplyCovered(cfg: Config, m: Msg, i: nat)
    requires ReplyOnItsWay(cfg, m, i)
    ensures Covered(cfg.ids, m.packet.hashId)
  {
  }

  /** What a message is to `m`: for the same peer and hash, and one delivery nearer to its end. */
  ghost predicate Follows(cfg: Config, m: Msg, next: Msg)
    requires cfg.Ok()
  {
    && next.packet.hashId == m.packet.hashId
    && (forall a, h :: About(next, a, h) <==> About(m, a, h))
    && if Covered(cfg.ids, m.packet.hashId) then Weight(cfg, next) + 1 == Weight(cfg, m)
       else Weight(cfg, next) == Weight(cfg, m) == 0
  }

  lemma LookupFollows(cfg: Config, m: Msg, i: nat, j: nat)
    requires LookupOnItsWay(cfg, m, i, j)
    ensures var succ := Succ(|cfg.ids|, j);
      Follows(cfg, m, if Responsible(cfg.ids, succ, m.packet.hashId) then OwnerReply(cfg, m, i)
                      else Msg(cfg.addrs[succ], m.packet, m.links + 1))
  {
    hide Responsible, LookupOnItsWay, Covered, Weight, OwnerReply, About, LookupPacket;
    LookupFacts(cfg, m, i, j);
    var succ := Succ(|cfg.ids|, j);
    OneOwnerIfCovered(cfg.ids, succ, m.packet.hashId);
    if Responsible(cfg.ids, succ, m.packet.hashId) {
      ReplyHash(cfg, m, i);
      ReplyIsAboutAsker(cfg, m, i);
      ReplyWeightNext(cfg, m, i, j);
    } else {
      var m' := Msg(cfg.addrs[succ], m.packet, m.links + 1);
      LookupIsAboutAsker(cfg.Peer(i), m, m');
      if Covered(cfg.ids, m.packet.hashId) {
        LookupWeightNext(cfg, m, i, j);
      } else {
        UncoveredWeightless(cfg, m);
        UncoveredWeightless(cfg, m');
      }
    }
  }

  /** A delivered lookup leaves one message that follows it; a reply leaves none. */
  lemma DeliveryNet(cfg: Config, s: State, k: nat) returns (sent: seq<Msg>)
    requires Inv(cfg, s) && k < |s.net|
    ensures var next := Step(cfg, s, Deliver(k)); var m := s.net[k];
      && next.arrivals == s.arrivals
      && next.net == RemoveAt(s.net, k) + sent
      && ((sent == [] && Weight(cfg, m) == 1 && exists i: nat :: ReplyOnItsWay(cfg, m, i))
          || (|sent| == 1 && Follows(cfg, m, sent[0])))
  {
    hide Inv, Step, Responsible, LookupOnItsWay, ReplyOnItsWay, Refines, ParkedRight, Covered, Weight,
      Pending, OwnerReply, ServedAll, Released, About;
    Sizes(cfg, s);
    var m := s.net[k];
    assert MsgOk(cfg, m);
    if i: nat, j: nat :| LookupOnItsWay(cfg, m, i, j) {
      LookupFacts(cfg, m, i, j);
      LookupDelivered(cfg, s, k, i, j);
      var succ := Succ(|cfg.ids|, j);
      var m' := if Responsible(cfg.ids, succ, m.packet.hashId) then OwnerReply(cfg, m, i)
                else Msg(cfg.addrs[succ], m.packet, m.links + 1);
      LookupFollows(cfg, m, i, j);
      sent := [m'];
    } else {
      var i: nat :| ReplyOnItsWay(cfg, m, i);
      ReplyTakenOff(cfg, s, k, i);
      ReplyCovered(cfg, m, i);
      ReplyWeight(cfg, m, i);
      sent := [];
      assert RemoveAt(s.net, k) + [] == RemoveAt(s.net, k);
    }
  }

  lemma SentCovered(cfg: Config, net: seq<Msg>, k: nat, sent: seq<Msg>)
    requires cfg.Ok() && k < |net| && |sent| <= 1
    requires sent != [] ==> sent[0].packet.hashId == net[k].packet.hashId
    ensures AllCovered(cfg, net) ==> AllCovered(cfg, RemoveAt(net, k) + sent)
  {
    hide Covered;
  }

  lemma SentTotal(sent: seq<Msg>, weight: Msg -> nat)
    requires |sent| <= 1
    ensures Total(sent, weight) == if sent == [] then 0 else weight(sent[0])
  {
  }

  /**
   * Each delivery for a covered hash takes one off the measure; a delivery for an uncovered one
   * leaves it alone.
   */
  lemma DeliveryShrinks(cfg: Config, s: State, k: nat)
    requires Inv(cfg, s) && k < |s.net|
    ensures var next := Step(cfg, s, Deliver(k)).net;
      if Covered(cfg.ids, s.net[k].packet.hashId) then Measure(cfg, next) + 1 == Measure(cfg, s.net)
      else Measure(cfg, next) == Measure(cfg, s.net)
    ensures AllCovered(cfg, s.net) ==> AllCovered(cfg, Step(cfg, s, Deliver(k)).net)
    ensures Step(cfg, s, Deliver(k)).arrivals == s.arrivals
  {
    hide Inv, Step, Covered, Weight, Total, About, AllCovered, RemoveAt, Refines, ParkedRight, NetOk;
    Sizes(cfg, s);
    var sent := DeliveryNet(cfg, s, k);
    TotalAfter(s.net, k, sent, WeightOf(cfg));
    SentTotal(sent, WeightOf(cfg));
    SentCovered(cfg, s.net, k, sent);
  }

  predicate OnlyDeliveries(es: seq<Event>) {
    forall e :: e in es ==> e.Deliver?
  }

  /** The deliveries of a schedule whose message is for a covered hash. */
  function CoveredDeliveries(cfg: Config, s: State, es: seq<Event>): nat
    requires cfg.Ok() && |s.nodes| == |cfg.ids| && AllEnabled(cfg, s, es) && OnlyDeliveries(es)
    decreases |es|
  {
    if es == [] then 0
    else (if Covered(cfg.ids, s.net[es[0].k].packet.hashId) then 1 else 0)
         + CoveredDeliveries(cfg, Step(cfg, s, es[0]), es[1..])
  }

  /**
   * However deliveries are scheduled, and however often lookups for uncovered hashes go round,
   * messages for covered hashes are delivered exactly as often as the measure goes down.
   */
  lemma {:induction false} DeliveriesCounted(cfg: Config, s: State, es: seq<Event>)
    requires cfg.Ok() && |s.nodes| == |cfg.ids| && Inv(cfg, s)
    requires AllEnabled(cfg, s, es) && OnlyDeliveries(es)
    ensures CoveredDeliveries(cfg, s, es) + Measure(cfg, Run(cfg, s, es).net)
      == Measure(cfg, s.net)
    ensures AllCovered(cfg, s.net) ==> CoveredDeliveries(cfg, s, es) == |es|
    ensures Run(cfg, s, es).arrivals == s.arrivals
    decreases |es|
  {
    hide Inv, Step, Measure, Covered;
    if es != [] {
      var k := es[0].k;
      StepKeepsInv(cfg, s, es[0]);
      Sizes(cfg, Step(cfg, s, es[0]));
      DeliveryShrinks(cfg, s, k);
      DeliveriesCounted(cfg, Step(cfg, s, es[0]), es[1..]);
    }
  }

  lemma {:induction false} NoneCoveredMeasure(cfg: Config, net: seq<Msg>)
    requires cfg.Ok() && NoneCovered(cfg, net)
    ensures Measure(cfg, net) == 0
    decreases |net|
  {
    hide Covered, Owner, Dist, IndexOf, Has;
    if net != [] {
      NoneCoveredMeasure(cfg, net[1..]);
    }
  }

  /** Delivering messages for covered hashes, as long as there are any, leaves none of them. */
  lemma {:induction false} CoveredDrain(cfg: Config, s: State) returns (es: seq<Event>)
    requires cfg.Ok() && |s.nodes| == |cfg.ids| && Inv(cfg, s)
    ensures AllEnabled(cfg, s, es) && OnlyDeliveries(es) && |es| == Measure(cfg, s.net)
    ensures NoneCovered(cfg, Run(cfg, s, es).net)
    ensures AllCovered(cfg, s.net) ==> AllCovered(cfg, Run(cfg, s, es).net)
    decreases Measure(cfg, s.net)
  {
    hide Inv, Step, AllCovered, Measure, Covered;
    if k :| 0 <= k < |s.net| && Covered(cfg.ids, s.net[k].packet.hashId) {
      var e := Deliver(k);
      StepKeepsInv(cfg, s, e);
      Sizes(cfg, Step(cfg, s, e));
      DeliveryShrinks(cfg, s, k);
      var rest := CoveredDrain(cfg, Step(cfg, s, e));
      es := [e] + rest;
      assert es[1..] == rest;
    } else {
      es := [];
      NoneCoveredMeasure(cfg, s.net);
    }
  }

  lemma SomethingCovered(cfg: Config, net: seq<Msg>)
    requires cfg.Ok() && AllCovered(cfg, net) && net != []
    ensures !NoneCovered(cfg, net)
  {
    hide Covered;
    assert Covered(cfg.ids, net[0].packet.hashId);
  }

  /** With covered hashes only, the network can be emptied. */
  lemma Drains(cfg: Config, s: State) returns (es: seq<Event>)
    requires cfg.Ok() && |s.nodes| == |cfg.ids| && Inv(cfg, s) && AllCovered(cfg, s.net)
    ensures AllEnabled(cfg, s, es) && OnlyDeliveries(es) && |es| == Measure(cfg, s.net)
    ensures Run(cfg, s, es).net == []
  {
    hide Inv, AllCovered, NoneCovered, Measure, Run, AllEnabled, OnlyDeliveries;
    es := CoveredDrain(cfg, s);
    if Run(cfg, s, es).net != [] {
      SomethingCovered(cfg, Run(cfg, s, es).net);
    }
  }

  // ---------- uncovered hashes ----------

  /** A client's request changes the network only by the lookup it may send. */
  lemma ClientSends(cfg: Config, s: State, i: nat, r: Request) returns (sent: seq<Msg>)
    requires Inv(cfg, s) && Enabled(cfg, s, Client(i, r))
    ensures cfg.Ok() && i < |cfg.ids| == |s.nodes|
    ensures Step(cfg, s, Client(i, r)).net == s.net + sent
    ensures var h := PseudoHash(r.packet.key); var succ := Succ(|cfg.ids|, i);
      if Responsible(cfg.ids, i, h) || Responsible(cfg.ids, succ, h) then sent == []
      else (sent == [Msg(cfg.addrs[succ], LookupPacket(cfg.Peer(i), h), 1)]
          && LookupOnItsWay(cfg, sent[0], i, succ))
  {
    hide Inv, Step, Deliverable, Responsible, PseudoHash, OwnReply, OwnTable, Serialize,
      LookupOnItsWay, LookupPacket;
    Sizes(cfg, s);
    var h := PseudoHash(r.packet.key);
    var succ := Succ(|s.nodes|, i);
    if Responsible(cfg.ids, i, h) {
      ClientServed(cfg, s, i, r);
      sent := [];
    } else if Responsible(cfg.ids, succ, h) {
      ClientProxied(cfg, s, i, r);
      sent := [];
    } else {
      ClientParked(cfg, s, i, r);
      NewLookupOk(cfg, i, h);
      sent := [Msg(cfg.addrs[succ], LookupPacket(cfg.Peer(i), h), 1)];
    }
    assert s.net + [] == s.net;
  }

  lemma UncoveredPrefix(cfg: Config, net: seq<Msg>, sent: seq<Msg>)
    requires cfg.Ok() && !AllCovered(cfg, net)
    ensures !AllCovered(cfg, net + sent)
  {
    hide Covered;
    var u :| 0 <= u < |net| && !Covered(cfg.ids, net[u].packet.hashId);
    assert (net + sent)[u] == net[u];
  }

  lemma UncoveredOthers(cfg: Config, net: seq<Msg>, k: nat)
    requires cfg.Ok() && !AllCovered(cfg, net) && k < |net|
    ensures Covered(cfg.ids, net[k].packet.hashId) ==> !AllCovered(cfg, RemoveAt(net, k))
    ensures forall m: Msg {:trigger [m]} :: m.packet.hashId == net[k].packet.hashId ==>
      !AllCovered(cfg, RemoveAt(net, k) + [m])
  {
    hide Covered;
    var u :| 0 <= u < |net| && !Covered(cfg.ids, net[u].packet.hashId);
    var rest := RemoveAt(net, k);
    assert u < k ==> rest[u] == net[u];
    assert u > k ==> rest[u - 1] == net[u];
    forall m: Msg {:trigger [m]} | m.packet.hashId == net[k].packet.hashId ensures !AllCovered(cfg, rest + [m]) {
      var v := if u < k then u else if u > k then u - 1 else |rest|;
      assert !Covered(cfg.ids, (rest + [m])[v].packet.hashId);
    }
  }

  /** A lookup for an uncovered hash circulates for ever: no step ever removes the last one. */
  lemma UncoveredStays(cfg: Config, s: State, e: Event)
    requires Inv(cfg, s) && Enabled(cfg, s, e) && !AllCovered(cfg, s.net)
    ensures !AllCovered(cfg, Step(cfg, s, e).net)
  {
    hide Inv, Step, Covered, AllCovered, PseudoHash, Deliverable, Refines, ParkedRight, RemoveAt;
    Sizes(cfg, s);
    match e
    case Client(i, r) =>
      var sent := ClientSends(cfg, s, i, r);
      UncoveredPrefix(cfg, s.net, sent);
    case Deliver(k) =>
      var sent := DeliveryNet(cfg, s, k);
      UncoveredOthers(cfg, s.net, k);
      assert sent == [] ==> RemoveAt(s.net, k) + sent == RemoveAt(s.net, k);
      assert |sent| == 1 ==> sent == [sent[0]];
  }

  lemma {:induction false} UncoveredNeverDrains(cfg: Config, s: State, es: seq<Event>)
    requires cfg.Ok() && |s.nodes| == |cfg.ids| && Inv(cfg, s) && AllEnabled(cfg, s, es)
    requires !AllCovered(cfg, s.net)
    ensures !AllCovered(cfg, Run(cfg, s, es).net) && Run(cfg, s, es).net != []
    decreases |es|
  {
    if es == [] {
      assert s.net != [];
    } else {
      hide Inv, Step, AllCovered;
      StepKeepsInv(cfg, s, es[0]);
      Sizes(cfg, Step(cfg, s, es[0]));
      UncoveredStays(cfg, s, es[0]);
      UncoveredNeverDrains(cfg, Step(cfg, s, es[0]), es[1..]);
    }
  }

  /** The network can become quiet exactly when every hash in flight is above the smallest id. */
  lemma DrainsExactly(cfg: Config, s: State)
    requires cfg.Ok() && |s.nodes| == |cfg.ids| && Inv(cfg, s)
    ensures AllCovered(cfg, s.net) <==>
      exists es :: AllEnabled(cfg, s, es) && Run(cfg, s, es).net == []
  {
    hide Inv, AllCovered, AllEnabled;
    if AllCovered(cfg, s.net) {
      var es := Drains(cfg, s);
    } else {
      forall es | AllEnabled(cfg, s, es) ensures Run(cfg, s, es).net != [] {
        UncoveredNeverDrains(cfg, s, es);
      }
    }
  }

  lemma {:induction false} UncoveredUnanswered(cfg: Config, log: seq<Served>, i: nat, h: uint16)
    requires cfg.Ok() && OnlyCoveredServed(cfg, log) && !Covered(cfg.ids, h)
    ensures Answered(log, i, h) == []
    decreases |log|
  {
    hide Covered, PseudoHash;
    if log != [] {
      UncoveredUnanswered(cfg, log[..|log| - 1], i, h);
    }
  }

  /** In every run, whatever arrived for an uncovered hash is still parked, all of it. */
  lemma UncoveredNeverAnswered(cfg: Config, s: State, i: nat, h: uint16)
    requires Inv(cfg, s) && i < |s.nodes| && !Covered(cfg.ids, h)
    ensures Answered(s.served, i, h) == [] && Pending(s.nodes[i], h) == Arrived(s.arrivals, i, h)
  {
    hide Partition, AnswersRight, OnlyCoveredServed, Covered, NoOrphans, NetOk, ParkedRight, Arrived,
      Answered;
    UncoveredUnanswered(cfg, s.served, i, h);
    assert Arrived(s.arrivals, i, h) == Answered(s.served, i, h) + Pending(s.nodes[i], h);
    assert [] + Pending(s.nodes[i], h) == Pending(s.nodes[i], h);
  }

  predicate CoveredRequests(cfg: Config, es: seq<Event>)
    requires cfg.Ok()
  {
    forall e :: e in es && e.Client? ==> Covered(cfg.ids, PseudoHash(e.request.packet.key))
  }

  lemma SentHash(c: Conf, h: uint16)
    ensures LookupPacket(c, h).hashId == h
  {
  }

  lemma CoveredRequestKeeps(cfg: Config, s: State, i: nat, r: Request)
    requires cfg.Ok() && |s.nodes| == |cfg.ids| && Inv(cfg, s) && Enabled(cfg, s, Client(i, r))
    requires AllCovered(cfg, s.net) && Covered(cfg.ids, PseudoHash(r.packet.key))
    ensures AllCovered(cfg, Step(cfg, s, Client(i, r)).net)
  {
    hide Inv, Step, Covered, PseudoHash, Enabled;
    var sent := ClientSends(cfg, s, i, r);
    SentHash(cfg.Peer(i), PseudoHash(r.packet.key));
  }

  lemma {:induction false} CoveredRequestsStayCovered(cfg: Config, s: State, es: seq<Event>)
    requires cfg.Ok() && |s.nodes| == |cfg.ids| && Inv(cfg, s) && AllEnabled(cfg, s, es)
    requires AllCovered(cfg, s.net) && CoveredRequests(cfg, es)
    ensures AllCovered(cfg, Run(cfg, s, es).net)
    decreases |es|
  {
    hide Inv, Step, AllCovered, Covered, PseudoHash;
    if es != [] {
      StepKeepsInv(cfg, s, es[0]);
      Sizes(cfg, Step(cfg, s, es[0]));
      if es[0].Client? {
        CoveredRequestKeeps(cfg, s, es[0].at, es[0].request);
      } else {
        DeliveryShrinks(cfg, s, es[0].k);
      }
      CoveredRequestsStayCovered(cfg, Step(cfg, s, es[0]), es[1..]);
    }
  }
}
