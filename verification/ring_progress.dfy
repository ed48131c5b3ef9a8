/** How soon a request is answered while clients go on sending others. */
module RingProgress {
  import opened Words
  import opened Intervals
  import opened PeerSteps
  import opened RingMachine
  import opened RingSafety
  import opened RingInvariant
  import opened RingDelivery
  import opened RingTheorems

  // ---------- how many deliveries a peer and a hash still cause ----------

  /** The weight of a message about address `a` and hash `h`, without its last `less` deliveries. */
  function WeightAbout(cfg: Config, a: Addr, h: uint16, less: nat): Msg -> nat {
    (m: Msg) => if About(m, a, h) && Weight(cfg, m) >= less then Weight(cfg, m) - less else 0
  }

  /** With `less` 0 all deliveries count, with `less` 1 those of replies do not. */
  function MeasureAbout(cfg: Config, net: seq<Msg>, i: nat, h: uint16, less: nat): nat
    requires i < |cfg.addrs|
  {
    Total(net, WeightAbout(cfg, cfg.addrs[i], h, less))
  }

  /** How often a run delivers a message about peer `i` and hash `h`. */
  function DeliveriesAbout(cfg: Config, s: State, es: seq<Event>, i: nat, h: uint16): nat
    requires |cfg.ids| == |cfg.addrs| == |s.nodes| && AllEnabled(cfg, s, es) && i < |cfg.addrs|
    decreases |es|
  {
    if es == [] then 0
    else
      (if es[0].Deliver? && About(s.net[es[0].k], cfg.addrs[i], h) then 1 else 0)
      + DeliveriesAbout(cfg, Step(cfg, s, es[0]), es[1..], i, h)
  }

  /** What a request for `h` at peer `i` causes: nothing if it runs at once, else its lookup. */
  function Cost(cfg: Config, i: nat, h: uint16): (c: nat)
    requires cfg.Ok() && i < |cfg.ids|
  {
    var (n, succ) := (|cfg.ids|, Succ(|cfg.ids|, i));
    if Responsible(cfg.ids, i, h) || Responsible(cfg.ids, succ, h) then 0
    else 2 + Dist(n, succ, Pred(n, Owner(cfg.ids, h)))
  }

  function CostLess(cfg: Config, i: nat, h: uint16, less: nat): nat
    requires cfg.Ok() && i < |cfg.ids|
  {
    if Cost(cfg, i, h) >= less then Cost(cfg, i, h) - less else 0
  }

  /** The deliveries caused by the requests for `h` that clients send to peer `i` in a run. */
  function Allowance(cfg: Config, es: seq<Event>, i: nat, h: uint16, less: nat): nat
    requires cfg.Ok() && i < |cfg.ids|
  {
    if es == [] then 0
    else
      (if es[0].Client? && es[0].at == i && PseudoHash(es[0].request.packet.key) == h
       then CostLess(cfg, i, h, less) else 0)
      + Allowance(cfg, es[1..], i, h, less)
  }

  lemma LookupIsAbout(cfg: Config, m: Msg, i: nat, j: nat, a: Addr, h: uint16)
    requires LookupOnItsWay(cfg, m, i, j)
    ensures About(m, a, h) <==> a == cfg.addrs[i] && h == m.packet.hashId
  {
    hide Responsible, Owner, Covered;
    LookupDeliverable(cfg.Peer(i), m.packet.hashId);
  }

  /** A request adds what its lookup weighs to the peer and hash that it is about. */
  lemma ClientAbout(cfg: Config, s: State, at: nat, r: Request, i: nat, h: uint16, less: nat)
    requires Inv(cfg, s) && Enabled(cfg, s, Client(at, r)) && i < |s.nodes| && Covered(cfg.ids, h)
    ensures cfg.Ok() && i < |cfg.ids|
    ensures MeasureAbout(cfg, Step(cfg, s, Client(at, r)).net, i, h, less)
      == MeasureAbout(cfg, s.net, i, h, less)
         + if at == i && PseudoHash(r.packet.key) == h then CostLess(cfg, i, h, less) else 0
  {
    hide Inv, Step, Covered, Weight, Total, About, Enabled, PseudoHash, Refines, ParkedRight, NetOk,
      LookupOnItsWay, LookupPacket, Responsible, Owner, Dist;
    Sizes(cfg, s);
    var sent := ClientSends(cfg, s, at, r);
    var weight := WeightAbout(cfg, cfg.addrs[i], h, less);
    TotalConcat(s.net, sent, weight);
    SentTotal(sent, weight);
    if sent != [] {
      SentHash(cfg.Peer(at), PseudoHash(r.packet.key));
      LookupIsAbout(cfg, sent[0], at, Succ(|cfg.ids|, at), cfg.addrs[i], h);
      if About(sent[0], cfg.addrs[i], h) {
        LookupWeight(cfg, sent[0], at, Succ(|cfg.ids|, at));
      }
    }
  }

  lemma WeightPositive(cfg: Config, m: Msg)
    requires cfg.Ok() && Covered(cfg.ids, m.packet.hashId)
    ensures Weight(cfg, m) >= 1
  {
    hide Owner, Dist, IndexOf;
  }

  /** A delivery takes one off, unless it is not about the peer and hash, or a reply not counted. */
  lemma DeliveryAbout(cfg: Config, s: State, k: nat, i: nat, h: uint16, less: nat)
    returns (sent: seq<Msg>)
    requires Inv(cfg, s) && k < |s.net| && i < |s.nodes| && Covered(cfg.ids, h) && less <= 1
    ensures |sent| <= 1 && Step(cfg, s, Deliver(k)).net == RemoveAt(s.net, k) + sent
    ensures sent == [] ==> exists j: nat :: ReplyOnItsWay(cfg, s.net[k], j)
    ensures i < |cfg.addrs| && MeasureAbout(cfg, Step(cfg, s, Deliver(k)).net, i, h, less)
      + (if About(s.net[k], cfg.addrs[i], h) && (less == 0 || sent != []) then 1 else 0)
      == MeasureAbout(cfg, s.net, i, h, less)
  {
    hide Inv, Step, Covered, Weight, Total, RemoveAt, Refines, ParkedRight, NetOk, ReplyOnItsWay;
    Sizes(cfg, s);
    sent := DeliveryNet(cfg, s, k);
    var weight := WeightAbout(cfg, cfg.addrs[i], h, less);
    TotalAfter(s.net, k, sent, weight);
    SentTotal(sent, weight);
    if sent != [] && About(s.net[k], cfg.addrs[i], h) {
      WeightPositive(cfg, sent[0]);
    }
  }

  /**
   * Whatever else happens in a run, the deliveries of messages about a peer and a covered hash
   * are exactly those that were due and those caused by the requests for that hash which came
   * in there, less those still due.
   */
  lemma {:induction false} AboutCounted(cfg: Config, s: State, es: seq<Event>, i: nat, h: uint16)
    requires cfg.Ok() && |s.nodes| == |cfg.ids| && Inv(cfg, s) && AllEnabled(cfg, s, es)
    requires i < |s.nodes| && Covered(cfg.ids, h)
    ensures DeliveriesAbout(cfg, s, es, i, h) + MeasureAbout(cfg, Run(cfg, s, es).net, i, h, 0)
      == MeasureAbout(cfg, s.net, i, h, 0) + Allowance(cfg, es, i, h, 0)
    decreases |es|
  {
    hide Inv, Step, MeasureAbout, Covered, About, PseudoHash, CostLess;
    if es != [] {
      StepKeepsInv(cfg, s, es[0]);
      Sizes(cfg, Step(cfg, s, es[0]));
      match es[0] {
        case Client(at, r) => ClientAbout(cfg, s, at, r, i, h, 0);
        case Deliver(k) => var _ := DeliveryAbout(cfg, s, k, i, h, 0);
      }
      AboutCounted(cfg, Step(cfg, s, es[0]), es[1..], i, h);
    }
  }

  // ---------- all requests for a peer and a hash ----------

  /** Nothing is due any more exactly when no message about the peer and hash is in flight. */
  lemma {:induction false} NothingDue(cfg: Config, net: seq<Msg>, i: nat, h: uint16)
    requires cfg.Ok() && i < |cfg.addrs| && Covered(cfg.ids, h)
    ensures MeasureAbout(cfg, net, i, h, 0) == 0 <==> Count(net, cfg.addrs[i], h) == 0
    decreases |net|
  {
    hide Covered, Weight;
    if net != [] {
      NothingDue(cfg, net[1..], i, h);
      if About(net[0], cfg.addrs[i], h) {
        WeightPositive(cfg, net[0]);
      }
    }
  }

  predicate AnsweredFor(q: State, i: nat, h: uint16)
    requires i < |q.nodes|
  {
    Pending(q.nodes[i], h) == [] && Answered(q.served, i, h) == Arrived(q.arrivals, i, h)
  }

  lemma NothingInFlight(cfg: Config, q: State, i: nat, h: uint16)
    requires Inv(cfg, q) && i < |q.nodes| && Count(q.net, cfg.addrs[i], h) == 0
    ensures AnsweredFor(q, i, h)
  {
    hide Arrived, Answered, Partition, AnswersRight, ParkedRight, NetOk, OnlyCoveredServed, Count;
    assert |Pending(q.nodes[i], h)| <= Count(q.net, cfg.addrs[i], h);
    assert Arrived(q.arrivals, i, h) == Answered(q.served, i, h) + Pending(q.nodes[i], h);
    assert Answered(q.served, i, h) + [] == Answered(q.served, i, h);
  }

  /**
   * In any run, with further requests of any kind in between: the deliveries about a peer and a
   * covered hash reach the number that was due and that the new requests for it cause exactly
   * when no message about them is in flight, and then every request for that hash which
   * arrived there has been answered, in order of arrival.
   */
  lemma AnsweredInTime(cfg: Config, s: State, es: seq<Event>, i: nat, h: uint16)
    requires cfg.Ok() && |s.nodes| == |cfg.ids| && Inv(cfg, s) && AllEnabled(cfg, s, es)
    requires i < |s.nodes| && Covered(cfg.ids, h)
    ensures var q := Run(cfg, s, es);
      var due := MeasureAbout(cfg, s.net, i, h, 0) + Allowance(cfg, es, i, h, 0);
      && DeliveriesAbout(cfg, s, es, i, h) <= due
      && (DeliveriesAbout(cfg, s, es, i, h) == due <==> Count(q.net, cfg.addrs[i], h) == 0)
      && (DeliveriesAbout(cfg, s, es, i, h) == due ==> AnsweredFor(q, i, h))
  {
    hide Inv, Run, AllEnabled, MeasureAbout, Covered, DeliveriesAbout, Allowance, AnsweredFor;
    AboutCounted(cfg, s, es, i, h);
    RunKeepsInv(cfg, s, es);
    var q := Run(cfg, s, es);
    NothingDue(cfg, q.net, i, h);
    if Count(q.net, cfg.addrs[i], h) == 0 {
      NothingInFlight(cfg, q, i, h);
    }
  }

  lemma {:induction false} CountFinds(net: seq<Msg>, a: Addr, h: uint16) returns (k: nat)
    requires Count(net, a, h) > 0
    ensures k < |net| && About(net[k], a, h)
    decreases |net|
  {
    hide About;
    if About(net[0], a, h) {
      k := 0;
    } else {
      k := CountFinds(net[1..], a, h);
      k := k + 1;
    }
  }

  /** Delivering only messages about the peer and hash, as long as there are any. */
  lemma {:induction false} AboutDrain(cfg: Config, s: State, i: nat, h: uint16)
    returns (more: seq<Event>)
    requires cfg.Ok() && |s.nodes| == |cfg.ids| && Inv(cfg, s) && i < |s.nodes| && Covered(cfg.ids, h)
    ensures OnlyDeliveries(more) && AllEnabled(cfg, s, more)
    ensures |more| == DeliveriesAbout(cfg, s, more, i, h) == MeasureAbout(cfg, s.net, i, h, 0)
    decreases MeasureAbout(cfg, s.net, i, h, 0)
  {
    hide Inv, Step, MeasureAbout, Covered, About, Count;
    if Count(s.net, cfg.addrs[i], h) > 0 {
      var k := CountFinds(s.net, cfg.addrs[i], h);
      var e := Deliver(k);
      StepKeepsInv(cfg, s, e);
      Sizes(cfg, Step(cfg, s, e));
      var _ := DeliveryAbout(cfg, s, k, i, h, 0);
      var rest := AboutDrain(cfg, Step(cfg, s, e), i, h);
      more := [e] + rest;
      assert more[1..] == rest;
    } else {
      NothingDue(cfg, s.net, i, h);
      more := [];
    }
  }

  lemma {:induction false} NoAllowance(cfg: Config, es: seq<Event>, i: nat, h: uint16, less: nat)
    requires cfg.Ok() && i < |cfg.ids| && OnlyDeliveries(es)
    ensures Allowance(cfg, es, i, h, less) == 0
  {
    hide CostLess, PseudoHash;
    if es != [] {
      assert es[0] in es;
      NoAllowance(cfg, es[1..], i, h, less);
    }
  }

  lemma AllowanceFirst(cfg: Config, e: Event, es: seq<Event>, i: nat, h: uint16)
    requires cfg.Ok() && i < |cfg.ids|
    ensures Allowance(cfg, [e] + es, i, h, 0)
      == Allowance(cfg, es, i, h, 0)
         + if e.Client? && e.at == i && PseudoHash(e.request.packet.key) == h
           then CostLess(cfg, i, h, 0) else 0
  {
    hide CostLess, PseudoHash;
    assert ([e] + es)[1..] == es;
  }

  lemma DeliverEnabled(cfg: Config, s: State, k: nat)
    ensures Enabled(cfg, s, Deliver(k)) <==> k < |s.net|
  {
  }

  /** One step in front of a run that reaches the number that is due. */
  lemma StepReachesDue(cfg: Config, s: State, e: Event, es: seq<Event>, i: nat, h: uint16)
    requires cfg.Ok() && |s.nodes| == |cfg.ids| && Inv(cfg, s) && Enabled(cfg, s, e)
    requires i < |s.nodes| && Covered(cfg.ids, h) && AllEnabled(cfg, Step(cfg, s, e), es)
    requires DeliveriesAbout(cfg, Step(cfg, s, e), es, i, h)
      == MeasureAbout(cfg, Step(cfg, s, e).net, i, h, 0) + Allowance(cfg, es, i, h, 0)
    ensures AllEnabled(cfg, s, [e] + es)
    ensures DeliveriesAbout(cfg, s, [e] + es, i, h)
      == MeasureAbout(cfg, s.net, i, h, 0) + Allowance(cfg, [e] + es, i, h, 0)
  {
    hide Inv, Step, MeasureAbout, Covered, About, PseudoHash, CostLess, Enabled, Allowance;
    assert ([e] + es)[1..] == es;
    AllowanceFirst(cfg, e, es, i, h);
    match e
    case Client(at, r) => ClientAbout(cfg, s, at, r, i, h, 0);
    case Deliver(k) =>
      DeliverEnabled(cfg, s, k);
      var _ := DeliveryAbout(cfg, s, k, i, h, 0);
  }

  lemma FirstStep(cfg: Config, s: State, es: seq<Event>)
    requires |s.nodes| == |cfg.ids| == |cfg.addrs| && AllEnabled(cfg, s, es)
    ensures es == [] ==> Run(cfg, s, es) == s
    ensures es != [] ==>
      && Enabled(cfg, s, es[0])
      && AllEnabled(cfg, Step(cfg, s, es[0]), es[1..])
      && Run(cfg, s, es) == Run(cfg, Step(cfg, s, es[0]), es[1..])
  {
    hide Step, Enabled;
  }

  /**
   * Every run, whatever its requests, goes on to meet that number, by exactly the deliveries
   * that are still due.
   */
  lemma {:induction false} CanReachDue(cfg: Config, s: State, es: seq<Event>, i: nat, h: uint16)
    returns (more: seq<Event>)
    requires cfg.Ok() && |s.nodes| == |cfg.ids| && Inv(cfg, s) && AllEnabled(cfg, s, es)
    requires i < |s.nodes| && Covered(cfg.ids, h)
    ensures OnlyDeliveries(more) && AllEnabled(cfg, s, es + more)
    ensures |more| == MeasureAbout(cfg, Run(cfg, s, es).net, i, h, 0)
    ensures DeliveriesAbout(cfg, s, es + more, i, h)
      == MeasureAbout(cfg, s.net, i, h, 0) + Allowance(cfg, es + more, i, h, 0)
    decreases |es|
  {
    hide Inv, Step, MeasureAbout, Covered, Enabled, Allowance, DeliveriesAbout, OnlyDeliveries, Refines,
      ParkedRight, NetOk, AllEnabled, Run;
    FirstStep(cfg, s, es);
    if es == [] {
      more := AboutDrain(cfg, s, i, h);
      NoAllowance(cfg, more, i, h, 0);
      assert es + more == more;
    } else {
      StepKeepsInv(cfg, s, es[0]);
      Sizes(cfg, Step(cfg, s, es[0]));
      more := CanReachDue(cfg, Step(cfg, s, es[0]), es[1..], i, h);
      assert es + more == [es[0]] + (es[1..] + more);
      StepReachesDue(cfg, s, es[0], es[1..] + more, i, h);
    }
  }

  /** As long as a request is parked there is a message about it to deliver. */
  lemma PendingHasMessage(cfg: Config, s: State, i: nat, h: uint16)
    requires Inv(cfg, s) && i < |s.nodes| && Pending(s.nodes[i], h) != []
    ensures exists k :: 0 <= k < |s.net| && About(s.net[k], cfg.addrs[i], h)
  {
    hide Partition, AnswersRight, ParkedRight, NetOk, OnlyCoveredServed, Conserved, About, Count;
    assert |Pending(s.nodes[i], h)| <= Count(s.net, cfg.addrs[i], h);
    var k := CountFinds(s.net, cfg.addrs[i], h);
  }

  // ---------- the requests that had already arrived ----------

  lemma {:induction false} AnsweredPrefix(a: seq<Served>, b: seq<Served>, i: nat, h: uint16)
    requires a <= b
    ensures Answered(a, i, h) <= Answered(b, i, h)
    decreases |b|
  {
    hide PseudoHash;
    if a != b {
      AnsweredPrefix(a, b[..|b| - 1], i, h);
    }
  }

  lemma {:induction false} ArrivedPrefix(a: seq<Arrival>, b: seq<Arrival>, i: nat, h: uint16)
    requires a <= b
    ensures Arrived(a, i, h) <= Arrived(b, i, h)
    decreases |b|
  {
    hide PseudoHash;
    if a != b {
      ArrivedPrefix(a, b[..|b| - 1], i, h);
    }
  }

  lemma PerformGrows(cfg: Config, s: State, i: nat, links: nat, e: Effect)
    requires |cfg.ids| == |cfg.addrs| == |s.nodes|
    ensures var s' := Perform(cfg, s, i, links, e);
      |s'.nodes| == |s.nodes| && s'.arrivals == s.arrivals && s.served <= s'.served
  {
    hide OverWire, HandlePacket, IndexOf;
  }

  lemma {:induction false} PerformAllGrows(
    cfg: Config, s: State, i: nat, links: nat, es: seq<Effect>)
    requires |cfg.ids| == |cfg.addrs| == |s.nodes|
    ensures var s' := PerformAll(cfg, s, i, links, es);
      s'.arrivals == s.arrivals && s.served <= s'.served
    decreases |es|
  {
    hide Perform;
    if es != [] {
      PerformGrows(cfg, s, i, links, es[0]);
      PerformAllGrows(cfg, Perform(cfg, s, i, links, es[0]), i, links, es[1..]);
    }
  }

  /** What arrived and what was answered is only ever added to. */
  lemma StepGrows(cfg: Config, s: State, e: Event)
    requires |cfg.ids| == |cfg.addrs| == |s.nodes| && Enabled(cfg, s, e)
    ensures s.arrivals <= Step(cfg, s, e).arrivals && s.served <= Step(cfg, s, e).served
  {
    hide OverWire, HandlePacket, IndexOf, PerformAll;
    match e
    case Client(i, r) =>
      var o := HandlePacket(cfg.Peer(i), s.nodes[i], r.socket, r.packet);
      var s' := s.(arrivals := s.arrivals + [Arrival(i, r)], nodes := s.nodes[i := o.node]);
      PerformAllGrows(cfg, s', i, 0, o.effects);
    case Deliver(k) =>
      var (m, s') := (s.net[k], s.(net := RemoveAt(s.net, k)));
      match IndexOf(cfg.addrs, m.dest) {
        case Some(i) =>
          if i < |s.nodes| && OverWire(m.packet).Some? {
            var o := HandlePacket(cfg.Peer(i), s.nodes[i], -1, OverWire(m.packet).value);
            PerformAllGrows(cfg, s'.(nodes := s.nodes[i := o.node]), i, m.links, o.effects);
          }
        case None =>
      }
  }

  lemma {:induction false} RunGrows(cfg: Config, s: State, es: seq<Event>)
    requires |cfg.ids| == |cfg.addrs| == |s.nodes| && AllEnabled(cfg, s, es)
    ensures s.arrivals <= Run(cfg, s, es).arrivals && s.served <= Run(cfg, s, es).served
    decreases |es|
  {
    hide Step, Enabled;
    if es != [] {
      StepGrows(cfg, s, es[0]);
      RunGrows(cfg, Step(cfg, s, es[0]), es[1..]);
    }
  }

  lemma ReplyAsker(cfg: Config, m: Msg, j: nat)
    requires ReplyOnItsWay(cfg, m, j)
    ensures cfg.Ok() && j < |cfg.ids|
  {
  }

  lemma NonePending(cfg: Config, q: State, i: nat, h: uint16)
    requires Inv(cfg, q) && i < |q.nodes| && Pending(q.nodes[i], h) == []
    ensures AnsweredFor(q, i, h)
  {
    hide Arrived, Answered, Partition, AnswersRight, ParkedRight, NetOk, OnlyCoveredServed, NoOrphans;
    assert Arrived(q.arrivals, i, h) == Answered(q.served, i, h) + Pending(q.nodes[i], h);
    assert Answered(q.served, i, h) + [] == Answered(q.served, i, h);
  }

  /** A reply about the peer and hash leaves no request for it parked there. */
  lemma ReplyAnswers(cfg: Config, s: State, k: nat, i: nat, h: uint16, j: nat)
    requires Inv(cfg, s) && k < |s.net| && i < |s.nodes| && ReplyOnItsWay(cfg, s.net[k], j)
    requires About(s.net[k], cfg.addrs[i], h)
    ensures AnsweredFor(Step(cfg, s, Deliver(k)), i, h)
  {
    hide Inv, Step, Responsible, Refines, ParkedRight, NetOk, Owner, Covered, ReplyOnItsWay, About,
      Arrived, Answered, ServedAll;
    Sizes(cfg, s);
    ReplyIsAboutOne(cfg, s.net[k], j);
    ReplyAsker(cfg, s.net[k], j);
    assert i == j;
    var o := Owner(cfg.ids, h);
    ReplyDelivered(cfg, s, k, i);
    ServedAllKeeps(Released(s, k, i, h), i, Pending(s.nodes[i], h), o);
    StepKeepsInv(cfg, s, Deliver(k));
    var q := Step(cfg, s, Deliver(k));
    assert Pending(q.nodes[i], h) == [];
    NonePending(cfg, q, i, h);
  }

  /** All requests for `h` that had arrived at peer `i` by `s` have been answered by `q`, in order. */
  predicate AnsweredSince(s: State, q: State, i: nat, h: uint16) {
    Arrived(s.arrivals, i, h) <= Answered(q.served, i, h)
  }

  /**
   * Either a reply about the peer and hash has been delivered, and with it every request that had
   * arrived there is answered, or all deliveries were those of lookups on their way.
   */
  lemma {:induction false} AnsweredOrDue(cfg: Config, s: State, es: seq<Event>, i: nat, h: uint16)
    requires cfg.Ok() && |s.nodes| == |cfg.ids| && Inv(cfg, s) && AllEnabled(cfg, s, es)
    requires i < |s.nodes| && Covered(cfg.ids, h)
    ensures var q := Run(cfg, s, es);
      || AnsweredSince(s, q, i, h)
      || DeliveriesAbout(cfg, s, es, i, h) + MeasureAbout(cfg, q.net, i, h, 1)
         == MeasureAbout(cfg, s.net, i, h, 1) + Allowance(cfg, es, i, h, 1)
    decreases |es|
  {
    hide Inv, Step, MeasureAbout, Covered, About, PseudoHash, CostLess, Refines, ParkedRight, NetOk,
      ReplyOnItsWay, Arrived, Answered, Run, Enabled, AllEnabled;
    FirstStep(cfg, s, es);
    if es != [] {
      var (s1, q) := (Step(cfg, s, es[0]), Run(cfg, s, es));
      StepKeepsInv(cfg, s, es[0]);
      Sizes(cfg, s1);
      StepGrows(cfg, s, es[0]);
      ArrivedPrefix(s.arrivals, s1.arrivals, i, h);
      AnsweredOrDue(cfg, s1, es[1..], i, h);
      match es[0] {
        case Client(at, r) => ClientAbout(cfg, s, at, r, i, h, 1);
        case Deliver(k) =>
          DeliverEnabled(cfg, s, k);
          var sent := DeliveryAbout(cfg, s, k, i, h, 1);
          if sent == [] && About(s.net[k], cfg.addrs[i], h) {
            var j: nat :| ReplyOnItsWay(cfg, s.net[k], j);
            ReplyAnswers(cfg, s, k, i, h, j);
            RunGrows(cfg, s1, es[1..]);
            AnsweredPrefix(s1.served, q.served, i, h);
          }
      }
    }
  }

  /**
   * With any further requests in between: once the messages about a peer and a covered hash have
   * been delivered more often than their lookups, old and new, can cross links, every request for
   * that hash which had arrived there at the start has been answered, in order of arrival.
   */
  lemma AnsweredSoon(cfg: Config, s: State, es: seq<Event>, i: nat, h: uint16)
    requires cfg.Ok() && |s.nodes| == |cfg.ids| && Inv(cfg, s) && AllEnabled(cfg, s, es)
    requires i < |s.nodes| && Covered(cfg.ids, h)
    requires DeliveriesAbout(cfg, s, es, i, h)
      > MeasureAbout(cfg, s.net, i, h, 1) + Allowance(cfg, es, i, h, 1)
    ensures AnsweredSince(s, Run(cfg, s, es), i, h)
  {
    hide Inv, Run, AllEnabled, MeasureAbout, Covered, DeliveriesAbout, Allowance, AnsweredSince;
    AnsweredOrDue(cfg, s, es, i, h);
  }

  lemma {:induction false} LookupsAndReplies(cfg: Config, net: seq<Msg>, i: nat, h: uint16)
    requires cfg.Ok() && i < |cfg.addrs| && Covered(cfg.ids, h)
    ensures MeasureAbout(cfg, net, i, h, 0)
      == MeasureAbout(cfg, net, i, h, 1) + Count(net, cfg.addrs[i], h)
    decreases |net|
  {
    hide Covered, Weight;
    if net != [] {
      LookupsAndReplies(cfg, net[1..], i, h);
      if About(net[0], cfg.addrs[i], h) {
        WeightPositive(cfg, net[0]);
      }
    }
  }

  lemma {:induction false} AllowanceLess(cfg: Config, es: seq<Event>, i: nat, h: uint16)
    requires cfg.Ok() && i < |cfg.ids|
    ensures Allowance(cfg, es, i, h, 1) <= Allowance(cfg, es, i, h, 0)
  {
    hide Cost, PseudoHash;
    if es != [] {
      AllowanceLess(cfg, es[1..], i, h);
    }
  }

  lemma PendingCounted(cfg: Config, s: State, i: nat, h: uint16)
    requires Inv(cfg, s) && i < |s.nodes|
    ensures |Pending(s.nodes[i], h)| <= Count(s.net, cfg.addrs[i], h)
  {
    hide Partition, AnswersRight, ParkedRight, NetOk, OnlyCoveredServed, Conserved, Count;
  }

  /** As long as a request is parked, every run goes on to deliver that often. */
  lemma CanReachSoon(cfg: Config, s: State, es: seq<Event>, i: nat, h: uint16)
    returns (more: seq<Event>)
    requires cfg.Ok() && |s.nodes| == |cfg.ids| && Inv(cfg, s) && AllEnabled(cfg, s, es)
    requires i < |s.nodes| && Covered(cfg.ids, h) && Pending(s.nodes[i], h) != []
    ensures OnlyDeliveries(more) && AllEnabled(cfg, s, es + more)
    ensures DeliveriesAbout(cfg, s, es + more, i, h)
      > MeasureAbout(cfg, s.net, i, h, 1) + Allowance(cfg, es + more, i, h, 1)
  {
    hide Inv, Run, AllEnabled, MeasureAbout, Covered, DeliveriesAbout, Allowance, Pending, Count;
    more := CanReachDue(cfg, s, es, i, h);
    LookupsAndReplies(cfg, s.net, i, h);
    AllowanceLess(cfg, es + more, i, h);
    PendingCounted(cfg, s, i, h);
  }
}
