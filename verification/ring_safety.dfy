/** What every run of the ring keeps. */
module RingSafety {
  import opened Words
  import opened Packets
  import opened Intervals
  import opened Framing
  import opened PeerSteps
  import opened RingMachine

  // ---------- the answers are those of one global map ----------

  /** The map after the answered requests, in the order in which their owners ran them. */
  function MapAfter(log: seq<Served>): map<Bytes, Bytes> {
    if log == [] then map[]
    else Apply(MapAfter(log[..|log| - 1]), OpOf(log[|log| - 1].request.packet))
  }

  predicate AnswerRight(m: map<Bytes, Bytes>, x: Served) {
    && AllStorable(m) && x.reply == Serialize(OwnReply(m, x.request.packet))
    && ReadReply(x.reply) == Some(Copied(Respond(m, OpOf(x.request.packet))))
  }

  /**
   * Every client was sent the acknowledgement that the owner of the whole map would send at that
   * point, and reads in it what the map answers, up to strncpy.
   */
  predicate AnswersRight(log: seq<Served>) {
    forall j :: 0 <= j < |log| ==> AnswerRight(MapAfter(log[..j]), log[j])
  }

  /** The tables partition the map: a key is stored at its responsible peer and nowhere else. */
  ghost predicate Partition(cfg: Config, nodes: seq<Node>, m: map<Bytes, Bytes>)
    requires cfg.Ok() && |nodes| == |cfg.ids|
  {
    && AllStorable(m)
    && (forall i, k {:trigger k in nodes[i].table} :: 0 <= i < |nodes| ==>
      (k in nodes[i].table <==> k in m && Responsible(cfg.ids, i, PseudoHash(k))))
    && (forall i, k {:trigger k in nodes[i].table} :: 0 <= i < |nodes| ==>
      k in nodes[i].table ==> nodes[i].table[k] == m[k])
    && (forall k :: k in m ==> Covered(cfg.ids, PseudoHash(k)))
  }

  /** No request for a hash that nobody is responsible for is ever answered. */
  predicate OnlyCoveredServed(cfg: Config, log: seq<Served>)
    requires cfg.Ok()
  {
    forall j :: 0 <= j < |log| ==> Covered(cfg.ids, PseudoHash(log[j].request.packet.key))
  }

  ghost predicate Refines(cfg: Config, s: State) {
    && cfg.Ok() && |s.nodes| == |cfg.ids|
    && !s.stuck
    && AnswersRight(s.served)
    && OnlyCoveredServed(cfg, s.served)
    && Partition(cfg, s.nodes, MapAfter(s.served))
  }

  lemma MapAfterOne(log: seq<Served>, x: Served)
    ensures MapAfter(log + [x]) == Apply(MapAfter(log), OpOf(x.request.packet))
  {
    assert (log + [x])[..|log|] == log;
  }

  lemma AnswersRightOne(log: seq<Served>, x: Served)
    requires AnswersRight(log)
    requires AnswerRight(MapAfter(log), x)
    ensures AnswersRight(log + [x])
  {
    hide AnswerRight, MapAfter;
    forall j | 0 <= j < |log + [x]| ensures AnswerRight(MapAfter((log + [x])[..j]), (log + [x])[j])
    {
      assert (log + [x])[..j] == log[..j];
    }
  }

  /** A data packet that reached a server. */
  predicate IsRequest(p: Packet) {
    !IsControl(p) && Deliverable(p)
  }

  lemma RequestFits(p: Packet)
    requires IsRequest(p)
    ensures Storable(p.key, p.value)
  {
  }

  lemma PartitionUpdates(cfg: Config, nodes: seq<Node>, m: map<Bytes, Bytes>, t: nat, p: Packet)
    requires cfg.Ok() && |nodes| == |cfg.ids| && t < |nodes| && Partition(cfg, nodes, m)
    requires IsRequest(p) && Responsible(cfg.ids, t, PseudoHash(p.key))
    ensures Partition(cfg, nodes[t := nodes[t].(table := OwnTable(nodes[t].table, p))],
                      Apply(m, OpOf(p)))
  {
    hide PseudoHash, Responsible, Covered, Has, Deliverable;
    RequestFits(p);
    forall i | 0 <= i < |nodes|
      ensures Responsible(cfg.ids, i, PseudoHash(p.key)) <==> i == t
      ensures Covered(cfg.ids, PseudoHash(p.key))
    {
      OneOwnerIfCovered(cfg.ids, t, PseudoHash(p.key));
      OneOwnerIfCovered(cfg.ids, i, PseudoHash(p.key));
    }
  }

  /** An acknowledgement depends on the entry of the requested key only. */
  lemma SameOwnReply(t: map<Bytes, Bytes>, m: map<Bytes, Bytes>, p: Packet)
    requires p.key in t <==> p.key in m
    requires p.key in t ==> t[p.key] == m[p.key]
    ensures OwnReply(t, p) == OwnReply(m, p)
  {
    hide StrnCopy, Has;
  }

  /** What a peer replies for a key it is responsible for is what the global map answers. */
  lemma OwnerAnswers(cfg: Config, nodes: seq<Node>, m: map<Bytes, Bytes>, t: nat, p: Packet)
    requires cfg.Ok() && |nodes| == |cfg.ids| && t < |nodes| && Partition(cfg, nodes, m)
    requires IsRequest(p) && Responsible(cfg.ids, t, PseudoHash(p.key))
    ensures ReadReply(Serialize(OwnReply(nodes[t].table, p))) == Some(Copied(Respond(m, OpOf(p))))
    ensures AllStorable(m) && OwnReply(nodes[t].table, p) == OwnReply(m, p)
  {
    SameOwnReply(nodes[t].table, m, p);
    hide PseudoHash, Responsible, Covered, Has, Deliverable, ReadReply, Serialize, Copied, OwnReply;
    ReplyTellsResult(nodes[t].table, p);
    assert Respond(nodes[t].table, OpOf(p)) == Respond(m, OpOf(p));
  }

  // ---------- a request runs at its owner ----------

  /** Peer `t` executes the request that came in at peer `i`. */
  function ServedBy(s: State, i: nat, r: Request, t: nat): State
    requires t < |s.nodes|
  {
    var node := s.nodes[t];
    s.(nodes := s.nodes[t := node.(table := OwnTable(node.table, r.packet))],
       served := s.served + [Served(i, r, Serialize(OwnReply(node.table, r.packet)))])
  }

  function ServedAll(s: State, i: nat, rs: seq<Request>, t: nat): (s': State)
    requires t < |s.nodes|
    ensures |s'.nodes| == |s.nodes|
    decreases |rs|
  {
    if rs == [] then s else ServedAll(ServedBy(s, i, rs[0], t), i, rs[1..], t)
  }

  lemma ServedByRefines(cfg: Config, s: State, i: nat, r: Request, t: nat)
    requires Refines(cfg, s) && t < |s.nodes|
    requires IsRequest(r.packet) && Responsible(cfg.ids, t, PseudoHash(r.packet.key))
    ensures Refines(cfg, ServedBy(s, i, r, t))
  {
    hide Partition, AnswersRight, MapAfter, Responsible, Covered, IsRequest, PseudoHash, ReadReply,
      Serialize, OwnReply, OwnTable, Copied, Respond, OpOf;
    OneOwnerIfCovered(cfg.ids, t, PseudoHash(r.packet.key));
    var m := MapAfter(s.served);
    var x := Served(i, r, Serialize(OwnReply(s.nodes[t].table, r.packet)));
    OwnerAnswers(cfg, s.nodes, m, t, r.packet);
    PartitionUpdates(cfg, s.nodes, m, t, r.packet);
    AnswersRightOne(s.served, x);
    MapAfterOne(s.served, x);
  }

  /** A proxied request is always handled locally by its target: it is not proxied twice. */
  lemma ProxyHandledLocally(cfg: Config, s: State, i: nat, links: nat, r: Request, t: nat)
    requires cfg.Ok() && |s.nodes| == |cfg.ids| && t < |s.nodes|
    requires IsRequest(r.packet) && Responsible(cfg.ids, t, PseudoHash(r.packet.key))
    ensures Perform(cfg, s, i, links, Proxy(r.socket, r.packet, cfg.addrs[t]))
      == ServedBy(s, i, r, t)
  {
    hide Deliverable, OverWire, PseudoHash, Serialize, OwnReply, OwnTable, IndexOf, PeerIsResponsible;
    IndexOfAddr(cfg.addrs, t);
    OverWireIs(r.packet);
  }

  lemma SameSize(s: State, i: nat, r: Request, t: nat)
    requires t < |s.nodes|
    ensures |ServedBy(s, i, r, t).nodes| == |s.nodes|
  {
  }

  lemma {:induction false} ReleasesServeAll(
    cfg: Config, s: State, i: nat, links: nat, rs: seq<Request>, t: nat)
    requires cfg.Ok() && |s.nodes| == |cfg.ids| && t < |s.nodes|
    requires forall j :: 0 <= j < |rs| ==>
      IsRequest(rs[j].packet) && Responsible(cfg.ids, t, PseudoHash(rs[j].packet.key))
    ensures PerformAll(cfg, s, i, links, Releases(rs, cfg.addrs[t])) == ServedAll(s, i, rs, t)
    decreases |rs|
  {
    hide IsRequest, Responsible, PseudoHash, ServedBy;
    if rs != [] {
      var es := Releases(rs, cfg.addrs[t]);
      ProxyHandledLocally(cfg, s, i, links, rs[0], t);
      var s1 := ServedBy(s, i, rs[0], t);
      assert |s1.nodes| == |s.nodes| by { SameSize(s, i, rs[0], t); }
      assert es[1..][1..] == Releases(rs[1..], cfg.addrs[t]);
      assert Perform(cfg, s1, i, links, es[1]) == s1;
      ReleasesServeAll(cfg, s1, i, links, rs[1..], t);
    }
  }

  lemma {:induction false} ServedAllRefines(
    cfg: Config, s: State, i: nat, rs: seq<Request>, t: nat)
    requires Refines(cfg, s) && t < |s.nodes|
    requires forall j :: 0 <= j < |rs| ==>
      IsRequest(rs[j].packet) && Responsible(cfg.ids, t, PseudoHash(rs[j].packet.key))
    ensures Refines(cfg, ServedAll(s, i, rs, t))
    decreases |rs|
  {
    hide IsRequest, Responsible, PseudoHash, ServedBy, Partition, AnswersRight;
    if rs != [] {
      ServedByRefines(cfg, s, i, rs[0], t);
      SameSize(s, i, rs[0], t);
      ServedAllRefines(cfg, ServedBy(s, i, rs[0], t), i, rs[1..], t);
    }
  }

  // ---------- parked requests and messages in flight ----------

  predicate AllFor(rs: seq<Request>, h: uint16) {
    forall j :: 0 <= j < |rs| ==> IsRequest(rs[j].packet) && PseudoHash(rs[j].packet.key) == h
  }

  /** Requests are parked under their own hash, at peers that neither own nor proxy it. */
  ghost predicate ParkedRight(cfg: Config, nodes: seq<Node>)
    requires |nodes| == |cfg.ids|
  {
    forall i, h {:trigger h in nodes[i].pending} :: 0 <= i < |nodes| && h in nodes[i].pending ==>
      && !Responsible(cfg.ids, i, h) && !Responsible(cfg.ids, Succ(|nodes|, i), h)
      && AllFor(nodes[i].pending[h], h)
  }

  /**
   * A lookup that peer `i` sent and that is on its way to peer `j`, which is as many successors
   * on as it has crossed links. For a covered hash it has not reached the owner.
   */
  predicate LookupOnItsWay(cfg: Config, m: Msg, i: nat, j: nat) {
    && cfg.Ok() && i < |cfg.ids| && j < |cfg.ids|
    && var (n, h) := (|cfg.ids|, m.packet.hashId);
    && m.packet == LookupPacket(cfg.Peer(i), h) && m.dest == cfg.addrs[j]
    && 1 <= m.links && j == Walk(n, i, m.links)
    && !Responsible(cfg.ids, i, h) && !Responsible(cfg.ids, Succ(n, i), h)
    && (Covered(cfg.ids, h) ==>
          m.links == Dist(n, i, j) < Dist(n, i, Owner(cfg.ids, h)))
  }

  /** A reply on its way to the peer `i` that asked, carrying the true owner. */
  predicate ReplyOnItsWay(cfg: Config, m: Msg, i: nat) {
    && cfg.Ok() && i < |cfg.ids|
    && var (n, h) := (|cfg.ids|, m.packet.hashId);
    && var o := Owner(cfg.ids, h);
    && Covered(cfg.ids, h)
    && m.packet == NewPacket(CTRL + RPLY).(hashId := h, nodeId := cfg.ids[o],
                                           nodeIp := cfg.addrs[o].ip, nodePort := cfg.addrs[o].port)
    && m.dest == cfg.addrs[i]
    && o != i && o != Succ(n, i)
  }

  ghost predicate MsgOk(cfg: Config, m: Msg) {
    (exists i: nat, j: nat :: LookupOnItsWay(cfg, m, i, j)) || (exists i: nat :: ReplyOnItsWay(cfg, m, i))
  }

  ghost predicate NetOk(cfg: Config, net: seq<Msg>) {
    forall k :: 0 <= k < |net| ==> MsgOk(cfg, net[k])
  }

  /** A lookup sent by, or a reply going to, the peer with address `a` for hash `h`. */
  predicate About(m: Msg, a: Addr, h: uint16) {
    m.packet.hashId == h
    && a == if Has(m.packet.flags, LKUP) then Addr(m.packet.nodeIp, m.packet.nodePort) else m.dest
  }

  function Count(net: seq<Msg>, a: Addr, h: uint16): nat {
    if net == [] then 0
    else (if About(net[0], a, h) then 1 else 0) + Count(net[1..], a, h)
  }

  lemma {:induction false} CountConcat(xs: seq<Msg>, ys: seq<Msg>, a: Addr, h: uint16)
    ensures Count(xs + ys, a, h) == Count(xs, a, h) + Count(ys, a, h)
    decreases |xs|
  {
    hide About;
    if xs == [] {
      assert xs + ys == ys;
    } else {
      assert (xs + ys)[1..] == xs[1..] + ys;
      CountConcat(xs[1..], ys, a, h);
    }
  }

  lemma CountWithout(net: seq<Msg>, k: nat, a: Addr, h: uint16)
    requires k < |net|
    ensures Count(net, a, h) == Count(RemoveAt(net, k), a, h) + if About(net[k], a, h) then 1 else 0
  {
    hide About;
    assert net == net[..k] + ([net[k]] + net[k + 1..]);
    CountConcat(net[..k], [net[k]] + net[k + 1..], a, h);
    CountConcat([net[k]], net[k + 1..], a, h);
    CountConcat(net[..k], net[k + 1..], a, h);
    assert Count([net[k]], a, h) == if About(net[k], a, h) then 1 else 0;
  }

  /** No parked request is orphaned: each has a lookup or a reply in flight. */
  ghost predicate NoOrphans(cfg: Config, s: State)
    requires cfg.Ok() && |s.nodes| == |cfg.ids|
  {
    forall i, h {:trigger Pending(s.nodes[i], h)} :: 0 <= i < |s.nodes| ==>
      |Pending(s.nodes[i], h)| <= Count(s.net, cfg.addrs[i], h)
  }

  // ---------- conservation and order ----------

  function Arrived(xs: seq<Arrival>, i: nat, h: uint16): seq<Request> {
    if xs == [] then []
    else
      var x := xs[|xs| - 1];
      Arrived(xs[..|xs| - 1], i, h)
      + if x.entry == i && PseudoHash(x.request.packet.key) == h then [x.request] else []
  }

  function Answered(xs: seq<Served>, i: nat, h: uint16): seq<Request> {
    if xs == [] then []
    else
      var x := xs[|xs| - 1];
      Answered(xs[..|xs| - 1], i, h)
      + if x.entry == i && PseudoHash(x.request.packet.key) == h then [x.request] else []
  }

  /** Per peer and hash: what arrived is what was answered, then what is parked, in order. */
  ghost predicate Conserved(s: State) {
    forall i: nat, h {:trigger Arrived(s.arrivals, i, h)} :: i < |s.nodes| ==>
      Arrived(s.arrivals, i, h) == Answered(s.served, i, h) + Pending(s.nodes[i], h)
  }

  lemma ArrivedOne(xs: seq<Arrival>, x: Arrival, i: nat, h: uint16)
    ensures Arrived(xs + [x], i, h) == Arrived(xs, i, h)
      + if x.entry == i && PseudoHash(x.request.packet.key) == h then [x.request] else []
  {
    hide PseudoHash;
    assert (xs + [x])[..|xs|] == xs;
  }

  lemma AnsweredOne(xs: seq<Served>, x: Served, i: nat, h: uint16)
    ensures Answered(xs + [x], i, h) == Answered(xs, i, h)
      + if x.entry == i && PseudoHash(x.request.packet.key) == h then [x.request] else []
  {
    hide PseudoHash;
    assert (xs + [x])[..|xs|] == xs;
  }

  ghost predicate Inv(cfg: Config, s: State) {
    && Refines(cfg, s)
    && ParkedRight(cfg, s.nodes)
    && NetOk(cfg, s.net)
    && NoOrphans(cfg, s)
    && Conserved(s)
  }
}
