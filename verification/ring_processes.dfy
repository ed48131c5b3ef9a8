/** The peers of a ring run are processes that handle the packets which reach them. */
module RingProcesses {
  import opened Words
  import opened Packets
  import opened Intervals
  import opened PeerSteps
  import opened Rounds
  import opened Processes
  import opened RingMachine
  import opened RingSafety
  import opened RingTheorems

  // ---------- the packets that reach a peer ----------

  /** The requests among some effects that are proxied to peer `j`, as they arrive there. */
  function ProxiedTo(cfg: Config, es: seq<Effect>, j: nat): seq<(int, Decoded)> {
    if es == [] then []
    else
      (if es[0].Proxy? && IndexOf(cfg.addrs, es[0].target) == Some(j) && OverWire(es[0].request).Some?
       then [(es[0].socket, Complete(OverWire(es[0].request).value))] else [])
      + ProxiedTo(cfg, es[1..], j)
  }

  /** What reaches peer `j` when peer `i` handles a packet: the packet, and what `i` proxies to it. */
  function Reaching(cfg: Config, s: State, i: nat, socket: int, p: Packet, j: nat)
    : seq<(int, Decoded)>
    requires i < |cfg.ids| == |cfg.addrs| == |s.nodes|
  {
    (if j == i then [(socket, Complete(p))] else [])
    + ProxiedTo(cfg, HandlePacket(cfg.Peer(i), s.nodes[i], socket, p).effects, j)
  }

  /** The packets that reach peer `j` in one step. */
  function ReachedIn(cfg: Config, s: State, e: Event, j: nat): seq<(int, Decoded)>
    requires |cfg.ids| == |cfg.addrs| == |s.nodes| && Enabled(cfg, s, e)
  {
    match e
    case Client(i, r) => Reaching(cfg, s, i, r.socket, r.packet, j)
    case Deliver(k) =>
      match IndexOf(cfg.addrs, s.net[k].dest)
      case Some(i) =>
        if i < |s.nodes| && OverWire(s.net[k].packet).Some?
        then Reaching(cfg, s, i, -1, OverWire(s.net[k].packet).value, j) else []
      case None => []
  }

  /** The packets that reach peer `j` in a run, in order. */
  function LogOf(cfg: Config, s: State, es: seq<Event>, j: nat): seq<(int, Decoded)>
    requires |cfg.ids| == |cfg.addrs| == |s.nodes| && AllEnabled(cfg, s, es)
    decreases |es|
  {
    if es == [] then []
    else ReachedIn(cfg, s, es[0], j) + LogOf(cfg, Step(cfg, s, es[0]), es[1..], j)
  }

  // ---------- the ring machine handles exactly these ----------

  lemma HandleNone(c: Conf, node: Node)
    ensures HandleAll(c, node, []) == node
  {
  }

  lemma HandleOne(c: Conf, node: Node, socket: int, p: Packet)
    ensures HandleAll(c, node, [(socket, Complete(p))]) == HandlePacket(c, node, socket, p).node
  {
    hide HandlePacket;
    assert [(socket, Complete(p))][..0] == [];
  }

  lemma PerformNodes(cfg: Config, s: State, i: nat, links: nat, e: Effect, j: nat)
    requires |cfg.ids| == |cfg.addrs| == |s.nodes| && j < |s.nodes|
    ensures var s' := Perform(cfg, s, i, links, e);
      && |s'.nodes| == |s.nodes|
      && (s.stuck ==> s'.stuck)
      && (!s'.stuck ==>
            s'.nodes[j] == HandleAll(cfg.Peer(j), s.nodes[j], ProxiedTo(cfg, [e], j)))
  {
    hide HandlePacket, OverWire, IndexOf;
    assert [e][1..] == [];
    HandleNone(cfg.Peer(j), s.nodes[j]);
    if e.Proxy? && OverWire(e.request).Some? {
      HandleOne(cfg.Peer(j), s.nodes[j], e.socket, OverWire(e.request).value);
    }
  }

  lemma ProxiedFirst(cfg: Config, es: seq<Effect>, j: nat)
    requires es != []
    ensures ProxiedTo(cfg, es, j) == ProxiedTo(cfg, [es[0]], j) + ProxiedTo(cfg, es[1..], j)
  {
    hide IndexOf, OverWire;
    assert [es[0]][1..] == [] && ProxiedTo(cfg, [], j) == [];
  }

  lemma {:induction false} PerformAllNodes(
    cfg: Config, s: State, i: nat, links: nat, es: seq<Effect>, j: nat)
    requires |cfg.ids| == |cfg.addrs| == |s.nodes| && j < |s.nodes|
    ensures var s' := PerformAll(cfg, s, i, links, es);
      && (s.stuck ==> s'.stuck)
      && (!s'.stuck ==> s'.nodes[j] == HandleAll(cfg.Peer(j), s.nodes[j], ProxiedTo(cfg, es, j)))
    decreases |es|
  {
    hide Perform, HandleAll, IndexOf, OverWire;
    if es == [] {
      HandleNone(cfg.Peer(j), s.nodes[j]);
    } else {
      var s1 := Perform(cfg, s, i, links, es[0]);
      PerformNodes(cfg, s, i, links, es[0], j);
      PerformAllNodes(cfg, s1, i, links, es[1..], j);
      var (first, rest) := (ProxiedTo(cfg, [es[0]], j), ProxiedTo(cfg, es[1..], j));
      HandleConcat(cfg.Peer(j), s.nodes[j], first, rest);
      ProxiedFirst(cfg, es, j);
    }
  }

  lemma HandledNodes(cfg: Config, s: State, i: nat, links: nat, socket: int, p: Packet, j: nat)
    requires i < |cfg.ids| == |cfg.addrs| == |s.nodes| && j < |s.nodes|
    ensures var s' := Handled(cfg, s, i, links, socket, p);
      && (s.stuck ==> s'.stuck)
      && (!s'.stuck ==>
            s'.nodes[j] == HandleAll(cfg.Peer(j), s.nodes[j], Reaching(cfg, s, i, socket, p, j)))
  {
    hide HandlePacket, PerformAll, HandleAll, ProxiedTo;
    var o := HandlePacket(cfg.Peer(i), s.nodes[i], socket, p);
    var s1 := s.(nodes := s.nodes[i := o.node]);
    PerformAllNodes(cfg, s1, i, links, o.effects, j);
    var first := if j == i then [(socket, Complete(p))] else [];
    HandleConcat(cfg.Peer(j), s.nodes[j], first, ProxiedTo(cfg, o.effects, j));
    if j == i {
      HandleOne(cfg.Peer(j), s.nodes[j], socket, p);
    } else {
      HandleNone(cfg.Peer(j), s.nodes[j]);
    }
  }

  lemma SameReaching(cfg: Config, s: State, s': State, i: nat, socket: int, p: Packet, j: nat)
    requires i < |cfg.ids| == |cfg.addrs| == |s.nodes| && s'.nodes == s.nodes
    ensures Reaching(cfg, s, i, socket, p, j) == Reaching(cfg, s', i, socket, p, j)
  {
  }

  lemma StepNodes(cfg: Config, s: State, e: Event, j: nat)
    requires |cfg.ids| == |cfg.addrs| == |s.nodes| && Enabled(cfg, s, e) && j < |s.nodes|
    ensures var s' := Step(cfg, s, e);
      && (s.stuck ==> s'.stuck)
      && (!s'.stuck ==>
            s'.nodes[j] == HandleAll(cfg.Peer(j), s.nodes[j], ReachedIn(cfg, s, e, j)))
  {
    hide Handled, HandleAll, Reaching, OverWire, IndexOf, ProxiedTo;
    match e
    case Client(i, r) =>
      var s0 := s.(arrivals := s.arrivals + [Arrival(i, r)]);
      HandledNodes(cfg, s0, i, 0, r.socket, r.packet, j);
      SameReaching(cfg, s, s0, i, r.socket, r.packet, j);
    case Deliver(k) =>
      var (m, s0) := (s.net[k], s.(net := RemoveAt(s.net, k)));
      match IndexOf(cfg.addrs, m.dest) {
        case Some(i) =>
          if i < |s.nodes| && OverWire(m.packet).Some? {
            HandledNodes(cfg, s0, i, m.links, -1, OverWire(m.packet).value, j);
            SameReaching(cfg, s, s0, i, -1, OverWire(m.packet).value, j);
          }
        case None =>
      }
  }

  lemma {:induction false} RunNodes(cfg: Config, s: State, es: seq<Event>, j: nat)
    requires |cfg.ids| == |cfg.addrs| == |s.nodes| && AllEnabled(cfg, s, es) && j < |s.nodes|
    ensures s.stuck ==> Run(cfg, s, es).stuck
    ensures !Run(cfg, s, es).stuck ==>
      Run(cfg, s, es).nodes[j] == HandleAll(cfg.Peer(j), s.nodes[j], LogOf(cfg, s, es, j))
    decreases |es|
  {
    hide Step, HandleAll, ReachedIn, Enabled;
    if es == [] {
      HandleNone(cfg.Peer(j), s.nodes[j]);
    } else {
      StepNodes(cfg, s, es[0], j);
      RunNodes(cfg, Step(cfg, s, es[0]), es[1..], j);
      HandleConcat(cfg.Peer(j), s.nodes[j], ReachedIn(cfg, s, es[0], j),
                   LogOf(cfg, Step(cfg, s, es[0]), es[1..], j));
    }
  }

  // ---------- a process in a ring ----------

  /** The peer executes the packet itself: which connection brought it makes no difference. */
  predicate SocketFree(c: Conf, d: Decoded) {
    d.Complete?
    && (IsControl(d.packet)
        || PeerIsResponsible(c.predId, c.selfId, PseudoHash(d.packet.key)))
  }

  /** The same packets, from the same sockets as far as these matter. */
  predicate SameLog(c: Conf, a: seq<(int, Decoded)>, b: seq<(int, Decoded)>) {
    && |a| == |b|
    && forall k :: 0 <= k < |a| ==> a[k].1 == b[k].1 && (a[k].0 == b[k].0 || SocketFree(c, a[k].1))
  }

  lemma SocketIrrelevant(c: Conf, node: Node, socket: int, socket': int, d: Decoded)
    requires SocketFree(c, d)
    ensures HandlePacket(c, node, socket, d.packet).node == HandlePacket(c, node, socket', d.packet).node
  {
    hide PseudoHash, PeerIsResponsible, OwnTable, OwnReply, Serialize, Has, Releases;
  }

  lemma {:induction false} SameLogSameNode(
    c: Conf, node: Node, a: seq<(int, Decoded)>, b: seq<(int, Decoded)>)
    requires SameLog(c, a, b)
    ensures HandleAll(c, node, a) == HandleAll(c, node, b)
    decreases |a|
  {
    hide HandlePacket, SocketFree;
    if a != [] {
      var n := |a| - 1;
      SameLogSameNode(c, node, a[..n], b[..n]);
      if a[n].0 != b[n].0 {
        SocketIrrelevant(c, HandleAll(c, node, a[..n]), a[n].0, b[n].0, a[n].1);
      }
    }
  }

  /**
   * In every run of the ring, each peer is in the state of its handlers on the packets that
   * reach it. So a process whose server cuts these packets out of its streams, over any rounds,
   * ends in the state that the ring machine has for its peer.
   */
  lemma ProcessInRing(cfg: Config, es: seq<Event>, j: nat, ps: seq<Poll>)
    requires cfg.Ok() && AllEnabled(cfg, Init(|cfg.ids|), es) && j < |cfg.ids|
    requires DrivenRun(cfg.Peer(j), Node(map[], map[]), [], ps)
    ensures LegalPolls([], ps)
    ensures var s := Run(cfg, Init(|cfg.ids|), es); var c := cfg.Peer(j);
      && s.nodes[j] == HandleAll(c, Node(map[], map[]), LogOf(cfg, Init(|cfg.ids|), es, j))
      && (SameLog(c, DeliveredAll([], ps), LogOf(cfg, Init(|cfg.ids|), es, j)) ==>
            FinalNode(c, Node(map[], map[]), [], ps) == s.nodes[j])
  {
    hide Run, AllEnabled, AnswersRight, Partition, Conserved, NoOrphans, HandleAll, LogOf, DrivenRun,
      LegalPolls, DeliveredAll, FinalNode, SameLog, ProcessOk, AfterPolls;
    var (c, empty) := (cfg.Peer(j), Node(map[], map[]));
    ProcessStarts();
    ProcessRuns(c, empty, [], ps);
    EveryRunIsOneMap(cfg, es);
    RunNodes(cfg, Init(|cfg.ids|), es, j);
    if SameLog(c, DeliveredAll([], ps), LogOf(cfg, Init(|cfg.ids|), es, j)) {
      SameLogSameNode(c, empty, DeliveredAll([], ps), LogOf(cfg, Init(|cfg.ids|), es, j));
    }
  }
}
