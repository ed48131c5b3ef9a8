/**
 * A static ring of peers as a state machine. A step is one packet handled by one peer; a
 * proxied request runs at its target within the step, for proxy_request waits for the answer.
 */
module RingMachine {
  import opened Words
  import opened Packets
  import opened Intervals
  import opened Framing
  import opened PeerSteps

  /** The ids in ascending order and the address of each peer. */
  datatype Config = Config(ids: seq<uint16>, addrs: seq<Addr>) {
    predicate Ok() {
      && Ring(ids) && |addrs| == |ids|
      && forall i, j :: 0 <= i < j < |addrs| ==> addrs[i] != addrs[j]
    }

    function Peer(i: nat): Conf
      requires i < |ids| == |addrs|
    {
      var s := Succ(|ids|, i);
      Conf(ids[Pred(|ids|, i)], ids[i], ids[s], addrs[i], addrs[s])
    }
  }

  function IndexOf(addrs: seq<Addr>, a: Addr): Option<nat> {
    if addrs == [] then None
    else if addrs[|addrs| - 1] == a then Some(|addrs| - 1)
    else IndexOf(addrs[..|addrs| - 1], a)
  }

  /** A control packet in flight; `links` counts the ring links it has crossed as a lookup. */
  datatype Msg = Msg(dest: Addr, packet: Packet, links: nat)

  /** History: a request that a client sent to peer `entry`, and one that was answered. */
  datatype Arrival = Arrival(entry: nat, request: Request)
  datatype Served = Served(entry: nat, request: Request, reply: Bytes)

  /**
   * `net` holds the packets in flight in no particular order. `stuck` records that a packet
   * could not be handed over: no such address, not deliverable as bytes, or a proxied request
   * that its target does not answer itself.
   */
  datatype State = State(
    nodes: seq<Node>, net: seq<Msg>, arrivals: seq<Arrival>, served: seq<Served>, stuck: bool)

  function Init(n: nat): State {
    State(seq(n, _ => Node(map[], map[])), [], [], [], false)
  }

  /** The packet that the receiving server cuts out of the bytes of `p`. */
  function OverWire(p: Packet): Option<Packet> {
    var (ds, v) := Greedy(Serialize(p));
    if |ds| == 1 && ds[0].Complete? && v == FRESH then Some(ds[0].packet) else None
  }

  /** One effect of a packet handled at peer `i`, carried by a message with `links` links. */
  function Perform(cfg: Config, s: State, i: nat, links: nat, e: Effect): State
    requires |cfg.ids| == |cfg.addrs| == |s.nodes|
  {
    match e
    case Answer(socket, request, reply) =>
      s.(served := s.served + [Served(i, Request(socket, request), reply)])
    case Forward(target, packet) =>
      s.(net := s.net + [Msg(target, packet, links + 1)])
    case CloseSocket(_) => s
    case Proxy(socket, request, target) =>
      match IndexOf(cfg.addrs, target)
      case Some(t) =>
        if t < |s.nodes| && OverWire(request).Some? then
          var o := HandlePacket(cfg.Peer(t), s.nodes[t], socket, OverWire(request).value);
          if |o.effects| == 1 && o.effects[0].Answer? then
            s.(nodes := s.nodes[t := o.node],
               served := s.served + [Served(i, Request(socket, request), o.effects[0].reply)])
          else s.(stuck := true)
        else s.(stuck := true)
      case None => s.(stuck := true)
  }

  function PerformAll(cfg: Config, s: State, i: nat, links: nat, es: seq<Effect>): (r: State)
    requires |cfg.ids| == |cfg.addrs| == |s.nodes|
    ensures |r.nodes| == |s.nodes|
    decreases |es|
  {
    if es == [] then s else PerformAll(cfg, Perform(cfg, s, i, links, es[0]), i, links, es[1..])
  }

  /** A client sends a data packet to peer `at`; packet `k` in flight is delivered. */
  datatype Event = Client(at: nat, request: Request) | Deliver(k: nat)

  predicate Enabled(cfg: Config, s: State, e: Event) {
    match e
    case Client(at, r) => at < |s.nodes| && !IsControl(r.packet) && Deliverable(r.packet)
    case Deliver(k) => k < |s.net|
  }

  function Handled(cfg: Config, s: State, i: nat, links: nat, socket: int, p: Packet): (r: State)
    requires i < |cfg.ids| == |cfg.addrs| == |s.nodes|
    ensures |r.nodes| == |s.nodes|
  {
    var o := HandlePacket(cfg.Peer(i), s.nodes[i], socket, p);
    PerformAll(cfg, s.(nodes := s.nodes[i := o.node]), i, links, o.effects)
  }

  function Step(cfg: Config, s: State, e: Event): (r: State)
    requires |cfg.ids| == |cfg.addrs| == |s.nodes| && Enabled(cfg, s, e)
    ensures |r.nodes| == |s.nodes|
  {
    match e
    case Client(i, r) =>
      Handled(cfg, s.(arrivals := s.arrivals + [Arrival(i, r)]), i, 0, r.socket, r.packet)
    case Deliver(k) =>
      var m := s.net[k];
      var s' := s.(net := RemoveAt(s.net, k));
      match IndexOf(cfg.addrs, m.dest)
      case Some(i) =>
        if i < |s.nodes| && OverWire(m.packet).Some?
        then Handled(cfg, s', i, m.links, -1, OverWire(m.packet).value)
        else s'.(stuck := true)
      case None => s'.(stuck := true)
  }

  predicate AllEnabled(cfg: Config, s: State, es: seq<Event>)
    requires |cfg.ids| == |cfg.addrs| == |s.nodes|
    decreases |es|
  {
    es == [] || (Enabled(cfg, s, es[0]) && AllEnabled(cfg, Step(cfg, s, es[0]), es[1..]))
  }

  function Run(cfg: Config, s: State, es: seq<Event>): (r: State)
    requires |cfg.ids| == |cfg.addrs| == |s.nodes| && AllEnabled(cfg, s, es)
    ensures |r.nodes| == |s.nodes|
    decreases |es|
  {
    if es == [] then s else Run(cfg, Step(cfg, s, es[0]), es[1..])
  }

  /** An address is found exactly if it belongs to a peer. */
  lemma {:induction false} IndexOfExactly(addrs: seq<Addr>, a: Addr)
    ensures IndexOf(addrs, a).None? <==> a !in addrs
    ensures IndexOf(addrs, a).Some? ==>
      IndexOf(addrs, a).value < |addrs| && addrs[IndexOf(addrs, a).value] == a
  {
    if addrs != [] {
      IndexOfExactly(addrs[..|addrs| - 1], a);
    }
  }

  lemma {:induction false} IndexOfAddr(addrs: seq<Addr>, i: nat)
    requires i < |addrs| && forall j, k :: 0 <= j < k < |addrs| ==> addrs[j] != addrs[k]
    ensures IndexOf(addrs, addrs[i]) == Some(i)
  {
    if i < |addrs| - 1 {
      IndexOfAddr(addrs[..|addrs| - 1], i);
    }
  }

  lemma OverWireIs(p: Packet)
    requires Deliverable(p)
    ensures OverWire(p) == Some(p)
  {
    hide Serialize, Greedy, Deliverable;
    DeliverableArrives(p);
  }
}
