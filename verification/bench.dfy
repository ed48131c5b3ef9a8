/** What the test bench (praxis2/tests.py, rnvs_tb/packet.py) sees of a peer, byte by byte. */
module TestBench {
  import opened Words
  import opened Packets
  import opened Intervals
  import opened PeerSteps
  import opened RingMachine
  import opened RingSafety
  import opened RingInvariant
  import opened RingDelivery
  import opened RingTheorems
  import PyPackets

  // ---------- hashing ----------

  /** pseudo_hash of the test bench. */
  function BenchHash(key: Bytes): uint16 {
    if |key| >= 2 then (key[0] as int) * 0x100 + key[1] as int
    else if key == [] then 0
    else (key[0] as int) * 0x100
  }

  /** The two hashes differ exactly for a key of one non-zero byte. */
  lemma HashesAgreeExactly(key: Bytes)
    ensures PseudoHash(key) == BenchHash(key) <==> !(|key| == 1 && key[0] != 0)
  {
  }

  /** The keys of test_trigger_lookup_minimal and test_get_full_circle. */
  const TRIGGER_KEY: Bytes := [84, 114, 105, 103, 103, 101, 114, 95, 100, 97, 116, 95, 108, 111,
                               111, 107, 117, 112]
  const CIRCLE_KEY: Bytes := [84, 104, 101, 32, 99, 105, 105, 105, 114, 114, 99, 108, 101, 32, 111,
                              102, 32, 67, 104, 111, 114, 100, 33]

  lemma BenchKeys()
    ensures PseudoHash(TRIGGER_KEY) == 21618 && PseudoHash(CIRCLE_KEY) == 21608
  {
  }

  /** In every run an entry is stored exactly at the peer whose interval has the key's first bytes. */
  lemma StoredByFirstBytes(cfg: Config, es: seq<Event>, i: nat, key: Bytes)
    requires cfg.Ok() && AllEnabled(cfg, Init(|cfg.ids|), es) && i < |cfg.ids| && |key| >= 2
    ensures var s := Run(cfg, Init(|cfg.ids|), es);
      key in s.nodes[i].table <==>
        key in MapAfter(s.served)
        && InArc(cfg.ids[Pred(|cfg.ids|, i)], cfg.ids[i], BenchHash(key))
        && BenchHash(key) > cfg.ids[0]
  {
    hide Run, AllEnabled, MapAfter, AnswersRight, Conserved, NoOrphans;
    EveryRunIsOneMap(cfg, es);
    var h := PseudoHash(key);
    HashesAgreeExactly(key);
    OneOwnerIfCovered(cfg.ids, i, h);
    OneCircularOwner(cfg.ids, i, h);
  }

  // ---------- acknowledgements ----------

  function Verb(op: Op): PyPackets.Method
    requires op != Invalid
  {
    match op
    case Get(_) => PyPackets.Method.Get
    case Set(_, _) => PyPackets.Method.Set
    case Delete(_) => PyPackets.Method.Delete
  }

  /** The acknowledgement that a map gives, as the test bench writes it. */
  function AckOf(m: map<Bytes, Bytes>, p: Packet): PyPackets.PyPacket {
    var (key, value) := match Copied(Respond(m, OpOf(p)))
      case Found(k, v) => (k, v)
      case _ => ([], []);
    PyPackets.DataPacket(Verb(OpOf(p)), key, value, true)
  }

  /** The peer's acknowledgement has the bytes that the test bench would write, and reads. */
  lemma AckIsPython(table: map<Bytes, Bytes>, p: Packet)
    requires AllStorable(table)
    ensures PyPackets.PySerialize(AckOf(table, p))
      == PyPackets.Returned(Serialize(OwnReply(table, p)))
    ensures PyPackets.PyParse(Serialize(OwnReply(table, p))) == PyPackets.Returned(AckOf(table, p))
  {
    hide Serialize, StrnCopy, PyPackets.PySerialize, PyPackets.PyParse;
    var ack := AckOf(table, p);
    assert PyPackets.Proper(ack) && PyPackets.InRange(ack);
    assert PyPackets.AsC(ack) == OwnReply(table, p);
    PyPackets.SameBytes(ack);
    PyPackets.PythonRoundTrip(ack);
  }

  lemma InitSize(n: nat)
    ensures |Init(n).nodes| == n
  {
  }

  /** In every run, byte for byte, each client is sent the acknowledgement of the global map. */
  lemma EveryAnswerIsPython(cfg: Config, es: seq<Event>, j: nat)
    requires cfg.Ok() && AllEnabled(cfg, Init(|cfg.ids|), es)
    requires j < |Run(cfg, Init(|cfg.ids|), es).served|
    ensures var log := Run(cfg, Init(|cfg.ids|), es).served;
      var ack := AckOf(MapAfter(log[..j]), log[j].request.packet);
      && PyPackets.PySerialize(ack) == PyPackets.Returned(log[j].reply)
      && PyPackets.PyParse(log[j].reply) == PyPackets.Returned(ack)
  {
    hide Init, Run, AllEnabled, Partition, Conserved, NoOrphans, MapAfter, AckOf, OwnReply, Serialize,
      PyPackets.PySerialize, PyPackets.PyParse, ReadReply;
    InitSize(|cfg.ids|);
    EveryRunIsOneMap(cfg, es);
    var log := Run(cfg, Init(|cfg.ids|), es).served;
    assert AnswerRight(MapAfter(log[..j]), log[j]);
    AckIsPython(MapAfter(log[..j]), log[j].request.packet);
  }

  // ---------- lookups and replies that the peer sends ----------

  function PyControl(kind: PyPackets.Method, h: uint16, id: uint16, a: Addr): PyPackets.PyPacket {
    PyPackets.ControlPacket(kind, h, id, a.ip, a.port)
  }

  /** The packet goes out as the bytes of this one, and the test bench reads it so. */
  predicate SpeaksAs(p: Packet, q: PyPackets.PyPacket) {
    && PyPackets.PySerialize(q) == PyPackets.Returned(Serialize(p))
    && PyPackets.PyParse(Serialize(p)) == PyPackets.Returned(q)
  }

  lemma LookupIsPython(c: Conf, h: uint16)
    ensures SpeaksAs(LookupPacket(c, h), PyControl(PyPackets.Lookup, h, c.selfId, c.self))
  {
    hide Serialize, PyPackets.PySerialize, PyPackets.PyParse;
    var q := PyControl(PyPackets.Lookup, h, c.selfId, c.self);
    assert PyPackets.AsC(q) == LookupPacket(c, h);
    PyPackets.SameBytes(q);
    PyPackets.PythonRoundTrip(q);
  }

  lemma ReplyIsPython(p: Packet, id: uint16, addr: Addr)
    ensures SpeaksAs(ReplyPacket(p, id, addr), PyControl(PyPackets.Reply, p.hashId, id, addr))
  {
    hide Serialize, PyPackets.PySerialize, PyPackets.PyParse;
    var q := PyControl(PyPackets.Reply, p.hashId, id, addr);
    assert PyPackets.AsC(q) == ReplyPacket(p, id, addr);
    PyPackets.SameBytes(q);
    PyPackets.PythonRoundTrip(q);
  }

  /** A LOOKUP that names peer `i`, or a REPLY that names the owner, peer `i`. */
  predicate NamesPeer(cfg: Config, p: Packet, i: nat)
    requires cfg.Ok() && i < |cfg.ids|
  {
    || SpeaksAs(p, PyControl(PyPackets.Lookup, p.hashId, cfg.ids[i], cfg.addrs[i]))
    || (i == Owner(cfg.ids, p.hashId)
        && SpeaksAs(p, PyControl(PyPackets.Reply, p.hashId, cfg.ids[i], cfg.addrs[i])))
  }

  /** In every run, every message in flight is one of these, byte for byte. */
  lemma EveryMessageIsPython(cfg: Config, s: State, k: nat)
    requires Inv(cfg, s) && k < |s.net|
    ensures cfg.Ok() && exists i :: 0 <= i < |cfg.ids| && NamesPeer(cfg, s.net[k].packet, i)
  {
    hide Refines, ParkedRight, NoOrphans, Conserved, Responsible, Owner, SpeaksAs;
    var m := s.net[k];
    assert MsgOk(cfg, m);
    if i: nat, j: nat :| LookupOnItsWay(cfg, m, i, j) {
      LookupFacts(cfg, m, i, j);
      LookupIsPython(cfg.Peer(i), m.packet.hashId);
      assert NamesPeer(cfg, m.packet, i);
    } else {
      var i: nat :| ReplyOnItsWay(cfg, m, i);
      var o := Owner(cfg.ids, m.packet.hashId);
      ReplyIsPython(m.packet, cfg.ids[o], cfg.addrs[o]);
      assert m.packet == ReplyPacket(m.packet, cfg.ids[o], cfg.addrs[o]);
      assert NamesPeer(cfg, m.packet, o);
    }
  }

  // ---------- packets that the test bench sends ----------

  /** What the peer decodes from the bytes of a Python packet. */
  function Received(q: PyPackets.PyPacket): (p: Packet)
    requires PyPackets.Proper(q) && PyPackets.InRange(q)
    ensures PacketDecode(PyPackets.PySerialize(q).value) == Complete(p)
    ensures IsControl(p) <==> q.ControlPacket?
  {
    PyPackets.CReadsFitting(q);
    PyPackets.SameBytes(q);
    PyPackets.AsC(q)
  }

  /** A Python LOOKUP is handled as one for its hash that asks for an answer to its address. */
  lemma PythonLookupHandled(c: Conf, node: Node, socket: int, q: PyPackets.PyPacket)
    requires q.ControlPacket? && q.kind == PyPackets.Lookup && PyPackets.InRange(q)
    ensures var p := Received(q);
      && Has(p.flags, LKUP) && p.hashId == q.hashId && p.nodeIp == q.ip && p.nodePort == q.port
      && HandlePacket(c, node, socket, p) == HandleCtrl(c, node, p)
  {
    hide HandleCtrl, PacketDecode, PyPackets.PySerialize, PyPackets.InRange;
  }

  /** A Python REPLY releases the requests for its hash to the address that it names. */
  lemma PythonReplyHandled(c: Conf, node: Node, socket: int, q: PyPackets.PyPacket)
    requires q.ControlPacket? && q.kind == PyPackets.Reply && PyPackets.InRange(q)
    ensures var o := HandlePacket(c, node, socket, Received(q));
      && o.node.table == node.table && o.verdict == RemoveClient
      && (forall h :: Pending(o.node, h) == if h == q.hashId then [] else Pending(node, h))
      && o.effects == Releases(Pending(node, q.hashId), Addr(q.ip, q.port))
  {
    hide HandleCtrl, Releases, PacketDecode, PyPackets.PySerialize;
    ReplyHandled(c, node, Received(q));
  }

  lemma ReleasesOne(r: Request, target: Addr)
    ensures Releases([r], target) == [Proxy(r.socket, r.packet, target), CloseSocket(r.socket)]
  {
    assert [r][1..] == [];
  }

  /**
   * test_get_full_circle, for every peer, key and request: a request for a hash that neither the
   * peer nor its successor has is kept, and a LOOKUP for the first two bytes of the key with the
   * peer's own id and address goes to the successor. A REPLY for that hash then has the request
   * proxied to the address that it names, and the client's connection closed.
   */
  lemma FullCircle(c: Conf, node: Node, socket: int, q: PyPackets.PyPacket, from: int,
                   reply: PyPackets.PyPacket)
    requires q.DataPacket? && PyPackets.Proper(q) && PyPackets.InRange(q) && |q.key| >= 2
    requires var h := BenchHash(q.key);
      && !PeerIsResponsible(c.predId, c.selfId, h) && !PeerIsResponsible(c.selfId, c.succId, h)
      && Pending(node, h) == []
      && reply.ControlPacket? && reply.kind == PyPackets.Reply && PyPackets.InRange(reply)
      && reply.hashId == h
    ensures var h := BenchHash(q.key); var p := Received(q);
      var o := HandlePacket(c, node, socket, p);
      && o.verdict == KeepClient
      && |o.effects| == 1 && o.effects[0].Forward? && o.effects[0].target == c.succ
      && SpeaksAs(o.effects[0].packet, PyControl(PyPackets.Lookup, h, c.selfId, c.self))
      && HandlePacket(c, o.node, from, Received(reply)).effects
         == [Proxy(socket, p, Addr(reply.ip, reply.port)), CloseSocket(socket)]
  {
    hide PeerIsResponsible, HandleCtrl, Releases, SpeaksAs, PseudoHash, BenchHash;
    HashesAgreeExactly(q.key);
    var h := BenchHash(q.key);
    var p := Received(q);
    assert p.key == q.key;
    LookupIsPython(c, h);
    var o := HandlePacket(c, node, socket, p);
    PythonReplyHandled(c, o.node, from, reply);
    assert Pending(o.node, h) == [Request(socket, p)];
    ReleasesOne(Request(socket, p), Addr(reply.ip, reply.port));
  }
}
