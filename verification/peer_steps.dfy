/** What one peer does with one packet (praxis2/src/peer.c), as functions of its state. */
module PeerSteps {
  import opened Words
  import opened Packets
  import opened Intervals

  function PseudoHash(key: Bytes): uint16 {
    if |key| >= 2 then From16(key[0], key[1])
    else if |key| == 1 then key[0]
    else 0
  }

  /** The hash of a key is its first two bytes; a shorter key is padded with zeros in front. */
  lemma PseudoHashBytes(key: Bytes)
    ensures |key| >= 2 ==> Big16(PseudoHash(key)) == key[..2]
    ensures |key| == 1 ==> Big16(PseudoHash(key)) == [0] + key
    ensures key == [] ==> Big16(PseudoHash(key)) == [0, 0]
  {
    if |key| >= 2 {
      Big16Inverse(0, key[0], key[1]);
    }
  }

  // ---------- strncpy, which GET uses to copy binary data ----------

  /** strncpy of as many bytes as `s` has: after a NUL only NULs follow. */
  function StrnCopy(s: Bytes): (c: Bytes)
    ensures |c| == |s|
  {
    if s == [] then []
    else if s[0] == 0 then seq(|s|, i => 0)
    else [s[0]] + StrnCopy(s[1..])
  }

  predicate NothingAfterNul(s: Bytes) {
    forall i, j :: 0 <= i < j < |s| && s[i] == 0 ==> s[j] == 0
  }

  /** The copy is the original exactly when no non-zero byte follows a NUL. */
  lemma {:induction false} StrnCopyExactly(s: Bytes)
    ensures StrnCopy(s) == s <==> NothingAfterNul(s)
  {
    if s != [] && s[0] != 0 {
      StrnCopyExactly(s[1..]);
      var t := s[1..];
      assert s == [s[0]] + t;
      if NothingAfterNul(t) {
        forall i, j | 0 <= i < j < |s| && s[i] == 0 ensures s[j] == 0 {
          assert t[i - 1] == 0 && t[j - 1] == s[j];
        }
      }
      if NothingAfterNul(s) {
        forall i, j | 0 <= i < j < |t| && t[i] == 0 ensures t[j] == 0 {
          assert s[i + 1] == 0 && s[j + 1] == t[j];
        }
      }
      assert StrnCopy(s)[1..] == StrnCopy(t);
    } else if s != [] {
      assert NothingAfterNul(s) ==> forall j :: 0 < j < |s| ==> s[0] == 0 && s[j] == 0;
    }
  }

  /** Every byte behind a NUL reads as zero, every other byte is copied. */
  lemma {:induction false} StrnCopyAt(s: Bytes, k: nat)
    requires k < |s|
    ensures StrnCopy(s)[k] == if 0 in s[..k] then 0 else s[k]
  {
    if s[0] == 0 {
      assert k > 0 ==> s[..k][0] == 0;
    } else if k > 0 {
      StrnCopyAt(s[1..], k - 1);
      assert s[..k] == [s[0]] + s[1..][..k - 1];
    }
  }

  // ---------- state and effects ----------

  datatype Addr = Addr(ip: uint32, port: uint16)

  /** The three peers a node knows: predecessor, itself and successor. */
  datatype Conf = Conf(predId: uint16, selfId: uint16, succId: uint16, self: Addr, succ: Addr)

  datatype Request = Request(socket: int, packet: Packet)

  datatype Node = Node(table: map<Bytes, Bytes>, pending: map<uint16, seq<Request>>)

  /** What a handler does to the outside, in order. */
  datatype Effect =
    | Answer(socket: int, request: Packet, reply: Bytes)
    | Proxy(socket: int, request: Packet, target: Addr)
    | Forward(target: Addr, packet: Packet)
    | CloseSocket(socket: int)

  datatype Verdict = RemoveClient | KeepClient

  datatype Outcome = Outcome(node: Node, effects: seq<Effect>, verdict: Verdict)

  function Pending(node: Node, h: uint16): seq<Request> {
    if h in node.pending then node.pending[h] else []
  }

  // ---------- data packets ----------

  /** GET wins over SET; whatever is neither is a DELETE, for the last test is always true. */
  function OwnTable(table: map<Bytes, Bytes>, p: Packet): map<Bytes, Bytes> {
    if Has(p.flags, GET) then table
    else if Has(p.flags, SET) then table[p.key := p.value]
    else table - {p.key}
  }

  function GetReply(table: map<Bytes, Bytes>, key: Bytes): Packet {
    var ack := NewPacket(GET + ACK);
    if key in table then
      var value := table[key];
      ack.(keyLen := |key| % 0x1_0000, key := StrnCopy(key),
           valueLen := |value| % 0x1_0000_0000, value := StrnCopy(value))
    else ack
  }

  function OwnReply(table: map<Bytes, Bytes>, p: Packet): Packet {
    if Has(p.flags, GET) then GetReply(table, p.key)
    else if Has(p.flags, SET) then NewPacket(SET + ACK)
    else NewPacket(DEL + ACK)
  }

  function HandleOwnRequest(node: Node, socket: int, p: Packet): Outcome {
    Outcome(node.(table := OwnTable(node.table, p)),
            [Answer(socket, p, Serialize(OwnReply(node.table, p)))],
            RemoveClient)
  }

  function LookupPacket(c: Conf, h: uint16): Packet {
    NewPacket(CTRL + LKUP)
    .(hashId := h, nodeId := c.selfId, nodeIp := c.self.ip, nodePort := c.self.port)
  }

  function HandleData(c: Conf, node: Node, socket: int, p: Packet): Outcome {
    var h := PseudoHash(p.key);
    if PeerIsResponsible(c.predId, c.selfId, h) then
      HandleOwnRequest(node, socket, p)
    else if PeerIsResponsible(c.selfId, c.succId, h) then
      Outcome(node, [Proxy(socket, p, c.succ)], RemoveClient)
    else
      Outcome(node.(pending := node.pending[h := Pending(node, h) + [Request(socket, p)]]),
              [Forward(c.succ, LookupPacket(c, h))],
              KeepClient)
  }

  /** A client's connection stays open exactly when its request is parked and not served. */
  lemma KeptExactlyWhileParked(c: Conf, node: Node, socket: int, p: Packet)
    ensures var o := HandleData(c, node, socket, p); var h := PseudoHash(p.key);
      && (o.verdict == KeepClient <==> Pending(o.node, h) == Pending(node, h) + [Request(socket, p)])
      && (o.verdict == RemoveClient <==>
            |o.effects| == 1 && (o.effects[0].Answer? || o.effects[0].Proxy?)
            && o.effects[0].socket == socket && o.effects[0].request == p)
  {
    hide PseudoHash, PeerIsResponsible, OwnReply, OwnTable, Serialize;
    var h := PseudoHash(p.key);
    assert |Pending(node, h) + [Request(socket, p)]| == |Pending(node, h)| + 1;
  }

  // ---------- control packets ----------

  function ReplyPacket(p: Packet, id: uint16, addr: Addr): Packet {
    NewPacket(CTRL + RPLY)
    .(hashId := p.hashId, nodeId := id, nodeIp := addr.ip, nodePort := addr.port)
  }

  /** The reply goes to the address that the lookup carries. */
  function AnswerLookup(p: Packet, id: uint16, addr: Addr): Effect {
    Forward(Addr(p.nodeIp, p.nodePort), ReplyPacket(p, id, addr))
  }

  function Releases(rs: seq<Request>, target: Addr): seq<Effect> {
    if rs == [] then []
    else [Proxy(rs[0].socket, rs[0].packet, target), CloseSocket(rs[0].socket)]
         + Releases(rs[1..], target)
  }

  /** Each parked request, in order, is proxied and then its socket is closed. */
  lemma {:induction false} ReleasesShape(rs: seq<Request>, target: Addr, i: nat)
    requires i < |rs|
    ensures var es := Releases(rs, target);
      && |es| == 2 * |rs|
      && es[2 * i] == Proxy(rs[i].socket, rs[i].packet, target)
      && es[2 * i + 1] == CloseSocket(rs[i].socket)
    decreases |rs|
  {
    if i > 0 {
      ReleasesShape(rs[1..], target, i - 1);
    } else if |rs| > 1 {
      ReleasesShape(rs[1..], target, 0);
    } else {
      assert Releases(rs[1..], target) == [];
    }
  }

  /** Releasing one more request adds its two effects at the end. */
  lemma {:induction false} ReleasesSnoc(rs: seq<Request>, r: Request, target: Addr)
    ensures Releases(rs + [r], target)
      == Releases(rs, target) + [Proxy(r.socket, r.packet, target), CloseSocket(r.socket)]
    decreases |rs|
  {
    if rs == [] {
      assert [r][1..] == [];
    } else {
      assert (rs + [r])[1..] == rs[1..] + [r];
      ReleasesSnoc(rs[1..], r, target);
    }
  }

  function HandleCtrl(c: Conf, node: Node, p: Packet): Outcome {
    if Has(p.flags, LKUP) then
      if PeerIsResponsible(c.predId, c.selfId, p.hashId) then
        Outcome(node, [AnswerLookup(p, c.selfId, c.self)], RemoveClient)
      else if PeerIsResponsible(c.selfId, c.succId, p.hashId) then
        Outcome(node, [AnswerLookup(p, c.succId, c.succ)], RemoveClient)
      else
        Outcome(node, [Forward(c.succ, p)], RemoveClient)
    else if Has(p.flags, RPLY) then
      Outcome(node.(pending := node.pending - {p.hashId}),
              Releases(Pending(node, p.hashId), Addr(p.nodeIp, p.nodePort)),
              RemoveClient)
    else
      Outcome(node, [], RemoveClient)
  }

  /** Both fields of the answer name the peer, and it is the answer to this lookup. */
  predicate Names(q: Packet, p: Packet, id: uint16, addr: Addr) {
    && !Has(q.flags, LKUP) && Has(q.flags, RPLY) && IsControl(q) && q.hashId == p.hashId
    && q.nodeId == id && q.nodeIp == addr.ip && q.nodePort == addr.port
  }

  /**
   * Whoever sends a lookup, whatever the peer knows of the ring: it is answered with the peer
   * itself or with its successor, whichever interval has the hash, to the address that the
   * lookup carries; if neither has it, the lookup goes on unchanged. The tables stay as they are.
   */
  lemma LookupHandled(c: Conf, node: Node, p: Packet)
    requires Has(p.flags, LKUP)
    ensures var o := HandleCtrl(c, node, p);
      && o.node == node && o.verdict == RemoveClient
      && |o.effects| == 1 && o.effects[0].Forward?
      && var (to, q) := (o.effects[0].target, o.effects[0].packet);
        var (mine, next) := (PeerIsResponsible(c.predId, c.selfId, p.hashId),
                             PeerIsResponsible(c.selfId, c.succId, p.hashId));
        && (mine || next ==> to.ip == p.nodeIp && to.port == p.nodePort)
        && (mine ==> Names(q, p, c.selfId, c.self) && InArc(c.predId, c.selfId, p.hashId))
        && (!mine && next ==> Names(q, p, c.succId, c.succ) && InArc(c.selfId, c.succId, p.hashId))
        && (!mine && !next ==> to == c.succ && q == p)
  {
    hide PeerIsResponsible, InArc;
    CodeDiffersExactly(c.predId, c.selfId, p.hashId);
    CodeDiffersExactly(c.selfId, c.succId, p.hashId);
  }

  /** A reply releases what is parked for its hash and nothing else, and sends no packet itself. */
  lemma ReplyHandled(c: Conf, node: Node, p: Packet)
    requires !Has(p.flags, LKUP) && Has(p.flags, RPLY)
    ensures var o := HandleCtrl(c, node, p);
      && o.node.table == node.table && o.verdict == RemoveClient
      && (forall h :: Pending(o.node, h) == if h == p.hashId then [] else Pending(node, h))
      && o.effects == Releases(Pending(node, p.hashId), Addr(p.nodeIp, p.nodePort))
  {
    hide Has, Releases;
  }

  /** Any other control packet is ignored. */
  lemma OthersIgnored(c: Conf, node: Node, p: Packet)
    requires !Has(p.flags, LKUP) && !Has(p.flags, RPLY)
    ensures HandleCtrl(c, node, p) == Outcome(node, [], RemoveClient)
  {
  }

  function HandlePacket(c: Conf, node: Node, socket: int, p: Packet): Outcome {
    if IsControl(p) then HandleCtrl(c, node, p) else HandleData(c, node, socket, p)
  }

  /** A second reply for the same hash finds nothing parked: it serves no request. */
  lemma DuplicateReplyServesNone(c: Conf, node: Node, p: Packet, q: Packet)
    requires !Has(p.flags, LKUP) && Has(p.flags, RPLY) && !Has(q.flags, LKUP) && Has(q.flags, RPLY)
    requires p.hashId == q.hashId
    ensures var once := HandleCtrl(c, node, p).node; var again := HandleCtrl(c, once, q);
      again.node == once && again.effects == []
      && forall h :: h != p.hashId ==> Pending(once, h) == Pending(node, h)
  {
    hide Has;
    var once := HandleCtrl(c, node, p).node;
    assert Pending(once, p.hashId) == [];
    assert once.pending - {p.hashId} == once.pending;
  }

  // ---------- the meaning of a request ----------

  datatype Op = Get(key: Bytes) | Set(key: Bytes, value: Bytes) | Delete(key: Bytes) | Invalid

  /** Whether the packet names one of the three methods. */
  predicate HasMethod(p: Packet) {
    Has(p.flags, GET) || Has(p.flags, SET) || Has(p.flags, DEL)
  }

  /** What the packet asks for: without a method bit the request is invalid. */
  function IntendedOp(p: Packet): Op {
    if !HasMethod(p) then Invalid
    else if Has(p.flags, GET) then Get(p.key)
    else if Has(p.flags, SET) then Set(p.key, p.value)
    else Delete(p.key)
  }

  /** What the code does instead: an invalid request is a DELETE. */
  function OpOf(p: Packet): Op {
    if IntendedOp(p) == Invalid then Delete(p.key) else IntendedOp(p)
  }

  function Apply(m: map<Bytes, Bytes>, op: Op): map<Bytes, Bytes> {
    match op
    case Get(_) => m
    case Set(k, v) => m[k := v]
    case Delete(k) => m - {k}
    case Invalid => m
  }

  datatype Result = Found(key: Bytes, value: Bytes) | Absent | Stored | Deleted | Refused

  function Respond(m: map<Bytes, Bytes>, op: Op): Result {
    match op
    case Get(k) => if k in m then Found(k, m[k]) else Absent
    case Set(_, _) => Stored
    case Delete(_) => Deleted
    case Invalid => Refused
  }

  /** The damage strncpy does to a found entry. */
  function Copied(r: Result): Result {
    match r
    case Found(k, v) => Found(StrnCopy(k), StrnCopy(v))
    case other => other
  }

  /** What a client reads in the bytes of an acknowledgement; one without flags is a refusal. */
  function ReadReply(b: Bytes): Option<Result> {
    match PacketDecode(b)
    case Complete(p) =>
      if p.flags == 0 then Some(Refused)
      else if IsControl(p) || !Has(p.flags, ACK) then None
      else if Has(p.flags, GET) then
        Some(if p.keyLen == 0 && p.valueLen == 0 then Absent else Found(p.key, p.value))
      else if Has(p.flags, SET) then Some(Stored)
      else Some(Deleted)
    case _ => None
  }

  /** The lengths of an entry fit the length fields of a packet. */
  predicate Fits(key: Bytes, value: Bytes) {
    |key| < 0x1_0000 && |value| < 0x1_0000_0000
  }

  predicate AllFit(table: map<Bytes, Bytes>) {
    forall k :: k in table ==> Fits(k, table[k])
  }

  /** Every entry came in a packet with a body: its lengths fit and are not both zero. */
  predicate Storable(key: Bytes, value: Bytes) {
    Fits(key, value) && !(key == [] && value == [])
  }

  predicate AllStorable(table: map<Bytes, Bytes>) {
    forall k :: k in table ==> Storable(k, table[k])
  }

  /** The acknowledgement tells the client what a map would answer, up to strncpy. */
  lemma ReplyTellsResult(table: map<Bytes, Bytes>, p: Packet)
    requires AllStorable(table)
    ensures ReadReply(Serialize(OwnReply(table, p))) == Some(Copied(Respond(table, OpOf(p))))
  {
    hide Serialize, PacketDecode, StrnCopy;
    var ack := OwnReply(table, p);
    assert Filled(ack) && !IsControl(ack) && Travelling(ack) == ack;
    DecodeUndoesSerialize(ack, []);
    assert Serialize(ack) + [] == Serialize(ack);
  }

  // ---------- where a request is not what it asks for ----------

  /** The acknowledgement that the branches are written for; an invalid request gets an empty one. */
  function IntendedReply(table: map<Bytes, Bytes>, p: Packet): Packet {
    match IntendedOp(p)
    case Get(k) => GetReply(table, k)
    case Set(_, _) => NewPacket(SET + ACK)
    case Delete(_) => NewPacket(DEL + ACK)
    case Invalid => NewPacket(0)
  }

  /** The intended acknowledgement tells the client the intended result, up to strncpy. */
  lemma IntendedReplyReads(table: map<Bytes, Bytes>, p: Packet)
    requires AllStorable(table)
    ensures ReadReply(Serialize(IntendedReply(table, p)))
      == Some(Copied(Respond(table, IntendedOp(p))))
  {
    hide Serialize, PacketDecode, StrnCopy;
    var ack := IntendedReply(table, p);
    assert Filled(ack) && !IsControl(ack) && Travelling(ack) == ack;
    DecodeUndoesSerialize(ack, []);
    assert Serialize(ack) + [] == Serialize(ack);
  }

  /**
   * The test for DELETE is always true. The reply is the one that the request asks for exactly
   * when it has a method bit; the table also when the key is not there to be lost.
   */
  lemma MethodMeetsExactly(table: map<Bytes, Bytes>, p: Packet)
    ensures OwnReply(table, p) == IntendedReply(table, p) <==> HasMethod(p)
    ensures OwnTable(table, p) == Apply(table, IntendedOp(p)) <==> HasMethod(p) || p.key !in table
    ensures OpOf(p) == IntendedOp(p) <==> HasMethod(p)
  {
    hide GetReply;
    if !HasMethod(p) {
      assert p.key !in OwnTable(table, p);
      assert p.key !in table ==> OwnTable(table, p) == table;
    }
  }

  /** A packet without any flag, for key [1, 1]. */
  const NO_METHOD := NewPacket(0).(keyLen := 2, key := [1, 1])

  // ---------- what a client gets back ----------

  /**
   * A GET of an entry, answered after the SET that stored it, reads as that entry exactly when
   * neither key nor value has a non-zero byte behind a NUL.
   */
  lemma GetReadsStoredExactly(table: map<Bytes, Bytes>, store: Packet, read: Packet)
    requires AllStorable(table) && Storable(store.key, store.value) && read.key == store.key
    requires IntendedOp(store).Set? && IntendedOp(read).Get?
    ensures ReadReply(Serialize(OwnReply(OwnTable(table, store), read)))
      == Some(Found(store.key, store.value))
      <==> NothingAfterNul(store.key) && NothingAfterNul(store.value)
  {
    hide Serialize, ReadReply, StrnCopy, NothingAfterNul, OwnReply, Has;
    ReplyTellsResult(OwnTable(table, store), read);
    StrnCopyExactly(store.key);
    StrnCopyExactly(store.value);
  }
}
