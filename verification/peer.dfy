/** The packet handlers of praxis2/src/peer.c over the two tables of a peer. */
module Peers {
  import opened Words
  import opened Packets
  import opened Intervals
  import opened PeerSteps
  import opened UtHash
  import opened HashTables
  import opened Requests

  /** The branches of handle_own_request: runs the operation and fills in the acknowledgement. */
  method ExecuteOwn(ht: HTable, p: Packet) returns (ack: Packet)
    requires Sound(ht) && AllFit(Contents(ht)) && Filled(p)
    modifies Footprint(ht)
    ensures Sound(ht) && fresh(Footprint(ht) - old(Footprint(ht)))
    ensures Contents(ht) == OwnTable(old(Contents(ht)), p) && AllFit(Contents(ht))
    ensures ack == OwnReply(old(Contents(ht)), p) && Filled(ack)
    ensures SerializeData(ack) == Serialize(ack)
  {
    hide Sound, Contents, Entries, StrnCopy;
    ack := NewPacket(0);
    if Has(p.flags, GET) {
      ack := ack.(flags := GET + ACK);
      var entry := HtableGet(ht, p.key);
      if entry != null {
        ack := ack.(key := StrnCopy(entry.key), keyLen := |entry.key| % 0x1_0000);
        ack := ack.(value := StrnCopy(entry.value), valueLen := |entry.value| % 0x1_0000_0000);
      }
    } else if Has(p.flags, SET) {
      ack := ack.(flags := SET + ACK);
      HtableSet(ht, p.key, p.value);
    } else {
      ack := ack.(flags := DEL + ACK);
      HtableDelete(ht, p.key);
    }
  }

  /** Two empty tables, which share nothing. */
  method MakeTables(hashBytes: Bytes -> nat, hashId: uint16 -> nat) returns (ht: HTable, rt: RTable)
    ensures Sound(ht) && Contents(ht) == map[] && fresh(Footprint(ht))
    ensures rt.Valid() && rt.Pending() == map[] && fresh(rt.Repr()) && Footprint(ht) !! rt.Repr()
  {
    hide Sound, Contents, RTable.Valid, RTable.Pending, Table.Valid;
    rt := new RTable(hashId);
    ht := new Table(hashBytes);
    EmptySound(ht);
  }

  class Peer {
    const conf: Conf
    const ht: HTable
    const rt: RTable
    /** What the handlers have sent, closed or proxied so far, in order. */
    var effects: seq<Effect>

    ghost predicate Valid()
      reads this, ht, Footprint(ht), rt, rt.index, rt.Repr()
    {
      && Sound(ht) && rt.Valid() && AllFit(Contents(ht))
      && Footprint(ht) !! rt.Repr()
      && this !in Footprint(ht) && this !in rt.Repr()
    }

    ghost function Repr(): set<object>
      reads this, ht, rt, rt.index
    {
      {this} + Footprint(ht) + rt.Repr()
    }

    /** The state of the peer as the step functions see it. */
    ghost function State(): Node
      reads ht, rt
    {
      Node(Contents(ht), rt.Pending())
    }

    constructor (conf: Conf, hashBytes: Bytes -> nat, hashId: uint16 -> nat)
      ensures Valid() && fresh(Repr())
      ensures this.conf == conf && State() == Node(map[], map[]) && effects == []
    {
      hide Sound, Contents, RTable.Valid, RTable.Pending;
      this.conf := conf;
      var table, requests := MakeTables(hashBytes, hashId);
      ht, rt := table, requests;
      effects := [];
    }

    // ---------- data packets ----------

    method HandleOwnRequest(socket: int, p: Packet) returns (verdict: Verdict)
      requires Valid() && Filled(p)
      modifies this`effects, Footprint(ht)
      ensures Valid() && fresh(Repr() - old(Repr())) && rt.Pending() == old(rt.Pending())
      ensures var o := PeerSteps.HandleOwnRequest(old(State()), socket, p);
        State() == o.node && effects == old(effects) + o.effects && verdict == o.verdict
    {
      hide Sound, Contents, RTable.Valid, RTable.Pending, AllFit, Serialize, Filled, OwnTable, OwnReply;
      var ack := ExecuteOwn(ht, p);
      var bytes := PacketSerializeData(ack);
      effects := effects + [Answer(socket, p, bytes[..])];
      verdict := RemoveClient;
    }

    /** Hands the request to a peer and waits for its answer, which the environment supplies. */
    method ProxyRequest(socket: int, p: Packet, target: Addr) returns (verdict: Verdict)
      modifies this`effects
      ensures effects == old(effects) + [Proxy(socket, p, target)] && verdict == RemoveClient
    {
      effects := effects + [Proxy(socket, p, target)];
      verdict := RemoveClient;
    }

    method LookupPeer(h: uint16)
      modifies this`effects
      ensures effects == old(effects) + [Forward(conf.succ, LookupPacket(conf, h))]
    {
      var lookup := NewPacket(CTRL + LKUP);
      lookup := lookup.(hashId := h);
      lookup := lookup.(nodeId := conf.selfId);
      lookup := lookup.(nodeIp := conf.self.ip);
      lookup := lookup.(nodePort := conf.self.port);
      effects := effects + [Forward(conf.succ, lookup)];
    }

    /** add_request leaves the key-value table alone. */
    method Park(h: uint16, socket: int, p: Packet)
      requires Valid()
      modifies rt.Repr()
      ensures Valid() && fresh(Repr() - old(Repr())) && Contents(ht) == old(Contents(ht))
      ensures rt.Pending() == old(rt.Pending())[h :=
        PeerSteps.Pending(old(State()), h) + [Request(socket, p)]]
    {
      hide Sound, Contents, RTable.Valid, RTable.Pending, AllFit;
      rt.AddRequest(h, socket, p);
    }

    method HandlePacketData(socket: int, p: Packet) returns (verdict: Verdict)
      requires Valid() && Filled(p)
      modifies Repr()
      ensures Valid() && fresh(Repr() - old(Repr()))
      ensures var o := HandleData(conf, old(State()), socket, p);
        State() == o.node && effects == old(effects) + o.effects && verdict == o.verdict
    {
      hide Sound, Contents, RTable.Valid, RTable.Pending, AllFit, Filled, PeerSteps.HandleOwnRequest,
        PeerIsResponsible, LookupPacket;
      var h := PseudoHash(p.key);
      if PeerIsResponsible(conf.predId, conf.selfId, h) {
        verdict := HandleOwnRequest(socket, p);
      } else if PeerIsResponsible(conf.selfId, conf.succId, h) {
        verdict := ProxyRequest(socket, p, conf.succ);
      } else {
        Park(h, socket, p);
        LookupPeer(h);
        verdict := KeepClient;
      }
    }

    // ---------- control packets ----------

    /** The reply goes to the address in the lookup packet. */
    method AnswerLookup(p: Packet, id: uint16, addr: Addr) returns (verdict: Verdict)
      modifies this`effects
      ensures effects == old(effects) + [PeerSteps.AnswerLookup(p, id, addr)]
      ensures verdict == RemoveClient
    {
      var reply := NewPacket(CTRL + RPLY);
      reply := reply.(hashId := p.hashId);
      reply := reply.(nodeId := id);
      reply := reply.(nodeIp := addr.ip);
      reply := reply.(nodePort := addr.port);
      var asking := Addr(p.nodeIp, p.nodePort);
      effects := effects + [Forward(asking, reply)];
      verdict := RemoveClient;
    }

    lemma NoReleases(target: Addr)
      ensures Releases([], target) == []
    {
    }

    method ReleaseList(ghost s: seq<Parked>, first: Parked?, target: Addr)
      requires Linked(s) && first == Nth(s, 0)
      modifies this`effects
      ensures effects == old(effects) + Releases(AsRequests(s), target)
    {
      hide Releases;
      var r := first;
      ghost var rs := AsRequests(s);
      ghost var i := 0;
      assert Releases([], target) == [] && rs[..0] == [] by { NoReleases(target); }
      while r != null
        invariant 0 <= i <= |s| && r == Nth(s, i)
        invariant effects == old(effects) + Releases(rs[..i], target)
        decreases |s| - i
      {
        var _ := ProxyRequest(r.socket, r.packet, target);
        effects := effects + [CloseSocket(r.socket)];
        ReleasesSnoc(rs[..i], rs[i], target);
        assert rs[..i + 1] == rs[..i] + [rs[i]];
        r := r.next;
        i := i + 1;
      }
      assert rs[..i] == rs;
    }

    /** Walks the requests parked for a hash and proxies each to the peer that the reply names. */
    method ReleaseRequests(h: uint16, target: Addr)
      requires rt.Valid() && this !in rt.Repr()
      modifies this`effects
      ensures effects == old(effects)
        + Releases(if h in rt.Pending() then rt.Pending()[h] else [], target)
    {
      hide RTable.Valid, Releases, Linked;
      ghost var s := if h in rt.lists then rt.lists[h] else [];
      var r := rt.GetRequests(h);
      assert Linked(s) by { rt.ListLinked(h); }
      ReleaseList(s, r, target);
    }

    /** clear_requests leaves the key-value table alone. */
    method Unpark(h: uint16)
      requires Valid()
      modifies rt.Repr()
      ensures Valid() && fresh(Repr() - old(Repr())) && Contents(ht) == old(Contents(ht))
      ensures rt.Pending() == old(rt.Pending()) - {h}
    {
      hide Sound, Contents, RTable.Valid, RTable.Pending, AllFit;
      rt.ClearRequests(h);
    }

    method HandlePacketCtrl(p: Packet) returns (verdict: Verdict)
      requires Valid()
      modifies Repr()
      ensures Valid() && fresh(Repr() - old(Repr()))
      ensures var o := HandleCtrl(conf, old(State()), p);
        State() == o.node && effects == old(effects) + o.effects && verdict == o.verdict
    {
      hide Sound, Contents, RTable.Valid, RTable.Pending, AllFit, PeerIsResponsible, Has, Releases;
      verdict := RemoveClient;
      if Has(p.flags, LKUP) {
        if PeerIsResponsible(conf.predId, conf.selfId, p.hashId) {
          verdict := AnswerLookup(p, conf.selfId, conf.self);
        } else if PeerIsResponsible(conf.selfId, conf.succId, p.hashId) {
          verdict := AnswerLookup(p, conf.succId, conf.succ);
        } else {
          effects := effects + [Forward(conf.succ, p)];
        }
      } else if Has(p.flags, RPLY) {
        ReleaseRequests(p.hashId, Addr(p.nodeIp, p.nodePort));
        Unpark(p.hashId);
      }
    }

    /** The packet callback of the server. */
    method HandlePacket(socket: int, p: Packet) returns (verdict: Verdict)
      requires Valid() && (IsControl(p) || Filled(p))
      modifies Repr()
      ensures Valid() && fresh(Repr() - old(Repr()))
      ensures var o := PeerSteps.HandlePacket(conf, old(State()), socket, p);
        State() == o.node && effects == old(effects) + o.effects && verdict == o.verdict
    {
      hide Valid, State, HandleCtrl, HandleData, IsControl;
      if IsControl(p) {
        verdict := HandlePacketCtrl(p);
      } else {
        verdict := HandlePacketData(socket, p);
      }
    }
  }
}
