/** How the server cuts a client's byte stream into packets (praxis2/src/server.c). */
module Framing {
  import opened Words
  import opened Packets
  import Bits

  /**
   * What a client record holds between two reads: in state IDLE the header bytes so far, in
   * state HDR_RECVD the packet with its header fields filled in and the body bytes so far.
   */
  datatype View = Idle(hdr: Bytes) | Body(pack: Packet, body: Bytes)

  const FRESH := Idle([])

  function Needed(v: View): int {
    match v
    case Idle(hdr) => HEADER_LEN - |hdr|
    case Body(pack, body) => BodySize(pack) - |body|
  }

  /** One read of `chunk`: the next view and the packet that became complete, if one did. */
  function Receive(v: View, chunk: Bytes): (View, Option<Decoded>)
    requires 1 <= |chunk| <= Needed(v)
  {
    match v
    case Idle(hdr) =>
      if |hdr + chunk| == HEADER_LEN then (Body(DecodeHdr(hdr + chunk).value, []), None)
      else (Idle(hdr + chunk), None)
    case Body(pack, body) =>
      if |body + chunk| == BodySize(pack)
      then (FRESH, Some(DecodeBody(pack, body + chunk, |body + chunk|)))
      else (Body(pack, body + chunk), None)
  }

  /** A connection; `consumed` is the part of the stream that has been read from the socket. */
  datatype Conn = Conn(open: bool, view: View, delivered: seq<Decoded>, consumed: Bytes)

  const ACCEPTED := Conn(true, FRESH, [], [])

  /**
   * One readiness event. `chunk` is what recv returned and `keep` the verdict of the packet
   * callback. A read of zero bytes closes the connection, and recv always returns zero
   * bytes when none are asked for.
   */
  datatype Readiness = Readable(chunk: Bytes, keep: bool)

  predicate Legal(c: Conn, e: Readiness) {
    c.open ==> |e.chunk| <= Needed(c.view)
  }

  function OnEvent(c: Conn, e: Readiness): Conn
    requires Legal(c, e)
  {
    if !c.open then c
    else if e.chunk == [] then c.(open := false)
    else
      var (v, packet) := Receive(c.view, e.chunk);
      match packet
      case None => c.(view := v, consumed := c.consumed + e.chunk)
      case Some(d) => Conn(e.keep, v, c.delivered + [d], c.consumed + e.chunk)
  }

  predicate LegalRun(c: Conn, es: seq<Readiness>)
    decreases |es|
  {
    es == [] || (Legal(c, es[0]) && LegalRun(OnEvent(c, es[0]), es[1..]))
  }

  function RunConn(c: Conn, es: seq<Readiness>): Conn
    requires LegalRun(c, es)
    decreases |es|
  {
    if es == [] then c else RunConn(OnEvent(c, es[0]), es[1..])
  }

  // ---------- reference: cutting a whole stream greedily ----------

  /** An empty body is never asked for, so nothing behind such a header is read. */
  function Greedy(s: Bytes): (seq<Decoded>, View) {
    if |s| < HEADER_LEN then ([], Idle(s))
    else
      var p := DecodeHdr(s[..HEADER_LEN]).value;
      var rest, size := s[HEADER_LEN..], BodySize(p);
      if size == 0 then ([], Body(p, []))
      else if |rest| < size then ([], Body(p, rest))
      else
        var (ds, v) := Greedy(rest[size..]);
        ([DecodeBody(p, rest[..size], size)] + ds, v)
  }

  predicate Stuck(v: View) {
    v.Body? && BodySize(v.pack) == 0
  }

  /** The seven header bytes, recovered from the decoded fields. */
  function HeaderBytes(p: Packet): Bytes {
    if IsControl(p)
    then [p.flags] + Big16(p.hashId) + Big16(p.nodeId) + Big32(p.nodeIp)[..2]
    else [p.flags] + Big16(p.keyLen) + Big32(p.valueLen)
  }

  /** The bytes a view stands for. */
  function Held(v: View): Bytes {
    match v
    case Idle(hdr) => hdr
    case Body(pack, body) => HeaderBytes(pack) + body
  }

  predicate ViewOk(v: View) {
    match v
    case Idle(hdr) => |hdr| < HEADER_LEN
    case Body(pack, body) =>
      && DecodeHdr(HeaderBytes(pack)) == Some(pack)
      && (|body| < BodySize(pack) || (body == [] && BodySize(pack) == 0))
  }

  lemma HeaderBytesInverse(h: Bytes)
    requires |h| == HEADER_LEN
    ensures HeaderBytes(DecodeHdr(h).value) == h
  {
    hide Big16, Big32, From16, From32;
    Big16Inverse(0, h[1], h[2]);
    Big16Inverse(0, h[3], h[4]);
    Big32Inverse(0, h[3], h[4], h[5], h[6]);
    Big32Inverse(0, h[5], h[6], 0, 0);
  }

  lemma HeaderDecodes(h: Bytes)
    requires |h| == HEADER_LEN
    ensures DecodeHdr(h).Some?
  {
  }

  lemma {:induction false} GreedyViewOk(s: Bytes)
    ensures ViewOk(Greedy(s).1)
  {
    hide DecodeHdr, HeaderBytes, DecodeBody;
    if |s| >= HEADER_LEN {
      HeaderBytesInverse(s[..HEADER_LEN]);
      HeaderDecodes(s[..HEADER_LEN]);
      var size := BodySize(DecodeHdr(s[..HEADER_LEN]).value);
      if 0 < size <= |s| - HEADER_LEN {
        GreedyViewOk(s[HEADER_LEN..][size..]);
      }
    }
  }

  /** One round of the greedy parse. */
  lemma GreedyOnce(h: Bytes, b: Bytes)
    requires |h| == HEADER_LEN
    ensures DecodeHdr(h).Some?
    ensures var p := DecodeHdr(h).value; var size := BodySize(p);
      Greedy(h + b) ==
        if size == 0 then ([], Body(p, []))
        else if |b| < size then ([], Body(p, b))
        else ([DecodeBody(p, b[..size], size)] + Greedy(b[size..]).0, Greedy(b[size..]).1)
  {
    HeaderDecodes(h);
    hide DecodeHdr, DecodeBody, BodySize;
    assert (h + b)[..HEADER_LEN] == h && (h + b)[HEADER_LEN..] == b;
  }

  lemma GreedyShort(s: Bytes)
    requires |s| < HEADER_LEN
    ensures Greedy(s) == ([], Idle(s))
  {
  }

  /** Greedy parsing can be resumed from the bytes that the view holds. */
  lemma {:induction false} GreedyResumes(s: Bytes, t: Bytes)
    requires !Stuck(Greedy(s).1)
    ensures var (ds, v) := Greedy(s); var (ds', v') := Greedy(Held(v) + t);
      Greedy(s + t) == (ds + ds', v')
    decreases |s|
  {
    hide Greedy, DecodeHdr, HeaderBytes, DecodeBody, BodySize;
    if |s| < HEADER_LEN {
      GreedyShort(s);
      assert [] + Greedy(s + t).0 == Greedy(s + t).0;
    } else {
      var h, rest := s[..HEADER_LEN], s[HEADER_LEN..];
      assert s == h + rest && s + t == h + (rest + t);
      HeaderBytesInverse(h);
      GreedyOnce(h, rest);
      GreedyOnce(h, rest + t);
      var p := DecodeHdr(h).value;
      var size := BodySize(p);
      if |rest| < size {
        assert [] + Greedy(s + t).0 == Greedy(s + t).0;
      } else {
        GreedyResumes(rest[size..], t);
        assert (rest + t)[..size] == rest[..size];
        assert (rest + t)[size..] == rest[size..] + t;
        var first, ds, more := [DecodeBody(p, rest[..size], size)], Greedy(rest[size..]).0,
          Greedy(Held(Greedy(s).1) + t).0;
        assert first + ds + more == first + (ds + more);
      }
    }
  }

  function Listed(d: Option<Decoded>): seq<Decoded> {
    match d case None => [] case Some(x) => [x]
  }

  lemma ReceiveHeaderIsGreedy(hdr: Bytes, chunk: Bytes)
    requires 1 <= |chunk| <= HEADER_LEN - |hdr|
    ensures Greedy(hdr + chunk) == ([], Receive(Idle(hdr), chunk).0)
  {
    hide DecodeHdr;
    var h := hdr + chunk;
    if |h| == HEADER_LEN {
      assert h[..HEADER_LEN] == h && h[HEADER_LEN..] == [];
      HeaderDecodes(h);
    }
  }

  lemma HeaderLength(p: Packet)
    ensures |HeaderBytes(p)| == HEADER_LEN
  {
  }

  lemma EmptyStream()
    ensures Greedy([]) == ([], Idle([]))
  {
  }

  lemma ReceiveBodyIsGreedy(pack: Packet, body: Bytes, chunk: Bytes)
    requires ViewOk(Body(pack, body)) && 1 <= |chunk| <= Needed(Body(pack, body))
    ensures var (v, d) := Receive(Body(pack, body), chunk);
      Greedy(HeaderBytes(pack) + body + chunk) == (Listed(d), v)
  {
    hide Greedy, HeaderBytes, DecodeBody, BodySize, DecodeHdr;
    var h, b := HeaderBytes(pack), body + chunk;
    HeaderLength(pack);
    assert h + body + chunk == h + b;
    GreedyOnce(h, b);
    if |b| == BodySize(pack) {
      assert b[..BodySize(pack)] == b && b[BodySize(pack)..] == [];
      EmptyStream();
      assert [DecodeBody(pack, b, |b|)] + [] == [DecodeBody(pack, b, |b|)];
    }
  }

  lemma ReceiveIsGreedy(v: View, chunk: Bytes)
    requires ViewOk(v) && 1 <= |chunk| <= Needed(v)
    ensures Greedy(Held(v) + chunk) == (Listed(Receive(v, chunk).1), Receive(v, chunk).0)
  {
    match v
    case Idle(hdr) => ReceiveHeaderIsGreedy(hdr, chunk);
    case Body(pack, body) => ReceiveBodyIsGreedy(pack, body, chunk);
  }

  /** The connection agrees with the greedy parse of what it has read. */
  predicate Agrees(c: Conn) {
    && Greedy(c.consumed) == (c.delivered, c.view)
    && ViewOk(c.view)
  }

  lemma StuckNeedsNothing(v: View)
    requires ViewOk(v)
    ensures Stuck(v) ==> Needed(v) == 0
  {
  }

  lemma EventAgrees(c: Conn, e: Readiness)
    requires Legal(c, e) && Agrees(c)
    ensures Agrees(OnEvent(c, e))
  {
    hide Greedy, Receive, Held, ViewOk;
    if c.open && e.chunk != [] {
      StuckNeedsNothing(c.view);
      GreedyResumes(c.consumed, e.chunk);
      ReceiveIsGreedy(c.view, e.chunk);
      GreedyViewOk(c.consumed + e.chunk);
      assert c.delivered + [] == c.delivered;
    }
  }

  /**
   * However the stream is cut into reads, the packets delivered are those of the greedy
   * parse of the bytes read, and the bytes not delivered are exactly those held.
   */
  lemma {:induction false} FragmentationIrrelevant(c: Conn, es: seq<Readiness>)
    requires Agrees(c) && LegalRun(c, es)
    ensures Agrees(RunConn(c, es))
    decreases |es|
  {
    hide Agrees, Legal, OnEvent;
    if es != [] {
      EventAgrees(c, es[0]);
      FragmentationIrrelevant(OnEvent(c, es[0]), es[1..]);
    }
  }

  /** Two connections that have read the same bytes are in the same state. */
  lemma SameBytesSameState(es1: seq<Readiness>, es2: seq<Readiness>)
    requires LegalRun(ACCEPTED, es1) && LegalRun(ACCEPTED, es2)
    requires RunConn(ACCEPTED, es1).consumed == RunConn(ACCEPTED, es2).consumed
    ensures RunConn(ACCEPTED, es1).delivered == RunConn(ACCEPTED, es2).delivered
    ensures RunConn(ACCEPTED, es1).view == RunConn(ACCEPTED, es2).view
  {
    hide RunConn;
    assert Agrees(ACCEPTED);
    FragmentationIrrelevant(ACCEPTED, es1);
    FragmentationIrrelevant(ACCEPTED, es2);
  }

  // ---------- no byte is lost ----------

  predicate AllComplete(ds: seq<Decoded>) {
    forall i :: 0 <= i < |ds| ==> ds[i].Complete?
  }

  function SerializeAll(ds: seq<Decoded>): Bytes
    requires AllComplete(ds)
  {
    if ds == [] then [] else Serialize(ds[0].packet) + SerializeAll(ds[1..])
  }

  lemma BodyLength(pack: Packet, body: Bytes)
    requires |body| == BodySize(pack) && DecodeBody(pack, body, |body|).Complete?
    ensures var p := DecodeBody(pack, body, |body|).packet;
      |body| == if IsControl(p) then 4 else p.keyLen + p.valueLen
  {
    hide Bits.Or, From16, From32;
  }

  lemma HeaderAlone(h: Bytes, body: Bytes)
    requires |h| == HEADER_LEN && |body| == BodySize(DecodeHdr(h).value)
    requires DecodeBody(DecodeHdr(h).value, body, |body|).Complete?
    ensures PacketDecode(h + body) == DecodeBody(DecodeHdr(h).value, body, |body|)
  {
    hide From16, From32;
    assert (h + body)[HEADER_LEN..] == body;
    assert DecodeHdr(h + body) == DecodeHdr(h);
  }

  lemma SerializedLength(p: Packet)
    requires IsControl(p) || Filled(p)
    ensures |Serialize(p)| == if IsControl(p) then 11 else 7 + p.keyLen + p.valueLen
  {
  }

  lemma BodyBytes(h: Bytes, body: Bytes)
    requires |h| == HEADER_LEN && |body| == BodySize(DecodeHdr(h).value)
    requires DecodeBody(DecodeHdr(h).value, body, |body|).Complete?
    ensures Serialize(DecodeBody(DecodeHdr(h).value, body, |body|).packet) == h + body
  {
    hide Serialize, PacketDecode, DecodeHdr, DecodeBody, BodySize;
    HeaderDecodes(h);
    HeaderAlone(h, body);
    SerializeUndoesDecode(h + body);
    var pack := DecodeHdr(h).value;
    var p := DecodeBody(pack, body, |body|).packet;
    BodyLength(pack, body);
    assert |Serialize(p)| == |h + body| by { SerializedLength(p); }
  }

  /** Unless a length has wrapped, the stream is the delivered packets and the held bytes. */
  lemma {:induction false} StreamConserved(s: Bytes)
    requires AllComplete(Greedy(s).0) && !Stuck(Greedy(s).1)
    ensures s == SerializeAll(Greedy(s).0) + Held(Greedy(s).1)
    decreases |s|
  {
    hide Greedy, DecodeHdr, HeaderBytes, DecodeBody, Serialize, BodySize;
    if |s| < HEADER_LEN {
      GreedyShort(s);
    } else {
      var h, rest := s[..HEADER_LEN], s[HEADER_LEN..];
      assert s == h + rest;
      HeaderBytesInverse(h);
      GreedyOnce(h, rest);
      var p := DecodeHdr(h).value;
      var size := BodySize(p);
      if |rest| >= size {
        var (ds, v) := Greedy(rest[size..]);
        var d := DecodeBody(p, rest[..size], size);
        assert Greedy(s).0[1..] == ds && Greedy(s).0[0] == d;
        assert AllComplete(ds) by {
          forall i | 0 <= i < |ds| ensures ds[i].Complete? { assert ds[i] == Greedy(s).0[i + 1]; }
        }
        StreamConserved(rest[size..]);
        BodyBytes(h, rest[..size]);
        assert s == h + rest[..size] + rest[size..];
      }
    }
  }

  // ---------- which packets survive the trip through a socket ----------

  /** Canonical packets with a body that is neither empty nor wraps the 32-bit sum. */
  predicate Deliverable(p: Packet) {
    && Travelling(p) == p
    && (!IsControl(p) ==> Filled(p) && 0 < p.keyLen + p.valueLen < 0x1_0000_0000)
  }

  function Completes(ps: seq<Packet>): seq<Decoded> {
    if ps == [] then [] else [Complete(ps[0])] + Completes(ps[1..])
  }

  function Stream(ps: seq<Packet>): Bytes {
    if ps == [] then [] else Serialize(ps[0]) + Stream(ps[1..])
  }

  lemma HeaderPrefix(s: Bytes, rest: Bytes)
    requires |s| >= HEADER_LEN
    ensures DecodeHdr((s + rest)[..HEADER_LEN]) == DecodeHdr(s)
  {
    hide From16, From32;
  }

  lemma DeliverableHeader(p: Packet, rest: Bytes)
    requires Deliverable(p)
    ensures var s := Serialize(p) + rest;
      && |s| >= HEADER_LEN + BodySize(p)
      && DecodeHdr(s[..HEADER_LEN]).Some?
      && BodySize(DecodeHdr(s[..HEADER_LEN]).value) == BodySize(p) > 0
      && DecodeBody(DecodeHdr(s[..HEADER_LEN]).value, s[HEADER_LEN..][..BodySize(p)], BodySize(p))
         == Complete(p)
  {
    hide Serialize, Big16, Big32, From16, From32;
    var s := Serialize(p) + rest;
    var size := BodySize(p);
    SerializedLength(p);
    DecodeUndoesSerialize(p, []);
    assert Serialize(p) + [] == Serialize(p);
    HeaderPrefix(Serialize(p), rest);
    assert s[HEADER_LEN..][..size] == Serialize(p)[HEADER_LEN..];
  }

  lemma DeliverableParses(p: Packet, rest: Bytes)
    requires Deliverable(p)
    ensures Greedy(Serialize(p) + rest) == ([Complete(p)] + Greedy(rest).0, Greedy(rest).1)
  {
    hide Serialize, DecodeHdr, DecodeBody;
    var s := Serialize(p) + rest;
    var size := BodySize(p);
    DeliverableHeader(p, rest);
    var hdr := DecodeHdr(s[..HEADER_LEN]).value;
    assert s[HEADER_LEN..][size..] == rest by { SerializedLength(p); }
  }

  /** A stream of deliverable packets is cut into exactly these packets. */
  lemma {:induction false} StreamParses(ps: seq<Packet>)
    requires forall i :: 0 <= i < |ps| ==> Deliverable(ps[i])
    ensures Greedy(Stream(ps)) == (Completes(ps), FRESH)
  {
    hide Serialize, Deliverable, Greedy;
    if ps == [] {
      assert Greedy([]) == ([], Idle([])) by { EmptyStream(); }
    } else {
      StreamParses(ps[1..]);
      DeliverableParses(ps[0], Stream(ps[1..]));
    }
  }

  lemma EmptyHeld()
    ensures Greedy([]) == ([], Idle([])) && Held(Greedy([]).1) == []
  {
  }

  /** A part of one packet is held and delivers nothing. */
  lemma PartHeld(p: Packet, n: nat)
    requires Deliverable(p) && n < |Serialize(p)|
    ensures var s := Serialize(p)[..n]; Greedy(s).0 == [] && Held(Greedy(s).1) == s
  {
    hide Serialize, DecodeHdr, DecodeBody, HeaderBytes;
    var s := Serialize(p)[..n];
    if n >= HEADER_LEN {
      var h := s[..HEADER_LEN];
      DeliverableHeader(p, []);
      SerializedLength(p);
      assert Serialize(p) + [] == Serialize(p) && h == Serialize(p)[..HEADER_LEN];
      HeaderBytesInverse(h);
      assert s == h + s[HEADER_LEN..];
    }
  }

  /**
   * However far the stream of some deliverable packets has been read: the first of them have been
   * delivered, and what was read is their bytes followed by the bytes held.
   */
  lemma {:induction false} PrefixParses(ps: seq<Packet>, s: Bytes) returns (n: nat)
    requires forall i :: 0 <= i < |ps| ==> Deliverable(ps[i])
    requires s <= Stream(ps)
    ensures n <= |ps| && Greedy(s).0 == Completes(ps[..n])
    ensures s == Stream(ps[..n]) + Held(Greedy(s).1)
  {
    hide Serialize, Deliverable, Greedy, Held;
    if ps == [] {
      EmptyHeld();
      n := 0;
    } else if |s| < |Serialize(ps[0])| {
      assert s == Serialize(ps[0])[..|s|];
      PartHeld(ps[0], |s|);
      n := 0;
    } else {
      var rest := s[|Serialize(ps[0])|..];
      assert s == Serialize(ps[0]) + rest;
      n := PrefixParses(ps[1..], rest);
      DeliverableParses(ps[0], rest);
      n := n + 1;
      assert ps[..n][1..] == ps[1..][..n - 1];
    }
  }

  lemma DeliverableArrives(p: Packet)
    requires Deliverable(p)
    ensures Greedy(Serialize(p)) == ([Complete(p)], FRESH)
  {
    hide Serialize, Greedy, Deliverable;
    DeliverableParses(p, []);
    EmptyStream();
    assert Serialize(p) + [] == Serialize(p);
    assert [Complete(p)] + [] == [Complete(p)];
  }

  lemma OthersDoNotArrive(p: Packet)
    requires (IsControl(p) || Filled(p)) && !Deliverable(p)
    ensures Greedy(Serialize(p)) != ([Complete(p)], FRESH)
  {
    hide Serialize, Big16, Big32, From16, From32;
    var s := Serialize(p);
    var size := BodySize(p);
    SerializedLength(p);
    DecodeUndoesSerialize(p, []);
    assert s + [] == s;
    HeaderPrefix(s, []);
    var hdr := DecodeHdr(s).value;
    assert BodySize(hdr) == size;
    if size > 0 {
      var d := DecodeBody(hdr, s[HEADER_LEN..][..size], size);
      assert Greedy(s).0[0] == d;
      if IsControl(p) || p.keyLen + p.valueLen < 0x1_0000_0000 {
        assert s[HEADER_LEN..][..size] == s[HEADER_LEN..];
        assert d == Complete(Travelling(p));
      } else {
        assert !d.Complete?;
      }
    }
  }

  /** Exactly the deliverable packets arrive when their own bytes are sent. */
  lemma DeliveredExactly(p: Packet)
    requires IsControl(p) || Filled(p)
    ensures Greedy(Serialize(p)) == ([Complete(p)], FRESH) <==> Deliverable(p)
  {
    if Deliverable(p) {
      DeliverableArrives(p);
    } else {
      OthersDoNotArrive(p);
    }
  }

  // ---------- packets that do not arrive ----------

  /** A GET with neither key nor value. */
  const EMPTY := NewPacket(GET)

  lemma HeaderOf(p: Packet)
    requires !IsControl(p) && Filled(p)
    ensures var s := Serialize(p);
      |s| == HEADER_LEN + p.keyLen + p.valueLen
      && DecodeHdr(s[..HEADER_LEN]) == Some(Travelling(p).(key := [], value := []))
  {
    hide SerializeData, DecodeHdr;
    DataHeaderDecodes(p, []);
    SerializedLength(p);
    assert SerializeData(p) + [] == SerializeData(p);
  }

  /** Its header is read, and then the connection waits for a body of no bytes. */
  lemma EmptyIsStuck()
    ensures Greedy(Serialize(EMPTY)) == ([], Body(EMPTY, []))
    ensures Stuck(Body(EMPTY, [])) && !Deliverable(EMPTY)
  {
    hide Serialize, DecodeHdr;
    HeaderOf(EMPTY);
    assert Travelling(EMPTY).(key := [], value := []) == EMPTY;
    assert Serialize(EMPTY)[HEADER_LEN..] == [];
  }

  /** A SET of a two byte key and 2^32 - 1 bytes of value: the 32-bit sum of the lengths is 1. */
  const HUGE := NewPacket(SET).(keyLen := 2, key := [1, 1],
                                valueLen := 0xFFFF_FFFF, value := seq(0xFFFF_FFFF, _ => 0))

  /** The server decodes after one byte of body and reads past the end of it. */
  lemma HugeIsOverread()
    ensures Filled(HUGE) && BodySize(HUGE) == 1 && !Deliverable(HUGE)
    ensures var ds := Greedy(Serialize(HUGE)).0; |ds| > 0 && ds[0] == Overread
  {
    hide Serialize;
    var s := Serialize(HUGE);
    HeaderOf(HUGE);
    var hdr := DecodeHdr(s[..HEADER_LEN]).value;
    assert Greedy(s).0[0] == DecodeBody(hdr, s[HEADER_LEN..][..1], 1);
  }
}
