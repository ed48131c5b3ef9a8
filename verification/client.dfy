/** A client record of the server (praxis2/src/server.c) refines the framing of its stream. */
module Clients {
  import opened Words
  import opened Packets
  import opened RingBuffers
  import opened Framing

  datatype ClientState = IDLE | HDR_RECVD | REMOVE

  class Client {
    const socket: int
    var state: ClientState
    const headerBuf: RingBuffer
    var pktBuf: RingBuffer?
    var pack: Packet
    var next: Client?

    /** The record and its buffers. */
    ghost function Repr(): set<object>
      reads this`pktBuf, headerBuf`buffer, pktBuf
    {
      {this, headerBuf, headerBuf.buffer}
      + if pktBuf == null then {} else var b: RingBuffer := pktBuf; {b, b.buffer}
    }

    ghost predicate IdleOk()
      reads this`pktBuf, headerBuf, headerBuf.buffer
    {
      && headerBuf.Valid() && headerBuf.Capacity() == HEADER_LEN
      && pktBuf == null && |headerBuf.Contents()| < HEADER_LEN
    }

    ghost predicate BodyOk()
      reads this`pktBuf, this`pack, headerBuf, pktBuf, Repr() - {this}
    {
      && headerBuf.Valid() && headerBuf.Capacity() == HEADER_LEN && headerBuf.Contents() == []
      && pktBuf != null && pktBuf != headerBuf && pktBuf.buffer != headerBuf.buffer
      && pktBuf.Valid() && pktBuf.Capacity() == BodySize(pack)
    }

    /** A body buffer exists in state HDR_RECVD and not in state IDLE. */
    ghost predicate Valid()
      reads this`state, this`pktBuf, this`pack, headerBuf, pktBuf, Repr() - {this}
    {
      && (state == IDLE ==> IdleOk())
      && (state == HDR_RECVD ==> BodyOk())
    }

    ghost function View(): View
      requires Valid() && state != REMOVE
      reads this`state, this`pktBuf, this`pack, headerBuf, pktBuf, Repr() - {this}
    {
      if state == IDLE then Idle(headerBuf.Contents()) else Body(pack, pktBuf.Contents())
    }

    /** server_add_client: a fresh connection. */
    constructor (socket: int)
      ensures Valid() && fresh(Repr()) && this.socket == socket
      ensures state == IDLE && View() == FRESH && next == null
    {
      this.socket := socket;
      state := IDLE;
      headerBuf := new RingBuffer(HEADER_LEN);
      pktBuf := null;
      pack := NewPacket(0);
      next := null;
    }

    /** The number of bytes that the server asks recv for. */
    method BytesNeeded() returns (n: nat)
      requires Valid() && state != REMOVE
      ensures n == Needed(View())
    {
      n := if state == IDLE then headerBuf.CanWrite() else pktBuf.CanWrite();
    }

    method DecodeHeader()
      requires headerBuf.Valid() && headerBuf.Capacity() == HEADER_LEN == |headerBuf.Contents()|
      modifies this`state, this`pack, this`pktBuf, headerBuf, headerBuf.buffer
      ensures Valid() && state == HDR_RECVD && fresh(Repr() - old(Repr()))
      ensures View() == Body(DecodeHdr(old(headerBuf.Contents())).value, [])
    {
      state := HDR_RECVD;
      ghost var all := headerBuf.Contents();
      var hdr := new byte[HEADER_LEN];
      var _ := headerBuf.Read(hdr);
      assert hdr[..] == hdr[..HEADER_LEN] == all;
      pack := DecodeHdr(hdr[..]).value;
      pktBuf := new RingBuffer(BodySize(pack));
    }

    method DecodeWholeBody() returns (d: Decoded)
      requires Valid() && state == HDR_RECVD
      modifies this`state, this`pack, this`pktBuf, pktBuf, pktBuf.buffer
      ensures Valid() && state == IDLE && View() == FRESH && fresh(Repr() - old(Repr()))
      ensures d == DecodeBody(old(pack), old(pktBuf.Contents()), |old(pktBuf.Contents())|)
      ensures d.Complete? ==> pack == d.packet
    {
      ghost var all := pktBuf.Contents();
      var avail := pktBuf.CanRead();
      var buffer := new byte[avail];
      var _ := pktBuf.Read(buffer);
      assert buffer[..] == buffer[..avail] == all;
      d := DecodeBody(pack, buffer[..], avail);
      if d.Complete? {
        pack := d.packet;
      }
      state := IDLE;
      pktBuf := null;
    }

    /** The two receive branches, for a read that returned some bytes. */
    method ReceiveBytes(chunk: Bytes) returns (packet: Option<Decoded>)
      requires Valid() && state != REMOVE && 1 <= |chunk| <= Needed(View())
      modifies Repr()
      ensures Valid() && state != REMOVE && fresh(Repr() - old(Repr())) && next == old(next)
      ensures (View(), packet) == Receive(old(View()), chunk)
      ensures packet.Some? && packet.value.Complete? ==> pack == packet.value.packet
    {
      hide DecodeHdr, DecodeBody;
      packet := None;
      if state == IDLE {
        var _ := headerBuf.Write(chunk);
        assert chunk[..|chunk|] == chunk;
        if headerBuf.CanRead() == HEADER_LEN {
          DecodeHeader();
        }
      } else {
        var _ := pktBuf.Write(chunk);
        assert chunk[..|chunk|] == chunk;
        if pktBuf.CanWrite() == 0 {
          var d := DecodeWholeBody();
          packet := Some(d);
        }
      }
    }
  }
}
