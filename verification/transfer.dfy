/** sendall and recvall of praxis2/src/util.c over a connection that moves bytes piecemeal. */
module Transfer {
  import opened Words

  /** How many bytes the next call moves: the first of `pieces`, or as many as it may. */
  function Piece(pieces: seq<int>, most: nat): (n: int)
    ensures n <= most
  {
    if pieces == [] || most < pieces[0] then most else pieces[0]
  }

  function Rest(pieces: seq<int>): seq<int> {
    if pieces == [] then [] else pieces[1..]
  }

  predicate NoFailure(pieces: seq<int>) {
    forall k :: 0 <= k < |pieces| ==> pieces[k] >= 1
  }

  /** How many of `n` bytes sendall sends: it goes on until all are sent or a send fails. */
  function SentBy(n: nat, pieces: seq<int>): (m: nat)
    ensures m <= n
    decreases n
  {
    if n == 0 || Piece(pieces, n) < 1 then 0
    else Piece(pieces, n) + SentBy(n - Piece(pieces, n), Rest(pieces))
  }

  /** Without a failing send everything is sent. */
  lemma {:induction false} NoFailureSendsAll(n: nat, pieces: seq<int>)
    requires NoFailure(pieces)
    ensures SentBy(n, pieces) == n
    decreases n
  {
    if n > 0 {
      NoFailureSendsAll(n - Piece(pieces, n), Rest(pieces));
    }
  }

  /** What one recv takes: at least one byte if there is any, and no more than it may. */
  function Taken(stream: Bytes, pieces: seq<int>, most: nat): (k: nat)
    requires most > 0
    ensures k <= most && k <= |stream| && (k == 0 <==> stream == [])
  {
    var n := Piece(pieces, most);
    Min(if n < 1 then 1 else n, |stream|)
  }

  /**
   * One direction of a connection; `stream` holds the bytes on their way. The pieces say how many
   * bytes each coming call is willing to move; a piece below 1 stands for a failing send. Every
   * recv moves at least one byte until the stream is used up, and nothing after that.
   */
  class Socket {
    var stream: Bytes
    var sendPieces: seq<int>
    var recvPieces: seq<int>

    constructor (sendPieces: seq<int>, recvPieces: seq<int>)
      ensures stream == [] && this.sendPieces == sendPieces && this.recvPieces == recvPieces
    {
      stream, this.sendPieces, this.recvPieces := [], sendPieces, recvPieces;
    }

    /** send: appends a non-empty prefix of the data to the stream, or fails. */
    method Send(data: Bytes) returns (n: int)
      requires data != []
      modifies this`stream, this`sendPieces
      ensures n <= |data|
      ensures n == Piece(old(sendPieces), |data|) && sendPieces == Rest(old(sendPieces))
      ensures stream == old(stream) + if n < 1 then [] else data[..n]
    {
      n := Piece(sendPieces, |data|);
      sendPieces := Rest(sendPieces);
      stream := stream + if n < 1 then [] else data[..n];
    }

    /** recv without an error: some of the bytes that are left, none only at the end. */
    method Recv(most: nat) returns (data: Bytes)
      requires most > 0
      modifies this`stream, this`recvPieces
      ensures old(stream) == data + stream && recvPieces == Rest(old(recvPieces))
      ensures |data| == Taken(old(stream), old(recvPieces), most)
    {
      var k := Taken(stream, recvPieces, most);
      recvPieces := Rest(recvPieces);
      data := stream[..k];
      stream := stream[k..];
    }
  }

  /**
   * sendall: everything is sent, or the call failed with part of the data sent. Without a
   * failing send it always succeeds.
   */
  method SendAll(s: Socket, buffer: Bytes) returns (status: int, sent: nat)
    modifies s`stream, s`sendPieces
    ensures status == 0 || status == -1
    ensures sent <= |buffer| && s.stream == old(s.stream) + buffer[..sent]
    ensures status == 0 <==> sent == |buffer|
    ensures sent == SentBy(|buffer|, old(s.sendPieces))
  {
    sent := 0;
    while sent < |buffer|
      invariant sent <= |buffer| && s.stream == old(s.stream) + buffer[..sent]
      invariant SentBy(|buffer|, old(s.sendPieces)) == sent + SentBy(|buffer| - sent, s.sendPieces)
    {
      var n := s.Send(buffer[sent..]);
      if n < 1 {
        return -1, sent;
      }
      assert buffer[..sent] + buffer[sent..][..n] == buffer[..sent + n];
      sent := sent + n;
    }
    status := 0;
  }

  /** realloc: a larger array with the old contents in front. */
  method Grow(buffer: array<byte>, size: nat) returns (larger: array<byte>)
    requires size >= buffer.Length
    ensures fresh(larger) && larger.Length == size && larger[..buffer.Length] == buffer[..]
  {
    larger := new byte[size](_ => 0);
    for i := 0 to buffer.Length
      invariant larger[..i] == buffer[..i]
    {
      larger[i] := buffer[i];
    }
  }

  /** What recv writes at the write pointer. */
  method Place(buffer: array<byte>, at: nat, bytes: Bytes)
    requires at + |bytes| <= buffer.Length
    modifies buffer
    ensures buffer[..at + |bytes|] == old(buffer[..at]) + bytes
  {
    for i := 0 to |bytes|
      invariant buffer[..at + i] == old(buffer[..at]) + bytes[..i]
    {
      buffer[at + i] := bytes[i];
    }
    assert bytes[..|bytes|] == bytes;
  }

  /** One iteration of the loop in recvall: doubles a full buffer, and reads behind what is there. */
  method RecvMore(s: Socket, buffer0: array<byte>, dataLen0: nat)
    returns (buffer: array<byte>, dataLen: nat, done: bool)
    requires dataLen0 <= buffer0.Length && buffer0.Length > 0
    modifies s`stream, s`recvPieces, buffer0
    ensures buffer == buffer0 || fresh(buffer)
    ensures buffer.Length == if dataLen0 == buffer0.Length then 2 * buffer0.Length else buffer0.Length
    ensures dataLen <= buffer.Length
    ensures var k := Taken(old(s.stream), old(s.recvPieces), buffer.Length - dataLen0);
      && dataLen == dataLen0 + k && (done <==> k == 0)
      && buffer[..dataLen] == old(buffer0[..dataLen0]) + old(s.stream)[..k]
      && s.stream == old(s.stream)[k..]
    ensures s.recvPieces == Rest(old(s.recvPieces))
  {
    buffer, dataLen := buffer0, dataLen0;
    if buffer.Length - dataLen < 1 {
      buffer := Grow(buffer, buffer.Length * 2);
      assert buffer[..dataLen] == old(buffer0[..dataLen0]);
    }
    var bytes := s.Recv(buffer.Length - dataLen);
    done := |bytes| < 1;
    if !done {
      Place(buffer, dataLen, bytes);
      dataLen := dataLen + |bytes|;
    }
  }

  /**
   * recvall: reads to the end of the stream into a buffer that doubles when it is full, so that
   * it ends with room for at least one byte and is never more than twice as long as needed.
   */
  method RecvAll(s: Socket) returns (buffer: array<byte>, dataLen: nat)
    modifies s`stream, s`recvPieces
    ensures fresh(buffer) && dataLen < buffer.Length
    ensures buffer.Length == 1024 || buffer.Length <= 2 * dataLen
    ensures buffer[..dataLen] == old(s.stream) && s.stream == []
  {
    buffer, dataLen := new byte[1024], 0;
    var done := false;
    while !done
      invariant fresh(buffer) && dataLen <= buffer.Length && buffer.Length >= 1024
      invariant buffer.Length == 1024 || buffer.Length <= 2 * dataLen
      invariant old(s.stream) == buffer[..dataLen] + s.stream
      invariant done ==> s.stream == [] && dataLen < buffer.Length
      decreases !done, |s.stream|
    {
      ghost var (got, stream) := (buffer[..dataLen], s.stream);
      buffer, dataLen, done := RecvMore(s, buffer, dataLen);
      assert got + stream == buffer[..dataLen] + s.stream;
    }
  }

  // ---------- both loops at once ----------

  /** Which side runs next. */
  datatype Turn = Sender | Receiver

  /** Both loops between two iterations: what is sent, on its way and received. */
  datatype Transit = Transit(sent: nat, failed: bool, sends: seq<int>, stream: Bytes,
                             recvs: seq<int>, got: Bytes, size: nat, done: bool)

  predicate Sane(data: Bytes, x: Transit) {
    x.sent <= |data| && |x.got| <= x.size && x.size > 0
  }

  /** The sender has sent everything or failed. */
  predicate Finished(data: Bytes, x: Transit) {
    x.failed || x.sent == |data|
  }

  /** One iteration of the side whose turn it is, unless it is at its end or has to wait. */
  function Iterate(data: Bytes, x: Transit, turn: Turn): (y: Transit)
    requires Sane(data, x)
    ensures Sane(data, y)
  {
    match turn
    case Sender =>
      if Finished(data, x) then x
      else
        var n := Piece(x.sends, |data| - x.sent);
        var y := x.(sends := Rest(x.sends));
        if n < 1 then y.(failed := true)
        else y.(sent := x.sent + n, stream := x.stream + data[x.sent..x.sent + n])
    case Receiver =>
      if x.done || (x.stream == [] && !Finished(data, x)) then x
      else
        var size := if |x.got| == x.size then 2 * x.size else x.size;
        var k := Taken(x.stream, x.recvs, size - |x.got|);
        x.(recvs := Rest(x.recvs), size := size, done := k == 0,
           got := x.got + x.stream[..k], stream := x.stream[k..])
  }

  function Interleave(data: Bytes, x: Transit, turns: seq<Turn>): (y: Transit)
    requires Sane(data, x)
    ensures Sane(data, y)
    decreases |turns|
  {
    if turns == [] then x else Interleave(data, Iterate(data, x, turns[0]), turns[1..])
  }

  function Start(sends: seq<int>, recvs: seq<int>): Transit {
    Transit(0, false, sends, [], recvs, [], 1024, false)
  }

  /** What every interleaving keeps: nothing is lost, added or reordered on the way. */
  predicate InOrder(data: Bytes, sends: seq<int>, x: Transit) {
    && Sane(data, x)
    && data[..x.sent] == x.got + x.stream
    && SentBy(|data|, sends) == x.sent + (if x.failed then 0 else SentBy(|data| - x.sent, x.sends))
    && (x.done ==> x.stream == [] && Finished(data, x))
  }

  lemma SenderKeeps(data: Bytes, sends: seq<int>, x: Transit)
    requires InOrder(data, sends, x)
    ensures InOrder(data, sends, Iterate(data, x, Sender))
  {
    var n := Piece(x.sends, |data| - x.sent);
    if !Finished(data, x) && n >= 1 {
      assert data[..x.sent + n] == data[..x.sent] + data[x.sent..x.sent + n];
      assert x.got + x.stream + data[x.sent..x.sent + n]
        == x.got + (x.stream + data[x.sent..x.sent + n]);
    }
  }

  lemma ReceiverKeeps(data: Bytes, sends: seq<int>, x: Transit)
    requires InOrder(data, sends, x)
    ensures InOrder(data, sends, Iterate(data, x, Receiver))
  {
    hide SentBy, Taken;
    if !x.done && (x.stream != [] || Finished(data, x)) {
      var size := if |x.got| == x.size then 2 * x.size else x.size;
      var k := Taken(x.stream, x.recvs, size - |x.got|);
      assert x.got + x.stream[..k] + x.stream[k..] == x.got + x.stream;
    }
  }

  lemma IterateKeeps(data: Bytes, sends: seq<int>, x: Transit, turn: Turn)
    requires InOrder(data, sends, x)
    ensures InOrder(data, sends, Iterate(data, x, turn))
  {
    hide InOrder, Iterate;
    match turn
    case Sender => SenderKeeps(data, sends, x);
    case Receiver => ReceiverKeeps(data, sends, x);
  }

  /**
   * However the iterations of sendall and recvall interleave and however partial the sends and
   * receives are: what has been received is a prefix of the data; once the receiver has returned
   * it is exactly what sendall sends, which is everything without a failing send.
   */
  lemma {:induction false} EveryInterleaving(data: Bytes, sends: seq<int>, x: Transit, turns: seq<Turn>)
    requires InOrder(data, sends, x)
    ensures var y := Interleave(data, x, turns);
      && InOrder(data, sends, y) && y.got <= data
      && (y.done ==> y.got == data[..SentBy(|data|, sends)])
      && (y.done && NoFailure(sends) ==> y.got == data)
    decreases |turns|
  {
    if turns == [] {
      assert x.got <= data[..x.sent] <= data;
      if NoFailure(sends) {
        NoFailureSendsAll(|data|, sends);
        assert data[..|data|] == data;
      }
    } else {
      IterateKeeps(data, sends, x, turns[0]);
      EveryInterleaving(data, sends, Iterate(data, x, turns[0]), turns[1..]);
    }
  }

  /** Every interleaving can be continued until the receiver returns. */
  lemma {:induction false} ReceiverReturns(data: Bytes, x: Transit) returns (turns: seq<Turn>)
    requires Sane(data, x)
    ensures Interleave(data, x, turns).done
    decreases !x.failed, |data| - x.sent, |x.stream|, !x.done
  {
    if x.done {
      turns := [];
    } else {
      var turn := if Finished(data, x) then Receiver else Sender;
      turns := ReceiverReturns(data, Iterate(data, x, turn));
      turns := [turn] + turns;
    }
  }

  /** The two loops as they stand: the connection, and the variables of sendall and recvall. */
  ghost function Now(s: Socket, sent: nat, failed: bool, buffer: array<byte>, dataLen: nat,
                     done: bool): Transit
    requires dataLen <= buffer.Length
    reads s, buffer
  {
    Transit(sent, failed, s.sendPieces, s.stream, s.recvPieces, buffer[..dataLen], buffer.Length, done)
  }

  /** One iteration of sendall. */
  method SendTurn(s: Socket, data: Bytes, sent0: nat) returns (sent: nat, failed: bool)
    requires sent0 < |data|
    modifies s`stream, s`sendPieces
    ensures var n := Piece(old(s.sendPieces), |data| - sent0);
      && s.sendPieces == Rest(old(s.sendPieces))
      && failed == (n < 1) && sent == (if n < 1 then sent0 else sent0 + n)
      && s.stream == old(s.stream) + if n < 1 then [] else data[sent0..sent0 + n]
  {
    var n := s.Send(data[sent0..]);
    failed := n < 1;
    sent := if failed then sent0 else sent0 + n;
    assert n >= 1 ==> data[sent0..][..n] == data[sent0..sent0 + n];
  }

  /** One iteration of the side whose turn it is. */
  method OneTurn(s: Socket, data: Bytes, turn: Turn, sent0: nat, failed0: bool,
                 buffer0: array<byte>, dataLen0: nat, done0: bool)
    returns (sent: nat, failed: bool, buffer: array<byte>, dataLen: nat, done: bool)
    requires sent0 <= |data| && dataLen0 <= buffer0.Length && buffer0.Length > 0
    modifies s, buffer0
    ensures buffer == buffer0 || fresh(buffer)
    ensures sent <= |data| && dataLen <= buffer.Length && buffer.Length > 0
    ensures Now(s, sent, failed, buffer, dataLen, done)
      == Iterate(data, old(Now(s, sent0, failed0, buffer0, dataLen0, done0)), turn)
  {
    sent, failed, buffer, dataLen, done := sent0, failed0, buffer0, dataLen0, done0;
    var finished := failed || sent == |data|;
    if turn == Sender && !finished {
      sent, failed := SendTurn(s, data, sent);
    } else if turn == Receiver && !done && (s.stream != [] || finished) {
      buffer, dataLen, done := RecvMore(s, buffer, dataLen);
    }
  }

  lemma StartInOrder(data: Bytes, sends: seq<int>, recvs: seq<int>)
    ensures InOrder(data, sends, Start(sends, recvs))
  {
  }

  /** The two loops over a connection, for a given order of their iterations. */
  method Exchange(data: Bytes, sends: seq<int>, recvs: seq<int>, turns: seq<Turn>)
    returns (received: Bytes, done: bool)
    ensures var y := Interleave(data, Start(sends, recvs), turns);
      received == y.got && done == y.done
    ensures received <= data
    ensures done ==> received == data[..SentBy(|data|, sends)]
    ensures done && NoFailure(sends) ==> received == data
  {
    hide Iterate, InOrder, SentBy;
    var s := new Socket(sends, recvs);
    var sent: nat, failed := 0, false;
    var buffer, dataLen: nat := new byte[1024], 0;
    done := false;
    ghost var x0 := Now(s, sent, failed, buffer, dataLen, done);
    assert x0 == Start(sends, recvs) && turns[0..] == turns;
    for t := 0 to |turns|
      invariant fresh(s) && fresh(buffer) && dataLen <= buffer.Length && buffer.Length > 0
      invariant sent <= |data|
      invariant Interleave(data, x0, turns)
        == Interleave(data, Now(s, sent, failed, buffer, dataLen, done), turns[t..])
    {
      ghost var rest := turns[t..];
      assert rest[0] == turns[t] && rest[1..] == turns[t + 1..];
      sent, failed, buffer, dataLen, done :=
        OneTurn(s, data, turns[t], sent, failed, buffer, dataLen, done);
    }
    received := buffer[..dataLen];
    StartInOrder(data, sends, recvs);
    EveryInterleaving(data, sends, x0, turns);
  }
}
