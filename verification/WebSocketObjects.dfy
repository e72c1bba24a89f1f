/**
 * The objects that update in place: the transport, a message being sent, and the receiving side of
 * a WebSocket client.  Each method is proved against the functions of WebSocketSender and
 * WebSocketReceiver, about which the protocol results are stated.
 */
module WebSocketObjects {
  import opened Basics
  import opened WebSocketFrame
  import opened WebSocketSender
  import opened WebSocketReceiver
  import opened WebSocketRoundTrip

  // ---------- transport ----------

  // AsyncClient as the message code sees it.  wire is everything TCP has accepted.
  class AsyncClient {
    var established: bool
    var sndbuf: nat
    var wire: bytes

    constructor (sndbuf: nat)
      ensures established && this.sndbuf == sndbuf && wire == []
    {
      established, this.sndbuf, wire := true, sndbuf, [];
    }

    function Space(): nat
      reads this
    {
      if established then sndbuf else 0
    }

    predicate CanSend()
      reads this
    {
      Space() > 0
    }

    method Add(data: bytes) returns (n: nat)
      modifies this
      ensures n == if |data| < old(Space()) then |data| else old(Space())
      ensures wire == old(wire) + data[..n]
      ensures established == old(established) && Space() == old(Space()) - n
    {
      if |data| == 0 || Space() == 0 {
        return 0;
      }
      n := if Space() < |data| then Space() else |data|;
      wire := wire + data[..n];
      sndbuf := sndbuf - n;
    }

    method Send() returns (ok: bool)
      ensures ok == established
    {
      ok := established;
    }
  }

  // ---------- one frame ----------

  method WebSocketSendFrame(client: AsyncClient, final: bool, opcode: byte, mask: bool, key: Key,
                            data: array<byte>, off: nat, size: nat)
    returns (ret: nat, ghost junk: bytes)
    requires off + size <= data.Length
    modifies client, data
    ensures |junk| == HeadLen(mask, size)
    ensures var d := old(data[..]);
            var r := SendFrame(old(client.Space()), final, opcode, mask, key, d[off..off + size], junk);
            && ret == r.ret
            && client.wire == old(client.wire) + r.out
            && client.Space() == old(client.Space()) - |r.out|
            && data[..] == d[..off] + r.data + d[off + size..]
  {
    hide RawHeader, Mask, SendFrame, HeadLen;
    var headLen := HeadLen(mask, size);
    ghost var was := data[..];
    ghost var text := was[off..off + size];
    if !client.CanSend() || client.Space() < headLen {
      junk := seq(headLen, _ => 0);
      SendFrameParts(client.Space(), final, opcode, mask, key, text, junk);
      assert was == was[..off] + text + was[off + size..];
      return 0, junk;
    }
    var room := client.Space() - headLen;
    var len := if size > room then room else size;
    junk := FrameOut(client, final, opcode, mask, key, data, off, size, len);
    SendFrameParts(room + headLen, final, opcode, mask, key, text, junk);
    return len, junk;
  }

  // Header and payload, once there is room for the first len bytes.
  method FrameOut(client: AsyncClient, final: bool, opcode: byte, mask: bool, key: Key,
                  data: array<byte>, off: nat, size: nat, len: nat)
    returns (ghost junk: bytes)
    requires off + size <= data.Length && len <= size && HeadLen(mask, size) + len <= client.Space()
    modifies client, data
    ensures |junk| == HeadLen(mask, size)
    ensures var d := old(data[..]);
            var text := d[off..off + size];
            var out := if mask then Mask(key, 0, text[..len]) else text[..len];
            && client.wire == old(client.wire) + (RawHeader(final, opcode, mask, key, len, junk) + out)
            && client.Space() == old(client.Space()) - |junk| - len
            && data[..] == d[..off] + (out + text[len..]) + d[off + size..]
  {
    hide RawHeader, Mask, HeadLen;
    ghost var was := data[..];
    ghost var text := was[off..off + size];
    var header;
    header, junk := HeaderBlock(final, opcode, mask, key, size, len);
    var added := client.Add(header);
    assert header[..added] == header;
    ghost var out := if mask then Mask(key, 0, text[..len]) else text[..len];
    assert text[..len] == was[off..off + len];
    SendPayload(client, mask, key, data, off, len);
    Associative(old(client.wire), header, out);
    RegroupBuffer(was, off, len, size, out);
  }

  lemma SendFrameParts(space: nat, final: bool, opcode: byte, mask: bool, key: Key, data: bytes, junk: bytes)
    requires |junk| == HeadLen(mask, |data|)
    ensures var r := SendFrame(space, final, opcode, mask, key, data, junk);
            if space < |junk| then r == FrameResult([], data, 0)
            else
              var n := if |data| > space - |junk| then space - |junk| else |data|;
              var body := if mask then Mask(key, 0, data[..n]) else data[..n];
              HeadLen(mask, |data|) >= 2 && (n >= 126 ==> |junk| >= 4) && (n > 0 && mask ==> |junk| >= 4)
              && r == FrameResult(RawHeader(final, opcode, mask, key, n, junk) + body, body + data[n..], n)
  {
    hide RawHeader, Mask;
  }

  lemma TransmitParts(data: bytes, sent: nat, ack: nat, opcode: byte, mask: bool, space: nat, key: Key, junk: bytes)
    requires sent < |data| && |junk| == HeadLen(mask, Fitting(|data| - sent, space))
    ensures var p, n := WebSocketSender.Transmit(data, sent, ack, opcode, mask, space, key, junk),
                        Fitting(|data| - sent, space);
            var r := SendFrame(space, sent + n == |data|, FrameOpcode(opcode, sent, n), mask, key,
                               data[sent..sent + n], junk);
            var short := if n > 0 && r.ret != n then n - r.ret else 0;
            && p.data == data[..sent] + r.data + data[sent + n..] && p.sent == sent + n - short
            && p.ack == ack + n + FrameOverhead(mask, n) - short && p.out == r.out && p.ret == r.ret
  {
    hide WebSocketSender.SendFrame, HeadLen, FrameOpcode, FrameOverhead;
  }

  lemma RegroupBuffer(d: bytes, off: nat, len: nat, size: nat, body: bytes)
    requires len <= size && off + size <= |d|
    ensures d[..off] + body + d[off + len..] == d[..off] + (body + d[off..off + size][len..]) + d[off + size..]
  {
    assert d[off + len..] == d[off..off + size][len..] + d[off + size..];
  }

  method SendPayload(client: AsyncClient, mask: bool, key: Key, data: array<byte>, off: nat, len: nat)
    requires off + len <= data.Length && len <= client.Space()
    modifies client, data
    ensures var body := if mask then Mask(key, 0, old(data[off..off + len])) else old(data[off..off + len]);
            && client.wire == old(client.wire) + body
            && client.Space() == old(client.Space()) - len
            && data[..] == old(data[..off]) + body + old(data[off + len..])
  {
    hide Mask;
    ghost var was := data[..];
    assert was == was[..off] + was[off..off + len] + was[off + len..];
    if len > 0 {
      if mask {
        MaskInPlace(key, data, off, len);
      }
      ghost var body := data[off..off + len];
      var added := client.Add(data[off..off + len]);
      assert body[..added] == body;
      var ok := client.Send();
    } else {
      var none: bytes := [];
      assert client.wire + none == client.wire;
    }
  }

  // The malloc'ed header block: whatever is not stored below stays what the allocator left.
  method HeaderBlock(final: bool, opcode: byte, mask: bool, key: Key, size: nat, len: nat)
    returns (header: bytes, ghost junk: bytes)
    requires len <= size
    ensures |junk| == HeadLen(mask, size)
    ensures header == RawHeader(final, opcode, mask, key, len, junk)
  {
    var headLen := HeadLen(mask, size);
    var buf := new byte[headLen];
    junk := buf[..];
    buf[0] := FirstByte(final, opcode);
    buf[1] := SecondByte(len > 0 && mask, len);
    if len >= 126 {
      var length := LengthBytes(len);
      buf[2], buf[3] := length[0], length[1];
    }
    ghost var c := buf[..];
    if len > 0 && mask {
      forall i | 0 <= i < 4 {
        buf[headLen - 4 + i] := key[i];
      }
      assert buf[..] == c[..headLen - 4] + key;
    }
    header := buf[..];
  }

  method MaskInPlace(key: Key, data: array<byte>, off: nat, len: nat)
    requires off + len <= data.Length
    modifies data
    ensures data[..] == old(data[..off]) + Mask(key, 0, old(data[off..off + len])) + old(data[off + len..])
  {
    for i := 0 to len
      invariant forall j :: 0 <= j < data.Length ==>
                  data[j] == if off <= j < off + i then Xor(old(data[j]), key[(j - off) % 4]) else old(data[j])
    {
      data[off + i] := Xor(data[off + i], key[i % 4]);
    }
  }

  // ---------- one message ----------

  class WebSocketMessage {
    const kind: Kind
    const data: array<byte>
    const opcode: byte
    const mask: bool
    var sent: nat
    var ack: nat
    var acked: nat
    var status: Status

    function View(): Message
      reads this, data
    {
      Message(kind, data[..], opcode, mask, sent, ack, acked, status)
    }

    constructor (kind: Kind, text: bytes, opcode: byte, mask: bool)
      ensures View() == NewMessage(kind, text, opcode, mask) && fresh(data)
    {
      this.kind, this.opcode, this.mask := kind, opcode % 8, mask;
      sent, ack, acked, status := 0, 0, 0, Sending;
      var block := new byte[|text|](i requires 0 <= i < |text| => text[i]);
      data := block;
      new;
      assert data[..] == text;
    }

    method Ack(len: nat)
      modifies this
      ensures View() == WebSocketSender.Ack(old(View()), len)
    {
      acked := acked + len;
      match kind
      case Basic =>
        if sent == data.Length && acked == ack {
          status := Sent;
        }
      case Multi =>
        if sent >= data.Length && acked >= ack {
          status := Sent;
        }
    }

    method Send(client: AsyncClient, key: Key) returns (ret: nat, ghost junk: bytes)
      modifies this, data, client
      ensures Attempts(old(View())) ==> |junk| == HeadLen(mask, ToSend(old(View()), old(client.Space())))
      ensures var r := WebSocketSender.Send(old(View()), old(client.Space()), key, junk);
              && View() == r.m && ret == r.ret
              && client.wire == old(client.wire) + r.out
              && client.Space() == old(client.Space()) - |r.out|
    {
      hide WebSocketSender.Transmit;
      ret, junk := 0, [];
      if !status.Sending? || acked < ack {
        return;
      }
      if sent == data.Length {
        if kind.Multi? || acked == ack {
          status := Sent;
        }
        return;
      }
      if sent > data.Length {
        status := Error;
        return;
      }
      ret, junk := Transmit(client, key);
      status := Sending;
    }

    // The part of send after the guards.
    method Transmit(client: AsyncClient, key: Key) returns (ret: nat, ghost junk: bytes)
      requires sent < data.Length
      modifies `sent, `ack, data, client
      ensures |junk| == HeadLen(mask, Fitting(data.Length - old(sent), old(client.Space())))
      ensures var p := WebSocketSender.Transmit(old(data[..]), old(sent), old(ack), opcode, mask,
                                                old(client.Space()), key, junk);
              && data[..] == p.data && sent == p.sent && ack == p.ack && ret == p.ret
              && client.wire == old(client.wire) + p.out
              && client.Space() == old(client.Space()) - |p.out|
    {
      hide WebSocketSender.SendFrame, HeadLen, Fitting, FrameOpcode, FrameOverhead, WebSocketSender.Transmit;
      ghost var d, sent0, ack0, room := data[..], sent, ack, client.Space();
      var toSend := Fitting(data.Length - sent, client.Space());
      sent := sent + toSend;
      ack := ack + toSend + FrameOverhead(mask, toSend);
      var final := sent == data.Length;
      var op := FrameOpcode(opcode, sent - toSend, toSend);
      assert data[..] == d && sent - toSend == sent0;
      ret, junk := WebSocketSendFrame(client, final, op, mask, key, data, sent - toSend, toSend);
      TransmitParts(d, sent0, ack0, opcode, mask, room, key, junk);
      if toSend > 0 && ret != toSend {
        sent := sent - (toSend - ret);
        ack := ack - (toSend - ret);
      }
    }
  }

  // ---------- the receiving client ----------

  datatype ClientStatus = Connected | Disconnecting | Disconnected

  // What _onData does with chunks: data events to the handler, pongs to the handler,
  // control frames to answer with, and the close handshake.
  datatype Connection = Connection(
    status: ClientStatus, events: seq<Chunk>, pongs: seq<bytes>, control: seq<(byte, bytes)>)

  // "ESPAsyncWebServer-PING"
  const KEEPALIVE: bytes :=
    [69, 83, 80, 65, 115, 121, 110, 99, 87, 101, 98, 83, 101, 114, 118, 101, 114, 45, 80, 73, 78, 71]

  function Dispatch(conn: Connection, c: Chunk): Connection {
    if IsData(c) then conn.(events := conn.events + [c])
    else if c.h.opcode == DISCONNECT then
      if conn.status.Disconnecting? then conn.(status := Disconnected)
      else conn.(status := Disconnecting, control := conn.control + [(DISCONNECT, c.data)])
    else if c.h.opcode == PING then conn.(control := conn.control + [(PONG, c.data)])
    else if c.h.opcode == PONG && c.data != KEEPALIVE then conn.(pongs := conn.pongs + [c.data])
    else conn
  }

  function DispatchAll(conn: Connection, cs: seq<Chunk>): Connection {
    if cs == [] then conn else Dispatch(DispatchAll(conn, cs[..|cs| - 1]), cs[|cs| - 1])
  }

  function DataOf(cs: seq<Chunk>): bytes {
    if cs == [] then [] else DataOf(cs[..|cs| - 1]) + cs[|cs| - 1].data
  }

  lemma {:induction false} DeliveredAppend(a: seq<Chunk>, c: Chunk)
    ensures Delivered(a + [c]) == Delivered(a) + if IsData(c) then c.data else []
  {
    if a == [] {
      assert a + [c] == [c];
    } else {
      DeliveredAppend(a[1..], c);
      assert (a + [c])[1..] == a[1..] + [c];
      Associative(if IsData(a[0]) then a[0].data else [], Delivered(a[1..]), if IsData(c) then c.data else []);
    }
  }

  // The handler's data events carry exactly the delivered bytes.
  lemma {:induction false} EventsCarryDelivered(conn: Connection, cs: seq<Chunk>)
    ensures DataOf(DispatchAll(conn, cs).events) == DataOf(conn.events) + Delivered(cs)
  {
    hide Delivered, DataOf, Dispatch;
    if cs == [] {
      NothingDelivered();
      var none: bytes := [];
      assert DataOf(conn.events) + none == DataOf(conn.events);
    } else {
      var front, c := cs[..|cs| - 1], cs[|cs| - 1];
      EventsCarryDelivered(conn, front);
      DeliveredAppend(front, c);
      assert front + [c] == cs;
      OneEvent(DispatchAll(conn, front), c);
      Associative(DataOf(conn.events), Delivered(front), if IsData(c) then c.data else []);
    }
  }

  lemma NothingDelivered()
    ensures Delivered([]) == []
  {
  }

  lemma OneEvent(conn: Connection, c: Chunk)
    ensures DataOf(Dispatch(conn, c).events) == DataOf(conn.events) + if IsData(c) then c.data else []
  {
    var es := conn.events + [c];
    assert es[..|es| - 1] == conn.events;
  }

  // A chunk that ends a close frame.
  predicate EndsClose(c: Chunk) {
    !IsData(c) && c.h.opcode == DISCONNECT
  }

  function Closes(cs: seq<Chunk>): nat {
    if cs == [] then 0 else Closes(cs[..|cs| - 1]) + if EndsClose(cs[|cs| - 1]) then 1 else 0
  }

  // At some time among these chunks the close handshake ended, and the client was deleted.
  ghost predicate Deleted(conn: Connection, cs: seq<Chunk>) {
    exists k :: 0 <= k <= |cs| && DispatchAll(conn, cs[..k]).status.Disconnected?
  }

  // That is so if and only if there were two close frames, or one after a close frame seen earlier.
  lemma {:induction false} DeletedIff(conn: Connection, cs: seq<Chunk>)
    requires !conn.status.Disconnected?
    ensures Deleted(conn, cs) <==> Closes(cs) >= if conn.status.Connected? then 2 else 1
    ensures !Deleted(conn, cs) ==>
              DispatchAll(conn, cs).status == if Closes(cs) == 0 then conn.status else Disconnecting
  {
    assert cs[..|cs|] == cs;
    if cs == [] {
      assert forall k :: 0 <= k <= |cs| ==> cs[..k] == [];
    } else {
      var front := cs[..|cs| - 1];
      DeletedIff(conn, front);
      forall k | 0 <= k < |cs|
        ensures cs[..k] == front[..k]
      {
      }
      if Deleted(conn, front) {
        var k :| 0 <= k <= |front| && DispatchAll(conn, front[..k]).status.Disconnected?;
        assert DispatchAll(conn, cs[..k]).status.Disconnected?;
      } else if EndsClose(cs[|cs| - 1]) && DispatchAll(conn, front).status.Disconnecting? {
        assert DispatchAll(conn, cs[..|cs|]).status.Disconnected?;
      }
    }
  }

  // The control frame that a chunk asks for, as opcode and payload: a pong for the end of a ping, and a close
  // frame for the end of one, unless the handshake is under way.
  function AnswerTo(closing: bool, c: Chunk): seq<(byte, bytes)> {
    if !c.Last() then []
    else if c.h.opcode == 9 then [(10, c.data)]
    else if c.h.opcode == 8 && !closing then [(8, c.data)]
    else []
  }

  // Each close frame begins or ends the handshake.
  function AnswersTo(closing: bool, cs: seq<Chunk>): seq<(byte, bytes)> {
    if cs == [] then []
    else
      var front := cs[..|cs| - 1];
      AnswersTo(closing, front) + AnswerTo(closing != (Closes(front) % 2 == 1), cs[|cs| - 1])
  }

  // The pongs that do not answer the keep-alive ping.
  function PongsIn(cs: seq<Chunk>): seq<bytes> {
    if cs == [] then []
    else
      var c := cs[|cs| - 1];
      PongsIn(cs[..|cs| - 1]) + if c.Last() && c.h.opcode == 10 && c.data != KEEPALIVE then [c.data] else []
  }

  // The chunks that the data handler gets: all but those that end a control frame.
  function DataIn(cs: seq<Chunk>): seq<Chunk> {
    if cs == [] then []
    else
      var c := cs[|cs| - 1];
      DataIn(cs[..|cs| - 1]) + if c.Last() && c.h.opcode >= 8 then [] else [c]
  }

  // Main result for the handlers: what is queued in answer, and which chunks and pongs are handed on, in order.
  lemma AnswersInOrder(conn: Connection, cs: seq<Chunk>)
    ensures var d := DispatchAll(conn, cs);
            && d.control == conn.control + AnswersTo(conn.status.Disconnecting?, cs)
            && d.pongs == conn.pongs + PongsIn(cs) && d.events == conn.events + DataIn(cs)
            && (d.status.Disconnecting? <==> (conn.status.Disconnecting? != (Closes(cs) % 2 == 1)))
  {
    hide DispatchAll, AnswersTo, PongsIn, DataIn, Closes;
    ControlInOrder(conn, cs);
    HandedOnInOrder(conn, cs);
  }

  lemma {:induction false} ControlInOrder(conn: Connection, cs: seq<Chunk>)
    ensures var d := DispatchAll(conn, cs);
            && d.control == conn.control + AnswersTo(conn.status.Disconnecting?, cs)
            && (d.status.Disconnecting? <==> (conn.status.Disconnecting? != (Closes(cs) % 2 == 1)))
  {
    hide Dispatch, AnswerTo, EndsClose;
    if cs == [] {
      assert conn.control + [] == conn.control;
    } else {
      var front, c := cs[..|cs| - 1], cs[|cs| - 1];
      ControlInOrder(conn, front);
      OneAnswer(DispatchAll(conn, front), c);
      Associative(conn.control, AnswersTo(conn.status.Disconnecting?, front),
                  AnswerTo(conn.status.Disconnecting? != (Closes(front) % 2 == 1), c));
    }
  }

  lemma {:induction false} HandedOnInOrder(conn: Connection, cs: seq<Chunk>)
    ensures var d := DispatchAll(conn, cs); d.pongs == conn.pongs + PongsIn(cs) && d.events == conn.events + DataIn(cs)
  {
    hide Dispatch, AnswerTo, EndsClose;
    if cs == [] {
      assert conn.pongs + [] == conn.pongs && conn.events + [] == conn.events;
    } else {
      var front, c := cs[..|cs| - 1], cs[|cs| - 1];
      HandedOnInOrder(conn, front);
      OneAnswer(DispatchAll(conn, front), c);
      Associative(conn.pongs, PongsIn(front),
                  if c.Last() && c.h.opcode == 10 && c.data != KEEPALIVE then [c.data] else []);
      Associative(conn.events, DataIn(front), if c.Last() && c.h.opcode >= 8 then [] else [c]);
    }
  }

  lemma OneAnswer(conn: Connection, c: Chunk)
    ensures var d := Dispatch(conn, c);
            && d.control == conn.control + AnswerTo(conn.status.Disconnecting?, c)
            && d.pongs == conn.pongs + (if c.Last() && c.h.opcode == 10 && c.data != KEEPALIVE then [c.data] else [])
            && d.events == conn.events + (if c.Last() && c.h.opcode >= 8 then [] else [c])
            && (d.status.Disconnecting? <==> (conn.status.Disconnecting? != EndsClose(c)))
  {
    assert conn.control + [] == conn.control && conn.pongs + [] == conn.pongs && conn.events + [] == conn.events;
  }

  class AsyncWebSocketClient {
    var pstate: bool
    var pinfo: Header
    var index: nat
    var conn: Connection

    function View(): Parser
      reads this
    {
      Parser(pstate, pinfo, index)
    }

    constructor ()
      ensures View() == FRESH && conn == Connection(Connected, [], [], [])
    {
      pstate, pinfo, index := false, FRESH.h, 0;
      conn := Connection(Connected, [], [], []);
    }

    // The application's handler: it may write a terminator behind the data it is given.
    method HandleEvent(c: Chunk, data: array<byte>, off: nat, len: nat)
      requires off + len <= data.Length
      modifies data
      ensures forall i :: 0 <= i < data.Length && i != off + len ==> data[i] == old(data[i])
      ensures len == 0 ==> data[..] == old(data[..])
    {
      if len > 0 && off + len < data.Length {
        data[off + len] := 0;
      }
    }

    // Calls the handler if asked to, then puts back the byte that it may have overwritten.
    method Report(handled: bool, c: Chunk, data: array<byte>, off: nat, len: nat)
      requires off + len <= data.Length
      modifies data
      ensures data[..] == old(data[..])
    {
      var last := if off + len < data.Length then data[off + len] else 0;
      if handled {
        HandleEvent(c, data, off, len);
      }
      if len > 0 && off + len < data.Length {
        data[off + len] := last;
      }
    }

    method OnData(pbuf: array<byte>, plen: nat)
      requires plen <= pbuf.Length
      requires ParserValid(View()) && WholeHeaders(Missing(View()), pbuf[..plen])
      modifies this, pbuf
      ensures ParserValid(View())
      ensures var r := ParseSegment(old(View()), old(pbuf[..plen]));
              View() == r.p && conn == DispatchAll(old(conn), r.chunks)
    {
      hide HeaderComplete, ReadHeader, AfterHeader, TurnAt, Dispatch, WholePayload;
      ghost var segment := pbuf[..plen];
      ghost var p0, conn0 := View(), conn;
      ghost var done: seq<Chunk> := [];
      var data := 0;
      assert pbuf[0..plen] == segment;
      assert forall cs: seq<Chunk> :: done + cs == cs;
      while data < plen
        invariant 0 <= data <= plen
        invariant ParserValid(View()) && WholeHeaders(Missing(View()), pbuf[data..plen])
        invariant var r := ParseSegment(View(), pbuf[data..plen]);
                  ParseSegment(p0, segment) == Parsed(r.p, done + r.chunks)
        invariant conn == DispatchAll(conn0, done)
        decreases plen - data
      {
        ghost var rest, p := pbuf[data..plen], View();
        TurnKeepsWhole(p, rest);
        ghost var t := OneTurn(p, rest);
        data := LoopBody(pbuf, data, plen);
        Prepend(done, t.c, ParseSegment(t.p, t.rest).chunks);
        assert (done + [t.c])[..|done|] == done;
        done := done + [t.c];
      }
      assert pbuf[data..plen] == [];
      assert done + [] == done;
    }

    // The body of the loop: one header if a frame starts here, then one chunk.
    method LoopBody(pbuf: array<byte>, start: nat, plen: nat) returns (data: nat)
      requires start < plen <= pbuf.Length
      requires ParserValid(View()) && WholeHeaders(Missing(View()), pbuf[start..plen])
      requires !pstate ==> HeaderComplete(pbuf[start..plen])
      modifies this, pbuf
      ensures start <= data <= plen
      ensures var t := OneTurn(old(View()), old(pbuf[start..plen]));
              View() == t.p && conn == Dispatch(old(conn), t.c) && pbuf[data..plen] == t.rest
    {
      hide ReadHeader, WholePayload, Dispatch, TurnAt;
      data := start;
      ghost var rest := pbuf[data..plen];
      if !pstate {
        index := 0;
        pinfo := ReadHeader(pbuf[data..plen]);
        data := data + HeaderSize(pbuf[data + 1]);
        assert pbuf[data..plen] == AfterHeader(rest);
      }
      data := TakeChunk(pbuf, data, plen);
    }

    method TakeChunk(pbuf: array<byte>, start: nat, plen: nat) returns (data: nat)
      requires start <= plen <= pbuf.Length && index <= pinfo.len
      modifies this, pbuf
      ensures start <= data <= plen
      ensures var t := TurnAt(Place(old(pinfo), old(index), old(pbuf[start..plen])));
              View() == t.p && conn == Dispatch(old(conn), t.c) && pbuf[data..plen] == t.rest
    {
      hide Dispatch, Unmask;
      ghost var rest := pbuf[start..plen];
      var len := ChunkSize(pinfo, index, plen - start);
      assert rest[..len] == pbuf[start..start + len];
      UnmaskInPlace(pinfo, index, pbuf, start, len);
      assert pbuf[start + len..plen] == rest[len..] by {
        assert forall i :: start + len <= i < plen ==> pbuf[i] == rest[i - start];
      }
      HandOn(pbuf, start, len);
      data := start + len;
    }

    // What happens to an unmasked chunk.
    method HandOn(pbuf: array<byte>, start: nat, len: nat)
      requires start + len <= pbuf.Length && index + len <= pinfo.len
      modifies this, pbuf
      ensures pbuf[..] == old(pbuf[..])
      ensures forall i, j :: 0 <= i <= j <= pbuf.Length ==> pbuf[i..j] == old(pbuf[i..j])
      ensures var c := Chunk(old(pinfo), old(index), old(pbuf[start..start + len]));
              && conn == Dispatch(old(conn), c)
              && View() == (if c.Last() then Parser(false, old(pinfo), old(index))
                            else Parser(true, old(pinfo), old(index) + len))
    {
      hide Dispatch;
      var c := Chunk(pinfo, index, pbuf[start..start + len]);
      if len + index < pinfo.len {
        pstate := true;
        Report(true, c, pbuf, start, len);
        index := index + len;
      } else if len + index == pinfo.len {
        pstate := false;
        Report(pinfo.opcode < 8 || pinfo.opcode == PONG, c, pbuf, start, len);
      } else {
        assert false;
      }
      conn := Dispatch(conn, c);
      assert forall i, j :: 0 <= i <= j <= pbuf.Length ==> pbuf[i..j] == pbuf[..][i..j];
    }

    method UnmaskInPlace(h: Header, start: nat, data: array<byte>, off: nat, len: nat)
      requires off + len <= data.Length
      modifies data
      ensures data[off..off + len] == Unmask(h, start, old(data[off..off + len]))
      ensures forall j :: 0 <= j < data.Length && !(off <= j < off + len) ==> data[j] == old(data[j])
    {
      if h.masked {
        for i := 0 to len
          invariant forall j :: 0 <= j < data.Length ==>
                      data[j] == if off <= j < off + i then Xor(old(data[j]), h.key[(start + j - off) % 4])
                                 else old(data[j])
        {
          data[off + i] := Xor(data[off + i], h.key[(start + i) % 4]);
        }
      }
    }
  }

  lemma Prepend(done: seq<Chunk>, c: Chunk, later: seq<Chunk>)
    ensures done + ([c] + later) == (done + [c]) + later
  {
  }
}
