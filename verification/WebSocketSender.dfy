/**
 * Sending one WebSocket message: webSocketSendFrameWindow, webSocketSendFrame and the
 * send/ack pair of AsyncWebSocketBasicMessage and AsyncWebSocketMultiMessage, as functions on
 * values.  WebSocketObjects holds the classes that update in place and refine these functions.
 */
module WebSocketSender {
  import opened Basics
  import opened WebSocketFrame

  // ---------- one frame ----------

  // Room for payload once the largest header (eight bytes) is set aside.
  function Window(space: nat): nat {
    if space < 9 then 0 else space - 8
  }

  // The size that webSocketSendFrame reserves for the header, decided before the length is cut.
  function HeadLen(mask: bool, len: nat): nat {
    2 + (if len > 0 && mask then 4 else 0) + (if len > 125 then 2 else 0)
  }

  // The header bytes actually stored in the reserved block; junk is what malloc left there.
  function RawHeader(final: bool, opcode: byte, mask: bool, key: Key, n: nat, junk: bytes): (r: bytes)
    requires |junk| >= 2 && (n >= 126 ==> |junk| >= 4) && (n > 0 && mask ==> |junk| >= 4)
    ensures |r| == |junk|
  {
    var b := junk[0 := FirstByte(final, opcode)][1 := SecondByte(n > 0 && mask, n)];
    var c := if n >= 126 then b[2 := LengthBytes(n)[0]][3 := LengthBytes(n)[1]] else b;
    if n > 0 && mask then c[..|c| - 4] + key else c
  }

  // What one webSocketSendFrame call does: the bytes handed to TCP, the caller's buffer
  // afterwards (masking happens in it), and the returned payload count.
  datatype FrameResult = FrameResult(out: bytes, data: bytes, ret: nat)

  function SendFrame(space: nat, final: bool, opcode: byte, mask: bool, key: Key, data: bytes, junk: bytes)
    : (r: FrameResult)
    requires |junk| == HeadLen(mask, |data|)
    ensures r.ret <= |data| == |r.data|
  {
    if space < |junk| then FrameResult([], data, 0)
    else
      var room := space - |junk|;
      var n := if |data| > room then room else |data|;
      var sent := if mask then Mask(key, 0, data[..n]) else data[..n];
      FrameResult(RawHeader(final, opcode, mask, key, n, junk) + sent, sent + data[n..], n)
  }

  // The header read back from the bytes of a SendFrame call.
  ghost predicate ReadsBack(out: bytes, final: bool, opcode: byte, mask: bool, n: nat) {
    && HeaderComplete(out)
    && |out| == HeaderSize(out[1]) + n
    && var h := ReadHeader(out);
       h.final == final && h.opcode == opcode && h.masked == (n > 0 && mask) && h.len == n
  }

  // The cut length stays in the length form that was reserved, fits sixteen bits,
  // and a reserved mask is not left unwritten.
  predicate FormKept(mask: bool, len: nat, n: nat) {
    n < 0x1_0000 && (len > 125 ==> n > 125) && (len > 0 && mask ==> n > 0)
  }

  lemma RawHeaderIsEncoded(final: bool, opcode: byte, mask: bool, key: Key, len: nat, n: nat, junk: bytes)
    requires opcode < 16 && n <= len && |junk| == HeadLen(mask, len) && FormKept(mask, len, n)
    ensures RawHeader(final, opcode, mask, key, n, junk)
         == EncodeHeader(Header(final, opcode, n > 0 && mask, n, if n > 0 && mask then key else NO_KEY))
  {
  }

  // A kept form is read back.
  lemma KeptFormReadsBack(final: bool, opcode: byte, mask: bool, key: Key, len: nat, n: nat, junk: bytes, sent: bytes)
    requires opcode < 16 && n <= len && |junk| == HeadLen(mask, len) && |sent| == n && FormKept(mask, len, n)
    ensures ReadsBack(RawHeader(final, opcode, mask, key, n, junk) + sent, final, opcode, mask, n)
  {
    RawHeaderIsEncoded(final, opcode, mask, key, len, n, junk);
    HeaderRoundTrip(Header(final, opcode, n > 0 && mask, n, if n > 0 && mask then key else NO_KEY), sent);
  }

  // A form that is not kept is not: the header is read with another size, or with another length.
  lemma BrokenFormMisreads(final: bool, opcode: byte, mask: bool, key: Key, len: nat, n: nat, junk: bytes, sent: bytes)
    requires n <= len && |junk| == HeadLen(mask, len) && |sent| == n && !FormKept(mask, len, n)
    ensures !ReadsBack(RawHeader(final, opcode, mask, key, n, junk) + sent, final, opcode, mask, n)
  {
    var raw := RawHeader(final, opcode, mask, key, n, junk);
    var out := raw + sent;
    var second := SecondByte(n > 0 && mask, n);
    assert out[1] == raw[1] == second;
    assert KeySize(second) == if n > 0 && mask then 4 else 0;
    assert ExtendedSize(second) == if n < 126 then 0 else 2;
    if n >= 0x1_0000 && HeaderComplete(out) {
      assert raw[2..4] == LengthBytes(n);
      assert out[2..4] == raw[2..4];
      LengthBytesValue(n);
      assert ReadHeader(out).len == n % 0x1_0000;
    }
  }

  // How much of a text webSocketSendFrame sends into the room it finds.
  function Cut(space: nat, mask: bool, len: nat): nat {
    if space < HeadLen(mask, len) then 0
    else if len > space - HeadLen(mask, len) then space - HeadLen(mask, len)
    else len
  }

  // webSocketSendFrame emits a readable frame exactly when the length it cuts to keeps the form
  // chosen for the length it was given.
  lemma SendFrameReadableIff(space: nat, final: bool, opcode: byte, mask: bool, key: Key, data: bytes, junk: bytes)
    requires opcode < 16 && |junk| == HeadLen(mask, |data|) <= space
    ensures var r, n := SendFrame(space, final, opcode, mask, key, data, junk), Cut(space, mask, |data|);
            r.ret == n && (ReadsBack(r.out, final, opcode, mask, n) <==> FormKept(mask, |data|, n))
  {
    var r := SendFrame(space, final, opcode, mask, key, data, junk);
    var sent := r.out[|junk|..];
    assert r.out == RawHeader(final, opcode, mask, key, r.ret, junk) + sent;
    if FormKept(mask, |data|, r.ret) {
      KeptFormReadsBack(final, opcode, mask, key, |data|, r.ret, junk, sent);
    } else {
      BrokenFormMisreads(final, opcode, mask, key, |data|, r.ret, junk, sent);
    }
  }

  // Only the low four bits of the opcode count.
  lemma OpcodeIsCut(space: nat, final: bool, opcode: byte, mask: bool, key: Key, data: bytes, junk: bytes)
    requires |junk| == HeadLen(mask, |data|)
    ensures SendFrame(space, final, opcode, mask, key, data, junk) ==
              SendFrame(space, final, opcode % 16, mask, key, data, junk)
  {
    hide HeadLen, Mask, SecondByte, LengthBytes;
    assert FirstByte(final, opcode) == FirstByte(final, opcode % 16);
  }

  // Masking happens in the caller's buffer: what is sent is masked there, the rest is left alone.
  lemma SendFrameMasks(space: nat, final: bool, opcode: byte, mask: bool, key: Key, data: bytes, junk: bytes)
    requires |junk| == HeadLen(mask, |data|)
    ensures var r, n := SendFrame(space, final, opcode, mask, key, data, junk), Cut(space, mask, |data|);
            && r.ret == n && r.data[n..] == data[n..] && (!mask ==> r.data == data)
            && (mask && n > 0 ==> (r.data[0] == data[0] <==> key[0] == 0))
  {
    hide RawHeader;
    var r, n := SendFrame(space, final, opcode, mask, key, data, junk), Cut(space, mask, |data|);
    if !mask {
      assert data[..n] + data[n..] == data;
    } else if n > 0 {
      assert r.data[0] == Xor(data[0], key[0]);
      XorFixed(data[0], key[0]);
    }
  }

  // A text that several clients share is still there for the next one, whatever key is drawn, if and only
  // if the frame is not masked or nothing of the text is sent.
  lemma SharedTextSurvivesIff(space: nat, final: bool, opcode: byte, mask: bool, data: bytes, junk: bytes)
    requires |junk| == HeadLen(mask, |data|)
    ensures (forall key: Key :: SendFrame(space, final, opcode, mask, key, data, junk).data == data)
            <==> !mask || Cut(space, mask, |data|) == 0
  {
    hide SendFrame;
    forall key: Key
      ensures !mask || Cut(space, mask, |data|) == 0 ==>
                SendFrame(space, final, opcode, mask, key, data, junk).data == data
    {
      SendFrameMasks(space, final, opcode, mask, key, data, junk);
      assert data[0..] == data;
      var d := SendFrame(space, final, opcode, mask, key, data, junk).data;
      assert d[0..] == d;
    }
    var ones: Key := [1, 1, 1, 1];
    SendFrameMasks(space, final, opcode, mask, ones, data, junk);
  }

  // ---------- one message ----------

  datatype Status = Sending | Sent | Error

  datatype Kind = Basic | Multi

  // The fields of a message object.  data is the live buffer: masking rewrites what was sent.
  datatype Message = Message(
    kind: Kind, data: bytes, opcode: byte, mask: bool, sent: nat, ack: nat, acked: nat, status: Status)
  {
    predicate BetweenFrames() { acked == ack }

    predicate Finished() { !status.Sending? }
  }

  function NewMessage(kind: Kind, data: bytes, opcode: byte, mask: bool): Message {
    Message(kind, data, opcode % 8, mask, 0, 0, 0, Sending)
  }

  // The arguments with which send calls webSocketSendFrame.
  function Fitting(left: nat, space: nat): (n: nat)
    ensures n <= left
  {
    if Window(space) < left then Window(space) else left
  }

  function ToSend(m: Message, space: nat): nat
    requires m.sent <= |m.data|
  {
    Fitting(|m.data| - m.sent, space)
  }

  function FrameOpcode(opcode: byte, sent: nat, toSend: nat): byte {
    if toSend > 0 && sent == 0 then opcode else CONTINUATION
  }

  function FrameOverhead(mask: bool, toSend: nat): nat {
    (if toSend < 126 then 2 else 4) + if mask then 4 else 0
  }

  // send gets as far as webSocketSendFrame.
  predicate Attempts(m: Message) {
    m.status.Sending? && m.acked >= m.ack && m.sent < |m.data|
  }

  // The part of send that talks to TCP: new data, sent and ack, the bytes written and the result.
  datatype Progress = Progress(data: bytes, sent: nat, ack: nat, out: bytes, ret: nat)

  function Transmit(data: bytes, sent: nat, ack: nat, opcode: byte, mask: bool,
                    space: nat, key: Key, junk: bytes): Progress
    requires sent < |data| && |junk| == HeadLen(mask, Fitting(|data| - sent, space))
  {
    var toSend := Fitting(|data| - sent, space);
    var end := sent + toSend;
    var r := SendFrame(space, end == |data|, FrameOpcode(opcode, sent, toSend), mask, key, data[sent..end], junk);
    var short := if toSend > 0 && r.ret != toSend then toSend - r.ret else 0;
    Progress(data[..sent] + r.data + data[end..], end - short,
             ack + toSend + FrameOverhead(mask, toSend) - short, r.out, r.ret)
  }

  datatype SendResult = SendResult(m: Message, out: bytes, ret: nat)

  function Send(m: Message, space: nat, key: Key, junk: bytes): SendResult
    requires Attempts(m) ==> |junk| == HeadLen(m.mask, ToSend(m, space))
  {
    if !m.status.Sending? || m.acked < m.ack then SendResult(m, [], 0)
    else if m.sent == |m.data| then
      SendResult(if m.kind.Multi? || m.acked == m.ack then m.(status := Sent) else m, [], 0)
    else if m.sent > |m.data| then SendResult(m.(status := Error), [], 0)
    else
      var p := Transmit(m.data, m.sent, m.ack, m.opcode, m.mask, space, key, junk);
      SendResult(m.(data := p.data, sent := p.sent, ack := p.ack), p.out, p.ret)
  }

  function Ack(m: Message, len: nat): Message {
    var acked := m.acked + len;
    var done := match m.kind
                case Basic => m.sent == |m.data| && acked == m.ack
                case Multi => m.sent >= |m.data| && acked >= m.ack;
    m.(acked := acked, status := if done then Sent else m.status)
  }

  // ---------- runs ----------

  // What can happen to a message: its client offers it a window, or TCP acknowledges bytes.
  datatype Event = Offer(space: nat, key: Key, junk: bytes) | Acked(len: nat)

  // _runQueue offers a message only a non-zero window; tcp_sndbuf has sixteen bits;
  // the uninitialised header block has the size that is asked for;
  // TCP acknowledges no more than it was handed.
  predicate Allowed(m: Message, e: Event) {
    match e
    case Offer(space, _, junk) =>
      && 9 <= space < 0x1_0000
      && (Attempts(m) ==> |junk| == HeadLen(m.mask, ToSend(m, space)))
    case Acked(len) => m.acked + len <= m.ack
  }

  // That is all: any room that _runQueue offers, and any acknowledgement of bytes outstanding.
  lemma GuardsAllow(m: Message, space: nat, key: Key, junk: bytes, len: nat)
    ensures Window(space) > 0 && space <= 65535 && (Attempts(m) ==> |junk| == HeadLen(m.mask, ToSend(m, space))) ==>
              Allowed(m, Offer(space, key, junk))
    ensures len <= m.ack - m.acked ==> Allowed(m, Acked(len))
  {
  }

  function Step(m: Message, e: Event): (r: SendResult)
    requires Allowed(m, e)
  {
    match e
    case Offer(space, key, junk) => Send(m, space, key, junk)
    case Acked(len) => SendResult(Ack(m, len), [], 0)
  }

  // The frame that a step emits, in plain text.
  function Emitted(m: Message, e: Event): seq<Frame>
    requires Allowed(m, e)
  {
    if e.Offer? && Attempts(m) then
      var n := ToSend(m, e.space);
      [Frame(m.sent + n == |m.data|, FrameOpcode(m.opcode, m.sent, n), m.mask, e.key, m.data[m.sent..m.sent + n])]
    else []
  }

  datatype Trace = Trace(m: Message, frames: seq<Frame>, wire: bytes)

  // events is in order of occurrence; every event is allowed where it occurs.
  predicate AllowedRun(m: Message, events: seq<Event>)
    decreases |events|
  {
    events == [] ||
    (Allowed(m, events[0]) && AllowedRun(Step(m, events[0]).m, events[1..]))
  }

  function Run(t: Trace, events: seq<Event>): Trace
    requires AllowedRun(t.m, events)
    decreases |events|
  {
    if events == [] then t
    else
      var r := Step(t.m, events[0]);
      Run(Trace(r.m, t.frames + Emitted(t.m, events[0]), t.wire + r.out), events[1..])
  }

  // Section 5.4 of RFC 6455: the message opcode on the first frame, continuation on the others,
  // FIN on the last frame of a complete message only.
  ghost predicate LegalFragments(fs: seq<Frame>, opcode: byte, complete: bool) {
    && (forall i :: 0 <= i < |fs| ==> fs[i].opcode == if i == 0 then opcode else CONTINUATION)
    && (forall i :: 0 <= i < |fs| ==> (fs[i].final <==> complete && i == |fs| - 1))
    && (complete ==> fs != [])
  }

  // All but the last frame.
  function Settled(fs: seq<Frame>): seq<Frame> {
    if fs == [] then [] else fs[..|fs| - 1]
  }

  // What every step keeps, for a message whose text is orig.
  ghost predicate Invariant(t: Trace, orig: bytes) {
    var m := t.m;
    && m.opcode < 8
    && |m.data| == |orig| && m.sent <= |orig| && m.data[m.sent..] == orig[m.sent..]
    && t.wire == EncodeAll(t.frames)
    && Payloads(t.frames) == orig[..m.sent]
    && (forall f <- t.frames :: f.Encodable() && f.payload != [] && f.masked == m.mask)
    && LegalFragments(t.frames, m.opcode, m.sent == |orig|)
    && m.ack == |t.wire|
    && |EncodeAll(Settled(t.frames))| <= m.acked <= m.ack
    && !m.status.Error?
    && (m.status.Sent? <==> m.sent == |orig| && m.acked == m.ack)
  }

  // A guarded send emits exactly one well-formed frame and accounts for all its bytes.
  lemma OfferEmitsFrame(m: Message, e: Event)
    requires e.Offer? && Allowed(m, e) && Attempts(m) && m.opcode < 8
    ensures var f := Emitted(m, e)[0];
            var r := Step(m, e);
            && Emitted(m, e) == [f] && f.Encodable() && f.payload != [] && f.masked == m.mask
            && r.out == EncodeFrame(f)
            && r.m.sent == m.sent + |f.payload| <= |m.data|
            && r.m.ack == m.ack + |r.out|
            && |r.m.data| == |m.data| && r.m.data[r.m.sent..] == m.data[r.m.sent..]
            && r.m == m.(data := r.m.data, sent := r.m.sent, ack := r.m.ack)
  {
    hide SendFrame;
    var n := ToSend(m, e.space);
    var f := Emitted(m, e)[0];
    var payload := m.data[m.sent..m.sent + n];
    assert |payload| == n && 0 < n <= e.space - 8;
    FittingFrameIsEncoded(e.space, f, e.junk);
    var r := Step(m, e);
    assert r.m.data[r.m.sent..] == m.data[r.m.sent..];
  }

  // That frame continues the message.
  lemma EmittedFrame(m: Message, offer: Event)
    requires offer.Offer? && Allowed(m, offer) && Attempts(m) && m.opcode < 8
    ensures var f, n := Emitted(m, offer)[0], ToSend(m, offer.space);
            && f.payload == m.data[m.sent..][..|f.payload|]
            && f.final == (m.sent + |f.payload| == |m.data|)
            && (f.payload != [] ==> f.opcode == if m.sent == 0 then m.opcode else CONTINUATION)
  {
  }

  // A payload that leaves room for the largest header goes out whole, as one encoded frame.
  lemma FittingFrameIsEncoded(space: nat, f: Frame, junk: bytes)
    requires f.Encodable() && f.payload != [] && |f.payload| + 8 <= space
    requires |junk| == HeadLen(f.masked, |f.payload|)
    ensures var r := SendFrame(space, f.final, f.opcode, f.masked, f.key, f.payload, junk);
            r.out == EncodeFrame(f) && r.ret == |f.payload|
  {
    hide RawHeader, EncodeHeader;
    RawHeaderIsEncoded(f.final, f.opcode, f.masked, f.key, |f.payload|, |f.payload|, junk);
    assert f.payload[..|f.payload|] == f.payload;
  }

  // Appending one more frame of the text keeps the invariant.
  lemma FrameKeepsInvariant(t: Trace, f: Frame, m: Message, orig: bytes)
    requires Invariant(t, orig) && t.m.status.Sending? && t.m.acked >= t.m.ack
    requires f.Encodable() && f.payload != [] && f.masked == m.mask && t.m.sent + |f.payload| == m.sent <= |orig|
    requires f.payload == orig[t.m.sent..m.sent]
    requires f.final == (m.sent == |orig|) && f.opcode == if t.m.sent == 0 then m.opcode else CONTINUATION
    requires |m.data| == |orig| && m.data[m.sent..] == t.m.data[m.sent..]
    requires m == t.m.(data := m.data, sent := m.sent, ack := t.m.ack + |EncodeFrame(f)|)
    ensures Invariant(Trace(m, t.frames + [f], t.wire + EncodeFrame(f)), orig)
  {
    hide EncodeFrame, EncodeAll;
    var fs := t.frames + [f];
    var wire := t.wire + EncodeFrame(f);
    EncodeAllAppend(t.frames, f);
    PayloadsEmpty(t.frames);
    assert |wire| == t.m.ack + |EncodeFrame(f)| > t.m.ack;
    assert Settled(fs) == t.frames;
    assert Payloads(fs) == orig[..m.sent];
    assert m.data[m.sent..] == orig[m.sent..] by {
      assert t.m.data[m.sent..] == t.m.data[t.m.sent..][|f.payload|..];
      assert orig[m.sent..] == orig[t.m.sent..][|f.payload|..];
    }
    assert LegalFragments(fs, m.opcode, m.sent == |orig|);
  }

  lemma StepKeepsInvariant(t: Trace, e: Event, orig: bytes)
    requires orig != [] && Invariant(t, orig) && Allowed(t.m, e)
    ensures var r := Step(t.m, e);
            Invariant(Trace(r.m, t.frames + Emitted(t.m, e), t.wire + r.out), orig)
  {
    hide EncodeFrame, EncodeAll, Payloads, LegalFragments, Settled, Step, Emitted;
    if e.Offer? && Attempts(t.m) {
      OfferEmitsFrame(t.m, e);
      EmittedFrame(t.m, e);
      var f, m := Emitted(t.m, e)[0], Step(t.m, e).m;
      assert orig[t.m.sent..m.sent] == orig[t.m.sent..][..|f.payload|];
      FrameKeepsInvariant(t, f, m, orig);
    } else {
      QuietStepKeepsInvariant(t, e, orig);
    }
  }

  lemma QuietStepKeepsInvariant(t: Trace, e: Event, orig: bytes)
    requires orig != [] && Invariant(t, orig) && Allowed(t.m, e) && !(e.Offer? && Attempts(t.m))
    ensures var r := Step(t.m, e);
            Invariant(Trace(r.m, t.frames + Emitted(t.m, e), t.wire + r.out), orig)
  {
    var r := Step(t.m, e);
    assert r.out == [] && Emitted(t.m, e) == [];
    assert t.frames + [] == t.frames && t.wire + [] == t.wire;
    assert r.m == t.m.(acked := r.m.acked, status := r.m.status);
  }

  lemma PayloadsEmpty(fs: seq<Frame>)
    requires forall f <- fs :: f.payload != []
    ensures Payloads(fs) == [] <==> fs == []
  {
    if fs != [] {
      assert fs[0] in fs;
    }
  }

  lemma {:induction false} RunKeepsInvariant(t: Trace, events: seq<Event>, orig: bytes)
    requires orig != [] && Invariant(t, orig) && AllowedRun(t.m, events)
    ensures Invariant(Run(t, events), orig)
    decreases |events|
  {
    if events != [] {
      StepKeepsInvariant(t, events[0], orig);
      var r := Step(t.m, events[0]);
      RunKeepsInvariant(Trace(r.m, t.frames + Emitted(t.m, events[0]), t.wire + r.out), events[1..], orig);
    }
  }

  function Start(kind: Kind, orig: bytes, opcode: byte, mask: bool): Trace {
    Trace(NewMessage(kind, orig, opcode, mask), [], [])
  }

  // Main result for the sender: every run of a non-empty message, of either kind, masked or not.
  lemma EveryRunFragmentsLegally(kind: Kind, orig: bytes, opcode: byte, mask: bool, events: seq<Event>)
    requires orig != []
    requires AllowedRun(NewMessage(kind, orig, opcode, mask), events)
    ensures var t := Run(Start(kind, orig, opcode, mask), events);
            Invariant(t, orig) && t.m.kind == kind && t.m.opcode == opcode % 8 && t.m.mask == mask
  {
    hide Invariant, Run;
    StartInvariant(kind, orig, opcode, mask);
    RunKeepsInvariant(Start(kind, orig, opcode, mask), events, orig);
    RunKeepsArguments(Start(kind, orig, opcode, mask), events);
  }

  lemma StartInvariant(kind: Kind, orig: bytes, opcode: byte, mask: bool)
    requires orig != []
    ensures Invariant(Start(kind, orig, opcode, mask), orig)
  {
    assert orig[..0] == [];
  }

  // No step changes what the message was made with.
  lemma StepKeepsArguments(m: Message, e: Event)
    requires Allowed(m, e)
    ensures var u := Step(m, e).m; u.kind == m.kind && u.opcode == m.opcode && u.mask == m.mask
  {
    hide Transmit, HeadLen, Fitting;
  }

  lemma {:induction false} RunKeepsArguments(t: Trace, events: seq<Event>)
    requires AllowedRun(t.m, events)
    ensures var m := Run(t, events).m; m.kind == t.m.kind && m.opcode == t.m.opcode && m.mask == t.m.mask
    decreases |events|
  {
    hide Step, Allowed, Emitted;
    if events != [] {
      StepKeepsArguments(t.m, events[0]);
      var r := Step(t.m, events[0]);
      RunKeepsArguments(Trace(r.m, t.frames + Emitted(t.m, events[0]), t.wire + r.out), events[1..]);
    }
  }

  // The result of a send is how much of the text it has moved on, whatever the room.
  lemma SendReturnsProgress(m: Message, space: nat, key: Key, junk: bytes)
    requires Attempts(m) ==> |junk| == HeadLen(m.mask, ToSend(m, space))
    ensures var r := Send(m, space, key, junk); r.m.sent == m.sent + r.ret && r.m.acked == m.acked
  {
    hide SendFrame, HeadLen;
  }

  // A frame that leaves text behind leaves no more room than the largest header could have taken.
  lemma OfferFillsRoom(m: Message, e: Event)
    requires e.Offer? && Allowed(m, e) && Attempts(m) && m.opcode < 8
    ensures var r := Step(m, e);
            |r.out| <= e.space && (r.m.sent < |m.data| ==> e.space - |r.out| <= 6)
  {
    OfferEmitsFrame(m, e);
    hide SendFrame, RawHeader;
  }

  // ---------- where the code falls short ----------

  // send books exactly the bytes it hands to TCP if and only if it is offered a non-zero window,
  // or an unmasked message is offered room for an empty frame.
  lemma AccountingExactIff(m: Message, space: nat, key: Key, junk: bytes)
    requires m.sent <= |m.data| && Attempts(m) && |junk| == HeadLen(m.mask, ToSend(m, space))
    ensures var r := Send(m, space, key, junk);
            r.m.ack == m.ack + |r.out| <==> Window(space) > 0 || (space >= 2 && !m.mask)
  {
    var n := ToSend(m, space);
    assert |m.data[m.sent..m.sent + n]| == n;
  }

  // An empty message is never put on the wire: the first offer emits a frame exactly when there is text.
  lemma EmptyMessageSendsNothing(kind: Kind, orig: bytes, opcode: byte, mask: bool, e: Event)
    requires e.Offer? && Allowed(NewMessage(kind, orig, opcode, mask), e)
    ensures Step(NewMessage(kind, orig, opcode, mask), e).out != [] <==> orig != []
    ensures orig == [] ==> Step(NewMessage(kind, orig, opcode, mask), e).m.status.Sent?
  {
    var m := NewMessage(kind, orig, opcode, mask);
    if orig != [] {
      OfferEmitsFrame(m, e);
    }
  }

  // ---------- the two kinds of message ----------

  // While TCP acknowledges no more than it was handed, the kinds cannot be told apart.
  lemma {:induction false} KindsAgree(t: Trace, events: seq<Event>, orig: bytes)
    requires orig != [] && Invariant(t, orig) && AllowedRun(t.m, events)
    ensures forall kind :: AllowedRun(t.m.(kind := kind), events)
    ensures forall kind :: Run(t.(m := t.m.(kind := kind)), events) ==
              var r := Run(t, events); r.(m := r.m.(kind := kind))
    decreases |events|
  {
    if events != [] {
      var e := events[0];
      StepKeepsInvariant(t, e, orig);
      var r := Step(t.m, e);
      var t' := Trace(r.m, t.frames + Emitted(t.m, e), t.wire + r.out);
      KindsAgree(t', events[1..], orig);
      forall kind
        ensures AllowedRun(t.m.(kind := kind), events)
        ensures Run(t.(m := t.m.(kind := kind)), events) ==
                var z := Run(t, events); z.(m := z.m.(kind := kind))
      {
        KindsStepAlike(t.m, e, kind);
        assert Step(t.m.(kind := kind), e).m == r.m.(kind := kind);
      }
    }
  }

  lemma KindsStepAlike(m: Message, e: Event, kind: Kind)
    requires m.sent <= |m.data| && m.acked <= m.ack && Allowed(m, e)
    ensures var u := m.(kind := kind);
            && Allowed(u, e) && Emitted(u, e) == Emitted(m, e)
            && Step(u, e) == Step(m, e).(m := Step(m, e).m.(kind := kind))
  {
    hide Send, HeadLen;
    var u := m.(kind := kind);
    match e
    case Offer(space, key, junk) =>
      assert ToSend(u, space) == ToSend(m, space) && Attempts(u) == Attempts(m);
      KindsSendAlike(m, space, key, junk, kind);
    case Acked(len) =>
      assert Ack(u, len) == Ack(m, len).(kind := kind);
  }

  lemma KindsSendAlike(m: Message, space: nat, key: Key, junk: bytes, kind: Kind)
    requires m.sent <= |m.data| && m.acked <= m.ack
    requires Attempts(m) ==> |junk| == HeadLen(m.mask, ToSend(m, space))
    ensures ToSend(m.(kind := kind), space) == ToSend(m, space)
    ensures Send(m.(kind := kind), space, key, junk) ==
              Send(m, space, key, junk).(m := Send(m, space, key, junk).m.(kind := kind))
  {
    var u := m.(kind := kind);
    assert ToSend(u, space) == ToSend(m, space);
    if Attempts(m) {
      assert Attempts(u);
    }
  }

  // ---------- delivery ----------

  // One offer followed by the acknowledgement of everything outstanding.
  function Round(m: Message, e: Event): Message
    requires Allowed(m, e)
  {
    var s := Step(m, e).m;
    if s.acked <= s.ack then Ack(s, s.ack - s.acked) else s
  }

  predicate AllowedRounds(m: Message, offers: seq<Event>)
    decreases |offers|
  {
    offers == [] ||
    (offers[0].Offer? && Allowed(m, offers[0]) && AllowedRounds(Round(m, offers[0]), offers[1..]))
  }

  function Rounds(m: Message, offers: seq<Event>): Message
    requires AllowedRounds(m, offers)
    decreases |offers|
  {
    if offers == [] then m else Rounds(Round(m, offers[0]), offers[1..])
  }

  // Each round moves a message on by at least one byte, so |data| - sent rounds finish it.
  lemma {:induction false} RoundsDeliver(m: Message, offers: seq<Event>)
    requires AllowedRounds(m, offers) && m.opcode < 8 && m.sent <= |m.data| && m.acked == m.ack
    requires if m.sent < |m.data| then m.status.Sending? else m.status.Sent?
    requires |offers| >= |m.data| - m.sent
    ensures Rounds(m, offers).status.Sent?
    decreases |offers|
  {
    if offers != [] {
      if Attempts(m) {
        OfferEmitsFrame(m, offers[0]);
      }
      RoundsDeliver(Round(m, offers[0]), offers[1..]);
    }
  }
}
