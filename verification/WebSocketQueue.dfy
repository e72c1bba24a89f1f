/**
 * What AsyncWebSocketClient sends: the message queue and the control queue, with _queueMessage,
 * _queueControl, _onAck, _onPoll and _runQueue.  Each message has its text to itself.  Here is what arrives,
 * in every run; WebSocketBooks says when the client goes on sending.
 */
module WebSocketQueue {
  import opened Basics
  import opened WebSocketFrame
  import opened WebSocketSender
  import opened WebSocketReceiver
  import opened WebSocketRoundTrip

  // WS_MAX_QUEUED_MESSAGES on the ESP32
  const MAX_QUEUED: nat := 32

  // The arguments of a message's constructor.
  datatype Text = Text(kind: Kind, data: bytes, opcode: byte, mask: bool)

  datatype Purpose = Close | Ping | Pong

  type ControlData = d: bytes | |d| <= 125 witness []

  // AsyncWebSocketControl; none of its callers asks for a mask.
  datatype Control = Control(purpose: Purpose, data: ControlData, finished: bool) {
    function Opcode(): byte {
      match purpose
      case Close => DISCONNECT
      case Ping => PING
      case Pong => PONG
    }

    // len(): the header counts
    function Len(): (n: nat)
      ensures n < 128
    {
      |data| + 2
    }

    function ToFrame(): Frame { Frame(true, Opcode(), false, NO_KEY, data) }
  }

  function NewControl(purpose: Purpose, data: bytes): (k: Control)
    ensures k.data <= data && |k.data| == (if |data| > 125 then 125 else |data|)
  {
    Control(purpose, if |data| > 125 then data[..125] else data, false)
  }

  // WS_CONNECTED, WS_DISCONNECTING, and WS_DISCONNECTED, with which the connection is closed.
  datatype Phase = Connected | Disconnecting | Gone

  // acked counts the bytes that TCP has acknowledged, frames is what was handed to it, as bytes in wire.
  // accepted holds the texts that found room in the queue, and groups the frames that were sent for each; the
  // last |queue| of them are still queued.
  datatype Client = Client(
    phase: Phase, control: seq<Control>, queue: seq<Message>, frames: seq<Frame>, wire: bytes, acked: nat,
    accepted: seq<Text>, groups: seq<seq<Frame>>)

  function NewClient(): Client {
    Client(Connected, [], [], [], [], 0, [], [])
  }

  function MessageOf(t: Text): Message {
    NewMessage(t.kind, t.data, t.opcode, t.mask)
  }

  // ---------- the queue at work ----------

  // The loop of _runQueue that removes finished messages.
  function Trim(c: Client): (r: Client)
    ensures r == c.(queue := r.queue) && |r.queue| <= |c.queue|
    decreases |c.queue|
  {
    if c.queue != [] && c.queue[0].Finished() then Trim(c.(queue := c.queue[1..])) else c
  }

  // _runQueue sends the control frame at the front, sent before or not, if there is room for it and the
  // front message is between frames; otherwise it offers that message the room there is.
  predicate SendsControl(c: Client, space: nat) {
    && c.control != [] && (c.queue == [] || c.queue[0].BetweenFrames())
    && Window(space) > c.control[0].Len() - 1
  }

  predicate Offers(c: Client, space: nat) {
    !SendsControl(c, space) && c.queue != [] && c.queue[0].BetweenFrames() && Window(space) > 0
  }

  predicate CanRun(c: Client, offer: Event) {
    offer.Offer? && (Offers(Trim(c), offer.space) ==> Allowed(Trim(c).queue[0], offer))
  }

  // The number of the front message among the accepted ones.
  function FrontAt(c: Client): int {
    |c.accepted| - |c.queue|
  }

  function SendFront(c: Client, offer: Event): Client
    requires c.queue != [] && offer.Offer? && Allowed(c.queue[0], offer)
  {
    var m, r := c.queue[0], Step(c.queue[0], offer);
    var d, fs := FrontAt(c), Emitted(c.queue[0], offer);
    c.(queue := c.queue[0 := r.m], frames := c.frames + fs, wire := c.wire + r.out,
       groups := if 0 <= d < |c.groups| then c.groups[d := c.groups[d] + fs] else c.groups)
  }

  function SendControl(c: Client): Client
    requires c.control != []
  {
    var f := c.control[0].ToFrame();
    c.(control := c.control[0 := c.control[0].(finished := true)], frames := c.frames + [f],
       wire := c.wire + EncodeFrame(f))
  }

  function RunQueue(c: Client, offer: Event): Client
    requires CanRun(c, offer)
  {
    var t := Trim(c);
    if SendsControl(t, offer.space) then SendControl(t)
    else if Offers(t, offer.space) then SendFront(t, offer)
    else t
  }

  // ack(len) with the sum in 32 bits: what is left of len once the length of a control frame was taken off
  // may be negative.  Sums from 2^32 on are left out.
  function Credited(m: Message, len: int): Message
    requires len > -128
  {
    var sum := m.acked + len;
    Ack(m.(acked := 0), if sum < 0 then sum + SIZE_T else sum)
  }

  function CreditFront(c: Client, len: int): Client
    requires len > -128
  {
    if len != 0 && c.queue != [] then c.(queue := c.queue[0 := Credited(c.queue[0], len)]) else c
  }

  // A control frame that has been sent and not been acknowledged.
  predicate InFlight(c: Client) {
    c.control != [] && c.control[0].finished
  }

  predicate EndsHandshake(c: Client) {
    InFlight(c) && c.phase.Disconnecting? && c.control[0].purpose.Close?
  }

  // _onAck up to _runQueue
  function TakeAck(c: Client, len: nat): Client
  {
    var b := c.(acked := c.acked + len);
    if EndsHandshake(c) then b.(control := c.control[1..], phase := Gone)
    else if InFlight(c) then CreditFront(b.(control := c.control[1..]), len - c.control[0].Len())
    else CreditFront(b, len)
  }

  function Enqueue(c: Client, t: Text): Client {
    if |c.queue| >= MAX_QUEUED then c
    else c.(queue := c.queue + [MessageOf(t)], accepted := c.accepted + [t], groups := c.groups + [[]])
  }

  function EnqueueControl(c: Client, purpose: Purpose, data: bytes): Client {
    c.(control := c.control + [NewControl(purpose, data)])
  }

  // What can happen to a client.  offer is the room in the send buffer at that time, with the key and the
  // header block that a frame of a message would get.
  datatype Happening =
    | QueueText(t: Text, offer: Event)                               // _queueMessage
    | QueueControl(purpose: Purpose, data: bytes, offer: Event)      // _queueControl
    | AckBytes(len: nat, offer: Event)                               // _onAck
    | PollQueue(offer: Event)                                        // _onPoll
    | Closing                                                        // the peer has sent a close frame

  // TCP acknowledges bytes that it was handed.
  predicate Possible(c: Client, x: Happening) {
    && !c.phase.Gone?
    && match x
       case QueueText(t, offer) => c.phase.Connected? ==> CanRun(Enqueue(c, t), offer)
       case QueueControl(purpose, data, offer) => CanRun(EnqueueControl(c, purpose, data), offer)
       case AckBytes(len, offer) =>
         0 < len && c.acked + len <= |c.wire| && (!EndsHandshake(c) ==> CanRun(TakeAck(c, len), offer))
       case PollQueue(offer) => CanRun(c, offer)
       case Closing => true
  }

  // canSend() is space > 0.
  function Next(c: Client, x: Happening): Client
    requires Possible(c, x)
  {
    match x
    case QueueText(t, offer) =>
      if !c.phase.Connected? then c
      else if offer.space > 0 then RunQueue(Enqueue(c, t), offer)
      else Enqueue(c, t)
    case QueueControl(purpose, data, offer) =>
      var b := EnqueueControl(c, purpose, data);
      if offer.space > 0 then RunQueue(b, offer) else b
    case AckBytes(len, offer) =>
      if EndsHandshake(c) then TakeAck(c, len) else RunQueue(TakeAck(c, len), offer)
    case PollQueue(offer) => if offer.space > 0 && (c.control != [] || c.queue != []) then RunQueue(c, offer) else c
    case Closing => c.(phase := Disconnecting)
  }

  predicate PossibleRun(c: Client, xs: seq<Happening>)
    decreases |xs|
  {
    xs == [] || (Possible(c, xs[0]) && PossibleRun(Next(c, xs[0]), xs[1..]))
  }

  function RunClient(c: Client, xs: seq<Happening>): Client
    requires PossibleRun(c, xs)
    decreases |xs|
  {
    if xs == [] then c else RunClient(Next(c, xs[0]), xs[1..])
  }

  // ---------- what every happening keeps ----------

  function Flatten(groups: seq<seq<Frame>>): seq<Frame> {
    if groups == [] then [] else Flatten(groups[..|groups| - 1]) + groups[|groups| - 1]
  }

  // The frames of a text that has been sent: none for an empty one.
  ghost predicate Complete(g: seq<Frame>, t: Text) {
    if t.data == [] then g == []
    else
      && Payloads(g) == t.data && LegalFragments(g, t.opcode % 8, true)
      && forall f <- g :: f.Encodable() && f.masked == t.mask
  }

  // The front message: g carries what has been sent, and the buffer still holds the rest.  Nothing is asked
  // about acknowledgements.
  ghost predicate FrontInv(m: Message, g: seq<Frame>, t: Text) {
    && m.opcode == t.opcode % 8 && m.mask == t.mask
    && |m.data| == |t.data| && m.sent <= |t.data| && m.data[m.sent..] == t.data[m.sent..]
    && Payloads(g) == t.data[..m.sent] && (forall f <- g :: f.Encodable() && f.payload != [] && f.masked == t.mask)
    && LegalFragments(g, m.opcode, t.data != [] && m.sent == |t.data|)
    && !m.status.Error? && (m.status.Sent? ==> m.sent == |t.data|)
  }

  // The frames of messages, without the control frames between them.
  function DataFrames(fs: seq<Frame>): seq<Frame> {
    if fs == [] then []
    else DataFrames(fs[..|fs| - 1]) + if fs[|fs| - 1].opcode < 8 then [fs[|fs| - 1]] else []
  }

  ghost predicate ClientInv(c: Client) {
    && |c.groups| == |c.accepted| >= |c.queue|
    && c.wire == EncodeAll(c.frames) && (forall f <- c.frames :: f.Encodable())
    && DataFrames(c.frames) == Flatten(c.groups)
    && (forall i :: 0 <= i < FrontAt(c) ==> Complete(c.groups[i], c.accepted[i]))
    && (c.queue != [] ==> FrontInv(c.queue[0], c.groups[FrontAt(c)], c.accepted[FrontAt(c)]))
    && (forall i :: 0 < i < |c.queue| ==> Waiting(c, i))
  }

  // Queued behind the front: nothing has happened to it yet.
  ghost predicate Waiting(c: Client, i: nat)
    requires |c.groups| == |c.accepted| >= |c.queue| > i
  {
    var k := FrontAt(c) + i;
    c.queue[i] == MessageOf(c.accepted[k]) && c.groups[k] == []
  }

  lemma FreshFront(t: Text)
    ensures FrontInv(MessageOf(t), [], t)
  {
    if t.data != [] {
      assert t.data[0..] == t.data && t.data[..0] == [];
    }
  }

  // A finished message has sent all of its text.
  lemma FinishedIsComplete(m: Message, g: seq<Frame>, t: Text)
    requires FrontInv(m, g, t) && m.Finished()
    ensures Complete(g, t)
  {
    hide LegalFragments;
    assert t.data[..|t.data|] == t.data;
    if t.data == [] {
      PayloadsEmpty(g);
    }
  }

  lemma {:induction false} TrimKeeps(c: Client)
    requires ClientInv(c)
    ensures ClientInv(Trim(c)) && (Trim(c).queue != [] ==> !Trim(c).queue[0].Finished())
    decreases |c.queue|
  {
    if c.queue != [] && c.queue[0].Finished() {
      TrimOne(c);
      TrimKeeps(c.(queue := c.queue[1..]));
    }
  }

  lemma TrimOne(c: Client)
    requires ClientInv(c) && c.queue != [] && c.queue[0].Finished()
    ensures ClientInv(c.(queue := c.queue[1..]))
  {
    hide EncodeAll, Flatten, DataFrames, FrontInv, Complete;
    var d, b := FrontAt(c), c.(queue := c.queue[1..]);
    FinishedIsComplete(c.queue[0], c.groups[d], c.accepted[d]);
    assert FrontAt(b) == d + 1;
    if b.queue != [] {
      assert Waiting(c, 1) && b.queue[0] == c.queue[1];
      FreshFront(c.accepted[d + 1]);
    }
    forall i | 0 < i < |b.queue|
      ensures Waiting(b, i)
    {
      assert Waiting(c, i + 1) && b.queue[i] == c.queue[i + 1];
    }
  }

  lemma EnqueueKeeps(c: Client, t: Text)
    requires ClientInv(c)
    ensures ClientInv(Enqueue(c, t))
  {
    hide ClientInv;
    if |c.queue| < MAX_QUEUED {
      AddedKeeps(c, t);
    }
  }

  lemma AddedKeeps(c: Client, t: Text)
    requires ClientInv(c)
    ensures ClientInv(c.(queue := c.queue + [MessageOf(t)], accepted := c.accepted + [t], groups := c.groups + [[]]))
  {
    hide EncodeAll, FrontInv, Complete, Flatten, DataFrames;
    var b := c.(queue := c.queue + [MessageOf(t)], accepted := c.accepted + [t], groups := c.groups + [[]]);
    FlattenEmpty(c.groups);
    FreshFront(t);
    assert FrontAt(b) == FrontAt(c);
    forall i | 0 < i < |b.queue|
      ensures Waiting(b, i)
    {
      assert i < |c.queue| ==> Waiting(c, i);
    }
  }

  lemma FlattenEmpty(groups: seq<seq<Frame>>)
    ensures Flatten(groups + [[]]) == Flatten(groups)
  {
    var gs := groups + [[]];
    assert gs[..|gs| - 1] == groups && Flatten(groups) + [] == Flatten(groups);
  }

  lemma AckKeeps(c: Client, len: nat)
    requires ClientInv(c)
    ensures ClientInv(TakeAck(c, len))
  {
    var b := TakeAck(c, len);
    hide EncodeAll, Flatten, DataFrames, FrontInv, Complete, TakeAck;
    TakeAckParts(c, len);
    assert FrontAt(b) == FrontAt(c);
    if b.queue != [] {
      CreditedFront(c.queue[0], c.groups[FrontAt(c)], c.accepted[FrontAt(c)], CreditOf(c, len));
    }
    forall i | 0 < i < |b.queue|
      ensures Waiting(b, i)
    {
      assert Waiting(c, i);
    }
  }

  // What an acknowledgement of len bytes leaves for the front message.
  function CreditOf(c: Client, len: nat): (n: int)
    ensures n > -128
  {
    if EndsHandshake(c) then 0 else if InFlight(c) then len - c.control[0].Len() else len
  }

  lemma TakeAckParts(c: Client, len: nat)
    ensures var b := TakeAck(c, len);
            && b == c.(control := b.control, phase := b.phase, acked := c.acked + len, queue := b.queue)
            && b.queue == (if CreditOf(c, len) != 0 && c.queue != []
                           then c.queue[0 := Credited(c.queue[0], CreditOf(c, len))] else c.queue)
            && b.control == (if InFlight(c) then c.control[1..] else c.control)
            && b.phase == (if EndsHandshake(c) then Gone else c.phase)
  {
  }

  lemma CreditedFront(m: Message, g: seq<Frame>, t: Text, len: int)
    requires FrontInv(m, g, t) && len > -128
    ensures FrontInv(Credited(m, len), g, t)
  {
    hide LegalFragments, Payloads;
  }

  lemma {:induction false} EncodeAllConcat(a: seq<Frame>, b: seq<Frame>)
    ensures EncodeAll(a + b) == EncodeAll(a) + EncodeAll(b)
    ensures Payloads(a + b) == Payloads(a) + Payloads(b)
  {
    hide EncodeFrame;
    if a == [] {
      assert a + b == b;
    } else {
      EncodeAllConcat(a[1..], b);
      assert (a + b)[1..] == a[1..] + b;
      Associative(EncodeFrame(a[0]), EncodeAll(a[1..]), EncodeAll(b));
      Associative(a[0].payload, Payloads(a[1..]), Payloads(b));
    }
  }

  // Frames added to group d, behind which there are none, come last.
  lemma {:induction false} FlattenUpdate(groups: seq<seq<Frame>>, d: nat, more: seq<Frame>)
    requires d < |groups| && forall i :: d < i < |groups| ==> groups[i] == []
    ensures Flatten(groups[d := groups[d] + more]) == Flatten(groups) + more
    decreases |groups|
  {
    var n, us := |groups| - 1, groups[d := groups[d] + more];
    if d == n {
      assert us[..n] == groups[..n];
      Associative(Flatten(groups[..n]), groups[n], more);
    } else {
      assert us[..n] == groups[..n][d := groups[..n][d] + more] && us[n] == [];
      FlattenUpdate(groups[..n], d, more);
      assert Flatten(us) == Flatten(us[..n]) + [] && Flatten(groups) == Flatten(groups[..n]) + [];
    }
  }

  // One send of the front message.
  lemma SentFront(m: Message, g: seq<Frame>, t: Text, offer: Event)
    requires FrontInv(m, g, t) && offer.Offer? && Allowed(m, offer)
    ensures var r, fs := Step(m, offer), Emitted(m, offer);
            && FrontInv(r.m, g + fs, t) && r.out == EncodeAll(fs) && r.m.acked == m.acked
            && (if Attempts(m) then |fs| == 1 && fs[0].Encodable() && fs[0].opcode < 8 else fs == [])
            && r.m.ack - m.ack == |r.out|
  {
    hide Step, EncodeFrame, Emitted, Allowed;
    var r := Step(m, offer);
    if Attempts(m) {
      OfferEmitsFrame(m, offer);
      EmittedFrame(m, offer);
      var f := Emitted(m, offer)[0];
      EncodedAlone(f);
      FrontGains(m, r.m, g, f, t);
    } else {
      QuietOffer(m, offer);
      NothingGained(m, r.m, g, t);
    }
  }

  lemma EncodedAlone(f: Frame)
    ensures EncodeAll([f]) == EncodeFrame(f)
  {
    assert [f][1..] == [] && EncodeFrame(f) + [] == EncodeFrame(f);
  }

  // A send that does not get as far as webSocketSendFrame.
  lemma QuietOffer(m: Message, offer: Event)
    requires offer.Offer? && Allowed(m, offer) && !Attempts(m) && m.sent <= |m.data|
    ensures var r := Step(m, offer);
            && r.out == [] && Emitted(m, offer) == [] && r.m == m.(status := r.m.status)
            && (r.m.status == m.status || (r.m.status.Sent? && m.sent == |m.data| && m.acked >= m.ack))
  {
  }

  lemma NothingGained(m: Message, m': Message, g: seq<Frame>, t: Text)
    requires FrontInv(m, g, t) && m' == m.(status := m'.status)
    requires m'.status == m.status || (m'.status.Sent? && m.sent == |m.data|)
    ensures FrontInv(m', g + [], t) && EncodeAll([]) == []
  {
    assert g + [] == g;
  }

  // The front message with one more frame of its text.
  lemma FrontGains(m: Message, m': Message, g: seq<Frame>, f: Frame, t: Text)
    requires FrontInv(m, g, t) && m.status.Sending? && m.sent < |m.data|
    requires f.Encodable() && f.payload != [] && f.masked == m.mask && m'.sent == m.sent + |f.payload| <= |m.data|
    requires f.payload == m.data[m.sent..][..|f.payload|]
    requires f.final == (m'.sent == |m.data|) && f.opcode == if m.sent == 0 then m.opcode else CONTINUATION
    requires |m'.data| == |m.data| && m'.data[m'.sent..] == m.data[m'.sent..]
    requires m'.opcode == m.opcode && m'.mask == m.mask && m'.status == m.status
    ensures FrontInv(m', g + [f], t) && f.opcode < 8
  {
    hide LegalFragments, EncodeAll, Payloads;
    EncodeAllAppend(g, f);
    assert m.data[m'.sent..] == m.data[m.sent..][|f.payload|..];
    assert t.data[m'.sent..] == t.data[m.sent..][|f.payload|..];
    assert t.data[..m'.sent] == t.data[..m.sent] + t.data[m.sent..][..|f.payload|];
    PayloadsEmpty(g);
    LegalGains(g, f, m.opcode, m'.sent == |t.data|);
  }

  lemma LegalGains(g: seq<Frame>, f: Frame, opcode: byte, complete: bool)
    requires LegalFragments(g, opcode, false)
    requires f.final == complete && f.opcode == if g == [] then opcode else CONTINUATION
    ensures LegalFragments(g + [f], opcode, complete)
  {
  }

  lemma DataFramesAppend(fs: seq<Frame>, f: Frame)
    ensures DataFrames(fs + [f]) == DataFrames(fs) + if f.opcode < 8 then [f] else []
  {
    assert (fs + [f])[..|fs|] == fs;
  }

  lemma SendKeeps(c: Client, offer: Event)
    requires ClientInv(c) && c.queue != [] && offer.Offer? && Allowed(c.queue[0], offer)
    ensures ClientInv(SendFront(c, offer))
  {
    hide EncodeAll, Flatten, DataFrames, FrontInv, Complete, Step, Emitted, Allowed;
    var d, b := FrontAt(c), SendFront(c, offer);
    var fs := Emitted(c.queue[0], offer);
    SentFront(c.queue[0], c.groups[d], c.accepted[d], offer);
    forall i | d < i < |c.groups|
      ensures c.groups[i] == []
    {
      assert Waiting(c, i - d);
    }
    FlattenUpdate(c.groups, d, fs);
    EncodeAllConcat(c.frames, fs);
    if fs == [] {
      assert c.frames + fs == c.frames && DataFrames(c.frames) + fs == DataFrames(c.frames);
    } else {
      assert fs == [fs[0]];
      DataFramesAppend(c.frames, fs[0]);
    }
    assert FrontAt(b) == d;
    forall i | 0 < i < |b.queue|
      ensures Waiting(b, i)
    {
      assert Waiting(c, i);
    }
  }

  lemma ControlKeeps(c: Client)
    requires ClientInv(c) && c.control != []
    ensures ClientInv(SendControl(c))
  {
    hide EncodeAll, EncodeFrame, Flatten, DataFrames, FrontInv, Complete;
    var b, f := SendControl(c), c.control[0].ToFrame();
    EncodeAllAppend(c.frames, f);
    DataFramesAppend(c.frames, f);
    assert DataFrames(c.frames) + [] == DataFrames(c.frames);
    forall i | 0 < i < |b.queue|
      ensures Waiting(b, i)
    {
      assert Waiting(c, i);
    }
  }

  // A control frame goes out whole where _runQueue sends it, whatever was in the header block.
  lemma ControlGoesOut(k: Control, space: nat, key: Key, junk: bytes)
    requires Window(space) > k.Len() - 1 && |junk| == HeadLen(false, |k.data|)
    ensures SendFrame(space, true, k.Opcode(), false, key, k.data, junk).out == EncodeFrame(k.ToFrame())
    ensures EncodeFrame(k.ToFrame()) ==
              [match k.purpose case Close => 0x88 case Ping => 0x89 case Pong => 0x8A, |k.data|] + k.data
  {
    RawHeaderIsEncoded(true, k.Opcode(), false, key, |k.data|, |k.data|, junk);
    assert k.data[..|k.data|] == k.data;
  }

  lemma RunQueueKeeps(c: Client, offer: Event)
    requires ClientInv(c) && CanRun(c, offer)
    ensures ClientInv(RunQueue(c, offer))
  {
    hide ClientInv, SendFront, SendControl, Allowed;
    TrimKeeps(c);
    if SendsControl(Trim(c), offer.space) {
      ControlKeeps(Trim(c));
    } else if Offers(Trim(c), offer.space) {
      SendKeeps(Trim(c), offer);
    }
  }

  lemma NextKeeps(c: Client, x: Happening)
    requires ClientInv(c) && Possible(c, x)
    ensures ClientInv(Next(c, x))
  {
    hide RunQueue, Enqueue, TakeAck, Offers, ClientInv;
    match x
    case QueueText(t, offer) =>
      EnqueueKeeps(c, t);
      if c.phase.Connected? {
        RunQueueKeeps(Enqueue(c, t), offer);
      }
    case QueueControl(purpose, data, offer) =>
      SameQueueKeeps(c, EnqueueControl(c, purpose, data));
      RunQueueKeeps(EnqueueControl(c, purpose, data), offer);
    case AckBytes(len, offer) =>
      AckKeeps(c, len);
      if !EndsHandshake(c) {
        RunQueueKeeps(TakeAck(c, len), offer);
      }
    case PollQueue(offer) => RunQueueKeeps(c, offer);
    case Closing => SameQueueKeeps(c, c.(phase := Disconnecting));
  }

  // The control queue and the phase do not matter.
  lemma SameQueueKeeps(c: Client, b: Client)
    requires ClientInv(c) && b == c.(control := b.control, phase := b.phase)
    ensures ClientInv(b)
  {
    hide Flatten, EncodeAll, DataFrames, FrontInv, Complete;
    forall i | 0 < i < |b.queue|
      ensures Waiting(b, i)
    {
      assert Waiting(c, i);
    }
  }

  lemma {:induction false} RunKeeps(c: Client, xs: seq<Happening>)
    requires ClientInv(c) && PossibleRun(c, xs)
    ensures ClientInv(RunClient(c, xs))
    decreases |xs|
  {
    hide ClientInv, Possible, Next;
    if xs != [] {
      NextKeeps(c, xs[0]);
      RunKeeps(Next(c, xs[0]), xs[1..]);
    }
  }

  // ---------- what is accepted ----------

  // The texts that come while the client is connected and has fewer than 32 messages queued.
  function Admitted(c: Client, xs: seq<Happening>): seq<Text>
    requires PossibleRun(c, xs)
    decreases |xs|
  {
    if xs == [] then []
    else
      (if xs[0].QueueText? && c.phase == Connected && |c.queue| < 32 then [xs[0].t] else [])
      + Admitted(Next(c, xs[0]), xs[1..])
  }

  function Texts(xs: seq<Happening>): seq<Text> {
    if xs == [] then [] else (if xs[0].QueueText? then [xs[0].t] else []) + Texts(xs[1..])
  }

  lemma RunQueueFrame(c: Client, offer: Event)
    requires CanRun(c, offer)
    ensures var d := RunQueue(c, offer);
            d.accepted == c.accepted && d.phase == c.phase && |d.queue| <= |c.queue|
  {
    hide Step, Emitted, Allowed;
  }

  lemma NextFrame(c: Client, x: Happening)
    requires Possible(c, x)
    ensures Next(c, x).accepted ==
              c.accepted + if x.QueueText? && c.phase == Connected && |c.queue| < 32 then [x.t] else []
    ensures c.phase == Connected && !x.Closing? ==> Next(c, x).phase == Connected
  {
    hide RunQueue, Offers, Credited;
    assert c.accepted + [] == c.accepted;
    match x
    case QueueText(t, offer) =>
      if c.phase == Connected && offer.space > 0 {
        RunQueueFrame(Enqueue(c, t), offer);
      }
    case QueueControl(purpose, data, offer) =>
      if offer.space > 0 {
        RunQueueFrame(EnqueueControl(c, purpose, data), offer);
      }
    case AckBytes(len, offer) =>
      if !EndsHandshake(c) {
        RunQueueFrame(TakeAck(c, len), offer);
      }
    case PollQueue(offer) =>
      if offer.space > 0 && (c.control != [] || c.queue != []) {
        RunQueueFrame(c, offer);
      }
    case Closing =>
  }

  // Over every run, a text is lost if and only if the client was not connected, or had 32 earlier ones queued.
  lemma {:induction false} AcceptedAreAdmitted(c: Client, xs: seq<Happening>)
    requires PossibleRun(c, xs)
    ensures RunClient(c, xs).accepted == c.accepted + Admitted(c, xs)
    decreases |xs|
  {
    hide Possible, Next;
    if xs != [] {
      NextFrame(c, xs[0]);
      AcceptedAreAdmitted(Next(c, xs[0]), xs[1..]);
      Associative(c.accepted, if xs[0].QueueText? && c.phase == Connected && |c.queue| < 32 then [xs[0].t] else [],
                  Admitted(Next(c, xs[0]), xs[1..]));
    }
  }

  lemma {:induction false} FewAreAdmitted(c: Client, xs: seq<Happening>)
    requires ClientInv(c) && PossibleRun(c, xs) && c.phase == Connected && Closing !in xs
    requires |c.accepted| + |Texts(xs)| <= 32
    ensures Admitted(c, xs) == Texts(xs) && RunClient(c, xs).phase == Connected
    decreases |xs|
  {
    hide Possible, Next, ClientInv;
    if xs != [] {
      QueueIsShort(c);
      NextFrame(c, xs[0]);
      NextKeeps(c, xs[0]);
      assert xs[0] in xs && forall x <- xs[1..] :: x in xs;
      FewAreAdmitted(Next(c, xs[0]), xs[1..]);
    }
  }

  lemma QueueIsShort(c: Client)
    requires ClientInv(c)
    ensures |c.queue| <= |c.accepted|
  {
  }

  // Up to 32 texts on a client that stays connected are all accepted, in order.
  lemma UpTo32AreAccepted(xs: seq<Happening>)
    requires PossibleRun(NewClient(), xs) && Closing !in xs && |Texts(xs)| <= 32
    ensures RunClient(NewClient(), xs).accepted == Texts(xs)
  {
    hide PossibleRun, RunClient;
    NewClientInv();
    FewAreAdmitted(NewClient(), xs);
    AcceptedAreAdmitted(NewClient(), xs);
  }

  // ---------- what goes first ----------

  // Once the front message is between frames, the front control frame goes out before it if and only if there
  // is room for it and six bytes more.
  lemma ControlGoesFirst(c: Client, offer: Event)
    requires CanRun(c, offer) && c.control != [] && forall m <- c.queue :: m.acked == m.ack
    ensures var d := RunQueue(c, offer);
            if offer.space >= c.control[0].Len() + 8 then d.frames == c.frames + [c.control[0].ToFrame()]
            else d.control == c.control
  {
    TrimIsPart(c);
  }

  // Without a control frame, the front message gets a frame if and only if it has text to send and there is room
  // for the largest header and a byte.
  lemma MessageGoesNext(c: Client, offer: Event)
    requires CanRun(c, offer) && c.control == [] && c.queue != []
    requires var m := c.queue[0]; m.acked == m.ack && m.status.Sending? && m.sent <= |m.data| && m.opcode < 8
    ensures var m := c.queue[0];
            |RunQueue(c, offer).wire| > |c.wire| <==> m.sent < |m.data| && offer.space >= 9
  {
    var m := c.queue[0];
    assert Trim(c) == c;
    if Offers(c, offer.space) && Attempts(m) {
      OfferEmitsFrame(m, offer);
    }
  }

  lemma {:induction false} TrimIsPart(c: Client)
    ensures Trim(c) == c.(queue := Trim(c).queue) && forall m <- Trim(c).queue :: m in c.queue
    decreases |c.queue|
  {
    if c.queue != [] && c.queue[0].Finished() {
      TrimIsPart(c.(queue := c.queue[1..]));
    }
  }

  // ---------- what arrives ----------

  function AllText(ts: seq<Text>): bytes {
    if ts == [] then [] else AllText(ts[..|ts| - 1]) + ts[|ts| - 1].data
  }

  // How much of the front message has been sent.
  function SentOfFront(c: Client): bytes
    requires |c.accepted| >= |c.queue|
  {
    if c.queue == [] || c.queue[0].sent > |c.accepted[FrontAt(c)].data| then []
    else c.accepted[FrontAt(c)].data[..c.queue[0].sent]
  }

  lemma {:induction false} CompleteGroups(groups: seq<seq<Frame>>, ts: seq<Text>)
    requires |groups| == |ts| && forall i :: 0 <= i < |ts| ==> Complete(groups[i], ts[i])
    ensures Payloads(Flatten(groups)) == AllText(ts)
    ensures forall f <- Flatten(groups) :: f.Encodable() && f.opcode < 8
  {
    if ts != [] {
      var n := |ts| - 1;
      CompleteGroups(groups[..n], ts[..n]);
      EncodeAllConcat(Flatten(groups[..n]), groups[n]);
      assert Complete(groups[n], ts[n]);
      CompleteIsData(groups[n], ts[n]);
    }
  }

  lemma CompleteIsData(g: seq<Frame>, t: Text)
    requires Complete(g, t)
    ensures Payloads(g) == t.data && forall f <- g :: f.Encodable() && f.opcode < 8
  {
    forall f <- g
      ensures f.Encodable() && f.opcode < 8
    {
      var i :| 0 <= i < |g| && g[i] == f;
    }
  }

  lemma FrontIsData(m: Message, g: seq<Frame>, t: Text)
    requires FrontInv(m, g, t)
    ensures m.sent <= |t.data| && Payloads(g) == t.data[..m.sent]
    ensures forall f <- g :: f.Encodable() && f.opcode < 8 && f.masked == t.mask
    ensures LegalFragments(g, t.opcode % 8, t.data != [] && m.sent == |t.data|)
  {
    hide Payloads;
    forall f <- g
      ensures f.Encodable() && f.opcode < 8
    {
      var i :| 0 <= i < |g| && g[i] == f;
    }
  }

  lemma {:induction false} EmptyGroups(groups: seq<seq<Frame>>, n: nat)
    requires n <= |groups| && forall i :: n <= i < |groups| ==> groups[i] == []
    ensures Flatten(groups) == Flatten(groups[..n])
    decreases |groups|
  {
    if n == |groups| {
      assert groups[..n] == groups;
    } else {
      var k := |groups| - 1;
      EmptyGroups(groups[..k], n);
      assert groups[..k][..n] == groups[..n] && Flatten(groups[..k]) + [] == Flatten(groups[..k]);
    }
  }

  // The payload on the wire: all the finished texts, then what has been sent of the front one.
  lemma WirePayload(c: Client)
    requires ClientInv(c)
    ensures Payloads(Flatten(c.groups)) == AllText(c.accepted[..FrontAt(c)]) + SentOfFront(c)
    ensures forall f <- Flatten(c.groups) :: f.Encodable() && f.opcode < 8
  {
    hide EncodeAll, FrontInv, Complete, MessageOf, Payloads, AllText, Frame.Encodable;
    var d := FrontAt(c);
    CompleteGroups(c.groups[..d], c.accepted[..d]);
    if c.queue == [] {
      assert c.groups[..d] == c.groups && AllText(c.accepted[..d]) + [] == AllText(c.accepted[..d]);
    } else {
      forall i | d + 1 <= i < |c.groups|
        ensures c.groups[i] == []
      {
        assert Waiting(c, i - d);
      }
      EmptyGroups(c.groups, d + 1);
      assert c.groups[..d + 1][..d] == c.groups[..d];
      EncodeAllConcat(Flatten(c.groups[..d]), c.groups[d]);
      FrontIsData(c.queue[0], c.groups[d], c.accepted[d]);
    }
  }

  // Each message's frames are a legal fragmentation of its own, masked as it asked, complete once it has left
  // the queue.
  ghost predicate LegalGroups(c: Client)
    requires |c.groups| == |c.accepted| >= |c.queue|
  {
    forall i :: 0 <= i < |c.groups| && c.groups[i] != [] ==>
      var t := c.accepted[i];
      LegalFragments(c.groups[i], t.opcode % 8, Payloads(c.groups[i]) == t.data)
      && forall f <- c.groups[i] :: f.masked == t.mask
  }

  lemma GroupsAreLegal(c: Client)
    requires ClientInv(c)
    ensures LegalGroups(c)
  {
    hide EncodeAll, Flatten, LegalFragments;
    forall i | 0 <= i < |c.groups| && c.groups[i] != []
      ensures LegalFragments(c.groups[i], c.accepted[i].opcode % 8, Payloads(c.groups[i]) == c.accepted[i].data)
      ensures forall f <- c.groups[i] :: f.masked == c.accepted[i].mask
    {
      assert i > FrontAt(c) ==> Waiting(c, i - FrontAt(c));
      if i < FrontAt(c) {
        assert Complete(c.groups[i], c.accepted[i]);
      } else {
        FrontIsData(c.queue[0], c.groups[i], c.accepted[i]);
      }
    }
  }

  // Main result for a client's queues: over every run, whatever is sent again and however acknowledgements
  // are booked, and over every segmentation that splits no header, the receiver assembles what was sent.  Its
  // data frames are the accepted texts in order, the front one as far as it has been sent, the frames of each
  // together and legally fragmented.  Without control frames that is what the application is handed.
  lemma QueueDeliversInOrder(xs: seq<Happening>, p: Parser, segs: seq<bytes>)
    requires PossibleRun(NewClient(), xs) && Concat(segs) == RunClient(NewClient(), xs).wire
    requires !p.pstate && WholeSegments(p, segs)
    ensures var c, chunks := RunClient(NewClient(), xs), ParseSegments(p, segs).chunks;
            && |c.groups| == |c.accepted| >= |c.queue| && LegalGroups(c)
            && Contiguous(Idle, chunks)
            && Assemble(Idle, chunks) == Decoded(AllReceived(c.frames), Idle)
            && DataFrames(c.frames) == Flatten(c.groups)
            && Payloads(DataFrames(c.frames)) == AllText(c.accepted[..FrontAt(c)]) + SentOfFront(c)
            && (DataFrames(c.frames) == c.frames ==> Delivered(chunks) == Payloads(c.frames))
  {
    hide PossibleRun, RunClient, WholeSegments, ParseSegments, Assemble, Delivered, LegalGroups, Flatten, DataFrames,
      Payloads, AllText;
    NewClientInv();
    RunKeeps(NewClient(), xs);
    var c := RunClient(NewClient(), xs);
    GroupsAreLegal(c);
    WirePayload(c);
    EncodedFramesArrive(c.frames, p, segs);
    if DataFrames(c.frames) == c.frames {
      FramesArrive(c.frames, p, segs);
    }
  }

  // The bytes of a run in one piece are such a segmentation.
  lemma QueueInOneSegment(xs: seq<Happening>, p: Parser)
    requires PossibleRun(NewClient(), xs) && !p.pstate
    ensures WholeSegments(p, [RunClient(NewClient(), xs).wire])
  {
    hide PossibleRun, RunClient, WholeSegments, EncodeAll, Flatten, DataFrames;
    NewClientInv();
    RunKeeps(NewClient(), xs);
    EncodedIsWhole(RunClient(NewClient(), xs).frames, p);
  }

  lemma NewClientInv()
    ensures ClientInv(NewClient())
  {
  }
}
