/**
 * Control frames both ways: the ones a client queues go out in order, and what _onData queues in answer to
 * the peer's pings and close frames.
 */
module WebSocketAnswers {
  import opened Basics
  import opened WebSocketFrame
  import opened WebSocketSender
  import opened WebSocketReceiver
  import opened WebSocketRoundTrip
  import opened WebSocketQueue
  import opened WebSocketBooks
  import Objects = WebSocketObjects

  // ---------- the control frames of a run ----------

  // The control frames that a run queues.
  function Asked(xs: seq<Happening>): seq<Control> {
    if xs == [] then []
    else (if xs[0].QueueControl? then [NewControl(xs[0].purpose, xs[0].data)] else []) + Asked(xs[1..])
  }

  function ControlFrames(fs: seq<Frame>): seq<Frame> {
    if fs == [] then []
    else ControlFrames(fs[..|fs| - 1]) + if fs[|fs| - 1].opcode >= 8 then [fs[|fs| - 1]] else []
  }

  function ToFrames(ks: seq<Control>): (fs: seq<Frame>)
    ensures |fs| == |ks| && forall i :: 0 <= i < |ks| ==> fs[i] == ks[i].ToFrame()
  {
    seq(|ks|, i requires 0 <= i < |ks| => ks[i].ToFrame())
  }

  // fs is ks, with every element once or more often in a row.
  predicate Stretched(fs: seq<Frame>, ks: seq<Frame>)
    decreases |fs|
  {
    if ks == [] || fs == [] then ks == fs == []
    else
      var front := fs[..|fs| - 1];
      fs[|fs| - 1] == ks[|ks| - 1] && (Stretched(front, ks) || Stretched(front, ks[..|ks| - 1]))
  }

  // How many of the asked ones have been sent.
  function SentCount(c: Client, asked: seq<Control>): int {
    |asked| - |c.control| + if InFlight(c) then 1 else 0
  }

  // asked are all that were queued so far, the last ones of which are still queued.
  ghost predicate Queued(c: Client, asked: seq<Control>) {
    && |c.control| <= |asked|
    && (forall i :: 0 <= i < |c.control| ==>
          c.control[i].(finished := false) == asked[|asked| - |c.control| + i] && (c.control[i].finished ==> i == 0))
  }

  ghost predicate InOrder(c: Client, asked: seq<Control>, once: bool) {
    && Queued(c, asked)
    && var sent, due := ControlFrames(c.frames), ToFrames(asked[..SentCount(c, asked)]);
       if once then sent == due else Stretched(sent, due)
  }

  lemma ControlFramesAppend(fs: seq<Frame>, f: Frame)
    ensures ControlFrames(fs + [f]) == ControlFrames(fs) + if f.opcode >= 8 then [f] else []
  {
    assert (fs + [f])[..|fs|] == fs;
  }

  lemma StretchedAppend(fs: seq<Frame>, ks: seq<Frame>, f: Frame)
    requires Stretched(fs, ks)
    ensures Stretched(fs + [f], ks + [f])
    ensures ks != [] && ks[|ks| - 1] == f ==> Stretched(fs + [f], ks)
  {
    assert (fs + [f])[..|fs|] == fs && (ks + [f])[..|ks|] == ks;
  }

  // _runQueue sends the front control frame, for the first time or again, or none.
  lemma RunInOrder(c: Client, asked: seq<Control>, offer: Event, once: bool)
    requires InOrder(c, asked, once) && CanRun(c, offer) && ClientInv(c)
    requires once ==> !Resends(c, offer.space)
    ensures InOrder(RunQueue(c, offer), asked, once)
  {
    hide InOrder, Trim, ClientInv, RunQueue;
    TrimIsPart(c);
    TrimKeeps(c);
    var t := Trim(c);
    SameControl(c, t, asked, once);
    RunParts(c, offer);
    if SendsControl(t, offer.space) {
      SendInOrder(t, asked, once);
    } else if Offers(t, offer.space) {
      DataKeepsOrder(t, asked, offer, once);
    }
  }

  lemma RunParts(c: Client, offer: Event)
    requires CanRun(c, offer)
    ensures var t := Trim(c);
            RunQueue(c, offer) == if SendsControl(t, offer.space) then SendControl(t)
                                  else if Offers(t, offer.space) then SendFront(t, offer) else t
  {
  }

  lemma SameControl(c: Client, b: Client, asked: seq<Control>, once: bool)
    requires InOrder(c, asked, once) && b.control == c.control && ControlFrames(b.frames) == ControlFrames(c.frames)
    ensures InOrder(b, asked, once)
  {
  }

  lemma SendInOrder(c: Client, asked: seq<Control>, once: bool)
    requires InOrder(c, asked, once) && c.control != [] && (once ==> !c.control[0].finished)
    ensures InOrder(SendControl(c), asked, once)
  {
    hide ControlFrames, Stretched, ToFrames, EncodeFrame;
    var d, f := |asked| - |c.control|, c.control[0].ToFrame();
    ControlFramesAppend(c.frames, f);
    assert c.control[0].(finished := false) == asked[d] && asked[d].ToFrame() == f;
    OneMoreFrame(asked, d);
    if !once {
      StretchedAppend(ControlFrames(c.frames), ToFrames(asked[..SentCount(c, asked)]), f);
    }
  }

  lemma OneMoreFrame(ks: seq<Control>, d: nat)
    requires d < |ks|
    ensures ToFrames(ks[..d + 1]) == ToFrames(ks[..d]) + [ks[d].ToFrame()]
  {
  }

  lemma DataKeepsOrder(c: Client, asked: seq<Control>, offer: Event, once: bool)
    requires InOrder(c, asked, once) && ClientInv(c) && c.queue != [] && offer.Offer? && Allowed(c.queue[0], offer)
    ensures InOrder(SendFront(c, offer), asked, once)
  {
    hide ClientInv, InOrder;
    NoControlEmitted(c, offer);
    SameControl(c, SendFront(c, offer), asked, once);
  }

  lemma NoControlEmitted(c: Client, offer: Event)
    requires ClientInv(c) && c.queue != [] && offer.Offer? && Allowed(c.queue[0], offer)
    ensures ControlFrames(SendFront(c, offer).frames) == ControlFrames(c.frames)
  {
    hide ControlFrames, Step, Emitted, EncodeAll, Flatten, DataFrames, Complete, FrontInv;
    var fs := Emitted(c.queue[0], offer);
    SentFront(c.queue[0], c.groups[FrontAt(c)], c.accepted[FrontAt(c)], offer);
    if fs == [] {
      assert c.frames + fs == c.frames;
    } else {
      assert fs == [fs[0]];
      ControlFramesAppend(c.frames, fs[0]);
      assert ControlFrames(c.frames) + [] == ControlFrames(c.frames);
    }
  }

  lemma AckInOrder(c: Client, asked: seq<Control>, len: nat, once: bool)
    requires InOrder(c, asked, once)
    ensures InOrder(TakeAck(c, len), asked, once) && !InFlight(TakeAck(c, len))
  {
    hide InOrder, TakeAck, EndsHandshake, CreditOf, Credited;
    TakeAckParts(c, len);
    if InFlight(c) {
      PopInOrder(c, TakeAck(c, len), asked, once);
    } else {
      SameControl(c, TakeAck(c, len), asked, once);
    }
  }

  lemma PopInOrder(c: Client, b: Client, asked: seq<Control>, once: bool)
    requires InOrder(c, asked, once) && InFlight(c) && b.control == c.control[1..] && b.frames == c.frames
    ensures InOrder(b, asked, once) && !InFlight(b)
  {
    hide ControlFrames, Stretched, ToFrames;
    forall i | 0 <= i < |b.control|
      ensures b.control[i].(finished := false) == asked[|asked| - |b.control| + i] && !b.control[i].finished
    {
      assert b.control[i] == c.control[i + 1];
    }
  }

  lemma AskInOrder(c: Client, asked: seq<Control>, purpose: Purpose, data: bytes, once: bool)
    requires InOrder(c, asked, once)
    ensures InOrder(EnqueueControl(c, purpose, data), asked + [NewControl(purpose, data)], once)
  {
    hide ControlFrames, Stretched;
    var more := asked + [NewControl(purpose, data)];
    assert more[..SentCount(c, asked)] == asked[..SentCount(c, asked)];
  }

  lemma NextInOrder(c: Client, asked: seq<Control>, x: Happening, once: bool)
    requires InOrder(c, asked, once) && ClientInv(c) && Possible(c, x) && (once ==> Harmless(c, x))
    ensures InOrder(Next(c, x), asked + if x.QueueControl? then [NewControl(x.purpose, x.data)] else [], once)
  {
    hide InOrder, ClientInv, RunQueue, Resends, TakeAck, Trim;
    assert asked + [] == asked;
    match x
    case QueueText(t, offer) =>
      EnqueueKeeps(c, t);
      SameControl(c, Enqueue(c, t), asked, once);
      if c.phase.Connected? && offer.space > 0 {
        RunInOrder(Enqueue(c, t), asked, offer, once);
      }
    case QueueControl(purpose, data, offer) =>
      SameQueueKeeps(c, EnqueueControl(c, purpose, data));
      AskInOrder(c, asked, purpose, data, once);
      if offer.space > 0 {
        RunInOrder(EnqueueControl(c, purpose, data), asked + [NewControl(purpose, data)], offer, once);
      }
    case AckBytes(len, offer) =>
      AckKeeps(c, len);
      AckInOrder(c, asked, len, once);
      if !EndsHandshake(c) {
        NothingInFlight(TakeAck(c, len), offer.space);
        RunInOrder(TakeAck(c, len), asked, offer, once);
      }
    case PollQueue(offer) =>
      if offer.space > 0 && (c.control != [] || c.queue != []) {
        RunInOrder(c, asked, offer, once);
      }
    case Closing => SameControl(c, c.(phase := Disconnecting), asked, once);
  }

  lemma {:induction false} RunsInOrder(c: Client, asked: seq<Control>, xs: seq<Happening>, once: bool)
    requires InOrder(c, asked, once) && ClientInv(c) && PossibleRun(c, xs) && (once ==> AllHarmless(c, xs))
    ensures InOrder(RunClient(c, xs), asked + Asked(xs), once)
    decreases |xs|
  {
    hide InOrder, ClientInv, Possible, Next, Harmless;
    if xs == [] {
      assert asked + [] == asked;
    } else {
      var one := if xs[0].QueueControl? then [NewControl(xs[0].purpose, xs[0].data)] else [];
      NextInOrder(c, asked, xs[0], once);
      NextKeeps(c, xs[0]);
      RunsInOrder(Next(c, xs[0]), asked + one, xs[1..], once);
      Associative(asked, one, Asked(xs[1..]));
    }
  }

  // Over every run, the control frames on the wire are the first of the queued ones, in order, some of them
  // more than once in a row; in a harmless run, each once.  Those not sent are still queued.
  lemma ControlsGoOutInOrder(xs: seq<Happening>)
    requires PossibleRun(NewClient(), xs)
    ensures var c, asked := RunClient(NewClient(), xs), Asked(xs);
            && Queued(c, asked)
            && Stretched(ControlFrames(c.frames), ToFrames(asked[..SentCount(c, asked)]))
            && (AllHarmless(NewClient(), xs) ==> ControlFrames(c.frames) == ToFrames(asked[..SentCount(c, asked)]))
  {
    hide PossibleRun, RunClient, AllHarmless, ControlFrames, Stretched, Asked;
    NewClientInv();
    NewInOrder();
    assert [] + Asked(xs) == Asked(xs);
    RunsInOrder(NewClient(), [], xs, false);
    if AllHarmless(NewClient(), xs) {
      RunsInOrder(NewClient(), [], xs, true);
    }
  }

  lemma NewInOrder()
    ensures InOrder(NewClient(), [], false) && InOrder(NewClient(), [], true)
  {
  }

  // ---------- pings and their answers ----------

  // The payloads of the frames with this opcode.
  function PayloadsOf(rs: seq<Received>, opcode: byte): seq<bytes> {
    if rs == [] then []
    else (if rs[0].h.opcode == opcode then [rs[0].payload] else []) + PayloadsOf(rs[1..], opcode)
  }

  // The last pieces of the pings.
  function PingEnds(cs: seq<Chunk>): seq<bytes> {
    if cs == [] then []
    else (if cs[0].Last() && cs[0].h.opcode == 9 then [cs[0].data] else []) + PingEnds(cs[1..])
  }

  // The answers with this opcode.
  function WithOpcode(answers: seq<(byte, bytes)>, opcode: byte): seq<bytes> {
    if answers == [] then []
    else (if answers[0].0 == opcode then [answers[0].1] else []) + WithOpcode(answers[1..], opcode)
  }

  lemma {:induction false} WithOpcodeAppend(a: seq<(byte, bytes)>, b: seq<(byte, bytes)>, opcode: byte)
    ensures WithOpcode(a + b, opcode) == WithOpcode(a, opcode) + WithOpcode(b, opcode)
  {
    if a == [] {
      assert a + b == b;
    } else {
      WithOpcodeAppend(a[1..], b, opcode);
      assert (a + b)[1..] == a[1..] + b;
      Associative(if a[0].0 == opcode then [a[0].1] else [], WithOpcode(a[1..], opcode), WithOpcode(b, opcode));
    }
  }

  lemma {:induction false} PingEndsAppend(cs: seq<Chunk>, c: Chunk)
    ensures PingEnds(cs + [c]) == PingEnds(cs) + if c.Last() && c.h.opcode == 9 then [c.data] else []
  {
    if cs == [] {
      assert [] + [c] == [c] && [c][1..] == [];
    } else {
      PingEndsAppend(cs[1..], c);
      assert (cs + [c])[1..] == cs[1..] + [c];
    }
  }

  // Every ping is answered, with its last piece.
  lemma {:induction false} PongsArePingEnds(closing: bool, cs: seq<Chunk>)
    ensures WithOpcode(Objects.AnswersTo(closing, cs), 10) == PingEnds(cs)
  {
    if cs != [] {
      var front, c := cs[..|cs| - 1], cs[|cs| - 1];
      PongsArePingEnds(closing, front);
      assert cs == front + [c];
      PingEndsAppend(front, c);
      var now := closing != (Objects.Closes(front) % 2 == 1);
      OnePong(now, c);
      hide Objects.AnswerTo;
      WithOpcodeAppend(Objects.AnswersTo(closing, front), Objects.AnswerTo(now, c), 10);
    }
  }

  lemma OnePong(closing: bool, c: Chunk)
    ensures WithOpcode(Objects.AnswerTo(closing, c), 10) == if c.Last() && c.h.opcode == 9 then [c.data] else []
  {
    var a := Objects.AnswerTo(closing, c);
    assert a != [] ==> a[1..] == [];
  }

  // Nothing of the ping came before its last piece.
  predicate AllWhole(cs: seq<Chunk>) {
    forall c <- cs :: c.Last() && c.h.opcode == 9 ==> c.index == 0
  }

  lemma {:induction false} PingEndsAreWholeIff(q: Pending, cs: seq<Chunk>)
    requires Contiguous(q, cs)
    ensures |PingEnds(cs)| == |PayloadsOf(Assemble(q, cs).frames, 9)|
    ensures PingEnds(cs) == PayloadsOf(Assemble(q, cs).frames, 9) <==> AllWhole(cs)
    decreases |cs|
  {
    if cs != [] {
      hide PingEnds, PayloadsOf, AllWhole;
      var c, d := cs[0], Join(q, cs[0]);
      var later := Assemble(d.left, cs[1..]);
      PingEndsAreWholeIff(d.left, cs[1..]);
      FirstChunk(q, cs, later.frames);
      if c.Last() && c.h.opcode == 9 {
        JoinedPayload(q, c);
        SameLists(c.data, PingEnds(cs[1..]), d.frames[0].payload, PayloadsOf(later.frames, 9));
      } else {
        assert [] + PingEnds(cs[1..]) == PingEnds(cs[1..]);
        assert [] + PayloadsOf(later.frames, 9) == PayloadsOf(later.frames, 9);
      }
    } else {
      NoChunks(q);
    }
  }

  lemma NoChunks(q: Pending)
    ensures PingEnds([]) == [] && PayloadsOf(Assemble(q, []).frames, 9) == [] && AllWhole([])
  {
  }

  lemma SameLists<T>(x: T, a: seq<T>, y: T, b: seq<T>)
    ensures [x] + a == [y] + b <==> x == y && a == b
  {
    assert ([x] + a)[1..] == a && ([y] + b)[1..] == b && ([x] + a)[0] == x && ([y] + b)[0] == y;
  }

  lemma FirstChunk(q: Pending, cs: seq<Chunk>, later: seq<Received>)
    requires cs != []
    ensures var c, fs := cs[0], Join(q, cs[0]).frames;
            var ping := c.Last() && c.h.opcode == 9;
            && PingEnds(cs) == (if ping then [c.data] else []) + PingEnds(cs[1..])
            && (AllWhole(cs) <==> (ping ==> c.index == 0) && AllWhole(cs[1..]))
            && (ping ==> fs != [])
            && PayloadsOf(fs + later, 9) == (if ping then [fs[0].payload] else []) + PayloadsOf(later, 9)
  {
    var c, fs := cs[0], Join(q, cs[0]).frames;
    assert cs == [c] + cs[1..];
    if c.Last() {
      assert (fs + later)[1..] == later;
    } else {
      assert fs + later == later;
    }
  }

  lemma JoinedPayload(q: Pending, c: Chunk)
    requires Joins(q, c) && c.Last()
    ensures Join(q, c).frames[0].h == c.h && (Join(q, c).frames[0].payload == c.data <==> c.index == 0)
  {
    var got: bytes := if q.Open? then q.got else [];
    assert |got + c.data| == c.index + |c.data|;
    if c.index == 0 {
      assert got == [] && got + c.data == c.data;
    }
  }

  // Main result: for what arrives from a peer, however it is cut, the pongs that are queued carry the whole
  // payloads of the pings, in order, if and only if each ping's payload came in one piece.
  lemma PingsAnsweredWholeIff(conn: Objects.Connection, cs: seq<Chunk>)
    requires Contiguous(Idle, cs)
    ensures var d := Objects.DispatchAll(conn, cs);
            && conn.control <= d.control
            && (WithOpcode(d.control[|conn.control|..], 10) == PayloadsOf(Assemble(Idle, cs).frames, 9)
                <==> AllWhole(cs))
  {
    hide PayloadsOf, WithOpcode, AllWhole, Assemble, Contiguous, PingEnds;
    Objects.AnswersInOrder(conn, cs);
    PongsArePingEnds(conn.status.Disconnecting?, cs);
    PingEndsAreWholeIff(Idle, cs);
    var answers := Objects.AnswersTo(conn.status.Disconnecting?, cs);
    assert (conn.control + answers)[|conn.control|..] == answers;
  }

  // ---------- what the peer reads ----------

  // The control frames that _onData queues for these answers.
  function ToControls(answers: seq<(byte, bytes)>): (ks: seq<Control>)
    ensures |ks| == |answers|
  {
    seq(|answers|, i requires 0 <= i < |answers| =>
      NewControl(if answers[i].0 == 8 then Close else Pong, answers[i].1))
  }

  lemma {:induction false} PayloadsOfAppend(a: seq<Received>, b: seq<Received>, opcode: byte)
    ensures PayloadsOf(a + b, opcode) == PayloadsOf(a, opcode) + PayloadsOf(b, opcode)
  {
    if a == [] {
      assert a + b == b;
    } else {
      PayloadsOfAppend(a[1..], b, opcode);
      assert (a + b)[1..] == a[1..] + b;
      Associative(if a[0].h.opcode == opcode then [a[0].payload] else [], PayloadsOf(a[1..], opcode),
                  PayloadsOf(b, opcode));
    }
  }

  lemma {:induction false} AllReceivedAppend(fs: seq<Frame>, f: Frame)
    ensures AllReceived(fs + [f]) == AllReceived(fs) + [AsReceived(f)]
  {
    if fs == [] {
      assert [] + [f] == [f] && [f][1..] == [];
    } else {
      AllReceivedAppend(fs[1..], f);
      assert (fs + [f])[1..] == fs[1..] + [f];
    }
  }

  lemma OneReceived(f: Frame, opcode: byte)
    ensures PayloadsOf([AsReceived(f)], opcode) == if f.opcode == opcode then [f.payload] else []
  {
    assert [AsReceived(f)][1..] == [];
  }

  lemma OneMorePayload(fs: seq<Frame>, f: Frame, opcode: byte)
    ensures PayloadsOf(AllReceived(fs + [f]), opcode) ==
              PayloadsOf(AllReceived(fs), opcode) + if f.opcode == opcode then [f.payload] else []
  {
    hide PayloadsOf, AllReceived;
    AllReceivedAppend(fs, f);
    PayloadsOfAppend(AllReceived(fs), [AsReceived(f)], opcode);
    OneReceived(f, opcode);
  }

  // Data frames do not matter.
  lemma {:induction false} ControlsMatter(fs: seq<Frame>)
    ensures PayloadsOf(AllReceived(fs), 10) == PayloadsOf(AllReceived(ControlFrames(fs)), 10)
  {
    hide PayloadsOf, AllReceived, AsReceived;
    if fs == [] {
      assert ControlFrames(fs) == fs;
    } else {
      var front, f := fs[..|fs| - 1], fs[|fs| - 1];
      ControlsMatter(front);
      assert fs == front + [f];
      OneMorePayload(front, f, 10);
      if f.opcode >= 8 {
        OneMorePayload(ControlFrames(front), f, 10);
      } else {
        assert ControlFrames(fs) == ControlFrames(front) + [] == ControlFrames(front);
        assert PayloadsOf(AllReceived(front), 10) + [] == PayloadsOf(AllReceived(front), 10);
      }
    }
  }

  // The close frames or pongs among the frames of these answers.
  lemma {:induction false} AnswerFrames(answers: seq<(byte, bytes)>, opcode: byte)
    requires opcode == 8 || opcode == 10
    requires forall i :: 0 <= i < |answers| ==> (answers[i].0 == 8 || answers[i].0 == 10) && |answers[i].1| <= 125
    ensures PayloadsOf(AllReceived(ToFrames(ToControls(answers))), opcode) == WithOpcode(answers, opcode)
  {
    if answers != [] {
      var fs, rest := ToFrames(ToControls(answers)), ToFrames(ToControls(answers[1..]));
      AnswerFrames(answers[1..], opcode);
      assert fs[1..] == rest;
      assert fs[0].payload == answers[0].1 && fs[0].opcode == answers[0].0;
    }
  }

  lemma {:induction false} AnswerOpcodes(closing: bool, cs: seq<Chunk>, i: nat)
    requires i < |Objects.AnswersTo(closing, cs)|
    ensures Objects.AnswersTo(closing, cs)[i].0 in {8, 10}
  {
    if cs != [] && i < |Objects.AnswersTo(closing, cs[..|cs| - 1])| {
      AnswerOpcodes(closing, cs[..|cs| - 1], i);
    }
  }

  // Main result for control frames, end to end.  A client has answered what arrived, in a harmless run that
  // has sent all its answers, none longer than 125 bytes.  Whatever segments the peer gets, it reads pongs with
  // the payloads of its pings, in order, if and only if each ping's payload had come in one piece.
  lemma PingsComeBackIff(conn: Objects.Connection, cs: seq<Chunk>, answers: seq<(byte, bytes)>,
                         xs: seq<Happening>, p: Parser, segs: seq<bytes>)
    requires Contiguous(Idle, cs) && Objects.DispatchAll(conn, cs).control == conn.control + answers
    requires forall i :: 0 <= i < |answers| ==> |answers[i].1| <= 125
    requires PossibleRun(NewClient(), xs) && AllHarmless(NewClient(), xs) && Asked(xs) == ToControls(answers)
    requires RunClient(NewClient(), xs).control == [] && Concat(segs) == RunClient(NewClient(), xs).wire
    requires !p.pstate && WholeSegments(p, segs)
    ensures var back := ParseSegments(p, segs).chunks;
            && Contiguous(Idle, back)
            && (PayloadsOf(Assemble(Idle, back).frames, 10) == PayloadsOf(Assemble(Idle, cs).frames, 9)
                <==> AllWhole(cs))
  {
    hide PossibleRun, RunClient, AllHarmless, WholeSegments, ParseSegments, PayloadsOf, WithOpcode, AllWhole, Assemble,
      Asked, ToControls, ToFrames, PingEnds, AllReceived, Contiguous, ControlFrames, Objects.DispatchAll;
    ControlsArrive(xs, p, segs);
    AnswersAre(conn, cs, answers);
    AnswerFrames(answers, 10);
    PongsArePingEnds(conn.status.Disconnecting?, cs);
    PingEndsAreWholeIff(Idle, cs);
  }

  lemma AnswersAre(conn: Objects.Connection, cs: seq<Chunk>, answers: seq<(byte, bytes)>)
    requires Objects.DispatchAll(conn, cs).control == conn.control + answers
    ensures answers == Objects.AnswersTo(conn.status.Disconnecting?, cs)
    ensures forall i :: 0 <= i < |answers| ==> answers[i].0 == 8 || answers[i].0 == 10
  {
    hide Objects.DispatchAll, Objects.AnswersTo;
    Objects.AnswersInOrder(conn, cs);
    assert answers == (conn.control + answers)[|conn.control|..] == Objects.AnswersTo(conn.status.Disconnecting?, cs);
    forall i | 0 <= i < |answers|
      ensures answers[i].0 == 8 || answers[i].0 == 10
    {
      AnswerOpcodes(conn.status.Disconnecting?, cs, i);
    }
  }

  // The pongs that a peer reads of a harmless run are those that were queued.
  lemma ControlsArrive(xs: seq<Happening>, p: Parser, segs: seq<bytes>)
    requires PossibleRun(NewClient(), xs) && AllHarmless(NewClient(), xs) && RunClient(NewClient(), xs).control == []
    requires Concat(segs) == RunClient(NewClient(), xs).wire && !p.pstate && WholeSegments(p, segs)
    ensures var back := ParseSegments(p, segs).chunks;
            && Contiguous(Idle, back)
            && PayloadsOf(Assemble(Idle, back).frames, 10) == PayloadsOf(AllReceived(ToFrames(Asked(xs))), 10)
  {
    hide PossibleRun, RunClient, AllHarmless, WholeSegments, ParseSegments, PayloadsOf, Assemble, ControlFrames,
      Stretched, Asked, ToFrames, DataFrames, EncodeAll, AllReceived, Contiguous, Flatten, Waiting, Complete, FrontInv;
    var c := RunClient(NewClient(), xs);
    NewClientInv();
    RunKeeps(NewClient(), xs);
    EncodedFramesArrive(c.frames, p, segs);
    ControlsGoOutInOrder(xs);
    assert Asked(xs)[..|Asked(xs)|] == Asked(xs);
    ControlsMatter(c.frames);
  }
}
