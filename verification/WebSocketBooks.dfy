/**
 * When AsyncWebSocketClient goes on sending.  _onAck takes the length of a control frame off the bytes that
 * are acknowledged and credits the rest to the front message, and _runQueue sends the front control frame
 * again as long as it is not acknowledged.  Says exactly which runs keep the message's books in order, and
 * that the others can stop the client for ever.
 */
module WebSocketBooks {
  import opened Basics
  import opened WebSocketFrame
  import opened WebSocketSender
  import opened WebSocketReceiver
  import opened WebSocketQueue

  // ---------- the books ----------

  // What the front message has outstanding by its own count, which may be wrong.
  function Outstanding(c: Client): int {
    if c.queue == [] then 0 else c.queue[0].ack - c.queue[0].acked
  }

  function ControlOutstanding(c: Client): nat {
    if InFlight(c) then c.control[0].Len() else 0
  }

  // The bytes in flight that nobody waits for; negative if more is waited for than is in flight.
  function Debt(c: Client): int {
    |c.wire| - c.acked - Outstanding(c) - ControlOutstanding(c)
  }

  // The bytes in flight are those of the front message and of one control frame, and no message has been
  // credited more than it has sent.
  predicate Booked(c: Client) {
    c.phase.Gone? || (Debt(c) == 0 && (c.queue != [] ==> c.queue[0].acked <= c.queue[0].ack))
  }

  // ---------- what spoils them ----------

  // The control frame in flight is sent again.
  predicate Resends(c: Client, space: nat) {
    InFlight(c) && SendsControl(Trim(c), space)
  }

  // No resending; and an acknowledgement that ends inside a control frame comes while the front message has
  // at least the missing bytes on its account.
  predicate Harmless(c: Client, x: Happening)
    requires Possible(c, x)
  {
    match x
    case QueueText(t, offer) => c.phase.Connected? ==> !Resends(Enqueue(c, t), offer.space)
    case QueueControl(purpose, data, offer) => !Resends(EnqueueControl(c, purpose, data), offer.space)
    case AckBytes(len, offer) => InFlight(c) && !EndsHandshake(c) ==> c.control[0].Len() <= len + Account(c)
    case PollQueue(offer) => !Resends(c, offer.space)
    case Closing => true
  }

  function Account(c: Client): nat {
    if c.queue == [] then 0 else c.queue[0].acked
  }

  // ---------- the shape of a client ----------

  predicate Untouched(m: Message) {
    m.opcode < 8 && m.sent == 0 && m.ack == 0 && m.acked == 0 && m.status.Sending?
  }

  // Only the fronts have been touched.
  predicate Tails(c: Client) {
    && (forall i :: 0 < i < |c.queue| ==> Untouched(c.queue[i]))
    && (forall i :: 0 < i < |c.control| ==> !c.control[i].finished)
    && (c.queue != [] ==> Sound(c.queue[0]))
  }

  predicate Sound(m: Message) {
    m.opcode < 8 && m.sent <= |m.data| && !m.status.Error?
  }

  // The front message in a client whose books are in order.
  predicate FrontBooked(m: Message) {
    && m.acked <= m.ack && (m.status.Sent? ==> m.acked == m.ack) && (m.data == [] ==> m.ack == 0)
    && (m.status.Sending? && m.data != [] && m.sent == |m.data| ==> m.acked < m.ack)
  }

  predicate Ready(c: Client) {
    !c.phase.Gone? && Debt(c) == 0 && Tails(c) && (c.queue != [] ==> FrontBooked(c.queue[0]))
  }

  // Between happenings, a finished message is still there only if it is empty.
  predicate Good(c: Client) {
    c.phase.Gone? || (Ready(c) && (c.queue != [] && c.queue[0].status.Sent? ==> c.queue[0].data == []))
  }

  lemma GoodIsBooked(c: Client)
    requires Good(c)
    ensures Booked(c)
  {
  }

  // ---------- _runQueue ----------

  lemma TrimIsOne(c: Client)
    requires Tails(c)
    ensures Trim(c) == if c.queue != [] && c.queue[0].Finished() then c.(queue := c.queue[1..]) else c
    ensures Tails(Trim(c)) && (Trim(c).queue != [] ==> !Trim(c).queue[0].Finished())
  {
    if c.queue != [] && c.queue[0].Finished() {
      var b := c.(queue := c.queue[1..]);
      assert forall i :: 0 <= i < |b.queue| ==> b.queue[i] == c.queue[i + 1];
    }
  }

  // One send of a message: its books grow by what goes on the wire.
  lemma OfferBooks(m: Message, offer: Event)
    requires offer.Offer? && Allowed(m, offer) && Sound(m)
    ensures var r := Step(m, offer);
            && r.m.ack == m.ack + |r.out| && r.m.acked == m.acked && Sound(r.m) && |r.m.data| == |m.data|
            && (if Attempts(m) then r.m.status == m.status && r.out != []
                else r.m == m.(status := r.m.status) && r.out == [])
            && (r.m.status.Sent? ==> m.status.Sent? || m.sent == |m.data|)
  {
    hide Step, EncodeFrame;
    if Attempts(m) {
      OfferEmitsFrame(m, offer);
    } else {
      QuietOffer(m, offer);
    }
  }

  // Whatever the books say, only resending a control frame changes the debt.
  lemma RunDebt(c: Client, offer: Event)
    requires Tails(c) && CanRun(c, offer)
    ensures Debt(RunQueue(c, offer)) ==
              Debt(Trim(c)) + if Resends(c, offer.space) then c.control[0].Len() else 0
    ensures RunQueue(c, offer).phase == c.phase
  {
    hide Step, Emitted, Allowed, EncodeFrame;
    var t := Trim(c);
    TrimIsOne(c);
    if SendsControl(t, offer.space) {
      ControlLength(t.control[0]);
    } else if Offers(t, offer.space) {
      OfferBooks(t.queue[0], offer);
    }
  }

  lemma ControlLength(k: Control)
    ensures |EncodeFrame(k.ToFrame())| == k.Len()
  {
  }

  lemma TrimReady(c: Client)
    requires Ready(c)
    ensures Ready(Trim(c)) && Good(Trim(c)) && Trim(c).control == c.control && Debt(Trim(c)) == 0
  {
    TrimIsOne(c);
  }

  lemma RunReady(c: Client, offer: Event)
    requires Ready(c) && CanRun(c, offer) && !Resends(c, offer.space)
    ensures Good(RunQueue(c, offer))
  {
    hide Step, Emitted, Allowed, Trim, Debt, EncodeFrame;
    TrimReady(c);
    RunDebt(c, offer);
    TrimIsOne(c);
    var t := Trim(c);
    if !SendsControl(t, offer.space) && Offers(t, offer.space) {
      OfferBooks(t.queue[0], offer);
      SendFrontTails(t, offer);
    }
  }

  lemma SendFrontTails(c: Client, offer: Event)
    requires Tails(c) && c.queue != [] && offer.Offer? && Allowed(c.queue[0], offer)
    ensures var b := SendFront(c, offer);
            Tails(b) && b.queue == c.queue[0 := Step(c.queue[0], offer).m] && b.phase == c.phase
  {
    OfferBooks(c.queue[0], offer);
  }

  // ---------- _onAck ----------

  // A credit that ends a message's books in order.
  lemma CreditBooks(m: Message, len: int)
    requires Sound(m) && FrontBooked(m) && -128 < len <= m.ack - m.acked && m.acked + len >= 0
    requires m.status.Sent? ==> m.data == []
    ensures var n := Credited(m, len);
            Sound(n) && FrontBooked(n) && n.ack == m.ack && n.acked == m.acked + len
  {
  }

  lemma AckReady(c: Client, len: nat)
    requires Good(c) && !c.phase.Gone? && 0 < len && c.acked + len <= |c.wire| && !EndsHandshake(c)
    requires InFlight(c) ==> c.control[0].Len() <= len + Account(c)
    ensures Ready(TakeAck(c, len)) && !InFlight(TakeAck(c, len))
  {
    TakeAckParts(c, len);
    var b, n := TakeAck(c, len), CreditOf(c, len);
    hide TakeAck, Credited;
    if c.queue != [] {
      CreditBooks(c.queue[0], n);
    }
  }

  // An acknowledgement that ends inside a control frame for which nobody can stand in.
  lemma ShortAck(c: Client, len: nat)
    requires Good(c) && !c.phase.Gone? && 0 < len && c.acked + len <= |c.wire| && !EndsHandshake(c)
    requires InFlight(c) && c.control[0].Len() > len + Account(c)
    ensures var b := TakeAck(c, len); Tails(b) && !InFlight(b) && b.phase == c.phase && Debt(Trim(b)) != 0
  {
    TakeAckParts(c, len);
    var b := TakeAck(c, len);
    hide TakeAck;
    assert Tails(b);
    TrimIsOne(b);
  }

  // ---------- every happening ----------

  lemma EnqueueReady(c: Client, t: Text)
    requires Good(c) && !c.phase.Gone?
    ensures Good(Enqueue(c, t)) && Enqueue(c, t).phase == c.phase
  {
  }

  lemma EnqueueControlReady(c: Client, purpose: Purpose, data: bytes)
    requires Good(c) && !c.phase.Gone?
    ensures Good(EnqueueControl(c, purpose, data)) && EnqueueControl(c, purpose, data).phase == c.phase
  {
  }

  // _runQueue keeps the books in order if and only if it does not send a control frame again.
  lemma RunBooksIff(c: Client, offer: Event)
    requires Good(c) && !c.phase.Gone? && CanRun(c, offer)
    ensures if Resends(c, offer.space) then !Booked(RunQueue(c, offer)) else Good(RunQueue(c, offer))
  {
    hide RunQueue, Trim, Debt;
    if Resends(c, offer.space) {
      RunDebt(c, offer);
      TrimReady(c);
    } else {
      RunReady(c, offer);
    }
  }

  // No room, nothing sent.
  lemma NoRoom(c: Client)
    ensures !Resends(c, 0)
  {
  }

  lemma AckBooksIff(c: Client, len: nat, offer: Event)
    requires Good(c) && Possible(c, AckBytes(len, offer))
    ensures var d := Next(c, AckBytes(len, offer));
            if Harmless(c, AckBytes(len, offer)) then Good(d) else !Booked(d)
  {
    hide RunQueue, TakeAck, Trim, Debt, Ready, Resends;
    if EndsHandshake(c) {
      TakeAckParts(c, len);
    } else if Harmless(c, AckBytes(len, offer)) {
      AckReady(c, len);
      NothingInFlight(TakeAck(c, len), offer.space);
      RunReady(TakeAck(c, len), offer);
    } else {
      ShortAck(c, len);
      NothingInFlight(TakeAck(c, len), offer.space);
      RunDebt(TakeAck(c, len), offer);
    }
  }

  lemma NothingInFlight(c: Client, space: nat)
    requires !InFlight(c)
    ensures !Resends(c, space)
  {
  }

  // One happening keeps the books in order if and only if it is harmless.
  lemma NextBooksIff(c: Client, x: Happening)
    requires Good(c) && Possible(c, x)
    ensures if Harmless(c, x) then Good(Next(c, x)) else !Booked(Next(c, x))
  {
    hide RunQueue, Enqueue, EnqueueControl, TakeAck, Trim, Debt, Ready, Resends;
    match x
    case QueueText(t, offer) =>
      if c.phase.Connected? {
        EnqueueReady(c, t);
        RunBooksIff(Enqueue(c, t), offer);
        NoRoom(Enqueue(c, t));
      }
    case QueueControl(purpose, data, offer) =>
      EnqueueControlReady(c, purpose, data);
      RunBooksIff(EnqueueControl(c, purpose, data), offer);
      NoRoom(EnqueueControl(c, purpose, data));
    case AckBytes(len, offer) => AckBooksIff(c, len, offer);
    case PollQueue(offer) =>
      RunBooksIff(c, offer);
      NoRoom(c);
      if c.control == [] {
        NothingInFlight(c, offer.space);
      }
    case Closing => ClosingKeepsBooks(c);
  }

  lemma ClosingKeepsBooks(c: Client)
    requires Good(c) && !c.phase.Gone?
    ensures Good(c.(phase := Disconnecting))
  {
  }

  // ---------- every run ----------

  predicate AlwaysBooked(c: Client, xs: seq<Happening>)
    requires PossibleRun(c, xs)
    decreases |xs|
  {
    Booked(c) && (xs != [] ==> AlwaysBooked(Next(c, xs[0]), xs[1..]))
  }

  predicate AllHarmless(c: Client, xs: seq<Happening>)
    requires PossibleRun(c, xs)
    decreases |xs|
  {
    xs != [] ==> Harmless(c, xs[0]) && AllHarmless(Next(c, xs[0]), xs[1..])
  }

  lemma {:induction false} BooksFollow(c: Client, xs: seq<Happening>)
    requires Good(c) && PossibleRun(c, xs)
    ensures AlwaysBooked(c, xs) <==> AllHarmless(c, xs)
    decreases |xs|
  {
    hide Possible, Next, Harmless, Good, Booked;
    GoodIsBooked(c);
    if xs != [] {
      NextBooksIff(c, xs[0]);
      if Harmless(c, xs[0]) {
        BooksFollow(Next(c, xs[0]), xs[1..]);
      } else {
        assert !AlwaysBooked(Next(c, xs[0]), xs[1..]);
      }
    }
  }

  // Main result: over every run, the bytes in flight are always accounted for, and no message is ever
  // credited more than it sent, if and only if no control frame is sent again and no acknowledgement ends
  // inside one without a message that can stand in for the rest.
  lemma BooksBalanceIff(xs: seq<Happening>)
    requires PossibleRun(NewClient(), xs)
    ensures AlwaysBooked(NewClient(), xs) <==> AllHarmless(NewClient(), xs)
  {
    BooksFollow(NewClient(), xs);
  }

  // With the books in order and all bytes acknowledged, the client can go on: no control frame is waited
  // for, and the front message is between frames.
  lemma BookedGoesOn(c: Client)
    requires Booked(c) && !c.phase.Gone? && c.acked == |c.wire|
    ensures !InFlight(c) && (c.queue != [] ==> c.queue[0].BetweenFrames())
  {
  }

  lemma {:induction false} BookedAtTheEnd(c: Client, xs: seq<Happening>)
    requires PossibleRun(c, xs) && AlwaysBooked(c, xs)
    ensures Booked(RunClient(c, xs))
    decreases |xs|
  {
    hide Possible, Next, Booked;
    if xs != [] {
      BookedAtTheEnd(Next(c, xs[0]), xs[1..]);
    }
  }

  // After a harmless run nothing is left waiting once all bytes are acknowledged.
  lemma HarmlessRunGoesOn(xs: seq<Happening>)
    requires PossibleRun(NewClient(), xs) && AllHarmless(NewClient(), xs)
    ensures var c := RunClient(NewClient(), xs);
            !c.phase.Gone? && c.acked == |c.wire| ==>
              !InFlight(c) && (c.queue != [] ==> c.queue[0].BetweenFrames())
  {
    hide PossibleRun, RunClient, AllHarmless, AlwaysBooked, Booked;
    BooksBalanceIff(xs);
    BookedAtTheEnd(NewClient(), xs);
    var c := RunClient(NewClient(), xs);
    if !c.phase.Gone? && c.acked == |c.wire| {
      BookedGoesOn(c);
    }
  }

  // ---------- the close handshake ----------

  // The connection ends only at the acknowledgement of a close frame, after one from the peer.
  lemma {:induction false} GoneMeansClosed(c: Client, xs: seq<Happening>)
    requires PossibleRun(c, xs) && !c.phase.Gone? && RunClient(c, xs).phase.Gone?
    requires forall k <- c.control :: !k.purpose.Close?
    ensures c.phase.Connected? ==> Closing in xs
    ensures exists x <- xs :: x.QueueControl? && x.purpose.Close?
    decreases |xs|
  {
    hide Next, Possible, EndsHandshake;
    if xs != [] {
      HandshakeStep(c, xs[0]);
      assert forall x <- xs[1..] :: x in xs;
      var d := Next(c, xs[0]);
      if !d.phase.Gone? && forall k <- d.control :: !k.purpose.Close? {
        GoneMeansClosed(d, xs[1..]);
      } else if c.phase.Connected? && xs[0] != Closing {
        ClosingFirst(d, xs[1..]);
      }
    }
  }

  lemma {:induction false} ClosingFirst(c: Client, xs: seq<Happening>)
    requires PossibleRun(c, xs) && c.phase.Connected? && RunClient(c, xs).phase.Gone?
    ensures Closing in xs
    decreases |xs|
  {
    hide Next, Possible;
    if xs != [] && xs[0] != Closing {
      NextFrame(c, xs[0]);
      ClosingFirst(Next(c, xs[0]), xs[1..]);
      assert forall x <- xs[1..] :: x in xs;
    }
  }

  lemma RunControl(c: Client, offer: Event)
    requires CanRun(c, offer)
    ensures forall k <- RunQueue(c, offer).control ::
              k in c.control || exists j <- c.control :: k == j.(finished := true)
    ensures RunQueue(c, offer).phase == c.phase
  {
    hide Step, Emitted, Allowed;
    TrimIsPart(c);
    var t := Trim(c);
    if SendsControl(t, offer.space) {
      assert t.control[0] in c.control;
    }
  }

  lemma HandshakeStep(c: Client, x: Happening)
    requires Possible(c, x) && forall k <- c.control :: !k.purpose.Close?
    ensures var d := Next(c, x);
            && !d.phase.Gone? && (c.phase.Connected? && x != Closing ==> d.phase.Connected?)
            && (!(x.QueueControl? && x.purpose.Close?) ==> forall k <- d.control :: !k.purpose.Close?)
  {
    hide RunQueue, Offers, Credited;
    match x
    case QueueText(t, offer) =>
      if c.phase.Connected? && offer.space > 0 {
        RunControl(Enqueue(c, t), offer);
      }
    case QueueControl(purpose, data, offer) =>
      if offer.space > 0 {
        RunControl(EnqueueControl(c, purpose, data), offer);
      }
    case AckBytes(len, offer) =>
      TakeAckParts(c, len);
      RunControl(TakeAck(c, len), offer);
    case PollQueue(offer) =>
      if offer.space > 0 && (c.control != [] || c.queue != []) {
        RunControl(c, offer);
      }
    case Closing =>
  }

  // And then it does end: the close frame of a peer, the answer, and its acknowledgement.
  lemma HandshakeEnds(data: bytes, offer: Event)
    requires offer.Offer? && Window(offer.space) > NewControl(Close, data).Len() - 1
    ensures var len := NewControl(Close, data).Len();
            var xs := [Closing, QueueControl(Close, data, offer), AckBytes(len, offer)];
            PossibleRun(NewClient(), xs) && RunClient(NewClient(), xs).phase.Gone?
  {
    hide NewControl, EncodeFrame;
    var k := NewControl(Close, data);
    ControlLength(k);
    var x, y, z := Closing, QueueControl(Close, data, offer), AckBytes(k.Len(), offer);
    var c := Next(NewClient(), x);
    var b := EnqueueControl(c, Close, data);
    assert b.control == [k];
    var d := Next(c, y);
    assert d == SendControl(b) && d.control == [k.(finished := true)];
    FinishedPurpose(data);
    assert Possible(d, z) && Next(d, z).phase.Gone?;
    assert [x, y, z][1..] == [y, z] && [y, z][1..] == [z] && [z][1..] == [];
    assert RunClient(d, [z]) == Next(d, z);
    assert RunClient(c, [y, z]) == RunClient(d, [z]);
  }

  lemma FinishedPurpose(data: bytes)
    ensures NewControl(Close, data).purpose.Close? && !NewControl(Close, data).finished
  {
  }

  // ---------- what is queued gets out ----------

  // What is still to be done: for each message its bytes, its end and its leaving; for each control frame its
  // sending and its leaving.
  function MessageWork(queue: seq<Message>): nat {
    if queue == [] then 0
    else
      (if queue[0].sent <= |queue[0].data| then |queue[0].data| - queue[0].sent else 0)
      + (if queue[0].Finished() then 1 else 2) + MessageWork(queue[1..])
  }

  function ControlWork(control: seq<Control>): nat {
    if control == [] then 0 else (if control[0].finished then 1 else 2) + ControlWork(control[1..])
  }

  function Work(c: Client): nat {
    MessageWork(c.queue) + ControlWork(c.control)
  }

  // All bytes in flight are acknowledged, or the client is polled if there are none.
  function Round(c: Client, offer: Event): Happening {
    if c.acked < |c.wire| then AckBytes(|c.wire| - c.acked, offer) else PollQueue(offer)
  }

  // Each with room for any control frame.
  predicate AllowedRounds(c: Client, offers: seq<Event>)
    decreases |offers|
  {
    offers == [] ||
    (&& Possible(c, Round(c, offers[0])) && offers[0].Offer? && Window(offers[0].space) > 126
     && AllowedRounds(Next(c, Round(c, offers[0])), offers[1..]))
  }

  function Rounds(c: Client, offers: seq<Event>): Client
    requires AllowedRounds(c, offers)
    decreases |offers|
  {
    if offers == [] then c else Rounds(Next(c, Round(c, offers[0])), offers[1..])
  }

  // With nothing in flight, _runQueue gets something done.
  lemma RunWorks(c: Client, offer: Event)
    requires Ready(c) && !InFlight(c) && c.acked == |c.wire| && CanRun(c, offer) && Window(offer.space) > 126
    ensures Work(RunQueue(c, offer)) < Work(c) || (Work(c) == 0 && RunQueue(c, offer) == c)
  {
    hide Step, Emitted, Allowed, EncodeFrame, Trim;
    TrimReady(c);
    TrimIsOne(c);
    var t := Trim(c);
    assert Work(t) <= Work(c) && (t != c ==> Work(t) < Work(c));
    assert t.queue != [] ==> t.queue[0].acked == t.queue[0].ack;
    if SendsControl(t, offer.space) {
      assert SendControl(t).control[1..] == t.control[1..];
    } else if Offers(t, offer.space) {
      OfferWorks(t.queue[0], offer);
      assert SendFront(t, offer).queue[1..] == t.queue[1..];
    } else {
      assert t.queue == [] && t.control == [];
    }
  }

  lemma OfferWorks(m: Message, offer: Event)
    requires offer.Offer? && Allowed(m, offer) && Sound(m) && FrontBooked(m) && m.acked == m.ack && !m.Finished()
    ensures var u := Step(m, offer).m;
            u.sent <= |u.data| && |u.data| - u.sent + (if u.Finished() then 1 else 2) < |m.data| - m.sent + 2
  {
    hide Step, EncodeFrame;
    if Attempts(m) {
      OfferEmitsFrame(m, offer);
    } else {
      EmptyIsDone(m, offer);
    }
  }

  lemma EmptyIsDone(m: Message, offer: Event)
    requires offer.Offer? && Allowed(m, offer) && !Attempts(m) && m.acked == m.ack && m.sent == |m.data|
    requires m.status.Sending?
    ensures var u := Step(m, offer).m; u.status.Sent? && u.data == m.data && u.sent == m.sent
  {
  }

  // Acknowledging everything leaves no more to do.
  lemma AckWorks(c: Client)
    requires Good(c) && !c.phase.Gone? && c.acked < |c.wire| && !EndsHandshake(c)
    ensures var b := TakeAck(c, |c.wire| - c.acked);
            && Ready(b) && !InFlight(b) && b.acked == |b.wire| && Work(b) <= Work(c) && Work(c) > 0
            && b.phase == c.phase
  {
    var len := |c.wire| - c.acked;
    AckReady(c, len);
    TakeAckParts(c, len);
    hide TakeAck;
    var b := TakeAck(c, len);
    if b.queue != [] && CreditOf(c, len) != 0 {
      assert b.queue[1..] == c.queue[1..];
      var m, n := c.queue[0], b.queue[0];
      assert n.data == m.data && n.sent == m.sent && (m.Finished() ==> n.Finished());
    }
  }

  lemma RoundWorks(c: Client, offer: Event)
    requires Good(c) && c.phase.Connected? && Possible(c, Round(c, offer)) && offer.Offer? && Window(offer.space) > 126
    ensures var d := Next(c, Round(c, offer));
            Good(d) && d.phase.Connected? && (Work(d) < Work(c) || (Work(c) == 0 && Work(d) == 0))
  {
    hide RunQueue, TakeAck, Trim, Debt, Ready, Resends, Work;
    NextFrame(c, Round(c, offer));
    if c.acked < |c.wire| {
      AckWorks(c);
      var b := TakeAck(c, |c.wire| - c.acked);
      NothingInFlight(b, offer.space);
      RunReady(b, offer);
      RunWorks(b, offer);
    } else {
      GoodIsBooked(c);
      GoodIsReady(c);
      BookedGoesOn(c);
      NothingInFlight(c, offer.space);
      RunBooksIff(c, offer);
      RunWorks(c, offer);
      NoWork(c);
    }
  }

  lemma GoodIsReady(c: Client)
    requires Good(c) && !c.phase.Gone?
    ensures Ready(c) && c.acked <= |c.wire|
  {
  }

  lemma NoWork(c: Client)
    ensures Work(c) == 0 <==> c.queue == [] && c.control == []
  {
  }

  lemma {:induction false} RoundsWork(c: Client, offers: seq<Event>)
    requires Good(c) && c.phase.Connected? && AllowedRounds(c, offers) && |offers| >= Work(c)
    ensures var d := Rounds(c, offers);
            Good(d) && d.phase.Connected? && d.queue == [] && d.control == [] && d.accepted == c.accepted
    decreases |offers|
  {
    hide Possible, Next, Good, Work;
    NoWork(c);
    if offers != [] {
      RoundWorks(c, offers[0]);
      NextFrame(c, Round(c, offers[0]));
      assert c.accepted + [] == c.accepted;
      RoundsWork(Next(c, Round(c, offers[0])), offers[1..]);
    }
  }

  // Main result: after a harmless run on a client that stays connected, acknowledging what is in flight often
  // enough, each time with some room, empties both queues, and all accepted texts have been sent.
  lemma HarmlessRunDelivers(xs: seq<Happening>, offers: seq<Event>)
    requires PossibleRun(NewClient(), xs) && AllHarmless(NewClient(), xs)
    requires var c := RunClient(NewClient(), xs);
             c.phase.Connected? && AllowedRounds(c, offers) && |offers| >= Work(c)
    ensures var c := RunClient(NewClient(), xs);
            var d := Rounds(c, offers);
            && d.queue == [] && d.control == [] && d.acked == |d.wire|
            && Payloads(DataFrames(d.frames)) == AllText(c.accepted)
  {
    hide PossibleRun, RunClient, AllHarmless, AllowedRounds, Rounds, Good, Work, ClientInv, AllText, Payloads,
      DataFrames;
    NewIsGood();
    GoodAtTheEnd(NewClient(), xs);
    var c := RunClient(NewClient(), xs);
    RoundsWork(c, offers);
    NewClientInv();
    RunKeeps(NewClient(), xs);
    RoundsKeep(c, offers);
    AllIsOut(Rounds(c, offers));
  }

  lemma NewIsGood()
    ensures Good(NewClient())
  {
  }

  lemma {:induction false} GoodAtTheEnd(c: Client, xs: seq<Happening>)
    requires Good(c) && PossibleRun(c, xs) && AllHarmless(c, xs)
    ensures Good(RunClient(c, xs))
    decreases |xs|
  {
    hide Possible, Next, Harmless, Good;
    if xs != [] {
      NextBooksIff(c, xs[0]);
      GoodAtTheEnd(Next(c, xs[0]), xs[1..]);
    }
  }

  lemma {:induction false} RoundsKeep(c: Client, offers: seq<Event>)
    requires ClientInv(c) && AllowedRounds(c, offers)
    ensures ClientInv(Rounds(c, offers))
    decreases |offers|
  {
    hide ClientInv, Possible, Next, Round;
    if offers != [] {
      NextKeeps(c, Round(c, offers[0]));
      RoundsKeep(Next(c, Round(c, offers[0])), offers[1..]);
    }
  }

  lemma AllIsOut(c: Client)
    requires ClientInv(c) && Good(c) && c.phase.Connected? && c.queue == [] && c.control == []
    ensures c.acked == |c.wire| && Payloads(DataFrames(c.frames)) == AllText(c.accepted)
  {
    WirePayload(c);
    hide Payloads, AllText, Flatten, DataFrames, EncodeAll;
    assert c.accepted[..|c.accepted|] == c.accepted;
    assert AllText(c.accepted) + [] == AllText(c.accepted);
  }

  // ---------- clients that have stopped for ever ----------

  // The front message is unfinished and has been credited more than it sent, and nothing is in flight.
  predicate Stuck(c: Client) {
    && !c.phase.Gone? && c.acked == |c.wire|
    && c.queue != [] && !c.queue[0].Finished() && c.queue[0].acked > c.queue[0].ack
  }

  lemma StuckRun(c: Client, offer: Event)
    requires Stuck(c) && CanRun(c, offer)
    ensures RunQueue(c, offer) == c
  {
  }

  // Nothing that can happen changes that: the client sends no byte any more.
  lemma {:induction false} StuckForever(c: Client, xs: seq<Happening>)
    requires Stuck(c) && PossibleRun(c, xs)
    ensures var d := RunClient(c, xs);
            Stuck(d) && d.queue[0] == c.queue[0] && d.wire == c.wire && d.acked == c.acked
    decreases |xs|
  {
    hide RunQueue;
    if xs != [] {
      match xs[0] {
        case QueueText(t, offer) =>
          if c.phase.Connected? {
            StuckRun(Enqueue(c, t), offer);
          }
        case QueueControl(purpose, data, offer) => StuckRun(EnqueueControl(c, purpose, data), offer);
        case AckBytes(len, offer) =>
        case PollQueue(offer) => StuckRun(c, offer);
        case Closing =>
      }
      StuckForever(Next(c, xs[0]), xs[1..]);
    }
  }

  // No room to send anything.
  const TIGHT := Offer(0, NO_KEY, [])

  // A text without room to send it, and then the acknowledgement of bytes that no message sent.
  lemma LateAckSticks(c: Client, t: Text)
    requires c.phase.Connected? && c.queue == [] && c.accepted == [] && t.data != []
    requires Debt(c) > 0 && (InFlight(c) || c.control == [])
    ensures var xs := [QueueText(t, TIGHT), AckBytes(|c.wire| - c.acked, TIGHT)];
            PossibleRun(c, xs) && Stuck(RunClient(c, xs))
  {
    hide Possible, Next, Stuck;
    var x, y := QueueText(t, TIGHT), AckBytes(|c.wire| - c.acked, TIGHT);
    TextWaits(c, t);
    LateAck(Next(c, x), |c.wire| - c.acked);
    assert [x, y][1..] == [y] && [y][1..] == [];
    assert RunClient(Next(c, x), [y]) == Next(Next(c, x), y);
  }

  lemma TextWaits(c: Client, t: Text)
    requires c.phase.Connected? && c.queue == []
    ensures Possible(c, QueueText(t, TIGHT)) && Next(c, QueueText(t, TIGHT)) == Enqueue(c, t)
    ensures Enqueue(c, t) == c.(queue := [MessageOf(t)], accepted := c.accepted + [t], groups := c.groups + [[]])
  {
    assert c.queue + [MessageOf(t)] == [MessageOf(t)];
  }

  lemma LateAck(c: Client, len: nat)
    requires c.phase.Connected? && len == |c.wire| - c.acked > 0 && |c.queue| == 1
    requires var m := c.queue[0]; m.acked == m.ack && m.status.Sending? && m.sent < |m.data|
    requires Debt(c) > 0 && (InFlight(c) || c.control == [])
    ensures Possible(c, AckBytes(len, TIGHT)) && Stuck(Next(c, AckBytes(len, TIGHT)))
  {
    TakeAckParts(c, len);
    hide TakeAck;
    var b := TakeAck(c, len);
    assert CreditOf(c, len) > 0 && b.queue[0] == Credited(c.queue[0], CreditOf(c, len));
    StuckRun(b, TIGHT) by {
      assert Stuck(b);
    }
  }

  // What the first two happenings of a failing run lead to.
  lemma Resent(purpose: Purpose, data: bytes, offer: Event)
    requires offer.Offer? && Window(offer.space) > NewControl(purpose, data).Len() - 1
    ensures var k, x, y := NewControl(purpose, data), QueueControl(purpose, data, offer), PollQueue(offer);
            var k' := k.(finished := true);
            && Possible(NewClient(), x) && Possible(Next(NewClient(), x), y)
            && var d := Next(Next(NewClient(), x), y);
               d == NewClient().(control := [k'], frames := d.frames, wire := d.wire) && |d.wire| == 2 * k.Len()
  {
    var k := NewControl(purpose, data);
    ControlLength(k);
    hide EncodeFrame, NewControl;
    var c := EnqueueControl(NewClient(), purpose, data);
    assert c.control == [k];
    var d := SendControl(c);
    assert d.control == [k.(finished := true)];
    assert Next(NewClient(), QueueControl(purpose, data, offer)) == d;
    ControlLength(k.(finished := true));
    assert Next(d, PollQueue(offer)) == SendControl(d);
  }

  lemma CutShort(purpose: Purpose, data: bytes, offer: Event)
    requires offer.Offer? && Window(offer.space) > NewControl(purpose, data).Len() - 1
    ensures var k, x, y := NewControl(purpose, data), QueueControl(purpose, data, offer), AckBytes(1, TIGHT);
            && Possible(NewClient(), x) && Possible(Next(NewClient(), x), y)
            && var d := Next(Next(NewClient(), x), y);
               d == NewClient().(frames := d.frames, wire := d.wire, acked := 1) && |d.wire| == k.Len()
  {
    var k := NewControl(purpose, data);
    ControlLength(k);
    hide EncodeFrame, NewControl;
    var c := EnqueueControl(NewClient(), purpose, data);
    assert c.control == [k];
    var d := SendControl(c);
    assert d.control == [k.(finished := true)] && d.control[1..] == [];
    assert Next(NewClient(), QueueControl(purpose, data, offer)) == d;
    assert Next(d, AckBytes(1, TIGHT)) == d.(control := [], acked := 1);
  }

  // A ping, say, that is sent twice because of a poll, and then a text: once both copies are acknowledged
  // the client has stopped for ever.
  lemma ResendingStalls(purpose: Purpose, data: bytes, offer: Event, t: Text)
    requires offer.Offer? && Window(offer.space) > NewControl(purpose, data).Len() - 1 && t.data != []
    ensures var len := NewControl(purpose, data).Len();
            var xs := [QueueControl(purpose, data, offer), PollQueue(offer), QueueText(t, TIGHT),
                       AckBytes(2 * len, TIGHT)];
            PossibleRun(NewClient(), xs) && Stuck(RunClient(NewClient(), xs))
  {
    hide Possible, Next, Stuck, NewControl, PossibleRun, RunClient;
    var x, y, len := QueueControl(purpose, data, offer), PollQueue(offer), NewControl(purpose, data).Len();
    Resent(purpose, data, offer);
    LateAckSticks(Next(Next(NewClient(), x), y), t);
    var rest := [QueueText(t, TIGHT), AckBytes(2 * len, TIGHT)];
    FirstTwo(NewClient(), x, y, rest);
    assert [x, y] + rest == [x, y, rest[0], rest[1]];
  }

  // An acknowledgement that ends inside the control frame: what it lacks is credited to the next text.
  lemma ShortAckStalls(purpose: Purpose, data: bytes, offer: Event, t: Text)
    requires offer.Offer? && Window(offer.space) > NewControl(purpose, data).Len() - 1 && t.data != []
    ensures var len := NewControl(purpose, data).Len();
            var xs := [QueueControl(purpose, data, offer), AckBytes(1, TIGHT), QueueText(t, TIGHT),
                       AckBytes(len - 1, TIGHT)];
            PossibleRun(NewClient(), xs) && Stuck(RunClient(NewClient(), xs))
  {
    hide Possible, Next, Stuck, NewControl, PossibleRun, RunClient;
    var x, y, len := QueueControl(purpose, data, offer), AckBytes(1, TIGHT), NewControl(purpose, data).Len();
    CutShort(purpose, data, offer);
    LateAckSticks(Next(Next(NewClient(), x), y), t);
    var rest := [QueueText(t, TIGHT), AckBytes(len - 1, TIGHT)];
    FirstTwo(NewClient(), x, y, rest);
    assert [x, y] + rest == [x, y, rest[0], rest[1]];
  }

  lemma FirstTwo(c: Client, x: Happening, y: Happening, rest: seq<Happening>)
    requires Possible(c, x) && Possible(Next(c, x), y) && PossibleRun(Next(Next(c, x), y), rest)
    ensures PossibleRun(c, [x, y] + rest)
    ensures RunClient(c, [x, y] + rest) == RunClient(Next(Next(c, x), y), rest)
  {
    hide Possible, Next;
    assert ([x, y] + rest)[1..] == [y] + rest && ([y] + rest)[1..] == rest;
  }
}
