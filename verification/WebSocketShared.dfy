/**
 * One text for several clients: AsyncWebSocketMultiMessage keeps a pointer into the shared buffer, so
 * whatever masks the text for one client masks it for all.
 */
module WebSocketShared {
  import opened Basics
  import opened WebSocketFrame
  import opened WebSocketSender
  import opened WebSocketReceiver
  import opened WebSocketRoundTrip

  // Something happens to the message of client j.
  datatype Move = Move(j: nat, e: Event)

  // ---------- the messages of a broadcast ----------

  function WithData(t: Trace, data: bytes): Trace {
    t.(m := t.m.(data := data))
  }

  // All messages see the same buffer.
  function Share(ts: seq<Trace>, data: bytes): (r: seq<Trace>)
    ensures |r| == |ts| && forall i :: 0 <= i < |ts| ==> r[i] == WithData(ts[i], data)
  {
    seq(|ts|, i requires 0 <= i < |ts| => WithData(ts[i], data))
  }

  function After(t: Trace, e: Event): Trace
    requires Allowed(t.m, e)
  {
    var r := Step(t.m, e);
    Trace(r.m, t.frames + Emitted(t.m, e), t.wire + r.out)
  }

  predicate AllowedMove(ts: seq<Trace>, move: Move) {
    move.j < |ts| && Allowed(ts[move.j].m, move.e)
  }

  function AfterMove(ts: seq<Trace>, move: Move): (r: seq<Trace>)
    requires AllowedMove(ts, move)
    ensures |r| == |ts|
  {
    var t := After(ts[move.j], move.e);
    Share(ts[move.j := t], t.m.data)
  }

  predicate AllowedMoves(ts: seq<Trace>, moves: seq<Move>)
    decreases |moves|
  {
    moves == [] || (AllowedMove(ts, moves[0]) && AllowedMoves(AfterMove(ts, moves[0]), moves[1..]))
  }

  function RunAll(ts: seq<Trace>, moves: seq<Move>): (r: seq<Trace>)
    requires AllowedMoves(ts, moves)
    ensures |r| == |ts|
    decreases |moves|
  {
    if moves == [] then ts else RunAll(AfterMove(ts, moves[0]), moves[1..])
  }

  // textAll and binaryAll: n messages over one buffer.
  function Broadcast(n: nat, orig: bytes, opcode: byte, mask: bool): (ts: seq<Trace>)
    ensures |ts| == n && forall i :: 0 <= i < n ==> ts[i] == Start(Multi, orig, opcode, mask)
  {
    seq(n, _ => Start(Multi, orig, opcode, mask))
  }

  // ---------- fragmentation does not look at the text ----------

  // What the client of t has been sent, and what the buffer holds of the rest.
  function Seen(t: Trace): bytes
    requires t.m.sent <= |t.m.data|
  {
    Payloads(t.frames) + t.m.data[t.m.sent..]
  }

  // The invariant of a message with a text of its own, for the text that its client sees.
  ghost predicate Framed(t: Trace) {
    t.m.sent <= |t.m.data| && |Payloads(t.frames)| == t.m.sent && Seen(t) != [] && Invariant(t, Seen(t))
  }

  lemma RewrittenIsFramed(t: Trace, data: bytes)
    requires Framed(t) && |data| == |t.m.data|
    ensures Framed(WithData(t, data))
  {
    hide EncodeAll, LegalFragments;
    var u := WithData(t, data);
    assert Seen(u)[u.m.sent..] == data[u.m.sent..] && Seen(u)[..u.m.sent] == Payloads(t.frames);
  }

  lemma InvariantIsFramed(t: Trace, orig: bytes)
    requires Invariant(t, orig) && orig != []
    ensures Framed(t) && Seen(t) == orig
  {
    hide EncodeAll, LegalFragments;
    assert orig == orig[..t.m.sent] + orig[t.m.sent..];
  }

  lemma StepKeepsFramed(t: Trace, e: Event)
    requires Framed(t) && Allowed(t.m, e)
    ensures Framed(After(t, e)) && Seen(After(t, e)) == Seen(t)
    ensures |After(t, e).m.data| == |t.m.data|
  {
    StepKeepsInvariant(t, e, Seen(t));
    hide Invariant, Step, Emitted;
    InvariantIsFramed(After(t, e), Seen(t));
    SameLength(t, e);
  }

  lemma SameLength(t: Trace, e: Event)
    requires Framed(t) && Allowed(t.m, e) && Invariant(After(t, e), Seen(t))
    ensures |After(t, e).m.data| == |t.m.data|
  {
    hide Step, Emitted, EncodeAll;
  }

  ghost predicate AllFramed(ts: seq<Trace>) {
    forall i, j :: 0 <= i < |ts| && 0 <= j < |ts| ==> Framed(ts[i]) && ts[i].m.data == ts[j].m.data
  }

  lemma MoveKeepsFramed(ts: seq<Trace>, move: Move)
    requires AllFramed(ts) && AllowedMove(ts, move)
    ensures AllFramed(AfterMove(ts, move))
  {
    hide Framed, After;
    StepKeepsFramed(ts[move.j], move.e);
    var t, us := After(ts[move.j], move.e), AfterMove(ts, move);
    forall i | 0 <= i < |us|
      ensures Framed(us[i]) && us[i].m.data == t.m.data
    {
      RewrittenIsFramed(if i == move.j then t else ts[i], t.m.data);
    }
  }

  lemma {:induction false} RunKeepsFramed(ts: seq<Trace>, moves: seq<Move>)
    requires AllFramed(ts) && AllowedMoves(ts, moves)
    ensures AllFramed(RunAll(ts, moves))
    decreases |moves|
  {
    hide AllFramed, AllowedMove, AfterMove;
    if moves != [] {
      MoveKeepsFramed(ts, moves[0]);
      RunKeepsFramed(AfterMove(ts, moves[0]), moves[1..]);
    }
  }

  lemma BroadcastIsFramed(n: nat, orig: bytes, opcode: byte, mask: bool)
    requires orig != []
    ensures AllFramed(Broadcast(n, orig, opcode, mask))
  {
    var t := Start(Multi, orig, opcode, mask);
    assert orig[0..] == orig && orig[..0] == [];
    InvariantIsFramed(t, orig);
  }

  // ---------- what a step does to the text ----------

  // Nothing sent, nothing rewritten; nothing is rewritten without a mask, or behind what is sent; and the
  // first byte changes exactly when it is sent under a key that does not begin with zero.
  lemma StepRewrites(t: Trace, e: Event)
    requires Framed(t) && Allowed(t.m, e)
    ensures var u := After(t, e);
            && t.m.sent <= u.m.sent <= |u.m.data| == |t.m.data| && u.m.mask == t.m.mask
            && (u.m.sent > t.m.sent ==> e.Offer?)
            && (u.m.sent == t.m.sent || !t.m.mask ==> u.m.data == t.m.data)
            && (t.m.sent > 0 ==> u.m.data[0] == t.m.data[0])
            && (t.m.mask && e.Offer? && t.m.sent == 0 < u.m.sent ==>
                  (u.m.data[0] == t.m.data[0] <==> e.key[0] == 0))
  {
    FramedHasText(t);
    if e.Offer? && Attempts(t.m) {
      OfferRewrites(t.m, e);
    } else {
      QuietStep(t.m, e);
    }
  }

  lemma FramedHasText(t: Trace)
    requires Framed(t)
    ensures t.m.data != [] && t.m.sent <= |t.m.data| && t.m.opcode < 8 && t.m.acked <= t.m.ack
  {
    hide EncodeAll, LegalFragments;
    assert |Seen(t)| == |t.m.data|;
  }

  lemma QuietStep(m: Message, e: Event)
    requires m.sent <= |m.data| && Allowed(m, e) && !(e.Offer? && Attempts(m))
    ensures var u := Step(m, e).m; u == m.(acked := u.acked, status := u.status)
  {
  }

  lemma OfferRewrites(m: Message, e: Event)
    requires m.sent <= |m.data| && m.opcode < 8 && e.Offer? && Allowed(m, e) && Attempts(m)
    ensures var u := Step(m, e).m;
            && m.sent < u.sent <= |u.data| == |m.data| && u.mask == m.mask && (!m.mask ==> u.data == m.data)
            && (m.sent > 0 ==> u.data[0] == m.data[0])
            && (m.mask && m.sent == 0 ==> (u.data[0] == m.data[0] <==> e.key[0] == 0))
  {
    hide Step, SendFrame, HeadLen;
    var n := ToSend(m, e.space);
    var piece := m.data[m.sent..m.sent + n];
    var final, opcode := m.sent + n == |m.data|, FrameOpcode(m.opcode, m.sent, n);
    OfferData(m, e);
    WholePieceFits(e.space, m.mask, |m.data| - m.sent);
    SendFrameMasks(e.space, final, opcode, m.mask, e.key, piece, e.junk);
    PieceReplaced(m.data, m.sent, n, SendFrame(e.space, final, opcode, m.mask, e.key, piece, e.junk).data);
  }

  lemma OfferData(m: Message, e: Event)
    requires m.sent <= |m.data| && m.opcode < 8 && e.Offer? && Allowed(m, e) && Attempts(m)
    ensures var n := ToSend(m, e.space);
            var r := SendFrame(e.space, m.sent + n == |m.data|, FrameOpcode(m.opcode, m.sent, n), m.mask, e.key,
                               m.data[m.sent..m.sent + n], e.junk);
            var u := Step(m, e).m;
            && u.data == m.data[..m.sent] + r.data + m.data[m.sent + n..] && |r.data| == n && u.mask == m.mask
            && m.sent < u.sent <= |u.data| == |m.data|
  {
    hide SendFrame, HeadLen;
    OfferEmitsFrame(m, e);
  }

  lemma PieceReplaced(data: bytes, at: nat, n: nat, piece: bytes)
    requires at + n <= |data| && |piece| == n > 0
    ensures var d := data[..at] + piece + data[at + n..];
            && (piece == data[at..at + n] ==> d == data)
            && (at > 0 ==> d[0] == data[0]) && (at == 0 ==> d[0] == piece[0] && data[0] == data[at..at + n][0])
  {
    assert data == data[..at] + data[at..at + n] + data[at + n..];
  }

  lemma WholePieceFits(space: nat, mask: bool, left: nat)
    requires 9 <= space && left > 0
    ensures Cut(space, mask, Fitting(left, space)) == Fitting(left, space) > 0
  {
  }

  // ---------- which texts arrive ----------

  predicate OnlyOne(ts: seq<Trace>, i: nat) {
    forall k :: 0 <= k < |ts| && k != i ==> ts[k].m.sent == 0
  }

  predicate AtMostOne(ts: seq<Trace>) {
    forall i, k :: 0 <= i < |ts| && 0 <= k < |ts| && i != k ==> ts[i].m.sent == 0 || ts[k].m.sent == 0
  }

  // Every client has been sent its part of the text.
  ghost predicate AllWhole(ts: seq<Trace>, orig: bytes) {
    forall i :: 0 <= i < |ts| ==> ts[i].m.sent <= |orig| && Payloads(ts[i].frames) == orig[..ts[i].m.sent]
  }

  ghost predicate TextInv(ts: seq<Trace>, orig: bytes, mask: bool) {
    && AllFramed(ts)
    && (forall i :: 0 <= i < |ts| ==> |ts[i].m.data| == |orig| && ts[i].m.mask == mask)
    && (forall i :: 0 <= i < |ts| && (!mask || OnlyOne(ts, i)) ==> Seen(ts[i]) == orig)
  }

  lemma MoveKeepsText(ts: seq<Trace>, move: Move, orig: bytes, mask: bool)
    requires TextInv(ts, orig, mask) && AllowedMove(ts, move)
    ensures TextInv(AfterMove(ts, move), orig, mask)
  {
    hide Framed, After, Seen;
    MoveKeepsFramed(ts, move);
    StepKeepsFramed(ts[move.j], move.e);
    StepRewrites(ts[move.j], move.e);
    var t, us := After(ts[move.j], move.e), AfterMove(ts, move);
    SameData(t);
    forall i | 0 <= i < |us|
      ensures us[i].m.sent <= |us[i].m.data|
    {
      FramedHasText(us[i]);
    }
    forall i | 0 <= i < |us| && (!mask || OnlyOne(us, i))
      ensures Seen(us[i]) == orig
    {
      if i == move.j {
        assert !mask || OnlyOne(ts, i) by {
          if mask {
            forall k | 0 <= k < |ts| && k != i ensures ts[k].m.sent == 0 {
              assert us[k].m.sent == ts[k].m.sent;
            }
          }
        }
      } else {
        OtherUnchanged(ts, move, t, i, mask);
      }
    }
  }

  lemma SameData(t: Trace)
    ensures WithData(t, t.m.data) == t
  {
  }

  // What the others see does not change if nothing was rewritten.
  lemma OtherUnchanged(ts: seq<Trace>, move: Move, t: Trace, i: nat, mask: bool)
    requires AllFramed(ts) && AllowedMove(ts, move) && t == After(ts[move.j], move.e) && i < |ts| && i != move.j
    requires t.m.sent >= ts[move.j].m.sent
    requires t.m.sent == ts[move.j].m.sent || !mask ==> t.m.data == ts[move.j].m.data
    requires !mask || OnlyOne(AfterMove(ts, move), i)
    ensures AfterMove(ts, move)[i] == ts[i] && (!mask || OnlyOne(ts, i))
  {
    hide Framed, After;
    var us := AfterMove(ts, move);
    SameData(ts[i]);
    assert ts[i].m.data == ts[move.j].m.data;
    if mask {
      assert us[move.j].m.sent == t.m.sent;
      forall k | 0 <= k < |ts| && k != i ensures ts[k].m.sent == 0 {
        assert us[k].m.sent == if k == move.j then t.m.sent else ts[k].m.sent;
      }
    }
  }

  lemma {:induction false} RunKeepsText(ts: seq<Trace>, moves: seq<Move>, orig: bytes, mask: bool)
    requires TextInv(ts, orig, mask) && AllowedMoves(ts, moves)
    ensures TextInv(RunAll(ts, moves), orig, mask)
    decreases |moves|
  {
    hide TextInv, AllowedMove, AfterMove;
    if moves != [] {
      MoveKeepsText(ts, moves[0], orig, mask);
      RunKeepsText(AfterMove(ts, moves[0]), moves[1..], orig, mask);
    }
  }

  lemma BroadcastText(n: nat, orig: bytes, opcode: byte, mask: bool)
    requires orig != []
    ensures TextInv(Broadcast(n, orig, opcode, mask), orig, mask)
  {
    hide Framed;
    BroadcastIsFramed(n, orig, opcode, mask);
    assert orig[0..] == orig && [] + orig == orig;
  }

  lemma TextArrives(ts: seq<Trace>, orig: bytes, mask: bool)
    requires TextInv(ts, orig, mask) && (!mask || AtMostOne(ts))
    ensures AllWhole(ts, orig)
  {
    forall i | 0 <= i < |ts|
      ensures ts[i].m.sent <= |orig| && Payloads(ts[i].frames) == orig[..ts[i].m.sent]
    {
      assert Framed(ts[i]);
      if mask && ts[i].m.sent > 0 {
        assert OnlyOne(ts, i);
      }
      if !mask || ts[i].m.sent > 0 {
        assert Seen(ts[i])[..ts[i].m.sent] == Payloads(ts[i].frames);
      }
    }
  }

  // ---------- and which do not ----------

  // Under keys that do not begin with zero: with one sender the first byte in the buffer is not that of the
  // text, and with two some client has got a wrong one.
  ghost predicate SpoilInv(ts: seq<Trace>, orig: bytes) {
    && (forall i :: 0 <= i < |ts| && ts[i].m.sent > 0 && OnlyOne(ts, i) ==> WrongBuffer(ts[i].m.data, orig))
    && (AtMostOne(ts) || exists i :: WrongFirst(ts, i, orig))
  }

  predicate WrongBuffer(data: bytes, orig: bytes) {
    data != [] && orig != [] && data[0] != orig[0]
  }

  ghost predicate WrongFirst(ts: seq<Trace>, i: nat, orig: bytes) {
    i < |ts| && ts[i].m.sent > 0 && WrongBuffer(Payloads(ts[i].frames), orig)
  }

  // The first byte that a client gets is what the buffer held when it was sent, and stays.
  lemma FirstByteSent(t: Trace, e: Event)
    requires Framed(t) && Allowed(t.m, e)
    ensures var u := After(t, e);
            && (t.m.sent > 0 ==> Payloads(u.frames) != [] && Payloads(t.frames) != []
                                 && Payloads(u.frames)[0] == Payloads(t.frames)[0])
            && (t.m.sent == 0 < u.m.sent ==> Payloads(u.frames) != [] && t.m.data != []
                                             && Payloads(u.frames)[0] == t.m.data[0])
  {
    hide Step, Emitted, Invariant, Allowed;
    StepKeepsFramed(t, e);
    StepRewrites(t, e);
    FramedHasText(t);
    SeenStarts(t);
    SeenStarts(After(t, e));
  }

  lemma SeenStarts(t: Trace)
    requires Framed(t)
    ensures t.m.data != [] && Seen(t) != [] && |Payloads(t.frames)| == t.m.sent
    ensures t.m.sent > 0 ==> Payloads(t.frames)[0] == Seen(t)[0]
    ensures t.m.sent == 0 ==> t.m.data[0] == Seen(t)[0]
  {
    hide Invariant;
    FramedHasText(t);
  }

  predicate BeginsNonzero(e: Event) {
    e.Offer? ==> e.key[0] != 0
  }

  lemma MoveKeepsSpoil(ts: seq<Trace>, move: Move, orig: bytes)
    requires orig != [] && TextInv(ts, orig, true) && SpoilInv(ts, orig) && AllowedMove(ts, move)
    requires BeginsNonzero(move.e)
    ensures SpoilInv(AfterMove(ts, move), orig)
  {
    hide Framed, After, Seen, TextInv, SpoilInv, Allowed;
    MoveFacts(ts, move, orig);
    var j := move.j;
    var t, u, us := ts[j], After(ts[j], move.e), AfterMove(ts, move);
    if u.m.sent == t.m.sent {
      SameSenders(ts, us, orig);
    } else if t.m.sent > 0 {
      SenderGoesOn(ts, us, j, orig);
    } else {
      SenderBegins(ts, us, j, orig);
    }
  }

  // The step of one message, for the counting of senders.
  lemma MoveFacts(ts: seq<Trace>, move: Move, orig: bytes)
    requires orig != [] && TextInv(ts, orig, true) && AllowedMove(ts, move) && BeginsNonzero(move.e)
    requires SpoilInv(ts, orig)
    ensures var j, us := move.j, AfterMove(ts, move);
            var t, u := ts[j], After(ts[j], move.e);
            && us[j] == u && SameButSender(ts, us, j) && u.m.data != [] && t.m.data != []
            && t.m.sent <= u.m.sent
            && (u.m.sent == t.m.sent ==> u.m.data == t.m.data && Payloads(u.frames) == Payloads(t.frames))
            && (t.m.sent > 0 ==> u.m.data[0] == t.m.data[0] && Payloads(u.frames) != [] && Payloads(t.frames) != []
                                 && Payloads(u.frames)[0] == Payloads(t.frames)[0])
            && (t.m.sent == 0 < u.m.sent ==>
                  u.m.data[0] != t.m.data[0] && Payloads(u.frames) != [] && Payloads(u.frames)[0] == t.m.data[0])
    ensures SpoilInv(ts, orig) && (forall k :: 0 <= k < |ts| ==> ts[k].m.data == ts[move.j].m.data)
    ensures (forall k :: 0 <= k < |ts| ==> ts[k].m.sent == 0) ==> ts[move.j].m.data[0] == orig[0]
  {
    hide Framed, SpoilInv, Allowed, Seen, After, Invariant;
    var t := ts[move.j];
    StepRewrites(t, move.e);
    FirstByteSent(t, move.e);
    StepKeepsFramed(t, move.e);
    FramedHasText(t);
    FramedHasText(After(t, move.e));
    SameData(After(t, move.e));
    NobodySent(ts, move.j, orig);
    EmitsWhatItSends(t, move.e);
  }

  predicate SameButSender(ts: seq<Trace>, us: seq<Trace>, j: nat) {
    && |us| == |ts| && j < |ts|
    && (forall k :: 0 <= k < |us| ==> us[k].m.data == us[j].m.data)
    && forall k :: 0 <= k < |ts| && k != j ==> us[k].m.sent == ts[k].m.sent && us[k].frames == ts[k].frames
  }

  lemma NobodySent(ts: seq<Trace>, j: nat, orig: bytes)
    requires TextInv(ts, orig, true) && j < |ts| && orig != []
    ensures (forall k :: 0 <= k < |ts| ==> ts[k].m.sent == 0) ==> ts[j].m.data != [] && ts[j].m.data[0] == orig[0]
  {
    if forall k :: 0 <= k < |ts| ==> ts[k].m.sent == 0 {
      assert OnlyOne(ts, j) && Framed(ts[j]);
      hide Framed, TextInv;
      SeenStarts(ts[j]);
    }
  }

  lemma EmitsWhatItSends(t: Trace, e: Event)
    requires Framed(t) && Allowed(t.m, e)
    ensures After(t, e).m.sent == t.m.sent ==> Payloads(After(t, e).frames) == Payloads(t.frames)
  {
    hide Step, Emitted, Invariant;
    StepKeepsFramed(t, e);
    var u := After(t, e);
    if u.m.sent == t.m.sent {
      assert Seen(t)[..t.m.sent] == Payloads(t.frames) && Seen(u)[..u.m.sent] == Payloads(u.frames);
    }
  }

  lemma SameSenders(ts: seq<Trace>, us: seq<Trace>, orig: bytes)
    requires SpoilInv(ts, orig) && |us| == |ts|
    requires forall k :: 0 <= k < |ts| ==>
               us[k].m.sent == ts[k].m.sent && us[k].m.data == ts[k].m.data
               && Payloads(us[k].frames) == Payloads(ts[k].frames)
    ensures SpoilInv(us, orig)
  {
    forall i | 0 <= i < |us| && us[i].m.sent > 0 && OnlyOne(us, i)
      ensures WrongBuffer(us[i].m.data, orig)
    {
      assert OnlyOne(ts, i);
    }
    if !AtMostOne(us) {
      assert !AtMostOne(ts);
      var i :| WrongFirst(ts, i, orig);
      assert WrongFirst(us, i, orig);
    }
  }

  lemma SenderGoesOn(ts: seq<Trace>, us: seq<Trace>, j: nat, orig: bytes)
    requires SpoilInv(ts, orig) && SameButSender(ts, us, j) && 0 < ts[j].m.sent <= us[j].m.sent
    requires forall k :: 0 <= k < |ts| ==> ts[k].m.data == ts[j].m.data
    requires us[j].m.data != [] && ts[j].m.data != [] && us[j].m.data[0] == ts[j].m.data[0]
    requires Payloads(us[j].frames) != [] && Payloads(ts[j].frames) != []
    requires Payloads(us[j].frames)[0] == Payloads(ts[j].frames)[0]
    ensures SpoilInv(us, orig)
  {
    forall i | 0 <= i < |us| && us[i].m.sent > 0 && OnlyOne(us, i)
      ensures WrongBuffer(us[i].m.data, orig)
    {
      assert i == j && OnlyOne(ts, j);
    }
    if !AtMostOne(us) {
      assert !AtMostOne(ts);
      var i :| WrongFirst(ts, i, orig);
      assert WrongFirst(us, i, orig);
    }
  }

  lemma SenderBegins(ts: seq<Trace>, us: seq<Trace>, j: nat, orig: bytes)
    requires orig != [] && SpoilInv(ts, orig) && SameButSender(ts, us, j) && ts[j].m.sent == 0 < us[j].m.sent
    requires forall k :: 0 <= k < |ts| ==> ts[k].m.data == ts[j].m.data
    requires us[j].m.data != [] && ts[j].m.data != [] && us[j].m.data[0] != ts[j].m.data[0]
    requires Payloads(us[j].frames) != [] && Payloads(us[j].frames)[0] == ts[j].m.data[0]
    requires (forall k :: 0 <= k < |ts| ==> ts[k].m.sent == 0) ==> ts[j].m.data[0] == orig[0]
    ensures SpoilInv(us, orig)
  {
    if i :| 0 <= i < |ts| && ts[i].m.sent > 0 {
      assert us[i].m.sent > 0 && i != j;
      assert forall k :: 0 <= k < |us| ==> !OnlyOne(us, k) by {
        forall k | 0 <= k < |us| ensures !OnlyOne(us, k) {
          if k == i {
            assert us[j].m.sent != 0;
          }
        }
      }
      if OnlyOne(ts, i) {
        assert WrongFirst(us, j, orig);
      } else {
        assert !AtMostOne(ts);
        var k :| WrongFirst(ts, k, orig);
        assert WrongFirst(us, k, orig);
      }
    } else {
      assert OnlyOne(us, j);
      assert AtMostOne(us);
    }
  }

  ghost predicate NonzeroKeys(moves: seq<Move>) {
    forall x <- moves :: BeginsNonzero(x.e)
  }

  lemma {:induction false} RunKeepsSpoil(ts: seq<Trace>, moves: seq<Move>, orig: bytes)
    requires orig != [] && TextInv(ts, orig, true) && SpoilInv(ts, orig) && AllowedMoves(ts, moves)
    requires NonzeroKeys(moves)
    ensures SpoilInv(RunAll(ts, moves), orig)
    decreases |moves|
  {
    hide TextInv, SpoilInv, AllowedMove, AfterMove;
    if moves != [] {
      assert moves[0] in moves && forall x <- moves[1..] :: x in moves;
      MoveKeepsText(ts, moves[0], orig, true);
      MoveKeepsSpoil(ts, moves[0], orig);
      RunKeepsSpoil(AfterMove(ts, moves[0]), moves[1..], orig);
    }
  }

  // With such keys every client gets its part of the text if and only if at most one has been sent any.
  lemma NonzeroKeysSpoil(n: nat, orig: bytes, opcode: byte, moves: seq<Move>)
    requires orig != [] && AllowedMoves(Broadcast(n, orig, opcode, true), moves) && NonzeroKeys(moves)
    ensures var ts := RunAll(Broadcast(n, orig, opcode, true), moves); AllWhole(ts, orig) <==> AtMostOne(ts)
  {
    hide TextInv, AllWhole, AtMostOne, AllowedMoves, RunAll, OnlyOne;
    var start := Broadcast(n, orig, opcode, true);
    BroadcastText(n, orig, opcode, true);
    NobodySpoils(start, orig);
    RunKeepsText(start, moves, orig, true);
    RunKeepsSpoil(start, moves, orig);
    var ts := RunAll(start, moves);
    if AtMostOne(ts) {
      TextArrives(ts, orig, true);
    } else {
      SpoiltIsNotWhole(ts, orig);
    }
  }

  lemma NobodySpoils(ts: seq<Trace>, orig: bytes)
    requires forall i :: 0 <= i < |ts| ==> ts[i].m.sent == 0
    ensures SpoilInv(ts, orig)
  {
  }

  lemma SpoiltIsNotWhole(ts: seq<Trace>, orig: bytes)
    requires SpoilInv(ts, orig) && !AtMostOne(ts)
    ensures !AllWhole(ts, orig)
  {
    var i :| WrongFirst(ts, i, orig);
  }

  // ---------- whatever keys are drawn ----------

  ghost predicate SameButKey(a: Event, b: Event) {
    a == b || (a.Offer? && b.Offer? && a.space == b.space && a.junk == b.junk)
  }

  ghost predicate SameButKeys(a: seq<Move>, b: seq<Move>) {
    |a| == |b| && forall i :: 0 <= i < |a| ==> a[i].j == b[i].j && SameButKey(a[i].e, b[i].e)
  }

  // How far a message is, apart from the text.
  predicate AsFar(a: Message, b: Message) {
    a == b.(data := a.data) && |a.data| == |b.data|
  }

  predicate AllAsFar(ts: seq<Trace>, us: seq<Trace>) {
    |ts| == |us| && forall i :: 0 <= i < |ts| ==> AsFar(ts[i].m, us[i].m)
  }

  lemma StepGoesAsFar(a: Message, e: Event, b: Message, f: Event)
    requires AsFar(a, b) && SameButKey(e, f) && Allowed(a, e) && a.sent <= |a.data| && a.opcode < 8
    ensures Allowed(b, f) && AsFar(Step(a, e).m, Step(b, f).m)
  {
    assert Allowed(b, f);
    if e.Offer? && Attempts(a) {
      OfferGoesAsFar(a, e, b, f);
    } else {
      QuietStep(a, e);
      QuietStep(b, f);
    }
  }

  lemma OfferGoesAsFar(a: Message, e: Event, b: Message, f: Event)
    requires AsFar(a, b) && SameButKey(e, f) && Allowed(a, e) && Allowed(b, f) && a.sent <= |a.data| && a.opcode < 8
    requires e.Offer? && Attempts(a)
    ensures AsFar(Step(a, e).m, Step(b, f).m)
  {
    hide Step, FrameOverhead, HeadLen, Fitting;
    OfferProgress(a, e);
    OfferProgress(b, f);
  }

  lemma OfferProgress(m: Message, e: Event)
    requires e.Offer? && Allowed(m, e) && Attempts(m) && m.opcode < 8
    ensures var u, n := Step(m, e).m, ToSend(m, e.space);
            && |u.data| == |m.data|
            && u == m.(data := u.data, sent := m.sent + n, ack := m.ack + n + FrameOverhead(m.mask, n))
  {
    hide SendFrame, HeadLen;
    OfferEmitsFrame(m, e);
  }

  lemma MoveGoesAsFar(ts: seq<Trace>, x: Move, us: seq<Trace>, y: Move)
    requires AllAsFar(ts, us) && x.j == y.j && SameButKey(x.e, y.e) && AllowedMove(ts, x) && AllFramed(ts)
    ensures AllowedMove(us, y) && AllAsFar(AfterMove(ts, x), AfterMove(us, y))
  {
    hide Step, Framed, Allowed;
    FramedHasText(ts[x.j]);
    StepGoesAsFar(ts[x.j].m, x.e, us[x.j].m, y.e);
    StepKeepsFramed(ts[x.j], x.e);
  }

  lemma {:induction false} RunGoesAsFar(ts: seq<Trace>, xs: seq<Move>, us: seq<Trace>, ys: seq<Move>)
    requires AllAsFar(ts, us) && SameButKeys(xs, ys) && AllowedMoves(ts, xs) && AllFramed(ts)
    ensures AllowedMoves(us, ys) && AllAsFar(RunAll(ts, xs), RunAll(us, ys))
    decreases |xs|
  {
    hide AllFramed, AllAsFar, AllowedMove, AfterMove, SameButKey;
    if xs != [] {
      MoveGoesAsFar(ts, xs[0], us, ys[0]);
      MoveKeepsFramed(ts, xs[0]);
      RunGoesAsFar(AfterMove(ts, xs[0]), xs[1..], AfterMove(us, ys[0]), ys[1..]);
    }
  }

  lemma AsFarSenders(ts: seq<Trace>, us: seq<Trace>)
    requires AllAsFar(ts, us)
    ensures AtMostOne(ts) <==> AtMostOne(us)
  {
    assert forall i :: 0 <= i < |ts| ==> ts[i].m.sent == us[i].m.sent;
  }

  // The same run under the key 1, 1, 1, 1 throughout.
  function WithOnes(moves: seq<Move>): (r: seq<Move>)
    ensures SameButKeys(moves, r) && NonzeroKeys(r)
  {
    var ones: Key := [1, 1, 1, 1];
    seq(|moves|, i requires 0 <= i < |moves| =>
      var x: Move := moves[i];
      if x.e.Offer? then Move(x.j, x.e.(key := ones)) else x)
  }

  // All clients get their part of the text whatever keys are drawn.
  ghost predicate ArrivesUnderAllKeys(ts: seq<Trace>, moves: seq<Move>, orig: bytes) {
    forall other: seq<Move> ::
      SameButKeys(moves, other) && AllowedMoves(ts, other) ==> AllWhole(RunAll(ts, other), orig)
  }

  // Main result for a shared buffer: over every interleaving of the messages of a broadcast, every client
  // gets its part of the text whatever keys are drawn, if and only if nothing is masked or at most one
  // client has been sent any of it.
  lemma BroadcastArrivesIff(n: nat, orig: bytes, opcode: byte, mask: bool, moves: seq<Move>)
    requires orig != [] && AllowedMoves(Broadcast(n, orig, opcode, mask), moves)
    ensures var start := Broadcast(n, orig, opcode, mask);
            ArrivesUnderAllKeys(start, moves, orig) <==> !mask || AtMostOne(RunAll(start, moves))
  {
    hide TextInv, AllWhole, AtMostOne, AllowedMoves, RunAll, AllFramed, SameButKeys, NonzeroKeys, AllAsFar;
    var start := Broadcast(n, orig, opcode, mask);
    BroadcastIsFramed(n, orig, opcode, mask);
    BroadcastText(n, orig, opcode, mask);
    AsFarAsItself(start);
    forall other: seq<Move> | SameButKeys(moves, other)
      ensures AllowedMoves(start, other) && (AtMostOne(RunAll(start, moves)) <==> AtMostOne(RunAll(start, other)))
      ensures !mask || AtMostOne(RunAll(start, moves)) ==> AllWhole(RunAll(start, other), orig)
    {
      RunGoesAsFar(start, moves, start, other);
      AsFarSenders(RunAll(start, moves), RunAll(start, other));
      RunKeepsText(start, other, orig, mask);
      if !mask || AtMostOne(RunAll(start, moves)) {
        TextArrives(RunAll(start, other), orig, mask);
      }
    }
    if mask && ArrivesUnderAllKeys(start, moves, orig) {
      NonzeroKeysSpoil(n, orig, opcode, WithOnes(moves));
    }
  }

  lemma AsFarAsItself(ts: seq<Trace>)
    ensures AllAsFar(ts, ts)
  {
  }

  // And what a client gets is what its receiver delivers, legally fragmented, masked or not.
  lemma BroadcastEndToEnd(n: nat, orig: bytes, opcode: byte, mask: bool, moves: seq<Move>,
                          j: nat, p: Parser, segs: seq<bytes>)
    requires orig != [] && AllowedMoves(Broadcast(n, orig, opcode, mask), moves) && j < n
    requires Concat(segs) == RunAll(Broadcast(n, orig, opcode, mask), moves)[j].wire
    requires !p.pstate && WholeSegments(p, segs)
    ensures var ts := RunAll(Broadcast(n, orig, opcode, mask), moves);
            var t, chunks := ts[j], ParseSegments(p, segs).chunks;
            && Contiguous(Idle, chunks) && Assemble(Idle, chunks) == Decoded(AllReceived(t.frames), Idle)
            && LegalFragments(t.frames, opcode % 8, t.m.sent == |orig|) && (forall f <- t.frames :: f.masked == mask)
            && Delivered(chunks) == Payloads(t.frames)
            && (!mask || AtMostOne(ts) ==> t.m.sent <= |orig| && Delivered(chunks) == orig[..t.m.sent])
  {
    hide TextInv, AtMostOne, AllowedMoves, RunAll, AllFramed, WholeSegments, ParseSegments, Assemble, Delivered,
      LegalFragments;
    var start := Broadcast(n, orig, opcode, mask);
    BroadcastText(n, orig, opcode, mask);
    RunKeepsText(start, moves, orig, mask);
    var ts := RunAll(start, moves);
    FramedOf(ts, j, orig, mask);
    RunAllKeepsArguments(start, moves, j);
    FramesArrive(ts[j].frames, p, segs);
    if !mask || AtMostOne(ts) {
      TextArrives(ts, orig, mask);
    }
  }

  lemma {:induction false} RunAllKeepsArguments(ts: seq<Trace>, moves: seq<Move>, i: nat)
    requires AllowedMoves(ts, moves) && i < |ts|
    ensures RunAll(ts, moves)[i].m.opcode == ts[i].m.opcode
    decreases |moves|
  {
    hide Step, Allowed, Emitted;
    if moves != [] {
      StepKeepsArguments(ts[moves[0].j].m, moves[0].e);
      RunAllKeepsArguments(AfterMove(ts, moves[0]), moves[1..], i);
    }
  }

  // The bytes for each client in one piece are such a segmentation.
  lemma BroadcastInOneSegment(n: nat, orig: bytes, opcode: byte, mask: bool, moves: seq<Move>, j: nat, p: Parser)
    requires orig != [] && AllowedMoves(Broadcast(n, orig, opcode, mask), moves) && j < n && !p.pstate
    ensures WholeSegments(p, [RunAll(Broadcast(n, orig, opcode, mask), moves)[j].wire])
  {
    hide TextInv, AllowedMoves, RunAll, AllFramed, WholeSegments, LegalFragments, EncodeAll;
    var start := Broadcast(n, orig, opcode, mask);
    BroadcastText(n, orig, opcode, mask);
    RunKeepsText(start, moves, orig, mask);
    FramedOf(RunAll(start, moves), j, orig, mask);
    EncodedIsWhole(RunAll(start, moves)[j].frames, p);
  }

  lemma FramedOf(ts: seq<Trace>, j: nat, orig: bytes, mask: bool)
    requires TextInv(ts, orig, mask) && j < |ts|
    ensures var t := ts[j];
            && t.wire == EncodeAll(t.frames) && (forall f <- t.frames :: f.Encodable() && f.opcode < 8)
            && LegalFragments(t.frames, t.m.opcode, t.m.sent == |orig|) && |t.m.data| == |orig|
            && (forall f <- t.frames :: f.masked == mask)
  {
    assert Framed(ts[j]);
    hide TextInv;
    FramedParts(ts[j]);
  }

  lemma FramedParts(t: Trace)
    requires Framed(t)
    ensures t.wire == EncodeAll(t.frames) && (forall f <- t.frames :: f.Encodable() && f.opcode < 8)
    ensures LegalFragments(t.frames, t.m.opcode, t.m.sent == |t.m.data|)
    ensures forall f <- t.frames :: f.masked == t.m.mask
  {
    hide EncodeAll;
    assert |Seen(t)| == |t.m.data|;
    forall f <- t.frames
      ensures f.opcode < 8
    {
      var i :| 0 <= i < |t.frames| && t.frames[i] == f;
    }
  }
}
