/**
 * The sender composed with the parser: whatever windows a message is sent through and however
 * TCP cuts the bytes, the payload that _onData hands to the application is the message.
 */
module WebSocketRoundTrip {
  import opened Basics
  import opened WebSocketFrame
  import opened WebSocketSender
  import opened WebSocketReceiver

  // The frame as the receiver reports it.
  function AsReceived(f: Frame): Received {
    Received(f.GetHeader(), f.payload)
  }

  function AllReceived(fs: seq<Frame>): seq<Received> {
    if fs == [] then [] else [AsReceived(fs[0])] + AllReceived(fs[1..])
  }

  // ---------- decode after encode ----------

  lemma OneFrameRoundTrip(f: Frame, rest: bytes)
    requires f.Encodable() && WholeHeaders(0, rest)
    ensures WholeHeaders(0, EncodeFrame(f) + rest)
    ensures DecodeStream(Idle, EncodeFrame(f) + rest) == DecodeStream(Idle, rest).After([AsReceived(f)])
  {
    var h := f.GetHeader();
    var body := Unmask(h, 0, f.payload);
    var bs := EncodeFrame(f) + rest;
    hide EncodeHeader, Unmask, HeaderComplete, ReadHeader, HeaderSize;
    assert bs == EncodeHeader(h) + (body + rest);
    HeaderRoundTrip(h, body + rest);
    assert AfterHeader(bs) == body + rest;
    assert (body + rest)[|body|..] == rest && (body + rest)[..|body|] == body;
    assert |body| == h.len;
    assert Gain(h, [], body) == f.payload by {
      UnmaskTwice(h, f.payload);
    }
  }

  lemma UnmaskTwice(h: Header, bs: bytes)
    ensures Unmask(h, 0, Unmask(h, 0, bs)) == bs
  {
    MaskTwice(h.key, 0, bs);
  }

  // Section 5.2 of RFC 6455 both ways: the stream of any encodable frames reads back as those frames.
  lemma {:induction false} StreamRoundTrip(fs: seq<Frame>)
    requires forall f <- fs :: f.Encodable()
    ensures WholeHeaders(0, EncodeAll(fs))
    ensures DecodeStream(Idle, EncodeAll(fs)) == Decoded(AllReceived(fs), Idle)
  {
    if fs != [] {
      StreamRoundTrip(fs[1..]);
      OneFrameRoundTrip(fs[0], EncodeAll(fs[1..]));
    }
  }

  // ---------- what the application gets ----------

  // _onData passes a chunk to the data handler unless it ends a control frame.
  predicate IsData(c: Chunk) {
    !c.Last() || c.h.opcode < 8
  }

  function Delivered(cs: seq<Chunk>): bytes {
    if cs == [] then []
    else (if IsData(cs[0]) then cs[0].data else []) + Delivered(cs[1..])
  }

  function PayloadOf(rs: seq<Received>): bytes {
    if rs == [] then [] else rs[0].payload + PayloadOf(rs[1..])
  }

  // Every header that shows up belongs to a data frame.
  ghost predicate OnlyData(d: Decoded) {
    (forall r <- d.frames :: r.h.opcode < 8) && (d.left.Open? ==> d.left.h.opcode < 8)
  }

  function GotSoFar(q: Pending): bytes {
    if q.Open? then q.got else []
  }

  lemma {:induction false} PayloadOfAppend(a: seq<Received>, b: seq<Received>)
    ensures PayloadOf(a + b) == PayloadOf(a) + PayloadOf(b)
  {
    if a == [] {
      assert a + b == b;
    } else {
      PayloadOfAppend(a[1..], b);
      Associative(a[0].payload, PayloadOf(a[1..]), PayloadOf(b));
      assert (a + b)[1..] == a[1..] + b;
    }
  }

  lemma JoinKeepsBytes(q: Pending, c: Chunk)
    ensures GotSoFar(q) + c.data == PayloadOf(Join(q, c).frames) + GotSoFar(Join(q, c).left)
  {
    if c.Last() {
      var r := Join(q, c).frames[0];
      assert [r][1..] == [];
      assert PayloadOf([r]) == r.payload;
    }
  }

  lemma {:induction false} DeliveredIsPayload(q: Pending, cs: seq<Chunk>)
    requires Contiguous(q, cs) && OnlyData(Assemble(q, cs))
    ensures GotSoFar(q) + Delivered(cs) == PayloadOf(Assemble(q, cs).frames) + GotSoFar(Assemble(q, cs).left)
    ensures q.Open? ==> q.h.opcode < 8
    decreases |cs|
  {
    if cs != [] {
      var c, d := cs[0], Join(q, cs[0]);
      var later := Assemble(d.left, cs[1..]);
      DataAfterJoin(q, cs);
      DeliveredIsPayload(d.left, cs[1..]);
      JoinKeepsBytes(q, c);
      PayloadOfAppend(d.frames, later.frames);
      Regroup(GotSoFar(q), c.data, Delivered(cs[1..]), PayloadOf(d.frames), GotSoFar(d.left),
              PayloadOf(later.frames), GotSoFar(later.left));
    }
  }

  lemma Regroup(got: bytes, data: bytes, rest: bytes, p: bytes, g: bytes, p': bytes, g': bytes)
    requires got + data == p + g && g + rest == p' + g'
    ensures got + (data + rest) == (p + p') + g'
  {
    calc {
      got + (data + rest);
      (got + data) + rest;
      p + (g + rest);
      (p + p') + g';
    }
  }

  // If only data frames come out, the first chunk is data and so is everything after it.
  lemma DataAfterJoin(q: Pending, cs: seq<Chunk>)
    requires cs != [] && Contiguous(q, cs) && OnlyData(Assemble(q, cs))
    ensures OnlyData(Assemble(Join(q, cs[0]).left, cs[1..]))
    ensures IsData(cs[0])
    ensures q.Open? && cs[0].Last() ==> q.h.opcode < 8
    ensures q.Open? && !cs[0].Last() ==> Join(q, cs[0]).left.h == q.h
  {
    var c, d := cs[0], Join(q, cs[0]);
    var later := Assemble(d.left, cs[1..]);
    assert forall r <- later.frames :: r in d.frames + later.frames;
    if c.Last() {
      assert d.frames[0] in d.frames + later.frames;
    }
  }

  lemma {:induction false} PayloadOfReceived(fs: seq<Frame>)
    ensures PayloadOf(AllReceived(fs)) == Payloads(fs)
    ensures |AllReceived(fs)| == |fs|
    ensures forall i :: 0 <= i < |fs| ==> AllReceived(fs)[i] == AsReceived(fs[i])
  {
    if fs != [] {
      PayloadOfReceived(fs[1..]);
    }
  }

  // ---------- end to end ----------

  // The receiving half, for any encoded frames.
  lemma EncodedFramesArrive(fs: seq<Frame>, p: Parser, segs: seq<bytes>)
    requires forall f <- fs :: f.Encodable()
    requires !p.pstate && Concat(segs) == EncodeAll(fs) && WholeSegments(p, segs)
    ensures var chunks := ParseSegments(p, segs).chunks;
            Contiguous(Idle, chunks) && Assemble(Idle, chunks) == Decoded(AllReceived(fs), Idle)
  {
    hide DecodeStream, WholeHeaders, WholeSegments, ParseSegments, EncodeAll, Assemble;
    StreamRoundTrip(fs);
    SegmentationMatchesReference(p, Idle, segs);
  }

  // And for data frames.
  lemma FramesArrive(fs: seq<Frame>, p: Parser, segs: seq<bytes>)
    requires forall f <- fs :: f.Encodable() && f.opcode < 8
    requires !p.pstate && Concat(segs) == EncodeAll(fs) && WholeSegments(p, segs)
    ensures var chunks := ParseSegments(p, segs).chunks;
            && Contiguous(Idle, chunks)
            && Assemble(Idle, chunks) == Decoded(AllReceived(fs), Idle)
            && Delivered(chunks) == Payloads(fs)
  {
    hide DecodeStream, WholeHeaders, WholeSegments, ParseSegments, Delivered, EncodeAll, Assemble;
    EncodedFramesArrive(fs, p, segs);
    PayloadOfReceived(fs);
    var chunks := ParseSegments(p, segs).chunks;
    DeliveredIsPayload(Idle, chunks);
    var none: bytes := [];
    assert none + Delivered(chunks) == Delivered(chunks) && Payloads(fs) + none == Payloads(fs);
  }

  // Encoded frames in one piece split no header.
  lemma EncodedIsWhole(fs: seq<Frame>, p: Parser)
    requires (forall f <- fs :: f.Encodable()) && !p.pstate
    ensures WholeSegments(p, [EncodeAll(fs)])
  {
    hide DecodeStream, WholeHeaders, ParseSegment, EncodeAll;
    StreamRoundTrip(fs);
    SegmentMatchesReference(p, Idle, EncodeAll(fs));
    assert [EncodeAll(fs)][1..] == [];
  }

  // For every non-empty message, every run of sends and acknowledgements (masked or not, either
  // kind of message) and every segmentation of the bytes so far that splits no header, a receiver that
  // stands between two frames sees exactly the emitted frames and the application exactly the text sent so far.
  lemma EndToEnd(kind: Kind, orig: bytes, opcode: byte, mask: bool, events: seq<Event>, p: Parser, segs: seq<bytes>)
    requires orig != []
    requires AllowedRun(NewMessage(kind, orig, opcode, mask), events)
    requires Concat(segs) == Run(Start(kind, orig, opcode, mask), events).wire
    requires !p.pstate && WholeSegments(p, segs)
    ensures var t := Run(Start(kind, orig, opcode, mask), events);
            var chunks := ParseSegments(p, segs).chunks;
            && t.m.sent <= |orig|
            && Contiguous(Idle, chunks)
            && Assemble(Idle, chunks) == Decoded(AllReceived(t.frames), Idle)
            && LegalFragments(t.frames, opcode % 8, t.m.sent == |orig|)
            && Delivered(chunks) == orig[..t.m.sent]
            && (t.m.status.Sent? ==> Delivered(chunks) == orig)
  {
    var t := Run(Start(kind, orig, opcode, mask), events);
    hide Run, ParseSegments, WholeSegments, Assemble, Delivered;
    EveryRunFragmentsLegally(kind, orig, opcode, mask, events);
    FramesArrive(t.frames, p, segs);
    assert orig[..|orig|] == orig;
  }

  // The bytes of a run never need a split header: taken as one segment they are accepted.
  lemma OneSegmentIsWhole(kind: Kind, orig: bytes, opcode: byte, mask: bool, events: seq<Event>, p: Parser)
    requires orig != [] && !p.pstate
    requires AllowedRun(NewMessage(kind, orig, opcode, mask), events)
    ensures WholeSegments(p, [Run(Start(kind, orig, opcode, mask), events).wire])
  {
    hide Run, WholeSegments, EncodeAll;
    var t := Run(Start(kind, orig, opcode, mask), events);
    EveryRunFragmentsLegally(kind, orig, opcode, mask, events);
    EncodedIsWhole(t.frames, p);
  }
}
