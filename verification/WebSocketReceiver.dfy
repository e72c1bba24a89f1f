/**
 * AsyncWebSocketClient::_onData as a function: a parser that is resumed with every TCP segment
 * and keeps its place in the current frame in _pstate and _pinfo.  Its partner is DecodeStream,
 * which reads a whole byte stream frame by frame; the two are proved to agree for every
 * segmentation that splits no header.
 */
module WebSocketReceiver {
  import opened Basics
  import opened WebSocketFrame

  const SIZE_T: nat := 0x1_0000_0000

  // ---------- the resumable parser ----------

  // _pstate, and the parts of _pinfo that outlive a segment.
  datatype Parser = Parser(pstate: bool, h: Header, index: nat)

  // One turn of the loop hands on one chunk of one frame, already unmasked.
  datatype Chunk = Chunk(h: Header, index: nat, data: bytes) {
    predicate Last() { index + |data| == h.len }
  }

  const FRESH := Parser(false, Header(false, 0, false, 0, NO_KEY), 0)

  predicate ParserValid(p: Parser) {
    p.pstate ==> p.index < p.h.len < SIZE_T
  }

  // Payload bytes of the current frame that have not been seen.
  function Missing(p: Parser): nat
    requires ParserValid(p)
  {
    if p.pstate then p.h.len - p.index else 0
  }

  // No header is split at the end of this segment, and no frame is longer than a size_t can say.
  // missing is what the current frame still lacks when the segment begins.
  predicate WholeHeaders(missing: nat, bs: bytes)
    decreases |bs|, 1
  {
    if bs == [] then true
    else if missing > 0 then WholePayload(missing, bs)
    else HeaderComplete(bs) && ReadHeader(bs).len < SIZE_T && WholePayload(ReadHeader(bs).len, AfterHeader(bs))
  }

  // The same from inside a frame that lacks n bytes.
  predicate WholePayload(n: nat, bs: bytes)
    decreases |bs|, if n > 0 then 0 else 2
  {
    n <= |bs| ==> WholeHeaders(0, bs[n..])
  }

  function AfterHeader(bs: bytes): (rest: bytes)
    requires HeaderComplete(bs)
    ensures |rest| < |bs|
  {
    bs[HeaderSize(bs[1])..]
  }

  // Where a turn of the loop starts: the header in force, the index in its frame, the bytes ahead.
  datatype Place = Place(h: Header, index: nat, rest: bytes)

  function Begin(p: Parser, bs: bytes): Place
    requires !p.pstate ==> HeaderComplete(bs)
  {
    if p.pstate then Place(p.h, p.index, bs) else Place(ReadHeader(bs), 0, AfterHeader(bs))
  }

  // std::min((size_t)(len - index), plen)
  function ChunkSize(h: Header, index: nat, avail: nat): nat
    requires index <= h.len
  {
    var left := (h.len - index) % SIZE_T;
    if left < avail then left else avail
  }

  datatype Turn = Turn(p: Parser, c: Chunk, rest: bytes)

  function TurnAt(at: Place): Turn
    requires at.index <= at.h.len
  {
    var n := ChunkSize(at.h, at.index, |at.rest|);
    var c := Chunk(at.h, at.index, Unmask(at.h, at.index, at.rest[..n]));
    Turn(if c.Last() then Parser(false, at.h, at.index) else Parser(true, at.h, at.index + n), c, at.rest[n..])
  }

  function OneTurn(p: Parser, bs: bytes): Turn
    requires ParserValid(p) && bs != [] && (!p.pstate ==> HeaderComplete(bs))
  {
    TurnAt(Begin(p, bs))
  }

  datatype Parsed = Parsed(p: Parser, chunks: seq<Chunk>)

  function ParseSegment(p: Parser, bs: bytes): Parsed
    requires ParserValid(p) && WholeHeaders(Missing(p), bs)
    decreases |bs|
  {
    if bs == [] then Parsed(p, [])
    else
      TurnKeepsWhole(p, bs);
      var t := OneTurn(p, bs);
      var r := ParseSegment(t.p, t.rest);
      Parsed(r.p, [t.c] + r.chunks)
  }

  // A turn makes progress, keeps pstate == 1 ==> index < len, and leaves a whole-header rest.
  // index + |data| never exceeds len, so the frame error branch is not taken.
  lemma TurnKeepsWhole(p: Parser, bs: bytes)
    requires ParserValid(p) && bs != [] && WholeHeaders(Missing(p), bs)
    ensures !p.pstate ==> HeaderComplete(bs)
    ensures var t := OneTurn(p, bs);
            && ParserValid(t.p) && |t.rest| < |bs| && WholeHeaders(Missing(t.p), t.rest)
            && t.c.index + |t.c.data| <= t.c.h.len < SIZE_T
            && (!t.c.Last() ==> t.rest == [])
  {
    TurnAtKeepsWhole(Begin(p, bs));
  }

  lemma TurnAtKeepsWhole(at: Place)
    requires at.index <= at.h.len < SIZE_T && WholePayload(at.h.len - at.index, at.rest)
    ensures var t := TurnAt(at);
            && ParserValid(t.p) && WholeHeaders(Missing(t.p), t.rest)
            && |t.rest| <= |at.rest| && (at.index < at.h.len && at.rest != [] ==> |t.rest| < |at.rest|)
            && t.c.index + |t.c.data| <= t.c.h.len
            && (if at.h.len - at.index <= |at.rest|
                then t.c.Last() && t.rest == at.rest[at.h.len - at.index..]
                else !t.c.Last() && t.rest == [])
            && t.c == Chunk(at.h, at.index, Unmask(at.h, at.index, at.rest[..|at.rest| - |t.rest|]))
            && t.p == Parser(!t.c.Last(), at.h, if t.c.Last() then at.index else at.index + |at.rest|)
  {
    hide HeaderComplete, ReadHeader, AfterHeader, Unmask;
    var n := at.h.len - at.index;
    SmallMod(n);
  }

  lemma SmallMod(n: nat)
    requires n < SIZE_T
    ensures n % SIZE_T == n
  {
  }

  // A handler that writes a terminator after an empty chunk, which _onData does not undo, changes
  // how the next frame of the segment is read exactly when that byte carried FIN or opcode bits.
  lemma TerminatorAfterEmptyFrameIff(rest: bytes)
    requires HeaderComplete(rest)
    ensures HeaderComplete(rest[0 := 0])
    ensures ReadHeader(rest[0 := 0]) == ReadHeader(rest) <==> rest[0] < 128 && rest[0] % 16 == 0
  {
    var e := 2 + ExtendedSize(rest[1]);
    assert rest[0 := 0][2..e] == rest[2..e];
    assert rest[0 := 0][e..HeaderSize(rest[1])] == rest[e..HeaderSize(rest[1])];
  }

  // ---------- the reference decoder ----------

  datatype Received = Received(h: Header, payload: bytes)

  // A frame whose payload has not all arrived.
  datatype Pending = Idle | Open(h: Header, got: bytes)

  predicate PendingValid(q: Pending) {
    q.Open? ==> |q.got| < q.h.len < SIZE_T
  }

  function Lacking(q: Pending): nat
    requires PendingValid(q)
  {
    if q.Open? then q.h.len - |q.got| else 0
  }

  datatype Decoded = Decoded(frames: seq<Received>, left: Pending) {
    function After(earlier: seq<Received>): Decoded { Decoded(earlier + frames, left) }
  }

  // got, and the payload bytes that follow it.
  function Gain(h: Header, got: bytes, bs: bytes): (r: bytes)
    ensures |r| == |got| + |bs|
  {
    got + Unmask(h, |got|, bs)
  }

  lemma GainSplit(h: Header, got: bytes, a: bytes, b: bytes)
    ensures Gain(h, got, a + b) == Gain(h, Gain(h, got, a), b)
  {
    hide Unmask;
    UnmaskSplit(h, |got|, a, b);
    Associative(got, Unmask(h, |got|, a), Unmask(h, |got| + |a|, b));
  }

  // A payload from the place where got ends.
  function DecodePayload(h: Header, got: bytes, bs: bytes): Decoded
    requires |got| <= h.len < SIZE_T && WholePayload(h.len - |got|, bs)
    decreases |bs|, if h.len > |got| then 0 else 2
  {
    var n := h.len - |got|;
    if |bs| < n then Decoded([], Open(h, Gain(h, got, bs)))
    else DecodeStream(Idle, bs[n..]).After([Received(h, Gain(h, got, bs[..n]))])
  }

  function DecodeStream(q: Pending, bs: bytes): Decoded
    requires PendingValid(q) && WholeHeaders(Lacking(q), bs)
    decreases |bs|, 1
  {
    if bs == [] then Decoded([], q)
    else if q.Open? then DecodePayload(q.h, q.got, bs)
    else DecodePayload(ReadHeader(bs), [], AfterHeader(bs))
  }

  // ---------- chunks put together ----------

  // Chunks follow one another inside a frame, with contiguous index values.
  predicate Contiguous(q: Pending, cs: seq<Chunk>)
    decreases |cs|
  {
    cs == [] ||
    (Joins(q, cs[0]) && Contiguous(Join(q, cs[0]).left, cs[1..]))
  }

  predicate Joins(q: Pending, c: Chunk) {
    && c.index + |c.data| <= c.h.len
    && match q
       case Idle => c.index == 0
       case Open(h, got) => c.h == h && c.index == |got|
  }

  function Join(q: Pending, c: Chunk): Decoded {
    var got := (if q.Open? then q.got else []) + c.data;
    if c.Last() then Decoded([Received(c.h, got)], Idle) else Decoded([], Open(c.h, got))
  }

  function Assemble(q: Pending, cs: seq<Chunk>): Decoded
    requires Contiguous(q, cs)
    decreases |cs|
  {
    if cs == [] then Decoded([], q)
    else
      var d := Join(q, cs[0]);
      Assemble(d.left, cs[1..]).After(d.frames)
  }

  lemma {:induction false} AssembleAppend(q: Pending, a: seq<Chunk>, b: seq<Chunk>)
    requires Contiguous(q, a) && Contiguous(Assemble(q, a).left, b)
    ensures Contiguous(q, a + b)
    ensures Assemble(q, a + b) == Assemble(Assemble(q, a).left, b).After(Assemble(q, a).frames)
    decreases |a|
  {
    if a == [] {
      assert a + b == b;
    } else {
      var d := Join(q, a[0]);
      AssembleAppend(d.left, a[1..], b);
      assert (a + b)[1..] == a[1..] + b;
      var rest := Assemble(d.left, a[1..]);
      AfterAfter(Assemble(rest.left, b), rest.frames, d.frames);
    }
  }

  lemma AfterAfter(d: Decoded, x: seq<Received>, y: seq<Received>)
    ensures d.After(x).After(y) == d.After(y + x)
  {
  }

  // ---------- one segment ----------

  // The parser and the reference stand at the same place.
  predicate Same(p: Parser, q: Pending) {
    && (p.pstate <==> q.Open?)
    && (q.Open? ==> p.h == q.h && p.index == |q.got|)
  }

  lemma {:induction false} SegmentMatchesReference(p: Parser, q: Pending, bs: bytes)
    requires ParserValid(p) && PendingValid(q) && Same(p, q) && WholeHeaders(Missing(p), bs)
    ensures var r := ParseSegment(p, bs);
            && ParserValid(r.p)
            && Contiguous(q, r.chunks)
            && Assemble(q, r.chunks) == DecodeStream(q, bs)
            && PendingValid(DecodeStream(q, bs).left)
            && Same(r.p, DecodeStream(q, bs).left)
    decreases |bs|
  {
    if bs != [] {
      TurnKeepsWhole(p, bs);
      var t := OneTurn(p, bs);
      var d := Join(q, t.c);
      SegmentMatchesReference(t.p, d.left, t.rest);
      TurnMatchesReference(p, q, bs);
    }
  }

  lemma TurnMatchesReference(p: Parser, q: Pending, bs: bytes)
    requires ParserValid(p) && PendingValid(q) && Same(p, q) && bs != [] && WholeHeaders(Missing(p), bs)
    requires !p.pstate ==> HeaderComplete(bs)
    ensures var t := OneTurn(p, bs);
            var d := Join(q, t.c);
            && Joins(q, t.c) && PendingValid(d.left) && ParserValid(t.p) && Same(t.p, d.left)
            && WholeHeaders(Missing(t.p), t.rest)
            && DecodeStream(q, bs) == DecodeStream(d.left, t.rest).After(d.frames)
  {
    hide ReadHeader, HeaderComplete, AfterHeader, Gain, TurnAt;
    var at := Begin(p, bs);
    var got: bytes := if q.Open? then q.got else [];
    TurnAtKeepsWhole(at);
    PlaceMatchesReference(at, q, got);
    assert DecodeStream(q, bs) == DecodePayload(at.h, got, at.rest);
  }

  lemma PlaceMatchesReference(at: Place, q: Pending, got: bytes)
    requires at.index <= at.h.len < SIZE_T && WholePayload(at.h.len - at.index, at.rest)
    requires |got| == at.index && PendingValid(q)
    requires if q.Open? then q == Open(at.h, got) else got == []
    ensures var t := TurnAt(at);
            var d := Join(q, t.c);
            && Joins(q, t.c) && PendingValid(d.left) && ParserValid(t.p) && Same(t.p, d.left)
            && Lacking(d.left) == Missing(t.p) && WholeHeaders(Lacking(d.left), t.rest)
            && DecodePayload(at.h, got, at.rest) == DecodeStream(d.left, t.rest).After(d.frames)
  {
    hide DecodePayload, DecodeStream, WholeHeaders, WholePayload, TurnAt, Gain, Joins, Join, Same;
    PlaceJoins(at, q, got);
    var n := at.h.len - |got|;
    if n <= |at.rest| {
      LastChunkDecodes(at.h, got, at.rest);
    } else {
      OpenChunkDecodes(at.h, got, at.rest);
      NothingDecodes(Open(at.h, Gain(at.h, got, at.rest)));
    }
  }

  // The chunk of one turn continues the pending frame, and ends it if the payload is all there.
  lemma PlaceJoins(at: Place, q: Pending, got: bytes)
    requires at.index <= at.h.len < SIZE_T && WholePayload(at.h.len - at.index, at.rest)
    requires |got| == at.index && PendingValid(q)
    requires if q.Open? then q == Open(at.h, got) else got == []
    ensures var t, n := TurnAt(at), at.h.len - |got|;
            var d := Join(q, t.c);
            && Joins(q, t.c) && PendingValid(d.left) && ParserValid(t.p) && Same(t.p, d.left)
            && Lacking(d.left) == Missing(t.p) && WholeHeaders(Lacking(d.left), t.rest)
            && (if n <= |at.rest|
                then t.rest == at.rest[n..] && d == Decoded([Received(at.h, Gain(at.h, got, at.rest[..n]))], Idle)
                else t.rest == [] && d == Decoded([], Open(at.h, Gain(at.h, got, at.rest))))
  {
    hide WholeHeaders, TurnAt, Unmask, HeaderComplete, ReadHeader, AfterHeader;
    TurnIs(at);
    WholeAfterPayload(at.h.len - at.index, at.rest);
  }

  // One turn spelled out: the rest of the payload, or all the bytes ahead.
  lemma TurnIs(at: Place)
    requires at.index <= at.h.len < SIZE_T
    ensures var n := at.h.len - at.index;
            TurnAt(at) ==
              if n <= |at.rest|
              then Turn(Parser(false, at.h, at.index), Chunk(at.h, at.index, Unmask(at.h, at.index, at.rest[..n])),
                        at.rest[n..])
              else Turn(Parser(true, at.h, at.index + |at.rest|),
                        Chunk(at.h, at.index, Unmask(at.h, at.index, at.rest)), [])
  {
    hide Unmask;
    SmallMod(at.h.len - at.index);
    assert at.rest[..|at.rest|] == at.rest;
  }

  lemma WholeAfterPayload(n: nat, bs: bytes)
    requires WholePayload(n, bs)
    ensures n <= |bs| ==> WholeHeaders(0, bs[n..])
    ensures forall k: nat :: WholeHeaders(k, [])
  {
  }

  // One step of the reference decoder in each case.
  lemma LastChunkDecodes(h: Header, got: bytes, bs: bytes)
    requires |got| <= h.len < SIZE_T && h.len - |got| <= |bs| && WholePayload(h.len - |got|, bs)
    ensures var n := h.len - |got|;
            && WholeHeaders(0, bs[n..])
            && DecodePayload(h, got, bs) == DecodeStream(Idle, bs[n..]).After([Received(h, Gain(h, got, bs[..n]))])
  {
    hide DecodeStream, WholeHeaders, Gain;
  }

  lemma OpenChunkDecodes(h: Header, got: bytes, bs: bytes)
    requires |got| <= h.len < SIZE_T && |bs| < h.len - |got|
    ensures DecodePayload(h, got, bs) == Decoded([], Open(h, Gain(h, got, bs)))
  {
    hide DecodeStream, WholeHeaders, Gain;
  }

  lemma NothingDecodes(q: Pending)
    requires PendingValid(q)
    ensures WholeHeaders(Lacking(q), []) && DecodeStream(q, []) == Decoded([], q)
    ensures Decoded([], q).After([]) == Decoded([], q)
  {
  }

  // ---------- all segments ----------

  predicate WholeSegments(p: Parser, segs: seq<bytes>)
    requires ParserValid(p)
    decreases |segs|
  {
    segs == [] ||
    (&& WholeHeaders(Missing(p), segs[0])
     && ParserValid(ParseSegment(p, segs[0]).p)
     && WholeSegments(ParseSegment(p, segs[0]).p, segs[1..]))
  }

  function ParseSegments(p: Parser, segs: seq<bytes>): Parsed
    requires ParserValid(p) && WholeSegments(p, segs)
    decreases |segs|
  {
    if segs == [] then Parsed(p, [])
    else
      var r := ParseSegment(p, segs[0]);
      var s := ParseSegments(r.p, segs[1..]);
      Parsed(s.p, r.chunks + s.chunks)
  }

  function Concat(segs: seq<bytes>): bytes {
    if segs == [] then [] else segs[0] + Concat(segs[1..])
  }

  // Cutting a stream where no header is split does not change what is read from it.
  lemma {:induction false} DecodeSplit(q: Pending, a: bytes, b: bytes)
    requires PendingValid(q) && WholeHeaders(Lacking(q), a)
    requires PendingValid(DecodeStream(q, a).left) && WholeHeaders(Lacking(DecodeStream(q, a).left), b)
    ensures WholeHeaders(Lacking(q), a + b)
    ensures DecodeStream(q, a + b) == DecodeStream(DecodeStream(q, a).left, b).After(DecodeStream(q, a).frames)
    decreases |a|, 1
  {
    if a == [] {
      assert a + b == b;
    } else if q.Open? {
      PayloadSplit(q.h, q.got, a, b);
    } else {
      HeaderAppend(a, b);
      PayloadSplit(ReadHeader(a), [], AfterHeader(a), b);
    }
  }

  // Appending bytes leaves the first header as it was.
  lemma HeaderAppend(a: bytes, b: bytes)
    requires HeaderComplete(a)
    ensures HeaderComplete(a + b) && ReadHeader(a + b) == ReadHeader(a) && AfterHeader(a + b) == AfterHeader(a) + b
  {
    var e, size := 2 + ExtendedSize(a[1]), HeaderSize(a[1]);
    assert (a + b)[2..e] == a[2..e] && (a + b)[e..size] == a[e..size];
  }

  // The same cut from inside a frame.
  lemma {:induction false} PayloadSplit(h: Header, got: bytes, a: bytes, b: bytes)
    requires |got| <= h.len < SIZE_T && WholePayload(h.len - |got|, a)
    requires var d := DecodePayload(h, got, a); PendingValid(d.left) && WholeHeaders(Lacking(d.left), b)
    ensures WholePayload(h.len - |got|, a + b)
    ensures var d := DecodePayload(h, got, a);
            DecodePayload(h, got, a + b) == DecodeStream(d.left, b).After(d.frames)
    decreases |a|, if h.len > |got| then 0 else 2
  {
    hide ReadHeader, HeaderComplete, AfterHeader, Gain;
    var n := h.len - |got|;
    if n <= |a| {
      DecodeSplit(Idle, a[n..], b);
      assert (a + b)[n..] == a[n..] + b && (a + b)[..n] == a[..n];
      var d := DecodeStream(Idle, a[n..]);
      AfterAfter(DecodeStream(d.left, b), d.frames, [Received(h, Gain(h, got, a[..n]))]);
    } else if b == [] {
      assert a + b == a;
    } else {
      OpenPayloadSplit(h, got, a, b);
    }
  }

  // A cut in the middle of the payload.
  lemma OpenPayloadSplit(h: Header, got: bytes, a: bytes, b: bytes)
    requires |got| <= h.len < SIZE_T && |a| < h.len - |got| && b != []
    requires WholePayload(h.len - |got| - |a|, b)
    ensures WholePayload(h.len - |got|, a + b)
    ensures DecodePayload(h, got, a + b) == DecodePayload(h, Gain(h, got, a), b)
  {
    hide ReadHeader, HeaderComplete, AfterHeader, Gain;
    var n := h.len - |got|;
    var m := n - |a|;
    if m <= |b| {
      assert (a + b)[n..] == b[m..] && (a + b)[..n] == a + b[..m];
      GainSplit(h, got, a, b[..m]);
    } else {
      GainSplit(h, got, a, b);
    }
  }

  // Main result for the parser: for every segmentation that splits no header, the chunks it hands
  // on, put together, are the frames of the whole stream.
  lemma {:induction false} SegmentationMatchesReference(p: Parser, q: Pending, segs: seq<bytes>)
    requires ParserValid(p) && PendingValid(q) && Same(p, q) && WholeSegments(p, segs)
    ensures WholeHeaders(Lacking(q), Concat(segs))
    ensures var r := ParseSegments(p, segs);
            && Contiguous(q, r.chunks)
            && Assemble(q, r.chunks) == DecodeStream(q, Concat(segs))
            && Same(r.p, DecodeStream(q, Concat(segs)).left)
    decreases |segs|
  {
    if segs != [] {
      SegmentMatchesReference(p, q, segs[0]);
      var r := ParseSegment(p, segs[0]);
      var d := DecodeStream(q, segs[0]);
      SegmentationMatchesReference(r.p, d.left, segs[1..]);
      var s := ParseSegments(r.p, segs[1..]);
      AssembleAppend(q, r.chunks, s.chunks);
      DecodeSplit(q, segs[0], Concat(segs[1..]));
    }
  }

  // From wherever the parser stands, any two such segmentations of one stream deliver the same frames
  // with the same payloads, and leave the parser at the same place.
  lemma SegmentationInvariance(p: Parser, q: Pending, segs1: seq<bytes>, segs2: seq<bytes>)
    requires ParserValid(p) && PendingValid(q) && Same(p, q)
    requires Concat(segs1) == Concat(segs2) && WholeSegments(p, segs1) && WholeSegments(p, segs2)
    ensures var r1, r2 := ParseSegments(p, segs1), ParseSegments(p, segs2);
            && Contiguous(q, r1.chunks) && Contiguous(q, r2.chunks)
            && Assemble(q, r1.chunks) == Assemble(q, r2.chunks)
            && (r1.p.pstate <==> r2.p.pstate)
            && (r1.p.pstate ==> r1.p == r2.p)
  {
    SegmentationMatchesReference(p, q, segs1);
    SegmentationMatchesReference(p, q, segs2);
  }
}
