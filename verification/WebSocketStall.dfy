/**
 * When AsyncWebSocketClient::_onData returns.  A frame header may announce a 64-bit length, and the loop
 * casts what is missing of it to a 32-bit size_t.
 */
module WebSocketStall {
  import opened Basics
  import opened WebSocketFrame
  import opened WebSocketReceiver

  // A frame that is open lacks something; it may be of any length.
  predicate Inside(p: Parser) {
    p.pstate ==> p.index < p.h.len
  }

  // What is missing of the current frame.
  function Left(p: Parser): nat
    requires Inside(p)
  {
    if p.pstate then p.h.len - p.index else 0
  }

  // No header is split at the end of the segment, whatever lengths the headers announce.
  predicate HeadersWhole(left: nat, bs: bytes)
    decreases |bs|
  {
    |bs| <= left
    || (HeaderComplete(bs[left..]) && HeadersWhole(ReadHeader(bs[left..]).len, AfterHeader(bs[left..])))
  }

  // Of every frame that lacks 2^32 bytes or more, the segment has at most the remainder modulo 2^32.
  predicate Fits(left: nat, bs: bytes)
    requires HeadersWhole(left, bs)
    decreases |bs|
  {
    if left >= SIZE_T then |bs| <= left % SIZE_T
    else |bs| <= left || Fits(ReadHeader(bs[left..]).len, AfterHeader(bs[left..]))
  }

  // The parser and the bytes ahead after k turns of the loop, or when it ends.
  function Turns(p: Parser, bs: bytes, k: nat): (r: (Parser, bytes))
    requires Inside(p) && HeadersWhole(Left(p), bs)
    decreases k
  {
    if k == 0 || bs == [] then (p, bs)
    else
      TurnStaysWhole(p, bs);
      var t := TurnAt(Begin(p, bs));
      Turns(t.p, t.rest, k - 1)
  }

  ghost predicate Returns(p: Parser, bs: bytes)
    requires Inside(p) && HeadersWhole(Left(p), bs)
  {
    exists k: nat :: Turns(p, bs, k).1 == []
  }

  // ---------- one turn ----------

  predicate PlaceWhole(at: Place) {
    at.index <= at.h.len && HeadersWhole(at.h.len - at.index, at.rest)
  }

  predicate TurnWhole(t: Turn) {
    Inside(t.p) && HeadersWhole(Left(t.p), t.rest)
  }

  lemma PlaceStaysWhole(at: Place)
    requires PlaceWhole(at)
    ensures TurnWhole(TurnAt(at))
  {
    hide HeadersWhole, Unmask;
    PieceStaysWhole(at.h.len - at.index, at.rest, ChunkSize(at.h, at.index, |at.rest|));
  }

  lemma PieceStaysWhole(left: nat, rest: bytes, n: nat)
    requires HeadersWhole(left, rest) && n <= |rest| && n <= left
    ensures HeadersWhole(left - n, rest[n..])
  {
    hide HeaderComplete, ReadHeader, AfterHeader;
    if left <= |rest| {
      assert rest[n..][left - n..] == rest[left..];
    }
  }

  lemma TurnStaysWhole(p: Parser, bs: bytes)
    requires Inside(p) && bs != [] && HeadersWhole(Left(p), bs)
    ensures !p.pstate ==> HeaderComplete(bs)
    ensures PlaceWhole(Begin(p, bs)) && TurnWhole(TurnAt(Begin(p, bs)))
  {
    hide HeadersWhole, Fits, TurnAt, HeaderComplete, ReadHeader, AfterHeader;
    BeginStaysWhole(p, bs);
    PlaceStaysWhole(Begin(p, bs));
  }

  // At a header.
  lemma AtHeader(bs: bytes)
    requires bs != [] && HeadersWhole(0, bs)
    ensures HeaderComplete(bs) && HeadersWhole(ReadHeader(bs).len, AfterHeader(bs))
    ensures Fits(0, bs) <==> Fits(ReadHeader(bs).len, AfterHeader(bs))
  {
    hide HeaderComplete, ReadHeader, AfterHeader;
    assert bs[0..] == bs;
  }

  // Reading a header changes nothing about the fit of the segment.
  predicate BeginFits(left: nat, bs: bytes, at: Place)
    requires HeadersWhole(left, bs) && PlaceWhole(at)
  {
    Fits(left, bs) <==> Fits(at.h.len - at.index, at.rest)
  }

  lemma BeginStaysWhole(p: Parser, bs: bytes)
    requires Inside(p) && bs != [] && HeadersWhole(Left(p), bs)
    ensures !p.pstate ==> HeaderComplete(bs)
    ensures PlaceWhole(Begin(p, bs)) && BeginFits(Left(p), bs, Begin(p, bs))
    ensures var at := Begin(p, bs); if p.pstate then at.rest == bs && at.index < at.h.len else |at.rest| < |bs|
  {
    hide HeaderComplete, ReadHeader, HeadersWhole, Fits;
    if !p.pstate {
      AtHeader(bs);
    }
  }

  // A turn changes nothing about it either, and takes bytes off the segment if it fits.
  predicate KeepsFit(at: Place, t: Turn)
    requires PlaceWhole(at) && TurnWhole(t)
  {
    && (Fits(at.h.len - at.index, at.rest) <==> Fits(Left(t.p), t.rest))
    && |t.rest| <= |at.rest|
    && (Fits(at.h.len - at.index, at.rest) && at.index < at.h.len && at.rest != [] ==> |t.rest| < |at.rest|)
  }

  lemma PlaceKeepsFit(at: Place)
    requires PlaceWhole(at)
    ensures TurnWhole(TurnAt(at)) && KeepsFit(at, TurnAt(at))
  {
    hide HeaderComplete, ReadHeader, AfterHeader, Unmask, HeadersWhole, Fits;
    var left, n := at.h.len - at.index, ChunkSize(at.h, at.index, |at.rest|);
    PlaceStaysWhole(at);
    PieceKeepsFit(left, at.rest, n);
  }

  lemma PieceKeepsFit(left: nat, rest: bytes, n: nat)
    requires HeadersWhole(left, rest) && n == if left % SIZE_T < |rest| then left % SIZE_T else |rest|
    ensures n <= left && n <= |rest| && HeadersWhole(left - n, rest[n..])
    ensures Fits(left, rest) <==> Fits(left - n, rest[n..])
    ensures Fits(left, rest) && left > 0 && rest != [] ==> n > 0
  {
    hide HeaderComplete, ReadHeader, AfterHeader;
    if left >= SIZE_T {
      LongRemainder(left);
    } else {
      SmallMod(left);
    }
    if left <= |rest| {
      assert rest[n..][left - n..] == rest[left..];
    }
  }

  lemma LongRemainder(n: nat)
    requires n >= SIZE_T
    ensures n - n % SIZE_T >= SIZE_T && (n - n % SIZE_T) % SIZE_T == 0
  {
  }

  // ---------- the loop ----------

  lemma {:induction false} FittingReturns(p: Parser, bs: bytes) returns (k: nat)
    requires Inside(p) && HeadersWhole(Left(p), bs) && Fits(Left(p), bs)
    ensures Turns(p, bs, k).1 == []
    decreases |bs|
  {
    hide Fits, HeadersWhole, Begin, TurnAt;
    if bs == [] {
      k := 0;
    } else {
      BeginStaysWhole(p, bs);
      PlaceKeepsFit(Begin(p, bs));
      var t := TurnAt(Begin(p, bs));
      k := FittingReturns(t.p, t.rest);
      k := k + 1;
    }
  }

  lemma {:induction false} OthersGoOn(p: Parser, bs: bytes, k: nat)
    requires Inside(p) && HeadersWhole(Left(p), bs) && !Fits(Left(p), bs)
    ensures Turns(p, bs, k).1 != []
    decreases k
  {
    hide Fits, HeadersWhole, Begin, TurnAt;
    NothingFits(p);
    if k == 0 {
    } else {
      BeginStaysWhole(p, bs);
      PlaceKeepsFit(Begin(p, bs));
      var t := TurnAt(Begin(p, bs));
      OthersGoOn(t.p, t.rest, k - 1);
    }
  }

  lemma NothingFits(p: Parser)
    requires Inside(p)
    ensures HeadersWhole(Left(p), []) && Fits(Left(p), [])
  {
  }

  // Main result: a call returns if and only if the segment has, of every frame that lacks 2^32 bytes or
  // more, at most what is missing modulo 2^32.
  lemma ReturnsIff(p: Parser, bs: bytes)
    requires Inside(p) && HeadersWhole(Left(p), bs)
    ensures Returns(p, bs) <==> Fits(Left(p), bs)
  {
    hide Turns, Fits, HeadersWhole;
    if Fits(Left(p), bs) {
      var k := FittingReturns(p, bs);
      assert Turns(p, bs, k).1 == [];
    } else {
      forall k: nat
        ensures Turns(p, bs, k).1 != []
      {
        OthersGoOn(p, bs, k);
      }
    }
  }

  // Eleven bytes: a binary frame that announces 2^32 bytes, and the first of them.
  lemma ElevenBytesHang(x: byte)
    ensures var bs: bytes := [130, 127, 0, 0, 0, 1, 0, 0, 0, 0, x];
            HeadersWhole(Left(FRESH), bs) && !Returns(FRESH, bs)
  {
    var ext: bytes := [0, 0, 0, 1, 0, 0, 0, 0];
    var bs: bytes := [130, 127, 0, 0, 0, 1, 0, 0, 0, 0, x];
    assert bs == [130, 127] + ext + [] + [x];
    ReadParts(130, 127, ext, [], [x]);
    FourGigabytes();
    assert bs[0..] == bs && AfterHeader(bs) == [x];
    assert HeadersWhole(SIZE_T, [x]) && !Fits(SIZE_T, [x]);
    ReturnsIff(FRESH, bs);
  }

  lemma FourGigabytes()
    ensures BigEndian([0, 0, 0, 1, 0, 0, 0, 0]) == SIZE_T
  {
    var a: bytes := [0, 0, 0, 1, 0, 0, 0, 0];
    assert a[..7] == [0, 0, 0, 1, 0, 0, 0] && a[..7][..6] == [0, 0, 0, 1, 0, 0];
    assert [0, 0, 0, 1, 0, 0][..5] == [0, 0, 0, 1, 0] && [0, 0, 0, 1, 0][..4] == [0, 0, 0, 1];
    assert [0, 0, 0, 1][..3] == [0, 0, 0] && [0, 0, 0][..2] == [0, 0] && [0, 0][..1] == [0] && [0][..0] == [];
  }
}
