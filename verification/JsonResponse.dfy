/**
 * The windowed JSON response: ChunkPrint serialises the whole document again for every TCP window and keeps
 * only the bytes of that window, and AsyncAbstractResponse::_ack sends head and windows as room appears.
 */
module JsonResponse {
  import opened Basics

  function Min(a: nat, b: nat): nat {
    if a < b then a else b
  }

  // ---------- windows ----------

  // The next piece of all, from position from, that fits into room.
  function Window(all: bytes, from: nat, room: nat): (w: bytes)
    requires from <= |all|
    ensures from + |w| <= |all|
  {
    all[from..Min(|all|, from + room)]
  }

  function Sum(rooms: seq<nat>): nat {
    if rooms == [] then 0 else rooms[0] + Sum(rooms[1..])
  }

  // What goes out when the rooms are offered one after another.
  function Stream(all: bytes, from: nat, rooms: seq<nat>): bytes
    requires from <= |all|
    decreases |rooms|
  {
    if rooms == [] then []
    else
      var w := Window(all, from, rooms[0]);
      w + Stream(all, from + |w|, rooms[1..])
  }

  // Any split into windows sends the same bytes: as many as there is room for, in order, none twice.
  lemma {:induction false} WindowsStitch(all: bytes, from: nat, rooms: seq<nat>)
    requires from <= |all|
    ensures Stream(all, from, rooms) == Window(all, from, Sum(rooms))
    ensures Stream(all, from, rooms) == if from + Sum(rooms) < |all| then all[from..from + Sum(rooms)] else all[from..]
    decreases |rooms|
  {
    hide Window;
    WindowIs(all, from, Sum(rooms));
    if rooms == [] {
      NoRoom(all, from);
    } else {
      TwoWindows(all, from, rooms[0], Sum(rooms[1..]));
      WindowsStitch(all, from + |Window(all, from, rooms[0])|, rooms[1..]);
    }
  }

  lemma WindowIs(all: bytes, from: nat, room: nat)
    requires from <= |all|
    ensures Window(all, from, room) == if from + room < |all| then all[from..from + room] else all[from..]
  {
  }

  lemma NoRoom(all: bytes, from: nat)
    requires from <= |all|
    ensures Window(all, from, 0) == []
  {
  }

  lemma TwoWindows(all: bytes, from: nat, a: nat, b: nat)
    requires from <= |all|
    ensures var w := Window(all, from, a);
            from + |w| <= |all| && Window(all, from, a + b) == w + Window(all, from + |w|, b)
  {
  }

  // ---------- ChunkPrint ----------

  class ChunkPrint {
    // the buffer, and the position in it where the window starts
    const destination: array<byte>
    const base: nat
    var toSkip: nat
    var toWrite: nat
    var pos: nat

    ghost predicate Valid()
      reads this
    {
      base + pos + toWrite <= destination.Length
    }

    constructor (destination: array<byte>, base: nat, from: nat, len: nat)
      requires base + len <= destination.Length
      ensures Valid() && this.destination == destination && this.base == base
      ensures toSkip == from && toWrite == len && pos == 0
    {
      this.destination, this.base := destination, base;
      toSkip, toWrite, pos := from, len, 0;
    }

    // One byte: skipped, stored, or refused once the window is full.
    method Write(c: byte) returns (n: nat)
      requires Valid()
      modifies this, destination
      ensures Valid() && n == if old(toSkip + toWrite) > 0 then 1 else 0
      ensures old(toSkip) > 0 ==>
                toSkip == old(toSkip) - 1 && toWrite == old(toWrite) && pos == old(pos)
                && destination[..] == old(destination[..])
      ensures old(toSkip) == 0 < old(toWrite) ==>
                toSkip == 0 && toWrite == old(toWrite) - 1 && pos == old(pos) + 1
                && destination[..] == old(destination[..])[base + old(pos) := c]
      ensures old(toSkip) == 0 == old(toWrite) ==>
                toSkip == 0 && toWrite == 0 && pos == old(pos) && destination[..] == old(destination[..])
    {
      if toSkip > 0 {
        toSkip := toSkip - 1;
        return 1;
      } else if toWrite > 0 {
        toWrite := toWrite - 1;
        destination[base + pos] := c;
        pos := pos + 1;
        return 1;
      }
      return 0;
    }

    // The buffer form: every byte in turn.
    method WriteAll(buffer: bytes)
      requires Valid() && pos == 0 && base + toWrite <= destination.Length
      modifies this, destination
      ensures Printed(buffer, |buffer|, old(toSkip), old(toWrite), old(destination[..]))
    {
      ghost var from, len, before := toSkip, toWrite, destination[..];
      var k := 0;
      assert Placed(before, base, []) == before;
      while k < |buffer|
        invariant k <= |buffer| && Printed(buffer, k, from, len, before)
      {
        WriteNext(buffer, k, from, len, before);
        k := k + 1;
      }
    }

    method WriteNext(buffer: bytes, k: nat, ghost from: nat, ghost len: nat, ghost before: bytes)
      requires k < |buffer| && Printed(buffer, k, from, len, before)
      modifies this, destination
      ensures Printed(buffer, k + 1, from, len, before)
    {
      ghost var piece := Piece(buffer, k, from, len);
      NextPiece(buffer, k, from, len);
      if |piece| < len {
        PlacedOneMore(before, base, piece, buffer[k]);
      }
      hide Placed, Piece;
      var _ := Write(buffer[k]);
    }

    // After the first k bytes of all: the window holds what those have of it, the rest is untouched.
    ghost predicate Printed(all: bytes, k: nat, from: nat, len: nat, before: bytes)
      requires k <= |all|
      reads this, destination
    {
      && base + len <= destination.Length == |before|
      && toSkip == (if k < from then from - k else 0)
      && pos == Stored(k, from, len) && toWrite == len - pos
      && destination[..] == Placed(before, base, Piece(all, k, from, len))
    }
  }

  // How many of the first k bytes are stored, and which.
  function Stored(k: nat, from: nat, len: nat): nat {
    Min(len, if k < from then 0 else k - from)
  }

  function Piece(all: bytes, k: nat, from: nat, len: nat): (piece: bytes)
    requires k <= |all|
    ensures |piece| == Stored(k, from, len)
  {
    if k < from then [] else all[from..from + Stored(k, from, len)]
  }

  lemma NextPiece(all: bytes, k: nat, from: nat, len: nat)
    requires k < |all|
    ensures Piece(all, k + 1, from, len)
         == Piece(all, k, from, len) + if from <= k && Stored(k, from, len) < len then [all[k]] else []
  {
  }

  // before, with piece stored at base.
  function Placed(before: bytes, base: nat, piece: bytes): (after: bytes)
    requires base + |piece| <= |before|
    ensures |after| == |before|
  {
    before[..base] + piece + before[base + |piece|..]
  }

  lemma PlacedOneMore(before: bytes, base: nat, piece: bytes, c: byte)
    requires base + |piece| < |before|
    ensures Placed(before, base, piece)[base + |piece| := c] == Placed(before, base, piece + [c])
  {
  }

  // ---------- AsyncJsonResponse ----------

  datatype State = Headers | Content | WaitAck | End | Failed

  class AsyncJsonResponse {
    // the assembled head and the serialised document
    const fullHead: bytes
    const content: bytes
    // the part of the head still to be sent
    var head: bytes
    var state: State
    var sentLength: nat
    var writtenLength: nat
    var ackedLength: nat
    // everything handed to the TCP client
    var wire: bytes

    ghost predicate Valid()
      reads this
    {
      && writtenLength == |wire| && sentLength <= |content|
      && (state != Failed ==> Whole(wire, head, content[sentLength..], fullHead + content))
      && (state.Headers? ==> sentLength == 0)
      && (state.Content? ==> head == [] && sentLength < |content|)
      && (state.WaitAck? || state.End? ==> head == [] && sentLength == |content|)
      && (state.End? ==> ackedLength >= writtenLength)
    }

    constructor (fullHead: bytes, content: bytes)
      ensures Valid() && state == Headers && wire == []
      ensures this.fullHead == fullHead && this.content == content
    {
      this.fullHead, this.content, head := fullHead, content, fullHead;
      state, sentLength, writtenLength, ackedLength, wire := Headers, 0, 0, 0, [];
    }

    // Prints the whole document through a window; claims len bytes, which is true of those the document has.
    method FillBuffer(data: array<byte>, base: nat, len: nat) returns (n: nat)
      requires base + len <= data.Length && sentLength <= |content|
      modifies data
      ensures n == len
      ensures data[..] == Placed(old(data[..]), base, Window(content, sentLength, len))
      ensures n == |Window(content, sentLength, len)| <==> sentLength + len <= |content|
    {
      var dest := new ChunkPrint(data, base, sentLength, len);
      dest.WriteAll(content);
      return len;
    }

    // _ack: the next bytes of head and document, as many as fit.
    method Ack(len: nat, space: nat) returns (n: nat)
      requires Valid()
      modifies this
      ensures Valid() && ackedLength == old(ackedLength) + if content == [] then 0 else len
      ensures content == [] ==> state == Failed && wire == old(wire) && n == 0
      ensures content != [] && old(state) != Failed ==>
                state != Failed && |old(wire)| <= |fullHead + content|
                && wire == old(wire) + Window(fullHead + content, |old(wire)|, space)
                && n == |wire| - |old(wire)|
      ensures content != [] && old(state) in {Headers, Content} ==>
                (state == WaitAck <==> wire == fullHead + content)
      ensures content != [] && old(state) == WaitAck ==> (state == End <==> ackedLength >= |wire|)
    {
      if content == [] {
        state := Failed;
        return 0;
      }
      ackedLength := ackedLength + len;
      ghost var w := |wire|;
      if state == Headers && space < |head| {
        HeadPiece(wire, head, content, space, fullHead + content);
        n := space;
        wire, head := wire + head[..space], head[space..];
        writtenLength := writtenLength + n;
      } else if state == Headers || state == Content {
        n := SendContent(if state == Headers then space - |head| else space);
      } else {
        n := 0;
        if state == WaitAck && ackedLength >= writtenLength {
          state := End;
        }
      }
    }

    // Head and content in one buffer, cut to what is left of the content.
    method SendContent(space: nat) returns (n: nat)
      requires Valid() && content != [] && (state == Headers || state == Content)
      modifies this
      ensures Valid() && ackedLength == old(ackedLength) && head == []
      ensures |old(wire)| <= |fullHead + content|
      ensures wire == old(wire) + Window(fullHead + content, |old(wire)|, |old(head)| + space)
      ensures n == |wire| - |old(wire)|
      ensures state == if wire == fullHead + content then WaitAck else Content
    {
      hide Window, Whole;
      var outLen := Min(|content| - sentLength, space);
      ContentPiece(wire, head, content, sentLength, space, fullHead + content);
      var buf, readLen := FillWithHead(outLen);
      n := |head| + readLen;
      Hand(buf[..], readLen);
    }

    // The buffer goes to the client, and the counters move on.
    method Hand(buf: bytes, readLen: nat)
      requires Valid() && (state == Headers || state == Content) && sentLength + readLen <= |content|
      requires |buf| == |head| + readLen
      requires Whole(wire + buf, [], content[sentLength + readLen..], fullHead + content)
      modifies this
      ensures Valid() && ackedLength == old(ackedLength) && head == []
      ensures wire == old(wire) + buf && sentLength == old(sentLength) + readLen
      ensures state == if sentLength == |content| then WaitAck else Content
    {
      hide Whole;
      wire, writtenLength := wire + buf, writtenLength + |buf|;
      sentLength := sentLength + readLen;
      head := [];
      state := if sentLength == |content| then WaitAck else Content;
    }

    method FillWithHead(outLen: nat) returns (buf: array<byte>, readLen: nat)
      requires sentLength + outLen <= |content|
      ensures fresh(buf) && buf[..] == head + content[sentLength..sentLength + outLen] && readLen == outLen
    {
      buf := new byte[|head| + outLen];
      CopyHead(buf);
      ghost var before := buf[..];
      readLen := FillBuffer(buf, |head|, outLen);
      PlacedAtEnd(before, head, content[sentLength..sentLength + outLen]);
    }

    method CopyHead(buf: array<byte>)
      requires |head| <= buf.Length
      modifies buf
      ensures buf[..|head|] == head
    {
      forall i | 0 <= i < |head| {
        buf[i] := head[i];
      }
    }
  }

  // What was sent, the rest of the head and the rest of the document make up all of the response.
  ghost predicate Whole(wire: bytes, head: bytes, rest: bytes, all: bytes) {
    wire + head + rest == all
  }

  lemma PlacedAtEnd(before: bytes, head: bytes, piece: bytes)
    requires |before| == |head| + |piece| && before[..|head|] == head
    ensures Placed(before, |head|, piece) == head + piece
  {
  }

  lemma HeadPiece(wire: bytes, head: bytes, rest: bytes, space: nat, all: bytes)
    requires space < |head| && Whole(wire, head, rest, all)
    ensures |wire| <= |all| && head[..space] == Window(all, |wire|, space)
    ensures Whole(wire + head[..space], head[space..], rest, all) && wire + head[..space] != all
  {
  }

  lemma ContentPiece(wire: bytes, head: bytes, content: bytes, sent: nat, space: nat, all: bytes)
    requires sent <= |content| && Whole(wire, head, content[sent..], all)
    ensures var out := Min(|content| - sent, space);
            var more := head + content[sent..sent + out];
            && |wire| <= |all| && more == Window(all, |wire|, |head| + space)
            && Whole(wire + more, [], content[sent + out..], all)
            && (sent + out == |content| <==> wire + more == all)
  {
  }
}
