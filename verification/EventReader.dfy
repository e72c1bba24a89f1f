/**
 * Reading an event stream by section 9.2.6 of the HTML Living Standard, and the round trip with
 * generateEventMessage.
 */
module EventReader {
  import opened Basics
  import opened EventStream

  // ---------- lines ----------

  // Lines end with CRLF, LF or CR; what follows the last end is no line yet.
  function SplitLines(s: string): seq<string>
    decreases |s|
  {
    var i := FirstBreak(s);
    if i == |s| then []
    else
      var n := if i + 1 < |s| && s[i] == CR && s[i + 1] == LF then 2 else 1;
      [s[..i]] + SplitLines(s[i + n..])
  }

  lemma {:induction false} SplitGivesBreakFree(s: string)
    ensures forall l <- SplitLines(s) :: BreakFree(l)
    decreases |s|
  {
    var i := FirstBreak(s);
    if i < |s| {
      SplitGivesBreakFree(s[i + (if i + 1 < |s| && s[i] == CR && s[i + 1] == LF then 2 else 1)..]);
    }
  }

  lemma SplitOneLine(l: string, rest: string)
    requires BreakFree(l)
    ensures SplitLines(l + CRLF + rest) == [l] + SplitLines(rest)
  {
    var s := l + CRLF + rest;
    assert s == l + (CRLF + rest);
    FirstBreakAfter(l, CRLF + rest);
    assert s[..|l|] == l && s[|l| + 2..] == rest;
  }

  lemma {:induction false} SplitUnlines(ls: seq<string>, rest: string)
    requires forall l <- ls :: BreakFree(l)
    ensures SplitLines(Unlines(ls) + rest) == ls + SplitLines(rest)
  {
    if ls == [] {
      assert Unlines(ls) + rest == rest;
    } else {
      var more := Unlines(ls[1..]) + rest;
      Associative(ls[0] + CRLF, Unlines(ls[1..]), rest);
      hide SplitLines, BreakFree;
      SplitUnlines(ls[1..], rest);
      SplitOneLine(ls[0], more);
      Associative([ls[0]], ls[1..], SplitLines(rest));
      assert [ls[0]] + ls[1..] == ls;
    }
  }

  // ---------- fields and events ----------

  datatype Event = Event(kind: string, data: string, lastId: string)

  // The buffers of the reader, its reconnection time and the events it has dispatched.
  datatype Reader = Reader(data: string, kind: string, lastId: string, retry: Option<nat>, events: seq<Event>) {
    // Between two events.
    predicate Clear() { data == "" && kind == "" }
  }

  function IndexOf(s: string, c: char): (n: nat)
    ensures n <= |s|
    ensures n < |s| ==> s[n] == c
    ensures forall i :: 0 <= i < n ==> s[i] != c
  {
    var r := StrChr(s, 0, c);
    if r == -1 then |s| else r
  }

  function FieldValue(s: string): string {
    if s != "" && s[0] == ' ' then s[1..] else s
  }

  function Process(r: Reader, field: string, value: string): Reader {
    if field == "event" then r.(kind := value)
    else if field == "data" then r.(data := r.data + value + [LF])
    else if field == "id" then if '\0' in value then r else r.(lastId := value)
    else if field == "retry" then
      if value != "" && AllDigits(value) then r.(retry := Some(ParseDecimal(value))) else r
    else r
  }

  function Dispatch(r: Reader): Reader {
    if r.data == "" then r.(kind := "")
    else
      var data := if r.data[|r.data| - 1] == LF then r.data[..|r.data| - 1] else r.data;
      r.(data := "", kind := "",
         events := r.events + [Event(if r.kind == "" then "message" else r.kind, data, r.lastId)])
  }

  function ReadLine(r: Reader, line: string): Reader {
    if line == "" then Dispatch(r)
    else
      var c := IndexOf(line, ':');
      if c == 0 then r
      else if c < |line| then Process(r, line[..c], FieldValue(line[c + 1..]))
      else Process(r, line, "")
  }

  function ReadLines(r: Reader, ls: seq<string>): Reader
    decreases |ls|
  {
    if ls == [] then r else ReadLines(ReadLine(r, ls[0]), ls[1..])
  }

  function Read(r: Reader, s: string): Reader {
    ReadLines(r, SplitLines(s))
  }

  lemma {:induction false} ReadAppend(r: Reader, a: seq<string>, b: seq<string>)
    ensures ReadLines(r, a + b) == ReadLines(ReadLines(r, a), b)
    decreases |a|
  {
    hide ReadLine;
    if a == [] {
      assert a + b == b;
    } else {
      ReadAppend(ReadLine(r, a[0]), a[1..], b);
      assert (a + b)[1..] == a[1..] + b;
    }
  }

  // A field line "name: value", as the encoder writes it.
  lemma FieldLine(r: Reader, name: string, value: string)
    requires name != "" && ':' !in name
    ensures ReadLine(r, name + ": " + value) == Process(r, name, value)
  {
    var line := name + ": " + value;
    var c := IndexOf(line, ':');
    assert line[|name|] == ':';
    assert forall i :: 0 <= i < |name| ==> line[i] == name[i];
    assert c == |name|;
    assert line[..c] == name;
    assert line[c + 1..] == " " + value;
    assert FieldValue(" " + value) == value;
  }

  // ---------- the round trip ----------

  // What the arguments of a send mean to the reader.
  function KindOf(event: Option<string>): string {
    if event.Some? then event.value else ""
  }

  function IdAfter(r: Reader, id: nat): string {
    if id > 0 then Decimal(id) else r.lastId
  }

  function RetryAfter(r: Reader, reconnect: nat): Option<nat> {
    if reconnect > 0 then Some(reconnect) else r.retry
  }

  lemma HeaderRead(r: Reader, event: Option<string>, id: nat, reconnect: nat)
    ensures ReadLines(r, HeaderLines(event, id, reconnect)) ==
              r.(kind := if event.Some? then event.value else r.kind,
                 lastId := IdAfter(r, id), retry := RetryAfter(r, reconnect))
  {
    var retry: seq<string> := if reconnect > 0 then ["retry: " + Decimal(reconnect)] else [];
    var idl: seq<string> := if id > 0 then ["id: " + Decimal(id)] else [];
    var ev: seq<string> := if event.Some? then ["event: " + event.value] else [];
    ReadAppend(r, retry + idl, ev);
    ReadAppend(r, retry, idl);
    RetryRead(r, reconnect);
    var r1 := ReadLines(r, retry);
    IdRead(r1, id);
    var r2 := ReadLines(r1, idl);
    if event.Some? {
      OneLine(r2, ev[0]);
      assert "event: " == "event" + ": ";
      FieldLine(r2, "event", event.value);
    }
  }

  lemma OneLine(r: Reader, l: string)
    ensures ReadLines(r, [l]) == ReadLine(r, l)
  {
    assert [l][1..] == [];
  }

  lemma RetryRead(r: Reader, reconnect: nat)
    ensures ReadLines(r, if reconnect > 0 then ["retry: " + Decimal(reconnect)] else []) ==
              r.(retry := RetryAfter(r, reconnect))
  {
    if reconnect > 0 {
      OneLine(r, "retry: " + Decimal(reconnect));
      assert "retry: " == "retry" + ": ";
      FieldLine(r, "retry", Decimal(reconnect));
      DecimalRoundTrip(reconnect);
    }
  }

  lemma IdRead(r: Reader, id: nat)
    ensures ReadLines(r, if id > 0 then ["id: " + Decimal(id)] else []) == r.(lastId := IdAfter(r, id))
  {
    if id > 0 {
      OneLine(r, "id: " + Decimal(id));
      assert "id: " == "id" + ": ";
      FieldLine(r, "id", Decimal(id));
      assert '\0' !in Decimal(id);
    }
  }

  // The data lines fill the buffer with the lines, each followed by LF.
  lemma {:induction false} DataRead(r: Reader, ls: seq<string>)
    requires ls != []
    ensures ReadLines(r, DataLines(ls)) == r.(data := r.data + JoinLF(ls) + [LF])
    decreases |ls|
  {
    DataLineRead(r, ls[0]);
    hide ReadLine, DataLine;
    var r1 := r.(data := r.data + ls[0] + [LF]);
    assert DataLines(ls)[1..] == DataLines(ls[1..]);
    if |ls| > 1 {
      DataRead(r1, ls[1..]);
      Associative(r.data, ls[0] + [LF], JoinLF(ls[1..]));
      Associative(r.data, ls[0], [LF]);
    } else {
      assert ls[1..] == [];
    }
  }

  lemma DataLineRead(r: Reader, l: string)
    ensures ReadLine(r, DataLine(l)) == r.(data := r.data + l + [LF])
  {
    assert "data: " == "data" + ": ";
    FieldLine(r, "data", l);
  }

  lemma BreakFreeConcat(a: string, b: string)
    requires BreakFree(a) && BreakFree(b)
    ensures BreakFree(a + b)
  {
  }

  lemma HeaderIsBreakFree(event: Option<string>, id: nat, reconnect: nat)
    requires event.Some? ==> BreakFree(event.value)
    ensures forall l <- HeaderLines(event, id, reconnect) :: BreakFree(l)
  {
    BreakFreeConcat("retry: ", Decimal(reconnect));
    BreakFreeConcat("id: ", Decimal(id));
    if event.Some? {
      BreakFreeConcat("event: ", event.value);
    }
  }

  lemma TextIsBreakFree(message: Option<string>, event: Option<string>, id: nat, reconnect: nat)
    requires event.Some? ==> BreakFree(event.value)
    ensures forall l <- TextLines(message, event, id, reconnect) :: BreakFree(l)
  {
    HeaderIsBreakFree(event, id, reconnect);
    hide HeaderLines, MessageLines;
    if message.Some? {
      var ls := MessageLines(message.value);
      forall l | l in DataLines(ls)
        ensures BreakFree(l)
      {
        var i :| 0 <= i < |DataLines(ls)| && DataLines(ls)[i] == l;
        assert ls[i] in ls;
        BreakFreeConcat("data: ", ls[i]);
      }
    }
  }

  // Main result: read after any complete event, a send with a message adds exactly one event, with the
  // message's lines as its data and the arguments as its type, id and retry; the rest of the stream is
  // read from between two events again.
  lemma SendRoundTrip(r: Reader, message: string, event: Option<string>, id: nat, reconnect: nat, rest: string)
    requires r.Clear() && (event.Some? ==> BreakFree(event.value))
    ensures var text := Unlines(TextLines(Some(message), event, id, reconnect));
            var kind := if KindOf(event) == "" then "message" else KindOf(event);
            var next := Reader("", "", IdAfter(r, id), RetryAfter(r, reconnect),
                               r.events + [Event(kind, JoinLF(MessageLines(message)), IdAfter(r, id))]);
            Read(r, text + rest) == Read(next, rest)
  {
    hide MessageLines, HeaderLines, ReadLine, Unlines, SplitLines, BreakFree, Decimal, JoinLF;
    var ls := MessageLines(message);
    var lines := TextLines(Some(message), event, id, reconnect);
    TextIsBreakFree(Some(message), event, id, reconnect);
    SplitUnlines(lines, rest);
    ReadAppend(r, lines, SplitLines(rest));
    ReadAppend(r, HeaderLines(event, id, reconnect), DataLines(ls) + [""]);
    HeaderRead(r, event, id, reconnect);
    var r1 := ReadLines(r, HeaderLines(event, id, reconnect));
    ReadAppend(r1, DataLines(ls), [""]);
    DataRead(r1, ls);
    EventRead(r1, JoinLF(ls));
  }

  // The blank line after the data dispatches it.
  lemma EventRead(r: Reader, text: string)
    requires r.data == ""
    ensures ReadLines(r.(data := "" + text + [LF]), [""]) ==
              Reader("", "", r.lastId, r.retry,
                     r.events + [Event(if r.kind == "" then "message" else r.kind, text, r.lastId)])
  {
    OneLine(r.(data := "" + text + [LF]), "");
    assert ("" + text + [LF])[..|text|] == text;
  }

  // Without a message nothing is dispatched, and the fields stay in the buffers for the next event.
  lemma SendWithoutMessage(r: Reader, event: Option<string>, id: nat, reconnect: nat, rest: string)
    requires r.Clear() && (event.Some? ==> BreakFree(event.value))
    ensures Read(r, Unlines(TextLines(None, event, id, reconnect)) + rest) ==
              Read(r.(kind := KindOf(event), lastId := IdAfter(r, id), retry := RetryAfter(r, reconnect)), rest)
  {
    var lines := TextLines(None, event, id, reconnect);
    TextIsBreakFree(None, event, id, reconnect);
    SplitUnlines(lines, rest);
    ReadAppend(r, lines, SplitLines(rest));
    assert lines == HeaderLines(event, id, reconnect);
    HeaderRead(r, event, id, reconnect);
  }

  // A send adds exactly one event if and only if it has a message.
  lemma OneEventIff(r: Reader, message: Option<string>, event: Option<string>, id: nat, reconnect: nat)
    requires r.Clear() && (event.Some? ==> BreakFree(event.value))
    ensures |Read(r, Unlines(TextLines(message, event, id, reconnect))).events| == |r.events| + 1 <==> message.Some?
  {
    var text := Unlines(TextLines(message, event, id, reconnect));
    assert text + "" == text;
    assert SplitLines("") == [];
    match message
    case Some(m) => SendRoundTrip(r, m, event, id, reconnect, "");
    case None => SendWithoutMessage(r, event, id, reconnect, "");
  }

  // ---------- event names with a line break ----------

  predicate KindsBreakFree(r: Reader) {
    BreakFree(r.kind) && forall e <- r.events :: BreakFree(e.kind)
  }

  lemma {:induction false} KindsStayBreakFree(r: Reader, ls: seq<string>)
    requires KindsBreakFree(r) && forall l <- ls :: BreakFree(l)
    ensures KindsBreakFree(ReadLines(r, ls))
    decreases |ls|
  {
    hide ReadLine, KindsBreakFree, BreakFree;
    if ls != [] {
      assert ls[0] in ls && forall l <- ls[1..] :: l in ls;
      LineKeepsKinds(r, ls[0]);
      KindsStayBreakFree(ReadLine(r, ls[0]), ls[1..]);
    }
  }

  lemma LineKeepsKinds(r: Reader, line: string)
    requires KindsBreakFree(r) && BreakFree(line)
    ensures KindsBreakFree(ReadLine(r, line))
  {
    hide IndexOf, ParseDecimal, AllDigits;
  }

  // The name that was sent is the type of the event that is read if and only if it has no line break.
  lemma NameArrivesIff(r: Reader, message: string, name: string, id: nat, reconnect: nat)
    requires r.Clear() && r.events == [] && name != ""
    ensures var es := Read(r, Unlines(TextLines(Some(message), Some(name), id, reconnect))).events;
            (exists e <- es :: e.kind == name) <==> BreakFree(name)
  {
    var text := Unlines(TextLines(Some(message), Some(name), id, reconnect));
    var es := Read(r, text).events;
    SplitGivesBreakFree(text);
    KindsStayBreakFree(r, SplitLines(text));
    if BreakFree(name) {
      assert text + "" == text;
      assert SplitLines("") == [];
      SendRoundTrip(r, message, Some(name), id, reconnect, "");
      assert es[0].kind == name;
    }
  }
}
