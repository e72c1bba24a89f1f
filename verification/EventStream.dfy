/**
 * Server-sent events: the text that generateEventMessage builds (AsyncEventSource.cpp), as lines and
 * as the loop that finds them.
 */
module EventStream {
  import opened Basics

  const CR: char := '\r'
  const LF: char := '\n'
  const CRLF: string := "\r\n"

  predicate IsBreak(c: char) { c == CR || c == LF }

  predicate BreakFree(s: string) {
    forall i :: 0 <= i < |s| ==> !IsBreak(s[i])
  }

  // The first CR or LF, or the end.
  function FirstBreak(s: string): (n: nat)
    ensures n <= |s|
    ensures forall i :: 0 <= i < n ==> !IsBreak(s[i])
    ensures n < |s| ==> IsBreak(s[n])
  {
    if s == "" || IsBreak(s[0]) then 0
    else
      var n := FirstBreak(s[1..]);
      assert forall i :: 0 < i < n + 1 ==> s[i] == s[1..][i - 1];
      n + 1
  }

  lemma FirstBreakAfter(line: string, rest: string)
    requires BreakFree(line) && (rest == "" || IsBreak(rest[0]))
    ensures FirstBreak(line + rest) == |line|
  {
    var n := FirstBreak(line + rest);
    assert forall k :: 0 <= k < |line| ==> (line + rest)[k] == line[k];
    assert rest != "" ==> (line + rest)[|line|] == rest[0];
  }

  // ---------- decimal numbers, as String(n) writes them ----------

  predicate AllDigits(s: string) {
    forall i :: 0 <= i < |s| ==> '0' <= s[i] <= '9'
  }

  function Digit(d: nat): char
    requires d < 10
  {
    ('0' as int + d) as char
  }

  function Decimal(n: nat): (s: string)
    ensures s != "" && AllDigits(s)
  {
    if n < 10 then [Digit(n)] else Decimal(n / 10) + [Digit(n % 10)]
  }

  function ParseDecimal(s: string): nat
    requires AllDigits(s)
  {
    if s == "" then 0 else ParseDecimal(s[..|s| - 1]) * 10 + (s[|s| - 1] as int - '0' as int)
  }

  // No leading zero.
  predicate Plain(s: string) {
    s != "" && AllDigits(s) && (|s| > 1 ==> s[0] != '0')
  }

  // Of all the ways to write a number, Decimal is the one without a leading zero.
  lemma {:induction false} DecimalIsPlain(n: nat)
    ensures Plain(Decimal(n)) && (Decimal(n)[0] == '0' ==> n == 0)
  {
    if n >= 10 {
      DecimalIsPlain(n / 10);
    }
  }

  lemma {:induction false} PlainIsDecimal(s: string)
    requires Plain(s)
    ensures Decimal(ParseDecimal(s)) == s && (ParseDecimal(s) == 0 ==> s == "0")
    decreases |s|
  {
    hide Decimal, ParseDecimal, Plain, AllDigits;
    PlainFront(s);
    LastDigit(s);
    var front, last := s[..|s| - 1], s[|s| - 1];
    assert s == front + [last];
    if |s| == 1 {
      assert s == [last];
      OneDigit(last);
    } else {
      PlainIsDecimal(front);
      MoreDigits(ParseDecimal(front), last);
    }
  }

  lemma PlainFront(s: string)
    requires Plain(s)
    ensures s != "" && AllDigits(s) && (|s| > 1 ==> Plain(s[..|s| - 1]) && s[..|s| - 1] != "0")
  {
    assert forall c <- s[..|s| - 1] :: c in s;
  }

  lemma LastDigit(s: string)
    requires s != "" && AllDigits(s)
    ensures '0' <= s[|s| - 1] <= '9' && AllDigits(s[..|s| - 1])
    ensures ParseDecimal(s) == ParseDecimal(s[..|s| - 1]) * 10 + (s[|s| - 1] as int - '0' as int)
    ensures |s| == 1 ==> ParseDecimal(s[..|s| - 1]) == 0
  {
    assert s[|s| - 1] in s;
  }

  lemma OneDigit(c: char)
    requires '0' <= c <= '9'
    ensures Decimal(c as int - '0' as int) == [c]
  {
  }

  lemma MoreDigits(n: nat, c: char)
    requires '0' <= c <= '9' && n > 0
    ensures Decimal(n * 10 + (c as int - '0' as int)) == Decimal(n) + [c]
  {
    var d := c as int - '0' as int;
    assert (n * 10 + d) / 10 == n && (n * 10 + d) % 10 == d;
  }

  lemma {:induction false} DecimalRoundTrip(n: nat)
    ensures ParseDecimal(Decimal(n)) == n
  {
    if n >= 10 {
      DecimalRoundTrip(n / 10);
      assert Decimal(n)[..|Decimal(n)| - 1] == Decimal(n / 10);
    } else {
      assert Decimal(n)[..0] == "";
    }
  }

  // ---------- the message, line by line ----------

  // CRLF and LFCR are one terminator.
  function BreakSize(s: string, i: nat): (n: nat)
    requires i < |s|
    ensures 1 <= n <= 2 && i + n <= |s|
  {
    if i + 1 < |s| && IsBreak(s[i + 1]) && s[i + 1] != s[i] then 2 else 1
  }

  // The lines of a message; a terminator at its end starts no further line.
  function MessageLines(s: string): (ls: seq<string>)
    ensures ls != [] && forall l <- ls :: BreakFree(l)
    decreases |s|
  {
    var i := FirstBreak(s);
    if i == |s| then
      [s]
    else
      var rest := s[i + BreakSize(s, i)..];
      [s[..i]] + if rest == "" then [] else MessageLines(rest)
  }

  function JoinLF(ls: seq<string>): string
    requires ls != []
  {
    if |ls| == 1 then ls[0] else ls[0] + [LF] + JoinLF(ls[1..])
  }

  lemma {:induction false} JoinHasNoCR(ls: seq<string>)
    requires ls != [] && forall l <- ls :: BreakFree(l)
    ensures CR !in JoinLF(ls)
  {
    assert ls[0] in ls;
    if |ls| > 1 {
      assert forall l <- ls[1..] :: l in ls;
      JoinHasNoCR(ls[1..]);
    }
  }

  lemma {:induction false} JoinOfLines(s: string)
    requires CR !in s
    ensures JoinLF(MessageLines(s)) == if s != "" && s[|s| - 1] == LF then s[..|s| - 1] else s
    decreases |s|
  {
    hide MessageLines, FirstBreak, BreakSize, JoinLF;
    var i, ls := FirstBreak(s), MessageLines(s);
    LinesStep(s);
    if i == |s| {
      assert ls == [s];
      JoinOne(s);
    } else {
      BreakIsLF(s, i);
      var line, rest := s[..i], s[i + 1..];
      SplitAt(s, i);
      if rest != "" {
        JoinOfLines(rest);
        assert ls == [line] + MessageLines(rest);
        JoinCons(line, MessageLines(rest));
        LastOfConcat(line + [LF], rest);
      } else {
        assert ls == [line] && i == |s| - 1;
        JoinOne(line);
      }
    }
  }

  lemma BreakIsLF(s: string, i: nat)
    requires CR !in s && i < |s| && IsBreak(s[i])
    ensures s[i] == LF && BreakSize(s, i) == 1 && CR !in s[i + 1..]
  {
    assert s[i] in s && (i + 1 < |s| ==> s[i + 1] in s);
  }

  lemma JoinOne(l: string)
    ensures JoinLF([l]) == l
  {
  }

  lemma SplitAt(s: string, i: nat)
    requires i < |s|
    ensures s == s[..i] + [s[i]] + s[i + 1..]
  {
  }

  lemma JoinCons(l: string, ls: seq<string>)
    requires ls != []
    ensures JoinLF([l] + ls) == l + [LF] + JoinLF(ls)
  {
    assert ([l] + ls)[1..] == ls;
  }

  lemma LastOfConcat(a: string, b: string)
    requires b != ""
    ensures (a + b)[|a + b| - 1] == b[|b| - 1] && (a + b)[..|a + b| - 1] == a + b[..|b| - 1]
  {
  }

  // The terminators of a message, in order.
  function Breaks(s: string): seq<string>
    decreases |s|
  {
    var i := FirstBreak(s);
    if i == |s| then []
    else
      [s[i..i + BreakSize(s, i)]] + Breaks(s[i + BreakSize(s, i)..])
  }

  // Each line followed by its terminator; the last line may have none.
  function Weave(ls: seq<string>, bs: seq<string>): string {
    if ls == [] then "" else ls[0] + (if bs == [] then "" else bs[0]) + Weave(ls[1..], if bs == [] then [] else bs[1..])
  }

  // A terminator of one character is not followed by the other one.
  ghost predicate Greedy(ls: seq<string>, bs: seq<string>) {
    forall i :: 0 <= i < |bs| - 1 && i + 1 < |ls| && |bs[i]| == 1 && ls[i + 1] == "" && bs[i + 1] != "" ==>
      bs[i + 1][0] == bs[i][0]
  }

  // s is these lines, each followed by its terminator, CRLF, LFCR, LF or CR, the longer form wherever it can
  // be read.
  ghost predicate CutInto(s: string, ls: seq<string>, bs: seq<string>) {
    && Weave(ls, bs) == s && Greedy(ls, bs) && ls != [] && |ls| - 1 <= |bs| <= |ls|
    && (forall l <- ls :: BreakFree(l)) && (forall b <- bs :: b in {"\r\n", "\n\r", "\n", "\r"})
  }

  // Nothing of a message but its terminators is lost.
  lemma {:induction false} LinesAreCuts(s: string)
    ensures CutInto(s, MessageLines(s), Breaks(s))
    decreases |s|
  {
    hide CutInto, MessageLines, Breaks, BreakSize, FirstBreak;
    var i := FirstBreak(s);
    CutStep(s);
    if i == |s| {
      OneLine(s);
    } else {
      BreakForms(s, i);
      var b, rest := s[i..i + BreakSize(s, i)], s[i + BreakSize(s, i)..];
      ThreeParts(s, i, BreakSize(s, i));
      if rest == "" {
        LastLine(s[..i], b);
      } else {
        LinesAreCuts(rest);
        MoreLines(s[..i], b, MessageLines(rest), Breaks(rest), rest);
      }
    }
  }

  lemma ThreeParts(s: string, i: nat, n: nat)
    requires i + n <= |s|
    ensures s == s[..i] + s[i..i + n] + s[i + n..]
    ensures s[i + n..] == "" ==> s == s[..i] + s[i..i + n]
  {
  }

  lemma CutStep(s: string)
    ensures var i, ls := FirstBreak(s), MessageLines(s);
            if i == |s| then ls == [s] && Breaks(s) == []
            else
              var b := s[i..i + BreakSize(s, i)];
              var rest := s[i + BreakSize(s, i)..];
              if rest == "" then ls == [s[..i]] && Breaks(s) == [b]
              else ls == [s[..i]] + MessageLines(rest) && Breaks(s) == [b] + Breaks(rest)
  {
    hide BreakSize, FirstBreak, MessageLines, Breaks;
    LinesStep(s);
    BreaksStep(s);
    var ls := MessageLines(s);
    assert ls == [ls[0]] + ls[1..];
  }

  lemma BreaksStep(s: string)
    ensures var i := FirstBreak(s);
            if i == |s| then Breaks(s) == []
            else
              var b := s[i..i + BreakSize(s, i)];
              var rest := s[i + BreakSize(s, i)..];
              Breaks(s) == if rest == "" then [b] else [b] + Breaks(rest)
  {
    hide BreakSize, FirstBreak;
    NoBreaks();
  }

  lemma NoBreaks()
    ensures FirstBreak("") == 0 && Breaks("") == []
  {
  }

  lemma BreakForms(s: string, i: nat)
    requires i < |s| && IsBreak(s[i])
    ensures var b := s[i..i + BreakSize(s, i)];
            && b in {"\r\n", "\n\r", "\n", "\r"} && b != "" && b[0] == s[i]
            && (|b| == 1 && i + 1 < |s| && IsBreak(s[i + 1]) ==> s[i + 1] == s[i])
  {
    assert s[i..i + 1] == [s[i]];
    assert i + 1 < |s| ==> s[i..i + 2] == [s[i], s[i + 1]];
  }

  lemma OneLine(s: string)
    requires BreakFree(s)
    ensures CutInto(s, [s], [])
  {
  }

  lemma LastLine(l: string, b: string)
    requires BreakFree(l) && b in {"\r\n", "\n\r", "\n", "\r"}
    ensures CutInto(l + b, [l], [b])
  {
    assert Weave([l][1..], [b][1..]) == "";
  }

  lemma MoreLines(l: string, b: string, ls: seq<string>, bs: seq<string>, rest: string)
    requires CutInto(rest, ls, bs) && rest != "" && BreakFree(l) && b in {"\r\n", "\n\r", "\n", "\r"}
    requires |b| == 1 && IsBreak(rest[0]) ==> rest[0] == b[0]
    ensures CutInto(l + b + rest, [l] + ls, [b] + bs)
  {
    hide Weave, BreakFree, Greedy;
    WeaveCons(l, b, ls, bs);
    Beginning(ls, bs);
    GreedyCons(l, b, ls, bs, rest);
    assert forall x <- [l] + ls :: x == l || x in ls;
    assert forall x <- [b] + bs :: x == b || x in bs;
  }

  lemma WeaveCons(l: string, b: string, ls: seq<string>, bs: seq<string>)
    ensures Weave([l] + ls, [b] + bs) == l + b + Weave(ls, bs)
  {
    assert ([l] + ls)[1..] == ls && ([b] + bs)[1..] == bs;
  }

  // How a woven text begins.
  lemma Beginning(ls: seq<string>, bs: seq<string>)
    requires ls != []
    ensures var w := Weave(ls, bs);
            && (ls[0] != "" ==> w != "" && w[0] == ls[0][0])
            && (ls[0] == "" && bs != [] && bs[0] != "" ==> w != "" && w[0] == bs[0][0])
  {
  }

  lemma GreedyCons(l: string, b: string, ls: seq<string>, bs: seq<string>, rest: string)
    requires Greedy(ls, bs) && ls != [] && rest != "" && b != ""
    requires ls[0] == "" && bs != [] && bs[0] != "" ==> rest[0] == bs[0][0]
    requires forall x <- bs :: x in {"\r\n", "\n\r", "\n", "\r"}
    requires |b| == 1 && IsBreak(rest[0]) ==> rest[0] == b[0]
    ensures Greedy([l] + ls, [b] + bs)
  {
    var xs, ys := [l] + ls, [b] + bs;
    forall i | 0 <= i < |ys| - 1 && i + 1 < |xs| && |ys[i]| == 1 && xs[i + 1] == "" && ys[i + 1] != ""
      ensures ys[i + 1][0] == ys[i][0]
    {
      if i > 0 {
        assert ys[i] == bs[i - 1] && ys[i + 1] == bs[i] && xs[i + 1] == ls[i];
      } else {
        assert bs[0] in bs;
      }
    }
  }

  // The reader's data is the message itself exactly when the message has no CR and no LF at its end.
  lemma DeliveredUnchangedIff(s: string)
    ensures JoinLF(MessageLines(s)) == s <==> CR !in s && (s == "" || s[|s| - 1] != LF)
  {
    if CR in s {
      JoinHasNoCR(MessageLines(s));
    } else {
      JoinOfLines(s);
    }
  }

  // ---------- what is written ----------

  function DataLine(l: string): string { "data: " + l }

  function DataLines(ls: seq<string>): (r: seq<string>)
    ensures |r| == |ls| && forall i :: 0 <= i < |ls| ==> r[i] == DataLine(ls[i])
  {
    seq(|ls|, i requires 0 <= i < |ls| => DataLine(ls[i]))
  }

  function HeaderLines(event: Option<string>, id: nat, reconnect: nat): seq<string> {
    (if reconnect > 0 then ["retry: " + Decimal(reconnect)] else []) +
    (if id > 0 then ["id: " + Decimal(id)] else []) +
    (if event.Some? then ["event: " + event.value] else [])
  }

  // The lines of the whole text: the fields, the data, and the blank line that ends the event.
  function TextLines(message: Option<string>, event: Option<string>, id: nat, reconnect: nat): seq<string> {
    HeaderLines(event, id, reconnect) +
    if message.Some? then DataLines(MessageLines(message.value)) + [""] else []
  }

  function Unlines(ls: seq<string>): string {
    if ls == [] then "" else ls[0] + CRLF + Unlines(ls[1..])
  }

  lemma {:induction false} UnlinesAppend(a: seq<string>, b: seq<string>)
    ensures Unlines(a + b) == Unlines(a) + Unlines(b)
  {
    if a == [] {
      assert a + b == b;
    } else {
      UnlinesAppend(a[1..], b);
      assert (a + b)[1..] == a[1..] + b;
      Associative(a[0] + CRLF, Unlines(a[1..]), Unlines(b));
    }
  }

  // The data part that is still to be written from lineStart on.
  function Tail(s: string): string {
    Unlines(DataLines(MessageLines(s)) + [""])
  }

  lemma TailStep(s: string)
    ensures var i := FirstBreak(s);
            Tail(s) ==
              if i == |s| then DataLine(s) + CRLF + CRLF
              else DataLine(s[..i]) + CRLF +
                   var rest := s[i + BreakSize(s, i)..];
                   if rest == "" then CRLF else Tail(rest)
  {
    hide MessageLines, FirstBreak, BreakSize, DataLine, DataLines;
    var ls := MessageLines(s);
    LinesStep(s);
    var more := DataLines(ls[1..]) + [""];
    assert DataLines(ls) + [""] == [DataLine(ls[0])] + more;
    assert ([DataLine(ls[0])] + more)[1..] == more;
    assert Tail(s) == DataLine(ls[0]) + CRLF + Unlines(more);
    if ls[1..] == [] {
      assert more == [""] && more[1..] == [];
      assert Unlines(more) == "" + CRLF + "" == CRLF;
    }
  }

  lemma LinesStep(s: string)
    ensures var i, ls := FirstBreak(s), MessageLines(s);
            if i == |s| then ls[0] == s && ls[1..] == []
            else
              var rest := s[i + BreakSize(s, i)..];
              ls[0] == s[..i] && ls[1..] == if rest == "" then [] else MessageLines(rest)
  {
  }

  // strchr from a position: the first occurrence of c, or -1
  function StrChr(s: string, start: nat, c: char): (r: int)
    requires start <= |s|
    ensures r == -1 || start <= r < |s|
    ensures r != -1 ==> s[r] == c
    ensures forall k :: start <= k < (if r == -1 then |s| else r) ==> s[k] != c
    decreases |s| - start
  {
    if start == |s| then -1
    else if s[start] == c then start
    else StrChr(s, start + 1, c)
  }

  lemma FirstOfTwo(s: string, start: nat)
    requires start <= |s|
    ensures var n, r := StrChr(s, start, LF), StrChr(s, start, CR);
            var e := if n == -1 && r == -1 then |s| else if n == -1 || (r != -1 && r < n) then r else n;
            FirstBreak(s[start..]) == e - start
  {
    hide StrChr, FirstBreak;
    var n, r := StrChr(s, start, LF), StrChr(s, start, CR);
    BreakAt(s, start, if n == -1 && r == -1 then |s| else if n == -1 || (r != -1 && r < n) then r else n);
  }

  lemma BreakAt(s: string, start: nat, e: nat)
    requires start <= e <= |s| && (forall k :: start <= k < e ==> !IsBreak(s[k])) && (e < |s| ==> IsBreak(s[e]))
    ensures FirstBreak(s[start..]) == e - start
  {
    hide FirstBreak;
    assert s[start..] == s[start..e] + s[e..];
    FirstBreakAfter(s[start..e], s[e..]);
  }

  method GenerateEventMessage(message: Option<string>, event: Option<string>, id: nat, reconnect: nat)
    returns (ev: string)
    ensures ev == Unlines(TextLines(message, event, id, reconnect))
  {
    ev := Fields(event, id, reconnect);
    var data := "";
    if message.Some? {
      data := Data(message.value);
      UnlinesAppend(HeaderLines(event, id, reconnect), DataLines(MessageLines(message.value)) + [""]);
      assert TextLines(message, event, id, reconnect) ==
             HeaderLines(event, id, reconnect) + (DataLines(MessageLines(message.value)) + [""]);
    } else {
      assert TextLines(message, event, id, reconnect) == HeaderLines(event, id, reconnect);
    }
    ev := ev + data;
  }

  method Fields(event: Option<string>, id: nat, reconnect: nat) returns (ev: string)
    ensures ev == Unlines(HeaderLines(event, id, reconnect))
  {
    ev := "";
    ghost var ls: seq<string> := [];
    if reconnect > 0 {
      OneMoreLine(ls, "retry: " + Decimal(reconnect));
      ls := ls + ["retry: " + Decimal(reconnect)];
      ev := ev + ("retry: " + Decimal(reconnect)) + CRLF;
    }
    if id > 0 {
      OneMoreLine(ls, "id: " + Decimal(id));
      ls := ls + ["id: " + Decimal(id)];
      ev := ev + ("id: " + Decimal(id)) + CRLF;
    }
    if event.Some? {
      OneMoreLine(ls, "event: " + event.value);
      ls := ls + ["event: " + event.value];
      ev := ev + ("event: " + event.value) + CRLF;
    }
    assert ls == HeaderLines(event, id, reconnect);
  }

  lemma OneMoreLine(ls: seq<string>, l: string)
    ensures Unlines(ls + [l]) == Unlines(ls) + l + CRLF
  {
    UnlinesAppend(ls, [l]);
    assert [l][1..] == [];
    assert Unlines([l]) == l + CRLF + "";
  }

  // The do loop over the message.
  method Data(message: string) returns (ev: string)
    ensures ev == Tail(message)
  {
    hide Tail, DataLine, FirstBreak, BreakSize;
    ev := "";
    var lineStart := 0;
    var first := true;
    assert message[0..] == message;
    while first || lineStart < |message|
      invariant 0 <= lineStart <= |message| && (first ==> lineStart == 0)
      invariant Tail(message) == ev + if first || lineStart < |message| then Tail(message[lineStart..]) else ""
      decreases |message| - lineStart, first
    {
      ghost var was, rest := ev, message[lineStart..];
      var lineEnd, nextLine, more := LineBounds(message, lineStart);
      TailCut(message, lineStart, lineEnd, nextLine);
      if !more {
        ev := ev + (DataLine(message[lineStart..]) + CRLF + CRLF);
        lineStart := |message|;
      } else {
        var line := DataLine(message[lineStart..lineEnd]) + CRLF;
        ev := ev + line;
        Associative(was, line, if nextLine == |message| then CRLF else Tail(message[nextLine..]));
        lineStart := nextLine;
        if lineStart == |message| {
          ev := ev + CRLF;
        }
      }
      first := false;
      assert ev + "" == ev;
    }
  }

  // Where the line at start ends and the next one begins; more is false when no terminator follows.
  // The same where LineBounds has cut.
  lemma TailCut(message: string, start: nat, lineEnd: nat, nextLine: nat)
    requires start <= |message|
    ensures var rest := message[start..];
            var i := FirstBreak(rest);
            && (i == |rest| ==> Tail(rest) == DataLine(rest) + CRLF + CRLF)
            && (i < |rest| && start <= lineEnd < nextLine <= |message| && rest[..i] == message[start..lineEnd]
                && rest[i + BreakSize(rest, i)..] == message[nextLine..] ==>
                  Tail(rest) == DataLine(message[start..lineEnd]) + CRLF
                                + if nextLine == |message| then CRLF else Tail(message[nextLine..]))
  {
    hide Tail, DataLine, FirstBreak, BreakSize;
    TailStep(message[start..]);
  }

  method LineBounds(message: string, start: nat) returns (lineEnd: nat, nextLine: nat, more: bool)
    requires start <= |message|
    ensures var rest := message[start..];
            var i := FirstBreak(rest);
            && (more <==> i < |rest|)
            && (more ==> start <= lineEnd < nextLine <= |message| && rest[..i] == message[start..lineEnd]
                         && rest[i + BreakSize(rest, i)..] == message[nextLine..])
  {
    var nextN := StrChr(message, start, LF);
    var nextR := StrChr(message, start, CR);
    FirstOfTwo(message, start);
    if nextN == -1 && nextR == -1 {
      return start, start, false;
    }
    more := true;
    if nextN != -1 && nextR != -1 {
      if nextR < nextN {
        lineEnd := nextR;
        nextLine := if nextN == nextR + 1 then nextN + 1 else nextR + 1;
      } else {
        lineEnd := nextN;
        nextLine := if nextR == nextN + 1 then nextR + 1 else nextN + 1;
      }
    } else if nextN != -1 {
      lineEnd, nextLine := nextN, nextN + 1;
    } else {
      lineEnd, nextLine := nextR, nextR + 1;
    }
    hide StrChr, FirstBreak, BreakSize;
    NextLine(message, start, lineEnd, nextLine);
  }

  // The pointers of one turn are the first break of the rest and the place behind its terminator.
  lemma NextLine(s: string, start: nat, lineEnd: int, nextLine: int)
    requires start <= |s|
    requires var n, r := StrChr(s, start, LF), StrChr(s, start, CR);
             && (n != -1 || r != -1)
             && lineEnd == (if n == -1 || (r != -1 && r < n) then r else n)
             && nextLine == (if n != -1 && r != -1 && (n == r + 1 || r == n + 1) then lineEnd + 2 else lineEnd + 1)
    ensures var i := FirstBreak(s[start..]);
            && start <= lineEnd < nextLine <= |s| && i == lineEnd - start && i < |s[start..]|
            && nextLine == lineEnd + BreakSize(s[start..], i)
            && s[start..][..i] == s[start..lineEnd]
            && s[start..][i + BreakSize(s[start..], i)..] == s[nextLine..]
  {
    hide StrChr, FirstBreak;
    FirstOfTwo(s, start);
    assert lineEnd + 1 < |s| ==> s[start..][lineEnd + 1 - start] == s[lineEnd + 1];
  }
}
