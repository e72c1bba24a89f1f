/**
 * Two orders that AsyncTCP keeps: the numbers in the slot table record the order in which slots were given
 * back, and what lwIP reports to a client is what the client's callbacks get, in that order.
 */
module AsyncTcpOrder {
  import opened Basics
  import opened AsyncTcpQueue
  import opened AsyncTcpProtocol
  import opened AsyncTcpConcurrent

  // ---------- slots ----------

  // The slot that a step gives back.
  function Returns(s: System, step: Step): seq<nat>
    requires Enabled(s, step)
  {
    if step.LwipFin? && s.clients[step.c].pcb then [s.clients[step.c].slot] else []
  }

  // The slots that a run gives back, in order, purges interrupted or not.
  function GivenBack(m: Machine, moves: seq<Move>): seq<nat>
    requires AllowedRun(m, moves)
    decreases |moves|
  {
    if moves == [] then []
    else (if moves[0].Do? then Returns(m.s, moves[0].step) else []) + GivenBack(Advance(m, moves[0]), moves[1..])
  }

  // How many clients it accepts.
  function Accepted(moves: seq<Move>): nat {
    if moves == [] then 0
    else (if moves[0].Do? && moves[0].step.LwipAccept? then 1 else 0) + Accepted(moves[1..])
  }

  // When slot i was last given back, -1 for never.
  function LastTime(order: seq<nat>, i: nat): (n: int)
    ensures -1 <= n < |order|
  {
    if order == [] then -1
    else if order[|order| - 1] == i then |order| - 1
    else LastTime(order[..|order| - 1], i)
  }

  // A free slot has the number of its return, counted from 1, and a slot that was never in use has 1.
  ghost predicate Numbered(s: System, order: seq<nat>) {
    && |s.slots| == SLOTS && s.closedIndex == |order| + 1 && s.fins == |order|
    && forall i :: 0 <= i < |s.slots| && s.slots[i] != 0 ==>
         s.slots[i] == if LastTime(order, i) == -1 then 1 else LastTime(order, i) + 1
  }

  lemma LastTimeAppend(order: seq<nat>, k: nat, i: nat)
    ensures LastTime(order + [k], i) == if i == k then |order| else LastTime(order, i)
  {
    assert (order + [k])[..|order|] == order;
  }

  lemma StepNumbers(s: System, step: Step, order: seq<nat>)
    requires Numbered(s, order) && Enabled(s, step)
    ensures Numbered(Next(s, step), order + Returns(s, step))
    ensures Next(s, step).accepts == s.accepts + if step.LwipAccept? then 1 else 0
  {
    assert order + [] == order;
    match step
    case LwipAccept(c) => AcceptNumbers(s, c, order);
    case LwipFin(c) => FinNumbers(s, c, order);
    case Dispatch =>
      hide Next;
      DispatchShape(s);
    case _ =>
  }

  lemma AcceptNumbers(s: System, c: nat, order: seq<nat>)
    requires Numbered(s, order) && Enabled(s, LwipAccept(c))
    ensures Numbered(Next(s, LwipAccept(c)), order)
  {
    hide LastTime, Pick;
    assert Next(s, LwipAccept(c)).slots == s.slots[Pick(s.slots) := 0];
  }

  lemma FinNumbers(s: System, c: nat, order: seq<nat>)
    requires Numbered(s, order) && Enabled(s, LwipFin(c))
    ensures Numbered(Next(s, LwipFin(c)), order + Returns(s, LwipFin(c)))
  {
    hide LastTime;
    var t, k := Next(s, LwipFin(c)), s.clients[c];
    if k.pcb {
      assert t.slots == s.slots[k.slot := s.closedIndex];
      forall i | 0 <= i < |t.slots| && t.slots[i] != 0
        ensures t.slots[i] == if LastTime(order + [k.slot], i) == -1 then 1 else LastTime(order + [k.slot], i) + 1
      {
        LastTimeAppend(order, k.slot, i);
      }
    } else {
      assert order + [] == order;
    }
  }

  lemma MoveNumbers(m: Machine, move: Move, order: seq<nat>)
    requires Numbered(m.s, order) && Allowed(m, move)
    ensures Numbered(Advance(m, move).s, order + if move.Do? then Returns(m.s, move.step) else [])
    ensures Advance(m, move).s.accepts == m.s.accepts + if move.Do? && move.step.LwipAccept? then 1 else 0
  {
    hide LastTime, Next;
    assert order + [] == order;
    if move.Do? && !(move.step == Dispatch && m.s.queue[0].event == Clear) {
      StepNumbers(m.s, move.step, order);
    }
  }

  lemma {:induction false} RunNumbers(m: Machine, moves: seq<Move>, order: seq<nat>)
    requires Numbered(m.s, order) && AllowedRun(m, moves)
    ensures Numbered(RunOf(m, moves).s, order + GivenBack(m, moves))
    ensures RunOf(m, moves).s.accepts == m.s.accepts + Accepted(moves)
    decreases |moves|
  {
    hide Numbered, Enabled, Advance, Returns;
    if moves == [] {
      assert order + [] == order;
    } else {
      var one := if moves[0].Do? then Returns(m.s, moves[0].step) else [];
      MoveNumbers(m, moves[0], order);
      RunNumbers(Advance(m, moves[0]), moves[1..], order + one);
      Associative(order, one, GivenBack(Advance(m, moves[0]), moves[1..]));
    }
  }

  lemma StartNumbers(start: System, moves: seq<Move>)
    requires Starts(start) && AllowedRun(Machine(start, Idle), moves)
    ensures var m := Machine(start, Idle);
            Numbered(RunOf(m, moves).s, GivenBack(m, moves)) && RunOf(m, moves).s.accepts == Accepted(moves)
  {
    var m := Machine(start, Idle);
    assert [] + GivenBack(m, moves) == GivenBack(m, moves);
    RunNumbers(m, moves, []);
  }

  // Over every run, of two free slots that were given back the one given back later has the larger number,
  // and no free slot has a smaller one than a slot that was never in use.
  lemma NumbersRecordOrder(start: System, moves: seq<Move>, i: nat, j: nat)
    requires Starts(start) && AllowedRun(Machine(start, Idle), moves) && i < SLOTS && j < SLOTS
    requires var s := RunOf(Machine(start, Idle), moves).s;
             |s.slots| == SLOTS ==> s.slots[i] != 0 && s.slots[j] != 0
    ensures var s, order := RunOf(Machine(start, Idle), moves).s, GivenBack(Machine(start, Idle), moves);
            && |s.slots| == SLOTS
            && (0 <= LastTime(order, i) < LastTime(order, j) ==> s.slots[i] < s.slots[j])
            && (LastTime(order, i) == -1 ==> s.slots[i] <= s.slots[j])
  {
    hide RunOf, GivenBack, AllowedRun, LastTime;
    StartNumbers(start, moves);
  }

  // Main result for the slots: a new client gets a slot that no other free slot was given back before, and one
  // that was never in use while there is such a slot, the first one ever given back excepted.  There is a free
  // slot if and only if fewer than 16 clients were accepted than slots given back.
  lemma PickIsOldest(start: System, moves: seq<Move>, j: nat)
    requires Starts(start) && AllowedRun(Machine(start, Idle), moves) && j < SLOTS
    ensures var s, order := RunOf(Machine(start, Idle), moves).s, GivenBack(Machine(start, Idle), moves);
            && SlotsSane(s)
            && var r := Pick(s.slots);
               && (r != -1 <==> Accepted(moves) - |order| < 16)
               && (r != -1 && s.slots[j] != 0 ==>
                     || LastTime(order, r) <= LastTime(order, j)
                     || (LastTime(order, r) == 0 && LastTime(order, j) == -1))
  {
    hide RunOf, GivenBack, AllowedRun, LastTime, Pick, Starts, History, LegalHistory;
    StartNumbers(start, moves);
    EveryRunDiscardsOnce(start, moves, 0);
  }

  // ---------- events ----------

  // What a step reports to client c.
  function Reports(s: System, step: Step, c: nat): seq<Event>
    requires Enabled(s, step)
  {
    match step
    case LwipAccept(d) => if d == c then [Accept] else []
    case LwipEvent(d, event) => if d == c then [event] else []
    case LwipFin(d) => if d == c then [Fin] else []
    case LwipError(d) => if d == c then [Error] else []
    case Abort(d) => if d == c && s.clients[d].pcb && s.clients[d].registered then [Error] else []
    case _ => []
  }

  function Reported(s: System, steps: seq<Step>, c: nat): seq<Event>
    requires Possible(s, steps)
    decreases |steps|
  {
    if steps == [] then [] else Reports(s, steps[0], c) + Reported(Next(s, steps[0]), steps[1..], c)
  }

  // The events that the client's callbacks got.
  function Got(h: seq<Entry>): seq<Event> {
    if h == [] then []
    else Got(h[..|h| - 1]) + if h[|h| - 1].Handled? then [h[|h| - 1].event] else []
  }

  // Nothing is lost, doubled or overtaken before the client is discarded; FIN and ERROR come after everything.
  ghost predicate Delivers(k: Client, es: seq<Event>, h: seq<Entry>, reported: seq<Event>) {
    var got := Got(h);
    var ended := got != [] && got[|got| - 1] in {Fin, Error};
    if k.discarded then got <= reported && (ended ==> got == reported)
    else got + es == reported && !ended
  }

  ghost predicate DeliversTo(s: System, c: nat, reported: seq<Event>) {
    if c in s.clients then Delivers(s.clients[c], Of(s.queue, c), History(s.log, c), reported)
    else reported == []
  }

  lemma GotAppend(h: seq<Entry>, e: Entry)
    ensures Got(h + [e]) == Got(h) + if e.Handled? then [e.event] else []
  {
    assert (h + [e])[..|h|] == h;
  }

  // ---------- one client across a step ----------

  lemma Pushed(k: Client, k': Client, es: seq<Event>, x: Event, h: seq<Entry>, reported: seq<Event>)
    requires Delivers(k, es, h, reported) && !k.discarded && !k'.discarded
    ensures Delivers(k', es + [x], h, reported + [x])
  {
    Associative(Got(h), es, [x]);
  }

  lemma Closed(k: Client, k': Client, es: seq<Event>, h: seq<Entry>, c: nat, reported: seq<Event>)
    requires Delivers(k, es, h, reported) && !k.discarded && k'.discarded
    ensures Delivers(k', [Clear] + es, h + [Discarded(c)], reported)
  {
    GotAppend(h, Discarded(c));
    assert Got(h) + [] == Got(h);
  }

  // What taking its first event does.
  lemma Dispatched(k: Client, es: seq<Event>, h: seq<Entry>, c: nat, reported: seq<Event>)
    requires Delivers(k, es, h, reported) && ClientInv(k, es, true) && es != []
    ensures es[0] == Clear ==> forall fs: seq<Event> :: Delivers(k, fs, h, reported)
    ensures es[0] in {Accept, Recv, SentEvent, Poll} ==>
              forall k': Client :: !k'.discarded ==> Delivers(k', es[1..], h + [Handled(es[0], c)], reported)
    ensures es[0] in {Fin, Error} ==>
              forall k': Client, fs: seq<Event> :: k'.discarded ==>
                Delivers(k', fs, h + [Handled(es[0], c)] + [Discarded(c)], reported)
  {
    DispatchKeepsClient(k, es, true);
    DiscardedAtClear(k, es);
    hide ClientInv;
    GotAppend(h, Handled(es[0], c));
    GotAppend(h + [Handled(es[0], c)], Discarded(c));
    assert es == [es[0]] + es[1..];
    Associative(Got(h), [es[0]], es[1..]);
    assert Got(h) + [es[0]] + [] == Got(h) + [es[0]];
  }

  lemma DiscardedAtClear(k: Client, es: seq<Event>)
    requires ClientInv(k, es, true) && es != []
    ensures es[0] == Clear ==> k.discarded
  {
    assert es[0] in es;
  }

  // ---------- every client across a step ----------

  // Nothing happens to c.
  lemma SameDelivery(s: System, t: System, c: nat, reported: seq<Event>)
    requires DeliversTo(s, c, reported) && (c in t.clients <==> c in s.clients)
    requires c in s.clients ==>
               && t.clients[c].discarded == s.clients[c].discarded
               && Of(t.queue, c) == Of(s.queue, c) && History(t.log, c) == History(s.log, c)
    ensures DeliversTo(t, c, reported + [])
  {
    hide Of, History, Got;
    assert reported + [] == reported;
  }

  // lwIP reports an event to one client; an abort does the same.
  lemma PushDelivers(s: System, t: System, p: Packet, k: Client, c: nat, reported: seq<Event>)
    requires DeliversTo(s, c, reported) && p.client in s.clients && t.log == s.log && t.queue == s.queue + [p]
    requires t.clients == s.clients[p.client := k] && !s.clients[p.client].discarded && !k.discarded
    ensures DeliversTo(t, c, reported + if p.client == c then [p.event] else [])
  {
    hide Of, History, Delivers;
    OfAppend(s.queue, p, c);
    if p.client == c {
      Pushed(s.clients[c], t.clients[c], Of(s.queue, c), p.event, History(s.log, c), reported);
    } else {
      assert Of(s.queue, c) + [] == Of(s.queue, c);
      SameDelivery(s, t, c, reported);
    }
  }

  lemma NotDiscarded(s: System, c: nat)
    requires Inv(s, true) && c in s.clients && (s.clients[c].registered || s.clients[c].pcb)
    ensures !s.clients[c].discarded
  {
    assert ClientInv(s.clients[c], Of(s.queue, c), true);
  }

  lemma LwipDelivers(s: System, step: Step, c: nat, reported: seq<Event>)
    requires Inv(s, true) && DeliversTo(s, c, reported) && Enabled(s, step)
    requires step.LwipEvent? || step.LwipFin? || step.LwipError?
    ensures DeliversTo(Next(s, step), c, reported + Reports(s, step, c))
  {
    hide Inv, DeliversTo, Pick;
    NotDiscarded(s, step.c);
    LwipShape(s, step);
    PushDelivers(s, Next(s, step), NewPacket(s, step), After(s, step), c, reported);
  }

  lemma AcceptDelivers(s: System, d: nat, c: nat, reported: seq<Event>)
    requires Inv(s, true) && DeliversTo(s, c, reported) && Enabled(s, LwipAccept(d))
    ensures DeliversTo(Next(s, LwipAccept(d)), c, reported + if d == c then [Accept] else [])
  {
    hide ClientsInv, SlotInv, Pick, Of, History;
    var t := Next(s, LwipAccept(d));
    OfPrepend(t.queue[0], s.queue, c);
    if d == c {
      NoPackets(s.queue, c);
      NoHistory(s.log, c);
      assert [Accept] + [] == [Accept] && [] + [Accept] == [Accept];
    } else {
      assert [] + Of(s.queue, c) == Of(s.queue, c);
      SameDelivery(s, t, c, reported);
    }
  }

  lemma CloseDelivers(s: System, d: nat, c: nat, reported: seq<Event>)
    requires Inv(s, true) && DeliversTo(s, c, reported) && Enabled(s, Close(d)) && s.clients[d].pcb
    ensures DeliversTo(Next(s, Close(d)), c, reported + [])
  {
    hide Next, Enabled, Inv, History, Of, Delivers;
    assert d in s.clients by {
      ClosesKnown(s, d);
    }
    CloseEffect(s, d);
    NotDiscarded(s, d);
    var t := Next(s, Close(d));
    HistoryAppend(s.log, Discarded(d), c);
    OfPrepend(Packet(s.address, Clear, d, d), s.queue, c);
    if d == c {
      Closed(s.clients[c], t.clients[c], Of(s.queue, c), History(s.log, c), c, reported);
      assert reported + [] == reported;
    } else {
      assert [] + Of(s.queue, c) == Of(s.queue, c) && History(s.log, c) + [] == History(s.log, c);
      SameDelivery(s, t, c, reported);
    }
  }

  lemma ClosesKnown(s: System, d: nat)
    requires Enabled(s, Close(d))
    ensures d in s.clients
  {
  }

  lemma AbortDelivers(s: System, d: nat, c: nat, reported: seq<Event>)
    requires Inv(s, true) && DeliversTo(s, c, reported) && Enabled(s, Abort(d)) && s.clients[d].pcb
    ensures DeliversTo(Next(s, Abort(d)), c, reported + Reports(s, Abort(d), c))
  {
    hide Inv, DeliversTo;
    AbortEffect(s, d);
    NotDiscarded(s, d);
    var t := Next(s, Abort(d));
    if s.clients[d].registered {
      PushDelivers(s, t, Packet(s.address, Error, d, d), t.clients[d], c, reported);
    } else {
      SameDelivery(s, t, c, reported);
    }
  }

  lemma DispatchDelivers(s: System, c: nat, reported: seq<Event>)
    requires Inv(s, true) && DeliversTo(s, c, reported) && Enabled(s, Dispatch)
    ensures DeliversTo(Next(s, Dispatch), c, reported + [])
  {
    hide Next, Enabled, Inv, History, Of, Delivers, Keep;
    HeadIsKnown(s);
    PacketsOf(s);
    DispatchPackets(s);
    DispatchShape(s);
    var p, t := s.queue[0], Next(s, Dispatch);
    if c == p.client {
      HeadIsFirst(s.queue, c);
      HistoryAppend(s.log, Handled(p.event, c), c);
      HistoryAppend(s.log + [Handled(p.event, c)], Discarded(c), c);
      InvOf(s, c);
      Dispatched(s.clients[c], Of(s.queue, c), History(s.log, c), c, reported);
      DispatchedHead(s, t, c);
      assert reported + [] == reported;
    } else {
      if c in s.clients {
        DispatchOthers(s, t, c);
      }
      SameDelivery(s, t, c, reported);
    }
  }

  lemma PacketsOf(s: System)
    requires Inv(s, true)
    ensures QueueInv(s)
  {
  }

  lemma InvOf(s: System, c: nat)
    requires Inv(s, true) && c in s.clients
    ensures ClientInv(s.clients[c], Of(s.queue, c), true)
  {
  }

  // Only FIN and ERROR discard, and a client that gets an event has not been discarded.
  lemma DispatchedHead(s: System, t: System, c: nat)
    requires Inv(s, true) && Enabled(s, Dispatch) && t == Next(s, Dispatch)
    requires s.queue != [] && s.queue[0].client == c && c in s.clients && c in t.clients
    ensures var e, k := s.queue[0].event, t.clients[c];
            (e in {Accept, Recv, SentEvent, Poll} ==> !k.discarded) && (e in {Fin, Error} ==> k.discarded)
            && (e == Clear ==> k == s.clients[c])
  {
    hide Next, Enabled, Keep, ClientInv, Inv;
    DispatchShape(s);
    InvOf(s, c);
    HeadIsFirst(s.queue, c);
    DispatchKeepsClient(s.clients[c], Of(s.queue, c), true);
  }

  lemma StepDelivers(s: System, step: Step, c: nat, reported: seq<Event>)
    requires Inv(s, true) && DeliversTo(s, c, reported) && Enabled(s, step)
    ensures DeliversTo(Next(s, step), c, reported + Reports(s, step, c))
  {
    hide Inv, DeliversTo, Pick;
    match step
    case LwipAccept(d) => AcceptDelivers(s, d, c, reported);
    case LwipEvent(_, _) => LwipDelivers(s, step, c, reported);
    case LwipFin(_) => LwipDelivers(s, step, c, reported);
    case LwipError(_) => LwipDelivers(s, step, c, reported);
    case Close(d) =>
      if s.clients[d].pcb {
        CloseDelivers(s, d, c, reported);
      } else {
        assert reported + [] == reported;
      }
    case Abort(d) =>
      if s.clients[d].pcb {
        AbortDelivers(s, d, c, reported);
      } else {
        assert reported + [] == reported;
      }
    case Dispatch => DispatchDelivers(s, c, reported);
  }

  lemma {:induction false} RunDelivers(s: System, steps: seq<Step>, c: nat, reported: seq<Event>)
    requires Inv(s, true) && DeliversTo(s, c, reported) && Possible(s, steps)
    ensures DeliversTo(Run(s, steps), c, reported + Reported(s, steps, c))
    decreases |steps|
  {
    hide Inv, DeliversTo, Enabled, Next, Reports;
    if steps == [] {
      assert reported + [] == reported;
    } else {
      StepKeepsInv(s, steps[0], true);
      StepDelivers(s, steps[0], c, reported);
      RunDelivers(Next(s, steps[0]), steps[1..], c, reported + Reports(s, steps[0], c));
      Associative(reported, Reports(s, steps[0], c), Reported(Next(s, steps[0]), steps[1..], c));
    }
  }

  // Main result for the events: over every run whose purges are not interrupted, what a client's callbacks have
  // got and what is still queued for it are all that lwIP reported to it, in order, until it is discarded.  From
  // then on what it got is the beginning of that, and all of it unless the application closed it.
  lemma EventsArriveInOrder(start: System, steps: seq<Step>, c: nat)
    requires Starts(start) && Possible(start, steps)
    ensures var s, reported := Run(start, steps), Reported(start, steps, c);
            var got := Got(History(s.log, c));
            && got <= reported
            && (c in s.clients && !s.clients[c].discarded ==> got + Of(s.queue, c) == reported)
            && (got != [] && got[|got| - 1] in {Fin, Error} ==> got == reported)
            && (s.queue == [] && c in s.clients && !s.clients[c].discarded ==> got == reported)
  {
    hide Inv, Run, Possible, Reported, History, Of;
    StartInv(start, true);
    NothingReported(start, c);
    RunDelivers(start, steps, c, []);
    EveryRunIsSafe(start, steps);
    var s, reported := Run(start, steps), Reported(start, steps, c);
    assert [] + reported == reported;
    if c !in s.clients {
      NoHistoryOf(s, c);
    }
    NoneQueued(c);
  }

  lemma NothingReported(start: System, c: nat)
    requires Starts(start)
    ensures DeliversTo(start, c, [])
  {
  }

  lemma NoHistoryOf(s: System, c: nat)
    requires Inv(s, true) && c !in s.clients
    ensures History(s.log, c) == []
  {
    NoHistory(s.log, c);
  }

  lemma NoneQueued(c: nat)
    ensures Of([], c) == []
  {
  }
}
