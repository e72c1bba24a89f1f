/**
 * The two-thread event protocol of AsyncTCP for accepted (server-side) clients.  lwIP callbacks push
 * events; the async task dispatches them and runs the application's close and abort calls.  Each
 * callback body is one step.
 */
module AsyncTcpProtocol {
  import opened AsyncTcpQueue

  // ---------- slots ----------

  // CONFIG_LWIP_MAX_ACTIVE_TCP
  const SLOTS: nat := 16

  // The constructor's choice among _closed_slots: the last of the least recently closed, -1 if none.
  ghost predicate IsPick(slots: seq<int>, r: int) {
    if r == -1 then forall i :: 0 <= i < |slots| ==> slots[i] == 0
    else
      && 0 <= r < |slots| && slots[r] != 0
      && (forall i :: 0 <= i < |slots| && slots[i] != 0 ==> slots[r] <= slots[i])
      && (forall i :: r < i < |slots| && slots[i] != 0 ==> slots[r] < slots[i])
  }

  // The loop after the first n slots.
  function PickAmong(slots: seq<int>, n: nat): (r: int)
    requires n <= |slots|
    requires forall i :: 0 <= i < n ==> slots[i] >= 0
    ensures IsPick(slots[..n], r)
  {
    if n == 0 then -1
    else
      var r := PickAmong(slots, n - 1);
      var least := if r == -1 then 0 else slots[r];
      assert forall i :: 0 <= i < n - 1 ==> slots[..n][i] == slots[..n - 1][i];
      if (r == -1 || slots[n - 1] <= least) && slots[n - 1] != 0 then n - 1 else r
  }

  function Pick(slots: seq<int>): (r: int)
    requires forall i :: 0 <= i < |slots| ==> slots[i] >= 0
    ensures IsPick(slots, r)
  {
    assert slots[..|slots|] == slots;
    PickAmong(slots, |slots|)
  }

  // How many slots are in use.
  function InUse(slots: seq<int>): nat {
    if slots == [] then 0 else (if slots[0] == 0 then 1 else 0) + InUse(slots[1..])
  }

  lemma {:induction false} InUseUpdate(slots: seq<int>, i: nat, x: int)
    requires i < |slots|
    ensures InUse(slots[i := x]) ==
              InUse(slots) - (if slots[i] == 0 then 1 else 0) + (if x == 0 then 1 else 0)
  {
    if i == 0 {
      assert slots[0 := x][1..] == slots[1..];
    } else {
      InUseUpdate(slots[1..], i - 1, x);
      assert slots[i := x][1..] == slots[1..][i - 1 := x];
    }
  }

  lemma {:induction false} InUseFull(slots: seq<int>)
    ensures InUse(slots) <= |slots|
    ensures InUse(slots) == |slots| <==> forall i :: 0 <= i < |slots| ==> slots[i] == 0
  {
    if slots != [] {
      InUseFull(slots[1..]);
      assert (forall i :: 0 <= i < |slots| ==> slots[i] == 0) <==>
             slots[0] == 0 && forall i :: 0 <= i < |slots[1..]| ==> slots[1..][i] == 0;
    }
  }

  // ---------- state ----------

  // pcb: _pcb is not NULL.  registered: lwIP still calls back with this client as its argument.
  // accepted, discarded: the ACCEPT event has been dispatched, the discard callback has run.
  // released: the slot has been given back.
  datatype Client = Client(pcb: bool, registered: bool, accepted: bool, discarded: bool, released: bool, slot: nat)

  // What the application sees, in order.
  datatype Entry = Handled(event: Event, client: nat) | Discarded(client: nat)

  datatype System = System(
    queue: seq<Packet>, clients: map<nat, Client>, slots: seq<int>, closedIndex: int,
    log: seq<Entry>, address: nat, accepts: nat, fins: nat)

  function Initial(): (s: System)
    ensures Starts(s)
  {
    System([], map[], seq(SLOTS, _ => 1), 1, [], 0, 0, 0)
  }

  // Before the first client.
  predicate Starts(s: System) {
    && s.queue == [] && s.clients == map[] && s.log == [] && s.accepts == 0 && s.fins == 0
    && |s.slots| == SLOTS && s.closedIndex == 1 && forall i :: 0 <= i < |s.slots| ==> s.slots[i] == 1
  }

  function Push(s: System, event: Event, c: nat): System {
    s.(queue := s.queue + [Packet(s.address, event, if event == Accept then SERVER else c, c)],
       address := s.address + 1)
  }

  function Prepend(s: System, event: Event, c: nat): System {
    s.(queue := [Packet(s.address, event, if event == Accept then SERVER else c, c)] + s.queue,
       address := s.address + 1)
  }

  function Set(s: System, c: nat, client: Client): System {
    s.(clients := s.clients[c := client])
  }

  function Log(s: System, e: Entry): System {
    s.(log := s.log + [e])
  }

  // ---------- steps ----------

  datatype Step =
    | LwipAccept(c: nat)   // AsyncServer::_accept
    | LwipEvent(c: nat, event: Event)   // _tcp_recv with data, _tcp_sent, _tcp_poll
    | LwipFin(c: nat)      // _tcp_recv without data: _lwip_fin, then the FIN event
    | LwipError(c: nat)    // _tcp_error
    | Close(c: nat)        // AsyncClient::_close, from the application or the rx timeout
    | Abort(c: nat)        // AsyncClient::abort
    | Dispatch             // _async_service_task takes one event

  predicate SlotsSane(s: System) {
    |s.slots| == SLOTS && forall i :: 0 <= i < |s.slots| ==> s.slots[i] >= 0
  }

  // A step is possible.  A push into a full queue waits; an accepted client is new; lwIP calls back only
  // where it is registered; the application knows a client from its ACCEPT event on.
  predicate Enabled(s: System, step: Step) {
    match step
    case LwipAccept(c) => c != SERVER && c !in s.clients && |s.queue| < CAPACITY && SlotsSane(s) && Pick(s.slots) != -1
    case LwipEvent(c, event) =>
      event in {Recv, SentEvent, Poll} && c in s.clients && s.clients[c].registered && |s.queue| < CAPACITY
    case LwipFin(c) =>
      c in s.clients && s.clients[c].registered && |s.queue| < CAPACITY && s.clients[c].slot < |s.slots|
    case LwipError(c) => c in s.clients && s.clients[c].registered && |s.queue| < CAPACITY
    case Close(c) => c in s.clients && s.clients[c].accepted && |s.queue| < CAPACITY
    case Abort(c) => c in s.clients && s.clients[c].accepted && |s.queue| < CAPACITY
    case Dispatch => s.queue != [] && s.queue[0].client in s.clients
  }

  // _lwip_fin: the client is cut off and its slot given back, in the lwIP thread.
  function LwipFinBody(s: System, c: nat): System
    requires c in s.clients && s.clients[c].slot < |s.slots|
  {
    var k := s.clients[c];
    if !k.pcb then s
    else Set(s, c, k.(pcb := false, registered := false, released := true))
         .(slots := s.slots[k.slot := s.closedIndex], closedIndex := s.closedIndex + 1, fins := s.fins + 1)
  }

  // _close: nothing for a client without a control block.
  function CloseBody(s: System, c: nat): System
    requires c in s.clients
  {
    var k := s.clients[c];
    if !k.pcb then s
    else Log(Prepend(Set(s, c, k.(pcb := false, registered := false, discarded := true)), Clear, c), Discarded(c))
  }

  // _handle_async_event, on the packet just taken from the queue.
  function Handle(s: System, p: Packet): System
    requires p.client in s.clients
  {
    var c, k := p.client, s.clients[p.client];
    match p.event
    case Clear => s.(queue := Keep(s.queue, p.arg))
    case Accept => Log(Set(s, c, k.(accepted := true)), Handled(Accept, c))
    case Fin => Log(Prepend(Set(Log(s, Handled(Fin, c)), c, k.(discarded := true)), Clear, c), Discarded(c))
    case Error =>
      Log(Set(Log(s, Handled(Error, c)), c, k.(pcb := false, registered := false, discarded := true)), Discarded(c))
    case _ => Log(s, Handled(p.event, c))
  }

  function Next(s: System, step: Step): System
    requires Enabled(s, step)
  {
    match step
    case LwipAccept(c) =>
      var slot := Pick(s.slots);
      Prepend(Set(s, c, Client(true, true, false, false, false, slot))
              .(slots := s.slots[slot := 0], accepts := s.accepts + 1), Accept, c)
    case LwipEvent(c, event) => Push(s, event, c)
    case LwipFin(c) => Push(LwipFinBody(s, c), Fin, c)
    case LwipError(c) => Push(Set(s, c, s.clients[c].(registered := false)), Error, c)
    case Close(c) => CloseBody(s, c)
    case Abort(c) =>
      var k := s.clients[c];
      if !k.pcb then s
      else
        var t := Set(s, c, k.(pcb := false, registered := false));
        if k.registered then Push(t, Error, c) else t
    case Dispatch => Handle(s.(queue := s.queue[1..]), s.queue[0])
  }

  // ---------- what every step keeps ----------

  // One client against its own events in the queue.  What a purge needs in order not to be disturbed is
  // less than what runs without arrivals in a purge give: finLast tells the two apart.
  ghost predicate ClientInv(k: Client, es: seq<Event>, finLast: bool) {
    // its ACCEPT comes first, and is gone once dispatched
    && (if k.accepted then Accept !in es
        else es != [] && es[0] == Accept && Accept !in es[1..])
    // ERROR is its last event, and FIN too if finLast; it has one as soon as lwIP has let it go
    && (forall i :: 0 <= i < |es| - 1 ==> es[i] != Error && (finLast ==> es[i] != Fin))
    && (k.registered ==> k.pcb && !k.discarded && Fin !in es && Error !in es)
    && (Fin in es ==> !k.pcb)
    && (!k.registered && !k.discarded ==> Fin in es || Error in es)
    // a discarded client is cut off, and whatever is queued for it sits behind its CLEAR
    && (k.discarded ==> k.accepted && !k.registered && !k.pcb && (es == [] || es[0] == Clear))
    && (!k.discarded ==> Clear !in es)
  }

  // The clients that hold a slot hold different ones, marked as in use.
  ghost predicate SlotInv(s: System) {
    && SlotsSane(s) && s.closedIndex > 0
    && InUse(s.slots) == s.accepts - s.fins
    && (forall c <- s.clients :: s.clients[c].slot < SLOTS && (s.clients[c].pcb ==> !s.clients[c].released))
    && (forall c <- s.clients :: !s.clients[c].released ==> s.slots[s.clients[c].slot] == 0)
    && (forall c <- s.clients, d <- s.clients ::
          c != d && !s.clients[c].released && !s.clients[d].released ==> s.clients[c].slot != s.clients[d].slot)
  }

  ghost predicate QueueInv(s: System) {
    && |s.queue| <= CAPACITY && SERVER !in s.clients
    && (forall p <- s.queue :: WellFormed(p) && p.client in s.clients && p.address < s.address)
    && Distinct(s.queue)
  }

  // The entries about client c, in order.
  function History(log: seq<Entry>, c: nat): seq<Entry> {
    if log == [] then []
    else History(log[..|log| - 1], c) + if log[|log| - 1].client == c then [log[|log| - 1]] else []
  }

  // Its ACCEPT first and once, then events, and nothing after its one discard.
  ghost predicate LegalHistory(h: seq<Entry>) {
    forall i :: 0 <= i < |h| ==>
      && (h[i].Handled? && h[i].event == Accept <==> i == 0)
      && (h[i].Discarded? ==> i == |h| - 1)
  }

  ghost predicate HistoryInv(k: Client, h: seq<Entry>) {
    && LegalHistory(h)
    && (k.accepted <==> h != [])
    && (k.discarded <==> h != [] && h[|h| - 1].Discarded?)
  }

  ghost predicate LogInv(s: System) {
    && (forall e <- s.log :: e.client in s.clients)
    && (forall c <- s.clients :: HistoryInv(s.clients[c], History(s.log, c)))
  }

  ghost predicate ClientsInv(s: System, finLast: bool) {
    forall c <- s.clients :: ClientInv(s.clients[c], Of(s.queue, c), finLast)
  }

  ghost predicate Inv(s: System, finLast: bool) {
    QueueInv(s) && ClientsInv(s, finLast) && SlotInv(s) && LogInv(s)
  }

  // ---------- the queue and the clients ----------

  lemma {:induction false} NoPackets(q: seq<Packet>, c: nat)
    requires forall p <- q :: p.client != c
    ensures Of(q, c) == []
  {
    if q != [] {
      assert q[0] in q;
      NoPackets(q[1..], c);
    }
  }

  lemma OfPrepend(p: Packet, q: seq<Packet>, c: nat)
    ensures Of([p] + q, c) == (if p.client == c then [p.event] else []) + Of(q, c)
  {
    assert ([p] + q)[1..] == q;
  }

  // A callback on client c that pushes one event for it.
  lemma PushKeepsClients(s: System, event: Event, c: nat, k: Client, finLast: bool)
    requires ClientsInv(s, finLast) && c in s.clients
    requires ClientInv(k, Of(s.queue, c) + [event], finLast)
    ensures ClientsInv(Push(Set(s, c, k), event, c), finLast)
  {
    var t := Push(Set(s, c, k), event, c);
    forall d | d in t.clients
      ensures ClientInv(t.clients[d], Of(t.queue, d), finLast)
    {
      OfAppend(s.queue, t.queue[|s.queue|], d);
      if d != c {
        assert Of(s.queue, d) + [] == Of(s.queue, d);
      }
    }
  }

  lemma PrependKeepsClients(s: System, event: Event, c: nat, k: Client, finLast: bool)
    requires forall d <- s.clients :: d != c ==> ClientInv(s.clients[d], Of(s.queue, d), finLast)
    requires ClientInv(k, [event] + Of(s.queue, c), finLast)
    ensures ClientsInv(Prepend(Set(s, c, k), event, c), finLast)
  {
    var t := Prepend(Set(s, c, k), event, c);
    forall d | d in t.clients
      ensures ClientInv(t.clients[d], Of(t.queue, d), finLast)
    {
      OfPrepend(t.queue[0], s.queue, d);
      if d != c {
        assert [] + Of(s.queue, d) == Of(s.queue, d);
      }
    }
  }

  // Taking the head packet takes the first event of its client and of no other.
  lemma HeadIsFirst(q: seq<Packet>, c: nat)
    requires q != []
    ensures q[0].client == c ==> Of(q, c) != [] && Of(q, c)[0] == q[0].event && Of(q, c)[1..] == Of(q[1..], c)
    ensures q[0].client != c ==> Of(q, c) == Of(q[1..], c)
  {
    if q[0].client == c {
      assert ([q[0].event] + Of(q[1..], c))[1..] == Of(q[1..], c);
    } else {
      assert [] + Of(q[1..], c) == Of(q[1..], c);
    }
  }

  // ---------- one client, one step ----------

  lemma EventKeepsClient(k: Client, es: seq<Event>, event: Event, finLast: bool)
    requires ClientInv(k, es, finLast) && k.registered
    ensures event in {Recv, SentEvent, Poll} ==> ClientInv(k, es + [event], finLast)
    ensures event == Error ==> ClientInv(k.(registered := false), es + [event], finLast)
    ensures event in {Fin, Error} ==> ClientInv(k.(registered := false, pcb := false), es + [event], finLast)
    ensures event in {Fin, Error} ==>
              ClientInv(k.(registered := false, pcb := false, released := true), es + [event], finLast)
  {
    var fs := es + [event];
    assert fs[..|es|] == es;
    assert es != [] ==> fs[1..] == es[1..] + [event];
  }

  lemma CloseKeepsClient(k: Client, es: seq<Event>, finLast: bool)
    requires ClientInv(k, es, finLast) && k.accepted && k.pcb
    ensures ClientInv(k.(pcb := false, registered := false, discarded := true), [Clear] + es, finLast)
  {
    var fs := [Clear] + es;
    assert fs[1..] == es;
  }

  // What dispatching its first event does to a client.
  lemma DispatchKeepsClient(k: Client, es: seq<Event>, finLast: bool)
    requires ClientInv(k, es, finLast) && es != []
    ensures es[0] == Clear || !k.discarded
    ensures es[0] == Accept <==> !k.accepted
    ensures es[0] == Accept ==> ClientInv(k.(accepted := true), es[1..], finLast)
    ensures es[0] in {Recv, SentEvent, Poll} ==> ClientInv(k, es[1..], finLast)
    ensures es[0] == Error || (es[0] == Fin && finLast) ==> es[1..] == []
    ensures es[0] == Fin ==> ClientInv(k.(discarded := true), [Clear] + es[1..], finLast)
    ensures es[0] == Error ==> ClientInv(k.(pcb := false, registered := false, discarded := true), [], finLast)
    ensures es[0] == Clear ==> Accept !in es[1..] && ClientInv(k, [], finLast)
  {
    HeadKeepsClient(k, es, finLast);
    hide ClientInv;
    match es[0]
    case Fin => EndKeepsClient(k, es, finLast);
    case Error => EndKeepsClient(k, es, finLast);
    case Clear => EndKeepsClient(k, es, finLast);
    case _ => PlainKeepsClient(k, es, finLast);
  }

  lemma HeadKeepsClient(k: Client, es: seq<Event>, finLast: bool)
    requires ClientInv(k, es, finLast) && es != []
    ensures es[0] == Clear || !k.discarded
    ensures es[0] == Accept <==> !k.accepted
  {
    assert es[0] in es;
  }

  lemma PlainKeepsClient(k: Client, es: seq<Event>, finLast: bool)
    requires ClientInv(k, es, finLast) && es != []
    ensures es[0] == Accept ==> ClientInv(k.(accepted := true), es[1..], finLast)
    ensures es[0] in {Recv, SentEvent, Poll} ==> ClientInv(k, es[1..], finLast)
  {
    var fs := es[1..];
    assert es == [es[0]] + fs && es[0] in es;
    assert forall i :: 0 <= i < |fs| ==> fs[i] == es[i + 1];
  }

  lemma EndKeepsClient(k: Client, es: seq<Event>, finLast: bool)
    requires ClientInv(k, es, finLast) && es != []
    ensures es[0] == Error || (es[0] == Fin && finLast) ==> es[1..] == []
    ensures es[0] == Fin ==> ClientInv(k.(discarded := true), [Clear] + es[1..], finLast)
    ensures es[0] == Error ==> ClientInv(k.(pcb := false, registered := false, discarded := true), [], finLast)
    ensures es[0] == Clear ==> Accept !in es[1..] && ClientInv(k, [], finLast)
  {
    var fs := es[1..];
    assert es == [es[0]] + fs && es[0] in es && ([Clear] + fs)[1..] == fs;
    assert forall i :: 0 <= i < |fs| ==> fs[i] == es[i + 1];
  }

  // ---------- every step, all clients ----------

  lemma AcceptKeepsClients(s: System, c: nat, finLast: bool)
    requires QueueInv(s) && ClientsInv(s, finLast) && Enabled(s, LwipAccept(c))
    ensures ClientsInv(Next(s, LwipAccept(c)), finLast)
  {
    NoPackets(s.queue, c);
    var slot := Pick(s.slots);
    var k := Client(true, true, false, false, false, slot);
    assert ClientInv(k, [Accept] + Of(s.queue, c), finLast);
    hide ClientInv, Pick;
    PrependKeepsClients(s.(slots := s.slots[slot := 0], accepts := s.accepts + 1), Accept, c, k, finLast);
  }

  lemma LwipEventKeepsClients(s: System, step: Step, finLast: bool)
    requires ClientsInv(s, finLast) && Enabled(s, step) && (step.LwipEvent? || step.LwipFin? || step.LwipError?)
    requires step.LwipFin? ==> s.clients[step.c].pcb
    ensures ClientsInv(Next(s, step), finLast)
  {
    hide ClientInv;
    var c := step.c;
    var k := s.clients[c];
    assert s.clients[c := k] == s.clients;
    match step
    case LwipEvent(_, event) =>
      EventKeepsClient(k, Of(s.queue, c), event, finLast);
      PushKeepsClients(s, event, c, k, finLast);
    case LwipFin(_) =>
      var t := s.(slots := s.slots[k.slot := s.closedIndex], closedIndex := s.closedIndex + 1, fins := s.fins + 1);
      EventKeepsClient(k, Of(s.queue, c), Fin, finLast);
      PushKeepsClients(t, Fin, c, k.(pcb := false, registered := false, released := true), finLast);
    case LwipError(_) =>
      EventKeepsClient(k, Of(s.queue, c), Error, finLast);
      PushKeepsClients(s, Error, c, k.(registered := false), finLast);
  }

  lemma CloseKeepsClients(s: System, c: nat, finLast: bool)
    requires ClientsInv(s, finLast) && Enabled(s, Close(c))
    ensures ClientsInv(Next(s, Close(c)), finLast)
  {
    var k := s.clients[c];
    if k.pcb {
      CloseKeepsClient(k, Of(s.queue, c), finLast);
      hide ClientInv;
      PrependKeepsClients(s, Clear, c, k.(pcb := false, registered := false, discarded := true), finLast);
    }
  }

  lemma AbortKeepsClients(s: System, c: nat, finLast: bool)
    requires ClientsInv(s, finLast) && Enabled(s, Abort(c))
    ensures ClientsInv(Next(s, Abort(c)), finLast)
  {
    var k := s.clients[c];
    if k.registered {
      EventKeepsClient(k, Of(s.queue, c), Error, finLast);
      hide ClientInv;
      PushKeepsClients(s, Error, c, k.(pcb := false, registered := false), finLast);
    } else {
      assert ClientInv(k.(pcb := false), Of(s.queue, c), finLast);
    }
  }

  // What one dispatch changes.
  lemma DispatchShape(s: System)
    requires Enabled(s, Dispatch)
    ensures var p, t := s.queue[0], Next(s, Dispatch);
            var c, k := p.client, s.clients[p.client];
            && t.slots == s.slots && t.closedIndex == s.closedIndex && t.accepts == s.accepts && t.fins == s.fins
            && t.address == s.address + (if p.event == Fin then 1 else 0)
            && t.queue == (match p.event
                           case Clear => Keep(s.queue[1..], p.arg)
                           case Fin => [Packet(s.address, Clear, c, c)] + s.queue[1..]
                           case _ => s.queue[1..])
            && t.clients == (match p.event
                             case Accept => s.clients[c := k.(accepted := true)]
                             case Fin => s.clients[c := k.(discarded := true)]
                             case Error => s.clients[c := k.(pcb := false, registered := false, discarded := true)]
                             case _ => s.clients)
            && t.log == (match p.event
                         case Clear => s.log
                         case Fin => s.log + [Handled(Fin, c)] + [Discarded(c)]
                         case Error => s.log + [Handled(Error, c)] + [Discarded(c)]
                         case _ => s.log + [Handled(p.event, c)])
  {
    hide Keep;
  }

  lemma DispatchKeepsClients(s: System, finLast: bool)
    requires QueueInv(s) && ClientsInv(s, finLast) && Enabled(s, Dispatch)
    ensures ClientsInv(Next(s, Dispatch), finLast)
  {
    hide ClientInv, Next, Handle;
    DispatchShape(s);
    var p, rest, t := s.queue[0], s.queue[1..], Next(s, Dispatch);
    var c, k := p.client, s.clients[p.client];
    assert p in s.queue;
    HeadIsFirst(s.queue, c);
    DispatchKeepsClient(k, Of(s.queue, c), finLast);
    forall d | d in t.clients
      ensures ClientInv(t.clients[d], Of(t.queue, d), finLast)
    {
      HeadIsFirst(s.queue, d);
      if p.event == Clear {
        OfKeep(rest, c, d);
      } else if p.event == Fin {
        OfPrepend(t.queue[0], rest, d);
        assert [] + Of(rest, d) == Of(rest, d);
      }
    }
  }

  // ---------- slots, packets and the log ----------

  // lwIP calls back only for clients with a control block.
  ghost predicate Attached(s: System) {
    forall c <- s.clients :: s.clients[c].registered ==> s.clients[c].pcb
  }

  lemma ClientsAreAttached(s: System, finLast: bool)
    requires ClientsInv(s, finLast)
    ensures Attached(s)
  {
    forall c <- s.clients
      ensures s.clients[c].registered ==> s.clients[c].pcb
    {
      assert ClientInv(s.clients[c], Of(s.queue, c), finLast);
    }
  }

  lemma StepKeepsSlots(s: System, step: Step)
    requires SlotInv(s) && Attached(s) && Enabled(s, step)
    ensures SlotInv(Next(s, step))
  {
    hide SlotInv, Next, Enabled;
    match step
    case LwipAccept(c) => AcceptKeepsSlots(s, c);
    case LwipFin(c) => FinKeepsSlots(s, c);
    case Dispatch => HeadIsKnown(s); DispatchKeepsSlots(s);
    case LwipEvent(_, _) => FlagsKeepSlots(s, step);
    case LwipError(_) => FlagsKeepSlots(s, step);
    case Close(_) => FlagsKeepSlots(s, step);
    case Abort(_) => FlagsKeepSlots(s, step);
  }

  lemma HeadIsKnown(s: System)
    requires Enabled(s, Dispatch)
    ensures s.queue != [] && s.queue[0].client in s.clients
  {
  }

  lemma DispatchKeepsSlots(s: System)
    requires SlotInv(s) && Enabled(s, Dispatch) && s.queue != [] && s.queue[0].client in s.clients
    ensures SlotInv(Next(s, Dispatch))
  {
    hide SlotInv, Next, Enabled, Keep;
    DispatchShape(s);
    SlotFrame(s, Next(s, Dispatch));
  }

  lemma FlagsKeepSlots(s: System, step: Step)
    requires SlotInv(s) && Enabled(s, step) && (step.LwipEvent? || step.LwipError? || step.Close? || step.Abort?)
    ensures SlotInv(Next(s, step))
  {
    hide SlotInv;
    SlotFrame(s, Next(s, step));
  }

  lemma AcceptKeepsSlots(s: System, c: nat)
    requires SlotInv(s) && Enabled(s, LwipAccept(c))
    ensures SlotInv(Next(s, LwipAccept(c)))
  {
    var slot := Pick(s.slots);
    hide Pick;
    InUseUpdate(s.slots, slot, 0);
    var t := Next(s, LwipAccept(c));
    assert t.clients == s.clients[c := Client(true, true, false, false, false, slot)];
    assert t.slots == s.slots[slot := 0];
  }

  lemma FinKeepsSlots(s: System, c: nat)
    requires SlotInv(s) && Attached(s) && Enabled(s, LwipFin(c))
    ensures SlotInv(Next(s, LwipFin(c)))
  {
    var k := s.clients[c];
    assert k.pcb && !k.released;
    var t := Next(s, LwipFin(c));
    assert t.clients == s.clients[c := k.(pcb := false, registered := false, released := true)];
    assert t.slots == s.slots[k.slot := s.closedIndex];
    assert t.closedIndex == s.closedIndex + 1 && t.accepts == s.accepts && t.fins == s.fins + 1;
    hide Next, Enabled;
    ReleaseKeepsSlots(s, t, c);
  }

  lemma ReleaseKeepsSlots(s: System, t: System, c: nat)
    requires SlotInv(s) && c in s.clients && !s.clients[c].released
    requires t.clients == s.clients[c := s.clients[c].(pcb := false, registered := false, released := true)]
    requires s.clients[c].slot < |s.slots| && t.slots == s.slots[s.clients[c].slot := s.closedIndex]
    requires t.closedIndex == s.closedIndex + 1 && t.accepts == s.accepts && t.fins == s.fins + 1
    ensures SlotInv(t)
  {
    InUseUpdate(s.slots, s.clients[c].slot, s.closedIndex);
    hide InUse;
  }

  // Flags may fall without any slot changing hands.
  lemma SlotFrame(s: System, t: System)
    requires SlotInv(s)
    requires t.slots == s.slots && t.closedIndex == s.closedIndex && t.accepts == s.accepts && t.fins == s.fins
    requires t.clients.Keys == s.clients.Keys
    requires forall c <- s.clients ::
               && t.clients[c].slot == s.clients[c].slot && t.clients[c].released == s.clients[c].released
               && (t.clients[c].pcb ==> s.clients[c].pcb)
    ensures SlotInv(t)
  {
  }

  lemma StepKeepsPackets(s: System, step: Step)
    requires QueueInv(s) && Enabled(s, step)
    ensures QueueInv(Next(s, step))
  {
    hide QueueInv, Keep;
    var t := Next(s, step);
    match step
    case LwipAccept(c) => PushKeepsPackets(s, t, Accept, c);
    case LwipEvent(c, event) =>
      KnownClients(s);
      PushKeepsPackets(s, t, event, c);
    case LwipFin(c) =>
      KnownClients(s);
      PushKeepsPackets(s, t, Fin, c);
    case LwipError(c) =>
      KnownClients(s);
      PushKeepsPackets(s, t, Error, c);
    case Close(c) =>
      KnownClients(s);
      if s.clients[c].pcb {
        PushKeepsPackets(s, t, Clear, c);
      }
    case Abort(c) =>
      KnownClients(s);
      if s.clients[c].pcb && s.clients[c].registered {
        PushKeepsPackets(s, t, Error, c);
      } else {
        FewerPackets(s, t);
      }
    case Dispatch => DispatchKeepsPackets(s);
  }

  lemma KnownClients(s: System)
    requires QueueInv(s)
    ensures SERVER !in s.clients
  {
  }

  // A new packet, at either end, for a client that is known or becomes known.
  lemma PushKeepsPackets(s: System, t: System, event: Event, c: nat)
    requires QueueInv(s) && |s.queue| < CAPACITY && c != SERVER
    requires t.clients.Keys == s.clients.Keys + {c} && t.address == s.address + 1
    requires t.queue == Push(s, event, c).queue || t.queue == Prepend(s, event, c).queue
    ensures QueueInv(t)
  {
    var p := Packet(s.address, event, if event == Accept then SERVER else c, c);
    assert forall q :: q in t.queue <==> q in s.queue || q == p;
    assert Distinct(s.queue + [p]) && Distinct([p] + s.queue);
  }

  // The same clients, and packets that were there before, in an order that keeps them distinct.
  lemma FewerPackets(s: System, t: System)
    requires QueueInv(s) && t.clients.Keys == s.clients.Keys && t.address == s.address
    requires t.queue == s.queue || (|t.queue| <= |s.queue| && Distinct(t.queue))
    requires forall p <- t.queue :: p in s.queue
    ensures QueueInv(t)
  {
  }

  lemma DispatchKeepsPackets(s: System)
    requires QueueInv(s) && Enabled(s, Dispatch)
    ensures QueueInv(Next(s, Dispatch))
  {
    DispatchShape(s);
    hide Next, Handle, QueueInv;
    var p, rest := s.queue[0], s.queue[1..];
    var t := s.(queue := rest);
    var u := Next(s, Dispatch);
    assert forall q <- rest :: q in s.queue;
    RestDistinct(s);
    FewerPackets(s, t);
    if p.event == Clear {
      KeepAndDropPartition(rest, p.arg);
      KeepDistinct(rest, p.arg);
      FewerPackets(t, u);
    } else if p.event == Fin {
      RoomAfterTaking(s);
      PushKeepsPackets(t, u, Clear, p.client);
    } else {
      FewerPackets(t, u);
    }
  }

  lemma RestDistinct(s: System)
    requires QueueInv(s) && s.queue != []
    ensures Distinct(s.queue[1..])
  {
  }

  lemma RoomAfterTaking(s: System)
    requires QueueInv(s) && s.queue != []
    ensures |s.queue[1..]| < CAPACITY && s.queue[0].client != SERVER
  {
    assert s.queue[0] in s.queue;
  }

  lemma {:induction false} KeepDistinct(q: seq<Packet>, arg: nat)
    requires Distinct(q)
    ensures Distinct(Keep(q, arg))
  {
    if q != [] {
      KeepDistinct(q[1..], arg);
      KeepAndDropPartition(q[1..], arg);
      HeadIsDistinct(q);
      hide Distinct, Drop;
      if q[0].arg == arg {
        assert [] + Keep(q[1..], arg) == Keep(q[1..], arg);
      } else {
        DistinctCons(q[0], Keep(q[1..], arg));
      }
    }
  }

  lemma HeadIsDistinct(q: seq<Packet>)
    requires Distinct(q) && q != []
    ensures forall p <- q[1..] :: p.address != q[0].address
  {
    assert forall i :: 0 <= i < |q| - 1 ==> q[1..][i] == q[i + 1];
  }

  lemma DistinctCons(p: Packet, q: seq<Packet>)
    requires Distinct(q) && forall x <- q :: x.address != p.address
    ensures Distinct([p] + q)
  {
  }

  lemma HistoryAppend(log: seq<Entry>, e: Entry, c: nat)
    ensures History(log + [e], c) == History(log, c) + if e.client == c then [e] else []
    ensures e.client != c ==> History(log + [e], c) == History(log, c)
  {
    assert (log + [e])[..|log|] == log;
    assert History(log, c) + [] == History(log, c);
  }

  // One more entry about one client.
  lemma LogKeepsHistories(s: System, c: nat, k: Client, e: Entry)
    requires LogInv(s) && c in s.clients && e.client == c
    requires HistoryInv(k, History(s.log, c) + [e])
    ensures LogInv(Log(Set(s, c, k), e))
  {
    hide HistoryInv, History;
    var t := Log(Set(s, c, k), e);
    forall d | d in t.clients
      ensures HistoryInv(t.clients[d], History(t.log, d))
    {
      HistoryAppend(s.log, e, d);
    }
  }

  lemma HandleKeepsHistory(k: Client, h: seq<Entry>, e: Entry)
    requires HistoryInv(k, h) && !k.discarded && e.Handled?
    requires e.event == Accept <==> !k.accepted
    ensures HistoryInv(k.(accepted := true), h + [e])
  {
  }

  // A new client has no history.
  lemma {:induction false} NoHistory(log: seq<Entry>, c: nat)
    requires forall e <- log :: e.client != c
    ensures History(log, c) == []
  {
    if log != [] {
      NoHistory(log[..|log| - 1], c);
      assert log[|log| - 1] in log;
    }
  }

  lemma StepKeepsLog(s: System, step: Step, finLast: bool)
    requires LogInv(s) && ClientsInv(s, finLast) && Enabled(s, step)
    ensures LogInv(Next(s, step))
  {
    hide ClientsInv, LogInv, Of, Pick;
    match step
    case LwipAccept(c) => AcceptKeepsLog(s, c);
    case Close(c) =>
      if s.clients[c].pcb {
        CloseKeepsLog(s, c, finLast);
      }
    case Dispatch => DispatchKeepsLog(s, finLast);
    case LwipEvent(c, _) => FlagsKeepLog(s, Next(s, step));
    case LwipFin(c) => FlagsKeepLog(s, Next(s, step));
    case LwipError(c) => FlagsKeepLog(s, Next(s, step));
    case Abort(c) => FlagsKeepLog(s, Next(s, step));
  }

  lemma AcceptKeepsLog(s: System, c: nat)
    requires LogInv(s) && Enabled(s, LwipAccept(c))
    ensures LogInv(Next(s, LwipAccept(c)))
  {
    hide Pick, History;
    NoHistory(s.log, c);
  }

  lemma CloseKeepsLog(s: System, c: nat, finLast: bool)
    requires LogInv(s) && ClientsInv(s, finLast) && Enabled(s, Close(c)) && s.clients[c].pcb
    ensures LogInv(Next(s, Close(c)))
  {
    hide LogInv, Of;
    assert ClientInv(s.clients[c], Of(s.queue, c), finLast);
    var k' := s.clients[c].(pcb := false, registered := false, discarded := true);
    DiscardKeepsLog(s, c, k');
    SameLog(Log(Set(s, c, k'), Discarded(c)), Next(s, Close(c)));
  }

  // Flags that the history does not look at.
  lemma FlagsKeepLog(s: System, t: System)
    requires LogInv(s) && t.log == s.log && t.clients.Keys == s.clients.Keys
    requires forall c <- s.clients ::
               t.clients[c].accepted == s.clients[c].accepted && t.clients[c].discarded == s.clients[c].discarded
    ensures LogInv(t)
  {
    hide History, LegalHistory;
  }

  lemma HeadOfClient(s: System, finLast: bool)
    requires ClientsInv(s, finLast) && s.queue != [] && s.queue[0].client in s.clients
    ensures var p, k := s.queue[0], s.clients[s.queue[0].client];
            (p.event == Clear || !k.discarded) && (p.event == Accept <==> !k.accepted)
  {
    hide ClientInv, Of;
    var c := s.queue[0].client;
    HeadIsFirst(s.queue, c);
    assert ClientInv(s.clients[c], Of(s.queue, c), finLast);
    DispatchKeepsClient(s.clients[c], Of(s.queue, c), finLast);
  }

  lemma DispatchKeepsLog(s: System, finLast: bool)
    requires LogInv(s) && ClientsInv(s, finLast) && Enabled(s, Dispatch)
    ensures LogInv(Next(s, Dispatch))
  {
    hide ClientInv, ClientsInv, Of, HistoryInv, LogInv, Keep, Next, Enabled;
    HeadIsKnown(s);
    HeadOfClient(s, finLast);
    DispatchShape(s);
    var p := s.queue[0];
    var c, k := p.client, s.clients[p.client];
    var t := Next(s, Dispatch);
    match p.event
    case Clear => SameLog(s, t);
    case Accept =>
      AcceptedKeepsLog(s, c);
      SameLog(Log(Set(s, c, k.(accepted := true)), Handled(Accept, c)), t);
    case Fin => EndKeepsLog(s, t, Fin, c, k.(discarded := true));
    case Error => EndKeepsLog(s, t, Error, c, k.(pcb := false, registered := false, discarded := true));
    case _ =>
      HandledKeepsLog(s, c, p.event);
      SameLog(Log(s, Handled(p.event, c)), t);
  }

  lemma SameLog(s: System, t: System)
    requires LogInv(s) && t.log == s.log && t.clients == s.clients
    ensures LogInv(t)
  {
  }

  lemma AcceptedKeepsLog(s: System, c: nat)
    requires LogInv(s) && c in s.clients && !s.clients[c].discarded && !s.clients[c].accepted
    ensures LogInv(Log(Set(s, c, s.clients[c].(accepted := true)), Handled(Accept, c)))
  {
    HandleKeepsHistory(s.clients[c], History(s.log, c), Handled(Accept, c));
    LogKeepsHistories(s, c, s.clients[c].(accepted := true), Handled(Accept, c));
  }

  lemma HandledKeepsLog(s: System, c: nat, event: Event)
    requires LogInv(s) && c in s.clients && !s.clients[c].discarded && s.clients[c].accepted && event != Accept
    ensures LogInv(Log(s, Handled(event, c)))
  {
    var k := s.clients[c];
    assert k.(accepted := true) == k && s.clients[c := k] == s.clients;
    HandleKeepsHistory(k, History(s.log, c), Handled(event, c));
    LogKeepsHistories(s, c, k, Handled(event, c));
  }

  // The last event of a client, followed by its discard.
  lemma EndKeepsLog(s: System, t: System, event: Event, c: nat, k: Client)
    requires LogInv(s) && c in s.clients && !s.clients[c].discarded && s.clients[c].accepted && event != Accept
    requires k.accepted && k.discarded
    requires t.log == s.log + [Handled(event, c)] + [Discarded(c)] && t.clients == s.clients[c := k]
    ensures LogInv(t)
  {
    HandledKeepsLog(s, c, event);
    var u := Log(s, Handled(event, c));
    DiscardKeepsLog(u, c, k);
    SameLog(Log(Set(u, c, k), Discarded(c)), t);
  }

  lemma DiscardKeepsLog(s: System, c: nat, k: Client)
    requires LogInv(s) && c in s.clients && s.clients[c].accepted && !s.clients[c].discarded
    requires k.accepted && k.discarded
    ensures LogInv(Log(Set(s, c, k), Discarded(c)))
  {
    hide LogInv, HistoryInv, History, LegalHistory, Log, Set;
    HistoryOf(s, c);
    DiscardKeepsHistory(s.clients[c], k, History(s.log, c), c);
    LogKeepsHistories(s, c, k, Discarded(c));
  }

  lemma HistoryOf(s: System, c: nat)
    requires LogInv(s) && c in s.clients
    ensures HistoryInv(s.clients[c], History(s.log, c))
  {
  }

  lemma DiscardKeepsHistory(k: Client, k': Client, h: seq<Entry>, c: nat)
    requires HistoryInv(k, h) && k.accepted && !k.discarded && k'.accepted && k'.discarded
    ensures HistoryInv(k', h + [Discarded(c)])
  {
  }

  // ---------- runs ----------

  lemma StepKeepsInv(s: System, step: Step, finLast: bool)
    requires Inv(s, finLast) && Enabled(s, step)
    ensures Inv(Next(s, step), finLast)
  {
    hide ClientInv, Next, Enabled, LogInv, SlotInv, QueueInv;
    ClientsAreAttached(s, finLast);
    StepKeepsSlots(s, step);
    StepKeepsPackets(s, step);
    StepKeepsLog(s, step, finLast);
    StepKeepsClients(s, step, finLast);
  }

  lemma StepKeepsClients(s: System, step: Step, finLast: bool)
    requires QueueInv(s) && ClientsInv(s, finLast) && Enabled(s, step)
    ensures ClientsInv(Next(s, step), finLast)
  {
    match step
    case LwipAccept(c) => AcceptKeepsClients(s, c, finLast);
    case LwipEvent(_, _) => LwipEventKeepsClients(s, step, finLast);
    case LwipFin(c) =>
      assert ClientInv(s.clients[c], Of(s.queue, c), finLast);
      LwipEventKeepsClients(s, step, finLast);
    case LwipError(_) => LwipEventKeepsClients(s, step, finLast);
    case Close(c) => CloseKeepsClients(s, c, finLast);
    case Abort(c) => AbortKeepsClients(s, c, finLast);
    case Dispatch => DispatchKeepsClients(s, finLast);
  }

  predicate Possible(s: System, steps: seq<Step>)
    decreases |steps|
  {
    steps == [] || (Enabled(s, steps[0]) && Possible(Next(s, steps[0]), steps[1..]))
  }

  function Run(s: System, steps: seq<Step>): System
    requires Possible(s, steps)
    decreases |steps|
  {
    if steps == [] then s else Run(Next(s, steps[0]), steps[1..])
  }

  lemma {:induction false} RunKeepsInv(s: System, steps: seq<Step>, finLast: bool)
    requires Inv(s, finLast) && Possible(s, steps)
    ensures Inv(Run(s, steps), finLast)
    decreases |steps|
  {
    if steps != [] {
      StepKeepsInv(s, steps[0], finLast);
      RunKeepsInv(Next(s, steps[0]), steps[1..], finLast);
    }
  }

  lemma {:induction false} NoSlotInUse(slots: seq<int>)
    requires forall i :: 0 <= i < |slots| ==> slots[i] != 0
    ensures InUse(slots) == 0
  {
    if slots != [] {
      NoSlotInUse(slots[1..]);
    }
  }

  // Main result: over every run, each client's ACCEPT is dispatched first and once, its discard
  // callback runs at most once, and no event is dispatched to it afterwards.
  lemma EveryRunIsSafe(start: System, steps: seq<Step>)
    requires Starts(start) && Possible(start, steps)
    ensures Inv(Run(start, steps), true)
    ensures forall c :: LegalHistory(History(Run(start, steps).log, c))
  {
    hide Inv, LegalHistory, Run, Possible;
    StartInv(start, true);
    RunKeepsInv(start, steps, true);
    var s := Run(start, steps);
    forall c
      ensures LegalHistory(History(s.log, c))
    {
      HistoryIsLegal(s, c, true);
    }
  }

  lemma StartInv(s: System, finLast: bool)
    requires Starts(s)
    ensures Inv(s, finLast)
  {
    NoSlotInUse(s.slots);
  }

  lemma HistoryIsLegal(s: System, c: nat, finLast: bool)
    requires Inv(s, finLast)
    ensures LegalHistory(History(s.log, c))
  {
    if c !in s.clients {
      NoHistory(s.log, c);
    } else {
      assert HistoryInv(s.clients[c], History(s.log, c));
    }
  }

  // Nothing is forgotten: when the queue has drained, every client has been announced, and each one
  // that lwIP has let go has been discarded.
  lemma DrainedQueueMeansSettled(start: System, steps: seq<Step>, c: nat)
    requires Starts(start) && Possible(start, steps)
    requires Run(start, steps).queue == [] && c in Run(start, steps).clients
    ensures var s := Run(start, steps);
            var h := History(s.log, c);
            h != [] && (s.clients[c].registered <==> !h[|h| - 1].Discarded?)
  {
    hide Run, Possible, Starts;
    EveryRunIsSafe(start, steps);
    Settled(Run(start, steps), c, true);
  }

  lemma Settled(s: System, c: nat, finLast: bool)
    requires ClientsInv(s, finLast) && LogInv(s) && s.queue == [] && c in s.clients
    ensures var h := History(s.log, c); h != [] && (s.clients[c].registered <==> !h[|h| - 1].Discarded?)
  {
    hide History, LegalHistory;
    assert ClientInv(s.clients[c], Of(s.queue, c), finLast) && Of(s.queue, c) == [];
    assert HistoryInv(s.clients[c], History(s.log, c));
  }

  // The constructor finds a free slot if and only if fewer than SLOTS of the clients accepted so far
  // have yet to end by FIN: closing or losing a client any other way gives no slot back.
  lemma SlotAvailableIff(start: System, steps: seq<Step>)
    requires Starts(start) && Possible(start, steps)
    ensures var s := Run(start, steps);
            SlotsSane(s) && (Pick(s.slots) != -1 <==> s.accepts - s.fins < SLOTS)
  {
    hide Run, Possible, Starts;
    EveryRunIsSafe(start, steps);
    SlotLeft(Run(start, steps));
  }

  // A client with a control block has its slot marked in use, by itself alone, so the
  // tcpip_api_call wrappers do not mistake it for a closed one.
  lemma LiveClientOwnsSlot(start: System, steps: seq<Step>, c: nat, d: nat)
    requires Starts(start) && Possible(start, steps)
    requires var s := Run(start, steps); c in s.clients && s.clients[c].pcb && d in s.clients && s.clients[d].pcb
    ensures var s := Run(start, steps);
            && s.clients[c].slot < |s.slots| && s.slots[s.clients[c].slot] == 0
            && (c != d ==> s.clients[c].slot != s.clients[d].slot)
  {
    EveryRunIsSafe(start, steps);
  }

  // ---------- running out of slots ----------

  lemma {:induction false} RunAppend(s: System, a: seq<Step>, b: seq<Step>)
    requires Possible(s, a) && Possible(Run(s, a), b)
    ensures Possible(s, a + b) && Run(s, a + b) == Run(Run(s, a), b)
    decreases |a|
  {
    hide Next, Enabled;
    if a == [] {
      assert a + b == b;
    } else {
      RunAppend(Next(s, a[0]), a[1..], b);
      assert (a + b)[1..] == a[1..] + b;
    }
  }

  lemma SlotLeft(s: System)
    requires SlotInv(s)
    ensures SlotsSane(s) && (Pick(s.slots) != -1 <==> s.accepts - s.fins < SLOTS)
  {
    InUseFull(s.slots);
  }

  // A client is accepted and its ACCEPT dispatched.
  lemma AcceptShape(s: System, c: nat)
    requires s.queue == [] && c != SERVER && c !in s.clients && SlotsSane(s) && Pick(s.slots) != -1
    ensures Enabled(s, LwipAccept(c)) && Enabled(Next(s, LwipAccept(c)), Dispatch)
    ensures var t := Next(Next(s, LwipAccept(c)), Dispatch);
            && t.queue == [] && t.accepts == s.accepts + 1 && t.fins == s.fins
            && t.clients == s.clients[c := Client(true, true, true, false, false, Pick(s.slots))]
  {
    hide Pick;
    var s1 := Next(s, LwipAccept(c));
    assert s1.queue == [Packet(s.address, Accept, SERVER, c)];
  }

  lemma AcceptRun(s: System, c: nat)
    requires Inv(s, true) && s.queue == [] && c != SERVER && c !in s.clients && s.accepts - s.fins < SLOTS
    ensures var steps := [LwipAccept(c), Dispatch];
            && Possible(s, steps)
            && var t := Run(s, steps);
               && Inv(t, true) && t.queue == [] && t.accepts == s.accepts + 1 && t.fins == s.fins
               && t.clients == s.clients[c := Client(true, true, true, false, false, Pick(s.slots))]
  {
    SlotLeft(s);
    AcceptShape(s, c);
    hide Inv, Next, Enabled, Pick, Possible, Run;
    StepKeepsInv(s, LwipAccept(c), true);
    StepKeepsInv(Next(s, LwipAccept(c)), Dispatch, true);
    TwoSteps(s, LwipAccept(c), Dispatch);
  }

  // It is closed, and its CLEAR dispatched.
  lemma CloseShape(s: System, c: nat)
    requires s.queue == [] && c in s.clients && s.clients[c].accepted && s.clients[c].pcb
    ensures Enabled(s, Close(c)) && Enabled(Next(s, Close(c)), Dispatch)
    ensures var t := Next(Next(s, Close(c)), Dispatch);
            && t.queue == [] && t.accepts == s.accepts && t.fins == s.fins
            && t.clients == s.clients[c := s.clients[c].(pcb := false, registered := false, discarded := true)]
  {
    var s1 := Next(s, Close(c));
    assert s1.queue == [Packet(s.address, Clear, c, c)] && s1.queue[1..] == [];
  }

  lemma CloseRun(s: System, c: nat)
    requires Inv(s, true) && s.queue == [] && c in s.clients && s.clients[c].accepted && s.clients[c].pcb
    ensures var steps := [Close(c), Dispatch];
            && Possible(s, steps)
            && var t := Run(s, steps);
               && Inv(t, true) && t.queue == [] && t.accepts == s.accepts && t.fins == s.fins
               && t.clients == s.clients[c := s.clients[c].(pcb := false, registered := false, discarded := true)]
  {
    CloseShape(s, c);
    hide Inv, Next, Enabled, Possible, Run;
    StepKeepsInv(s, Close(c), true);
    StepKeepsInv(Next(s, Close(c)), Dispatch, true);
    TwoSteps(s, Close(c), Dispatch);
  }

  lemma TwoSteps(s: System, a: Step, b: Step)
    requires Enabled(s, a) && Enabled(Next(s, a), b)
    ensures Possible(s, [a, b]) && Run(s, [a, b]) == Next(Next(s, a), b)
  {
    hide Next, Enabled;
    var s1 := Next(s, a);
    assert Possible(Next(s1, b), []) && Possible(s1, [b]) by {
      assert [b][1..] == [];
    }
    assert [a, b][1..] == [b] && [b][1..] == [];
    assert Run(s1, [b]) == Run(Next(s1, b), []);
  }

  function OneRound(c: nat): seq<Step> {
    [LwipAccept(c), Dispatch] + [Close(c), Dispatch]
  }

  // n clients, from c on, each accepted and then closed.
  function AcceptAndClose(c: nat, n: nat): seq<Step>
    decreases n
  {
    if n == 0 then [] else OneRound(c) + AcceptAndClose(c + 1, n - 1)
  }

  lemma Round(s: System, c: nat)
    requires Inv(s, true) && s.queue == [] && c != SERVER && s.accepts - s.fins < SLOTS
    requires forall d <- s.clients :: d < c && !s.clients[d].pcb
    ensures Possible(s, OneRound(c))
            && var t := Run(s, OneRound(c));
               && Inv(t, true) && t.queue == [] && t.accepts == s.accepts + 1 && t.fins == s.fins
               && forall d <- t.clients :: d < c + 1 && !t.clients[d].pcb
  {
    hide Inv, Pick, Possible, Run;
    AcceptRun(s, c);
    var s1 := Run(s, [LwipAccept(c), Dispatch]);
    CloseRun(s1, c);
    RunAppend(s, [LwipAccept(c), Dispatch], [Close(c), Dispatch]);
  }

  lemma {:induction false} RoundsUseSlots(s: System, c: nat, n: nat)
    requires Inv(s, true) && s.queue == [] && c != SERVER && s.accepts - s.fins + n <= SLOTS
    requires forall d <- s.clients :: d < c && !s.clients[d].pcb
    ensures var steps := AcceptAndClose(c, n);
            && Possible(s, steps)
            && var t := Run(s, steps);
               && Inv(t, true) && t.queue == [] && t.accepts - t.fins == s.accepts - s.fins + n
               && forall d <- t.clients :: !t.clients[d].pcb
    decreases n
  {
    hide Inv, OneRound, Next, Enabled;
    if n == 0 {
      assert AcceptAndClose(c, 0) == [];
    } else {
      hide Possible, Run;
      Round(s, c);
      RoundsUseSlots(Run(s, OneRound(c)), c + 1, n - 1);
      RunAppend(s, OneRound(c), AcceptAndClose(c + 1, n - 1));
    }
  }

  // Sixteen clients that were accepted and closed leave no slot for the next, with no client left.
  lemma SlotsRunOut(start: System)
    requires Starts(start)
    ensures var steps := AcceptAndClose(1, SLOTS);
            && Possible(start, steps)
            && var s := Run(start, steps);
               && s.queue == [] && (forall c <- s.clients :: !s.clients[c].pcb)
               && SlotsSane(s) && Pick(s.slots) == -1
  {
    hide AcceptAndClose, Run, Possible;
    StartInv(start, true);
    RoundsUseSlots(start, 1, SLOTS);
    SlotLeft(Run(start, AcceptAndClose(1, SLOTS)));
  }
}
