/**
 * AsyncTCP with the purge taken apart: while the async task rotates the queue for one CLEAR, a packet at a
 * time, lwIP goes on pushing.  Says what holds in every such run, and exactly which pushes spoil the rest.
 */
module AsyncTcpConcurrent {
  import opened Basics
  import opened AsyncTcpQueue
  import opened AsyncTcpProtocol

  // ---------- the machine ----------

  // Where _remove_events_with_arg stands: not at work, looking for its first packet to keep, or rotating
  // until that packet is at the head again.
  datatype Purge = Idle | Collecting(arg: nat) | Rotating(arg: nat, first: Packet)

  datatype Machine = Machine(s: System, purge: Purge)

  // A turn of either loop of the purge, or any other step.
  datatype Move = Turn | Do(step: Step)

  predicate FromLwip(step: Step) {
    step.LwipAccept? || step.LwipEvent? || step.LwipFin? || step.LwipError?
  }

  // The async task does nothing else while it purges.
  predicate Allowed(m: Machine, move: Move) {
    match move
    case Turn => !m.purge.Idle?
    case Do(step) => Enabled(m.s, step) && (m.purge.Idle? || FromLwip(step))
  }

  function WithQueue(s: System, q: seq<Packet>): System {
    s.(queue := q)
  }

  function TakeTurn(m: Machine): Machine
    requires !m.purge.Idle?
  {
    var q := m.s.queue;
    var arg := m.purge.arg;
    if q == [] || (m.purge.Rotating? && q[0] == m.purge.first) then m.(purge := Idle)
    else if q[0].arg == arg then m.(s := WithQueue(m.s, q[1..]))
    else
      Machine(WithQueue(m.s, q[1..] + [q[0]]), if m.purge.Collecting? then Rotating(arg, q[0]) else m.purge)
  }

  function Advance(m: Machine, move: Move): Machine
    requires Allowed(m, move)
  {
    match move
    case Turn => TakeTurn(m)
    case Do(step) =>
      if step == Dispatch && m.s.queue[0].event == Clear then
        Machine(WithQueue(m.s, m.s.queue[1..]), Collecting(m.s.queue[0].arg))
      else m.(s := Next(m.s, step))
  }

  // ---------- the queue the async task will see ----------

  // Rotated already, and still to be rotated.
  function Back(m: Machine): seq<Packet>
    requires m.purge.Rotating? && m.purge.first in m.s.queue
  {
    m.s.queue[PositionOf(m.purge.first, m.s.queue)..]
  }

  function Front(m: Machine): seq<Packet>
    requires m.purge.Rotating? && m.purge.first in m.s.queue
  {
    m.s.queue[..PositionOf(m.purge.first, m.s.queue)]
  }

  // The queue once the purge is over, if nothing else arrives.
  function Pending(m: Machine): seq<Packet>
    requires m.purge.Rotating? ==> m.purge.first in m.s.queue
  {
    match m.purge
    case Idle => m.s.queue
    case Collecting(arg) => Keep(m.s.queue, arg)
    case Rotating(arg, _) => Back(m) + Keep(Front(m), arg)
  }

  // The state of the protocol with one-step purges that this one stands for.
  function Abs(m: Machine): System
    requires m.purge.Rotating? ==> m.purge.first in m.s.queue
  {
    WithQueue(m.s, Pending(m))
  }

  // The packets are in order, and the purge is one of a discarded client.
  ghost predicate PurgeInv(m: Machine) {
    && QueueInv(m.s)
    && (!m.purge.Idle? ==> m.purge.arg in m.s.clients && m.s.clients[m.purge.arg].discarded)
    && (m.purge.Rotating? ==> m.purge.first in m.s.queue && m.purge.first.arg != m.purge.arg)
  }

  lemma PendingPackets(m: Machine)
    requires PurgeInv(m)
    ensures QueueInv(Abs(m)) && |Pending(m)| <= |m.s.queue| && forall p <- Pending(m) :: p in m.s.queue
  {
    match m.purge
    case Idle =>
    case Collecting(arg) => KeptPackets(m.s.queue, arg);
    case Rotating(arg, first) => RotatedPackets(m.s.queue, PositionOf(first, m.s.queue), arg);
    FewerPackets(m.s, Abs(m));
  }

  lemma KeptPackets(q: seq<Packet>, arg: nat)
    requires Distinct(q)
    ensures Distinct(Keep(q, arg)) && |Keep(q, arg)| <= |q| && forall p <- Keep(q, arg) :: p in q
  {
    KeepAndDropPartition(q, arg);
    KeepDistinct(q, arg);
  }

  lemma RotatedPackets(q: seq<Packet>, n: nat, arg: nat)
    requires Distinct(q) && n <= |q|
    ensures var r := q[n..] + Keep(q[..n], arg); Distinct(r) && |r| <= |q| && forall p <- r :: p in q
  {
    KeptPackets(q[..n], arg);
    hide Keep;
    assert q == q[..n] + q[n..];
    SplitDistinct(q[..n], q[n..], Keep(q[..n], arg));
  }

  lemma SplitDistinct(front: seq<Packet>, back: seq<Packet>, kept: seq<Packet>)
    requires Distinct(front + back) && Distinct(kept) && forall p <- kept :: p in front
    ensures Distinct(back + kept)
  {
    var q, r := front + back, back + kept;
    forall i, j | 0 <= i < j < |r|
      ensures r[i].address != r[j].address
    {
      if j < |back| {
        assert q[|front| + i] == r[i] && q[|front| + j] == r[j];
      } else if i < |back| {
        assert r[j] in kept;
        var k :| 0 <= k < |front| && front[k] == r[j];
        assert q[|front| + i] == r[i] && q[k] == r[j];
      } else {
        assert r[i] == kept[i - |back|] && r[j] == kept[j - |back|];
      }
    }
  }

  // ---------- turns change nothing ----------

  lemma TurnKeepsPending(m: Machine)
    requires PurgeInv(m) && !m.purge.Idle?
    ensures PurgeInv(TakeTurn(m)) && Abs(TakeTurn(m)) == Abs(m)
  {
    TurnKeepsPurge(m);
    if m.s.queue != [] {
      if m.purge.Collecting? {
        CollectingTurn(m);
      } else {
        RotatingTurn(m);
      }
    }
  }

  lemma TurnKeepsPurge(m: Machine)
    requires PurgeInv(m) && !m.purge.Idle?
    ensures PurgeInv(TakeTurn(m))
  {
    hide Distinct;
    var q := m.s.queue;
    if q != [] {
      TurnedPackets(q);
    }
  }

  lemma TurnedPackets(q: seq<Packet>)
    requires Distinct(q) && q != []
    ensures Distinct(q[1..]) && Distinct(q[1..] + [q[0]])
    ensures forall p :: p in q <==> p == q[0] || p in q[1..]
  {
    assert q == [q[0]] + q[1..];
  }

  lemma CollectingTurn(m: Machine)
    requires PurgeInv(m) && m.purge.Collecting? && m.s.queue != []
    requires PurgeInv(TakeTurn(m))
    ensures Pending(TakeTurn(m)) == Pending(m)
  {
    var q, arg := m.s.queue, m.purge.arg;
    if q[0].arg != arg {
      LastPosition(q[1..], q[0]);
      assert (q[1..] + [q[0]])[|q| - 1..] == [q[0]] && (q[1..] + [q[0]])[..|q| - 1] == q[1..];
    }
  }

  lemma {:induction false} LastPosition(q: seq<Packet>, p: Packet)
    requires p !in q
    ensures PositionOf(p, q + [p]) == |q|
  {
    if q != [] {
      LastPosition(q[1..], p);
      assert (q + [p])[1..] == q[1..] + [p];
    }
  }

  lemma RotatingTurn(m: Machine)
    requires PurgeInv(m) && m.purge.Rotating? && m.s.queue != []
    requires PurgeInv(TakeTurn(m))
    ensures Pending(TakeTurn(m)) == Pending(m)
  {
    var q, arg, first := m.s.queue, m.purge.arg, m.purge.first;
    hide PurgeInv;
    if q[0] == first {
      assert q[0..] == q && q[..0] == [] && q + [] == q;
    } else {
      hide Keep, PositionOf;
      RotateOnce(q, first, arg);
      assert q[1..] + [] == q[1..];
    }
  }

  lemma RotateOnce(q: seq<Packet>, first: Packet, arg: nat)
    requires first in q && q[0] != first
    ensures var r := q[1..] + if q[0].arg == arg then [] else [q[0]];
            && first in r
            && var n, k := PositionOf(first, q), PositionOf(first, r);
               r[k..] + Keep(r[..k], arg) == q[n..] + Keep(q[..n], arg)
  {
    hide PositionOf, Keep;
    var back := if q[0].arg == arg then [] else [q[0]];
    PositionAfterTurn(q, first, back);
    NotFirst(q, first);
    var n := PositionOf(first, q);
    SlicesAfterTurn(q, back, n);
    KeepHead(q[..n], arg);
    Associative(q[n..], back, Keep(q[..n][1..], arg));
  }

  lemma NotFirst(q: seq<Packet>, first: Packet)
    requires first in q && q[0] != first
    ensures PositionOf(first, q) > 0
  {
  }

  lemma SlicesAfterTurn(q: seq<Packet>, back: seq<Packet>, n: nat)
    requires 0 < n < |q|
    ensures var r := q[1..] + back; r[n - 1..] == q[n..] + back && r[..n - 1] == q[..n][1..]
  {
  }

  lemma KeepHead(q: seq<Packet>, arg: nat)
    requires q != []
    ensures Keep(q, arg) == (if q[0].arg == arg then [] else [q[0]]) + Keep(q[1..], arg)
  {
  }

  // ---------- pushes during a purge ----------

  // A push behind or before the queue, while the purge still collects, is a push in the protocol.
  lemma PushWhileCollecting(q: seq<Packet>, p: Packet, arg: nat)
    requires p.arg != arg
    ensures Keep(q + [p], arg) == Keep(q, arg) + [p] && Keep([p] + q, arg) == [p] + Keep(q, arg)
  {
    KeepAppend(q, p, arg);
    assert ([p] + q)[1..] == q;
  }

  lemma PositionCons(first: Packet, q: seq<Packet>, p: Packet)
    requires first in q && p != first
    ensures first in [p] + q && PositionOf(first, [p] + q) == PositionOf(first, q) + 1
  {
    assert ([p] + q)[1..] == q;
  }

  lemma SlicesBeside(p: Packet, q: seq<Packet>, n: nat)
    requires n <= |q|
    ensures (q + [p])[n..] == q[n..] + [p] && (q + [p])[..n] == q[..n]
    ensures ([p] + q)[n + 1..] == q[n..] && ([p] + q)[..n + 1] == [p] + q[..n]
  {
  }

  lemma KeepCons(p: Packet, q: seq<Packet>, arg: nat)
    requires p.arg != arg
    ensures Keep([p] + q, arg) == [p] + Keep(q, arg)
  {
    assert ([p] + q)[1..] == q;
  }

  // While it rotates, what is pushed behind lands before the packets still to be rotated, and what is pushed
  // before lands first among them.
  lemma PushWhileRotating(q: seq<Packet>, first: Packet, p: Packet, arg: nat)
    requires first in q && p != first && p.arg != arg
    ensures var n := PositionOf(first, q);
            && PositionOf(first, q + [p]) == n && (q + [p])[n..] == q[n..] + [p] && (q + [p])[..n] == q[..n]
            && PositionOf(first, [p] + q) == n + 1 && ([p] + q)[n + 1..] == q[n..]
            && Keep(([p] + q)[..n + 1], arg) == [p] + Keep(q[..n], arg)
  {
    hide Keep, PositionOf;
    PositionPrefix(first, q, [p]);
    PositionCons(first, q, p);
    SlicesBeside(p, q, PositionOf(first, q));
    KeepCons(p, q[..PositionOf(first, q)], arg);
  }

  // ---------- a step of lwIP, wherever its packet lands ----------

  function EventOf(step: Step): Event
    requires FromLwip(step)
  {
    if step.LwipAccept? then Accept else if step.LwipFin? then Fin else if step.LwipError? then Error else step.event
  }

  function NewPacket(s: System, step: Step): Packet
    requires FromLwip(step)
  {
    Packet(s.address, EventOf(step), if EventOf(step) == Accept then SERVER else step.c, step.c)
  }

  // The client afterwards.
  function After(s: System, step: Step): Client
    requires FromLwip(step) && Enabled(s, step)
  {
    match step
    case LwipAccept(_) => Client(true, true, false, false, false, Pick(s.slots))
    case LwipFin(c) =>
      if s.clients[c].pcb then s.clients[c].(pcb := false, registered := false, released := true) else s.clients[c]
    case LwipError(c) => s.clients[c].(registered := false)
    case _ => s.clients[step.c]
  }

  // What is in front of the new packet and what is behind it, of the pending ones.
  function Ahead(m: Machine, step: Step): seq<Packet>
    requires m.purge.Rotating? ==> m.purge.first in m.s.queue
  {
    if m.purge.Rotating? then Back(m) else if step.LwipAccept? then [] else Pending(m)
  }

  function Behind(m: Machine, step: Step): seq<Packet>
    requires m.purge.Rotating? ==> m.purge.first in m.s.queue
  {
    if m.purge.Rotating? then Keep(Front(m), m.purge.arg) else if step.LwipAccept? then Pending(m) else []
  }

  lemma LwipShape(s: System, step: Step)
    requires FromLwip(step) && Enabled(s, step)
    ensures var t, p := Next(s, step), NewPacket(s, step);
            && t.clients == s.clients[step.c := After(s, step)] && t.log == s.log && t.address == s.address + 1
            && t.queue == if step.LwipAccept? then [p] + s.queue else s.queue + [p]
    ensures step.LwipAccept? || (step.c in s.clients && s.clients[step.c].registered)
    ensures step.LwipAccept? || EventOf(step) in {Recv, SentEvent, Poll, Fin, Error}
  {
    hide Pick;
    if !step.LwipAccept? {
      assert s.clients == s.clients[step.c := s.clients[step.c]];
    }
  }

  // Apart from the queue, a push does the same to a system with another queue.
  lemma LwipFrame(s: System, q: seq<Packet>, step: Step)
    requires FromLwip(step) && Enabled(s, step) && |q| <= |s.queue|
    ensures Enabled(WithQueue(s, q), step)
    ensures WithQueue(Next(WithQueue(s, q), step), []) == WithQueue(Next(s, step), [])
    ensures NewPacket(WithQueue(s, q), step) == NewPacket(s, step)
  {
    hide Pick;
  }

  lemma LwipInserts(m: Machine, step: Step)
    requires PurgeInv(m) && Allowed(m, Do(step)) && FromLwip(step)
    requires !m.purge.Idle? ==> step.c != m.purge.arg
    ensures var t := Advance(m, Do(step));
            && t.purge == m.purge && (t.purge.Rotating? ==> t.purge.first in t.s.queue)
            && Ahead(m, step) + Behind(m, step) == Pending(m)
            && Pending(t) == Ahead(m, step) + [NewPacket(m.s, step)] + Behind(m, step)
  {
    LwipShape(m.s, step);
    if !m.purge.Idle? {
      PurgeArg(m);
    }
    hide PurgeInv, Allowed, Next, Pick;
    match m.purge
    case Idle => LwipInsertsIdle(m.s.queue, NewPacket(m.s, step));
    case Collecting(arg) => PushWhileCollecting(m.s.queue, NewPacket(m.s, step), arg);
      LwipInsertsIdle(Pending(m), NewPacket(m.s, step));
    case Rotating(arg, first) => LwipInsertsRotating(m, step);
  }

  lemma LwipInsertsIdle(q: seq<Packet>, p: Packet)
    ensures [] + q == q && q + [] == q && q + [p] + [] == q + [p] && [] + [p] + q == [p] + q
  {
  }

  lemma LwipInsertsRotating(m: Machine, step: Step)
    requires m.purge.Rotating? && m.purge.first in m.s.queue && FromLwip(step) && Allowed(m, Do(step))
    requires NewPacket(m.s, step) != m.purge.first && NewPacket(m.s, step).arg != m.purge.arg
    ensures var t := Advance(m, Do(step));
            && t.purge == m.purge && m.purge.first in t.s.queue
            && Pending(t) == Ahead(m, step) + [NewPacket(m.s, step)] + Behind(m, step)
  {
    LwipShape(m.s, step);
    hide Next, Pick, Enabled;
    var q, p, arg, first := m.s.queue, NewPacket(m.s, step), m.purge.arg, m.purge.first;
    PushWhileRotating(q, first, p, arg);
    hide Keep, PositionOf;
    Associative(Back(m), [p], Behind(m, step));
  }

  lemma PurgeArg(m: Machine)
    requires PurgeInv(m) && !m.purge.Idle?
    ensures m.purge.arg != SERVER && forall p <- m.s.queue :: p.address < m.s.address
    ensures m.purge.Rotating? ==> m.purge.first in m.s.queue
  {
  }

  // So the machine makes the step of the protocol, with the new packet where the purge puts it.
  lemma LwipAbs(m: Machine, step: Step)
    requires PurgeInv(m) && Allowed(m, Do(step)) && FromLwip(step)
    requires !m.purge.Idle? ==> step.c != m.purge.arg
    ensures var t, p := Advance(m, Do(step)), NewPacket(m.s, step);
            && PurgeInv(t) && Enabled(Abs(m), step)
            && Abs(t) == WithQueue(Next(Abs(m), step), Ahead(m, step) + [p] + Behind(m, step))
  {
    hide Next, Enabled, Pick, NewPacket, Keep, PositionOf, Ahead, Behind;
    LwipInserts(m, step);
    PendingPackets(m);
    LwipFrame(m.s, Pending(m), step);
    StepKeepsPackets(m.s, step);
    LwipShape(m.s, step);
  }

  // ---------- what every run keeps, disturbed or not ----------

  function Ends(es: seq<Event>): nat {
    multiset(es)[Fin] + multiset(es)[Error]
  }

  function Discards(h: seq<Entry>): nat {
    if h == [] then 0 else Discards(h[..|h| - 1]) + if h[|h| - 1].Discarded? then 1 else 0
  }

  // One client against its events, in whatever order, and its history: at most one thing is left that will
  // discard it, and nothing once it has been discarded, except behind its CLEAR.
  ghost predicate Once(k: Client, es: seq<Event>, h: seq<Entry>) {
    && Ends(es) + (if k.registered then 1 else 0) <= 1
    && (k.registered ==> k.pcb)
    && (Fin in es ==> !k.pcb)
    && (k.discarded ==> !k.registered && !k.pcb && (Ends(es) > 0 ==> es[0] == Clear))
    && (!k.discarded ==> Clear !in es)
    && Discards(h) == if k.discarded then 1 else 0
  }

  ghost predicate OnceInv(s: System) {
    && (forall e <- s.log :: e.client in s.clients)
    && forall c <- s.clients :: Once(s.clients[c], Of(s.queue, c), History(s.log, c))
  }

  lemma EndsInsert(a: seq<Event>, x: Event, b: seq<Event>)
    ensures Ends(a + [x] + b) == Ends(a + b) + if x in {Fin, Error} then 1 else 0
    ensures forall e :: e in a + [x] + b <==> e == x || e in a + b
  {
    assert multiset(a + [x] + b) == multiset(a + b) + multiset{x};
    assert forall e :: e in a + [x] + b <==> e in multiset(a + [x] + b);
    assert forall e :: e in a + b <==> e in multiset(a + b);
  }

  // A push for a registered client, wherever it lands.
  lemma ArrivalKeepsOnce(k: Client, k': Client, a: seq<Event>, x: Event, b: seq<Event>, h: seq<Entry>)
    requires Once(k, a + b, h) && k.registered
    requires x in {Recv, SentEvent, Poll, Fin, Error}
    requires k' == match x
                   case Fin => if k.pcb then k.(pcb := false, registered := false, released := true) else k
                   case Error => k.(registered := false)
                   case _ => k
    ensures Once(k', a + [x] + b, h)
  {
    EndsInsert(a, x, b);
  }

  lemma {:induction false} OfConcat(a: seq<Packet>, b: seq<Packet>, c: nat)
    ensures Of(a + b, c) == Of(a, c) + Of(b, c)
  {
    if a == [] {
      assert a + b == b;
    } else {
      OfConcat(a[1..], b, c);
      assert (a + b)[1..] == a[1..] + b;
      Associative(if a[0].client == c then [a[0].event] else [], Of(a[1..], c), Of(b, c));
    }
  }

  lemma OfInsert(a: seq<Packet>, p: Packet, b: seq<Packet>, c: nat)
    ensures Of(a + [p] + b, c) == Of(a, c) + (if p.client == c then [p.event] else []) + Of(b, c)
    ensures Of(a + b, c) == Of(a, c) + Of(b, c)
    ensures p.client != c ==> Of(a + [p] + b, c) == Of(a + b, c)
  {
    OfAppend(a, p, c);
    OfConcat(a + [p], b, c);
    OfConcat(a, b, c);
    assert Of(a, c) + [] == Of(a, c);
  }

  lemma InsertKeepsOnce(s: System, step: Step, a: seq<Packet>, b: seq<Packet>)
    requires QueueInv(s) && OnceInv(s) && FromLwip(step) && Enabled(s, step) && s.queue == a + b
    ensures OnceInv(WithQueue(Next(s, step), a + [NewPacket(s, step)] + b))
  {
    hide Next, Enabled, Once, Of, History, After, NewPacket, QueueInv;
    LwipShape(s, step);
    var t := WithQueue(Next(s, step), a + [NewPacket(s, step)] + b);
    forall d <- t.clients
      ensures Once(t.clients[d], Of(t.queue, d), History(t.log, d))
    {
      ClientInsertKeepsOnce(s, step, a, b, d);
    }
  }

  // What a push does to one client.
  lemma ClientInsertKeepsOnce(s: System, step: Step, a: seq<Packet>, b: seq<Packet>, d: nat)
    requires QueueInv(s) && OnceInv(s) && FromLwip(step) && Enabled(s, step) && s.queue == a + b
    requires d in s.clients || d == step.c
    ensures Once(if d == step.c then After(s, step) else s.clients[d],
                 Of(a + [NewPacket(s, step)] + b, d), History(s.log, d))
  {
    hide Next, Enabled, Once, Of, History, After, QueueInv, OnceInv;
    OfInsert(a, NewPacket(s, step), b, d);
    if d == step.c {
      OwnInsertKeepsOnce(s, step, a, b);
    } else {
      OnceOf(s, d);
    }
  }

  lemma OwnInsertKeepsOnce(s: System, step: Step, a: seq<Packet>, b: seq<Packet>)
    requires QueueInv(s) && OnceInv(s) && FromLwip(step) && Enabled(s, step) && s.queue == a + b
    ensures Once(After(s, step), Of(a, step.c) + [NewPacket(s, step).event] + Of(b, step.c), History(s.log, step.c))
  {
    var c := step.c;
    OfConcat(a, b, c);
    LwipShape(s, step);
    hide Next, Pick, Once, Of, History;
    if step.LwipAccept? {
      NoPackets(s.queue, c);
      NoHistory(s.log, c);
      assert Of(a, c) == [] && Of(b, c) == [] && [] + [Accept] + [] == [Accept];
      NewClientOnce(After(s, step).slot);
    } else {
      assert Once(s.clients[c], Of(s.queue, c), History(s.log, c));
      ArrivalKeepsOnce(s.clients[c], After(s, step), Of(a, c), EventOf(step), Of(b, c), History(s.log, c));
    }
  }

  lemma NewClientOnce(slot: nat)
    ensures Once(Client(true, true, false, false, false, slot), [Accept], [])
  {
    assert multiset([Accept]) == multiset{Accept};
  }

  lemma DiscardsAppend(h: seq<Entry>, e: Entry)
    ensures Discards(h + [e]) == Discards(h) + if e.Discarded? then 1 else 0
  {
    assert (h + [e])[..|h|] == h;
  }

  lemma EndsPrepend(x: Event, es: seq<Event>)
    ensures Ends([x] + es) == Ends(es) + if x in {Fin, Error} then 1 else 0
    ensures forall e :: e in [x] + es <==> e == x || e in es
  {
    assert multiset([x] + es) == multiset{x} + multiset(es);
  }

  // ---------- the steps of the async task ----------

  // A step that concerns one client, and perhaps logs an entry about it.
  lemma OneClientMoves(s: System, t: System, c: nat)
    requires OnceInv(s) && c in s.clients && t.clients.Keys == s.clients.Keys
    requires forall e <- t.log :: e in s.log || e.client == c
    requires forall d <- s.clients :: d != c ==>
               t.clients[d] == s.clients[d] && Of(t.queue, d) == Of(s.queue, d)
               && History(t.log, d) == History(s.log, d)
    requires Once(t.clients[c], Of(t.queue, c), History(t.log, c))
    ensures OnceInv(t)
  {
    hide Once, Of, History;
  }

  lemma OnceOf(s: System, c: nat)
    requires OnceInv(s) && c in s.clients
    ensures Once(s.clients[c], Of(s.queue, c), History(s.log, c))
  {
  }

  lemma CloseEffect(s: System, c: nat)
    requires Enabled(s, Close(c)) && s.clients[c].pcb
    ensures var t, k := Next(s, Close(c)), s.clients[c];
            && t.queue == [Packet(s.address, Clear, c, c)] + s.queue && t.log == s.log + [Discarded(c)]
            && t.clients == s.clients[c := k.(pcb := false, registered := false, discarded := true)]
  {
  }

  lemma CloseKeepsOnce(s: System, c: nat)
    requires OnceInv(s) && Enabled(s, Close(c)) && c in s.clients && s.clients[c].pcb
    ensures OnceInv(Next(s, Close(c)))
  {
    hide Next, Enabled, Once, OnceInv, Of, History;
    var t := Next(s, Close(c));
    CloseEffect(s, c);
    OnceOf(s, c);
    ClosedOnce(s.clients[c], Of(s.queue, c), History(s.log, c), c);
    forall d: nat
      ensures Of(t.queue, d) == (if d == c then [Clear] else []) + Of(s.queue, d)
      ensures History(t.log, d) == History(s.log, d) + if d == c then [Discarded(c)] else []
    {
      OfPrepend(Packet(s.address, Clear, c, c), s.queue, d);
      HistoryAppend(s.log, Discarded(c), d);
    }
    OneClientMoves(s, t, c);
  }

  lemma ClosedOnce(k: Client, es: seq<Event>, h: seq<Entry>, c: nat)
    requires Once(k, es, h) && k.pcb
    ensures Once(k.(pcb := false, registered := false, discarded := true), [Clear] + es, h + [Discarded(c)])
  {
    EndsPrepend(Clear, es);
    DiscardsAppend(h, Discarded(c));
  }

  lemma AbortEffect(s: System, c: nat)
    requires Enabled(s, Abort(c)) && s.clients[c].pcb
    ensures var t, k := Next(s, Abort(c)), s.clients[c];
            && t.queue == (if k.registered then s.queue + [Packet(s.address, Error, c, c)] else s.queue)
            && t.log == s.log && t.clients == s.clients[c := k.(pcb := false, registered := false)]
  {
  }

  lemma AbortKeepsOnce(s: System, c: nat)
    requires OnceInv(s) && Enabled(s, Abort(c)) && c in s.clients && s.clients[c].pcb
    ensures OnceInv(Next(s, Abort(c)))
  {
    hide Next, Enabled, Once, OnceInv, Of, History;
    var t, k := Next(s, Abort(c)), s.clients[c];
    AbortEffect(s, c);
    OnceOf(s, c);
    AbortedOnce(k, Of(s.queue, c), History(s.log, c));
    forall d: nat
      ensures Of(t.queue, d) == if d == c && k.registered then Of(s.queue, d) + [Error] else Of(s.queue, d)
    {
      OfAppend(s.queue, Packet(s.address, Error, c, c), d);
      assert Of(s.queue, d) + [] == Of(s.queue, d);
    }
    OneClientMoves(s, t, c);
  }

  lemma AbortedOnce(k: Client, es: seq<Event>, h: seq<Entry>)
    requires Once(k, es, h) && k.pcb
    ensures Once(k.(pcb := false, registered := false), if k.registered then es + [Error] else es, h)
  {
    EndsInsert(es, Error, []);
    assert es + [Error] + [] == es + [Error] && es + [] == es;
  }

  // What dispatching its first event does to a client.
  lemma DispatchKeepsOnce(k: Client, es: seq<Event>, h: seq<Entry>, c: nat)
    requires Once(k, es, h) && es != []
    ensures es[0] == Clear ==> k.discarded
    ensures es[0] == Clear ==> forall fs: seq<Event> :: (forall e <- fs :: e == Accept) ==> Once(k, fs, h)
    ensures es[0] == Accept ==> Once(k.(accepted := true), es[1..], h + [Handled(Accept, c)])
    ensures es[0] in {Recv, SentEvent, Poll} ==> Once(k, es[1..], h + [Handled(es[0], c)])
    ensures es[0] == Fin ==>
              Once(k.(discarded := true), [Clear] + es[1..], h + [Handled(Fin, c)] + [Discarded(c)])
    ensures es[0] == Error ==>
              Once(k.(pcb := false, registered := false, discarded := true), es[1..],
                   h + [Handled(Error, c)] + [Discarded(c)])
  {
    hide Once;
    match es[0]
    case Clear => ClearDispatched(k, es, h);
    case Fin => EndDispatched(k, es, h, c);
    case Error => EndDispatched(k, es, h, c);
    case _ => PlainDispatched(k, es, h, c);
  }

  lemma ClearDispatched(k: Client, es: seq<Event>, h: seq<Entry>)
    requires Once(k, es, h) && es != [] && es[0] == Clear
    ensures k.discarded && forall fs: seq<Event> :: (forall e <- fs :: e == Accept) ==> Once(k, fs, h)
  {
    assert Clear in es;
    forall fs: seq<Event> | forall e <- fs :: e == Accept
      ensures Once(k, fs, h)
    {
      assert forall e :: e in multiset(fs) <==> e in fs;
    }
  }

  lemma PlainDispatched(k: Client, es: seq<Event>, h: seq<Entry>, c: nat)
    requires Once(k, es, h) && es != [] && es[0] in {Accept, Recv, SentEvent, Poll}
    ensures Once(if es[0] == Accept then k.(accepted := true) else k, es[1..], h + [Handled(es[0], c)])
  {
    hide Ends, Discards;
    assert es == [es[0]] + es[1..];
    EndsPrepend(es[0], es[1..]);
    DiscardsAppend(h, Handled(es[0], c));
  }

  // FIN and ERROR fire the discard callback.
  lemma EndDispatched(k: Client, es: seq<Event>, h: seq<Entry>, c: nat)
    requires Once(k, es, h) && es != [] && es[0] in {Fin, Error}
    ensures es[0] == Fin ==>
              Once(k.(discarded := true), [Clear] + es[1..], h + [Handled(Fin, c)] + [Discarded(c)])
    ensures es[0] == Error ==>
              Once(k.(pcb := false, registered := false, discarded := true), es[1..],
                   h + [Handled(Error, c)] + [Discarded(c)])
  {
    hide Ends, Discards;
    assert es == [es[0]] + es[1..];
    EndsPrepend(es[0], es[1..]);
    EndsPrepend(Clear, es[1..]);
    DiscardsAppend(h, Handled(es[0], c));
    DiscardsAppend(h + [Handled(es[0], c)], Discarded(c));
  }

  lemma {:induction false} KeepOwn(q: seq<Packet>, c: nat)
    requires forall p <- q :: WellFormed(p)
    ensures forall e <- Of(Keep(q, c), c) :: e == Accept
  {
    if q != [] {
      assert q[0] in q && forall p <- q[1..] :: p in q;
      KeepOwn(q[1..], c);
      var one := if q[0].arg == c then [] else [q[0]];
      OfConcat(one, Keep(q[1..], c), c);
    }
  }

  // The packets of a dispatch are well-formed.
  lemma DispatchPackets(s: System)
    requires QueueInv(s) && s.queue != []
    ensures WellFormed(s.queue[0]) && s.queue[0].client in s.clients && s.queue[0].client != SERVER
    ensures forall x <- s.queue[1..] :: WellFormed(x)
  {
    assert s.queue[0] in s.queue;
    forall x <- s.queue[1..]
      ensures WellFormed(x)
    {
      assert x in s.queue;
    }
  }

  lemma DispatchStepKeepsOnce(s: System)
    requires QueueInv(s) && OnceInv(s) && Enabled(s, Dispatch) && s.queue != []
    ensures OnceInv(Next(s, Dispatch))
  {
    hide Next, Enabled, Once, OnceInv, QueueInv, Keep, Of, History;
    DispatchPackets(s);
    DispatchShape(s);
    var p, t := s.queue[0], Next(s, Dispatch);
    DispatchOwn(s, t);
    forall d <- s.clients | d != p.client
      ensures t.clients[d] == s.clients[d] && Of(t.queue, d) == Of(s.queue, d) && History(t.log, d) == History(s.log, d)
    {
      DispatchOthers(s, t, d);
    }
    OneClientMoves(s, t, p.client);
  }

  // The queue and the log of one client across a dispatch.
  lemma DispatchOthers(s: System, t: System, d: nat)
    requires s.queue != [] && forall x <- s.queue[1..] :: WellFormed(x)
    requires d != s.queue[0].client && s.queue[0].client != SERVER
    requires var p, c := s.queue[0], s.queue[0].client;
             && p.arg == (if p.event == Accept then SERVER else c)
             && t.queue == (match p.event
                            case Clear => Keep(s.queue[1..], p.arg)
                            case Fin => [Packet(s.address, Clear, c, c)] + s.queue[1..]
                            case _ => s.queue[1..])
             && t.log == (match p.event
                          case Clear => s.log
                          case Fin => s.log + [Handled(Fin, c)] + [Discarded(c)]
                          case Error => s.log + [Handled(Error, c)] + [Discarded(c)]
                          case _ => s.log + [Handled(p.event, c)])
    ensures Of(t.queue, d) == Of(s.queue, d) && History(t.log, d) == History(s.log, d)
  {
    var p, c, rest := s.queue[0], s.queue[0].client, s.queue[1..];
    HeadIsFirst(s.queue, d);
    HistoryAppend(s.log, Handled(p.event, c), d);
    HistoryAppend(s.log + [Handled(p.event, c)], Discarded(c), d);
    OfPrepend(Packet(s.address, Clear, c, c), rest, d);
    assert [] + Of(rest, d) == Of(rest, d);
    if p.event == Clear {
      OfKeep(rest, c, d);
    }
  }

  lemma DispatchOwn(s: System, t: System)
    requires QueueInv(s) && OnceInv(s) && Enabled(s, Dispatch) && s.queue != [] && t == Next(s, Dispatch)
    ensures var c := s.queue[0].client; c in t.clients && Once(t.clients[c], Of(t.queue, c), History(t.log, c))
  {
    hide Next, Enabled, Once, OnceInv, QueueInv, Keep, Of, History;
    DispatchPackets(s);
    DispatchShape(s);
    var p, rest := s.queue[0], s.queue[1..];
    var c := p.client;
    OnceOf(s, c);
    HeadIsFirst(s.queue, c);
    HistoryAppend(s.log, Handled(p.event, c), c);
    HistoryAppend(s.log + [Handled(p.event, c)], Discarded(c), c);
    OfPrepend(Packet(s.address, Clear, c, c), rest, c);
    KeepOwn(rest, c);
    DispatchKeepsOnce(s.clients[c], Of(s.queue, c), History(s.log, c), c);
  }

  lemma StepKeepsOnce(s: System, step: Step)
    requires QueueInv(s) && OnceInv(s) && Enabled(s, step)
    ensures OnceInv(Next(s, step))
  {
    if FromLwip(step) {
      LwipShape(s, step);
      var p := NewPacket(s, step);
      LwipInsertsIdle(s.queue, p);
      if step.LwipAccept? {
        InsertKeepsOnce(s, step, [], s.queue);
      } else {
        InsertKeepsOnce(s, step, s.queue, []);
      }
    } else {
      match step
      case Close(c) =>
        if s.clients[c].pcb {
          CloseKeepsOnce(s, c);
        }
      case Abort(c) =>
        if s.clients[c].pcb {
          AbortKeepsOnce(s, c);
        }
      case Dispatch => DispatchStepKeepsOnce(s);
    }
  }

  // ---------- every run ----------

  ghost predicate AnyInv(m: Machine) {
    PurgeInv(m) && SlotInv(m.s) && OnceInv(Abs(m))
  }

  lemma OnceAttached(s: System)
    requires OnceInv(s)
    ensures Attached(s)
  {
    forall c <- s.clients
      ensures s.clients[c].registered ==> s.clients[c].pcb
    {
      assert Once(s.clients[c], Of(s.queue, c), History(s.log, c));
    }
  }

  // A discarded client gets no pushes.
  lemma PurgedIsSilent(m: Machine, step: Step)
    requires AnyInv(m) && !m.purge.Idle? && FromLwip(step) && Enabled(m.s, step)
    ensures step.c != m.purge.arg
  {
    var c := m.purge.arg;
    assert Once(m.s.clients[c], Of(Pending(m), c), History(m.s.log, c));
    LwipShape(m.s, step);
  }

  // Taking a CLEAR starts the purge that the protocol makes in one step.
  lemma ClearStartsPurge(m: Machine)
    requires AnyInv(m) && m.purge.Idle? && Enabled(m.s, Dispatch) && m.s.queue != [] && m.s.queue[0].event == Clear
    ensures var t := Advance(m, Do(Dispatch));
            PurgeInv(t) && Abs(t) == Next(m.s, Dispatch)
  {
    hide AnyInv, Keep, QueueInv;
    ClearIsOfDiscarded(m);
    RestDistinct(m.s);
    RestPackets(m.s);
  }

  lemma RestPackets(s: System)
    requires QueueInv(s) && s.queue != []
    ensures QueueInv(WithQueue(s, s.queue[1..]))
  {
    RestDistinct(s);
    assert forall x <- s.queue[1..] :: x in s.queue;
  }

  lemma ClearIsOfDiscarded(m: Machine)
    requires AnyInv(m) && m.purge.Idle? && m.s.queue != [] && m.s.queue[0].event == Clear
    ensures var p := m.s.queue[0];
            p.arg == p.client && p.client in m.s.clients && m.s.clients[p.client].discarded && QueueInv(m.s)
  {
    var p := m.s.queue[0];
    assert p in m.s.queue && WellFormed(p);
    assert Once(m.s.clients[p.client], Of(m.s.queue, p.client), History(m.s.log, p.client));
    HeadIsFirst(m.s.queue, p.client);
    assert Of(m.s.queue, p.client)[0] == Clear;
  }

  lemma MoveKeepsAny(m: Machine, move: Move)
    requires AnyInv(m) && Allowed(m, move)
    ensures AnyInv(Advance(m, move))
  {
    OnceAttached(Abs(m));
    match move
    case Turn => TurnKeepsAny(m);
    case Do(step) =>
      if !m.purge.Idle? {
        PushKeepsAny(m, step);
      } else if step == Dispatch && m.s.queue[0].event == Clear {
        ClearKeepsAny(m);
      } else {
        hide Next, Enabled, QueueInv, SlotInv, OnceInv;
        StepKeepsPackets(m.s, step);
        StepKeepsSlots(m.s, step);
        assert Abs(m) == m.s;
        StepKeepsOnce(m.s, step);
        assert Abs(Advance(m, move)) == Next(m.s, step);
      }
  }

  lemma TurnKeepsAny(m: Machine)
    requires AnyInv(m) && !m.purge.Idle?
    ensures AnyInv(TakeTurn(m))
  {
    hide PurgeInv, OnceInv, Pending;
    TurnKeepsPending(m);
    SlotFrame(m.s, TakeTurn(m).s);
  }

  lemma IdleParts(m: Machine)
    requires AnyInv(m) && m.purge.Idle?
    ensures QueueInv(m.s) && OnceInv(m.s) && Abs(m) == m.s
  {
    hide QueueInv, OnceInv, SlotInv;
  }

  lemma ClearKeepsAny(m: Machine)
    requires AnyInv(m) && m.purge.Idle? && Enabled(m.s, Dispatch) && m.s.queue != [] && m.s.queue[0].event == Clear
    ensures AnyInv(Advance(m, Do(Dispatch)))
  {
    hide PurgeInv, OnceInv, Next, Enabled, QueueInv, SlotInv, Pending;
    AnyPurge(m);
    IdleParts(m);
    ClearStartsPurge(m);
    StepKeepsOnce(m.s, Dispatch);
    SlotFrame(m.s, Advance(m, Do(Dispatch)).s);
  }

  lemma PushKeepsAny(m: Machine, step: Step)
    requires AnyInv(m) && !m.purge.Idle? && Allowed(m, Do(step)) && FromLwip(step) && Enabled(m.s, step)
    requires Attached(m.s)
    ensures AnyInv(Advance(m, Do(step)))
  {
    PushKeepsParts(m, step);
    hide PurgeInv, SlotInv, OnceInv, Pending, Next, Enabled;
  }

  lemma PushKeepsParts(m: Machine, step: Step)
    requires AnyInv(m) && !m.purge.Idle? && Allowed(m, Do(step)) && FromLwip(step) && Enabled(m.s, step)
    requires Attached(m.s)
    ensures var t := Advance(m, Do(step));
            PurgeInv(t) && (t.purge.Rotating? ==> t.purge.first in t.s.queue) && SlotInv(t.s) && OnceInv(Abs(t))
  {
    hide Next, Enabled, SlotInv, PurgeInv, OnceInv, Ahead, Behind, Pending, QueueInv, Attached;
    StepKeepsSlots(m.s, step);
    PurgedIsSilent(m, step);
    PurgeArg(m);
    LwipInserts(m, step);
    LwipAbs(m, step);
    PendingPackets(m);
    LwipPacket(m, step);
    InsertKeepsOnce(Abs(m), step, Ahead(m, step), Behind(m, step));
  }

  lemma LwipPacket(m: Machine, step: Step)
    requires FromLwip(step) && (m.purge.Rotating? ==> m.purge.first in m.s.queue)
    ensures NewPacket(Abs(m), step) == NewPacket(m.s, step)
  {
  }

  // ---------- runs ----------

  predicate AllowedRun(m: Machine, moves: seq<Move>)
    decreases |moves|
  {
    moves == [] || (Allowed(m, moves[0]) && AllowedRun(Advance(m, moves[0]), moves[1..]))
  }

  function RunOf(m: Machine, moves: seq<Move>): Machine
    requires AllowedRun(m, moves)
    decreases |moves|
  {
    if moves == [] then m else RunOf(Advance(m, moves[0]), moves[1..])
  }

  lemma {:induction false} RunKeepsAny(m: Machine, moves: seq<Move>)
    requires AnyInv(m) && AllowedRun(m, moves)
    ensures AnyInv(RunOf(m, moves))
    decreases |moves|
  {
    hide AnyInv, Allowed, Advance;
    if moves != [] {
      MoveKeepsAny(m, moves[0]);
      RunKeepsAny(Advance(m, moves[0]), moves[1..]);
    }
  }

  lemma StartAny(start: System)
    requires Starts(start)
    ensures AnyInv(Machine(start, Idle))
  {
    StartInv(start, true);
  }

  // What no interleaving spoils: a client is discarded at most once, its slot is its own while it has a
  // control block, and a new one finds a slot exactly if accepts exceed FINs by less than SLOTS.
  lemma EveryRunDiscardsOnce(start: System, moves: seq<Move>, c: nat)
    requires Starts(start) && AllowedRun(Machine(start, Idle), moves)
    ensures var s := RunOf(Machine(start, Idle), moves).s;
            && Discards(History(s.log, c)) <= 1
            && (c in s.clients && s.clients[c].discarded <==> Discards(History(s.log, c)) == 1)
            && SlotInv(s) && (Pick(s.slots) != -1 <==> s.accepts - s.fins < SLOTS)
  {
    hide AnyInv, AllowedRun, RunOf, Starts;
    StartAny(start);
    RunKeepsAny(Machine(start, Idle), moves);
    DiscardedOnce(RunOf(Machine(start, Idle), moves), c);
  }

  lemma DiscardedOnce(m: Machine, c: nat)
    requires AnyInv(m)
    ensures Discards(History(m.s.log, c)) <= 1
    ensures c in m.s.clients && m.s.clients[c].discarded <==> Discards(History(m.s.log, c)) == 1
    ensures SlotInv(m.s) && (Pick(m.s.slots) != -1 <==> m.s.accepts - m.s.fins < SLOTS)
  {
    SlotLeft(m.s);
    if c in m.s.clients {
      OnceOf(Abs(m), c);
    } else {
      NoHistory(m.s.log, c);
    }
  }

  // ---------- the pushes that spoil the rest ----------

  // What is still to be rotated of a client, when an event of it arrives.
  predicate Harmless(b: seq<Event>, x: Event, finLast: bool) {
    b == [] || (x != Error && Accept !in b && (finLast ==> x != Fin))
  }

  // An event that arrives between what has been rotated, a, and what has not, b, keeps its client's
  // invariant if and only if nothing of it is left to rotate, or it may be overtaken.
  lemma ArrivalKeepsClientIff(k: Client, k': Client, a: seq<Event>, x: Event, b: seq<Event>, finLast: bool)
    requires ClientInv(k, a + b, finLast) && k.registered
    requires x in {Recv, SentEvent, Poll, Fin, Error}
    requires k' == match x
                   case Fin => if k.pcb then k.(pcb := false, registered := false, released := true) else k
                   case Error => k.(registered := false)
                   case _ => k
    ensures ClientInv(k', a + [x] + b, finLast) <==> Harmless(b, x, finLast)
  {
    if b == [] {
      assert a + b == a && a + [x] + b == a + [x];
      EventKeepsClient(k, a, x, finLast);
    } else if Harmless(b, x, finLast) {
      HarmlessKeepsClient(k, k', a, x, b, finLast);
    } else {
      HarmSpoilsClient(k, k', a, x, b, finLast);
    }
  }

  // Another task closes a client while the queue rotates: its CLEAR lands between what has been rotated, a,
  // and what has not, b.  That keeps the client's invariant if and only if nothing of it has been rotated.
  lemma CloseInPurgeKeepsClientIff(k: Client, a: seq<Event>, b: seq<Event>, finLast: bool)
    requires ClientInv(k, a + b, finLast) && k.accepted && k.pcb
    ensures ClientInv(k.(pcb := false, registered := false, discarded := true), a + [Clear] + b, finLast) <==> a == []
  {
    if a == [] {
      assert a + b == b && a + [Clear] + b == [Clear] + b;
      CloseKeepsClient(k, b, finLast);
    } else {
      assert (a + b)[0] == a[0] && a[0] in a + b && (a + [Clear] + b)[0] == a[0];
    }
  }

  lemma Members(a: seq<Event>, x: Event, b: seq<Event>, e: Event)
    ensures e in a + [x] + b <==> e in a || e == x || e in b
    ensures e in a + b <==> e in a || e in b
  {
  }

  lemma HarmlessKeepsClient(k: Client, k': Client, a: seq<Event>, x: Event, b: seq<Event>, finLast: bool)
    requires ClientInv(k, a + b, finLast) && k.registered && b != [] && Harmless(b, x, finLast)
    requires x in {Recv, SentEvent, Poll, Fin}
    requires k' == if x == Fin && k.pcb then k.(pcb := false, registered := false, released := true) else k
    ensures ClientInv(k', a + [x] + b, finLast)
  {
    var es := a + [x] + b;
    forall e: Event
      ensures e in es <==> e in a || e == x || e in b
      ensures e in a + b <==> e in a || e in b
    {
      Members(a, x, b, e);
    }
    if !k.accepted {
      FirstAndRest(a, b);
      NoAcceptBehind(a, x, b);
    }
  }

  lemma FirstAndRest(a: seq<Event>, b: seq<Event>)
    requires b != []
    ensures a == [] ==> (a + b)[0] in b
    ensures a != [] ==> forall e <- b :: e in (a + b)[1..]
  {
    assert a == [] ==> a + b == b;
    assert a != [] ==> (a + b)[1..] == a[1..] + b;
  }

  lemma NoAcceptBehind(a: seq<Event>, x: Event, b: seq<Event>)
    requires a != [] && Accept !in (a + b)[1..] && x != Accept
    ensures (a + [x] + b)[0] == a[0] == (a + b)[0] && Accept !in (a + [x] + b)[1..]
  {
    assert (a + b)[1..] == a[1..] + b && (a + [x] + b)[1..] == a[1..] + [x] + b;
    Members(a[1..], x, b, Accept);
  }

  lemma HarmSpoilsClient(k: Client, k': Client, a: seq<Event>, x: Event, b: seq<Event>, finLast: bool)
    requires ClientInv(k, a + b, finLast) && k.registered && b != [] && !Harmless(b, x, finLast)
    requires x != Accept && k'.accepted == k.accepted
    ensures !ClientInv(k', a + [x] + b, finLast)
  {
    var es := a + [x] + b;
    assert es[|a|] == x && |a| < |es| - 1;
    Members(a, x, b, Accept);
    FirstAndRest(a, b);
    assert a == [] ==> es[0] == x;
  }

  // ---------- runs without such pushes ----------

  ghost predicate SafeInv(m: Machine, finLast: bool) {
    AnyInv(m) && Inv(Abs(m), finLast)
  }

  // A push does no harm unless it overtakes, in a rotation, what its client still has in front.
  predicate HarmlessMove(m: Machine, move: Move, finLast: bool) {
    m.purge.Rotating? && m.purge.first in m.s.queue && move.Do? && FromLwip(move.step) && !move.step.LwipAccept? ==>
      Harmless(Of(Behind(m, move.step), move.step.c), EventOf(move.step), finLast)
  }

  lemma ClientOf(s: System, c: nat, finLast: bool)
    requires ClientsInv(s, finLast) && c in s.clients
    ensures ClientInv(s.clients[c], Of(s.queue, c), finLast)
  {
  }

  // The invariant of the client that a push is for, if and only if the push is harmless.
  lemma OwnPushKeepsClientIff(s: System, step: Step, a: seq<Packet>, b: seq<Packet>, finLast: bool)
    requires QueueInv(s) && ClientsInv(s, finLast) && FromLwip(step) && Enabled(s, step) && s.queue == a + b
    requires step.LwipAccept? ==> Of(a, step.c) == Of(b, step.c) == []
    ensures ClientInv(After(s, step), Of(a, step.c) + [EventOf(step)] + Of(b, step.c), finLast)
            <==> step.LwipAccept? || Harmless(Of(b, step.c), EventOf(step), finLast)
  {
    LwipShape(s, step);
    OwnPush(s, step, a, b, finLast);
  }

  lemma OwnPush(s: System, step: Step, a: seq<Packet>, b: seq<Packet>, finLast: bool)
    requires QueueInv(s) && ClientsInv(s, finLast) && FromLwip(step) && Enabled(s, step) && s.queue == a + b
    requires step.LwipAccept? ==> Of(a, step.c) == Of(b, step.c) == []
    requires step.LwipAccept? || (step.c in s.clients && s.clients[step.c].registered)
    ensures ClientInv(After(s, step), Of(a, step.c) + [EventOf(step)] + Of(b, step.c), finLast)
            <==> step.LwipAccept? || Harmless(Of(b, step.c), EventOf(step), finLast)
  {
    hide ClientsInv, QueueInv, Of, Pick;
    var c := step.c;
    if step.LwipAccept? {
      assert [] + [Accept] + [] == [Accept];
    } else {
      hide ClientInv, Harmless;
      ClientOf(s, c, finLast);
      OfConcat(a, b, c);
      ArrivalKeepsClientIff(s.clients[c], After(s, step), Of(a, c), EventOf(step), Of(b, c), finLast);
    }
  }

  lemma OthersKeepClients(s: System, step: Step, a: seq<Packet>, b: seq<Packet>, d: nat, finLast: bool)
    requires ClientsInv(s, finLast) && FromLwip(step) && s.queue == a + b && d in s.clients && d != step.c
    ensures ClientInv(s.clients[d], Of(a + [NewPacket(s, step)] + b, d), finLast)
  {
    hide ClientInv, Of;
    ClientOf(s, d, finLast);
    OfInsert(a, NewPacket(s, step), b, d);
  }

  lemma NewClientHasNoPackets(s: System, step: Step, a: seq<Packet>, b: seq<Packet>)
    requires QueueInv(s) && step.LwipAccept? && Enabled(s, step) && s.queue == a + b
    ensures Of(a, step.c) == Of(b, step.c) == []
  {
    assert forall p <- a :: p in s.queue;
    assert forall p <- b :: p in s.queue;
    NoPackets(a, step.c);
    NoPackets(b, step.c);
  }

  // The clients after a push, wherever its packet lands.
  lemma PushKeepsClientsIff(s: System, step: Step, a: seq<Packet>, b: seq<Packet>, finLast: bool)
    requires QueueInv(s) && ClientsInv(s, finLast) && FromLwip(step) && Enabled(s, step) && s.queue == a + b
    ensures var t := WithQueue(Next(s, step), a + [NewPacket(s, step)] + b);
            ClientsInv(t, finLast) <==> step.LwipAccept? || Harmless(Of(b, step.c), EventOf(step), finLast)
  {
    hide ClientInv, Next, Enabled, QueueInv, Of, Pick, Harmless;
    var c, p := step.c, NewPacket(s, step);
    var t := WithQueue(Next(s, step), a + [p] + b);
    LwipShape(s, step);
    if step.LwipAccept? {
      NewClientHasNoPackets(s, step, a, b);
    }
    OwnPushKeepsClientIff(s, step, a, b, finLast);
    OfInsert(a, p, b, c);
    forall d <- s.clients | d != c
      ensures ClientInv(t.clients[d], Of(t.queue, d), finLast)
    {
      OthersKeepClients(s, step, a, b, d, finLast);
    }
    assert c in t.clients && t.clients[c] == After(s, step);
  }

  // The log and the slots do not look at the queue.
  lemma QueueDoesNotMatter(s: System, q: seq<Packet>)
    requires LogInv(s) && SlotInv(s)
    ensures LogInv(WithQueue(s, q)) && SlotInv(WithQueue(s, q))
  {
    hide HistoryInv, History;
    SlotFrame(s, WithQueue(s, q));
  }

  // One push of lwIP during a purge keeps what runs without arrivals keep, if and only if it is harmless.
  lemma PushKeepsSafeIff(m: Machine, step: Step, finLast: bool)
    requires SafeInv(m, finLast) && !m.purge.Idle? && FromLwip(step) && Allowed(m, Do(step))
    ensures SafeInv(Advance(m, Do(step)), finLast) <==> HarmlessMove(m, Do(step), finLast)
  {
    hide Next, Enabled, PurgeInv, SlotInv, OnceInv, LogInv, ClientsInv, QueueInv, Ahead, Behind, Pending, Of;
    MoveKeepsAny(m, Do(step));
    PurgedIsSilent(m, step);
    PurgeArg(m);
    LwipInserts(m, step);
    LwipAbs(m, step);
    PendingPackets(m);
    LwipPacket(m, step);
    var t, n := Advance(m, Do(step)), Next(Abs(m), step);
    StepKeepsParts(Abs(m), step, finLast);
    QueueDoesNotMatter(n, Pending(t));
    PendingPackets(t);
    PushKeepsClientsIff(Abs(m), step, Ahead(m, step), Behind(m, step), finLast);
    BehindOfCollecting(m, step);
  }

  lemma StepKeepsParts(s: System, step: Step, finLast: bool)
    requires Inv(s, finLast) && Enabled(s, step)
    ensures LogInv(Next(s, step)) && SlotInv(Next(s, step))
  {
    hide Next, Enabled, LogInv, SlotInv, ClientsInv, QueueInv;
    StepKeepsInv(s, step, finLast);
  }

  lemma BehindOfCollecting(m: Machine, step: Step)
    requires FromLwip(step) && (m.purge.Rotating? ==> m.purge.first in m.s.queue)
    ensures !m.purge.Rotating? && !step.LwipAccept? ==> Of(Behind(m, step), step.c) == []
  {
  }

  lemma HarmlessMoveKeepsSafe(m: Machine, move: Move, finLast: bool)
    requires SafeInv(m, finLast) && Allowed(m, move) && HarmlessMove(m, move, finLast)
    ensures SafeInv(Advance(m, move), finLast)
  {
    hide Next, Enabled, AnyInv, Inv, Pending, HarmlessMove;
    MoveKeepsAny(m, move);
    match move
    case Turn => AnyPurge(m); TurnKeepsPending(m);
    case Do(step) =>
      if m.purge.Idle? {
        IdleStep(m, step);
        StepKeepsInv(Abs(m), step, finLast);
      } else {
        PushKeepsSafeIff(m, step, finLast);
      }
  }

  lemma AnyPurge(m: Machine)
    requires AnyInv(m)
    ensures PurgeInv(m) && (m.purge.Rotating? ==> m.purge.first in m.s.queue)
  {
  }

  // Without a purge at work the machine is the protocol.
  lemma IdleStep(m: Machine, step: Step)
    requires AnyInv(m) && m.purge.Idle? && Allowed(m, Do(step))
    ensures Abs(m) == m.s && PurgeInv(Advance(m, Do(step))) && Abs(Advance(m, Do(step))) == Next(m.s, step)
  {
    hide Next, QueueInv, SlotInv, OnceInv;
    if step == Dispatch && m.s.queue[0].event == Clear {
      ClearStartsPurge(m);
    } else {
      StepKeepsPackets(m.s, step);
    }
  }

  predicate Undisturbed(m: Machine, moves: seq<Move>, finLast: bool)
    requires AllowedRun(m, moves)
    decreases |moves|
  {
    moves != [] ==> HarmlessMove(m, moves[0], finLast) && Undisturbed(Advance(m, moves[0]), moves[1..], finLast)
  }

  lemma {:induction false} RunKeepsSafe(m: Machine, moves: seq<Move>, finLast: bool)
    requires SafeInv(m, finLast) && AllowedRun(m, moves) && Undisturbed(m, moves, finLast)
    ensures SafeInv(RunOf(m, moves), finLast)
    decreases |moves|
  {
    hide SafeInv, Allowed, Advance, HarmlessMove;
    if moves != [] {
      HarmlessMoveKeepsSafe(m, moves[0], finLast);
      RunKeepsSafe(Advance(m, moves[0]), moves[1..], finLast);
    }
  }

  lemma StartSafe(start: System, finLast: bool)
    requires Starts(start)
    ensures SafeInv(Machine(start, Idle), finLast)
  {
    StartAny(start);
    StartInv(start, finLast);
    assert Abs(Machine(start, Idle)) == start;
  }

  // Main result with purges taken apart: if no push overtakes what its client must have first, every
  // history is legal.
  lemma UndisturbedRunIsSafe(start: System, moves: seq<Move>, finLast: bool)
    requires Starts(start) && AllowedRun(Machine(start, Idle), moves)
    requires Undisturbed(Machine(start, Idle), moves, finLast)
    ensures SafeInv(RunOf(Machine(start, Idle), moves), finLast)
    ensures forall c: nat :: LegalHistory(History(RunOf(Machine(start, Idle), moves).s.log, c))
  {
    hide SafeInv, AllowedRun, RunOf, Undisturbed, LegalHistory, Starts;
    StartSafe(start, finLast);
    RunKeepsSafe(Machine(start, Idle), moves, finLast);
    SafeIsLegal(RunOf(Machine(start, Idle), moves), finLast);
  }

  lemma SafeIsLegal(m: Machine, finLast: bool)
    requires SafeInv(m, finLast)
    ensures forall c: nat :: LegalHistory(History(m.s.log, c))
  {
    hide LegalHistory, AnyInv, Inv, Pending;
    AbsLog(m);
    forall c: nat
      ensures LegalHistory(History(m.s.log, c))
    {
      HistoryIsLegal(Abs(m), c, finLast);
    }
  }

  lemma AbsLog(m: Machine)
    requires AnyInv(m)
    ensures (m.purge.Rotating? ==> m.purge.first in m.s.queue) && Abs(m).log == m.s.log
  {
  }

  // ---------- and the others do spoil it ----------

  // What the async task does by itself: it purges and dispatches.
  predicate Quiet(moves: seq<Move>) {
    forall x <- moves :: x == Turn || x == Do(Dispatch)
  }

  // However long the async task goes on alone from here, every history stays legal.
  ghost predicate Settles(m: Machine) {
    forall rest: seq<Move>, c: nat ::
      Quiet(rest) && AllowedRun(m, rest) ==> LegalHistory(History(RunOf(m, rest).s.log, c))
  }

  // A client whose history is illegal, or will be when its events are dispatched: its first is not its
  // ACCEPT, or it has been discarded, or an ERROR stands in front of another event.
  ghost predicate Doomed(es: seq<Event>, h: seq<Entry>) {
    || !LegalHistory(h)
    || (Clear !in es && es != [] &&
        (|| (h == [] && es[0] != Accept)
         || (h != [] && h[|h| - 1].Discarded?)
         || ErrorInFront(es)))
  }

  ghost predicate ErrorInFront(es: seq<Event>) {
    exists i :: 0 <= i < |es| - 1 && es[i] == Error && Fin !in es[..i]
  }

  lemma IllegalStays(h: seq<Entry>, e: Entry)
    requires !LegalHistory(h)
    ensures !LegalHistory(h + [e])
  {
    var i :| 0 <= i < |h| && !(&& (h[i].Handled? && h[i].event == Accept <==> i == 0)
                               && (h[i].Discarded? ==> i == |h| - 1));
    assert (h + [e])[i] == h[i];
  }

  // The client's own event is dispatched.
  lemma DoomedOwn(es: seq<Event>, h: seq<Entry>, c: nat)
    requires Doomed(es, h) && es != [] && LegalHistory(h) && es[0] != Clear
    ensures es[0] == Fin ==> !LegalHistory(h + [Handled(Fin, c)])
    ensures es[0] == Error ==> Doomed(es[1..], h + [Handled(Error, c)] + [Discarded(c)])
    ensures es[0] in {Accept, Recv, SentEvent, Poll} ==> Doomed(es[1..], h + [Handled(es[0], c)])
  {
    var g := h + [Handled(es[0], c)];
    assert Clear !in es[1..] by {
      assert es == [es[0]] + es[1..];
    }
    if h == [] {
      assert g[0] == Handled(es[0], c);
    } else {
      assert g[|h| - 1] == h[|h| - 1];
    }
    if !LegalHistory(g) {
      IllegalStays(g, Discarded(c));
    }
    if !(h == [] && es[0] != Accept) && !(h != [] && h[|h| - 1].Discarded?) {
      var i :| 0 <= i < |es| - 1 && es[i] == Error && Fin !in es[..i];
      if i > 0 {
        assert es[..i][0] == es[0];
        assert es[1..][i - 1] == Error && es[1..][..i - 1] == es[..i][1..];
      } else {
        assert (g + [Discarded(c)])[|g|] == Discarded(c);
      }
    }
  }

  ghost predicate DoomedClient(s: System, c: nat) {
    Doomed(Of(s.queue, c), History(s.log, c))
  }

  lemma DoomedDispatch(s: System, c: nat)
    requires QueueInv(s) && s.queue != [] && Enabled(s, Dispatch) && DoomedClient(s, c)
    ensures DoomedClient(Next(s, Dispatch), c)
  {
    hide Next, Enabled, QueueInv, Keep, Of, History, Doomed;
    DispatchPackets(s);
    DispatchShape(s);
    if s.queue[0].client == c {
      DoomedDispatchOwn(s, Next(s, Dispatch), c);
    } else {
      DispatchOthers(s, Next(s, Dispatch), c);
    }
  }

  lemma DoomedDispatchOwn(s: System, t: System, c: nat)
    requires s.queue != [] && s.queue[0].client == c && DoomedClient(s, c)
    requires var p := s.queue[0];
             && t.queue == (match p.event
                            case Clear => Keep(s.queue[1..], p.arg)
                            case Fin => [Packet(s.address, Clear, c, c)] + s.queue[1..]
                            case _ => s.queue[1..])
             && t.log == (match p.event
                          case Clear => s.log
                          case Fin => s.log + [Handled(Fin, c)] + [Discarded(c)]
                          case Error => s.log + [Handled(Error, c)] + [Discarded(c)]
                          case _ => s.log + [Handled(p.event, c)])
    ensures DoomedClient(t, c)
  {
    hide Keep, Of, History, LegalHistory;
    var p, h := s.queue[0], History(s.log, c);
    HeadIsFirst(s.queue, c);
    HistoryAppend(s.log, Handled(p.event, c), c);
    HistoryAppend(s.log + [Handled(p.event, c)], Discarded(c), c);
    if !LegalHistory(h) {
      IllegalStays(h, Handled(p.event, c));
      IllegalStays(h + [Handled(p.event, c)], Discarded(c));
    } else if p.event != Clear {
      DoomedOwn(Of(s.queue, c), h, c);
      if p.event == Fin {
        IllegalStays(h + [Handled(Fin, c)], Discarded(c));
      }
    }
  }

  // Each dispatch makes the queue lighter, a FIN being worth its CLEAR; each turn brings the purge on.
  function Weight(q: seq<Packet>): nat {
    if q == [] then 0 else (if q[0].event == Fin then 2 else 1) + Weight(q[1..])
  }

  function TurnsLeft(m: Machine): nat
    requires m.purge.Rotating? ==> m.purge.first in m.s.queue
  {
    match m.purge
    case Idle => 0
    case Collecting(_) => |m.s.queue| + 1
    case Rotating(_, first) => PositionOf(first, m.s.queue) + 1
  }

  lemma {:induction false} KeepIsLighter(q: seq<Packet>, arg: nat)
    ensures Weight(Keep(q, arg)) <= Weight(q)
  {
    if q != [] {
      KeepIsLighter(q[1..], arg);
      if q[0].arg != arg {
        assert ([q[0]] + Keep(q[1..], arg))[1..] == Keep(q[1..], arg);
      } else {
        assert [] + Keep(q[1..], arg) == Keep(q[1..], arg);
      }
    }
  }

  lemma DispatchIsLighter(s: System)
    requires Enabled(s, Dispatch) && s.queue != []
    ensures Weight(Next(s, Dispatch).queue) < Weight(s.queue)
  {
    hide Next, Enabled, Keep;
    DispatchShape(s);
    KeepIsLighter(s.queue[1..], s.queue[0].arg);
    var p := Packet(s.address, Clear, s.queue[0].client, s.queue[0].client);
    assert ([p] + s.queue[1..])[1..] == s.queue[1..];
  }

  lemma TurnComesCloser(m: Machine)
    requires PurgeInv(m) && !m.purge.Idle? && PurgeInv(TakeTurn(m))
    ensures TurnsLeft(TakeTurn(m)) < TurnsLeft(m)
  {
    var q := m.s.queue;
    if m.purge.Rotating? && q[0] != m.purge.first {
      PositionAfterTurn(q, m.purge.first, if q[0].arg == m.purge.arg then [] else [q[0]]);
      assert q[1..] + [] == q[1..];
    }
  }

  lemma {:induction false} DoomedIsFatal(m: Machine, c: nat) returns (rest: seq<Move>)
    requires AnyInv(m) && DoomedClient(Abs(m), c)
    ensures Quiet(rest) && AllowedRun(m, rest) && !LegalHistory(History(RunOf(m, rest).s.log, c))
    decreases Weight(Pending(m)), TurnsLeft(m)
  {
    hide Next, Enabled, AnyInv, PurgeInv, LegalHistory, Keep, Weight, PositionOf, History, Of;
    AnyPurge(m);
    if !m.purge.Idle? {
      TurnKeepsPending(m);
      TurnComesCloser(m);
      MoveKeepsAny(m, Turn);
      rest := DoomedIsFatal(TakeTurn(m), c);
      rest := Before(m, Turn, rest, c);
    } else if m.s.queue == [] {
      rest := [];
      assert Of([], c) == [] by {
        NoPackets([], c);
      }
    } else {
      DispatchFromIdle(m);
      IdleStep(m, Dispatch);
      DoomedDispatch(m.s, c);
      DispatchIsLighter(m.s);
      MoveKeepsAny(m, Do(Dispatch));
      rest := DoomedIsFatal(Advance(m, Do(Dispatch)), c);
      rest := Before(m, Do(Dispatch), rest, c);
    }
  }

  lemma DispatchFromIdle(m: Machine)
    requires AnyInv(m) && m.purge.Idle? && m.s.queue != []
    ensures Allowed(m, Do(Dispatch)) && Enabled(m.s, Dispatch) && QueueInv(m.s) && Abs(m) == m.s
  {
    assert m.s.queue[0] in m.s.queue;
  }

  lemma Before(m: Machine, move: Move, rest: seq<Move>, c: nat) returns (moves: seq<Move>)
    requires Allowed(m, move) && (move == Turn || move == Do(Dispatch)) && Quiet(rest)
    requires AllowedRun(Advance(m, move), rest)
    requires !LegalHistory(History(RunOf(Advance(m, move), rest).s.log, c))
    ensures Quiet(moves) && AllowedRun(m, moves) && !LegalHistory(History(RunOf(m, moves).s.log, c))
  {
    hide Advance, Allowed, LegalHistory, History;
    moves := [move] + rest;
    assert moves[1..] == rest;
  }

  lemma {:induction false} QuietIsUndisturbed(m: Machine, rest: seq<Move>)
    requires AllowedRun(m, rest) && Quiet(rest)
    ensures Undisturbed(m, rest, false)
    decreases |rest|
  {
    if rest != [] {
      assert rest[0] in rest && forall x <- rest[1..] :: x in rest;
      hide Allowed, Advance;
      QuietIsUndisturbed(Advance(m, rest[0]), rest[1..]);
    }
  }

  lemma SafeSettles(m: Machine)
    requires SafeInv(m, false)
    ensures Settles(m)
  {
    hide SafeInv, LegalHistory, History, AllowedRun, RunOf, Quiet, Undisturbed;
    forall rest: seq<Move>, c: nat | Quiet(rest) && AllowedRun(m, rest)
      ensures LegalHistory(History(RunOf(m, rest).s.log, c))
    {
      QuietIsUndisturbed(m, rest);
      RunKeepsSafe(m, rest, false);
      SafeIsLegal(RunOf(m, rest), false);
    }
  }

  // A push that is not harmless dooms its client.
  lemma HarmDooms(m: Machine, step: Step)
    requires SafeInv(m, false) && Allowed(m, Do(step)) && !HarmlessMove(m, Do(step), false)
    ensures AnyInv(Advance(m, Do(step))) && DoomedClient(Abs(Advance(m, Do(step))), step.c)
  {
    hide Next, Enabled, PurgeInv, Inv, AnyInv, Ahead, Behind, Pending, Of, History, Doomed, Harmless, LegalHistory;
    AnyPurge(m);
    MoveKeepsAny(m, Do(step));
    PurgedIsSilent(m, step);
    LwipInserts(m, step);
    LwipShape(m.s, step);
    var t, a, b, c := Advance(m, Do(step)), Ahead(m, step), Behind(m, step), step.c;
    OfInsert(a, NewPacket(m.s, step), b, c);
    AnyPurge(t);
    ClientAndHistory(Abs(m), c);
    HarmDoomsClient(m.s.clients[c], Of(a, c), EventOf(step), Of(b, c), History(m.s.log, c));
  }

  lemma ClientAndHistory(s: System, c: nat)
    requires Inv(s, false) && c in s.clients
    ensures ClientInv(s.clients[c], Of(s.queue, c), false) && HistoryInv(s.clients[c], History(s.log, c))
  {
    hide ClientInv, HistoryInv, Of, History, QueueInv, SlotInv;
  }

  lemma HarmDoomsClient(k: Client, a: seq<Event>, x: Event, b: seq<Event>, h: seq<Entry>)
    requires ClientInv(k, a + b, false) && k.registered && HistoryInv(k, h) && !Harmless(b, x, false)
    requires x in {Recv, SentEvent, Poll, Fin, Error}
    ensures Doomed(a + [x] + b, h)
  {
    hide LegalHistory;
    var es := a + [x] + b;
    Members(a, x, b, Clear);
    FirstAndRest(a, b);
    if Accept in b {
      assert a == [] && es[0] == x by {
        Members(a, x, b, Accept);
        assert a == [] ==> es[0] == x;
      }
      assert !k.accepted by {
        Members(a, x, b, Accept);
      }
    } else {
      assert es[|a|] == Error && |a| < |es| - 1 && es[..|a|] == a;
      Members(a, x, b, Fin);
      assert ErrorInFront(es);
    }
  }

  // From every point of the run the async task, left alone, does only legal things.
  ghost predicate AlwaysSettles(m: Machine, moves: seq<Move>)
    requires AllowedRun(m, moves)
    decreases |moves|
  {
    Settles(m) && (moves != [] ==> AlwaysSettles(Advance(m, moves[0]), moves[1..]))
  }

  lemma {:induction false} SettlesIff(m: Machine, moves: seq<Move>)
    requires SafeInv(m, false) && AllowedRun(m, moves)
    ensures AlwaysSettles(m, moves) <==> Undisturbed(m, moves, false)
    decreases |moves|
  {
    hide SafeInv, Allowed, Advance, HarmlessMove, Settles;
    SafeSettles(m);
    if moves != [] {
      if HarmlessMove(m, moves[0], false) {
        HarmlessMoveKeepsSafe(m, moves[0], false);
        SettlesIff(Advance(m, moves[0]), moves[1..]);
      } else {
        HarmDoesNotSettle(m, moves[0]);
      }
    }
  }

  lemma HarmDoesNotSettle(m: Machine, move: Move)
    requires SafeInv(m, false) && Allowed(m, move) && !HarmlessMove(m, move, false)
    ensures !Settles(Advance(m, move))
  {
    hide SafeInv, AnyInv, Pending, LegalHistory, History, Quiet, AllowedRun, RunOf;
    HarmDooms(m, move.step);
    var rest := DoomedIsFatal(Advance(m, move), move.step.c);
    assert Quiet(rest) && AllowedRun(Advance(m, move), rest);
  }

  // The exact condition, over every run: histories are and stay legal whenever the async task is left alone,
  // if and only if no push comes during a rotation that still has to bring back an event of its client,
  // other than a FIN or an ordinary event overtaking no ACCEPT.
  lemma RunIsSafeIff(start: System, moves: seq<Move>)
    requires Starts(start) && AllowedRun(Machine(start, Idle), moves)
    ensures AlwaysSettles(Machine(start, Idle), moves) <==> Undisturbed(Machine(start, Idle), moves, false)
  {
    hide SafeInv, AllowedRun, AlwaysSettles, Undisturbed, Starts;
    StartSafe(start, false);
    SettlesIff(Machine(start, Idle), moves);
  }

  // ---------- such a run from the start ----------

  ghost predicate CanSpoil(m: Machine, c: nat) {
    exists rest: seq<Move> :: AllowedRun(m, rest) && !LegalHistory(History(RunOf(m, rest).s.log, c))
  }

  lemma CanSpoilBefore(m: Machine, move: Move, c: nat)
    requires Allowed(m, move) && CanSpoil(Advance(m, move), c)
    ensures CanSpoil(m, c)
  {
    hide Advance, Allowed, LegalHistory, History;
    var rest: seq<Move> :|
      AllowedRun(Advance(m, move), rest) && !LegalHistory(History(RunOf(Advance(m, move), rest).s.log, c));
    var moves := [move] + rest;
    assert moves[1..] == rest;
    assert AllowedRun(m, moves) && RunOf(m, moves) == RunOf(Advance(m, move), rest);
  }

  lemma HarmCanSpoil(m: Machine, step: Step)
    requires SafeInv(m, false) && Allowed(m, Do(step)) && !HarmlessMove(m, Do(step), false)
    ensures CanSpoil(m, step.c)
  {
    hide SafeInv, AnyInv, Pending, LegalHistory, History, AllowedRun, RunOf, HarmlessMove, Allowed, Advance;
    HarmlessOrLwip(m, step);
    HarmDooms(m, step);
    var rest := DoomedIsFatal(Advance(m, Do(step)), step.c);
    assert CanSpoil(Advance(m, Do(step)), step.c);
    CanSpoilBefore(m, Do(step), step.c);
  }

  lemma HarmlessOrLwip(m: Machine, step: Step)
    ensures HarmlessMove(m, Do(step), false) || FromLwip(step)
  {
  }

  // Two clients are accepted, the second receives twice, the first is closed; while its CLEAR rotates the
  // queue the second is reset.  The ERROR overtakes what was received, which is dispatched after the discard.
  lemma PurgeCanSpoil(start: System)
    requires Starts(start)
    ensures CanSpoil(Machine(start, Idle), 2)
  {
    hide Inv, Possible, Run, CanSpoil, Pick, Next;
    StartInv(start, true);
    AcceptRun(start, 1);
    var s1 := Run(start, [LwipAccept(1), Dispatch]);
    AcceptRun(s1, 2);
    var s2 := Run(s1, [LwipAccept(2), Dispatch]);
    StartSafe(start, false);
    AcceptMoves(start, 1);
    AcceptMoves(s1, 2);
    SecondIsReset(s2);
    SpoilFromAccept(s1, 2);
    SpoilFromAccept(start, 1);
  }

  // The accept of a client, as moves of the machine.
  lemma AcceptMoves(s: System, c: nat)
    requires Inv(s, true) && SafeInv(Machine(s, Idle), false) && s.queue == [] && c != SERVER && c !in s.clients
    requires s.accepts - s.fins < SLOTS
    ensures Possible(s, [LwipAccept(c), Dispatch])
    ensures SafeInv(Machine(Run(s, [LwipAccept(c), Dispatch]), Idle), false)
  {
    SlotLeft(s);
    AcceptShape(s, c);
    hide Inv, SafeInv, Next, Enabled, Pick, Possible, Run;
    TwoSteps(s, LwipAccept(c), Dispatch);
    var m := Machine(s, Idle);
    HarmlessMoveKeepsSafe(m, Do(LwipAccept(c)), false);
    AcceptHead(s, c);
    HarmlessMoveKeepsSafe(Advance(m, Do(LwipAccept(c))), Do(Dispatch), false);
  }

  lemma AcceptHead(s: System, c: nat)
    requires s.queue == [] && Enabled(s, LwipAccept(c))
    ensures Next(s, LwipAccept(c)).queue == [Packet(s.address, Accept, SERVER, c)]
  {
    hide Pick;
  }

  lemma SpoilFromAccept(s: System, c: nat)
    requires Inv(s, true) && s.queue == [] && c != SERVER && c !in s.clients && s.accepts - s.fins < SLOTS
    requires Possible(s, [LwipAccept(c), Dispatch])
    requires CanSpoil(Machine(Run(s, [LwipAccept(c), Dispatch]), Idle), 2)
    ensures CanSpoil(Machine(s, Idle), 2)
  {
    SlotLeft(s);
    AcceptShape(s, c);
    hide Inv, CanSpoil, Next, Enabled, Pick, Possible, Run;
    TwoSteps(s, LwipAccept(c), Dispatch);
    AcceptHead(s, c);
    var m := Machine(s, Idle);
    CanSpoilBefore(Advance(m, Do(LwipAccept(c))), Do(Dispatch), 2);
    CanSpoilBefore(m, Do(LwipAccept(c)), 2);
  }

  lemma SecondIsReset(s: System)
    requires SafeInv(Machine(s, Idle), false) && s.queue == [] && 1 in s.clients && 2 in s.clients
    requires s.clients[1].accepted && s.clients[1].pcb && s.clients[2].registered
    ensures CanSpoil(Machine(s, Idle), 2)
  {
    hide SafeInv, CanSpoil;
    var recv := LwipEvent(2, Recv);
    var m := Machine(s, Idle);
    HarmlessMoveKeepsSafe(m, Do(recv), false);
    var m1 := Advance(m, Do(recv));
    HarmlessMoveKeepsSafe(m1, Do(recv), false);
    var m2 := Advance(m1, Do(recv));
    var a, b := Packet(s.address, Recv, 2, 2), Packet(s.address + 1, Recv, 2, 2);
    assert m2.s.queue == [a, b];
    HarmlessMoveKeepsSafe(m2, Do(Close(1)), false);
    var m3 := Advance(m2, Do(Close(1)));
    assert m3.s.queue == [Packet(s.address + 2, Clear, 1, 1), a, b];
    SecondIsResetInPurge(m3, a, b);
    CanSpoilBefore(m2, Do(Close(1)), 2);
    CanSpoilBefore(m1, Do(recv), 2);
    CanSpoilBefore(m, Do(recv), 2);
  }

  lemma SecondIsResetInPurge(m: Machine, a: Packet, b: Packet)
    requires SafeInv(m, false) && m.purge.Idle? && 1 in m.s.clients && 2 in m.s.clients && m.s.clients[2].registered
    requires a.client == a.arg == b.client == b.arg == 2 && a != b
    requires |m.s.queue| == 3 && m.s.queue[1..] == [a, b]
    requires var p := m.s.queue[0]; p.event == Clear && p.arg == p.client == 1
    ensures CanSpoil(m, 2)
  {
    hide SafeInv, CanSpoil, Next;
    HarmlessMoveKeepsSafe(m, Do(Dispatch), false);
    var m1 := Advance(m, Do(Dispatch));
    HarmlessMoveKeepsSafe(m1, Turn, false);
    var m2 := Advance(m1, Turn);
    assert m2 == Machine(WithQueue(m.s, [b, a]), Rotating(1, a));
    LastPosition([b], a);
    assert [b] + [a] == [b, a];
    assert Front(m2) == [b] && Of(Behind(m2, LwipError(2)), 2) != [];
    HarmCanSpoil(m2, LwipError(2));
    CanSpoilBefore(m1, Turn, 2);
    CanSpoilBefore(m, Do(Dispatch), 2);
  }
}
