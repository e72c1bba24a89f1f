/**
 * AsyncTCP's global state and handlers, updated in place.  Each handler is proved to be the step of
 * AsyncTcpProtocol with its name; the purge is proved against Keep by following its two loops.
 */
module AsyncTcpObjects {
  import opened AsyncTcpQueue
  import opened AsyncTcpProtocol

  class AsyncTcp {
    var queue: seq<Packet>
    var clients: map<nat, Client>
    const slots: array<int>
    var closedIndex: int
    var log: seq<Entry>
    var address: nat
    var accepts: nat
    var fins: nat
    // the packets that the purge has freed, in order
    var freed: seq<Packet>

    function View(): System
      reads this, slots
    {
      System(queue, clients, slots[..], closedIndex, log, address, accepts, fins)
    }

    constructor ()
      ensures View() == Initial() && fresh(slots) && freed == []
    {
      queue, clients, log, freed := [], map[], [], [];
      closedIndex, address, accepts, fins := 1, 0, 0, 0;
      slots := new int[SLOTS](_ => 1);
      new;
      assert slots[..] == seq(SLOTS, _ => 1);
    }

    // ---------- the queue ----------

    method XQueueSend(p: Packet)
      requires |queue| < CAPACITY
      modifies `queue
      ensures queue == old(queue) + [p]
    {
      queue := queue + [p];
    }

    method XQueueSendToFront(p: Packet)
      requires |queue| < CAPACITY
      modifies `queue
      ensures queue == [p] + old(queue)
    {
      queue := [p] + queue;
    }

    method XQueueReceive() returns (p: Packet)
      requires queue != []
      modifies `queue
      ensures p == old(queue)[0] && queue == old(queue)[1..]
    {
      p := queue[0];
      queue := queue[1..];
    }

    // Run alone on distinct packets, the purge ends with exactly the other packets, in order; each
    // matching packet is freed once; the result is false exactly when nothing remains.
    method RemoveEventsWithArg(arg: nat) returns (ok: bool)
      requires Distinct(queue) && |queue| <= CAPACITY
      modifies `queue, `freed
      ensures queue == Keep(old(queue), arg)
      ensures freed == old(freed) + Drop(old(queue), arg)
      ensures ok <==> queue != []
    {
      ghost var q, f := queue, freed;
      // figure out which is the first packet so the order can be kept
      var i := 0;
      while true
        invariant 0 <= i <= |q|
        invariant queue == q[i..] && Keep(q[..i], arg) == [] && freed == f + Drop(q[..i], arg)
        decreases |q| - i
      {
        if queue == [] {
          assert q[..i] == q;
          return false;
        }
        var packet := XQueueReceive();
        assert q[..i + 1] == q[..i] + [q[i]] && q[i..][1..] == q[i + 1..];
        KeepAppend(q[..i], q[i], arg);
        if packet.arg != arg {
          XQueueSend(packet);
          RotateRest(q, i, packet, f, arg);
          return true;
        }
        freed := freed + [packet];
        i := i + 1;
      }
    }

    // The second loop, once packet i has been put back.
    method RotateRest(ghost q: seq<Packet>, ghost i: nat, first: Packet, ghost f: seq<Packet>, arg: nat)
      requires i < |q| <= CAPACITY && Distinct(q) && first == q[i] && first.arg != arg
      requires queue == q[i + 1..] + [first]
      requires Keep(q[..i + 1], arg) == [first] && freed == f + Drop(q[..i + 1], arg)
      modifies `queue, `freed
      ensures queue == Keep(q, arg) && queue != []
      ensures freed == f + Drop(q, arg)
    {
      hide Keep, Drop;
      ghost var n := i + 1;
      while queue != [] && queue[0] != first
        invariant i < n <= |q|
        invariant queue == q[n..] + Keep(q[..n], arg)
        invariant freed == f + Drop(q[..n], arg)
        invariant [first] <= Keep(q[..n], arg)
        decreases |q| - n
      {
        assert n < |q|;
        TurnOfPurge(q, n, arg);
        var packet := XQueueReceive();
        if packet.arg == arg {
          freed := freed + [packet];
        } else {
          XQueueSend(packet);
        }
        n := n + 1;
      }
      assert q[..n] == q && q[n..] == [];
    }

    // ---------- lwIP callbacks ----------

    method NewPacket(event: Event, c: nat) returns (p: Packet)
      modifies `address
      ensures p == Packet(old(address), event, if event == Accept then SERVER else c, c)
      ensures address == old(address) + 1
    {
      p := Packet(address, event, if event == Accept then SERVER else c, c);
      address := address + 1;
    }

    // AsyncClient::AsyncClient picks the slot.
    method PickSlot() returns (slot: int)
      requires SlotsSane(View())
      ensures slot == Pick(slots[..])
    {
      slot := -1;
      var closedSlotMinIndex := 0;
      for i := 0 to slots.Length
        invariant slot == PickAmong(slots[..], i)
        invariant -1 <= slot < i && closedSlotMinIndex == if slot == -1 then 0 else slots[slot]
      {
        if (slot == -1 || slots[i] <= closedSlotMinIndex) && slots[i] != 0 {
          closedSlotMinIndex := slots[i];
          slot := i;
        }
      }
    }

    method AcceptClient(c: nat)
      requires Enabled(View(), LwipAccept(c))
      modifies this, slots
      ensures View() == Next(old(View()), LwipAccept(c))
    {
      var slot := PickSlot();
      slots[slot] := 0;
      clients := clients[c := Client(true, true, false, false, false, slot)];
      accepts := accepts + 1;
      var e := NewPacket(Accept, c);
      XQueueSendToFront(e);
    }

    // _tcp_recv with a buffer, _tcp_sent and _tcp_poll
    method TcpEvent(c: nat, event: Event)
      requires Enabled(View(), LwipEvent(c, event))
      modifies this
      ensures View() == Next(old(View()), LwipEvent(c, event))
    {
      var e := NewPacket(event, c);
      XQueueSend(e);
    }

    // _tcp_recv without a buffer
    method TcpFin(c: nat)
      requires Enabled(View(), LwipFin(c))
      modifies this, slots
      ensures View() == Next(old(View()), LwipFin(c))
    {
      var e := NewPacket(Fin, c);
      LwipFinInPlace(c);
      XQueueSend(e);
    }

    method LwipFinInPlace(c: nat)
      requires c in clients && clients[c].slot < slots.Length
      modifies this, slots
      ensures View() == LwipFinBody(old(View()), c)
      ensures freed == old(freed)
    {
      var k := clients[c];
      if !k.pcb {
        return;
      }
      slots[k.slot] := closedIndex;
      closedIndex := closedIndex + 1;
      fins := fins + 1;
      clients := clients[c := k.(pcb := false, registered := false, released := true)];
    }

    method TcpError(c: nat)
      requires Enabled(View(), LwipError(c))
      modifies this
      ensures View() == Next(old(View()), LwipError(c))
    {
      clients := clients[c := clients[c].(registered := false)];
      var e := NewPacket(Error, c);
      XQueueSend(e);
    }

    // ---------- the async task ----------

    method CloseClient(c: nat)
      requires Enabled(View(), AsyncTcpProtocol.Close(c))
      modifies this
      ensures View() == Next(old(View()), AsyncTcpProtocol.Close(c))
    {
      var k := clients[c];
      if k.pcb {
        var e := NewPacket(Clear, c);
        XQueueSendToFront(e);
        clients := clients[c := k.(pcb := false, registered := false, discarded := true)];
        log := log + [Discarded(c)];
      }
    }

    method AbortClient(c: nat)
      requires Enabled(View(), Abort(c))
      modifies this
      ensures View() == Next(old(View()), Abort(c))
    {
      var k := clients[c];
      if k.pcb {
        clients := clients[c := k.(pcb := false, registered := false)];
        if k.registered {
          var e := NewPacket(Error, c);
          XQueueSend(e);
        }
      }
    }

    method HandleAsyncEvent()
      requires Enabled(View(), Dispatch) && Distinct(queue) && |queue| <= CAPACITY
      modifies this
      ensures View() == Next(old(View()), Dispatch)
    {
      hide Keep, Drop;
      var p := XQueueReceive();
      var c, k := p.client, clients[p.client];
      match p.event
      case Clear =>
        var ok := RemoveEventsWithArg(p.arg);
      case Accept =>
        clients := clients[c := k.(accepted := true)];
        log := log + [Handled(Accept, c)];
      case Fin =>
        log := log + [Handled(Fin, c)];
        var e := NewPacket(Clear, c);
        XQueueSendToFront(e);
        clients := clients[c := k.(discarded := true)];
        log := log + [Discarded(c)];
      case Error =>
        log := log + [Handled(Error, c)];
        clients := clients[c := k.(pcb := false, registered := false, discarded := true)];
        log := log + [Discarded(c)];
      case _ =>
        log := log + [Handled(p.event, c)];
    }
  }
}
