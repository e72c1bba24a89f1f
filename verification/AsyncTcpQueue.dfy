/**
 * The event queue of AsyncTCP: packets that lwIP callbacks push and the async task takes, and the
 * purge of one client's packets, which rotates the queue through itself.
 */
module AsyncTcpQueue {
  import opened Basics

  // lwip_event_t without the two events of active-open clients
  datatype Event = SentEvent | Recv | Fin | Error | Poll | Clear | Accept

  // A packet's address is its identity.  An ACCEPT packet carries the server as its argument and the
  // client beside it; every other packet carries the client as its argument.
  datatype Packet = Packet(address: nat, event: Event, arg: nat, client: nat)

  const SERVER: nat := 0
  const CAPACITY: nat := 32

  // Packets that do not carry arg, in order; and those that do.
  function Keep(q: seq<Packet>, arg: nat): seq<Packet> {
    if q == [] then [] else (if q[0].arg == arg then [] else [q[0]]) + Keep(q[1..], arg)
  }

  function Drop(q: seq<Packet>, arg: nat): seq<Packet> {
    if q == [] then [] else (if q[0].arg == arg then [q[0]] else []) + Drop(q[1..], arg)
  }

  ghost predicate Distinct(q: seq<Packet>) {
    forall i, j :: 0 <= i < j < |q| ==> q[i].address != q[j].address
  }

  lemma {:induction false} KeepAppend(q: seq<Packet>, p: Packet, arg: nat)
    ensures Keep(q + [p], arg) == Keep(q, arg) + if p.arg == arg then [] else [p]
    ensures Drop(q + [p], arg) == Drop(q, arg) + if p.arg == arg then [p] else []
  {
    if q == [] {
      assert q + [p] == [p];
    } else {
      KeepAppend(q[1..], p, arg);
      assert (q + [p])[1..] == q[1..] + [p];
      var kept, dropped: seq<Packet> := if p.arg == arg then [] else [p], if p.arg == arg then [p] else [];
      Associative(if q[0].arg == arg then [] else [q[0]], Keep(q[1..], arg), kept);
      Associative(if q[0].arg == arg then [q[0]] else [], Drop(q[1..], arg), dropped);
    }
  }

  // Nothing is lost: what is kept and what is dropped make up the queue.
  lemma {:induction false} KeepAndDropPartition(q: seq<Packet>, arg: nat)
    ensures multiset(Keep(q, arg)) + multiset(Drop(q, arg)) == multiset(q)
    ensures forall p :: p in Keep(q, arg) <==> p in q && p.arg != arg
    ensures forall p :: p in Drop(q, arg) <==> p in q && p.arg == arg
    ensures |Keep(q, arg)| + |Drop(q, arg)| == |q|
  {
    if q != [] {
      KeepAndDropPartition(q[1..], arg);
      assert q == [q[0]] + q[1..];
    }
  }

  // ---------- the rotation ----------

  // One turn of the second loop, after n packets of q have gone through.
  lemma TurnOfPurge(q: seq<Packet>, n: nat, arg: nat)
    requires n < |q|
    ensures var queue := q[n..] + Keep(q[..n], arg);
            && queue[0] == q[n] && queue[1..] == q[n + 1..] + Keep(q[..n], arg)
            && |queue[1..]| < |q|
            && q[n + 1..] + Keep(q[..n + 1], arg) == queue[1..] + (if q[n].arg == arg then [] else [q[n]])
            && Keep(q[..n], arg) <= Keep(q[..n + 1], arg)
    ensures Drop(q[..n + 1], arg) == Drop(q[..n], arg) + if q[n].arg == arg then [q[n]] else []
  {
    hide Keep, Drop;
    assert q[..n + 1] == q[..n] + [q[n]] && q[n..][1..] == q[n + 1..];
    KeepAppend(q[..n], q[n], arg);
    KeepAndDropPartition(q[..n], arg);
    Associative(q[n + 1..], Keep(q[..n], arg), if q[n].arg == arg then [] else [q[n]]);
  }

  function PositionOf(first: Packet, q: seq<Packet>): (n: nat)
    requires first in q
    ensures n < |q| && q[n] == first
  {
    if q[0] == first then 0 else 1 + PositionOf(first, q[1..])
  }

  // The second loop: rotate until the first kept packet is at the head again.
  function Rotate(q: seq<Packet>, first: Packet, arg: nat): seq<Packet>
    requires first in q
    decreases PositionOf(first, q)
  {
    if q[0] == first then q
    else
      var back := if q[0].arg == arg then [] else [q[0]];
      PositionAfterTurn(q, first, back);
      Rotate(q[1..] + back, first, arg)
  }

  lemma {:induction false} PositionAfterTurn(q: seq<Packet>, first: Packet, back: seq<Packet>)
    requires first in q && q[0] != first
    ensures first in q[1..] + back && PositionOf(first, q[1..] + back) == PositionOf(first, q) - 1
  {
    PositionPrefix(first, q[1..], back);
  }

  lemma {:induction false} PositionPrefix(first: Packet, a: seq<Packet>, b: seq<Packet>)
    requires first in a
    ensures PositionOf(first, a + b) == PositionOf(first, a)
  {
    if a[0] != first {
      PositionPrefix(first, a[1..], b);
      assert (a + b)[1..] == a[1..] + b;
    }
  }

  // Rotating brings everything that stands before first behind the tail, purged and in order.
  lemma {:induction false} RotateMovesRest(rest: seq<Packet>, first: Packet, tail: seq<Packet>, arg: nat)
    requires first !in rest
    ensures Rotate(rest + [first] + tail, first, arg) == [first] + tail + Keep(rest, arg)
    decreases |rest|
  {
    var q := rest + [first] + tail;
    if rest == [] {
      assert q[0] == first;
      assert q == [first] + tail + Keep(rest, arg);
    } else {
      var back := if rest[0].arg == arg then [] else [rest[0]];
      RotateMovesRest(rest[1..], first, tail + back, arg);
      assert q[0] == rest[0] && q[1..] + back == rest[1..] + [first] + (tail + back);
      assert Keep(rest, arg) == back + Keep(rest[1..], arg);
      assert [first] + (tail + back) + Keep(rest[1..], arg) == [first] + tail + Keep(rest, arg);
    }
  }

  // The packets of client c, in order.
  function PacketsOf(q: seq<Packet>, c: nat): (r: seq<Packet>)
    ensures forall p <- r :: p in q
  {
    if q == [] then [] else (if q[0].client == c then [q[0]] else []) + PacketsOf(q[1..], c)
  }

  lemma {:induction false} PacketsOfAppend(a: seq<Packet>, b: seq<Packet>, c: nat)
    ensures PacketsOf(a + b, c) == PacketsOf(a, c) + PacketsOf(b, c)
  {
    if a == [] {
      assert a + b == b;
    } else {
      PacketsOfAppend(a[1..], b, c);
      assert (a + b)[1..] == a[1..] + b;
      Associative(if a[0].client == c then [a[0]] else [], PacketsOf(a[1..], c), PacketsOf(b, c));
    }
  }

  // lwIP goes on sending while the purge rotates.  When packet x arrives, pre is still to be rotated and
  // post has been.  Each client's packets end in order of arrival if and only if the client is not the
  // one of x, or nothing of it in pre survives; otherwise x overtakes.
  lemma ArrivalDuringPurgeKeepsOrderIff(
      pre: seq<Packet>, first: Packet, post: seq<Packet>, x: Packet, arg: nat, c: nat)
    requires first !in pre && x !in pre
    ensures PacketsOf(Rotate(pre + [first] + (post + [x]), first, arg), c)
            == PacketsOf([first] + post + Keep(pre, arg) + [x], c)
            <==> x.client != c || PacketsOf(Keep(pre, arg), c) == []
  {
    RotateMovesRest(pre, first, post + [x], arg);
    Associative([first], post, [x]);
    KeepAndDropPartition(pre, arg);
    hide Keep, Drop, Rotate, PositionOf;
    LastAndRest([first] + post, x, Keep(pre, arg), c);
  }

  lemma LastAndRest(a: seq<Packet>, x: Packet, k: seq<Packet>, c: nat)
    requires x !in k
    ensures PacketsOf(a + [x] + k, c) == PacketsOf(a + k + [x], c) <==> x.client != c || PacketsOf(k, c) == []
  {
    ThreeParts(a, [x], k, c);
    ThreeParts(a, k, [x], c);
    assert PacketsOf([x], c) == if x.client == c then [x] else [];
    hide PacketsOf;
    OutOfOrderIff(PacketsOf(a, c), PacketsOf([x], c), PacketsOf(k, c));
  }

  lemma OutOfOrderIff(before: seq<Packet>, mine: seq<Packet>, other: seq<Packet>)
    requires forall p <- mine :: p !in other
    ensures before + mine + other == before + other + mine <==> mine == [] || other == []
  {
    if mine != [] && other != [] {
      assert mine[0] in mine && other[0] in other;
      assert (before + mine + other)[|before|] == mine[0] && (before + other + mine)[|before|] == other[0];
    }
  }

  lemma ThreeParts(a: seq<Packet>, b: seq<Packet>, d: seq<Packet>, c: nat)
    ensures PacketsOf(a + b + d, c) == PacketsOf(a, c) + PacketsOf(b, c) + PacketsOf(d, c)
  {
    PacketsOfAppend(a + b, d, c);
    PacketsOfAppend(a, b, c);
  }

  // ---------- one client's view of the queue ----------

  // The events of client c, in order.
  function Of(q: seq<Packet>, c: nat): seq<Event> {
    if q == [] then [] else (if q[0].client == c then [q[0].event] else []) + Of(q[1..], c)
  }

  lemma {:induction false} OfAppend(q: seq<Packet>, p: Packet, c: nat)
    ensures Of(q + [p], c) == Of(q, c) + if p.client == c then [p.event] else []
  {
    if q == [] {
      assert q + [p] == [p];
    } else {
      OfAppend(q[1..], p, c);
      assert (q + [p])[1..] == q[1..] + [p];
      Associative(if q[0].client == c then [q[0].event] else [], Of(q[1..], c),
                  if p.client == c then [p.event] else []);
    }
  }

  // Packets are built as the callbacks build them.
  predicate WellFormed(p: Packet) {
    p.client != SERVER && p.arg == if p.event == Accept then SERVER else p.client
  }

  // A purge of d does not touch another client's events, and leaves d none but ACCEPT.
  lemma {:induction false} OfKeep(q: seq<Packet>, d: nat, c: nat)
    requires d != SERVER && forall p <- q :: WellFormed(p)
    ensures c != d ==> Of(Keep(q, d), c) == Of(q, c)
    ensures Accept !in Of(q, d) ==> Of(Keep(q, d), d) == []
  {
    if q != [] {
      OfKeep(q[1..], d, c);
      assert q[0] in q;
      var front, back := if q[0].arg == d then [] else [q[0]], Keep(q[1..], d);
      assert Keep(q, d) == front + back;
      if front != [] {
        assert (front + back)[1..] == back;
      } else {
        assert front + back == back;
      }
    }
  }
}
