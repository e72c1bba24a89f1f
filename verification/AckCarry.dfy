/**
 * Acknowledgements for server-sent events (AsyncEventSource.cpp): TCP acknowledges bytes, and what one
 * queued message does not need is carried on to the next.
 */
module AckCarry {

  datatype MessageFields = Fields(len: nat, acked: nat) {
    predicate Finished() { acked == len }
  }

  type Message = m: MessageFields | m.acked <= m.len witness Fields(0, 0)

  // AsyncEventSourceMessage::ack: the message afterwards and the bytes it did not need.
  function AckOne(m: Message, n: nat): (Message, nat) {
    if m.acked + n > m.len then (m.(acked := m.len), m.acked + n - m.len)
    else (m.(acked := m.acked + n), 0)
  }

  // The loop of _onAck.
  function Carry(q: seq<Message>, n: nat): seq<Message>
    decreases |q|
  {
    if n == 0 || q == [] then q
    else
      var (m, extra) := AckOne(q[0], n);
      if m.Finished() then Carry(q[1..], extra) else [m] + q[1..]
  }

  // How many messages it removes.
  function Removed(q: seq<Message>, n: nat): (k: nat)
    ensures k <= |q|
    decreases |q|
  {
    if n == 0 || q == [] then 0
    else
      var (m, extra) := AckOne(q[0], n);
      if m.Finished() then 1 + Removed(q[1..], extra) else 0
  }

  // Bytes of the queue that are not acknowledged.
  function Unacked(q: seq<Message>): nat {
    if q == [] then 0 else q[0].len - q[0].acked + Unacked(q[1..])
  }

  lemma {:induction false} UnackedOfParts(q: seq<Message>, k: nat)
    requires k <= |q|
    ensures Unacked(q) == Unacked(q[..k]) + Unacked(q[k..])
  {
    if k == 0 {
      assert q[0..] == q && q[..0] == [];
    } else {
      UnackedOfParts(q[1..], k - 1);
      assert q[..k][1..] == q[1..][..k - 1] && q[1..][k - 1..] == q[k..];
    }
  }

  // Main result: the credit goes to the queue in order.  The messages that leave are those it covers in
  // full; the next one takes what is left over, short of completion; the others stay as they were.
  lemma {:induction false} CarryCreditsInOrder(q: seq<Message>, n: nat)
    ensures var k := Removed(q, n);
            && Unacked(q[..k]) <= n
            && (k == |q| ==> Carry(q, n) == [])
            && (k < |q| ==>
                  var left := n - Unacked(q[..k]);
                  && (left > 0 ==> left < q[k].len - q[k].acked)
                  && left <= q[k].len - q[k].acked
                  && Carry(q, n) == [q[k].(acked := q[k].acked + left)] + q[k + 1..])
    decreases |q|
  {
    if n == 0 || q == [] {
      assert q[..0] == [];
      if q != [] {
        assert q == [q[0]] + q[1..];
      }
    } else {
      var (m, extra) := AckOne(q[0], n);
      var k := Removed(q, n);
      if m.Finished() {
        CarryCreditsInOrder(q[1..], extra);
        assert Unacked(q[..k]) == q[0].len - q[0].acked + Unacked(q[1..][..k - 1]) by {
          assert q[..k][1..] == q[1..][..k - 1] && q[..k][0] == q[0];
        }
        hide Unacked, Removed;
        if k < |q| {
          assert q[1..][k - 1] == q[k] && q[1..][k..] == q[k + 1..];
        }
      } else {
        assert q[..0] == [];
      }
    }
  }

  // No credit is lost or invented: min(n, everything unacknowledged) is credited.
  lemma {:induction false} CarryConserves(q: seq<Message>, n: nat)
    ensures Unacked(Carry(q, n)) == if n <= Unacked(q) then Unacked(q) - n else 0
  {
    var k := Removed(q, n);
    CarryCreditsInOrder(q, n);
    UnackedOfParts(q, k);
    if k < |q| {
      assert q[k..][1..] == q[k + 1..] && Carry(q, n)[1..] == q[k + 1..];
    }
  }

  // ---------- the objects ----------

  class AsyncEventSourceMessage {
    const len: nat
    var acked: nat

    function View(): Message
      reads this
      requires acked <= len
    {
      Fields(len, acked)
    }

    method Ack(n: nat) returns (extra: nat)
      requires acked <= len
      modifies this
      ensures acked <= len
      ensures (View(), extra) == AckOne(old(View()), n)
    {
      if acked + n > len {
        extra := acked + n - len;
        acked := len;
        return;
      }
      acked := acked + n;
      return 0;
    }
  }

  class AsyncEventSourceClient {
    var queue: seq<AsyncEventSourceMessage>

    ghost predicate Valid()
      reads this, queue
    {
      && (forall m <- queue :: m.acked <= m.len)
      && forall i, j :: 0 <= i < j < |queue| ==> queue[i] != queue[j]
    }

    function Views(): (r: seq<Message>)
      reads this, queue
      requires Valid()
      ensures |r| == |queue| && forall i :: 0 <= i < |r| ==> r[i] == queue[i].View()
    {
      seq(|queue|, i requires 0 <= i < |queue| && queue[i].acked <= queue[i].len reads this, queue => queue[i].View())
    }

    // Each turn of the loop but the last removes a message.
    method OnAck(n: nat)
      requires Valid()
      modifies this, queue
      ensures Valid()
      ensures Views() == Carry(old(Views()), n)
      ensures queue == old(queue)[Removed(old(Views()), n)..]
    {
      hide AckOne, Views, Valid;
      ghost var q0, q, k := queue, Views(), 0;
      var len := n;
      while len > 0 && queue != []
        invariant k <= |q0| && queue == q0[k..] && Valid()
        invariant Carry(Views(), len) == Carry(q, n)
        invariant k + Removed(Views(), len) == Removed(q, n)
        decreases |queue|, len
      {
        ghost var finished := AckOne(Views()[0], len).0.Finished();
        assert forall m <- queue :: m in q0;
        len := Turn(len);
        k := if finished then k + 1 else k;
      }
    }

    method Turn(n: nat) returns (extra: nat)
      requires Valid() && queue != [] && n > 0
      modifies this, queue
      ensures Valid()
      ensures var (m, rest) := AckOne(old(Views())[0], n);
              && extra == rest
              && queue == (if m.Finished() then old(queue)[1..] else old(queue))
              && Views() == (if m.Finished() then old(Views())[1..] else [m] + old(Views())[1..])
              && (!m.Finished() ==> extra == 0)
    {
      ghost var was := Views();
      var front := queue[0];
      extra := front.Ack(n);
      assert forall i :: 0 < i < |queue| ==> queue[i].View() == was[i];
      if front.acked == front.len {
        queue := queue[1..];
      }
    }
  }
}
