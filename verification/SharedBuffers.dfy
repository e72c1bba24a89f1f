/**
 * Message buffers shared by several WebSocket clients (AsyncWebSocket.h and AsyncWebSocket.cpp): each
 * MultiMessage counts itself in its buffer, a broadcast locks the buffer, and _cleanBuffers frees the
 * buffers that are neither counted nor locked.
 */
module SharedBuffers {

  // WS_MAX_QUEUED_MESSAGES on the ESP32
  const MAX_QUEUED: nat := 32

  datatype Buffer = Buffer(count: nat, lock: bool) {
    predicate CanDelete() { count == 0 && !lock }

    // operator ++ and the guarded operator --
    function Inc(): Buffer { this.(count := count + 1) }

    function Dec(): Buffer { if count > 0 then this.(count := count - 1) else this }
  }

  // A client's queue of MultiMessages, as the buffers they refer to.
  datatype Client = Client(connected: bool, queue: seq<nat>)

  // made: every buffer so far; buffers: those in the list, not freed.  pending holds messages that have been
  // constructed but not yet queued or dropped.  bad: the buffers that were touched after they had been freed,
  // or released with a count of zero.
  datatype System = System(
    buffers: map<nat, Buffer>, made: set<nat>, clients: seq<Client>, pending: seq<nat>, bad: set<nat>)

  function Initial(): System { System(map[], {}, [], [], {}) }

  datatype Step =
    | MakeBuffer(b: nat)
    | Lock(b: nat) | Unlock(b: nat)     // the ends of textAll and binaryAll
    | NewMessage(b: nat)                // AsyncWebSocketMultiMessage's constructor
    | QueueMessage(i: nat, c: nat)      // _queueMessage of pending message i at client c
    | Finish(c: nat)                    // _runQueue removes the finished message at the front
    | Connect
    | Closing(c: nat)                   // the client leaves WS_CONNECTED
    | Disconnect(c: nat)                // the client is deleted, and its queue with it
    | Clean                             // _cleanBuffers

  // The steps that touch a buffer through a pointer of the caller.
  predicate Uses(step: Step, b: nat) {
    step in {Lock(b), Unlock(b), NewMessage(b)}
  }

  // Callers pass buffers that were made, freed by now or not, and clients that exist; new buffers get new
  // names.  Nothing is asked about the buffers of messages already made.
  predicate Enabled(s: System, step: Step) {
    match step
    case MakeBuffer(b) => b !in s.made
    case Lock(b) => b in s.made
    case Unlock(b) => b in s.made
    case NewMessage(b) => b in s.made
    case QueueMessage(i, c) => i < |s.pending| && c < |s.clients|
    case Finish(c) => c < |s.clients| && s.clients[c].queue != []
    case Connect => true
    case Closing(c) => c < |s.clients|
    case Disconnect(c) => c < |s.clients|
    case Clean => true
  }

  // Deleting a message decreases its buffer's count.
  function Release(buffers: map<nat, Buffer>, b: nat): map<nat, Buffer> {
    if b in buffers then buffers[b := buffers[b].Dec()] else buffers
  }

  predicate BadRelease(buffers: map<nat, Buffer>, b: nat) {
    b !in buffers || buffers[b].count == 0
  }

  function ReleaseAll(buffers: map<nat, Buffer>, queue: seq<nat>): (r: map<nat, Buffer>)
    ensures r.Keys == buffers.Keys
    decreases |queue|
  {
    if queue == [] then buffers else ReleaseAll(Release(buffers, queue[0]), queue[1..])
  }

  function BadReleases(buffers: map<nat, Buffer>, queue: seq<nat>): set<nat>
    decreases |queue|
  {
    if queue == [] then {}
    else
      (if BadRelease(buffers, queue[0]) then {queue[0]} else {}) + BadReleases(Release(buffers, queue[0]), queue[1..])
  }

  function Without<T>(q: seq<T>, i: nat): seq<T>
    requires i < |q|
  {
    q[..i] + q[i + 1..]
  }

  // A caller's access to buffer b, which leaves k there if b is there.
  function Touch(s: System, b: nat, k: Buffer): System {
    if b in s.buffers then s.(buffers := s.buffers[b := k]) else s.(bad := s.bad + {b})
  }

  function Drop(s: System, b: nat): System {
    s.(buffers := Release(s.buffers, b), bad := if BadRelease(s.buffers, b) then s.bad + {b} else s.bad)
  }

  function Next(s: System, step: Step): System
    requires Enabled(s, step)
  {
    match step
    case MakeBuffer(b) => s.(buffers := s.buffers[b := Buffer(0, false)], made := s.made + {b})
    case Lock(b) => Touch(s, b, if b in s.buffers then s.buffers[b].(lock := true) else Buffer(0, true))
    case Unlock(b) => Touch(s, b, if b in s.buffers then s.buffers[b].(lock := false) else Buffer(0, false))
    case NewMessage(b) =>
      Touch(s, b, if b in s.buffers then s.buffers[b].Inc() else Buffer(1, false)).(pending := s.pending + [b])
    case QueueMessage(i, c) =>
      var b, k := s.pending[i], s.clients[c];
      var t := s.(pending := Without(s.pending, i));
      if k.connected && |k.queue| < MAX_QUEUED then
        t.(clients := s.clients[c := k.(queue := k.queue + [b])])
      else Drop(t, b)
    case Finish(c) =>
      var k := s.clients[c];
      Drop(s.(clients := s.clients[c := k.(queue := k.queue[1..])]), k.queue[0])
    case Connect => s.(clients := s.clients + [Client(true, [])])
    case Closing(c) => s.(clients := s.clients[c := s.clients[c].(connected := false)])
    case Disconnect(c) =>
      s.(clients := Without(s.clients, c), buffers := ReleaseAll(s.buffers, s.clients[c].queue),
         bad := s.bad + BadReleases(s.buffers, s.clients[c].queue))
    case Clean => s.(buffers := map b | b in s.buffers && !s.buffers[b].CanDelete() :: s.buffers[b])
  }

  // ---------- the live messages ----------

  function Occurrences(q: seq<nat>, b: nat): nat {
    multiset(q)[b]
  }

  function Queued(clients: seq<Client>, b: nat): nat {
    if clients == [] then 0 else Occurrences(clients[0].queue, b) + Queued(clients[1..], b)
  }

  // The MultiMessages that exist and refer to buffer b.
  function Live(s: System, b: nat): nat {
    Occurrences(s.pending, b) + Queued(s.clients, b)
  }

  // A buffer in the list has not been misused, and its count is the number of live messages that refer to
  // it; unless it was misused, no live message refers to a freed one.
  ghost predicate BufferInv(s: System, b: nat) {
    && (b in s.buffers ==> b in s.made && b !in s.bad && s.buffers[b].count == Live(s, b))
    && (b !in s.buffers && b !in s.bad ==> Live(s, b) == 0)
    && (b in s.bad ==> b in s.made)
  }

  ghost predicate Inv(s: System) {
    forall b: nat :: BufferInv(s, b)
  }

  lemma {:induction false} QueuedUpdate(clients: seq<Client>, c: nat, k: Client, b: nat)
    requires c < |clients|
    ensures Queued(clients[c := k], b) ==
              Queued(clients, b) - Occurrences(clients[c].queue, b) + Occurrences(k.queue, b)
  {
    if c == 0 {
      assert clients[0 := k][1..] == clients[1..];
    } else {
      QueuedUpdate(clients[1..], c - 1, k, b);
      assert clients[c := k][1..] == clients[1..][c - 1 := k];
    }
  }

  lemma {:induction false} QueuedWithout(clients: seq<Client>, c: nat, b: nat)
    requires c < |clients|
    ensures Queued(Without(clients, c), b) == Queued(clients, b) - Occurrences(clients[c].queue, b)
  {
    if c == 0 {
      assert Without(clients, 0) == clients[1..];
    } else {
      QueuedWithout(clients[1..], c - 1, b);
      assert Without(clients, c)[0] == clients[0];
      assert Without(clients, c)[1..] == Without(clients[1..], c - 1);
    }
  }

  lemma {:induction false} QueuedAppend(clients: seq<Client>, k: Client, b: nat)
    ensures Queued(clients + [k], b) == Queued(clients, b) + Occurrences(k.queue, b)
  {
    if clients == [] {
      assert clients + [k] == [k] && [k][1..] == [];
    } else {
      QueuedAppend(clients[1..], k, b);
      assert (clients + [k])[1..] == clients[1..] + [k];
    }
  }

  lemma OccurrencesWithout(q: seq<nat>, i: nat, b: nat)
    requires i < |q|
    ensures Occurrences(Without(q, i), b) == Occurrences(q, b) - if b == q[i] then 1 else 0
  {
    assert q == q[..i] + [q[i]] + q[i + 1..];
  }

  lemma OccurrencesEnds(q: seq<nat>, x: nat, b: nat)
    ensures Occurrences(q + [x], b) == Occurrences(q, b) + if b == x then 1 else 0
    ensures q != [] ==> Occurrences(q[1..], b) == Occurrences(q, b) - if b == q[0] then 1 else 0
  {
    assert q != [] ==> q == [q[0]] + q[1..];
  }

  // Counts that cover the queue are decreased by exactly its messages.
  lemma {:induction false} ReleaseAllCounts(buffers: map<nat, Buffer>, queue: seq<nat>, b: nat)
    requires b in buffers && Occurrences(queue, b) <= buffers[b].count
    ensures ReleaseAll(buffers, queue)[b] == buffers[b].(count := buffers[b].count - Occurrences(queue, b))
    decreases |queue|
  {
    if queue != [] {
      OccurrencesEnds(queue, queue[0], b);
      ReleaseAllCounts(Release(buffers, queue[0]), queue[1..], b);
    }
  }

  lemma {:induction false} BadReleasesIn(buffers: map<nat, Buffer>, queue: seq<nat>, b: nat)
    requires Occurrences(queue, b) <= if b in buffers then buffers[b].count else 0
    ensures b !in BadReleases(buffers, queue)
    decreases |queue|
  {
    if queue != [] {
      OccurrencesEnds(queue, queue[0], b);
      BadReleasesIn(Release(buffers, queue[0]), queue[1..], b);
    }
  }

  // One buffer across one step: it becomes misused exactly when a caller touches it after it was freed.
  lemma StepKeepsBuffer(s: System, step: Step, b: nat)
    requires Inv(s) && Enabled(s, step)
    ensures BufferInv(Next(s, step), b)
    ensures b in Next(s, step).bad <==> b in s.bad || (Uses(step, b) && b !in s.buffers)
  {
    hide Occurrences;
    assert BufferInv(s, b);
    match step
    case MakeBuffer(x) => assert BufferInv(s, x);
    case Lock(_) =>
    case Unlock(_) =>
    case NewMessage(x) => OccurrencesEnds(s.pending, x, b);
    case QueueMessage(i, c) => QueueKeepsBuffer(s, i, c, b);
    case Finish(c) => FinishKeepsBuffer(s, c, b);
    case Connect =>
      QueuedAppend(s.clients, Client(true, []), b);
      NoOccurrence(b);
    case Closing(c) => QueuedUpdate(s.clients, c, s.clients[c].(connected := false), b);
    case Disconnect(c) => DisconnectKeepsBuffer(s, c, b);
    case Clean =>
  }

  lemma Occurs(q: seq<nat>, i: nat)
    requires i < |q|
    ensures Occurrences(q, q[i]) > 0
  {
  }

  lemma NoOccurrence(b: nat)
    ensures Occurrences([], b) == 0
  {
  }

  lemma QueuedCovers(clients: seq<Client>, c: nat, b: nat)
    requires c < |clients|
    ensures Occurrences(clients[c].queue, b) <= Queued(clients, b)
  {
    QueuedWithout(clients, c, b);
  }

  lemma QueueKeepsBuffer(s: System, i: nat, c: nat, b: nat)
    requires Inv(s) && Enabled(s, QueueMessage(i, c))
    ensures BufferInv(Next(s, QueueMessage(i, c)), b) && (b in Next(s, QueueMessage(i, c)).bad <==> b in s.bad)
  {
    hide Occurrences, Queued;
    var x, k := s.pending[i], s.clients[c];
    Occurs(s.pending, i);
    assert BufferInv(s, b) && BufferInv(s, x);
    OccurrencesWithout(s.pending, i, b);
    if k.connected && |k.queue| < MAX_QUEUED {
      OccurrencesEnds(k.queue, x, b);
      QueuedUpdate(s.clients, c, k.(queue := k.queue + [x]), b);
    }
  }

  lemma FinishKeepsBuffer(s: System, c: nat, b: nat)
    requires Inv(s) && Enabled(s, Finish(c))
    ensures BufferInv(Next(s, Finish(c)), b) && (b in Next(s, Finish(c)).bad <==> b in s.bad)
  {
    hide Occurrences, Queued;
    var k := s.clients[c];
    var x := k.queue[0];
    Occurs(k.queue, 0);
    assert BufferInv(s, b) && BufferInv(s, x);
    QueuedCovers(s.clients, c, x);
    OccurrencesEnds(k.queue, 0, b);
    QueuedUpdate(s.clients, c, k.(queue := k.queue[1..]), b);
    QueuedCovers(s.clients, c, b);
  }

  lemma DisconnectKeepsBuffer(s: System, c: nat, b: nat)
    requires Inv(s) && Enabled(s, Disconnect(c))
    ensures BufferInv(Next(s, Disconnect(c)), b) && (b in Next(s, Disconnect(c)).bad <==> b in s.bad)
  {
    hide Occurrences;
    assert BufferInv(s, b);
    QueuedWithout(s.clients, c, b);
    QueuedCovers(s.clients, c, b);
    if b in s.buffers {
      ReleaseAllCounts(s.buffers, s.clients[c].queue, b);
    }
    if b !in s.bad {
      BadReleasesIn(s.buffers, s.clients[c].queue, b);
    }
  }

  lemma StepKeepsInv(s: System, step: Step)
    requires Inv(s) && Enabled(s, step)
    ensures Inv(Next(s, step))
  {
    forall b: nat
      ensures BufferInv(Next(s, step), b)
    {
      StepKeepsBuffer(s, step, b);
    }
  }

  // ---------- main results ----------

  predicate Possible(s: System, steps: seq<Step>)
    decreases |steps|
  {
    steps == [] || (Enabled(s, steps[0]) && Possible(Next(s, steps[0]), steps[1..]))
  }

  function Run(s: System, steps: seq<Step>): System
    requires Possible(s, steps)
    decreases |steps|
  {
    if steps == [] then s else Run(Next(s, steps[0]), steps[1..])
  }

  // At every reachable state each count is the number of live messages of its buffer.
  lemma {:induction false} CountsAreExact(s: System, steps: seq<Step>)
    requires Inv(s) && Possible(s, steps)
    ensures Inv(Run(s, steps))
    decreases |steps|
  {
    if steps != [] {
      StepKeepsInv(s, steps[0]);
      CountsAreExact(Next(s, steps[0]), steps[1..]);
    }
  }

  // Some step of the run touches b after it was freed.
  predicate UsedAfterFree(s: System, steps: seq<Step>, b: nat)
    requires Possible(s, steps)
    decreases |steps|
  {
    steps != [] &&
    ((Uses(steps[0], b) && b !in s.buffers) || UsedAfterFree(Next(s, steps[0]), steps[1..], b))
  }

  // Some clean-up of the run meets b in the list, unlocked and with no live message.
  predicate CleanedAway(s: System, steps: seq<Step>, b: nat)
    requires Possible(s, steps)
    decreases |steps|
  {
    steps != [] &&
    ((steps[0] == Clean && b in s.buffers && !s.buffers[b].lock && Live(s, b) == 0)
     || CleanedAway(Next(s, steps[0]), steps[1..], b))
  }

  // A buffer is misused if and only if a caller touches it after it was freed: no message that is finished,
  // dropped or deleted with its client finds its buffer freed or its count at zero.  Until then its live
  // messages are counted exactly, and it is there while there are any.
  lemma NoBadRelease(steps: seq<Step>, b: nat)
    requires Possible(Initial(), steps)
    ensures var s := Run(Initial(), steps);
            && (b in s.bad <==> UsedAfterFree(Initial(), steps, b))
            && (b in s.buffers ==> s.buffers[b].count == Live(s, b))
            && (b !in s.bad && Live(s, b) > 0 ==> b in s.buffers)
  {
    CountsAreExact(Initial(), steps);
    MisusedIff(Initial(), steps, b);
    assert BufferInv(Run(Initial(), steps), b);
  }

  lemma {:induction false} MisusedIff(s: System, steps: seq<Step>, b: nat)
    requires Inv(s) && Possible(s, steps)
    ensures b in Run(s, steps).bad <==> b in s.bad || UsedAfterFree(s, steps, b)
    decreases |steps|
  {
    if steps != [] {
      StepKeepsBuffer(s, steps[0], b);
      StepKeepsInv(s, steps[0]);
      hide Next, Inv;
      MisusedIff(Next(s, steps[0]), steps[1..], b);
    }
  }

  // And it is there if and only if no clean-up has met it unlocked and without a live message.
  lemma {:induction false} ThereIff(s: System, steps: seq<Step>, b: nat)
    requires Inv(s) && Possible(s, steps) && b in s.buffers
    ensures b in Run(s, steps).buffers <==> !CleanedAway(s, steps, b)
    decreases |steps|
  {
    if steps != [] {
      assert BufferInv(s, b);
      StepKeepsInv(s, steps[0]);
      StepFreesIff(s, steps[0], b);
      hide Next, Inv;
      if b in Next(s, steps[0]).buffers {
        ThereIff(Next(s, steps[0]), steps[1..], b);
      } else {
        FreedStaysFreed(Next(s, steps[0]), steps[1..], b);
      }
    }
  }

  lemma StepFreesIff(s: System, step: Step, b: nat)
    requires Enabled(s, step) && b in s.buffers
    ensures b !in Next(s, step).buffers <==> step == Clean && s.buffers[b].CanDelete()
    ensures Next(s, step).made >= s.made
  {
  }

  lemma {:induction false} FreedStaysFreed(s: System, steps: seq<Step>, b: nat)
    requires Possible(s, steps) && b in s.made && b !in s.buffers
    ensures b !in Run(s, steps).buffers
    decreases |steps|
  {
    if steps != [] {
      FreedStaysFreed(Next(s, steps[0]), steps[1..], b);
    }
  }

  // _cleanBuffers frees a buffer exactly when no live message refers to it and no broadcast has it locked.
  lemma CleanFreesIff(steps: seq<Step>, b: nat)
    requires Possible(Initial(), steps) && b in Run(Initial(), steps).buffers
    ensures var s := Run(Initial(), steps);
            b !in Next(s, Clean).buffers <==> Live(s, b) == 0 && !s.buffers[b].lock
  {
    CountsAreExact(Initial(), steps);
    assert BufferInv(Run(Initial(), steps), b);
  }

  // ---------- between makeBuffer and the broadcast ----------

  // What other tasks do to a buffer without messages that they do not touch.
  lemma UncountedStays(s: System, step: Step, b: nat)
    requires Enabled(s, step) && b in s.buffers && s.buffers[b].count == 0 && b in s.made && !Uses(step, b)
    ensures var t := Next(s, step);
            && (b in t.buffers <==> step != Clean || s.buffers[b].lock)
            && (b in t.buffers ==> t.buffers[b] == s.buffers[b])
  {
    if step.Disconnect? {
      ReleaseAllUncounted(s.buffers, s.clients[step.c].queue, b);
    }
  }

  lemma {:induction false} ReleaseAllUncounted(buffers: map<nat, Buffer>, queue: seq<nat>, b: nat)
    requires b in buffers && buffers[b].count == 0
    ensures ReleaseAll(buffers, queue)[b] == buffers[b]
    decreases |queue|
  {
    if queue != [] {
      ReleaseAllUncounted(Release(buffers, queue[0]), queue[1..], b);
    }
  }

  // makeBuffer puts a buffer into the list unlocked and uncounted.  Until its first lock or message it
  // is there if and only if no clean-up has run.
  lemma {:induction false} GapSurvivesIff(s: System, b: nat, steps: seq<Step>)
    requires Possible(s, steps) && b in s.made && (b in s.buffers ==> s.buffers[b] == Buffer(0, false))
    requires forall x <- steps :: !Uses(x, b)
    ensures b in Run(s, steps).buffers <==> b in s.buffers && Clean !in steps
    decreases |steps|
  {
    if b !in s.buffers {
      FreedStaysFreed(s, steps, b);
    } else if steps != [] {
      assert steps[0] in steps && steps == [steps[0]] + steps[1..] && forall x <- steps[1..] :: x in steps;
      UncountedStays(s, steps[0], b);
      StepFreesIff(s, steps[0], b);
      hide Next;
      GapSurvivesIff(Next(s, steps[0]), b, steps[1..]);
    }
  }

  // textAll(message, len) makes a buffer and then broadcasts it.  The broadcast touches freed memory if and
  // only if a clean-up runs in between, as _onAck of any client does.
  lemma BroadcastMisusesIff(s: System, b: nat, gap: seq<Step>)
    requires Inv(s) && b !in s.made && Possible(Next(s, MakeBuffer(b)), gap)
    requires forall x <- gap :: !Uses(x, b)
    ensures var t := Run(Next(s, MakeBuffer(b)), gap);
            Enabled(t, Lock(b)) && (b in Next(t, Lock(b)).bad <==> Clean in gap)
  {
    assert BufferInv(s, b);
    var s0 := Next(s, MakeBuffer(b));
    StepKeepsInv(s, MakeBuffer(b));
    GapSurvivesIff(s0, b, gap);
    CountsAreExact(s0, gap);
    NotUsedNotMisused(s0, gap, b);
    MadeStaysMade(s0, gap, b);
    StepKeepsBuffer(Run(s0, gap), Lock(b), b);
  }

  lemma {:induction false} NotUsedNotMisused(s: System, steps: seq<Step>, b: nat)
    requires Inv(s) && Possible(s, steps) && b !in s.bad && forall x <- steps :: !Uses(x, b)
    ensures b !in Run(s, steps).bad
    decreases |steps|
  {
    if steps != [] {
      assert steps[0] in steps && forall x <- steps[1..] :: x in steps;
      StepKeepsBuffer(s, steps[0], b);
      StepKeepsInv(s, steps[0]);
      hide Next, Inv;
      NotUsedNotMisused(Next(s, steps[0]), steps[1..], b);
    }
  }

  lemma {:induction false} MadeStaysMade(s: System, steps: seq<Step>, b: nat)
    requires Possible(s, steps) && b in s.made
    ensures b in Run(s, steps).made
    decreases |steps|
  {
    if steps != [] {
      MadeStaysMade(Next(s, steps[0]), steps[1..], b);
    }
  }

  // ---------- under the lock ----------

  // A buffer that a broadcast has locked outlives everything the other tasks do until it is unlocked.
  lemma {:induction false} LockedSurvives(s: System, b: nat, steps: seq<Step>)
    requires b in s.buffers && s.buffers[b].lock && b in s.made && Possible(s, steps) && Unlock(b) !in steps
    ensures b in Run(s, steps).buffers && Run(s, steps).buffers[b].lock
    decreases |steps|
  {
    if steps != [] {
      assert steps[0] in steps && forall x <- steps[1..] :: x in steps;
      if steps[0].Disconnect? {
        ReleaseAllLock(s.buffers, s.clients[steps[0].c].queue, b);
      }
      StepFreesIff(s, steps[0], b);
      LockedSurvives(Next(s, steps[0]), b, steps[1..]);
    }
  }

  lemma {:induction false} ReleaseAllLock(buffers: map<nat, Buffer>, queue: seq<nat>, b: nat)
    requires b in buffers
    ensures ReleaseAll(buffers, queue)[b].lock == buffers[b].lock
    decreases |queue|
  {
    if queue != [] {
      ReleaseAllLock(Release(buffers, queue[0]), queue[1..], b);
    }
  }

  // At every point of the run, a clean-up would leave b in the list.
  predicate Protected(s: System, steps: seq<Step>, b: nat)
    requires Possible(s, steps)
    decreases |steps|
  {
    b in Next(s, Clean).buffers && (steps != [] ==> Protected(Next(s, steps[0]), steps[1..], b))
  }

  // The lock is one flag, not a count.  While a broadcast holds it and has queued no message yet, the buffer
  // is safe from clean-ups if and only if no overlapping broadcast of the same buffer comes to its unlock.
  lemma {:induction false} OverlappingBroadcastsLoseTheirBufferIff(s: System, b: nat, steps: seq<Step>)
    requires b in s.buffers && s.buffers[b] == Buffer(0, true) && b in s.made && Possible(s, steps)
    requires NewMessage(b) !in steps
    ensures Protected(s, steps, b) <==> Unlock(b) !in steps
    decreases |steps|
  {
    if steps != [] {
      assert steps == [steps[0]] + steps[1..] && forall x <- steps[1..] :: x in steps;
      var t := Next(s, steps[0]);
      StepFreesIff(s, steps[0], b);
      if steps[0] == Unlock(b) {
        assert t.buffers[b] == Buffer(0, false) && b !in Next(t, Clean).buffers;
      } else {
        if steps[0] != Lock(b) {
          UncountedStays(s, steps[0], b);
        }
        OverlappingBroadcastsLoseTheirBufferIff(t, b, steps[1..]);
      }
    }
  }

  // ---------- a broadcast ----------

  // What textAll and binaryAll leave in the queues.
  function Broadcast(clients: seq<Client>, b: nat): (r: seq<Client>)
    ensures |r| == |clients| && forall c :: 0 <= c < |r| ==> r[c].connected == clients[c].connected
    ensures forall c :: 0 <= c < |r| ==>
              r[c].queue == clients[c].queue + if clients[c].connected && |clients[c].queue| < 32 then [b] else []
  {
    seq(|clients|, c requires 0 <= c < |clients| =>
      var k: Client := clients[c];
      if k.connected && |k.queue| < MAX_QUEUED then k.(queue := k.queue + [b]) else k)
  }

  // Queues of messages, over every step: a message joins at the end, if its client is connected and has fewer
  // than 32, and leaves from the front.
  lemma QueuesAreFifo(s: System, step: Step, c: nat)
    requires Enabled(s, step) && c < |s.clients| && !step.Disconnect?
    ensures var t := Next(s, step);
            && c < |t.clients|
            && t.clients[c].queue ==
                 (match step
                  case QueueMessage(i, d) =>
                    var q := s.clients[c].queue;
                    if d == c && s.clients[c].connected && |q| < 32 then q + [s.pending[i]] else q
                  case Finish(d) => if d == c then s.clients[c].queue[1..] else s.clients[c].queue
                  case _ => s.clients[c].queue)
            && (t.clients[c].connected <==> s.clients[c].connected && step != Closing(c))
  {
  }

  lemma {:induction false} QueuesAreShort(s: System, steps: seq<Step>)
    requires Possible(s, steps) && forall k <- s.clients :: |k.queue| <= 32
    ensures forall k <- Run(s, steps).clients :: |k.queue| <= 32
    decreases |steps|
  {
    hide Enabled, Next;
    if steps != [] {
      StepKeepsShort(s, steps[0]);
      QueuesAreShort(Next(s, steps[0]), steps[1..]);
    }
  }

  lemma StepKeepsShort(s: System, step: Step)
    requires Enabled(s, step) && forall k <- s.clients :: |k.queue| <= 32
    ensures forall k <- Next(s, step).clients :: |k.queue| <= 32
  {
    var t := Next(s, step);
    forall i | 0 <= i < |t.clients|
      ensures |t.clients[i].queue| <= 32
    {
      if step.Disconnect? {
        assert t.clients[i] in s.clients;
      } else if i < |s.clients| {
        assert s.clients[i] in s.clients;
        QueuesAreFifo(s, step, i);
      }
    }
  }

  // Any number of clients can connect.
  lemma {:induction false} ClientsConnect(s: System, n: nat)
    ensures var steps := seq(n, _ => Connect);
            && Possible(s, steps)
            && Run(s, steps) == s.(clients := s.clients + seq(n, _ => Client(true, [])))
    decreases n
  {
    var steps: seq<Step>, news: seq<Client> := seq(n, _ => Connect), seq(n, _ => Client(true, []));
    if n == 0 {
      assert s.clients + news == s.clients;
    } else {
      ClientsConnect(Next(s, Connect), n - 1);
      assert steps[1..] == seq(n - 1, _ => Connect);
      assert s.clients + [Client(true, [])] + seq(n - 1, _ => Client(true, [])) == s.clients + news;
    }
  }

  // The two steps of one text call on a buffer, freed or not.
  lemma TextSteps(s: System, c: nat, b: nat)
    requires c < |s.clients| && b in s.made && s.pending == []
    ensures var t := Touch(s, b, if b in s.buffers then s.buffers[b].Inc() else Buffer(1, false));
            var k := s.clients[c];
            Next(Next(s, NewMessage(b)), QueueMessage(0, c)) ==
              if k.connected && |k.queue| < MAX_QUEUED then t.(clients := s.clients[c := Broadcast(s.clients, b)[c]])
              else Drop(t, b)
  {
    hide Release, BadRelease;
    var s1 := Next(s, NewMessage(b));
    assert s1.pending == [b] && Without([b], 0) == [];
  }

  lemma TextKeepsInv(s: System, c: nat, b: nat)
    requires Inv(s) && c < |s.clients| && b in s.made && s.pending == []
    ensures var t := Next(Next(s, NewMessage(b)), QueueMessage(0, c));
            && Inv(t) && t.made == s.made && (b in t.bad <==> b in s.bad || b !in s.buffers)
  {
    hide Inv;
    StepKeepsInv(s, NewMessage(b));
    StepKeepsInv(Next(s, NewMessage(b)), QueueMessage(0, c));
    StepKeepsBuffer(s, NewMessage(b), b);
    StepKeepsBuffer(Next(s, NewMessage(b)), QueueMessage(0, c), b);
  }

  class AsyncWebSocket {
    var buffers: map<nat, Buffer>
    ghost var made: set<nat>
    var clients: seq<Client>
    var pending: seq<nat>
    ghost var bad: set<nat>

    ghost function View(): System
      reads this
    {
      System(buffers, made, clients, pending, bad)
    }

    constructor ()
      ensures View() == Initial()
    {
      buffers, made, clients, pending, bad := map[], {}, [], [], {};
    }

    // An access through a pointer of the caller: to the buffer, or to what was the buffer.
    method TouchBuffer(b: nat, k: Buffer)
      modifies `buffers, `bad
      ensures View() == Touch(old(View()), b, k)
    {
      if b in buffers {
        buffers := buffers[b := k];
      } else {
        bad := bad + {b};
      }
    }

    method ReleaseMessage(b: nat)
      modifies `buffers, `bad
      ensures View() == Drop(old(View()), b)
    {
      if b !in buffers || buffers[b].count == 0 {
        bad := bad + {b};
      }
      if b in buffers {
        buffers := buffers[b := buffers[b].Dec()];
      }
    }

    // AsyncWebSocketClient::text: a new MultiMessage, queued or dropped.
    method Text(c: nat, b: nat)
      requires Inv(View()) && c < |clients| && b in made && pending == []
      modifies this
      ensures Inv(View())
      ensures View() == Next(Next(old(View()), NewMessage(b)), QueueMessage(0, c))
      ensures pending == [] && made == old(made) && (b in bad <==> b in old(bad) || b !in old(buffers))
      ensures b in buffers <==> b in old(buffers)
      ensures b in buffers ==> buffers[b].lock == old(buffers)[b].lock
      ensures clients == old(clients)[c := Broadcast(old(clients), b)[c]]
    {
      TextSteps(View(), c, b);
      TextKeepsInv(View(), c, b);
      hide Inv, Next;
      TouchBuffer(b, if b in buffers then buffers[b].Inc() else Buffer(1, false));
      var k := clients[c];
      if k.connected && |k.queue| < MAX_QUEUED {
        clients := clients[c := k.(queue := k.queue + [b])];
      } else {
        ReleaseMessage(b);
        assert clients == clients[c := k];
      }
    }

    // textAll and binaryAll, with no other task at work: every connected client with room gets the message.
    // A buffer that was there stays there exactly when some message needs it; one that had been freed is
    // touched all the same.
    method TextAll(b: nat)
      requires Inv(View()) && b in made && pending == []
      modifies this
      ensures Inv(View()) && pending == [] && made == old(made)
      ensures clients == Broadcast(old(clients), b)
      ensures b in bad <==> b !in old(buffers)
      ensures b in old(buffers) ==> (b in buffers <==> Live(View(), b) > 0)
    {
      ghost var before, there := clients, b in buffers;
      assert BufferInv(View(), b);
      StepKeepsInv(View(), Lock(b));
      StepKeepsBuffer(View(), Lock(b), b);
      TouchBuffer(b, if b in buffers then buffers[b].(lock := true) else Buffer(0, true));
      for c := 0 to |clients|
        invariant Inv(View()) && pending == [] && |clients| == |before| && made == old(made)
        invariant (b in buffers <==> there) && (there ==> buffers[b].lock) && (b in bad <==> !there)
        invariant forall j :: 0 <= j < |before| ==> clients[j] == if j < c then Broadcast(before, b)[j] else before[j]
      {
        if clients[c].connected {
          Text(c, b);
        }
      }
      StepKeepsInv(View(), Unlock(b));
      StepKeepsBuffer(View(), Unlock(b), b);
      TouchBuffer(b, if b in buffers then buffers[b].(lock := false) else Buffer(0, false));
      CleanUp(b);
      assert clients == Broadcast(before, b);
    }

    method CleanUp(ghost b: nat)
      requires Inv(View())
      modifies `buffers
      ensures Inv(View()) && View() == Next(old(View()), Clean)
      ensures b in buffers <==> b in old(buffers) && (old(buffers)[b].lock || Live(View(), b) > 0)
    {
      assert BufferInv(View(), b);
      StepKeepsInv(View(), Clean);
      buffers := map x | x in buffers && !buffers[x].CanDelete() :: buffers[x];
    }
  }
}
