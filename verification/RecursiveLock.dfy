/**
 * AsyncWebLock and AsyncWebLockGuard (AsyncWebSynchronization.h, ESP32): a binary semaphore made
 * re-entrant by remembering the owning task without further protection.  Every read of _lockedBy,
 * take, store and give is a step of its own, and tasks interleave freely.
 */
module RecursiveLock {
  import opened Basics

  // Where a task stands inside lock() or unlock(): about to take the semaphore, to store itself as
  // the owner, or to give the semaphore back.
  datatype Pc = Running | MustTake | MustStore | MustGive

  // The guards a task has alive, outermost first; true if the guard will unlock.
  datatype Task = Task(pc: Pc, guards: seq<bool>)

  datatype System = System(available: bool, lockedBy: Option<nat>, tasks: map<nat, Task>)

  function Get(s: System, t: nat): Task {
    if t in s.tasks then s.tasks[t] else Task(Running, [])
  }

  function Initial(): System {
    System(true, None, map[])
  }

  datatype Step =
    | Enter(t: nat)   // a guard is constructed: lock() compares _lockedBy with the running task
    | Take(t: nat)    // xSemaphoreTake
    | Store(t: nat)   // _lockedBy = pxCurrentTCB
    | Leave(t: nat)   // the innermost guard is destroyed; unlock() first clears _lockedBy
    | Give(t: nat)    // xSemaphoreGive

  predicate Enabled(s: System, step: Step) {
    var k := Get(s, step.t);
    match step
    case Enter(_) => k.pc.Running?
    case Take(_) => k.pc.MustTake? && s.available
    case Store(_) => k.pc.MustStore?
    case Leave(_) => k.pc.Running? && k.guards != []
    case Give(_) => k.pc.MustGive?
  }

  function Set(s: System, t: nat, k: Task): System {
    s.(tasks := s.tasks[t := k])
  }

  function Next(s: System, step: Step): System
    requires Enabled(s, step)
  {
    var t, k := step.t, Get(s, step.t);
    match step
    case Enter(_) =>
      if s.lockedBy == Some(t) then Set(s, t, k.(guards := k.guards + [false])) else Set(s, t, k.(pc := MustTake))
    case Take(_) => Set(s, t, k.(pc := MustStore)).(available := false)
    case Store(_) => Set(s, t, Task(Running, k.guards + [true])).(lockedBy := Some(t))
    case Leave(_) =>
      if k.guards[|k.guards| - 1] then Set(s, t, k.(pc := MustGive)).(lockedBy := None)
      else Set(s, t, k.(guards := k.guards[..|k.guards| - 1]))
    case Give(_) =>
      Set(s, t, Task(Running, if k.guards == [] then [] else k.guards[..|k.guards| - 1])).(available := true)
  }

  // ---------- the invariant ----------

  predicate Holds(k: Task) {
    k.guards != [] || k.pc.MustStore?
  }

  // The outermost guard of a task unlocks and no other does; a task waits or stores before it has a
  // guard, and gives when only the outermost is left.
  ghost predicate TaskInv(k: Task) {
    && (forall i :: 0 <= i < |k.guards| ==> (k.guards[i] <==> i == 0))
    && (k.pc.MustTake? || k.pc.MustStore? ==> k.guards == [])
    && (k.pc.MustGive? ==> |k.guards| == 1)
  }

  ghost predicate Inv(s: System) {
    && (forall t: nat :: TaskInv(Get(s, t)))
    && (forall t: nat, u: nat :: Holds(Get(s, t)) && Holds(Get(s, u)) ==> t == u)
    && (s.available ==> forall t: nat :: !Holds(Get(s, t)))
    && (!s.available ==> exists t: nat :: Holds(Get(s, t)))
    && (forall t: nat :: s.lockedBy == Some(t) <==> Get(s, t).guards != [] && !Get(s, t).pc.MustGive?)
  }

  lemma StepKeepsInv(s: System, step: Step)
    requires Inv(s) && Enabled(s, step)
    ensures Inv(Next(s, step))
  {
    assert TaskInv(Get(s, step.t));
    StepKeepsTask(s, step);
    OthersKeep(s, Next(s, step), step.t);
  }

  // One task moved: it may come to hold only what was free, and the owner changes only at its hands.
  lemma OthersKeep(s: System, s': System, t: nat)
    requires Inv(s) && TaskInv(Get(s', t)) && forall u: nat :: u != t ==> Get(s', u) == Get(s, u)
    requires var k, k' := Get(s, t), Get(s', t);
             && (Holds(k') ==> Holds(k) || s.available)
             && (s'.available <==> (s.available || Holds(k)) && !Holds(k'))
             && (s'.lockedBy == Some(t) <==> k'.guards != [] && !k'.pc.MustGive?)
             && (s'.lockedBy == s.lockedBy || (Holds(k) && (s'.lockedBy == None || s'.lockedBy == Some(t))))
    ensures Inv(s')
  {
    hide TaskInv, Get;
    if !s'.available && !s.available {
      var u: nat :| Holds(Get(s, u));
      assert u != t ==> Holds(Get(s', u));
    }
  }

  lemma StepKeepsTask(s: System, step: Step)
    requires Enabled(s, step) && TaskInv(Get(s, step.t))
    requires s.lockedBy == Some(step.t) <==> Get(s, step.t).guards != [] && !Get(s, step.t).pc.MustGive?
    ensures TaskInv(Get(Next(s, step), step.t))
  {
  }

  predicate Possible(s: System, steps: seq<Step>)
    decreases |steps|
  {
    steps == [] || (Enabled(s, steps[0]) && Possible(Next(s, steps[0]), steps[1..]))
  }

  function Run(s: System, steps: seq<Step>): System
    requires Possible(s, steps)
    decreases |steps|
  {
    if steps == [] then s else Run(Next(s, steps[0]), steps[1..])
  }

  lemma {:induction false} RunKeepsInv(s: System, steps: seq<Step>)
    requires Inv(s) && Possible(s, steps)
    ensures Inv(Run(s, steps))
    decreases |steps|
  {
    if steps != [] {
      StepKeepsInv(s, steps[0]);
      RunKeepsInv(Next(s, steps[0]), steps[1..]);
    }
  }

  // ---------- main results, over every interleaving ----------

  lemma EveryRunKeepsInv(steps: seq<Step>)
    requires Possible(Initial(), steps)
    ensures Inv(Run(Initial(), steps))
  {
    RunKeepsInv(Initial(), steps);
  }

  // At most one task is between its outermost guard and that guard's end.
  lemma MutualExclusion(steps: seq<Step>, t: nat, u: nat)
    requires Possible(Initial(), steps)
    requires var s := Run(Initial(), steps); Get(s, t).guards != [] && Get(s, u).guards != []
    ensures t == u
  {
    EveryRunKeepsInv(steps);
  }

  // The unprotected read is safe: whoever _lockedBy names holds the semaphore, and a task that is
  // inside finds its own name there, so it never waits for itself.
  lemma OwnerHoldsSemaphore(steps: seq<Step>, t: nat)
    requires Possible(Initial(), steps)
    ensures var s := Run(Initial(), steps);
            && (s.lockedBy == Some(t) ==> !s.available && Holds(Get(s, t)))
            && (Get(s, t).guards != [] && Get(s, t).pc.Running? ==>
                  Next(s, Enter(t)) == Set(s, t, Task(Running, Get(s, t).guards + [false])))
  {
    EveryRunKeepsInv(steps);
  }

  // Only the outermost guard releases: a Give leaves its task without guards, and from then on the
  // semaphore is free for anyone.
  lemma OnlyOutermostReleases(steps: seq<Step>, step: Step)
    requires Possible(Initial(), steps) && Enabled(Run(Initial(), steps), step)
    ensures var s := Run(Initial(), steps);
            var s' := Next(s, step);
            && (step.Leave? ==> (s'.lockedBy == None <==> |Get(s, step.t).guards| == 1))
            && (step.Give? ==> |Get(s, step.t).guards| == 1 && forall u: nat :: !Holds(Get(s', u)))
            && (s'.available && !s.available ==> step.Give?)
  {
    EveryRunKeepsInv(steps);
    StepKeepsInv(Run(Initial(), steps), step);
    assert TaskInv(Get(Run(Initial(), steps), step.t));
  }

  // How often a task has begun to enter, and to leave.
  function Entries(steps: seq<Step>, t: nat): nat {
    if steps == [] then 0 else Entries(steps[..|steps| - 1], t) + if steps[|steps| - 1] == Enter(t) then 1 else 0
  }

  function Leaves(steps: seq<Step>, t: nat): nat {
    if steps == [] then 0 else Leaves(steps[..|steps| - 1], t) + if steps[|steps| - 1] == Leave(t) then 1 else 0
  }

  lemma {:induction false} RunAppend(s: System, steps: seq<Step>, step: Step)
    requires Possible(s, steps + [step])
    ensures Possible(s, steps) && Enabled(Run(s, steps), step)
    ensures Run(s, steps + [step]) == Next(Run(s, steps), step)
    decreases |steps|
  {
    hide Enabled, Next;
    if steps == [] {
      assert [] + [step] == [step] && [step][1..] == [];
    } else {
      assert (steps + [step])[1..] == steps[1..] + [step];
      RunAppend(Next(s, steps[0]), steps[1..], step);
    }
  }

  // How deep a task is inside: one guard is still to come while it is about to get the semaphore, and the
  // outermost is still there until the semaphore is given back.
  function Depth(k: Task): int {
    |k.guards| + (if k.pc.MustTake? || k.pc.MustStore? then 1 else 0) - if k.pc.MustGive? then 1 else 0
  }

  lemma StepChangesDepth(s: System, step: Step, t: nat)
    requires Enabled(s, step) && TaskInv(Get(s, step.t))
    ensures Depth(Get(Next(s, step), t)) ==
              Depth(Get(s, t)) + (if step == Enter(t) then 1 else 0) - if step == Leave(t) then 1 else 0
  {
  }

  // A task's guards are its entries less its leaves.
  lemma {:induction false} GuardsAreEntriesLessLeaves(steps: seq<Step>, t: nat)
    requires Possible(Initial(), steps)
    ensures Depth(Get(Run(Initial(), steps), t)) == Entries(steps, t) - Leaves(steps, t)
    decreases |steps|
  {
    hide Depth, Next, Enabled, Run, Possible, Inv;
    if steps == [] {
      NothingRun(t);
    } else {
      var front, step := steps[..|steps| - 1], steps[|steps| - 1];
      assert steps == front + [step];
      RunAppend(Initial(), front, step);
      GuardsAreEntriesLessLeaves(front, t);
      EveryRunKeepsInv(front);
      AnyTask(Run(Initial(), front), step.t);
      StepChangesDepth(Run(Initial(), front), step, t);
    }
  }

  lemma NothingRun(t: nat)
    ensures Run(Initial(), []) == Initial() && Depth(Get(Initial(), t)) == 0
  {
  }

  lemma AnyTask(s: System, t: nat)
    requires Inv(s)
    ensures TaskInv(Get(s, t))
  {
  }

  // Tasks that have left as often as they entered, and given back what they had to, hold nothing: the
  // semaphore is free.
  lemma AllLeftMeansFree(steps: seq<Step>)
    requires Possible(Initial(), steps)
    requires forall t: nat ::
               Entries(steps, t) == Leaves(steps, t) && !Get(Run(Initial(), steps), t).pc.MustGive?
    ensures Run(Initial(), steps).available && Run(Initial(), steps).lockedBy == None
  {
    EveryRunKeepsInv(steps);
    var s := Run(Initial(), steps);
    forall t: nat
      ensures !Holds(Get(s, t))
    {
      GuardsAreEntriesLessLeaves(steps, t);
      assert TaskInv(Get(s, t));
    }
    assert s.lockedBy.Some? ==> Holds(Get(s, s.lockedBy.value));
  }

  // No deadlock: a waiting task can take the semaphore, or the task that holds it can go on.
  lemma SomeoneCanGoOn(steps: seq<Step>, t: nat)
    requires Possible(Initial(), steps) && Get(Run(Initial(), steps), t).pc.MustTake?
    ensures var s := Run(Initial(), steps);
            Enabled(s, Take(t)) ||
            exists u: nat :: u != t && (Enabled(s, Store(u)) || Enabled(s, Leave(u)) || Enabled(s, Give(u)))
  {
    EveryRunKeepsInv(steps);
    var s := Run(Initial(), steps);
    if !s.available {
      var u: nat :| Holds(Get(s, u));
      assert TaskInv(Get(s, t)) && TaskInv(Get(s, u));
      assert Enabled(s, Store(u)) || Enabled(s, Leave(u)) || Enabled(s, Give(u));
    }
  }

  // ---------- the object ----------

  // A lock used without interference: a guard's construction and destruction are the steps above in a row.
  class AsyncWebLock {
    var available: bool
    var lockedBy: Option<nat>

    ghost predicate Matches(s: System)
      reads this
    {
      available == s.available && lockedBy == s.lockedBy
    }

    constructor ()
      ensures Matches(Initial())
    {
      available, lockedBy := true, None;
    }

    // The task waits for the semaphore, so lock returns only from a state where it could be taken.
    method Lock(task: nat, ghost s: System) returns (outermost: bool, ghost s': System)
      requires Matches(s) && Get(s, task).pc.Running?
      requires lockedBy != Some(task) ==> available
      modifies this
      ensures Matches(s') && (outermost <==> s.lockedBy != Some(task))
      ensures s' == if outermost then Next(Next(Next(s, Enter(task)), Take(task)), Store(task))
                    else Next(s, Enter(task))
      ensures Get(s', task) == Task(Running, Get(s, task).guards + [outermost])
    {
      s' := Next(s, Enter(task));
      if lockedBy != Some(task) {
        available := false;
        lockedBy := Some(task);
        s' := Next(Next(s', Take(task)), Store(task));
        return true, s';
      }
      return false, s';
    }

    method Unlock(task: nat, ghost s: System) returns (ghost s': System)
      requires Matches(s) && Enabled(s, Leave(task)) && Get(s, task).guards == [true]
      modifies this
      ensures Matches(s') && s' == Next(Next(s, Leave(task)), Give(task))
      ensures available && lockedBy == None
    {
      lockedBy := None;
      available := true;
      s' := Next(Next(s, Leave(task)), Give(task));
    }
  }
}
