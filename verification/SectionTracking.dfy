/**
 * Catch's section tracking (catch.hpp, TestCaseTracking): a test body with nested sections is run
 * again and again, each cycle entering one more leaf section, until the tracker of the test case is
 * complete.  A tracker is named by the path of names from the root, which is how findChild finds it.
 */
module SectionTracking {

  // ---------- the test body ----------

  // A section is its name and the sections met, in source order, while it runs.
  datatype Section = Section(name: string, subs: seq<Section>)

  function Leaves(s: Section): (n: nat)
    ensures n >= 1
  {
    if s.subs == [] then 1 else LeavesIn(s.subs)
  }

  function LeavesIn(subs: seq<Section>): (n: nat)
    ensures n >= |subs|
  {
    if subs == [] then 0 else Leaves(subs[0]) + LeavesIn(subs[1..])
  }

  function Names(subs: seq<Section>): (ns: seq<string>)
    ensures |ns| == |subs| && forall i :: 0 <= i < |subs| ==> ns[i] == subs[i].name
  {
    seq(|subs|, i requires 0 <= i < |subs| => subs[i].name)
  }

  // Siblings have distinct names, all the way down.
  ghost predicate WellNamed(s: Section) {
    WellNamedAll(s.subs)
  }

  ghost predicate WellNamedAll(subs: seq<Section>) {
    && (forall i, j :: 0 <= i < j < |subs| ==> subs[i].name != subs[j].name)
    && (forall s <- subs :: WellNamed(s))
  }

  // ---------- trackers ----------

  datatype CycleState = NotStarted | Executing | ExecutingChildren | NeedsAnotherRun | CompletedSuccessfully | Failed

  datatype Tracker = Tracker(runState: CycleState, children: seq<string>) {
    predicate IsComplete() { runState.CompletedSuccessfully? || runState.Failed? }

    predicate IsOpen() { !runState.NotStarted? && !IsComplete() }
  }

  type Path = seq<string>

  type Trackers = map<Path, Tracker>

  const FRESH := Tracker(NotStarted, [])

  function Get(tr: Trackers, path: Path): Tracker {
    if path in tr then tr[path] else FRESH
  }

  function Parent(path: Path): Path
    requires path != []
  {
    path[..|path| - 1]
  }

  // TrackerContext.  illogical is set where the code would throw logic_error or trip an assertion.
  datatype Context = Context(trackers: Trackers, current: Path, completed: bool, illogical: bool, entered: seq<Path>)

  function SetState(tr: Trackers, path: Path, state: CycleState): Trackers {
    tr[path := Get(tr, path).(runState := state)]
  }

  function OpenChild(tr: Trackers, path: Path): Trackers
    decreases |path|
  {
    if Get(tr, path).runState.ExecutingChildren? then tr
    else
      var tr' := SetState(tr, path, ExecutingChildren);
      if path == [] then tr' else OpenChild(tr', Parent(path))
  }

  function Open(ctx: Context, path: Path): Context
    requires path != []
  {
    ctx.(trackers := OpenChild(SetState(ctx.trackers, path, Executing), Parent(path)), current := path)
  }

  // findChild, or a new tracker at the end of the children
  function FindOrAdd(tr: Trackers, path: Path, name: string): Trackers {
    var t := Get(tr, path);
    if name in t.children then tr
    else tr[path := t.(children := t.children + [name])][path + [name] := FRESH]
  }

  // SectionTracker::acquire
  function Acquire(ctx: Context, name: string): Context {
    var path := ctx.current + [name];
    var found := ctx.(trackers := FindOrAdd(ctx.trackers, ctx.current, name));
    if !ctx.completed && !Get(found.trackers, path).IsComplete() then Open(found, path) else found
  }

  function ClosedState(tr: Trackers, path: Path): CycleState {
    var t := Get(tr, path);
    match t.runState
    case Executing => CompletedSuccessfully
    case ExecutingChildren =>
      if t.children == [] || Get(tr, path + [t.children[|t.children| - 1]]).IsComplete() then CompletedSuccessfully
      else ExecutingChildren
    case other => other
  }

  // TrackerBase::close, on the current tracker
  function Close(ctx: Context): Context {
    var state := Get(ctx.trackers, ctx.current).runState;
    if ctx.current == [] || state.NotStarted? || state.CompletedSuccessfully? || state.Failed? then
      ctx.(illogical := true)
    else
      ctx.(trackers := SetState(ctx.trackers, ctx.current, ClosedState(ctx.trackers, ctx.current)),
           current := Parent(ctx.current), completed := true)
  }

  // Closing is illogical if and only if there is no open tracker to close.
  lemma CloseIsIllogicalIff(ctx: Context)
    ensures Close(ctx).illogical <==>
              ctx.illogical || ctx.current == [] || !Get(ctx.trackers, ctx.current).IsOpen()
  {
  }

  // ---------- running the body ----------

  // A SECTION: sectionStarted, the body if it is to run, sectionEnded.
  function RunSection(ctx: Context, s: Section): Context
    decreases s
  {
    var path := ctx.current + [s.name];
    var a := Acquire(ctx, s.name);
    if !Get(a.trackers, path).IsOpen() then a
    else Close(RunBody(a.(entered := a.entered + [path]), s.subs))
  }

  function RunBody(ctx: Context, subs: seq<Section>): Context
    decreases subs
  {
    if subs == [] then ctx else RunBody(RunSection(ctx, subs[0]), subs[1..])
  }

  // startRun, and one turn of the inner loop of runTest
  function StartRun(): Context {
    Context(map[[] := FRESH], [], false, false, [])
  }

  function Cycle(ctx: Context, test: Section): Context {
    var a := Acquire(ctx.(current := [], completed := false, entered := []), test.name);
    Close(RunBody(a, test.subs))
  }

  function Cycles(test: Section, k: nat): Context {
    if k == 0 then StartRun() else Cycle(Cycles(test, k - 1), test)
  }

  // ---------- what each cycle should do ----------

  // The sections on the way to leaf k below path, outermost first.
  function WayTo(path: Path, subs: seq<Section>, k: nat): seq<Path>
    requires k < LeavesIn(subs)
    decreases subs
  {
    if k < Leaves(subs[0]) then
      [path + [subs[0].name]] +
      if subs[0].subs == [] then [] else WayTo(path + [subs[0].name], subs[0].subs, k)
    else WayTo(path, subs[1..], k - Leaves(subs[0]))
  }

  // The trackers of s and everything below it once its first d leaves have run.
  ghost predicate Done(tr: Trackers, path: Path, s: Section, d: nat)
    decreases s
  {
    if d == 0 then Get(tr, path) == FRESH
    else if d >= Leaves(s) then Get(tr, path).runState == CompletedSuccessfully
    else Get(tr, path) == Tracker(ExecutingChildren, Names(s.subs)) && DoneAll(tr, path, s.subs, d)
  }

  ghost predicate DoneAll(tr: Trackers, path: Path, subs: seq<Section>, d: nat)
    decreases subs
  {
    subs != [] ==>
      var n := Leaves(subs[0]);
      && Done(tr, path + [subs[0].name], subs[0], if d < n then d else n)
      && DoneAll(tr, path, subs[1..], if d < n then 0 else d - n)
  }

  // ---------- the leaves, listed ----------

  // The leaf sections below path in source order.
  function LeafPaths(path: Path, subs: seq<Section>): (ls: seq<Path>)
    ensures |ls| == LeavesIn(subs)
    decreases subs
  {
    if subs == [] then []
    else
      var here := path + [subs[0].name];
      (if subs[0].subs == [] then [here] else LeafPaths(here, subs[0].subs)) + LeafPaths(path, subs[1..])
  }

  // The way to a leaf is every prefix of its path below the start: the leaf and all that encloses it.
  lemma {:induction false} WayIsPrefixes(path: Path, subs: seq<Section>, k: nat)
    requires k < LeavesIn(subs)
    ensures var way, leaf := WayTo(path, subs, k), LeafPaths(path, subs)[k];
            && path < leaf && |way| == |leaf| - |path|
            && forall i :: 0 <= i < |way| ==> way[i] == leaf[..|path| + 1 + i]
    decreases subs
  {
    var here := path + [subs[0].name];
    LeafPathsSplit(path, subs, k);
    hide LeafPaths;
    if k >= Leaves(subs[0]) {
      WayIsPrefixes(path, subs[1..], k - Leaves(subs[0]));
    } else if subs[0].subs != [] {
      WayIsPrefixes(here, subs[0].subs, k);
      var leaf := LeafPaths(path, subs)[k];
      assert leaf == LeafPaths(here, subs[0].subs)[k];
      assert path < here < leaf && leaf[..|path| + 1] == here;
    } else {
      assert here[..|path| + 1] == here;
    }
  }

  // With distinct sibling names no two leaves have the same path, so no leaf is run twice.
  lemma {:induction false} LeavesDistinct(path: Path, subs: seq<Section>, i: nat, j: nat)
    requires WellNamedAll(subs) && i < j < LeavesIn(subs)
    ensures LeafPaths(path, subs)[i] != LeafPaths(path, subs)[j]
    decreases subs
  {
    hide LeafPaths;
    var n := Leaves(subs[0]);
    var here := path + [subs[0].name];
    assert subs[0] in subs && forall s <- subs[1..] :: s in subs;
    LeafPathsSplit(path, subs, i);
    LeafPathsSplit(path, subs, j);
    if i >= n {
      LeavesDistinct(path, subs[1..], i - n, j - n);
    } else if j < n {
      LeavesDistinct(here, subs[0].subs, i, j);
    } else {
      OtherSubsection(path, subs, i, j);
    }
  }

  lemma OtherSubsection(path: Path, subs: seq<Section>, i: nat, j: nat)
    requires WellNamedAll(subs) && i < j < LeavesIn(subs) && i < Leaves(subs[0]) <= j
    ensures LeafPaths(path, subs)[i] != LeafPaths(path, subs)[j]
  {
    LeafPathsSplit(path, subs, i);
    LeafPathsSplit(path, subs, j);
    FirstNames(path, subs[1..], j - Leaves(subs[0]));
    FirstNames(path, subs[..1], i);
    LeafPathsSplit(path, subs[..1], i);
  }

  // The leaves of the first subsection come before the others.
  lemma LeafPathsSplit(path: Path, subs: seq<Section>, k: nat)
    requires k < LeavesIn(subs)
    ensures var here := path + [subs[0].name];
            LeafPaths(path, subs)[k] ==
              if k >= Leaves(subs[0]) then LeafPaths(path, subs[1..])[k - Leaves(subs[0])]
              else if subs[0].subs == [] then here else LeafPaths(here, subs[0].subs)[k]
  {
  }

  // A leaf below path goes on with the name of one of the subsections.
  lemma {:induction false} FirstNames(path: Path, subs: seq<Section>, k: nat)
    requires k < LeavesIn(subs)
    ensures |LeafPaths(path, subs)[k]| > |path|
    ensures exists s <- subs :: LeafPaths(path, subs)[k][|path|] == s.name
    decreases subs
  {
    var here := path + [subs[0].name];
    if k >= Leaves(subs[0]) {
      FirstNames(path, subs[1..], k - Leaves(subs[0]));
    } else {
      if subs[0].subs != [] {
        WayIsPrefixes(here, subs[0].subs, k);
      }
      assert subs[0] in subs && LeafPaths(path, subs)[k][|path|] == subs[0].name;
    }
  }

  // ---------- frames ----------

  // Nothing changed except at path and below it.
  ghost predicate SameOutside(tr: Trackers, tr': Trackers, path: Path) {
    forall q: Path :: !(path <= q) ==> Get(tr', q) == Get(tr, q)
  }

  ghost predicate SameBelow(tr: Trackers, tr': Trackers, path: Path) {
    forall q: Path :: path <= q ==> Get(tr', q) == Get(tr, q)
  }

  lemma {:induction false} DoneFrame(tr: Trackers, tr': Trackers, path: Path, s: Section, d: nat)
    requires Done(tr, path, s, d) && SameBelow(tr, tr', path)
    ensures Done(tr', path, s, d)
    decreases s
  {
    if 0 < d < Leaves(s) {
      forall i | 0 <= i < |s.subs|
        ensures SameBelow(tr, tr', path + [s.subs[i].name])
      {
        DeeperFrame(tr, tr', path, s.subs[i].name);
      }
      DoneAllFrame(tr, tr', path, s.subs, d);
    }
  }

  lemma DeeperFrame(tr: Trackers, tr': Trackers, path: Path, name: string)
    requires SameBelow(tr, tr', path)
    ensures SameBelow(tr, tr', path + [name])
  {
    forall q: Path | path + [name] <= q
      ensures Get(tr', q) == Get(tr, q)
    {
      assert path <= path + [name];
    }
  }

  lemma {:induction false} DoneAllFrame(tr: Trackers, tr': Trackers, path: Path, subs: seq<Section>, d: nat)
    requires DoneAll(tr, path, subs, d)
    requires forall i :: 0 <= i < |subs| ==> SameBelow(tr, tr', path + [subs[i].name])
    ensures DoneAll(tr', path, subs, d)
    decreases subs
  {
    if subs != [] {
      var n := Leaves(subs[0]);
      DoneFrame(tr, tr', path + [subs[0].name], subs[0], if d < n then d else n);
      DoneAllFrame(tr, tr', path, subs[1..], if d < n then 0 else d - n);
    }
  }

  // ---------- opening ----------

  // Every tracker above path has a running child.
  ghost predicate AncestorsRunning(tr: Trackers, path: Path) {
    forall k :: 0 <= k < |path| ==> Get(tr, path[..k]).runState.ExecutingChildren?
  }

  // openChild stops at the first ancestor that already runs children.
  lemma OpenChildStops(tr: Trackers, path: Path)
    requires AncestorsRunning(tr, path)
    ensures forall q: Path :: Get(OpenChild(tr, path), q) ==
              if q == path then Get(tr, q).(runState := ExecutingChildren) else Get(tr, q)
  {
    if !Get(tr, path).runState.ExecutingChildren? && path != [] {
      var tr' := SetState(tr, path, ExecutingChildren);
      assert Parent(path) == path[..|path| - 1];
      assert Get(tr', Parent(path)).runState.ExecutingChildren?;
    }
  }

  // The children of path once name is among them.
  function WithChild(children: seq<string>, name: string): seq<string> {
    if name in children then children else children + [name]
  }

  // Nothing changed except path itself and what is at or below its child.
  ghost predicate SameBeside(tr: Trackers, tr': Trackers, path: Path, child: Path) {
    forall q: Path :: q != path && !(child <= q) ==> Get(tr', q) == Get(tr, q)
  }

  // The place of a section in its parent: known there with its first d leaves done, or not met yet.
  ghost predicate Known(tr: Trackers, path: Path, s: Section, d: nat) {
    if s.name in Get(tr, path).children then Done(tr, path + [s.name], s, d) else d == 0
  }

  lemma FindOrAddSpec(tr: Trackers, path: Path, s: Section, d: nat)
    requires Known(tr, path, s, d)
    ensures var tr' := FindOrAdd(tr, path, s.name);
            && Done(tr', path + [s.name], s, d)
            && Get(tr', path) == Get(tr, path).(children := WithChild(Get(tr, path).children, s.name))
            && SameBeside(tr, tr', path, path + [s.name])
  {
    assert path + [s.name] != path;
  }

  // acquire on a section that is not to run: the cycle is over, or all its leaves are done.
  lemma AcquireWithoutOpening(ctx: Context, s: Section, d: nat)
    requires Known(ctx.trackers, ctx.current, s, d) && d <= Leaves(s)
    requires ctx.completed || d == Leaves(s)
    requires d == 0 || d == Leaves(s)
    ensures var a := Acquire(ctx, s.name);
            var tr, child := ctx.trackers, ctx.current + [s.name];
            && a == ctx.(trackers := a.trackers)
            && Done(a.trackers, child, s, d) && !Get(a.trackers, child).IsOpen()
            && Get(a.trackers, a.current) ==
                 Get(tr, a.current).(children := WithChild(Get(tr, a.current).children, s.name))
            && SameBeside(tr, a.trackers, a.current, child)
  {
    FindOrAddSpec(ctx.trackers, ctx.current, s, d);
  }

  // acquire on a section that still has a leaf to run, in a cycle that has not run one yet.
  lemma AcquireOpens(ctx: Context, s: Section, d: nat)
    requires Known(ctx.trackers, ctx.current, s, d) && d < Leaves(s) && !ctx.completed
    requires AncestorsRunning(ctx.trackers, ctx.current)
    ensures var a := Acquire(ctx, s.name);
            var tr, child := ctx.trackers, ctx.current + [s.name];
            && a == ctx.(trackers := a.trackers, current := child)
            && Get(a.trackers, child) == Tracker(Executing, if d == 0 then [] else Names(s.subs))
            && (d > 0 ==> DoneAll(a.trackers, child, s.subs, d))
            && AncestorsRunning(a.trackers, child)
            && Get(a.trackers, ctx.current) ==
                 Tracker(ExecutingChildren, WithChild(Get(tr, ctx.current).children, s.name))
            && SameBeside(tr, a.trackers, ctx.current, child)
  {
    var path, tr := ctx.current, ctx.trackers;
    var child := path + [s.name];
    FindOrAddSpec(tr, path, s, d);
    var found := FindOrAdd(tr, path, s.name);
    assert !Get(found, child).IsComplete() && Parent(child) == path;
    AncestorsUntouched(tr, found, path, child);
    OpenedTrackers(found, path, s, d);
    hide AncestorsRunning, Done, DoneAll, Known, OpenChild, SetState, FindOrAdd;
    ChainOpened(tr, found, Acquire(ctx, s.name).trackers, path, child);
  }

  lemma ChainOpened(tr: Trackers, found: Trackers, tr': Trackers, path: Path, child: Path)
    requires SameBeside(tr, found, path, child) && SameBeside(found, tr', path, child)
    ensures SameBeside(tr, tr', path, child)
  {
  }

  // open, on the tracker that acquire has found.
  lemma OpenedTrackers(tr: Trackers, path: Path, s: Section, d: nat)
    requires Done(tr, path + [s.name], s, d) && d < Leaves(s) && AncestorsRunning(tr, path)
    ensures var child := path + [s.name];
            var tr' := OpenChild(SetState(tr, child, Executing), path);
            && Get(tr', child) == Tracker(Executing, if d == 0 then [] else Names(s.subs))
            && (d > 0 ==> DoneAll(tr', child, s.subs, d))
            && AncestorsRunning(tr', child)
            && Get(tr', path) == Tracker(ExecutingChildren, Get(tr, path).children)
            && SameBeside(tr, tr', path, child)
  {
    var child := path + [s.name];
    var started := SetState(tr, child, Executing);
    var tr' := OpenChild(started, path);
    AncestorsUntouched(tr, started, path, child);
    OpenChildStops(started, path);
    hide OpenChild;
    AncestorsOfChild(started, tr', path, s.name);
    hide AncestorsRunning;
    if d > 0 {
      forall i | 0 <= i < |s.subs|
        ensures SameBelow(tr, tr', child + [s.subs[i].name])
      {
        BelowUntouched(tr, tr', path, child, s.subs[i].name);
      }
      DoneAllFrame(tr, tr', child, s.subs, d);
    }
  }

  // What lies strictly below child does not change with child and its parent.
  lemma BelowUntouched(tr: Trackers, tr': Trackers, path: Path, child: Path, name: string)
    requires |path| <= |child|
    requires forall q: Path :: q != path && q != child ==> Get(tr', q) == Get(tr, q)
    ensures SameBelow(tr, tr', child + [name])
  {
  }

  lemma AncestorsUntouched(tr: Trackers, tr': Trackers, path: Path, child: Path)
    requires AncestorsRunning(tr, path) && |child| == |path| + 1
    requires forall q: Path :: q != path && !(child <= q) ==> Get(tr', q) == Get(tr, q)
    ensures AncestorsRunning(tr', path)
  {
  }

  lemma AncestorsOfChild(tr: Trackers, tr': Trackers, path: Path, name: string)
    requires AncestorsRunning(tr, path)
    requires forall q: Path ::
               Get(tr', q) == if q == path then Get(tr, q).(runState := ExecutingChildren) else Get(tr, q)
    ensures AncestorsRunning(tr', path + [name])
  {
    var child := path + [name];
    forall k | 0 <= k < |child|
      ensures Get(tr', child[..k]).runState.ExecutingChildren?
    {
      if k == |path| {
        assert child[..k] == path;
      } else {
        assert child[..k] == path[..k];
      }
    }
  }

  // ---------- closing ----------

  // The last child is complete exactly when every leaf is done.
  lemma {:induction false} LastIsComplete(tr: Trackers, path: Path, subs: seq<Section>, d: nat)
    requires subs != [] && DoneAll(tr, path, subs, d) && d <= LeavesIn(subs)
    ensures Get(tr, path + [subs[|subs| - 1].name]).IsComplete() <==> d == LeavesIn(subs)
    decreases subs
  {
    var n := Leaves(subs[0]);
    if |subs| == 1 {
      assert subs[1..] == [];
    } else {
      assert subs[1..][|subs| - 2] == subs[|subs| - 1];
      LastIsComplete(tr, path, subs[1..], if d < n then 0 else d - n);
    }
  }

  // ---------- one section, one body ----------

  // Whether this cycle runs a leaf of s.
  predicate Goes(ctx: Context, s: Section, d: nat) {
    !ctx.completed && d < Leaves(s)
  }

  // The body of a section that has just been opened, and its close: one more leaf is done.
  lemma {:induction false} OpenedSpec(a: Context, path: Path, s: Section, d: nat)
    requires WellNamed(s) && d < Leaves(s) && !a.completed && !a.illogical
    requires a.current == path + [s.name] && AncestorsRunning(a.trackers, a.current)
    requires Get(a.trackers, a.current) == Tracker(Executing, if d == 0 then [] else Names(s.subs))
    requires d > 0 ==> DoneAll(a.trackers, a.current, s.subs, d)
    ensures var r := Close(RunBody(a, s.subs));
            && r.current == path && r.completed && !r.illogical
            && Done(r.trackers, path + [s.name], s, d + 1)
            && r.entered == a.entered + (if s.subs == [] then [] else WayTo(path + [s.name], s.subs, d))
            && SameOutside(a.trackers, r.trackers, path + [s.name])
    decreases s, 1
  {
    if s.subs == [] {
      OpenedLeaf(a, path, s);
    } else {
      hide Close, RunBody, WayTo, Done, Get, AncestorsRunning, WellNamed, SameOutside;
      WellNamedBelow(s);
      BodyOpens(a, path, s, d);
      BodySpec(a, s.subs, 0, d);
      assert s.subs[0..] == s.subs;
      OpenedCloses(a, RunBody(a, s.subs), path, s, d);
    }
  }

  lemma OpenedLeaf(a: Context, path: Path, s: Section)
    requires s.subs == [] && !a.illogical && a.current == path + [s.name]
    requires Get(a.trackers, a.current).runState == Executing
    ensures var r := Close(RunBody(a, s.subs));
            && r.current == path && r.completed && !r.illogical
            && Done(r.trackers, path + [s.name], s, 1)
            && r.entered == a.entered && SameOutside(a.trackers, r.trackers, path + [s.name])
  {
    assert Parent(path + [s.name]) == path;
  }

  lemma WellNamedBelow(s: Section)
    requires WellNamed(s)
    ensures WellNamedAll(s.subs)
  {
  }

  lemma BodyOpens(a: Context, path: Path, s: Section, d: nat)
    requires s.subs != [] && d < Leaves(s) && !a.completed && !a.illogical
    requires AncestorsRunning(a.trackers, a.current)
    requires Get(a.trackers, a.current) == Tracker(Executing, if d == 0 then [] else Names(s.subs))
    requires d > 0 ==> DoneAll(a.trackers, a.current, s.subs, d)
    ensures BodyReady(a, s.subs, 0, d) && d < LeavesIn(s.subs)
  {
    assert s.subs[0..] == s.subs && Names(s.subs)[..0] == [];
  }

  lemma OpenedCloses(a: Context, b: Context, path: Path, s: Section, d: nat)
    requires s.subs != [] && d < Leaves(s) == LeavesIn(s.subs) && !a.completed
    requires a.current == path + [s.name] && s.subs[0..] == s.subs && BodyResult(a, b, s.subs, 0, d)
    ensures var r := Close(b);
            && r.current == path && r.completed && !r.illogical
            && Done(r.trackers, path + [s.name], s, d + 1)
            && r.entered == a.entered + WayTo(path + [s.name], s.subs, d)
            && SameOutside(a.trackers, r.trackers, path + [s.name])
  {
    hide Close, WayTo, Done, Names, Leaves, LeavesIn;
    LastIsComplete(b.trackers, b.current, s.subs, d + 1);
    CloseSpec(b, path, s, d + 1);
  }

  lemma CloseSpec(b: Context, path: Path, s: Section, d: nat)
    requires s.subs != [] && 0 < d <= Leaves(s) && !b.illogical
    requires b.current == path + [s.name]
    requires Get(b.trackers, b.current) == Tracker(ExecutingChildren, Names(s.subs))
    requires DoneAll(b.trackers, b.current, s.subs, d)
    requires Get(b.trackers, b.current + [s.subs[|s.subs| - 1].name]).IsComplete() <==> d == Leaves(s)
    ensures var r := Close(b);
            && r == b.(trackers := r.trackers, current := path, completed := true)
            && Done(r.trackers, path + [s.name], s, d)
            && SameOutside(b.trackers, r.trackers, path + [s.name])
  {
    var child := path + [s.name];
    var r := Close(b);
    assert Parent(child) == path;
    forall i | 0 <= i < |s.subs|
      ensures SameBelow(b.trackers, r.trackers, child + [s.subs[i].name])
    {
      BelowUntouched(b.trackers, r.trackers, child, child, s.subs[i].name);
    }
    DoneAllFrame(b.trackers, r.trackers, child, s.subs, d);
  }

  // What RunSection does to a section of which d leaves are done.
  ghost predicate SectionResult(ctx: Context, r: Context, s: Section, d: nat)
    requires d <= Leaves(s)
  {
    var go := Goes(ctx, s, d);
    && r.current == ctx.current && !r.illogical && r.completed == (ctx.completed || go)
    && SectionTrackers(ctx.trackers, r.trackers, ctx.current, go, s, d)
    && r.entered == ctx.entered + SectionWay(ctx.current, s, d, go)
  }

  ghost predicate SectionTrackers(tr: Trackers, tr': Trackers, path: Path, go: bool, s: Section, d: nat) {
    && Done(tr', path + [s.name], s, if go then d + 1 else d)
    && Get(tr', path) == Tracker(if go then ExecutingChildren else Get(tr, path).runState,
                                 WithChild(Get(tr, path).children, s.name))
    && SameBeside(tr, tr', path, path + [s.name])
  }

  function SectionWay(path: Path, s: Section, d: nat, go: bool): seq<Path>
    requires go ==> d < Leaves(s)
  {
    if !go then []
    else [path + [s.name]] + if s.subs == [] then [] else WayTo(path + [s.name], s.subs, d)
  }

  lemma {:induction false} SectionSpec(ctx: Context, s: Section, d: nat)
    requires WellNamed(s) && d <= Leaves(s) && !ctx.illogical
    requires Known(ctx.trackers, ctx.current, s, d) && AncestorsRunning(ctx.trackers, ctx.current)
    requires ctx.completed ==> d == 0 || d == Leaves(s)
    ensures SectionResult(ctx, RunSection(ctx, s), s, d)
    decreases s, 3
  {
    if Goes(ctx, s, d) {
      SectionGoes(ctx, s, d);
    } else {
      AcquireWithoutOpening(ctx, s, d);
      assert ctx.entered + [] == ctx.entered;
    }
  }

  lemma {:induction false} SectionGoes(ctx: Context, s: Section, d: nat)
    requires WellNamed(s) && d < Leaves(s) && !ctx.illogical && !ctx.completed
    requires Known(ctx.trackers, ctx.current, s, d) && AncestorsRunning(ctx.trackers, ctx.current)
    ensures SectionResult(ctx, RunSection(ctx, s), s, d)
    decreases s, 2
  {
    hide Acquire, Close, RunBody, Done, DoneAll, AncestorsRunning, WellNamed, WayTo, Get, WithChild, Known;
    var child := ctx.current + [s.name];
    assert !(child <= ctx.current);
    AcquireOpens(ctx, s, d);
    var a := Acquire(ctx, s.name);
    var b := a.(entered := a.entered + [child]);
    OpenedSpec(b, ctx.current, s, d);
    var r := Close(RunBody(b, s.subs));
    assert RunSection(ctx, s) == r;
    ChainBeside(ctx.trackers, a.trackers, r.trackers, ctx.current, child);
    var way: seq<Path> := if s.subs == [] then [] else WayTo(child, s.subs, d);
    assert ctx.entered + [child] + way == ctx.entered + ([child] + way);
  }

  lemma ChainBeside(tr: Trackers, tr': Trackers, tr'': Trackers, path: Path, child: Path)
    requires SameBeside(tr, tr', path, child) && SameOutside(tr', tr'', child) && !(child <= path)
    ensures SameBeside(tr, tr'', path, child) && Get(tr'', path) == Get(tr', path)
  {
  }

  // The sections of a body from the i-th on, of whose leaves d are done.  The children of the running
  // tracker are the names met so far, or all of them when the body has been run before.
  ghost predicate BodyReady(ctx: Context, all: seq<Section>, i: nat, d: nat)
    requires i <= |all|
  {
    var children := Get(ctx.trackers, ctx.current).children;
    && !ctx.illogical && AncestorsRunning(ctx.trackers, ctx.current)
    && (if ctx.completed then d == 0 else d < LeavesIn(all[i..]))
    && (if children == Names(all) then DoneAll(ctx.trackers, ctx.current, all[i..], d)
        else children == Names(all)[..i] && d == 0)
  }

  // What running them does.
  ghost predicate BodyResult(ctx: Context, r: Context, all: seq<Section>, i: nat, d: nat)
    requires i <= |all| && (!ctx.completed ==> d < LeavesIn(all[i..]))
  {
    && r.current == ctx.current && !r.illogical && r.completed
    && BodyTrackers(ctx.trackers, r.trackers, ctx.current, ctx.completed, all, i, d)
    && r.entered == ctx.entered + if ctx.completed then [] else WayTo(ctx.current, all[i..], d)
  }

  ghost predicate BodyTrackers(tr: Trackers, tr': Trackers, path: Path, completed: bool,
                               all: seq<Section>, i: nat, d: nat)
    requires i <= |all|
  {
    && Get(tr', path) == Tracker(if completed then Get(tr, path).runState else ExecutingChildren, Names(all))
    && DoneAll(tr', path, all[i..], if completed then 0 else d + 1)
    && SameOutside(tr, tr', path)
    && (forall j :: 0 <= j < i ==> SameBelow(tr, tr', path + [all[j].name]))
  }

  lemma {:induction false} BodySpec(ctx: Context, all: seq<Section>, i: nat, d: nat)
    requires i <= |all| && WellNamedAll(all) && BodyReady(ctx, all, i, d)
    ensures BodyResult(ctx, RunBody(ctx, all[i..]), all, i, d)
    decreases all[i..], 1
  {
    if i == |all| {
      assert Names(all)[..i] == Names(all);
      assert ctx.entered + [] == ctx.entered;
    } else {
      BodyStep(ctx, all, i, d);
    }
  }

  lemma {:induction false} BodyStep(ctx: Context, all: seq<Section>, i: nat, d: nat)
    requires i < |all| && WellNamedAll(all) && BodyReady(ctx, all, i, d)
    ensures BodyResult(ctx, RunBody(ctx, all[i..]), all, i, d)
    decreases all[i..], 0
  {
    var s, rest := all[i], all[i + 1..];
    var n := Leaves(s);
    var mine, later := if d < n then d else n, if d < n then 0 else d - n;
    assert all[i..][0] == s && all[i..][1..] == rest && s in all;
    ReadyIsKnown(ctx, all, i, d);
    SectionSpec(ctx, s, mine);
    var b := RunSection(ctx, s);
    hide Get, RunSection, Known, WellNamed, Done, DoneAll, WayTo, WithChild, BodyResult, SameBeside, SectionWay;
    ReadyForNext(ctx, b, all, i, d);
    BodySpec(b, all, i + 1, later);
    var r := RunBody(b, rest);
    assert RunBody(ctx, all[i..]) == r;
    BodyCombine(ctx, b, r, all, i, d);
  }

  // The i-th section, then the rest.
  lemma BodyCombine(ctx: Context, b: Context, r: Context, all: seq<Section>, i: nat, d: nat)
    requires i < |all| && WellNamedAll(all)
    requires if ctx.completed then d == 0 else d < LeavesIn(all[i..])
    requires var n := Leaves(all[i]);
             && SectionResult(ctx, b, all[i], if d < n then d else n)
             && (!b.completed ==> (if d < n then 0 else d - n) < LeavesIn(all[i + 1..]))
             && BodyResult(b, r, all, i + 1, if d < n then 0 else d - n)
    ensures BodyResult(ctx, r, all, i, d)
  {
    hide BodyTrackers, SectionTrackers, WayTo, SectionWay, WellNamedAll;
    assert all[i..][0] == all[i] && all[i..][1..] == all[i + 1..];
    CombineTrackers(ctx.trackers, b.trackers, r.trackers, ctx.current, ctx.completed, all, i, d);
    CombineWays(ctx.entered, ctx.current, all[i..], d, ctx.completed);
  }

  lemma CombineTrackers(tr: Trackers, tr': Trackers, tr'': Trackers, path: Path, completed: bool,
                        all: seq<Section>, i: nat, d: nat)
    requires i < |all| && WellNamedAll(all) && (completed ==> d == 0)
    requires var n := Leaves(all[i]);
             && SectionTrackers(tr, tr', path, !completed && d < n, all[i], if d < n then d else n)
             && BodyTrackers(tr', tr'', path, completed || d < n, all, i + 1, if d < n then 0 else d - n)
    ensures BodyTrackers(tr, tr'', path, completed, all, i, d)
  {
    hide Get, WellNamedAll, Done, DoneAll, WithChild, SameBelow, SameBeside, SameOutside, Leaves, LeavesIn, Names;
    var n := Leaves(all[i]);
    CombineFrames(tr, tr', tr'', path, all, i);
    if completed {
      CombineDone(tr', tr'', path, all, i, 0, 0, 0);
    } else if d < n {
      CombineDone(tr', tr'', path, all, i, d + 1, d + 1, 0);
    } else {
      CombineDone(tr', tr'', path, all, i, d + 1, n, d - n + 1);
    }
  }

  lemma CombineDone(tr: Trackers, tr': Trackers, path: Path, all: seq<Section>, i: nat, e: nat, mine: nat, later: nat)
    requires i < |all|
    requires mine == (if e < Leaves(all[i]) then e else Leaves(all[i]))
    requires later == if e < Leaves(all[i]) then 0 else e - Leaves(all[i])
    requires Done(tr, path + [all[i].name], all[i], mine) && DoneAll(tr', path, all[i + 1..], later)
    requires SameBelow(tr, tr', path + [all[i].name])
    ensures DoneAll(tr', path, all[i..], e)
  {
    assert all[i..][0] == all[i] && all[i..][1..] == all[i + 1..];
    DoneFrame(tr, tr', path + [all[i].name], all[i], mine);
    DoneAllJoin(tr', path, all[i..], e);
  }

  lemma CombineFrames(tr: Trackers, tr': Trackers, tr'': Trackers, path: Path, all: seq<Section>, i: nat)
    requires i < |all| && WellNamedAll(all)
    requires SameBeside(tr, tr', path, path + [all[i].name]) && SameOutside(tr', tr'', path)
    requires forall j :: 0 <= j <= i ==> SameBelow(tr', tr'', path + [all[j].name])
    ensures SameOutside(tr, tr'', path)
    ensures forall j :: 0 <= j < i ==> SameBelow(tr, tr'', path + [all[j].name])
  {
    hide SameBelow, SameBeside, SameOutside, WellNamed;
    forall j | 0 <= j < i
      ensures SameBelow(tr, tr'', path + [all[j].name])
    {
      SiblingBeside(tr, tr', path, all[i].name, all[j].name);
      ChainBelow(tr, tr', tr'', path + [all[j].name]);
    }
    ChainOutside(tr, tr', tr'', path, all[i].name);
  }

  lemma CombineWays(entered: seq<Path>, path: Path, subs: seq<Section>, d: nat, completed: bool)
    requires subs != [] && if completed then d == 0 else d < LeavesIn(subs)
    ensures var s, n := subs[0], Leaves(subs[0]);
            var go := !completed && d < n;
            (entered + SectionWay(path, s, if d < n then d else n, go)) +
              (if completed || go then [] else WayTo(path, subs[1..], d - n))
            == entered + if completed then [] else WayTo(path, subs, d)
  {
    var none: seq<Path> := [];
    assert entered + none == entered;
    if !completed {
      WayStep(path, subs, d);
      var way := SectionWay(path, subs[0], if d < Leaves(subs[0]) then d else Leaves(subs[0]), d < Leaves(subs[0]));
      assert entered + way + none == entered + way;
    }
  }

  lemma WayStep(path: Path, subs: seq<Section>, d: nat)
    requires subs != [] && d < LeavesIn(subs)
    ensures var s := subs[0];
            WayTo(path, subs, d) == if d < Leaves(s)
              then [path + [s.name]] + if s.subs == [] then [] else WayTo(path + [s.name], s.subs, d)
              else WayTo(path, subs[1..], d - Leaves(s))
  {
  }

  lemma DoneAllJoin(tr: Trackers, path: Path, subs: seq<Section>, d: nat)
    requires subs != []
    requires Done(tr, path + [subs[0].name], subs[0], if d < Leaves(subs[0]) then d else Leaves(subs[0]))
    requires DoneAll(tr, path, subs[1..], if d < Leaves(subs[0]) then 0 else d - Leaves(subs[0]))
    ensures DoneAll(tr, path, subs, d)
  {
  }

  lemma ReadyIsKnown(ctx: Context, all: seq<Section>, i: nat, d: nat)
    requires i < |all| && WellNamedAll(all) && BodyReady(ctx, all, i, d)
    ensures var n := Leaves(all[i]);
            var mine := if d < n then d else n;
            && Known(ctx.trackers, ctx.current, all[i], mine)
            && (Get(ctx.trackers, ctx.current).children != Names(all) ==>
                  all[i].name !in Get(ctx.trackers, ctx.current).children)
            && WithChild(Get(ctx.trackers, ctx.current).children, all[i].name) ==
                 if Get(ctx.trackers, ctx.current).children == Names(all) then Names(all) else Names(all)[..i + 1]
  {
    hide AncestorsRunning, Done, WellNamed;
    assert all[i..][0] == all[i];
    NamesSoFar(Get(ctx.trackers, ctx.current).children, all, i);
  }

  lemma NamesSoFar(children: seq<string>, all: seq<Section>, i: nat)
    requires i < |all| && forall j, k :: 0 <= j < k < |all| ==> all[j].name != all[k].name
    requires children == Names(all) || children == Names(all)[..i]
    ensures all[i].name in children <==> children == Names(all)
    ensures WithChild(children, all[i].name) == if children == Names(all) then Names(all) else Names(all)[..i + 1]
  {
    assert Names(all)[i] == all[i].name;
    assert Names(all)[..i + 1] == Names(all)[..i] + [all[i].name];
  }

  // The rest of a body is ready once its i-th section has been run or passed over.
  lemma ReadyForNext(ctx: Context, b: Context, all: seq<Section>, i: nat, d: nat)
    requires i < |all| && WellNamedAll(all) && BodyReady(ctx, all, i, d)
    requires b.current == ctx.current && !b.illogical
    requires b.completed == (ctx.completed || d < Leaves(all[i]))
    requires Get(b.trackers, b.current).children == WithChild(Get(ctx.trackers, ctx.current).children, all[i].name)
    requires SameBeside(ctx.trackers, b.trackers, ctx.current, ctx.current + [all[i].name])
    ensures BodyReady(b, all, i + 1, if d < Leaves(all[i]) then 0 else d - Leaves(all[i]))
  {
    var tr, path, s, rest := ctx.trackers, ctx.current, all[i], all[i + 1..];
    var later := if d < Leaves(s) then 0 else d - Leaves(s);
    assert all[i..][0] == s && all[i..][1..] == rest;
    ReadyIsKnown(ctx, all, i, d);
    AncestorsUntouched(tr, b.trackers, path, path + [s.name]);
    if Get(tr, path).children == Names(all) {
      forall j | 0 <= j < |rest|
        ensures SameBelow(tr, b.trackers, path + [rest[j].name])
      {
        assert rest[j] == all[i + 1 + j];
        SiblingBeside(tr, b.trackers, path, s.name, rest[j].name);
      }
      DoneAllFrame(tr, b.trackers, path, rest, later);
    } else if i + 1 == |all| {
      assert rest == [];
    }
  }

  lemma SiblingBeside(tr: Trackers, tr': Trackers, path: Path, a: string, b: string)
    requires a != b && SameBeside(tr, tr', path, path + [a])
    ensures SameBelow(tr, tr', path + [b])
  {
    forall q: Path | path + [b] <= q
      ensures Get(tr', q) == Get(tr, q)
    {
      assert (path + [a])[|path|] == a && (path + [b])[|path|] == b;
    }
  }

  lemma ChainBelow(tr: Trackers, tr': Trackers, tr'': Trackers, path: Path)
    requires SameBelow(tr, tr', path) && SameBelow(tr', tr'', path)
    ensures SameBelow(tr, tr'', path)
  {
  }

  lemma ChainOutside(tr: Trackers, tr': Trackers, tr'': Trackers, path: Path, name: string)
    requires SameBeside(tr, tr', path, path + [name]) && SameOutside(tr', tr'', path)
    ensures SameOutside(tr, tr'', path)
  {
    forall q: Path | !(path <= q)
      ensures Get(tr'', q) == Get(tr, q)
    {
      assert path <= path + [name];
    }
  }

  // ---------- cycles ----------

  // After k cycles: the root knows the test case, of whose leaves the first k have run, and the
  // last cycle has entered the sections on the way to its leaf.
  ghost predicate AfterCycles(ctx: Context, test: Section, k: nat) {
    && !ctx.illogical
    && Get(ctx.trackers, []).children == (if k == 0 then [] else [test.name])
    && Done(ctx.trackers, [test.name], test, k)
    && (k > 0 && test.subs != [] ==> k - 1 < LeavesIn(test.subs) && ctx.entered == WayTo([test.name], test.subs, k - 1))
    && (test.subs == [] ==> ctx.entered == [])
  }

  // The first step of a cycle, at the root.
  function CycleStart(ctx: Context): Context {
    ctx.(current := [], completed := false, entered := [])
  }

  lemma CycleBegins(ctx: Context, test: Section, k: nat)
    requires AfterCycles(ctx, test, k)
    ensures var start := CycleStart(ctx);
            && Known(start.trackers, [], test, k) && AncestorsRunning(start.trackers, [])
            && WithChild(Get(start.trackers, []).children, test.name) == [test.name] && !start.illogical
  {
    var root: Path := [];
    assert root + [test.name] == [test.name];
  }

  lemma CycleIsStep(ctx: Context, test: Section)
    ensures Cycle(ctx, test) == Close(RunBody(Acquire(CycleStart(ctx), test.name), test.subs))
  {
    hide Close, RunBody, Acquire;
  }

  lemma CycleEnds(a: Context, r: Context, test: Section, k: nat)
    requires WellNamed(test) && k < Leaves(test) && !r.illogical && a.entered == []
    requires Get(a.trackers, []).children == [test.name]
    requires Done(r.trackers, [test.name], test, k + 1)
    requires r.entered == a.entered + (if test.subs == [] then [] else WayTo([test.name], test.subs, k))
    requires SameOutside(a.trackers, r.trackers, [test.name])
    ensures AfterCycles(r, test, k + 1)
  {
    hide Done, WellNamed, WayTo, Get, LeavesIn;
    var root: Path := [];
    assert !([test.name] <= root);
    assert Get(r.trackers, root) == Get(a.trackers, root);
    var none: seq<Path> := [];
    assert r.entered == none + (if test.subs == [] then [] else WayTo([test.name], test.subs, k));
  }

  lemma CycleRunsOneLeaf(ctx: Context, test: Section, k: nat)
    requires WellNamed(test) && k < Leaves(test) && AfterCycles(ctx, test, k)
    ensures AfterCycles(Cycle(ctx, test), test, k + 1)
  {
    hide Acquire, Close, RunBody, Cycle, Done, DoneAll, WellNamed, Known, AncestorsRunning, WayTo, Get, LeavesIn;
    hide AfterCycles, SameOutside, SameBeside, Leaves, Names;
    CycleBegins(ctx, test, k);
    CycleIsStep(ctx, test);
    var start, root: Path := CycleStart(ctx), [];
    assert root + [test.name] == [test.name];
    AcquireOpens(start, test, k);
    var a := Acquire(start, test.name);
    OpenedSpec(a, root, test, k);
    CycleEnds(a, Close(RunBody(a, test.subs)), test, k);
  }

  lemma {:induction false} CyclesSpec(test: Section, k: nat)
    requires WellNamed(test) && k <= Leaves(test)
    ensures AfterCycles(Cycles(test, k), test, k)
  {
    if k > 0 {
      CyclesSpec(test, k - 1);
      CycleRunsOneLeaf(Cycles(test, k - 1), test, k - 1);
    }
  }

  // Main result: cycle k enters exactly the sections on the way to the k-th leaf, without an illogical
  // state, and the test case is complete after exactly as many cycles as it has leaves.
  lemma EveryLeafOnce(test: Section, k: nat)
    requires WellNamed(test) && 1 <= k <= Leaves(test)
    ensures var c := Cycles(test, k);
            && !c.illogical
            && c.entered == (if test.subs == [] then [] else WayTo([test.name], test.subs, k - 1))
            && (Get(c.trackers, [test.name]).runState.CompletedSuccessfully? <==> k == Leaves(test))
  {
    CyclesSpec(test, k);
  }

  // ---------- the objects ----------

  // TrackerContext and the trackers it leads to.  entered is the cycle's log of entered sections.
  class TrackerContext {
    var trackers: Trackers
    var current: Path
    var completed: bool
    var illogical: bool
    var entered: seq<Path>

    function View(): Context
      reads this
    {
      Context(trackers, current, completed, illogical, entered)
    }

    constructor ()
      ensures View() == StartRun()
    {
      trackers, current, completed, illogical, entered := map[[] := FRESH], [], false, false, [];
    }

    method MarkRunningChild(path: Path)
      modifies `trackers
      ensures trackers == OpenChild(old(trackers), path)
      decreases |path|
    {
      if !Get(trackers, path).runState.ExecutingChildren? {
        trackers := SetState(trackers, path, ExecutingChildren);
        if path != [] {
          MarkRunningChild(Parent(path));
        }
      }
    }

    method OpenTracker(path: Path)
      requires path != []
      modifies `trackers, `current
      ensures View() == Open(old(View()), path)
    {
      trackers := SetState(trackers, path, Executing);
      current := path;
      MarkRunningChild(Parent(path));
    }

    method AcquireTracker(name: string) returns (path: Path)
      modifies `trackers, `current
      ensures path == old(current) + [name] && View() == Acquire(old(View()), name)
    {
      path := current + [name];
      var t := Get(trackers, current);
      if name !in t.children {
        trackers := trackers[current := t.(children := t.children + [name])][path := FRESH];
      }
      if !completed && !Get(trackers, path).IsComplete() {
        OpenTracker(path);
      }
    }

    method CloseTracker()
      modifies this
      ensures View() == Close(old(View()))
    {
      var t := Get(trackers, current);
      if current == [] || t.runState.NotStarted? || t.IsComplete() {
        illogical := true;
        return;
      }
      if t.runState.Executing? ||
         (t.runState.ExecutingChildren? &&
          (t.children == [] || Get(trackers, current + [t.children[|t.children| - 1]]).IsComplete())) {
        trackers := SetState(trackers, current, CompletedSuccessfully);
      } else {
        trackers := SetState(trackers, current, t.runState);
      }
      current := Parent(current);
      completed := true;
    }

    // The control flow of a test body: its sections in source order.
    method RunSections(subs: seq<Section>)
      modifies this
      ensures View() == RunBody(old(View()), subs)
      decreases subs
    {
      if subs != [] {
        var path := AcquireTracker(subs[0].name);
        if Get(trackers, path).IsOpen() {
          entered := entered + [path];
          RunSections(subs[0].subs);
          CloseTracker();
        }
        RunSections(subs[1..]);
      }
    }

    // startCycle, the test case's tracker, its body and its close
    method RunCycle(test: Section)
      modifies this
      ensures View() == Cycle(old(View()), test)
    {
      current, completed, entered := [], false, [];
      var path := AcquireTracker(test.name);
      RunSections(test.subs);
      CloseTracker();
    }

    // runTest's inner loop.  It ends after as many cycles as the test case has leaves, and its log holds
    // one entry a cycle: the sections entered on the way to that cycle's leaf.
    method RunTest(test: Section) returns (cycles: seq<seq<Path>>)
      requires WellNamed(test) && View() == StartRun()
      modifies this
      ensures |cycles| == Leaves(test) && !illogical
      ensures forall k :: 0 <= k < |cycles| ==>
                cycles[k] == if test.subs == [] then [] else WayTo([test.name], test.subs, k)
    {
      hide Cycle, Get, WayTo, WellNamed;
      cycles := [];
      var done := false;
      while !done
        invariant |cycles| <= Leaves(test) && View() == Cycles(test, |cycles|)
        invariant done <==> |cycles| == Leaves(test)
        invariant !illogical
        invariant forall k :: 0 <= k < |cycles| ==>
                    cycles[k] == if test.subs == [] then [] else WayTo([test.name], test.subs, k)
        decreases Leaves(test) - |cycles|
      {
        EveryLeafOnce(test, |cycles| + 1);
        RunCycle(test);
        cycles := cycles + [entered];
        done := Get(trackers, [test.name]).runState.CompletedSuccessfully?;
      }
    }
  }
}
