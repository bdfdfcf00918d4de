/** What a worker of the restart protocol remembers, read off the run; and so when it takes connections and leaves. */
module Histories {
  import W = Worker
  import opened Restart
  import opened Polls
  import opened Endings

  // ----- The generation -----

  function Hangups(steps: seq<Step>): nat {
    if |steps| == 0 then 0 else Hangups(steps[..|steps| - 1]) + if steps[|steps| - 1] == Hangup then 1 else 0
  }

  lemma GenerationStep(t: Sys, step: Step)
    requires Enabled(t, step)
    ensures Next(t, step).generation == t.generation + if step == Hangup then 1 else 0
  {
  }

  /** The generation counts the restarts that were announced. */
  lemma {:induction false} GenerationIsHangups(count: nat, steps: seq<Step>)
    requires MayRun(Start(count), steps)
    ensures Run(Start(count), steps).generation == Hangups(steps)
  {
    hide Enabled, Next;
    if |steps| > 0 {
      GenerationIsHangups(count, steps[..|steps| - 1]);
      GenerationStep(Run(Start(count), steps[..|steps| - 1]), steps[|steps| - 1]);
    }
  }

  // ----- What a worker saw -----

  predicate ByWorker(step: Step, w: nat) {
    match step
    case Load(v) => v == w
    case LookBeforeAccept(v) => v == w
    case AcceptOrNot(v, _) => v == w
    case Finish(v) => v == w
    case HardError(v) => v == w
    case LookAtFlag(v) => v == w
    case LookAtGeneration(v) => v == w
    case Crash(v) => v == w
    case _ => false
  }

  /** Step j is the last one of worker w before step k. */
  predicate LastOwn(steps: seq<Step>, w: nat, j: nat, k: nat) {
    j < k <= |steps| && ByWorker(steps[j], w) && forall i | j < i < k :: !ByWorker(steps[i], w)
  }

  /** The step worker w makes next reads what this step of it read before: the flag was up then. */
  ghost predicate SawFlag(s: Sys, steps: seq<Step>, w: nat, first: Step, k: nat)
    requires MayRun(s, steps)
  {
    exists j: nat :: LastOwn(steps, w, j, k) && steps[j] == first && At(s, steps, j).shutting
  }

  /** The worker loaded a generation that is older than the one there is before step k. */
  ghost predicate Outdated(s: Sys, steps: seq<Step>, w: nat, k: nat)
    requires MayRun(s, steps) && k <= |steps|
  {
    exists l: nat | l < k :: steps[l] == Load(w) && At(s, steps, l).generation < At(s, steps, k).generation
  }

  /** The worker's record before step k is what it last saw, and the generation it loaded. */
  ghost predicate Remembers(s: Sys, steps: seq<Step>, w: nat, k: nat)
    requires MayRun(s, steps) && k <= |steps|
  {
    var t := At(s, steps, k);
    w < |t.procs| ==>
      match t.procs[w]
      case Forked => forall l | 0 <= l < k :: steps[l] != Load(w)
      case Waiting(mine, _, _) => LoadedThat(s, steps, w, k, mine)
      case Accepting(mine, _, _, flag) =>
        LoadedThat(s, steps, w, k, mine) && LastLook(s, steps, w, LookBeforeAccept(w), k, flag)
      case Checking(mine, _, _, flag) =>
        LoadedThat(s, steps, w, k, mine) && LastLook(s, steps, w, LookAtFlag(w), k, flag)
      case Gone(_, _, _, _) => true
  }

  ghost predicate LoadedThat(s: Sys, steps: seq<Step>, w: nat, k: nat, mine: int)
    requires MayRun(s, steps) && k <= |steps|
  {
    && (exists l: nat | l < k :: steps[l] == Load(w))
    && (forall l: nat | l < k && steps[l] == Load(w) :: At(s, steps, l).generation == mine)
  }

  ghost predicate LastLook(s: Sys, steps: seq<Step>, w: nat, first: Step, k: nat, flag: bool)
    requires MayRun(s, steps) && k <= |steps|
  {
    exists j: nat :: LastOwn(steps, w, j, k) && steps[j] == first && At(s, steps, j).shutting == flag
  }

  lemma NotOwnStep(t: Sys, step: Step, w: nat)
    requires Enabled(t, step) && w < |t.procs| && !ByWorker(step, w)
    ensures w < |Next(t, step).procs|
    ensures var p, q := t.procs[w], Next(t, step).procs[w]; q == p || q.Gone?
  {
  }

  /** What the worker's own step does to its record. */
  lemma OwnStep(t: Sys, step: Step, w: nat)
    requires Enabled(t, step) && w < |t.procs| && ByWorker(step, w)
    ensures w < |Next(t, step).procs|
    ensures var p, q := t.procs[w], Next(t, step).procs[w];
      match q
      case Forked => false
      case Waiting(mine, _, _) =>
        if step == Load(w) then p == Forked && mine == t.generation else Loaded(p) && p.mine == mine
      case Accepting(mine, _, _, flag) =>
        step == LookBeforeAccept(w) && p.Waiting? && p.mine == mine && flag == t.shutting
      case Checking(mine, _, _, flag) =>
        step == LookAtFlag(w) && p.Waiting? && p.mine == mine && flag == t.shutting
      case Gone(_, _, _, _) => true
  {
  }

  lemma NewcomerIsForked(t: Sys, step: Step, w: nat)
    requires Enabled(t, step) && |t.procs| <= w < |Next(t, step).procs|
    ensures Next(t, step).procs[w] == Forked && !ByWorker(step, w)
  {
  }

  /** A worker that is not there yet has made no step. */
  lemma {:induction false} NoStepBefore(s: Sys, steps: seq<Step>, w: nat, k: nat, i: nat)
    requires MayRun(s, steps) && i < k <= |steps| && w >= |At(s, steps, k).procs|
    ensures !ByWorker(steps[i], w)
    decreases k
  {
    hide Next, At;
    AtNext(s, steps, k - 1);
    NoneFewer(At(s, steps, k - 1), steps[k - 1]);
    if i < k - 1 {
      NoStepBefore(s, steps, w, k - 1, i);
    }
  }

  lemma LoadedStill(s: Sys, steps: seq<Step>, w: nat, k: nat, mine: int)
    requires MayRun(s, steps) && k < |steps| && LoadedThat(s, steps, w, k, mine) && steps[k] != Load(w)
    ensures LoadedThat(s, steps, w, k + 1, mine)
  {
    hide At;
  }

  lemma LookedStill(s: Sys, steps: seq<Step>, w: nat, first: Step, k: nat, flag: bool)
    requires MayRun(s, steps) && k < |steps| && LastLook(s, steps, w, first, k, flag) && !ByWorker(steps[k], w)
    ensures LastLook(s, steps, w, first, k + 1, flag)
  {
    hide At, ByWorker;
    var j: nat :| LastOwn(steps, w, j, k) && steps[j] == first && At(s, steps, j).shutting == flag;
    assert LastOwn(steps, w, j, k + 1);
  }

  lemma OtherKeepsMemory(s: Sys, steps: seq<Step>, w: nat, k: nat)
    requires MayRun(s, steps) && k < |steps| && w < |At(s, steps, k).procs|
    requires Remembers(s, steps, w, k) && !ByWorker(steps[k], w)
    ensures Remembers(s, steps, w, k + 1)
  {
    hide At, Enabled, Next, LoadedThat, LastLook;
    var t := At(s, steps, k);
    AtNext(s, steps, k);
    NotOwnStep(t, steps[k], w);
    NotALoad(steps[k], w);
    match t.procs[w]
    case Forked =>
    case Waiting(mine, _, _) =>
      LoadedStill(s, steps, w, k, mine);
    case Accepting(mine, _, _, flag) =>
      LoadedStill(s, steps, w, k, mine);
      LookedStill(s, steps, w, LookBeforeAccept(w), k, flag);
    case Checking(mine, _, _, flag) =>
      LoadedStill(s, steps, w, k, mine);
      LookedStill(s, steps, w, LookAtFlag(w), k, flag);
    case Gone(_, _, _, _) =>
  }

  lemma NotALoad(step: Step, w: nat)
    requires !ByWorker(step, w)
    ensures step != Load(w)
  {
  }

  lemma JustLoaded(s: Sys, steps: seq<Step>, w: nat, k: nat)
    requires MayRun(s, steps) && k < |steps| && steps[k] == Load(w)
    requires forall l | 0 <= l < k :: steps[l] != Load(w)
    ensures LoadedThat(s, steps, w, k + 1, At(s, steps, k).generation)
  {
    hide At;
  }

  lemma JustLooked(s: Sys, steps: seq<Step>, w: nat, k: nat)
    requires MayRun(s, steps) && k < |steps| && ByWorker(steps[k], w)
    ensures LastLook(s, steps, w, steps[k], k + 1, At(s, steps, k).shutting)
  {
    hide At, ByWorker;
    assert LastOwn(steps, w, k, k + 1);
  }

  lemma OwnKeepsMemory(s: Sys, steps: seq<Step>, w: nat, k: nat)
    requires MayRun(s, steps) && k < |steps| && w < |At(s, steps, k).procs|
    requires Remembers(s, steps, w, k) && ByWorker(steps[k], w)
    ensures Remembers(s, steps, w, k + 1)
  {
    hide At, Enabled, Next, LoadedThat, LastLook, ByWorker;
    var t := At(s, steps, k);
    AtNext(s, steps, k);
    OwnStep(t, steps[k], w);
    JustLooked(s, steps, w, k);
    if steps[k] == Load(w) {
      LoadsOnce(t, w);
      JustLoaded(s, steps, w, k);
    } else if Loaded(t.procs[w]) {
      LoadedStill(s, steps, w, k, t.procs[w].mine);
    }
  }

  lemma LoadsOnce(t: Sys, w: nat)
    requires Enabled(t, Load(w))
    ensures w < |t.procs| && t.procs[w] == Forked && Next(t, Load(w)).procs[w] == Waiting(t.generation, 0, 0)
  {
  }

  /** In every run from the start: a worker acts on what it saw last and on the generation it loaded. */
  lemma {:induction false} WorkersRemember(count: nat, steps: seq<Step>, w: nat, k: nat)
    requires MayRun(Start(count), steps) && k <= |steps|
    ensures Remembers(Start(count), steps, w, k)
    decreases k
  {
    hide At, Enabled, Next, ByWorker;
    var s := Start(count);
    if k == 0 {
      AllForkedAtFirst(count, steps, w);
    } else {
      WorkersRemember(count, steps, w, k - 1);
      var t := At(s, steps, k - 1);
      AtNext(s, steps, k - 1);
      if w >= |t.procs| {
        if w < |At(s, steps, k).procs| {
          NewcomerIsForked(t, steps[k - 1], w);
          forall l | 0 <= l < k ensures steps[l] != Load(w) {
            if l < k - 1 {
              NoStepBefore(s, steps, w, k - 1, l);
            }
            LoadIsOwn(w);
          }
        }
      } else if ByWorker(steps[k - 1], w) {
        OwnKeepsMemory(s, steps, w, k - 1);
      } else {
        OtherKeepsMemory(s, steps, w, k - 1);
      }
    }
  }

  lemma LoadIsOwn(w: nat)
    ensures ByWorker(Load(w), w)
  {
  }

  lemma AllForkedAtFirst(count: nat, steps: seq<Step>, w: nat)
    requires MayRun(Start(count), steps)
    ensures Remembers(Start(count), steps, w, 0)
  {
    assert steps[..0] == [];
  }

  // ----- When it takes a connection, and when it leaves -----

  lemma LastOwnIsOne(steps: seq<Step>, w: nat, i: nat, j: nat, k: nat)
    requires LastOwn(steps, w, i, k) && LastOwn(steps, w, j, k)
    ensures i == j
  {
    hide ByWorker;
  }

  lemma SawFlagIff(s: Sys, steps: seq<Step>, w: nat, first: Step, k: nat, flag: bool)
    requires MayRun(s, steps) && k <= |steps| && LastLook(s, steps, w, first, k, flag)
    ensures SawFlag(s, steps, w, first, k) <==> flag
  {
    hide At, ByWorker;
    var j: nat :| LastOwn(steps, w, j, k) && steps[j] == first && At(s, steps, j).shutting == flag;
    if SawFlag(s, steps, w, first, k) {
      var i: nat :| LastOwn(steps, w, i, k) && steps[i] == first && At(s, steps, i).shutting;
      LastOwnIsOne(steps, w, i, j, k);
    }
  }

  lemma OutdatedIff(s: Sys, steps: seq<Step>, w: nat, k: nat, mine: int)
    requires MayRun(s, steps) && k <= |steps| && LoadedThat(s, steps, w, k, mine)
    ensures Outdated(s, steps, w, k) <==> mine < At(s, steps, k).generation
  {
    hide At;
  }

  /** Step k is an accept that gets a connection, and the worker does not hold back for a restart. */
  ghost predicate TakesAt(s: Sys, steps: seq<Step>, w: nat, k: nat)
    requires MayRun(s, steps)
  {
    && k < |steps| && steps[k] == AcceptOrNot(w, true)
    && !(SawFlag(s, steps, w, LookBeforeAccept(w), k) && Outdated(s, steps, w, k))
  }

  ghost function TakenBy(s: Sys, steps: seq<Step>, w: nat, k: nat): nat
    requires MayRun(s, steps) && k <= |steps|
  {
    if k == 0 then 0 else TakenBy(s, steps, w, k - 1) + if TakesAt(s, steps, w, k - 1) then 1 else 0
  }

  /** The steps before k that end a connection of worker w, in order or by a hard read error. */
  function EndedBy(steps: seq<Step>, w: nat, k: nat): nat
    requires k <= |steps|
  {
    if k == 0 then 0
    else EndedBy(steps, w, k - 1) + if steps[k - 1] == Finish(w) || steps[k - 1] == HardError(w) then 1 else 0
  }

  /** The accept of this worker goes through. */
  predicate Accepts(t: Sys, w: nat)
    requires w < |t.procs|
  {
    var p := t.procs[w];
    p.Accepting? && !W.ShouldDrain(p.flag, t.generation, p.mine)
  }

  lemma HeldStep(t: Sys, step: Step, w: nat)
    requires Enabled(t, step) && w < |t.procs|
    ensures w < |Next(t, step).procs|
    ensures Holding(Next(t, step).procs[w]) == Holding(t.procs[w])
        + (if step == AcceptOrNot(w, true) && Accepts(t, w) then 1 else 0)
        - (if step == Finish(w) || step == HardError(w) then 1 else 0)
  {
  }

  lemma AcceptCondition(count: nat, steps: seq<Step>, w: nat, k: nat)
    requires MayRun(Start(count), steps) && k < |steps| && w < |At(Start(count), steps, k).procs|
    requires steps[k] == AcceptOrNot(w, true)
    ensures TakesAt(Start(count), steps, w, k) <==> Accepts(At(Start(count), steps, k), w)
  {
    hide At, Next, SawFlag, Outdated, LastLook, LoadedThat;
    var s, t := Start(count), At(Start(count), steps, k);
    AtNext(s, steps, k);
    WorkersRemember(count, steps, w, k);
    SawFlagIff(s, steps, w, LookBeforeAccept(w), k, t.procs[w].flag);
    OutdatedIff(s, steps, w, k, t.procs[w].mine);
  }

  /**
   In every run from the start, what a worker holds is what it took on minus what ended. It takes on a connection
   exactly when an accept gets one and it did not see the flag up just before, or has loaded the current generation.
   */
  lemma {:induction false} HeldIsTakenMinusEnded(count: nat, steps: seq<Step>, w: nat, k: nat)
    requires MayRun(Start(count), steps) && k <= |steps|
    ensures var s := Start(count);
      (if w < |At(s, steps, k).procs| then Holding(At(s, steps, k).procs[w]) else 0)
        == TakenBy(s, steps, w, k) - EndedBy(steps, w, k)
    decreases k
  {
    hide At, Enabled, Next, TakesAt, Holding, Accepts;
    var s := Start(count);
    if k == 0 {
      NothingHeldAtFirst(count, steps, w);
    } else {
      var t, step := At(s, steps, k - 1), steps[k - 1];
      HeldIsTakenMinusEnded(count, steps, w, k - 1);
      AtNext(s, steps, k - 1);
      if w < |t.procs| {
        HeldStep(t, step, w);
        if step == AcceptOrNot(w, true) {
          AcceptCondition(count, steps, w, k - 1);
        } else {
          TakesNothing(s, steps, w, k - 1);
        }
      } else {
        NotThereYet(s, steps, w, k - 1);
      }
    }
  }

  lemma NothingHeldAtFirst(count: nat, steps: seq<Step>, w: nat)
    requires MayRun(Start(count), steps)
    ensures w < |At(Start(count), steps, 0).procs| ==> Holding(At(Start(count), steps, 0).procs[w]) == 0
  {
    assert steps[..0] == [];
  }

  lemma TakesNothing(s: Sys, steps: seq<Step>, w: nat, k: nat)
    requires MayRun(s, steps) && k < |steps| && steps[k] != AcceptOrNot(w, true)
    ensures !TakesAt(s, steps, w, k)
  {
    hide At;
  }

  lemma NotThereYet(s: Sys, steps: seq<Step>, w: nat, k: nat)
    requires MayRun(s, steps) && k < |steps| && w >= |At(s, steps, k).procs|
    ensures steps[k] != AcceptOrNot(w, true) && steps[k] != Finish(w) && steps[k] != HardError(w)
    ensures !TakesAt(s, steps, w, k)
    ensures w < |At(s, steps, k + 1).procs| ==> Holding(At(s, steps, k + 1).procs[w]) == 0
  {
    hide At;
    AtNext(s, steps, k);
    Newcomer(At(s, steps, k), steps[k], w);
  }

  lemma Newcomer(t: Sys, step: Step, w: nat)
    requires Enabled(t, step) && w >= |t.procs|
    ensures step != AcceptOrNot(w, true) && step != Finish(w) && step != HardError(w)
    ensures w < |Next(t, step).procs| ==> Holding(Next(t, step).procs[w]) == 0
  {
  }

  /** Step k is a look at the generation by which worker w leaves. */
  ghost predicate MayLeaveAt(s: Sys, steps: seq<Step>, w: nat, k: nat)
    requires MayRun(s, steps)
  {
    && k < |steps| && LiveAt(s, steps, w, k) && steps[k] == LookAtGeneration(w)
    && SawFlag(s, steps, w, LookAtFlag(w), k) && Outdated(s, steps, w, k)
    && TakenBy(s, steps, w, k) == EndedBy(steps, w, k) && HardErrors(steps[..k], w) == 0
  }

  lemma LeaveCondition(count: nat, steps: seq<Step>, w: nat, k: nat)
    requires MayRun(Start(count), steps)
    ensures MayLeaveAt(Start(count), steps, w, k) <==> LeavesFreeAt(count, steps, w, k)
  {
    hide Next, SawFlag, Outdated, LastLook, LoadedThat, TakenBy, HardErrors;
    var s := Start(count);
    if k < |steps| && LiveAt(s, steps, w, k) && steps[k] == LookAtGeneration(w) {
      var t := At(s, steps, k);
      AtNext(s, steps, k);
      WorkersRemember(count, steps, w, k);
      SawFlagIff(s, steps, w, LookAtFlag(w), k, t.procs[w].flag);
      OutdatedIff(s, steps, w, k, t.procs[w].mine);
      HeldIsTakenMinusEnded(count, steps, w, k);
    }
  }

  /**
   In every run from the start, without the worker's variables: it leaves by itself if and only if at some step it
   looks at the generation, having seen the flag up just before and having loaded an older one, when as many of its
   connections have ended as it took on, and none by a hard read error.
   */
  lemma LeavesIffRunSays(count: nat, steps: seq<Step>, w: nat)
    requires MayRun(Start(count), steps)
    ensures LeftByItself(Start(count), steps, w) <==> exists k: nat :: MayLeaveAt(Start(count), steps, w, k)
  {
    hide *;
    DrainedFromStartIff(count, steps, w);
    forall k: nat ensures MayLeaveAt(Start(count), steps, w, k) <==> LeavesFreeAt(count, steps, w, k) {
      LeaveCondition(count, steps, w, k);
    }
  }

  /** A live worker always has a next step other than a crash; the restart never takes that from it. */
  lemma WorkerIsNeverStuck(t: Sys, w: nat)
    requires w < |t.procs| && !t.procs[w].Gone?
    ensures exists step :: ByWorker(step, w) && !step.Crash? && Enabled(t, step)
    ensures Holding(t.procs[w]) > 0 && t.procs[w].Waiting? ==> Enabled(t, Finish(w)) && Enabled(t, HardError(w))
    ensures t.procs[w].Waiting? ==> Enabled(t, LookBeforeAccept(w)) && Enabled(t, LookAtFlag(w))
  {
    var step := match t.procs[w]
      case Forked => Load(w)
      case Waiting(_, _, _) => LookAtFlag(w)
      case Accepting(_, _, _, _) => AcceptOrNot(w, false)
      case Checking(_, _, _, _) => LookAtGeneration(w)
      case Gone(_, _, _, _) => Crash(w);
    assert ByWorker(step, w) && Enabled(t, step);
  }
}
