/** How workers end over whole runs, and what their counters say. */
module Endings {
  import W = Worker
  import opened Polls
  import opened Restart

  function Holding(p: Proc): nat {
    if p.Forked? then 0 else p.held
  }

  ghost predicate LiveAt(s: Sys, steps: seq<Step>, w: nat, k: nat)
    requires k <= |steps|
  {
    MayRun(s, steps[..k]) && w < |Run(s, steps[..k]).procs| && !Run(s, steps[..k]).procs[w].Gone?
  }

  /** The step the system takes in state t would end worker w, which is live there, in this way. */
  predicate Ends(t: Sys, step: Step, w: nat, how: Exit)
    requires w < |t.procs|
  {
    var p := t.procs[w];
    match how
    case Killed => step == KillOne && t.pc.Killing? && t.pc.next < |t.former| && t.former[t.pc.next] == w
    case Drained =>
      step == LookAtGeneration(w) && p.Checking? && W.ShouldDrain(p.flag, t.generation, p.mine) && p.active == 0
    case Crashed => step == Crash(w)
  }

  /** Step k of the run ends the worker in this way, and it holds n connections then. */
  ghost predicate EndsAt(s: Sys, steps: seq<Step>, w: nat, how: Exit, n: nat, k: nat) {
    && k < |steps| && LiveAt(s, steps, w, k)
    && var t := Run(s, steps[..k]); Ends(t, steps[k], w, how) && Holding(t.procs[w]) == n
  }

  /** What one step does to a live worker: it stays, or ends in exactly one of three ways. */
  lemma OneStep(s: Sys, step: Step, w: nat, how: Exit)
    requires Enabled(s, step) && w < |s.procs| && !s.procs[w].Gone?
    ensures w < |Next(s, step).procs|
    ensures var q := Next(s, step).procs[w];
      && (q.Gone? && q.how == how <==> Ends(s, step, w, how))
      && (q.Gone? ==> q.held == Holding(s.procs[w]))
  {
  }

  lemma FrontIsSame(s: Sys, steps: seq<Step>, w: nat, k: nat)
    requires k < |steps| - 1
    ensures steps[..|steps| - 1][..k] == steps[..k] && steps[..|steps| - 1][k] == steps[k]
    ensures LiveAt(s, steps[..|steps| - 1], w, k) == LiveAt(s, steps, w, k)
  {
    assert steps[..|steps| - 1][..k] == steps[..k];
  }

  lemma NoneFewer(s: Sys, step: Step)
    requires Enabled(s, step)
    ensures |Next(s, step).procs| >= |s.procs|
  {
  }

  ghost predicate EndsSometime(s: Sys, steps: seq<Step>, w: nat, how: Exit, n: nat) {
    exists k: nat :: EndsAt(s, steps, w, how, n, k)
  }

  lemma EndsEarlier(s: Sys, steps: seq<Step>, w: nat, how: Exit, n: nat)
    requires |steps| > 0
    ensures EndsSometime(s, steps, w, how, n) <==>
      EndsSometime(s, steps[..|steps| - 1], w, how, n) || EndsAt(s, steps, w, how, n, |steps| - 1)
  {
    hide Ends, LiveAt, Holding;
    var front := steps[..|steps| - 1];
    forall k: nat | k < |steps| - 1 ensures EndsAt(s, front, w, how, n, k) <==> EndsAt(s, steps, w, how, n, k) {
      FrontIsSame(s, steps, w, k);
    }
    if EndsSometime(s, front, w, how, n) {
      var k: nat :| EndsAt(s, front, w, how, n, k);
      assert EndsAt(s, steps, w, how, n, k);
    }
    if EndsSometime(s, steps, w, how, n) && !EndsAt(s, steps, w, how, n, |steps| - 1) {
      var k: nat :| EndsAt(s, steps, w, how, n, k);
      assert EndsAt(s, front, w, how, n, k);
    }
  }

  ghost predicate EndedAs(p: Proc, how: Exit, n: nat) {
    p.Gone? && p.how == how && p.held == n
  }

  lemma EndsLast(s: Sys, steps: seq<Step>, w: nat, how: Exit, n: nat)
    requires |steps| > 0 && MayRun(s, steps)
    requires w < |Run(s, steps[..|steps| - 1]).procs|
    ensures w < |Run(s, steps).procs|
    ensures !Run(s, steps[..|steps| - 1]).procs[w].Gone? ==>
      (EndsAt(s, steps, w, how, n, |steps| - 1) <==> EndedAs(Run(s, steps).procs[w], how, n))
    ensures Run(s, steps[..|steps| - 1]).procs[w].Gone? ==>
      !EndsAt(s, steps, w, how, n, |steps| - 1) && Run(s, steps).procs[w] == Run(s, steps[..|steps| - 1]).procs[w]
  {
    hide Next, Ends, Holding, Enabled;
    var t := Run(s, steps[..|steps| - 1]);
    NoneFewer(t, steps[|steps| - 1]);
    if t.procs[w].Gone? {
      GoneStays(t, steps[|steps| - 1], w);
    } else {
      OneStep(t, steps[|steps| - 1], w, how);
    }
  }

  /** The worker is there at the end of the run, and ended in this way holding n connections. */
  ghost predicate EndsUp(s: Sys, steps: seq<Step>, w: nat, how: Exit, n: nat)
    requires MayRun(s, steps)
  {
    w < |Run(s, steps).procs| && EndedAs(Run(s, steps).procs[w], how, n)
  }

  lemma EndsUpStep(s: Sys, steps: seq<Step>, w: nat, how: Exit, n: nat)
    requires |steps| > 0 && MayRun(s, steps)
    ensures EndsUp(s, steps, w, how, n) <==>
      EndsUp(s, steps[..|steps| - 1], w, how, n) || EndsAt(s, steps, w, how, n, |steps| - 1)
  {
    hide Next, Enabled, Ends, Holding;
    var t := Run(s, steps[..|steps| - 1]);
    NoneFewer(t, steps[|steps| - 1]);
    if w < |t.procs| {
      EndsLast(s, steps, w, how, n);
      if !t.procs[w].Gone? {
        assert !EndsUp(s, steps[..|steps| - 1], w, how, n);
      }
    } else if w < |Run(s, steps).procs| {
      NewIsForked(t, steps[|steps| - 1], w);
    }
  }

  lemma NewIsForked(s: Sys, step: Step, w: nat)
    requires Enabled(s, step) && |s.procs| <= w < |Next(s, step).procs|
    ensures Next(s, step).procs[w] == Forked && step != HardError(w)
  {
  }

  /**
   Exactly how each worker ends, whether it is there already or is forked later: it ends killed (or drained, or crashed)
   with n connections if and only if some step of the run is such an end for it while it is live and holds n.
   */
  lemma {:induction false} EndsIff(s: Sys, steps: seq<Step>, w: nat, how: Exit, n: nat)
    requires MayRun(s, steps) && !IsGone(s, w)
    ensures EndsUp(s, steps, w, how, n) <==> EndsSometime(s, steps, w, how, n)
  {
    hide Enabled, Next, EndsAt;
    if |steps| > 0 {
      var front := steps[..|steps| - 1];
      EndsIff(s, front, w, how, n);
      EndsEarlier(s, steps, w, how, n);
      EndsUpStep(s, steps, w, how, n);
    } else {
      NoneYet(s, steps, w, how, n);
    }
  }

  lemma NoneYet(s: Sys, steps: seq<Step>, w: nat, how: Exit, n: nat)
    requires |steps| == 0
    ensures !EndsSometime(s, steps, w, how, n)
  {
  }

  // ----- Which connections a restart cuts -----

  /** Step k ends the worker, which holds n connections, and thirty whole polls have gone before. */
  ghost predicate CutsAt(s: Sys, steps: seq<Step>, w: nat, n: nat, k: nat)
    requires MayRun(s, steps)
  {
    Kills(s, steps, k, w) && Holding(At(s, steps, k).procs[w]) == n && ThirtyPolls(s, steps, k)
  }

  lemma KillsIff(s: Sys, steps: seq<Step>, w: nat, n: nat, k: nat)
    requires MayRun(s, steps)
    ensures EndsAt(s, steps, w, Killed, n, k) <==> Kills(s, steps, k, w) && Holding(At(s, steps, k).procs[w]) == n
  {
    hide Enabled, Next, Holding;
    if k < |steps| {
      PrefixRuns(s, steps, k);
      AtNext(s, steps, k);
      var t := At(s, steps, k);
      if steps[k] == KillOne && w < |t.procs| && !t.procs[w].Gone? {
        OneStep(t, KillOne, w, Killed);
        KillEnds(t, w);
      }
    }
  }

  lemma KillEnds(t: Sys, w: nat)
    requires Enabled(t, KillOne) && w < |t.procs| && !t.procs[w].Gone?
    ensures IsGone(Next(t, KillOne), w) <==> Ends(t, KillOne, w, Killed)
  {
  }

  /**
   The master cuts n connections of a worker if and only if, after thirty whole polls that each saw an old worker alive,
   it kills the worker while that is live and holds n. With n = 0 this says which idle workers are killed.
   */
  lemma ConnectionsCutIff(s: Sys, steps: seq<Step>, w: nat, n: nat)
    requires MayRun(s, steps) && !IsGone(s, w) && !s.pc.Polling? && !s.pc.Killing?
    ensures EndsUp(s, steps, w, Killed, n) <==> exists k: nat :: CutsAt(s, steps, w, n, k)
  {
    hide Enabled, Next, EndsAt, Kills, At, Holding, ThirtyPolls;
    EndsIff(s, steps, w, Killed, n);
    forall k: nat ensures CutsAt(s, steps, w, n, k) <==> EndsAt(s, steps, w, Killed, n, k) {
      KillsIff(s, steps, w, n, k);
      if Kills(s, steps, k, w) {
        KillNeedsThirtyPolls(s, steps, k, w);
      }
    }
  }

  /**
   A worker leaves by itself if and only if it looks at a generation newer than its own, having seen the flag up, with
   its counter at zero.
   */
  lemma DrainedIff(s: Sys, steps: seq<Step>, w: nat)
    requires Inv(s) && MayRun(s, steps) && !IsGone(s, w)
    ensures LeftByItself(s, steps, w) <==> exists k: nat :: LeavesAt(s, steps, w, k)
  {
    hide Enabled, Next, Inv;
    RunKeepsInv(s, steps);
    EndsIff(s, steps, w, Drained, 0);
    if LeftByItself(s, steps, w) {
      DrainedIsEmpty(Run(s, steps), w);
    }
    forall k: nat ensures LeavesAt(s, steps, w, k) <==> EndsAt(s, steps, w, Drained, 0, k) {
      if LeavesAt(s, steps, w, k) {
        RunKeepsInv(s, steps[..k]);
        HeldIsCounted(Run(s, steps[..k]), w);
      }
    }
  }

  ghost predicate LeftByItself(s: Sys, steps: seq<Step>, w: nat)
    requires MayRun(s, steps)
  {
    IsGone(Run(s, steps), w) && Run(s, steps).procs[w].how == Drained
  }

  ghost predicate LeavesAt(s: Sys, steps: seq<Step>, w: nat, k: nat) {
    && k < |steps| && LiveAt(s, steps, w, k) && steps[k] == LookAtGeneration(w)
    && var t := Run(s, steps[..k]);
      var p := t.procs[w];
      p.Checking? && W.ShouldDrain(p.flag, t.generation, p.mine) && p.active == 0
  }

  lemma HeldIsCounted(s: Sys, w: nat)
    requires Inv(s) && w < |s.procs| && !s.procs[w].Forked?
    ensures s.procs[w].held <= s.procs[w].active
  {
  }

  lemma DrainedIsEmpty(s: Sys, w: nat)
    requires Inv(s) && w < |s.procs| && s.procs[w].Gone? && s.procs[w].how == Drained
    ensures s.procs[w].held == 0
  {
  }

  // ----- What the counter is -----

  function HardErrors(steps: seq<Step>, w: nat): nat {
    if |steps| == 0 then 0
    else HardErrors(steps[..|steps| - 1], w) + if steps[|steps| - 1] == HardError(w) then 1 else 0
  }

  ghost predicate CountsErrors(p: Proc, n: nat) {
    if p.Forked? then n == 0 else p.active == p.held + n
  }

  lemma CounterStep(s: Sys, step: Step, w: nat, n: nat)
    requires Enabled(s, step) && w < |s.procs| && CountsErrors(s.procs[w], n)
    ensures w < |Next(s, step).procs|
    ensures CountsErrors(Next(s, step).procs[w], n + if step == HardError(w) then 1 else 0)
  {
  }

  lemma {:induction false} NoErrorsBefore(s: Sys, steps: seq<Step>, w: nat)
    requires MayRun(s, steps) && w >= |Run(s, steps).procs|
    ensures HardErrors(steps, w) == 0
  {
    hide Next;
    if |steps| > 0 {
      var n := |steps| - 1;
      var t := Run(s, steps[..n]);
      NoneFewer(t, steps[n]);
      NoErrorsBefore(s, steps[..n], w);
    }
  }

  /** In every run from the start a worker's counter is the connections it holds and every hard read error it had. */
  lemma {:induction false} CounterIsHeldPlusErrors(count: nat, steps: seq<Step>, w: nat)
    requires MayRun(Start(count), steps) && w < |Run(Start(count), steps).procs|
    ensures CountsErrors(Run(Start(count), steps).procs[w], HardErrors(steps, w))
  {
    hide Next, Enabled, CountsErrors, Start;
    if |steps| == 0 {
      AllForked(count, w);
    } else {
      var n := |steps| - 1;
      var t := Run(Start(count), steps[..n]);
      if w < |t.procs| {
        CounterIsHeldPlusErrors(count, steps[..n], w);
        CounterStep(t, steps[n], w, HardErrors(steps[..n], w));
      } else {
        NewIsForked(t, steps[n], w);
        NoErrorsBefore(Start(count), steps[..n], w);
        ForkedCounts();
      }
    }
  }

  lemma AllForked(count: nat, w: nat)
    requires w < |Start(count).procs|
    ensures CountsErrors(Start(count).procs[w], 0)
  {
  }

  lemma ForkedCounts()
    ensures CountsErrors(Forked, 0)
  {
  }

  /** A worker that ever had a hard read error does not leave by itself, though it may hold nothing. */
  lemma NoDrainAfterHardError(count: nat, steps: seq<Step>, w: nat)
    requires MayRun(Start(count), steps) && w < |Run(Start(count), steps).procs| && HardErrors(steps, w) > 0
    ensures var p := Run(Start(count), steps).procs[w]; !(p.Gone? && p.how == Drained)
  {
    hide Run, MayRun, Start, HardErrors;
    CounterIsHeldPlusErrors(count, steps, w);
    DrainedHeldNothing(count, steps, w);
  }

  /**
   From the start, without the counter: a worker leaves by itself if and only if at some step it looks at a newer
   generation, having seen the flag up, holds no connection, and has had no hard read error.
   */
  lemma DrainedFromStartIff(count: nat, steps: seq<Step>, w: nat)
    requires MayRun(Start(count), steps)
    ensures LeftByItself(Start(count), steps, w) <==> exists k: nat :: LeavesFreeAt(count, steps, w, k)
  {
    hide Enabled, Next, Inv, Run, MayRun, HardErrors;
    var s := Start(count);
    StartIsValid(count);
    DrainedIff(s, steps, w);
    forall k: nat ensures LeavesAt(s, steps, w, k) <==> LeavesFreeAt(count, steps, w, k) {
      if k < |steps| && LiveAt(s, steps, w, k) {
        CounterIsHeldPlusErrors(count, steps[..k], w);
      }
    }
  }

  ghost predicate LeavesFreeAt(count: nat, steps: seq<Step>, w: nat, k: nat) {
    && k < |steps| && LiveAt(Start(count), steps, w, k) && steps[k] == LookAtGeneration(w)
    && var t := Run(Start(count), steps[..k]);
      var p := t.procs[w];
      p.Checking? && W.ShouldDrain(p.flag, t.generation, p.mine) && p.held == 0 && HardErrors(steps[..k], w) == 0
  }

  // ----- Three runs -----

  lemma RunOne(s: Sys, steps: seq<Step>, step: Step)
    ensures MayRun(s, steps + [step]) <==> MayRun(s, steps) && Enabled(Run(s, steps), step)
    ensures MayRun(s, steps + [step]) ==> Run(s, steps + [step]) == Next(Run(s, steps), step)
  {
    hide Enabled, Next;
    assert (steps + [step])[..|steps|] == steps;
  }

  ghost predicate Reaches(s: Sys, t: Sys) {
    exists steps :: MayRun(s, steps) && Run(s, steps) == t
  }

  lemma ReachesItself(s: Sys)
    ensures Reaches(s, s)
  {
    assert MayRun(s, []) && Run(s, []) == s;
  }

  predicate Leads(s: Sys, step: Step, t: Sys) {
    Enabled(s, step) && Next(s, step) == t
  }

  lemma Follow(s: Sys, t: Sys, step: Step, u: Sys)
    requires Reaches(s, t) && Leads(t, step, u)
    ensures Reaches(s, u)
  {
    hide Enabled, Next;
    var steps :| MayRun(s, steps) && Run(s, steps) == t;
    RunOne(s, steps, step);
    assert MayRun(s, steps + [step]);
  }

  /** A single worker, and the master in its main loop. */
  function Alone(p: Proc): Sys {
    Sys(Idle, 0, false, 1, [0], [], [p])
  }

  /** The same worker in a restart before the polling, with the workers of the next round. */
  function Begun(pc: Pc, pids: seq<nat>, former: seq<int>, p: Proc, next: seq<Proc>): Sys {
    Sys(pc, 1, pc != Announced, 1, pids, former, [p] + next)
  }

  /** The old worker, a new one that has not loaded yet, and so many polls left. */
  function Polled(left: nat, next: nat, p: Proc): Sys {
    Sys(Polling(left, next, next), 1, true, 1, [1], [0], [p, Forked])
  }

  function Last(next: nat, p: Proc): Sys {
    Sys(Killing(0, next), 1, true, 1, [1], [0], [p, Forked])
  }

  lemma PollSteps(left: nat, p: Proc)
    requires !p.Gone?
    ensures left > 0 ==> Leads(Polled(left, 0, p), PollOne, Polled(left, 1, p))
    ensures left > 0 ==> Leads(Polled(left, 1, p), PollEnds, Polled(left - 1, 0, p))
    ensures Leads(Polled(0, 0, p), PollEnds, Last(0, p))
    ensures Leads(Last(0, p), KillOne, Last(1, Ended(p, Killed)))
  {
  }

  lemma {:induction false} PollsRunOut(s: Sys, left: nat, p: Proc)
    requires Reaches(s, Polled(left, 0, p)) && !p.Gone?
    ensures Reaches(s, Last(1, Ended(p, Killed)))
    decreases left
  {
    hide Leads, Reaches, Polled, Last;
    PollSteps(left, p);
    if left > 0 {
      Follow(s, Polled(left, 0, p), PollOne, Polled(left, 1, p));
      Follow(s, Polled(left, 1, p), PollEnds, Polled(left - 1, 0, p));
      PollsRunOut(s, left - 1, p);
    } else {
      Follow(s, Polled(0, 0, p), PollEnds, Last(0, p));
      Follow(s, Last(0, p), KillOne, Last(1, Ended(p, Killed)));
    }
  }

  lemma FirstSteps()
    ensures Start(1) == Alone(Forked)
    ensures Leads(Alone(Forked), Load(0), Alone(Waiting(0, 0, 0)))
    ensures Leads(Alone(Waiting(0, 0, 0)), LookBeforeAccept(0), Alone(Accepting(0, 0, 0, false)))
    ensures Leads(Alone(Accepting(0, 0, 0, false)), AcceptOrNot(0, true), Alone(Waiting(0, 1, 1)))
  {
  }

  lemma RestartSteps(p: Proc)
    ensures Leads(Alone(p), Hangup, Begun(Announced, [0], [], p, []))
    ensures Leads(Begun(Announced, [0], [], p, []), RaiseFlag, Begun(Spawning, [], [0], p, []))
    ensures Leads(Begun(Spawning, [], [0], p, []), Spawn, Begun(Spawning, [1], [0], p, [Forked]))
    ensures Leads(Begun(Spawning, [1], [0], p, [Forked]), StartPolling, Polled(DRAIN_POLLS, 0, p))
  {
  }

  lemma LateStep()
    ensures Leads(Begun(Spawning, [1], [0], Forked, [Forked]), Load(0),
                  Begun(Spawning, [1], [0], Waiting(1, 0, 0), [Forked]))
  {
  }

  /** A restart of a single worker, up to the forking of the next one. */
  lemma RestartBegins(s: Sys, p: Proc)
    requires Reaches(s, Alone(p))
    ensures Reaches(s, Begun(Spawning, [1], [0], p, [Forked]))
  {
    hide Leads, Reaches, Alone, Begun, Polled;
    RestartSteps(p);
    Follow(s, Alone(p), Hangup, Begun(Announced, [0], [], p, []));
    Follow(s, Begun(Announced, [0], [], p, []), RaiseFlag, Begun(Spawning, [], [0], p, []));
    Follow(s, Begun(Spawning, [], [0], p, []), Spawn, Begun(Spawning, [1], [0], p, [Forked]));
  }

  lemma KilledInTheEnd(s: Sys, p: Proc)
    requires Reaches(s, Begun(Spawning, [1], [0], p, [Forked])) && !p.Gone?
    ensures Reaches(s, Last(1, Ended(p, Killed)))
  {
    hide Leads, Reaches, Begun, Polled, Last;
    RestartSteps(p);
    Follow(s, Begun(Spawning, [1], [0], p, [Forked]), StartPolling, Polled(DRAIN_POLLS, 0, p));
    PollsRunOut(s, DRAIN_POLLS, p);
  }

  /** Some run from the start, with a single worker, leaves that worker like this. */
  ghost predicate Possible(p: Proc) {
    exists steps :: MayRun(Start(1), steps) && |Run(Start(1), steps).procs| > 0 && Run(Start(1), steps).procs[0] == p
  }

  lemma RunTo(p: Proc)
    requires Reaches(Start(1), Last(1, p))
    ensures Possible(p)
  {
    var steps :| MayRun(Start(1), steps) && Run(Start(1), steps) == Last(1, p);
    assert Run(Start(1), steps).procs[0] == p;
  }

  /** A restart may cut a connection: a worker that is not done after the last poll is killed with what it holds. */
  lemma ConnectionsCanBeCut()
    ensures Possible(Gone(0, 1, 1, Killed))
  {
    hide Leads, Reaches, Start, Alone, Begun, Last;
    var s := Start(1);
    FirstSteps();
    ReachesItself(s);
    Follow(s, Alone(Forked), Load(0), Alone(Waiting(0, 0, 0)));
    Follow(s, Alone(Waiting(0, 0, 0)), LookBeforeAccept(0), Alone(Accepting(0, 0, 0, false)));
    Follow(s, Alone(Accepting(0, 0, 0, false)), AcceptOrNot(0, true), Alone(Waiting(0, 1, 1)));
    RestartBegins(s, Waiting(0, 1, 1));
    KilledInTheEnd(s, Waiting(0, 1, 1));
    RunTo(Gone(0, 1, 1, Killed));
  }

  /** A worker that loads its generation late is killed though it never held a connection. */
  lemma IdleLateLoaderIsKilled()
    ensures Possible(Gone(1, 0, 0, Killed))
  {
    hide Leads, Reaches, Start, Alone, Begun, Last;
    var s := Start(1);
    FirstSteps();
    LateStep();
    ReachesItself(s);
    RestartBegins(s, Forked);
    Follow(s, Begun(Spawning, [1], [0], Forked, [Forked]), Load(0),
           Begun(Spawning, [1], [0], Waiting(1, 0, 0), [Forked]));
    KilledInTheEnd(s, Waiting(1, 0, 0));
    RunTo(Gone(1, 0, 0, Killed));
  }

  lemma ErrorStep()
    ensures Leads(Alone(Waiting(0, 1, 1)), HardError(0), Alone(Waiting(0, 1, 0)))
  {
  }

  /** A worker whose counter is stuck is killed though it holds nothing: no connection is cut. */
  lemma StuckCounterIsKilled()
    ensures Possible(Gone(0, 1, 0, Killed))
  {
    hide Leads, Reaches, Start, Alone, Begun, Last;
    var s := Start(1);
    FirstSteps();
    ErrorStep();
    ReachesItself(s);
    Follow(s, Alone(Forked), Load(0), Alone(Waiting(0, 0, 0)));
    Follow(s, Alone(Waiting(0, 0, 0)), LookBeforeAccept(0), Alone(Accepting(0, 0, 0, false)));
    Follow(s, Alone(Accepting(0, 0, 0, false)), AcceptOrNot(0, true), Alone(Waiting(0, 1, 1)));
    Follow(s, Alone(Waiting(0, 1, 1)), HardError(0), Alone(Waiting(0, 1, 0)));
    RestartBegins(s, Waiting(0, 1, 0));
    KilledInTheEnd(s, Waiting(0, 1, 0));
    RunTo(Gone(0, 1, 0, Killed));
  }

  // ----- A graceful restart -----

  /** The old worker drains while it is polled, and the new one is still to load. */
  lemma DrainSteps()
    ensures Leads(Alone(Waiting(0, 1, 1)), Finish(0), Alone(Waiting(0, 0, 0)))
    ensures Leads(Polled(30, 0, Waiting(0, 0, 0)), LookAtFlag(0), Polled(30, 0, Checking(0, 0, 0, true)))
    ensures Leads(Polled(30, 0, Checking(0, 0, 0, true)), LookAtGeneration(0), Polled(30, 0, Gone(0, 0, 0, Drained)))
  {
  }

  /** The old worker has been waited for, and the new one is this. */
  function Afterwards(pc: Pc, p: Proc): Sys {
    Sys(pc, 1, pc != Idle, 1, [1], if pc == Idle then [] else [REAPED], [Gone(0, 0, 0, Drained), p])
  }

  function Respawned(p: Proc): Sys {
    Sys(Idle, 1, false, 1, [2], [], [Gone(0, 0, 0, Drained), p, Forked])
  }

  lemma LastSteps()
    ensures Leads(Polled(30, 0, Gone(0, 0, 0, Drained)), PollOne, Afterwards(Polling(30, 1, 0), Forked))
    ensures Leads(Afterwards(Polling(30, 1, 0), Forked), PollEnds, Afterwards(Killing(30, 0), Forked))
  {
  }

  lemma LastKill()
    ensures Leads(Afterwards(Killing(30, 0), Forked), KillOne, Afterwards(Killing(30, 1), Forked))
    ensures Leads(Afterwards(Killing(30, 1), Forked), LowerFlag, Afterwards(Idle, Forked))
  {
  }

  lemma NewcomerSteps()
    ensures Leads(Afterwards(Idle, Forked), Load(1), Afterwards(Idle, Waiting(1, 0, 0)))
    ensures Leads(Afterwards(Idle, Waiting(1, 0, 0)), Crash(1), Afterwards(Idle, Gone(1, 0, 0, Crashed)))
    ensures Leads(Afterwards(Idle, Gone(1, 0, 0, Crashed)), Respawn(0), Respawned(Gone(1, 0, 0, Crashed)))
  {
  }

  /**
   A restart as it is meant to be, and a respawn: a worker serves a connection to its end and then drains, the master
   sees it gone in its first poll and is back in the main loop; the new worker crashes, and another one takes its place.
   */
  lemma GracefulRestart()
    ensures Reaches(Start(1), Respawned(Gone(1, 0, 0, Crashed)))
  {
    hide Leads, Reaches, Start, Alone, Begun, Polled, Afterwards, Respawned;
    var s := Start(1);
    FirstSteps();
    DrainSteps();
    LastSteps();
    LastKill();
    NewcomerSteps();
    RestartSteps(Waiting(0, 0, 0));
    ReachesItself(s);
    Follow(s, Alone(Forked), Load(0), Alone(Waiting(0, 0, 0)));
    Follow(s, Alone(Waiting(0, 0, 0)), LookBeforeAccept(0), Alone(Accepting(0, 0, 0, false)));
    Follow(s, Alone(Accepting(0, 0, 0, false)), AcceptOrNot(0, true), Alone(Waiting(0, 1, 1)));
    Follow(s, Alone(Waiting(0, 1, 1)), Finish(0), Alone(Waiting(0, 0, 0)));
    RestartBegins(s, Waiting(0, 0, 0));
    Follow(s, Begun(Spawning, [1], [0], Waiting(0, 0, 0), [Forked]), StartPolling, Polled(30, 0, Waiting(0, 0, 0)));
    Follow(s, Polled(30, 0, Waiting(0, 0, 0)), LookAtFlag(0), Polled(30, 0, Checking(0, 0, 0, true)));
    Follow(s, Polled(30, 0, Checking(0, 0, 0, true)), LookAtGeneration(0), Polled(30, 0, Gone(0, 0, 0, Drained)));
    Follow(s, Polled(30, 0, Gone(0, 0, 0, Drained)), PollOne, Afterwards(Polling(30, 1, 0), Forked));
    Follow(s, Afterwards(Polling(30, 1, 0), Forked), PollEnds, Afterwards(Killing(30, 0), Forked));
    Follow(s, Afterwards(Killing(30, 0), Forked), KillOne, Afterwards(Killing(30, 1), Forked));
    Follow(s, Afterwards(Killing(30, 1), Forked), LowerFlag, Afterwards(Idle, Forked));
    Follow(s, Afterwards(Idle, Forked), Load(1), Afterwards(Idle, Waiting(1, 0, 0)));
    Follow(s, Afterwards(Idle, Waiting(1, 0, 0)), Crash(1), Afterwards(Idle, Gone(1, 0, 0, Crashed)));
    Follow(s, Afterwards(Idle, Gone(1, 0, 0, Crashed)), Respawn(0), Respawned(Gone(1, 0, 0, Crashed)));
  }
}
