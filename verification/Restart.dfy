/** The graceful restart: a master and its workers, step by step and in any interleaving. */
module Restart {
  import W = Worker

  const DRAIN_POLLS: nat := 30

  datatype Exit = Drained | Crashed | Killed

  /**
   A worker is forked, loads its generation, and then waits for events. Accepting a connection and checking for
   the end each read the shared flag first and the shared generation later. `active` is the worker's own counter, by
   which it leaves; `held` are the connections it has. A worker that is gone keeps its record.
   */
  datatype Proc =
    | Forked
    | Waiting(mine: int, active: int, held: nat)
    | Accepting(mine: int, active: int, held: nat, flag: bool)
    | Checking(mine: int, active: int, held: nat, flag: bool)
    | Gone(mine: int, active: int, held: nat, how: Exit)

  /**
   Where the master is: in its main loop; between the new generation and the flag; forking new workers; polling the
   old ones (polls left, next worker, how many seen alive in this poll); killing what is left of them.
   */
  datatype Pc =
    | Idle
    | Announced
    | Spawning
    | Polling(left: nat, next: nat, alive: nat)
    | Killing(left: nat, next: nat)

  const REAPED: int := -1

  /** Workers are numbered as they are forked; an old worker that was waited for is marked REAPED. */
  datatype Sys = Sys(pc: Pc, generation: int, shutting: bool, count: nat,
                     pids: seq<nat>, former: seq<int>, procs: seq<Proc>)

  datatype Step =
    | Hangup | RaiseFlag | Spawn | StartPolling | PollOne | PollEnds | KillOne | LowerFlag | Respawn(i: nat)
    | Load(w: nat) | LookBeforeAccept(w: nat) | AcceptOrNot(w: nat, got: bool) | Finish(w: nat) | HardError(w: nat)
    | LookAtFlag(w: nat) | LookAtGeneration(w: nat) | Crash(w: nat)

  function Start(count: nat): Sys {
    Sys(Idle, 0, false, count, seq(count, i => i), [], seq(count, _ => Forked))
  }

  predicate IsGone(s: Sys, w: int) {
    0 <= w < |s.procs| && s.procs[w].Gone?
  }

  /** Which step may be taken next, by the master or by a worker. */
  predicate Enabled(s: Sys, step: Step) {
    match step
    case Hangup => s.pc == Idle
    case RaiseFlag => s.pc == Announced
    case Spawn => s.pc == Spawning && |s.pids| < s.count
    case StartPolling => s.pc == Spawning && |s.pids| >= s.count
    case PollOne => s.pc.Polling? && s.pc.left > 0 && s.pc.next < |s.former|
    case PollEnds => s.pc.Polling? && (s.pc.left == 0 || s.pc.next >= |s.former|)
    case KillOne => s.pc.Killing? && s.pc.next < |s.former|
    case LowerFlag => s.pc.Killing? && s.pc.next >= |s.former|
    case Respawn(i) => s.pc == Idle && i < |s.pids| && IsGone(s, s.pids[i])
    case Load(w) => w < |s.procs| && s.procs[w].Forked?
    case LookBeforeAccept(w) => w < |s.procs| && s.procs[w].Waiting?
    case AcceptOrNot(w, _) => w < |s.procs| && s.procs[w].Accepting?
    case Finish(w) => w < |s.procs| && s.procs[w].Waiting? && s.procs[w].held > 0
    case HardError(w) => w < |s.procs| && s.procs[w].Waiting? && s.procs[w].held > 0
    case LookAtFlag(w) => w < |s.procs| && s.procs[w].Waiting?
    case LookAtGeneration(w) => w < |s.procs| && s.procs[w].Checking?
    case Crash(w) => w < |s.procs| && !s.procs[w].Gone?
  }

  function Ended(p: Proc, how: Exit): Proc {
    match p
    case Gone(_, _, _, _) => p
    case Forked => Gone(-1, 0, 0, how)
    case Waiting(mine, active, held) => Gone(mine, active, held, how)
    case Accepting(mine, active, held, _) => Gone(mine, active, held, how)
    case Checking(mine, active, held, _) => Gone(mine, active, held, how)
  }

  function Next(s: Sys, step: Step): Sys
    requires Enabled(s, step)
  {
    match step
    case Hangup => s.(pc := Announced, generation := s.generation + 1)
    case RaiseFlag =>
      var former := seq(|s.pids|, i requires 0 <= i < |s.pids| => s.pids[i]);
      s.(pc := Spawning, shutting := true, former := former, pids := [])
    case Spawn => s.(pids := s.pids + [|s.procs|], procs := s.procs + [Forked])
    case StartPolling => s.(pc := Polling(DRAIN_POLLS, 0, 0))
    case PollOne =>
      var k := s.pc.next;
      if s.former[k] == REAPED then s.(pc := Polling(s.pc.left, k + 1, s.pc.alive))
      else if IsGone(s, s.former[k]) then
        s.(pc := Polling(s.pc.left, k + 1, s.pc.alive), former := s.former[k := REAPED])
      else s.(pc := Polling(s.pc.left, k + 1, s.pc.alive + 1))
    case PollEnds =>
      if s.pc.left == 0 || s.pc.alive == 0 then s.(pc := Killing(s.pc.left, 0))
      else s.(pc := Polling(s.pc.left - 1, 0, 0))
    case KillOne =>
      var k := s.pc.next;
      var w, t := s.former[k], s.(pc := Killing(s.pc.left, k + 1));
      if 0 <= w < |s.procs| then t.(procs := s.procs[w := Ended(s.procs[w], Killed)]) else t
    case LowerFlag => s.(pc := Idle, shutting := false, former := [])
    case Respawn(i) => s.(pids := s.pids[i := |s.procs|], procs := s.procs + [Forked])
    case Load(w) => s.(procs := s.procs[w := Waiting(s.generation, 0, 0)])
    case LookBeforeAccept(w) =>
      var p := s.procs[w];
      s.(procs := s.procs[w := Accepting(p.mine, p.active, p.held, s.shutting)])
    case AcceptOrNot(w, got) =>
      var p := s.procs[w];
      var more := if got && !W.ShouldDrain(p.flag, s.generation, p.mine) then 1 else 0;
      s.(procs := s.procs[w := Waiting(p.mine, p.active + more, p.held + more)])
    case Finish(w) =>
      var p := s.procs[w];
      s.(procs := s.procs[w := Waiting(p.mine, p.active - 1, p.held - 1)])
    case HardError(w) =>
      var p := s.procs[w];
      s.(procs := s.procs[w := Waiting(p.mine, p.active, p.held - 1)])
    case LookAtFlag(w) =>
      var p := s.procs[w];
      s.(procs := s.procs[w := Checking(p.mine, p.active, p.held, s.shutting)])
    case LookAtGeneration(w) =>
      var p := s.procs[w];
      s.(procs := s.procs[w :=
        if W.ShouldDrain(p.flag, s.generation, p.mine) && p.active == 0 then Gone(p.mine, p.active, p.held, Drained)
        else Waiting(p.mine, p.active, p.held)])
    case Crash(w) => s.(procs := s.procs[w := Ended(s.procs[w], Crashed)])
  }

  function Run(s: Sys, steps: seq<Step>): Sys
    requires MayRun(s, steps)
    decreases |steps|, 1
  {
    if |steps| == 0 then s else Next(Run(s, steps[..|steps| - 1]), steps[|steps| - 1])
  }

  predicate MayRun(s: Sys, steps: seq<Step>)
    decreases |steps|, 0
  {
    |steps| == 0 || (
      MayRun(s, steps[..|steps| - 1]) && Enabled(Run(s, steps[..|steps| - 1]), steps[|steps| - 1]))
  }

  // ----- The invariant -----

  predicate Loaded(p: Proc) {
    p.Waiting? || p.Accepting? || p.Checking?
  }

  /** The drain condition as a worker would see it now. */
  predicate Draining(s: Sys, w: nat) {
    w < |s.procs| && Loaded(s.procs[w]) && W.ShouldDrain(s.shutting, s.generation, s.procs[w].mine)
  }

  ghost predicate Known(s: Sys) {
    && (forall i | 0 <= i < |s.pids| :: s.pids[i] < |s.procs|)
    && (forall k | 0 <= k < |s.former| :: s.former[k] < |s.procs|)
  }

  ghost predicate NoneAhead(s: Sys) {
    forall w | 0 <= w < |s.procs| && Loaded(s.procs[w]) :: s.procs[w].mine <= s.generation
  }

  /** The workers of the current round that have loaded a generation loaded this one. */
  ghost predicate RoundIsCurrent(s: Sys) {
    forall i | 0 <= i < |s.pids| && s.pids[i] < |s.procs| && Loaded(s.procs[s.pids[i]]) ::
      s.procs[s.pids[i]].mine == s.generation
  }

  /** Nobody is forgotten: every live worker is in the table, or in the old table and not waited for. */
  ghost predicate NoneForgotten(s: Sys) {
    forall w | 0 <= w < |s.procs| && !s.procs[w].Gone? :: w in s.pids || w in s.former
  }

  /** The first n old workers have been waited for, or are gone. */
  ghost predicate OldGone(s: Sys, n: nat) {
    n <= |s.former| && forall k | 0 <= k < n :: s.former[k] < 0 || IsGone(s, s.former[k])
  }

  ghost predicate AtPc(s: Sys) {
    match s.pc
    case Idle => !s.shutting && s.former == [] && |s.pids| == s.count && RoundIsCurrent(s)
    case Announced => !s.shutting && s.former == [] && |s.pids| == s.count
    case Spawning => s.shutting && |s.pids| <= s.count && RoundIsCurrent(s)
    case Polling(left, next, alive) =>
      && s.shutting && |s.pids| == s.count && RoundIsCurrent(s)
      && next <= |s.former| && left <= DRAIN_POLLS && (alive == 0 ==> OldGone(s, next))
    case Killing(left, next) =>
      && s.shutting && |s.pids| == s.count && RoundIsCurrent(s)
      && OldGone(s, if left > 0 then |s.former| else next)
      && next <= |s.former|
  }

  /** The counter never falls below the connections held. */
  ghost predicate Counted(s: Sys) {
    forall w | 0 <= w < |s.procs| && !s.procs[w].Forked? :: s.procs[w].held <= s.procs[w].active
  }

  ghost predicate DrainedEmpty(s: Sys) {
    forall w | 0 <= w < |s.procs| && s.procs[w].Gone? && s.procs[w].how == Drained ::
      s.procs[w].active == 0
  }

  ghost predicate Inv(s: Sys) {
    Known(s) && NoneAhead(s) && NoneForgotten(s) && AtPc(s) && DrainedEmpty(s) && Counted(s)
  }

  lemma StartIsValid(count: nat)
    ensures Inv(Start(count))
  {
    var s := Start(count);
    forall w | 0 <= w < |s.procs| ensures w in s.pids {
      assert s.pids[w] == w;
    }
  }

  /** Steps of the master that leave the workers alone. */
  lemma MasterKeepsInv(s: Sys, step: Step)
    requires Inv(s) && Enabled(s, step)
    requires step.Hangup? || step.RaiseFlag? || step.StartPolling? || step.PollEnds? || step.LowerFlag?
    ensures Inv(Next(s, step))
  {
    var t := Next(s, step);
    forall w | 0 <= w < |s.procs| && !s.procs[w].Gone? ensures w in t.pids || w in t.former {
      if step.RaiseFlag? {
        var i :| 0 <= i < |s.pids| && s.pids[i] == w;
        assert t.former[i] == w;
      }
    }
  }

  lemma PollKeepsInv(s: Sys)
    requires Inv(s) && Enabled(s, PollOne)
    ensures Inv(Next(s, PollOne))
  {
    var t, k := Next(s, PollOne), s.pc.next;
    forall w | 0 <= w < |s.procs| && !s.procs[w].Gone? ensures w in t.pids || w in t.former {
      if w !in s.pids {
        var i :| 0 <= i < |s.former| && s.former[i] == w;
        assert i < |t.former| && t.former[i] == w;
      }
    }
  }

  lemma ForkKeepsInv(s: Sys, step: Step)
    requires Inv(s) && Enabled(s, step) && (step.Spawn? || step.Respawn?)
    ensures Inv(Next(s, step))
  {
    var t := Next(s, step);
    forall w | 0 <= w < |t.procs| && !t.procs[w].Gone? ensures w in t.pids || w in t.former {
      if w == |s.procs| {
        var i := if step.Spawn? then |s.pids| else step.i;
        assert t.pids[i] == w;
      } else if w in s.pids {
        var i :| 0 <= i < |s.pids| && s.pids[i] == w;
        assert t.pids[i] == w;
      }
    }
  }

  /** A change of one worker that keeps its generation, or loads the current one, or ends it. */
  lemma WorkerKeepsInv(s: Sys, w: nat, p: Proc)
    requires Inv(s) && w < |s.procs| && !s.procs[w].Gone?
    requires Loaded(p) ==> if Loaded(s.procs[w]) then p.mine == s.procs[w].mine else p.mine == s.generation
    requires p.Gone? && p.how == Drained ==> p.active == 0
    requires !p.Forked? ==>
      p.active - p.held >= if s.procs[w].Forked? then 0 else s.procs[w].active - s.procs[w].held
    ensures Inv(s.(procs := s.procs[w := p]))
  {
  }

  lemma NextKill(s: Sys)
    requires Inv(s) && s.pc.Killing? && s.pc.next < |s.former|
    requires s.former[s.pc.next] < 0 || IsGone(s, s.former[s.pc.next])
    ensures Inv(s.(pc := Killing(s.pc.left, s.pc.next + 1)))
  {
  }

  lemma KillKeepsInv(s: Sys)
    requires Inv(s) && Enabled(s, KillOne)
    ensures Inv(Next(s, KillOne))
  {
    hide NoneAhead, NoneForgotten, AtPc, DrainedEmpty;
    var w := s.former[s.pc.next];
    if 0 <= w && !s.procs[w].Gone? {
      var p := Ended(s.procs[w], Killed);
      WorkerKeepsInv(s, w, p);
      NextKill(s.(procs := s.procs[w := p]));
    } else {
      NextKill(s);
      assert 0 <= w ==> s.procs[w := s.procs[w]] == s.procs;
    }
  }

  lemma StepKeepsInv(s: Sys, step: Step)
    requires Inv(s) && Enabled(s, step)
    ensures Inv(Next(s, step))
  {
    hide Inv;
    match step
    case Hangup => MasterKeepsInv(s, step);
    case RaiseFlag => MasterKeepsInv(s, step);
    case StartPolling => MasterKeepsInv(s, step);
    case PollEnds => MasterKeepsInv(s, step);
    case LowerFlag => MasterKeepsInv(s, step);
    case Spawn => ForkKeepsInv(s, step);
    case Respawn(_) => ForkKeepsInv(s, step);
    case PollOne => PollKeepsInv(s);
    case KillOne => KillKeepsInv(s);
    case Load(w) => WorkerKeepsInv(s, w, Next(s, step).procs[w]);
    case LookBeforeAccept(w) => WorkerKeepsInv(s, w, Next(s, step).procs[w]);
    case AcceptOrNot(w, _) => WorkerKeepsInv(s, w, Next(s, step).procs[w]);
    case Finish(w) => WorkerKeepsInv(s, w, Next(s, step).procs[w]);
    case HardError(w) => WorkerKeepsInv(s, w, Next(s, step).procs[w]);
    case LookAtFlag(w) => WorkerKeepsInv(s, w, Next(s, step).procs[w]);
    case LookAtGeneration(w) => WorkerKeepsInv(s, w, Next(s, step).procs[w]);
    case Crash(w) => WorkerKeepsInv(s, w, Next(s, step).procs[w]);
  }

  lemma {:induction false} RunKeepsInv(s: Sys, steps: seq<Step>)
    requires Inv(s) && MayRun(s, steps)
    ensures Inv(Run(s, steps))
  {
    hide Inv, Next, Enabled;
    if |steps| > 0 {
      RunKeepsInv(s, steps[..|steps| - 1]);
      StepKeepsInv(Run(s, steps[..|steps| - 1]), steps[|steps| - 1]);
    }
  }

  // ----- Back in the main loop -----

  /** Whenever the master is in its main loop, the flag is down and every live worker belongs to the current round. */
  lemma IdleIsUniform(count: nat, steps: seq<Step>, w: nat)
    requires MayRun(Start(count), steps) && Run(Start(count), steps).pc == Idle
    ensures var s := Run(Start(count), steps);
      && !s.shutting && |s.pids| == count
      && (w < |s.procs| && !s.procs[w].Gone? ==> w in s.pids)
      && (w < |s.procs| && Loaded(s.procs[w]) ==> s.procs[w].mine == s.generation)
  {
    hide Run, MayRun, Start;
    var s := Run(Start(count), steps);
    StartIsValid(count);
    RunKeepsInv(Start(count), steps);
    CountStays(Start(count), steps);
    StartCount(count);
    if w < |s.procs| && Loaded(s.procs[w]) {
      assert w in s.pids;
    }
  }

  lemma StartCount(count: nat)
    ensures Start(count).count == count
  {
  }

  lemma {:induction false} CountStays(s: Sys, steps: seq<Step>)
    requires MayRun(s, steps)
    ensures Run(s, steps).count == s.count
  {
    hide Enabled;
    if |steps| > 0 {
      CountStays(s, steps[..|steps| - 1]);
    }
  }

  // ----- Who drains -----

  predicate NoHangup(steps: seq<Step>) {
    forall k | 0 <= k < |steps| :: !steps[k].Hangup?
  }

  /** What a worker of the current generation is, or has become without draining. */
  ghost predicate UpToDate(s: Sys, w: nat) {
    && w < |s.procs|
    && (Loaded(s.procs[w]) ==> s.procs[w].mine == s.generation)
    && (s.procs[w].Gone? ==> s.procs[w].how != Drained)
  }

  /** Until the next hangup, a worker that holds the current generation, or has yet to load one, never drains. */
  lemma {:induction false} CurrentNeverDrains(s: Sys, steps: seq<Step>, w: nat)
    requires MayRun(s, steps) && NoHangup(steps) && UpToDate(s, w)
    ensures UpToDate(Run(s, steps), w)
  {
    hide Enabled, Next;
    if |steps| > 0 {
      var n := |steps| - 1;
      CurrentNeverDrains(s, steps[..n], w);
      StaysUpToDate(Run(s, steps[..n]), steps[n], w);
    }
  }

  lemma StaysUpToDate(s: Sys, step: Step, w: nat)
    requires Enabled(s, step) && !step.Hangup? && UpToDate(s, w)
    ensures UpToDate(Next(s, step), w)
  {
  }

  // ----- The drain condition -----

  lemma DrainStep(s: Sys, step: Step, w: nat)
    requires Inv(s) && Enabled(s, step) && Draining(s, w)
    ensures Draining(Next(s, step), w) || IsGone(Next(s, step), w)
  {
  }

  /** Once a worker's drain condition holds, it holds until the worker is gone, whatever anyone does. */
  lemma {:induction false} DrainIsStable(s: Sys, steps: seq<Step>, w: nat)
    requires Inv(s) && MayRun(s, steps) && Draining(s, w)
    ensures Draining(Run(s, steps), w) || IsGone(Run(s, steps), w)
  {
    hide Enabled, Next, Inv, Draining, IsGone;
    if |steps| > 0 {
      var n := |steps| - 1;
      var t := Run(s, steps[..n]);
      RunKeepsInv(s, steps[..n]);
      DrainIsStable(s, steps[..n], w);
      if IsGone(t, w) {
        GoneStays(t, steps[n], w);
      } else {
        DrainStep(t, steps[n], w);
      }
    }
  }

  lemma GoneStays(s: Sys, step: Step, w: nat)
    requires Enabled(s, step) && IsGone(s, w)
    ensures IsGone(Next(s, step), w) && Next(s, step).procs[w] == s.procs[w]
  {
  }

  /** While the flag is up, exactly the workers with an older generation drain. */
  lemma WhoDrains(s: Sys, w: nat)
    requires Inv(s) && w < |s.procs| && Loaded(s.procs[w])
    ensures Draining(s, w) <==> s.pc != Idle && s.pc != Announced && s.procs[w].mine != s.generation
  {
  }

  /** The connections a worker holds, plus one if it has already decided to accept. */
  function Committed(p: Proc): nat {
    if p.Forked? then 0 else p.held + if p.Accepting? && !p.flag then 1 else 0
  }

  lemma CommittedStep(s: Sys, step: Step, w: nat)
    requires Enabled(s, step) && Draining(s, w)
    ensures Committed(Next(s, step).procs[w]) <= Committed(s.procs[w])
  {
  }

  /** A draining worker takes on at most the one connection it had decided to accept before. */
  lemma {:induction false} DrainingAdmitsNoMore(s: Sys, steps: seq<Step>, w: nat)
    requires Inv(s) && MayRun(s, steps) && Draining(s, w)
    ensures w < |Run(s, steps).procs| && Committed(Run(s, steps).procs[w]) <= Committed(s.procs[w])
  {
    hide Enabled, Next, Inv, Committed;
    if |steps| > 0 {
      var n := |steps| - 1;
      var t := Run(s, steps[..n]);
      RunKeepsInv(s, steps[..n]);
      DrainingAdmitsNoMore(s, steps[..n], w);
      DrainIsStable(s, steps[..n], w);
      if IsGone(t, w) {
        GoneStays(t, steps[n], w);
      } else {
        CommittedStep(t, steps[n], w);
        DrainStep(t, steps[n], w);
      }
    }
  }

  // ----- How workers end -----

  /** A worker that left by itself held no connection. */
  lemma DrainedHeldNothing(count: nat, steps: seq<Step>, w: nat)
    requires MayRun(Start(count), steps) && w < |Run(Start(count), steps).procs|
    ensures var p := Run(Start(count), steps).procs[w]; p.Gone? && p.how == Drained ==> p.active == p.held == 0
  {
    hide Run, MayRun, Start;
    StartIsValid(count);
    RunKeepsInv(Start(count), steps);
  }

  /** The workers numbered below n are not in the table of the round, except before it starts. */
  ghost predicate OldRound(s: Sys, n: nat) {
    n <= |s.procs| && (s.pc == Announced || forall i | 0 <= i < |s.pids| :: s.pids[i] >= n)
  }

  lemma OldRoundStep(s: Sys, step: Step, n: nat)
    requires Enabled(s, step) && !step.Hangup? && OldRound(s, n)
    ensures OldRound(Next(s, step), n)
  {
  }

  lemma {:induction false} OldRoundStays(s: Sys, steps: seq<Step>, n: nat)
    requires MayRun(s, steps) && NoHangup(steps) && OldRound(s, n)
    ensures OldRound(Run(s, steps), n)
  {
    hide Enabled, Next, OldRound;
    if |steps| > 0 {
      OldRoundStays(s, steps[..|steps| - 1], n);
      OldRoundStep(Run(s, steps[..|steps| - 1]), steps[|steps| - 1], n);
    }
  }

  /** When a restart is over, every worker there was when it was announced is gone. */
  lemma RestartReplacesAll(s: Sys, steps: seq<Step>, w: nat)
    requires Inv(s) && s.pc == Announced && MayRun(s, steps) && NoHangup(steps)
    requires Run(s, steps).pc == Idle && w < |s.procs|
    ensures IsGone(Run(s, steps), w)
  {
    hide Run, MayRun;
    OldRoundStays(s, steps, |s.procs|);
    RunKeepsInv(s, steps);
  }

  /**
   An old worker that loads its generation only after the announcement does not drain, even if it holds nothing:
   it is there until it is killed, or crashes.
   */
  lemma LateLoaderIsKilled(s: Sys, steps: seq<Step>, w: nat)
    requires Inv(s) && s.pc == Announced && MayRun(s, steps) && NoHangup(steps)
    requires Run(s, steps).pc == Idle && w < |s.procs| && s.procs[w].Forked?
    ensures IsGone(Run(s, steps), w) && Run(s, steps).procs[w].how != Drained
  {
    hide Run, MayRun, Inv;
    RestartReplacesAll(s, steps, w);
    CurrentNeverDrains(s, steps, w);
  }

  // ----- A restart ends -----

  predicate OfRestart(step: Step) {
    || step.RaiseFlag? || step.Spawn? || step.StartPolling? || step.PollOne? || step.PollEnds?
    || step.KillOne? || step.LowerFlag?
  }

  function MasterSteps(steps: seq<Step>): nat {
    if |steps| == 0 then 0
    else MasterSteps(steps[..|steps| - 1]) + if OfRestart(steps[|steps| - 1]) then 1 else 0
  }

  /** How many steps of the master a poll, or a restart with n old workers, still takes at most. */
  function PollRank(left: int, next: int, n: int): int {
    left * (n + 1) + n - next + n + 2
  }

  function Rank(s: Sys): int {
    var n := |s.former|;
    match s.pc
    case Idle => 0
    case Announced => 2 + s.count + PollRank(DRAIN_POLLS, 0, |s.pids|)
    case Spawning => s.count - |s.pids| + 1 + PollRank(DRAIN_POLLS, 0, n)
    case Polling(left, next, _) => PollRank(left, next, n)
    case Killing(_, next) => n - next + 1
  }

  lemma PollRankFalls(left: nat, next: nat, n: nat)
    requires next <= n
    ensures PollRank(left, next, n) >= n + 2 + (n - next)
    ensures left > 0 ==> PollRank(left - 1, 0, n) < PollRank(left, n, n)
    ensures PollRank(left, next + 1, n) == PollRank(left, next, n) - 1
  {
  }

  /** In the middle of a restart the master always has a next step, and each of its steps brings the end closer. */
  lemma RankFalls(s: Sys, step: Step)
    requires Inv(s) && Enabled(s, step) && !step.Hangup?
    ensures Rank(Next(s, step)) <= Rank(s) - if OfRestart(step) then 1 else 0
  {
    hide PollRank, Known, NoneAhead, NoneForgotten, RoundIsCurrent, OldGone, DrainedEmpty;
    if s.pc.Polling? {
      PollRankFalls(s.pc.left, s.pc.next, |s.former|);
    }
  }

  lemma RankIsPositive(s: Sys)
    requires Inv(s)
    ensures Rank(s) >= 0
    ensures s.pc == Announced ==> Rank(s) == 33 * s.count + 34
  {
    if s.pc.Polling? {
      PollRankFalls(s.pc.left, s.pc.next, |s.former|);
    }
  }

  lemma MasterHasAStep(s: Sys)
    requires Inv(s) && s.pc != Idle
    ensures exists step :: OfRestart(step) && Enabled(s, step)
  {
    var step := match s.pc
      case Idle => LowerFlag
      case Announced => RaiseFlag
      case Spawning => if |s.pids| < s.count then Spawn else StartPolling
      case Polling(left, next, _) => if left > 0 && next < |s.former| then PollOne else PollEnds
      case Killing(_, next) => if next < |s.former| then KillOne else LowerFlag;
    assert OfRestart(step) && Enabled(s, step);
  }

  lemma {:induction false} RankOverRun(s: Sys, steps: seq<Step>)
    requires Inv(s) && MayRun(s, steps) && NoHangup(steps)
    ensures Rank(Run(s, steps)) + MasterSteps(steps) <= Rank(s)
  {
    hide Inv, Enabled, Next, Rank, OfRestart;
    if |steps| > 0 {
      var n := |steps| - 1;
      RunKeepsInv(s, steps[..n]);
      RankOverRun(s, steps[..n]);
      RankFalls(Run(s, steps[..n]), steps[n]);
    }
  }

  /** A restart takes the master at most 33 steps a worker and 34 more, whatever the workers do meanwhile. */
  lemma RestartIsBounded(s: Sys, steps: seq<Step>)
    requires Inv(s) && s.pc == Announced && MayRun(s, steps) && NoHangup(steps)
    ensures MasterSteps(steps) <= 33 * s.count + 34
    ensures Run(s, steps).pc != Idle ==> exists step :: OfRestart(step) && Enabled(Run(s, steps), step)
  {
    hide Inv, Enabled, Next, Rank, OfRestart, Run, MayRun;
    RankOverRun(s, steps);
    RunKeepsInv(s, steps);
    RankIsPositive(s);
    RankIsPositive(Run(s, steps));
    if Run(s, steps).pc != Idle {
      MasterHasAStep(Run(s, steps));
    }
  }
}
