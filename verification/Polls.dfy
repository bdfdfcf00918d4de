/** How long the master waits for the old workers: what the steps between the start of polling and a kill must be. */
module Polls {
  import opened Restart

  // ----- Points in a run -----

  lemma {:induction false} PrefixRuns(s: Sys, steps: seq<Step>, k: nat)
    requires MayRun(s, steps) && k <= |steps|
    ensures MayRun(s, steps[..k])
  {
    hide Enabled, Next;
    if k == |steps| {
      assert steps[..k] == steps;
    } else {
      PrefixRuns(s, steps[..|steps| - 1], k);
      assert steps[..|steps| - 1][..k] == steps[..k];
    }
  }

  /** The system before step i. */
  ghost function At(s: Sys, steps: seq<Step>, i: nat): Sys
    requires MayRun(s, steps) && i <= |steps|
  {
    PrefixRuns(s, steps, i);
    Run(s, steps[..i])
  }

  lemma AtNext(s: Sys, steps: seq<Step>, i: nat)
    requires MayRun(s, steps) && i < |steps|
    ensures Enabled(At(s, steps, i), steps[i]) && At(s, steps, i + 1) == Next(At(s, steps, i), steps[i])
  {
    hide Enabled, Next;
    PrefixRuns(s, steps, i + 1);
    assert steps[..i + 1][..i] == steps[..i];
  }

  lemma {:induction false} GoneFrom(s: Sys, steps: seq<Step>, i: nat, j: nat, w: int)
    requires MayRun(s, steps) && i <= j <= |steps| && IsGone(At(s, steps, i), w)
    ensures IsGone(At(s, steps, j), w)
    decreases j
  {
    hide Enabled, Next, IsGone, At;
    if i < j {
      GoneFrom(s, steps, i, j - 1, w);
      AtNext(s, steps, j - 1);
      StillGone(At(s, steps, j - 1), steps[j - 1], w);
    }
  }

  lemma StillGone(s: Sys, step: Step, w: int)
    requires Enabled(s, step) && IsGone(s, w)
    ensures IsGone(Next(s, step), w)
  {
    GoneStays(s, step, w);
  }

  // ----- Polls, read off the steps -----

  /** The steps from .. till - 1 that look at a worker. */
  function Looks(steps: seq<Step>, from: nat, till: nat): nat
    requires from <= till <= |steps|
    decreases till
  {
    if from == till then 0 else Looks(steps, from, till - 1) + if steps[till - 1] == PollOne then 1 else 0
  }

  /** Of the steps from .. till - 1 the master makes none but looks at workers. */
  predicate OnlyLooks(steps: seq<Step>, from: nat, till: nat)
    requires from <= till <= |steps|
  {
    forall i | from <= i < till && OfRestart(steps[i]) :: steps[i] == PollOne
  }

  /** Behind step d the master looks n times, and then step e ends the poll. */
  predicate WholePoll(steps: seq<Step>, n: nat, d: nat, e: nat) {
    d < e < |steps| && steps[e] == PollEnds && OnlyLooks(steps, d + 1, e) && Looks(steps, d + 1, e) == n
  }

  /** Step i is a look at an old worker that lives: the k-th look of the poll behind step d is at old worker k. */
  ghost predicate Sees(s: Sys, steps: seq<Step>, olds: seq<int>, d: nat, i: nat)
    requires MayRun(s, steps)
  {
    && d < i < |steps| && steps[i] == PollOne
    && var k := Looks(steps, d + 1, i);
      k < |olds| && olds[k] != REAPED && !IsGone(At(s, steps, i), olds[k])
  }

  /** Some look between steps d and e was at a live old worker. */
  ghost predicate SawAlive(s: Sys, steps: seq<Step>, olds: seq<int>, d: nat, e: nat)
    requires MayRun(s, steps)
  {
    exists i: nat | i < e :: Sees(s, steps, olds, d, i)
  }

  /** From step a to step e the master made n whole polls, looking at every old worker, and each saw a live one. */
  ghost predicate Polls(s: Sys, steps: seq<Step>, olds: seq<int>, a: nat, e: nat, n: nat)
    requires MayRun(s, steps)
    decreases n
  {
    if n == 0 then e == a
    else exists d: nat | d < e ::
      Polls(s, steps, olds, a, d, n - 1) && WholePoll(steps, |olds|, d, e) && SawAlive(s, steps, olds, d, e)
  }

  /** Step f ends the polling that step a started: after thirty polls, or after a poll that saw nobody alive. */
  ghost predicate Over(s: Sys, steps: seq<Step>, olds: seq<int>, a: nat, f: nat)
    requires MayRun(s, steps)
  {
    exists e: nat, n: nat | e < f && n <= 30 ::
      && Polls(s, steps, olds, a, e, n) && WholePoll(steps, if n == 30 then 0 else |olds|, e, f)
      && (n == 30 || !SawAlive(s, steps, olds, e, f))
  }

  predicate NoNewStart(steps: seq<Step>, a: nat, b: nat) {
    forall i | a < i < b && i < |steps| :: steps[i] != StartPolling
  }

  // ----- What the master's variables say about the steps -----

  /** The old table still says who the old workers are, except that those waited for are struck out. */
  ghost predicate FormerIs(t: Sys, olds: seq<int>) {
    && |t.former| == |olds|
    && forall k | 0 <= k < |olds| :: t.former[k] == olds[k] || (t.former[k] == REAPED && IsGone(t, olds[k]))
  }

  /** n polls are over, the last at step e, and the master is in the next one before step i. */
  ghost predicate InPoll(s: Sys, steps: seq<Step>, olds: seq<int>, a: nat, i: nat, e: nat, n: nat)
    requires MayRun(s, steps) && i <= |steps|
  {
    var t := At(s, steps, i);
    && t.pc.Polling? && e < i && n + t.pc.left == 30 && t.pc.next <= |olds|
    && (t.pc.left == 0 ==> t.pc.next == t.pc.alive == 0)
    && Polls(s, steps, olds, a, e, n) && OnlyLooks(steps, e + 1, i) && Looks(steps, e + 1, i) == t.pc.next
    && (t.pc.alive > 0 <==> SawAlive(s, steps, olds, e, i))
  }

  ghost predicate Tracked(s: Sys, steps: seq<Step>, a: nat, i: nat)
    requires MayRun(s, steps) && a < i <= |steps|
  {
    var t, olds := At(s, steps, i), At(s, steps, a).former;
    && (t.pc.Polling? ==> FormerIs(t, olds) && exists e: nat, n: nat :: InPoll(s, steps, olds, a, i, e, n))
    && (t.pc.Killing? ==> FormerIs(t, olds) && exists f: nat | f < i :: Over(s, steps, olds, a, f))
  }

  lemma SeenSoFar(s: Sys, steps: seq<Step>, olds: seq<int>, d: nat, i: nat)
    requires MayRun(s, steps) && d < i < |steps|
    ensures SawAlive(s, steps, olds, d, i + 1) <==> SawAlive(s, steps, olds, d, i) || Sees(s, steps, olds, d, i)
  {
    hide Sees;
  }

  lemma LooksOneMore(steps: seq<Step>, from: nat, i: nat)
    requires from <= i < |steps|
    ensures Looks(steps, from, i + 1) == Looks(steps, from, i) + if steps[i] == PollOne then 1 else 0
    ensures OnlyLooks(steps, from, i + 1) <==>
      OnlyLooks(steps, from, i) && (OfRestart(steps[i]) ==> steps[i] == PollOne)
  {
    hide OfRestart;
  }

  lemma FormerStays(t: Sys, step: Step, olds: seq<int>)
    requires Enabled(t, step) && FormerIs(t, olds) && (t.pc.Polling? || t.pc.Killing?)
    ensures Next(t, step).pc.Polling? || Next(t, step).pc.Killing? ==> FormerIs(Next(t, step), olds)
  {
    hide Enabled, Next;
    forall k | 0 <= k < |olds| && IsGone(t, olds[k]) ensures IsGone(Next(t, step), olds[k]) {
      StillGone(t, step, olds[k]);
    }
    if Next(t, step).pc.Polling? || Next(t, step).pc.Killing? {
      OneFormer(t, step);
    }
  }

  lemma OneFormer(t: Sys, step: Step)
    requires Enabled(t, step) && (t.pc.Polling? || t.pc.Killing?)
    requires Next(t, step).pc.Polling? || Next(t, step).pc.Killing?
    ensures var u := Next(t, step);
      && |u.former| == |t.former|
      && forall k | 0 <= k < |t.former| ::
        u.former[k] == t.former[k] || (u.former[k] == REAPED && IsGone(u, t.former[k]))
  {
  }

  // ----- One step on -----

  lemma PollingSteps(t: Sys, step: Step)
    requires Enabled(t, step) && t.pc.Polling?
    ensures OfRestart(step) ==> step == PollOne || step == PollEnds
    ensures !OfRestart(step) ==> Next(t, step).pc == t.pc && Next(t, step).former == t.former
    ensures step == PollOne ==> t.pc.left > 0 && t.pc.next < |t.former|
    ensures step == PollEnds ==> t.pc.left == 0 || t.pc.next >= |t.former|
  {
  }

  lemma KillingSteps(t: Sys, step: Step)
    requires Enabled(t, step)
    ensures Next(t, step).pc.Killing? ==> t.pc.Killing? || (t.pc.Polling? && step == PollEnds)
    ensures Next(t, step).pc.Polling? ==> t.pc.Polling? || step == StartPolling
  {
  }

  lemma OtherStep(s: Sys, steps: seq<Step>, olds: seq<int>, a: nat, i: nat, e: nat, n: nat)
    requires MayRun(s, steps) && i < |steps| && InPoll(s, steps, olds, a, i, e, n) && !OfRestart(steps[i])
    ensures InPoll(s, steps, olds, a, i + 1, e, n)
  {
    hide Enabled, Next, Polls, At, SawAlive, OfRestart, Looks, OnlyLooks;
    AtNext(s, steps, i);
    PollingSteps(At(s, steps, i), steps[i]);
    LooksOneMore(steps, e + 1, i);
    NotALook(s, steps, olds, e, i);
    SeenSoFar(s, steps, olds, e, i);
  }

  lemma NotALook(s: Sys, steps: seq<Step>, olds: seq<int>, d: nat, i: nat)
    requires MayRun(s, steps) && d < i < |steps| && !OfRestart(steps[i])
    ensures steps[i] != PollOne && !Sees(s, steps, olds, d, i)
  {
  }

  lemma LookStep(s: Sys, steps: seq<Step>, olds: seq<int>, a: nat, i: nat, e: nat, n: nat)
    requires MayRun(s, steps) && i < |steps| && InPoll(s, steps, olds, a, i, e, n) && steps[i] == PollOne
    requires FormerIs(At(s, steps, i), olds)
    ensures InPoll(s, steps, olds, a, i + 1, e, n)
  {
    hide Enabled, Polls, At, SawAlive, Looks, OnlyLooks;
    AtNext(s, steps, i);
    PollingSteps(At(s, steps, i), steps[i]);
    LooksOneMore(steps, e + 1, i);
    SeenSoFar(s, steps, olds, e, i);
  }

  lemma NothingSeenYet(s: Sys, steps: seq<Step>, olds: seq<int>, i: nat)
    requires MayRun(s, steps) && i < |steps|
    ensures !SawAlive(s, steps, olds, i, i + 1)
    ensures OnlyLooks(steps, i + 1, i + 1) && Looks(steps, i + 1, i + 1) == 0
  {
  }

  /** The step that ends a poll: another one follows if there is one left and somebody was alive. */
  lemma PollEndsStep(s: Sys, steps: seq<Step>, olds: seq<int>, a: nat, i: nat, e: nat, n: nat)
    requires MayRun(s, steps) && i < |steps| && InPoll(s, steps, olds, a, i, e, n) && steps[i] == PollEnds
    requires FormerIs(At(s, steps, i), olds)
    ensures n <= 30 && WholePoll(steps, if n == 30 then 0 else |olds|, e, i)
    ensures n < 30 && SawAlive(s, steps, olds, e, i) ==> InPoll(s, steps, olds, a, i + 1, i, n + 1)
    ensures n == 30 || !SawAlive(s, steps, olds, e, i) ==>
      At(s, steps, i + 1).pc.Killing? && Over(s, steps, olds, a, i)
  {
    hide Enabled, At, SawAlive, Looks, OnlyLooks, OfRestart;
    AtNext(s, steps, i);
    PollingSteps(At(s, steps, i), steps[i]);
    NothingSeenYet(s, steps, olds, i);
  }

  lemma FirstPoll(s: Sys, steps: seq<Step>, a: nat)
    requires MayRun(s, steps) && a < |steps| && steps[a] == StartPolling
    ensures Tracked(s, steps, a, a + 1)
  {
    hide Enabled, At, OnlyLooks, SawAlive;
    var olds := At(s, steps, a).former;
    AtNext(s, steps, a);
    NothingSeenYet(s, steps, olds, a);
    assert Polls(s, steps, olds, a, a, 0);
    StartsWith(At(s, steps, a));
    assert InPoll(s, steps, olds, a, a + 1, a, 0);
  }

  lemma StartsWith(t: Sys)
    requires Enabled(t, StartPolling)
    ensures Next(t, StartPolling).pc == Polling(30, 0, 0) && Next(t, StartPolling).former == t.former
  {
  }

  lemma TrackedOn(s: Sys, steps: seq<Step>, a: nat, i: nat)
    requires MayRun(s, steps) && a < i < |steps| && Tracked(s, steps, a, i) && steps[i] != StartPolling
    ensures Tracked(s, steps, a, i + 1)
  {
    hide Enabled, Next, At, Over, InPoll, FormerIs, SawAlive, OfRestart;
    var t, u, olds := At(s, steps, i), At(s, steps, i + 1), At(s, steps, a).former;
    AtNext(s, steps, i);
    KillingSteps(t, steps[i]);
    if t.pc.Polling? {
      var e: nat, n: nat :| InPoll(s, steps, olds, a, i, e, n);
      FormerStays(t, steps[i], olds);
      PollingSteps(t, steps[i]);
      if !OfRestart(steps[i]) {
        OtherStep(s, steps, olds, a, i, e, n);
        PollingIf(s, steps, olds, a, i + 1, e, n);
      } else if steps[i] == PollOne {
        LookStep(s, steps, olds, a, i, e, n);
        PollingIf(s, steps, olds, a, i + 1, e, n);
      } else {
        PollEndsStep(s, steps, olds, a, i, e, n);
        if n < 30 && SawAlive(s, steps, olds, e, i) {
          PollingIf(s, steps, olds, a, i + 1, i, n + 1);
        }
      }
    } else if t.pc.Killing? {
      FormerStays(t, steps[i], olds);
    }
  }

  lemma PollingIf(s: Sys, steps: seq<Step>, olds: seq<int>, a: nat, i: nat, e: nat, n: nat)
    requires MayRun(s, steps) && i <= |steps| && InPoll(s, steps, olds, a, i, e, n)
    ensures At(s, steps, i).pc.Polling?
  {
    hide At;
  }

  lemma {:induction false} Track(s: Sys, steps: seq<Step>, a: nat, i: nat)
    requires MayRun(s, steps) && a < i <= |steps| && steps[a] == StartPolling && NoNewStart(steps, a, i)
    ensures Tracked(s, steps, a, i)
    decreases i
  {
    hide At, Tracked;
    if i == a + 1 {
      FirstPoll(s, steps, a);
    } else {
      Track(s, steps, a, i - 1);
      TrackedOn(s, steps, a, i - 1);
    }
  }

  // ----- The theorems -----

  /** The k-th look of a whole poll is one of its steps. */
  lemma {:induction false} LookAt(steps: seq<Step>, from: nat, till: nat, k: nat) returns (i: nat)
    requires from <= till <= |steps| && k < Looks(steps, from, till)
    ensures from <= i < till && steps[i] == PollOne && Looks(steps, from, i) == k
    decreases till
  {
    if steps[till - 1] == PollOne && Looks(steps, from, till - 1) == k {
      i := till - 1;
    } else {
      i := LookAt(steps, from, till - 1, k);
    }
  }

  /** A whole poll that saw nobody: every old worker is gone by its end. */
  lemma NobodyLeft(s: Sys, steps: seq<Step>, olds: seq<int>, d: nat, e: nat, k: nat)
    requires MayRun(s, steps) && WholePoll(steps, |olds|, d, e) && !SawAlive(s, steps, olds, d, e) && k < |olds|
    ensures olds[k] == REAPED || IsGone(At(s, steps, e), olds[k])
  {
    hide At, OnlyLooks, Looks, IsGone;
    var i := LookAt(steps, d + 1, e, k);
    assert !Sees(s, steps, olds, d, i);
    if olds[k] != REAPED {
      GoneFrom(s, steps, i, e, olds[k]);
    }
  }

  ghost predicate AllGone(t: Sys, olds: seq<int>) {
    forall k | 0 <= k < |olds| :: olds[k] == REAPED || IsGone(t, olds[k])
  }

  /**
   A poll behind at most thirty others, of which each saw a live old worker, is the last one if and only if thirty are
   over or it saw none; and if it saw none, every old worker is gone.
   */
  lemma PollingGoesOnIff(s: Sys, steps: seq<Step>, a: nat, f: nat)
    requires MayRun(s, steps) && a < f < |steps| && steps[a] == StartPolling && NoNewStart(steps, a, f)
    requires steps[f] == PollEnds
    ensures var olds := At(s, steps, a).former;
      exists e: nat, n: nat | e < f && n <= 30 ::
        && Polls(s, steps, olds, a, e, n) && WholePoll(steps, if n == 30 then 0 else |olds|, e, f)
        && (At(s, steps, f + 1).pc.Polling? <==> n < 30 && SawAlive(s, steps, olds, e, f))
        && (n < 30 && !SawAlive(s, steps, olds, e, f) ==> AllGone(At(s, steps, f), olds))
  {
    hide Enabled, Next, At, FormerIs, SawAlive, WholePoll, InPoll, AllGone;
    var olds := At(s, steps, a).former;
    Track(s, steps, a, f);
    AtNext(s, steps, f);
    EndsAPoll(At(s, steps, f));
    var e: nat, n: nat :| InPoll(s, steps, olds, a, f, e, n);
    PollEndsStep(s, steps, olds, a, f, e, n);
    if n < 30 && SawAlive(s, steps, olds, e, f) {
      PollingIf(s, steps, olds, a, f + 1, f, n + 1);
    }
    if n < 30 && !SawAlive(s, steps, olds, e, f) {
      AllGoneAfter(s, steps, olds, e, f);
    }
    PollsSoFar(s, steps, olds, a, f, e, n);
  }

  lemma EndsAPoll(t: Sys)
    requires Enabled(t, PollEnds)
    ensures t.pc.Polling?
  {
  }

  lemma PollsSoFar(s: Sys, steps: seq<Step>, olds: seq<int>, a: nat, i: nat, e: nat, n: nat)
    requires MayRun(s, steps) && i <= |steps| && InPoll(s, steps, olds, a, i, e, n)
    ensures Polls(s, steps, olds, a, e, n) && e < i
  {
    hide At;
  }

  lemma AllGoneAfter(s: Sys, steps: seq<Step>, olds: seq<int>, d: nat, e: nat)
    requires MayRun(s, steps) && WholePoll(steps, |olds|, d, e) && !SawAlive(s, steps, olds, d, e)
    ensures AllGone(At(s, steps, e), olds)
  {
    hide At, OnlyLooks, Looks, SawAlive, IsGone;
    forall k | 0 <= k < |olds| ensures olds[k] == REAPED || IsGone(At(s, steps, e), olds[k]) {
      NobodyLeft(s, steps, olds, d, e, k);
    }
  }

  /** The step ends worker w, which was live. */
  ghost predicate Kills(s: Sys, steps: seq<Step>, b: nat, w: nat)
    requires MayRun(s, steps)
  {
    && b < |steps| && steps[b] == KillOne
    && w < |At(s, steps, b).procs| && !IsGone(At(s, steps, b), w) && IsGone(At(s, steps, b + 1), w)
  }

  /** Before step b there were thirty whole polls since the polling started. */
  ghost predicate ThirtyPolls(s: Sys, steps: seq<Step>, b: nat)
    requires MayRun(s, steps)
  {
    exists a: nat, e: nat | a <= e < b <= |steps| ::
      && steps[a] == StartPolling && NoNewStart(steps, a, b)
      && Polls(s, steps, At(s, steps, a).former, a, e, 30)
  }

  /**
   The master kills a live worker only after thirty whole polls: since it started polling it has looked thirty times at
   every old worker, and each time at least one of them was alive.
   */
  lemma KillsAfterThirtyPolls(s: Sys, steps: seq<Step>, a: nat, b: nat, w: nat)
    requires MayRun(s, steps) && a < b && Kills(s, steps, b, w)
    requires steps[a] == StartPolling && NoNewStart(steps, a, b)
    ensures exists e: nat | a <= e < b :: Polls(s, steps, At(s, steps, a).former, a, e, 30)
  {
    hide Enabled, Next, At, FormerIs, Over, InPoll, Polls, NoNewStart, AllGone, IsGone;
    var t, olds := At(s, steps, b), At(s, steps, a).former;
    AtNext(s, steps, b);
    Track(s, steps, a, b);
    KillHits(t, w);
    var f: nat :| f < b && Over(s, steps, olds, a, f);
    OverMeans(s, steps, olds, a, f, b);
    if AllGone(t, olds) {
      HitIsGone(t, olds, w);
      assert false;
    }
    var e: nat :| e < b && Polls(s, steps, olds, a, e, 30);
    PollsForward(s, steps, olds, a, e, 30);
  }

  lemma {:induction false} PollsForward(s: Sys, steps: seq<Step>, olds: seq<int>, a: nat, e: nat, n: nat)
    requires MayRun(s, steps) && Polls(s, steps, olds, a, e, n)
    ensures a <= e
    decreases n
  {
    hide At, SawAlive, WholePoll;
    if n > 0 {
      var d: nat :| d < e && Polls(s, steps, olds, a, d, n - 1);
      PollsForward(s, steps, olds, a, d, n - 1);
    }
  }

  lemma KillHits(t: Sys, w: nat)
    requires Enabled(t, KillOne) && w < |t.procs| && !IsGone(t, w) && IsGone(Next(t, KillOne), w)
    ensures t.pc.Killing? && t.pc.next < |t.former| && t.former[t.pc.next] == w
  {
  }

  lemma HitIsGone(t: Sys, olds: seq<int>, w: nat)
    requires AllGone(t, olds) && FormerIs(t, olds) && t.pc.Killing? && t.pc.next < |t.former|
    requires t.former[t.pc.next] == w
    ensures IsGone(t, w)
  {
    assert olds[t.pc.next] == REAPED || IsGone(t, olds[t.pc.next]);
  }

  lemma OverMeans(s: Sys, steps: seq<Step>, olds: seq<int>, a: nat, f: nat, b: nat)
    requires MayRun(s, steps) && Over(s, steps, olds, a, f) && f < b <= |steps|
    ensures (exists e: nat | e < b :: Polls(s, steps, olds, a, e, 30)) || AllGone(At(s, steps, b), olds)
  {
    hide At, SawAlive, OnlyLooks, Looks, Polls, IsGone;
    var e: nat, n: nat :| e < f && n <= 30 && Polls(s, steps, olds, a, e, n)
      && WholePoll(steps, if n == 30 then 0 else |olds|, e, f) && (n == 30 || !SawAlive(s, steps, olds, e, f));
    if n == 30 {
      assert Polls(s, steps, olds, a, e, 30);
    } else {
      AllGoneAfter(s, steps, olds, e, f);
      forall k | 0 <= k < |olds| ensures olds[k] == REAPED || IsGone(At(s, steps, b), olds[k]) {
        if olds[k] != REAPED {
          GoneFrom(s, steps, f, b, olds[k]);
        }
      }
      assert AllGone(At(s, steps, b), olds);
    }
  }

  /** Whoever is polling or killing has started to. */
  lemma {:induction false} LastStart(s: Sys, steps: seq<Step>, k: nat) returns (a: nat)
    requires MayRun(s, steps) && k <= |steps| && !s.pc.Polling? && !s.pc.Killing?
    requires At(s, steps, k).pc.Polling? || At(s, steps, k).pc.Killing?
    ensures a < k && steps[a] == StartPolling && NoNewStart(steps, a, k)
    decreases k
  {
    hide Enabled, Next;
    if k == 0 {
      assert false;
    } else {
      AtNext(s, steps, k - 1);
      KillingSteps(At(s, steps, k - 1), steps[k - 1]);
      if steps[k - 1] == StartPolling {
        a := k - 1;
      } else {
        a := LastStart(s, steps, k - 1);
      }
    }
  }

  lemma KillNeedsThirtyPolls(s: Sys, steps: seq<Step>, b: nat, w: nat)
    requires MayRun(s, steps) && Kills(s, steps, b, w) && !s.pc.Polling? && !s.pc.Killing?
    ensures ThirtyPolls(s, steps, b)
  {
    hide Enabled, Next, At, Polls, NoNewStart, IsGone;
    AtNext(s, steps, b);
    KillHits(At(s, steps, b), w);
    var a := LastStart(s, steps, b);
    KillsAfterThirtyPolls(s, steps, a, b, w);
    var e: nat :| a <= e < b && Polls(s, steps, At(s, steps, a).former, a, e, 30);
  }
}
