/** How far one bounded run gets, and how many runs a capture takes. */
module CaptureRuns {
  import opened Basics
  import opened CaptureProtocol
  import opened CaptureSafety

  /** From an idle process: the run begins with a bound of k new tasks, is not killed, and ends. */
  ghost predicate BoundedRun(env: Env, s: State, actions: seq<Action>, k: nat) {
    && s.proc.Idle? && actions != [] && actions[0].Begin? && actions[0].max == Some(k)
    && Next(env, s, actions[0]).proc.Started?
    && (forall i :: 1 <= i < |actions| ==> !actions[i].Begin? && !actions[i].Crash?)
    && Run(env, s, actions).proc.Idle?
  }

  /** The run's progress: it has read `newTasks` tasks beyond the r receipts it started with. */
  ghost predicate Progress(s: State, r: nat, k: nat) {
    match s.proc
    case Idle => Outcome(s.disk, r, k)
    case Started(_, max, _) => max == Some(k) && |s.disk.receipts| == r
    case Bound(_, max) => max == Some(k) && |s.disk.receipts| == r
    case CommentsAside(_, max) => max == Some(k) && |s.disk.receipts| == r
    case Working(run) => RunProgress(s.disk, run, r, k)
    case Pending(run, _, _) => RunProgress(s.disk, run, r, k) && run.newTasks < k
    case Checked(run, _) => RunProgress(s.disk, run, r, k) && run.newTasks < k
    case Renamed(run, _) => RunProgress(s.disk, run, r, k) && run.newTasks < k
    case Finalizing(run, _, _) => RunProgress(s.disk, run, r, k)
    case Exported(run, _, _) => RunProgress(s.disk, run, r, k)
    case Qualified(run, _) => RunProgress(s.disk, run, r, k)
    case CommentsPublished(run, _) => RunProgress(s.disk, run, r, k)
    case Ending(status) => StatusOutcome(s.disk, status, r, k)
    case Recorded(status) => StatusOutcome(s.disk, status, r, k)
  }

  ghost predicate RunProgress(disk: Disk, run: RunState, r: nat, k: nat) {
    run.max == Some(k) && run.newTasks <= k && |disk.receipts| == r + run.newTasks
  }

  ghost predicate StatusOutcome(disk: Disk, status: Status, r: nat, k: nat) {
    match status
    case Captured => disk.checkpoint.Some? && r <= |disk.receipts| == |disk.checkpoint.value.tasks| <= r + k
    case Checkpointed => disk.checkpoint.Some? && |disk.receipts| == r + k < |disk.checkpoint.value.tasks|
    case Refused => r <= |disk.receipts| <= r + k
  }

  ghost predicate Outcome(disk: Disk, r: nat, k: nat) {
    disk.result.Some? && StatusOutcome(disk, disk.result.value, r, k)
  }

  lemma WorkProgress(env: Env, s: State, a: Action, r: nat, k: nat)
    requires Inv(env, s) && Progress(s, r, k) && s.proc.Working?
    ensures Progress(Advance(env, s, a), r, k)
  {
    assert Advance(env, s, a) == WorkStep(env, s, a);
    FirstWithoutReceipt(s.disk, s.proc.run);
    WorkStepProgress(env, s, a, r, k);
  }

  lemma WorkStepProgress(env: Env, s: State, a: Action, r: nat, k: nat)
    requires s.proc.Working? && RunProgress(s.disk, s.proc.run, r, k)
    requires s.disk.checkpoint == Some(s.proc.run.cp) && |s.disk.receipts| <= |s.proc.run.cp.tasks|
    requires |s.proc.run.complete| !in s.disk.receipts ==> |s.proc.run.complete| == |s.disk.receipts|
    ensures Progress(WorkStep(env, s, a), r, k)
  {
  }

  lemma WriteReceiptProgress(env: Env, s: State, a: Action, r: nat, k: nat)
    requires Inv(env, s) && Progress(s, r, k) && s.proc.Renamed?
    ensures Progress(Advance(env, s, a), r, k)
  {
    assert |s.disk.receipts| !in s.disk.receipts;
  }

  lemma TaskProgress(env: Env, s: State, a: Action, r: nat, k: nat)
    requires Inv(env, s) && Progress(s, r, k) && (s.proc.Pending? || s.proc.Checked?)
    ensures Progress(Advance(env, s, a), r, k)
  {
  }

  lemma FinalProgress(env: Env, s: State, a: Action, r: nat, k: nat)
    requires Inv(env, s) && Progress(s, r, k)
    requires s.proc.Finalizing? || s.proc.Exported? || s.proc.Qualified?
    ensures Progress(Advance(env, s, a), r, k)
  {
  }

  lemma LastProgress(env: Env, s: State, a: Action, r: nat, k: nat)
    requires Inv(env, s) && Progress(s, r, k) && s.proc.CommentsPublished?
    ensures Progress(Advance(env, s, a), r, k)
  {
    FirstWithoutReceipt(s.disk, s.proc.run);
  }

  lemma EdgeProgress(env: Env, s: State, a: Action, r: nat, k: nat)
    requires Inv(env, s) && Progress(s, r, k) && !a.Begin?
    requires s.proc.Idle? || s.proc.Started? || s.proc.Bound? || s.proc.CommentsAside? || s.proc.Ending? || s.proc.Recorded?
    ensures Progress(Advance(env, s, a), r, k)
  {
  }

  lemma RefuseProgress(env: Env, s: State, r: nat, k: nat)
    requires Inv(env, s) && Progress(s, r, k)
    ensures Progress(Next(env, s, Refuse), r, k)
  {
  }

  lemma AdvanceProgress(env: Env, s: State, a: Action, r: nat, k: nat)
    requires Inv(env, s) && Progress(s, r, k) && !a.Begin?
    ensures Progress(Advance(env, s, a), r, k)
  {
    match s.proc
    case Working(_) => WorkProgress(env, s, a, r, k);
    case Renamed(_, _) => WriteReceiptProgress(env, s, a, r, k);
    case Pending(_, _, _) => TaskProgress(env, s, a, r, k);
    case Checked(_, _) => TaskProgress(env, s, a, r, k);
    case Finalizing(_, _, _) => FinalProgress(env, s, a, r, k);
    case Exported(_, _, _) => FinalProgress(env, s, a, r, k);
    case Qualified(_, _) => FinalProgress(env, s, a, r, k);
    case CommentsPublished(_, _) => LastProgress(env, s, a, r, k);
    case _ => EdgeProgress(env, s, a, r, k);
  }

  lemma TamperProgress(env: Env, s: State, a: Action, r: nat, k: nat)
    requires Progress(s, r, k) && a.Tamper?
    ensures Progress(Next(env, s, a), r, k)
  {
  }

  lemma StepProgress(env: Env, s: State, a: Action, r: nat, k: nat)
    requires Inv(env, s) && Progress(s, r, k) && !a.Begin? && !a.Crash?
    ensures Progress(Next(env, s, a), r, k)
  {
    if a.Refuse? {
      RefuseProgress(env, s, r, k);
    } else if a.Tamper? {
      TamperProgress(env, s, a, r, k);
    } else {
      AdvanceProgress(env, s, a, r, k);
    }
  }

  lemma {:induction false} RunProgresses(env: Env, s: State, actions: seq<Action>, k: nat, n: nat)
    requires Sound(env) && Inv(env, s) && BoundedRun(env, s, actions, k) && 1 <= n <= |actions|
    ensures Progress(Run(env, s, actions[..n]), |s.disk.receipts|, k)
  {
    var front := actions[..n - 1];
    assert actions[..n][..n - 1] == front;
    if n == 1 {
      assert Run(env, s, front) == s;
    } else {
      RunProgresses(env, s, actions, k, n - 1);
      RunKeepsInv(env, s, front);
      StepProgress(env, Run(env, s, front), actions[n - 1], |s.disk.receipts|, k);
    }
  }

  /** A run that is not killed and not refused adds k receipts, or as many as were missing; it captures exactly when that
      completes the frozen tasks. */
  lemma BoundedRunOutcome(env: Env, s: State, actions: seq<Action>, k: nat)
    requires Sound(env) && Inv(env, s) && BoundedRun(env, s, actions, k)
    requires Run(env, s, actions).disk.result != Some(Refused)
    ensures var after := Run(env, s, actions).disk;
      && after.checkpoint.Some? && after.result.Some?
      && |after.receipts| == Min(|s.disk.receipts| + k, |after.checkpoint.value.tasks|)
      && (after.result == Some(Captured) <==> |s.disk.receipts| + k >= |after.checkpoint.value.tasks|)
  {
    RunProgresses(env, s, actions, k, |actions|);
    assert actions[..|actions|] == actions;
    ProgressAtIdle(Run(env, s, actions), |s.disk.receipts|, k);
  }

  lemma ProgressAtIdle(s: State, r: nat, k: nat)
    requires s.proc.Idle? && Progress(s, r, k) && s.disk.result != Some(Refused)
    ensures s.disk.checkpoint.Some? && s.disk.result.Some?
    ensures |s.disk.receipts| == Min(r + k, |s.disk.checkpoint.value.tasks|)
    ensures s.disk.result == Some(Captured) <==> r + k >= |s.disk.checkpoint.value.tasks|
  {
  }

  /** States between successive bounded runs, from an absent directory on; none was killed or refused. */
  ghost predicate RunChain(env: Env, states: seq<State>, runs: seq<seq<Action>>, k: nat) {
    && |states| == |runs| + 1 && states[0] == START
    && forall i :: 0 <= i < |runs| ==> ChainLink(env, states[i], runs[i], states[i + 1], k)
  }

  ghost predicate ChainLink(env: Env, before: State, actions: seq<Action>, after: State, k: nat) {
    BoundedRun(env, before, actions, k) && after == Run(env, before, actions) && after.disk.result != Some(Refused)
  }

  /** `read` tasks were allowed so far. */
  ghost predicate ChainCount(disk: Disk, read: nat) {
    && disk.checkpoint.Some? && |disk.receipts| == Min(read, |disk.checkpoint.value.tasks|)
    && (disk.result == Some(Captured) <==> read >= |disk.checkpoint.value.tasks|)
  }

  lemma OneMoreRun(env: Env, before: State, actions: seq<Action>, after: State, k: nat, read: nat)
    requires Sound(env) && Inv(env, before) && ChainLink(env, before, actions, after, k)
    requires if read == 0 then before.disk.receipts == map[] else ChainCount(before.disk, read)
    ensures Inv(env, after) && ChainCount(after.disk, read + k)
  {
    RunKeepsInv(env, before, actions);
    RunExtends(env, before, actions);
    BoundedRunOutcome(env, before, actions, k);
  }

  lemma {:induction false} ChainCounts(env: Env, states: seq<State>, runs: seq<seq<Action>>, k: nat, j: nat)
    requires Sound(env) && RunChain(env, states, runs, k) && j <= |runs| && k > 0
    ensures Inv(env, states[j])
    ensures j == 0 ==> states[j] == START
    ensures j > 0 ==> ChainCount(states[j].disk, j * k)
  {
    if j > 0 {
      ChainCounts(env, states, runs, k, j - 1);
      assert (j - 1) * k + k == j * k && ((j - 1) * k == 0 <==> j == 1);
      OneMoreRun(env, states[j - 1], runs[j - 1], states[j], k, (j - 1) * k);
    } else {
      StartFits(env);
    }
  }

  function CeilDiv(n: nat, k: nat): nat
    requires k > 0
  {
    (n + k - 1) / k
  }

  lemma CeilDivIsLeast(n: nat, k: nat, j: nat)
    requires k > 0
    ensures j * k >= n <==> j >= CeilDiv(n, k)
  {
    var c := CeilDiv(n, k);
    if j >= c {
      assert j * k >= c * k;
    } else {
      assert j * k <= (c - 1) * k;
    }
  }

  /** Runs bounded by k new tasks capture n frozen tasks in exactly max(1, ceil(n / k)) runs: an empty plan still takes
      one run, and once captured no further run begins. */
  lemma CaptureTakesCeilRuns(env: Env, states: seq<State>, runs: seq<seq<Action>>, k: nat)
    requires Sound(env) && k > 0 && RunChain(env, states, runs, k) && |runs| > 0
    ensures states[|runs|].disk.checkpoint.Some?
    ensures var needed := Max(1, CeilDiv(|states[|runs|].disk.checkpoint.value.tasks|, k));
      |runs| <= needed && (states[|runs|].disk.result == Some(Captured) <==> |runs| == needed)
  {
    var last := |runs|;
    ChainCounts(env, states, runs, k, last);
    var n := |states[last].disk.checkpoint.value.tasks|;
    CeilDivIsLeast(n, k, last);
    if last > 1 {
      ChainCounts(env, states, runs, k, last - 1);
      assert ChainLink(env, states[last - 1], runs[last - 1], states[last], k);
      RunExtends(env, states[last - 1], runs[last - 1]);
      CeilDivIsLeast(n, k, last - 1);
      assert Next(env, states[last - 1], runs[last - 1][0]).proc.Started?;
    }
  }
}
