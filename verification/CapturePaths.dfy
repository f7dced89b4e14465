/** An uninterrupted attempt is a path of the capture protocol, so everything proved of the protocol holds of the
    program; and on undamaged parts it is refused exactly when something outside obstructs it. */
module CapturePaths {
  import opened Basics
  import opened CaptureProtocol
  import opened CaptureSafety
  import opened CaptureRuns
  import opened CaptureAttempt

  /** An action of the program's own, after it has begun; it may refuse. */
  predicate Ordinary(a: Action) {
    !a.Begin? && !a.Crash? && !a.Tamper?
  }

  ghost predicate Path(env: Env, s: State, actions: seq<Action>, t: State) {
    (forall a :: a in actions ==> Ordinary(a)) && Run(env, s, actions) == t
  }

  ghost predicate Reaches(env: Env, s: State, t: State) {
    exists actions :: Path(env, s, actions, t)
  }

  lemma Stay(env: Env, s: State)
    ensures Reaches(env, s, s)
  {
    assert Path(env, s, [], s);
  }

  lemma OneStep(env: Env, s: State, a: Action)
    requires Ordinary(a)
    ensures Reaches(env, s, Next(env, s, a))
  {
    assert [a][..0] == [];
    assert Path(env, s, [a], Next(env, s, a));
  }

  lemma {:induction false} RunAppend(env: Env, s: State, a: seq<Action>, b: seq<Action>)
    ensures Run(env, s, a + b) == Run(env, Run(env, s, a), b)
  {
    if b == [] {
      assert a + b == a;
    } else {
      RunAppend(env, s, a, b[..|b| - 1]);
      assert (a + b)[..|a + b| - 1] == a + b[..|b| - 1];
    }
  }

  lemma Then(env: Env, s: State, t: State, u: State)
    requires Reaches(env, s, t) && Reaches(env, t, u)
    ensures Reaches(env, s, u)
  {
    var a :| Path(env, s, a, t);
    var b :| Path(env, t, b, u);
    RunAppend(env, s, a, b);
    assert Path(env, s, a + b, u);
  }

  /** Part names are fresh: every name in use carries an older token. */
  ghost predicate TokensBelow(disk: Disk, token: nat) {
    forall p :: p in disk.parts || p in disk.pending ==> p.token < token
  }

  // ----- one step each -----

  lemma WritesPending(env: Env, disk: Disk, run: RunState, token: nat, stored: Table)
    requires |run.complete| < |run.cp.tasks| && |run.complete| !in disk.receipts && MayRead(run) && TokensBelow(disk, token)
    ensures var part := PartName(|run.complete|, token);
      Reaches(env, State(disk, Working(run)),
              State(disk.(pending := disk.pending[part := stored]),
                    Pending(run, part, env.rowsOf(run.cp.binding, run.cp.tasks[|run.complete|]))))
  {
    OneStep(env, State(disk, Working(run)), ReadTask(token, stored));
  }

  lemma ReadsBack(env: Env, disk: Disk, run: RunState, part: PartName, streamed: Table)
    requires |run.complete| < |run.cp.tasks| && part in disk.pending
    ensures var fields := env.readback(streamed);
      Reaches(env, State(disk, Pending(run, part, streamed)),
              State(disk, if fields.None? || env.readback(disk.pending[part]) != fields then Ending(Refused)
                          else Checked(run, MakeReceipt(env, run.cp, |run.complete|, part, disk.pending[part], fields.value))))
  {
    OneStep(env, State(disk, Pending(run, part, streamed)), ReadBack);
  }

  lemma Renames(env: Env, disk: Disk, run: RunState, receipt: Receipt)
    requires receipt.part in disk.pending
    ensures Reaches(env, State(disk, Checked(run, receipt)),
                    State(disk.(parts := disk.parts[receipt.part := disk.pending[receipt.part]],
                                pending := disk.pending - {receipt.part}), Renamed(run, receipt)))
  {
    OneStep(env, State(disk, Checked(run, receipt)), Rename);
  }

  lemma WritesReceipt(env: Env, disk: Disk, run: RunState, receipt: Receipt)
    ensures Reaches(env, State(disk, Renamed(run, receipt)),
                    State(disk.(receipts := disk.receipts[|run.complete| := receipt]), Working(Added(run, receipt))))
  {
    var s := State(disk, Renamed(run, receipt));
    assert Next(env, s, WriteReceipt) == WriteReceiptStep(s, WriteReceipt);
    OneStep(env, s, WriteReceipt);
  }

  lemma Reuses(env: Env, disk: Disk, run: RunState)
    requires |run.complete| < |run.cp.tasks| && |run.complete| in disk.receipts
    ensures Reaches(env, State(disk, Working(run)),
                    State(disk, if VerifiedPart(env, disk, run.cp, |run.complete|) then Working(Reused(disk, run))
                                else Ending(Refused)))
  {
    OneStep(env, State(disk, Working(run)), Reuse);
  }

  lemma Stops(env: Env, disk: Disk, run: RunState)
    requires |run.complete| < |run.cp.tasks| && |run.complete| !in disk.receipts && !MayRead(run)
    ensures Reaches(env, State(disk, Working(run)), State(disk, Ending(Checkpointed)))
  {
    OneStep(env, State(disk, Working(run)), Stop);
  }

  lemma BeginsFinalizing(env: Env, disk: Disk, run: RunState)
    requires |run.complete| == |run.cp.tasks|
    ensures Reaches(env, State(disk, Working(run)), State(disk, Finalizing(run, 0, [])))
  {
    OneStep(env, State(disk, Working(run)), Finalize);
  }

  lemma CopiesPart(env: Env, disk: Disk, run: RunState, next: nat, written: Table)
    requires next < |run.complete|
    ensures var receipt := run.complete[next];
      Reaches(env, State(disk, Finalizing(run, next, written)),
              State(disk, if receipt.part !in disk.parts || env.readback(disk.parts[receipt.part]) != Some(receipt.fields)
                          then Ending(Refused) else Finalizing(run, next + 1, written + disk.parts[receipt.part])))
  {
    CopyOutcome(env, disk, run, next, written);
    FinalizingAdvances(env, State(disk, Finalizing(run, next, written)), CopyPart);
    OneStep(env, State(disk, Finalizing(run, next, written)), CopyPart);
  }

  lemma FinalizingAdvances(env: Env, s: State, a: Action)
    requires s.proc.Finalizing? && (a.CopyPart? || a.CloseExport?)
    ensures Next(env, s, a) == FinalizeStep(env, s, a)
  {
  }

  lemma CopyOutcome(env: Env, disk: Disk, run: RunState, next: nat, written: Table)
    requires next < |run.complete|
    ensures var receipt := run.complete[next];
      FinalizeStep(env, State(disk, Finalizing(run, next, written)), CopyPart)
      == State(disk, if receipt.part !in disk.parts || env.readback(disk.parts[receipt.part]) != Some(receipt.fields)
                     then Ending(Refused) else Finalizing(run, next + 1, written + disk.parts[receipt.part]))
  {
  }

  lemma ClosesExport(env: Env, disk: Disk, run: RunState, written: Table, stored: Table)
    ensures Reaches(env, State(disk, Finalizing(run, |run.complete|, written)), State(disk, Exported(run, written, stored)))
  {
    OneStep(env, State(disk, Finalizing(run, |run.complete|, written)), CloseExport(stored));
  }

  lemma Qualifies(env: Env, disk: Disk, run: RunState, written: Table, stored: Table)
    ensures Reaches(env, State(disk, Exported(run, written, stored)),
                    State(disk, if env.readback(stored).Some? && env.readback(stored) == env.readback(written)
                                then Qualified(run, stored) else Ending(Refused)))
  {
    OneStep(env, State(disk, Exported(run, written, stored)), Qualify);
  }

  lemma PublishesBoth(env: Env, disk: Disk, run: RunState, stored: Table)
    ensures Reaches(env, State(disk, Qualified(run, stored)),
                    State(disk.(comments := Some(stored), populations := Some(env.populations(stored))), Ending(Captured)))
  {
    var s := State(disk, Qualified(run, stored));
    var t := State(disk.(comments := Some(stored)), CommentsPublished(run, stored));
    OneStep(env, s, PublishComments);
    OneStep(env, t, PublishPopulations);
    Then(env, s, t, State(disk.(comments := Some(stored), populations := Some(env.populations(stored))), Ending(Captured)));
  }

  lemma SetsAside(env: Env, disk: Disk, cp: Checkpoint, max: Option<nat>)
    ensures Reaches(env, State(disk, Bound(cp, max)), State(SetAside(disk), Working(RunState(cp, max, [], 0))))
  {
    var s := State(disk, Bound(cp, max));
    var aside := if disk.comments.Some? then [disk.comments.value] else [];
    var t := State(disk.(comments := None, retained := disk.retained + aside), CommentsAside(cp, max));
    OneStep(env, s, SetCommentsAside);
    OneStep(env, t, SetPopulationsAside);
    Then(env, s, t, State(SetAside(disk), Working(RunState(cp, max, [], 0))));
  }

  lemma Refuses(env: Env, s: State)
    requires !s.proc.Idle? && !s.proc.Recorded?
    ensures Reaches(env, s, State(s.disk, Ending(Refused)))
  {
    OneStep(env, s, Refuse);
  }

  lemma Binds(env: Env, disk: Disk, resume: bool, max: Option<nat>, binding: string, plan: seq<Pin>, startFits: bool)
    ensures var s := State(disk, Started(resume, max, binding));
      match BoundCheckpoint(disk, resume, binding, plan, startFits)
      case None => Reaches(env, s, State(disk, Ending(Refused)))
      case Some(cp) => Reaches(env, s, State(disk.(checkpoint := Some(cp)), Bound(cp, max)))
  {
    Refuses(env, State(disk, Started(resume, max, binding)));
    OneStep(env, State(disk, Started(resume, max, binding)), Bind(plan));
    if resume && disk.checkpoint.Some? {
      assert disk.(checkpoint := Some(disk.checkpoint.value)) == disk;
    }
  }

  lemma Records(env: Env, disk: Disk, status: Status)
    ensures Reaches(env, State(disk, Ending(status)), State(disk.(result := Some(status)), Idle))
  {
    OneStep(env, State(disk, Ending(status)), RecordAttempt);
    OneStep(env, State(disk, Recorded(status)), RecordResult);
    Then(env, State(disk, Ending(status)), State(disk, Recorded(status)), State(disk.(result := Some(status)), Idle));
  }

  // ----- the loops -----

  function AfterTask(run: RunState, receipt: Option<Receipt>): Proc {
    if receipt.None? then Ending(Refused) else Working(Added(run, receipt.value))
  }

  lemma NewTaskPath(env: Env, disk: Disk, run: RunState, token: nat, world: World)
    requires |run.complete| < |run.cp.tasks| && |run.complete| !in disk.receipts && MayRead(run) && TokensBelow(disk, token)
    ensures var (after, receipt) := NewTask(env, disk, run, PartName(|run.complete|, token), world);
      Reaches(env, State(disk, Working(run)), State(after, AfterTask(run, receipt))) && TokensBelow(after, token + 1)
  {
    var part, pin := PartName(|run.complete|, token), run.cp.tasks[|run.complete|];
    if world.readable(pin) {
      StoredTaskPath(env, disk, run, token, world.writer(env.rowsOf(run.cp.binding, pin)));
    } else {
      var torn := State(disk.(pending := disk.pending[part := world.torn(pin)]),
                        Pending(run, part, env.rowsOf(run.cp.binding, pin)));
      WritesPending(env, disk, run, token, world.torn(pin));
      Refuses(env, torn);
      Then(env, State(disk, Working(run)), torn, State(torn.disk, Ending(Refused)));
    }
  }

  lemma StoredTaskPath(env: Env, disk: Disk, run: RunState, token: nat, stored: Table)
    requires |run.complete| < |run.cp.tasks| && |run.complete| !in disk.receipts && MayRead(run) && TokensBelow(disk, token)
    ensures var (after, receipt) := StoredTask(env, disk, run, PartName(|run.complete|, token), stored);
      Reaches(env, State(disk, Working(run)), State(after, AfterTask(run, receipt))) && TokensBelow(after, token + 1)
  {
    var part := PartName(|run.complete|, token);
    var streamed := env.rowsOf(run.cp.binding, run.cp.tasks[|run.complete|]);
    var start, d1 := State(disk, Working(run)), disk.(pending := disk.pending[part := stored]);
    WritesPending(env, disk, run, token, stored);
    ReadsBack(env, d1, run, part, streamed);
    var (after, receipt) := StoredTask(env, disk, run, part, stored);
    if receipt.None? {
      Then(env, start, State(d1, Pending(run, part, streamed)), State(after, Ending(Refused)));
    } else {
      AdmitPath(env, d1, run, receipt.value);
      Then(env, start, State(d1, Pending(run, part, streamed)), State(d1, Checked(run, receipt.value)));
      Then(env, start, State(d1, Checked(run, receipt.value)), State(after, Working(Added(run, receipt.value))));
    }
  }

  lemma AdmitPath(env: Env, disk: Disk, run: RunState, receipt: Receipt)
    requires receipt.part in disk.pending
    ensures Reaches(env, State(disk, Checked(run, receipt)),
                    State(disk.(parts := disk.parts[receipt.part := disk.pending[receipt.part]],
                                pending := disk.pending - {receipt.part},
                                receipts := disk.receipts[|run.complete| := receipt]), Working(Added(run, receipt))))
  {
    var d2 := disk.(parts := disk.parts[receipt.part := disk.pending[receipt.part]],
                    pending := disk.pending - {receipt.part});
    Renames(env, disk, run, receipt);
    WritesReceipt(env, d2, run, receipt);
    Then(env, State(disk, Checked(run, receipt)), State(d2, Renamed(run, receipt)),
         State(d2.(receipts := disk.receipts[|run.complete| := receipt]), Working(Added(run, receipt))));
  }

  function AfterLoop(run: RunState, stop: Option<Status>): Proc {
    if stop.Some? then Ending(stop.value) else Working(run)
  }

  lemma {:induction false} TaskLoopPath(env: Env, disk: Disk, run: RunState, token: nat, world: World)
    requires |run.complete| <= |run.cp.tasks| && TokensBelow(disk, token)
    ensures var (after, last, stop) := TaskLoop(env, disk, run, token, world);
      && Reaches(env, State(disk, Working(run)), State(after, AfterLoop(last, stop)))
      && (stop.None? ==> |last.complete| == |last.cp.tasks| && last.cp == run.cp)
    decreases |run.cp.tasks| - |run.complete|
  {
    var index := |run.complete|;
    var start := State(disk, Working(run));
    var (after, last, stop) := TaskLoop(env, disk, run, token, world);
    if index >= |run.cp.tasks| {
      Stay(env, start);
    } else if index in disk.receipts {
      Reuses(env, disk, run);
      if VerifiedPart(env, disk, run.cp, index) {
        TaskLoopPath(env, disk, Reused(disk, run), token, world);
        Then(env, start, State(disk, Working(Reused(disk, run))), State(after, AfterLoop(last, stop)));
      }
    } else if !MayRead(run) {
      Stops(env, disk, run);
      Refuses(env, start);
    } else {
      NewTaskPath(env, disk, run, token, world);
      var (next, receipt) := NewTask(env, disk, run, PartName(index, token), world);
      if receipt.Some? {
        TaskLoopPath(env, next, Added(run, receipt.value), token + 1, world);
        Then(env, start, State(next, Working(Added(run, receipt.value))), State(after, AfterLoop(last, stop)));
      }
    }
  }

  /** Where the finalizing loop leaves the process. */
  function CopyEnd(disk: Disk, run: RunState, rows: Option<Table>): State {
    State(disk, if rows.None? then Ending(Refused) else Finalizing(run, |run.complete|, rows.value))
  }

  lemma {:induction false} CopyLoopPath(env: Env, disk: Disk, run: RunState, next: nat, written: Table)
    requires next <= |run.complete|
    ensures Reaches(env, State(disk, Finalizing(run, next, written)),
                    CopyEnd(disk, run, CopyLoop(env, disk, run.complete, next, written)))
    decreases |run.complete| - next
  {
    var start := State(disk, Finalizing(run, next, written));
    if next == |run.complete| {
      Stay(env, start);
    } else {
      CopiesPart(env, disk, run, next, written);
      var receipt := run.complete[next];
      if receipt.part in disk.parts && env.readback(disk.parts[receipt.part]) == Some(receipt.fields) {
        var more := written + disk.parts[receipt.part];
        CopyLoopPath(env, disk, run, next + 1, more);
        Then(env, start, State(disk, Finalizing(run, next + 1, more)),
             CopyEnd(disk, run, CopyLoop(env, disk, run.complete, next + 1, more)));
      }
    }
  }

  lemma PublishPath(env: Env, disk: Disk, run: RunState, written: Table, stored: Table)
    ensures var (after, status) := Publish(env, disk, written, stored);
      Reaches(env, State(disk, Finalizing(run, |run.complete|, written)), State(after, Ending(status)))
  {
    var start := State(disk, Finalizing(run, |run.complete|, written));
    var exported := State(disk, Exported(run, written, stored));
    var (after, status) := Publish(env, disk, written, stored);
    ClosesExport(env, disk, run, written, stored);
    Qualifies(env, disk, run, written, stored);
    if status.Captured? {
      PublishesBoth(env, disk, run, stored);
      Then(env, exported, State(disk, Qualified(run, stored)), State(after, Ending(status)));
    }
    Then(env, start, exported, State(after, Ending(status)));
  }

  lemma WorkPath(env: Env, disk: Disk, cp: Checkpoint, max: Option<nat>, token: nat, world: World)
    requires TokensBelow(disk, token)
    ensures var (after, status) := Work(env, disk, cp, max, token, world);
      Reaches(env, State(disk, Bound(cp, max)), State(after, Ending(status)))
  {
    var start, run0 := State(disk, Bound(cp, max)), RunState(cp, max, [], 0);
    SetsAside(env, disk, cp, max);
    TaskLoopPath(env, SetAside(disk), run0, token, world);
    var (tasked, run, stop) := TaskLoop(env, SetAside(disk), run0, token, world);
    Then(env, start, State(SetAside(disk), Working(run0)), State(tasked, AfterLoop(run, stop)));
    if stop.None? {
      FinishPath(env, tasked, run, world);
      Then(env, start, State(tasked, Working(run)), Finished(env, tasked, run, world));
    }
  }

  function Finished(env: Env, disk: Disk, run: RunState, world: World): State {
    match CopyLoop(env, disk, run.complete, 0, [])
    case None => State(disk, Ending(Refused))
    case Some(written) =>
      if !world.endFits then State(disk, Ending(Refused))
      else
        var (after, status) := Publish(env, disk, written, world.writer(written));
        State(after, Ending(status))
  }

  lemma FinishPath(env: Env, disk: Disk, run: RunState, world: World)
    requires |run.complete| == |run.cp.tasks|
    ensures Reaches(env, State(disk, Working(run)), Finished(env, disk, run, world))
  {
    var start, finalizing := State(disk, Working(run)), State(disk, Finalizing(run, 0, []));
    BeginsFinalizing(env, disk, run);
    CopyLoopPath(env, disk, run, 0, []);
    match CopyLoop(env, disk, run.complete, 0, []) {
      case None =>
        Then(env, start, finalizing, State(disk, Ending(Refused)));
      case Some(written) =>
        var copied := State(disk, Finalizing(run, |run.complete|, written));
        Then(env, start, finalizing, copied);
        Refuses(env, copied);
        PublishPath(env, disk, run, written, world.writer(written));
        Then(env, start, copied, Finished(env, disk, run, world));
    }
  }

  /** The program's attempt, once it has begun, is a path of the protocol from its first action to idleness. */
  lemma AttemptPath(env: Env, disk: Disk, resume: bool, max: Option<nat>, binding: string, plan: seq<Pin>, token: nat,
                    world: World)
    requires Enters(disk, resume, max) && TokensBelow(disk, token)
    ensures var (after, status) := Attempt(env, disk, resume, max, binding, plan, token, world);
      Reaches(env, State(disk.(started := true), Started(resume, max, binding)), State(after, Idle))
  {
    var entered := disk.(started := true);
    var start := State(entered, Started(resume, max, binding));
    Binds(env, entered, resume, max, binding, plan, world.startFits);
    match BoundCheckpoint(entered, resume, binding, plan, world.startFits) {
      case None =>
        Records(env, entered, Refused);
        Then(env, start, State(entered, Ending(Refused)), State(entered.(result := Some(Refused)), Idle));
      case Some(cp) =>
        var frozen := entered.(checkpoint := Some(cp));
        WorkPath(env, frozen, cp, max, token, world);
        var (after, status) := Work(env, frozen, cp, max, token, world);
        Records(env, after, status);
        Then(env, start, State(frozen, Bound(cp, max)), State(after, Ending(status)));
        Then(env, start, State(after, Ending(status)), State(after.(result := Some(status)), Idle));
    }
  }

  // ----- an honest attempt is not refused -----

  lemma ReachesKeeps(env: Env, s: State, t: State)
    requires Sound(env) && Inv(env, s) && Intact(env, s) && Reaches(env, s, t)
    ensures Inv(env, t) && Intact(env, t)
  {
    var actions :| Path(env, s, actions, t);
    RunKeepsInv(env, s, actions);
    RunKeepsIntact(env, s, actions);
  }

  lemma {:induction false} RunKeepsIntact(env: Env, s: State, actions: seq<Action>)
    requires Sound(env) && Inv(env, s) && Intact(env, s) && forall a :: a in actions ==> !a.Tamper?
    ensures Intact(env, Run(env, s, actions))
  {
    if actions != [] {
      var front := actions[..|actions| - 1];
      RunKeepsIntact(env, s, front);
      RunKeepsInv(env, s, front);
      assert actions[|actions| - 1] in actions;
      StepKeepsIntact(env, Run(env, s, front), actions[|actions| - 1]);
    }
  }

  /** The Parquet writer stores the rows it is given. */
  ghost predicate Honest(writer: Table -> Table) {
    forall t :: writer(t) == t
  }

  lemma ReaderYieldsReadableRows(env: Env, binding: string, pin: Pin)
    requires Sound(env)
    ensures env.readback(env.rowsOf(binding, pin)).Some?
  {
  }

  /** Some task the attempt would read, from number `lo` and below the bound if there is one, fails in the reader. */
  ghost predicate SomeUnreadable(world: World, tasks: seq<Pin>, lo: nat, bound: Option<int>) {
    exists i :: lo <= i < |tasks| && (bound.None? || i < bound.value) && !world.readable(tasks[i])
  }

  /** The number of the first task the attempt may not read any more. */
  function ReadsUpTo(disk: Disk, run: RunState): Option<int> {
    if run.max.None? then None else Some(|disk.receipts| + run.max.value - run.newTasks)
  }

  /** From an undamaged state and with a writer that stores what it is given, the loop over tasks refuses exactly when a
      task it comes to cannot be read, or when it stops at the bound and the end checks fail. */
  lemma {:induction false} HonestTaskLoop(env: Env, disk: Disk, run: RunState, token: nat, world: World)
    requires Sound(env) && Honest(world.writer) && TokensBelow(disk, token)
    requires Inv(env, State(disk, Working(run))) && Intact(env, State(disk, Working(run)))
    requires run.max.Some? ==> run.newTasks <= run.max.value
    ensures LoopRefusesIff(env, disk, run, token, world)
    decreases |run.cp.tasks| - |run.complete|
  {
    var index := |run.complete|;
    FirstWithoutReceipt(disk, run);
    if index < |run.cp.tasks| {
      if index in disk.receipts {
        IntactPartReused(env, disk, run);
        HonestTaskLoop(env, disk, Reused(disk, run), token, world);
        ReuseSteps(env, disk, run, token, world);
      } else if MayRead(run) && world.readable(run.cp.tasks[index]) {
        HonestNewTask(env, disk, run, token, world);
        var (next, receipt) := NewTask(env, disk, run, PartName(index, token), world);
        HonestTaskLoop(env, next, Added(run, receipt.value), token + 1, world);
        ReadSteps(env, disk, run, token, world);
      } else {
        StopSteps(env, disk, run, token, world);
      }
    }
  }

  lemma IntactPartReused(env: Env, disk: Disk, run: RunState)
    requires Sound(env) && Inv(env, State(disk, Working(run))) && Intact(env, State(disk, Working(run)))
    requires |run.complete| < |run.cp.tasks| && |run.complete| in disk.receipts
    ensures VerifiedPart(env, disk, run.cp, |run.complete|)
    ensures Inv(env, State(disk, Working(Reused(disk, run)))) && Intact(env, State(disk, Working(Reused(disk, run))))
  {
    IntactPartVerifies(env, disk, |run.complete|);
    Reuses(env, disk, run);
    ReachesKeeps(env, State(disk, Working(run)), State(disk, Working(Reused(disk, run))));
  }

  ghost predicate LoopRefusesIff(env: Env, disk: Disk, run: RunState, token: nat, world: World) {
    var stop, bound := TaskLoop(env, disk, run, token, world).2, ReadsUpTo(disk, run);
    && (stop == Some(Refused) <==> || SomeUnreadable(world, run.cp.tasks, |disk.receipts|, bound)
                                   || (!world.endFits && bound.Some? && bound.value < |run.cp.tasks|))
    && (stop.None? ==> bound.None? || bound.value >= |run.cp.tasks|)
  }

  lemma ReuseSteps(env: Env, disk: Disk, run: RunState, token: nat, world: World)
    requires |run.complete| < |run.cp.tasks| && |run.complete| in disk.receipts
    requires VerifiedPart(env, disk, run.cp, |run.complete|)
    requires LoopRefusesIff(env, disk, Reused(disk, run), token, world)
    ensures LoopRefusesIff(env, disk, run, token, world)
  {
    assert ReadsUpTo(disk, Reused(disk, run)) == ReadsUpTo(disk, run);
  }

  lemma ReadSteps(env: Env, disk: Disk, run: RunState, token: nat, world: World)
    requires |run.complete| == |disk.receipts| < |run.cp.tasks| && |run.complete| !in disk.receipts && MayRead(run)
    requires world.readable(run.cp.tasks[|run.complete|])
    requires var (next, receipt) := NewTask(env, disk, run, PartName(|run.complete|, token), world);
      && receipt.Some? && |next.receipts| == |disk.receipts| + 1
      && LoopRefusesIff(env, next, Added(run, receipt.value), token + 1, world)
    ensures LoopRefusesIff(env, disk, run, token, world)
  {
    var (next, receipt) := NewTask(env, disk, run, PartName(|run.complete|, token), world);
    assert ReadsUpTo(next, Added(run, receipt.value)) == ReadsUpTo(disk, run);
    ReadTaskLeavesRest(world, run.cp.tasks, |run.complete|, ReadsUpTo(disk, run));
  }

  /** The loop stops at its bound, or at a task it cannot read. */
  lemma StopSteps(env: Env, disk: Disk, run: RunState, token: nat, world: World)
    requires |run.complete| == |disk.receipts| < |run.cp.tasks| && |run.complete| !in disk.receipts
    requires run.max.Some? ==> run.newTasks <= run.max.value
    requires !MayRead(run) || !world.readable(run.cp.tasks[|run.complete|])
    ensures LoopRefusesIff(env, disk, run, token, world)
  {
    if MayRead(run) {
      assert SomeUnreadable(world, run.cp.tasks, |disk.receipts|, ReadsUpTo(disk, run));
    }
  }

  lemma ReadTaskLeavesRest(world: World, tasks: seq<Pin>, lo: nat, bound: Option<int>)
    requires lo < |tasks| && world.readable(tasks[lo])
    ensures SomeUnreadable(world, tasks, lo, bound) <==> SomeUnreadable(world, tasks, lo + 1, bound)
  {
    if SomeUnreadable(world, tasks, lo, bound) {
      var i :| lo <= i < |tasks| && (bound.None? || i < bound.value) && !world.readable(tasks[i]);
      assert lo + 1 <= i;
    }
  }

  lemma HonestNewTask(env: Env, disk: Disk, run: RunState, token: nat, world: World)
    requires Sound(env) && Honest(world.writer) && TokensBelow(disk, token)
    requires Inv(env, State(disk, Working(run))) && Intact(env, State(disk, Working(run)))
    requires |run.complete| < |run.cp.tasks| && |run.complete| !in disk.receipts && MayRead(run)
    requires world.readable(run.cp.tasks[|run.complete|])
    ensures var (next, receipt) := NewTask(env, disk, run, PartName(|run.complete|, token), world);
      && receipt.Some? && TokensBelow(next, token + 1) && |next.receipts| == |disk.receipts| + 1
      && Inv(env, State(next, Working(Added(run, receipt.value)))) && Intact(env, State(next, Working(Added(run, receipt.value))))
  {
    ReaderYieldsReadableRows(env, run.cp.binding, run.cp.tasks[|run.complete|]);
    NewTaskPath(env, disk, run, token, world);
    var (next, receipt) := NewTask(env, disk, run, PartName(|run.complete|, token), world);
    ReachesKeeps(env, State(disk, Working(run)), State(next, Working(Added(run, receipt.value))));
  }

  lemma IntactPartCopies(env: Env, disk: Disk, run: RunState, next: nat)
    requires Inv(env, State(disk, Working(run))) && PartsIntact(env, disk) && next < |run.complete|
    ensures run.complete[next].part in disk.parts
    ensures disk.parts[run.complete[next].part] == env.rowsOf(run.cp.binding, run.cp.tasks[next])
    ensures env.readback(disk.parts[run.complete[next].part]) == Some(run.complete[next].fields)
  {
    var receipt := disk.receipts[next];
    assert ReceiptFits(env, run.cp, next, receipt) && PartHolds(env, disk, run.cp, receipt);
  }

  /** From intact parts, the finalizing loop writes the frozen tasks' rows in order. */
  lemma {:induction false} HonestCopyLoop(env: Env, disk: Disk, run: RunState, next: nat, written: Table)
    requires Inv(env, State(disk, Working(run))) && PartsIntact(env, disk) && next <= |run.complete| == |run.cp.tasks|
    requires written == Concatenated(env, run.cp.binding, run.cp.tasks[..next])
    ensures CopyLoop(env, disk, run.complete, next, written) == Some(Complete(env, run.cp))
    decreases |run.complete| - next
  {
    if next < |run.complete| {
      IntactPartCopies(env, disk, run, next);
      ConcatenatedSnoc(env, run.cp.binding, run.cp.tasks, next);
      HonestCopyLoop(env, disk, run, next + 1, written + disk.parts[run.complete[next].part]);
    } else {
      assert run.cp.tasks[..next] == run.cp.tasks;
    }
  }

  lemma HonestFinish(env: Env, disk: Disk, run: RunState, world: World)
    requires Sound(env) && Honest(world.writer) && |run.complete| == |run.cp.tasks|
    requires Inv(env, State(disk, Working(run))) && Intact(env, State(disk, Working(run)))
    ensures Finished(env, disk, run, world).proc == Ending(if world.endFits then Captured else Refused)
  {
    assert run.cp.tasks[..0] == [];
    HonestCopyLoop(env, disk, run, 0, []);
    ConcatenationIsReadable(env, run.cp.binding, run.cp.tasks);
  }

  lemma {:induction false} ConcatenationIsReadable(env: Env, binding: string, tasks: seq<Pin>)
    requires Sound(env)
    ensures env.readback(Concatenated(env, binding, tasks)).Some?
  {
    if tasks != [] {
      ConcatenationIsReadable(env, binding, tasks[..|tasks| - 1]);
      ReaderYieldsReadableRows(env, binding, tasks[|tasks| - 1]);
    }
  }

  function BoundFrom(read: nat, max: Option<nat>): Option<int> {
    if max.None? then None else Some(read + max.value)
  }

  lemma WorkBegins(env: Env, disk: Disk, cp: Checkpoint, max: Option<nat>)
    requires Sound(env) && Inv(env, State(disk, Bound(cp, max))) && Intact(env, State(disk, Bound(cp, max)))
    ensures var begun := State(SetAside(disk), Working(RunState(cp, max, [], 0)));
      Inv(env, begun) && Intact(env, begun)
  {
    SetsAside(env, disk, cp, max);
    ReachesKeeps(env, State(disk, Bound(cp, max)), State(SetAside(disk), Working(RunState(cp, max, [], 0))));
  }

  /** How the status of the work follows from where the loop over tasks stopped. */
  lemma WorkStatus(env: Env, disk: Disk, cp: Checkpoint, max: Option<nat>, token: nat, world: World)
    ensures var (tasked, run, stop) := TaskLoop(env, SetAside(disk), RunState(cp, max, [], 0), token, world);
      var status := Work(env, disk, cp, max, token, world).1;
      if stop.Some? then status == stop.value else Finished(env, tasked, run, world).proc == Ending(status)
  {
  }

  lemma HonestWork(env: Env, disk: Disk, cp: Checkpoint, max: Option<nat>, token: nat, world: World)
    requires Sound(env) && Honest(world.writer) && TokensBelow(disk, token)
    requires Inv(env, State(disk, Bound(cp, max))) && Intact(env, State(disk, Bound(cp, max)))
    ensures Work(env, disk, cp, max, token, world).1 == Refused <==>
      !world.endFits || SomeUnreadable(world, cp.tasks, |disk.receipts|, BoundFrom(|disk.receipts|, max))
  {
    WorkBegins(env, disk, cp, max);
    WorkStatus(env, disk, cp, max, token, world);
    HonestLoop(env, SetAside(disk), RunState(cp, max, [], 0), token, world);
  }

  /** Where the loop stops, and how the attempt ends if it did not stop. */
  lemma HonestLoop(env: Env, disk: Disk, run0: RunState, token: nat, world: World)
    requires Sound(env) && Honest(world.writer) && TokensBelow(disk, token) && run0.complete == [] && run0.newTasks == 0
    requires Inv(env, State(disk, Working(run0))) && Intact(env, State(disk, Working(run0)))
    ensures var (tasked, run, stop) := TaskLoop(env, disk, run0, token, world);
      var status := if stop.Some? then Ending(stop.value) else Finished(env, tasked, run, world).proc;
      status == Ending(Refused) <==>
      !world.endFits || SomeUnreadable(world, run0.cp.tasks, |disk.receipts|, BoundFrom(|disk.receipts|, run0.max))
  {
    HonestTaskLoop(env, disk, run0, token, world);
    HonestLoopEnd(env, disk, run0, token, world);
    assert ReadsUpTo(disk, run0) == BoundFrom(|disk.receipts|, run0.max);
    StopsReadingOrBound(env, disk, run0, token, world);
  }

  lemma {:induction false} StopsReadingOrBound(env: Env, disk: Disk, run: RunState, token: nat, world: World)
    ensures var stop := TaskLoop(env, disk, run, token, world).2;
      stop.Some? && stop.value != Refused ==> stop.value == Checkpointed && world.endFits
    decreases |run.cp.tasks| - |run.complete|
  {
    var index := |run.complete|;
    if index < |run.cp.tasks| {
      if index in disk.receipts {
        if VerifiedPart(env, disk, run.cp, index) {
          StopsReadingOrBound(env, disk, Reused(disk, run), token, world);
        }
      } else if MayRead(run) {
        var (next, receipt) := NewTask(env, disk, run, PartName(index, token), world);
        if receipt.Some? {
          StopsReadingOrBound(env, next, Added(run, receipt.value), token + 1, world);
        }
      }
    }
  }

  lemma HonestLoopEnd(env: Env, disk: Disk, run0: RunState, token: nat, world: World)
    requires Sound(env) && Honest(world.writer) && TokensBelow(disk, token) && |run0.complete| <= |run0.cp.tasks|
    requires Inv(env, State(disk, Working(run0))) && Intact(env, State(disk, Working(run0)))
    ensures var (tasked, run, stop) := TaskLoop(env, disk, run0, token, world);
      stop.None? ==> Finished(env, tasked, run, world).proc == Ending(if world.endFits then Captured else Refused)
  {
    TaskLoopPath(env, disk, run0, token, world);
    var (tasked, run, stop) := TaskLoop(env, disk, run0, token, world);
    if stop.None? {
      ReachesKeeps(env, State(disk, Working(run0)), State(tasked, Working(run)));
      HonestFinish(env, tasked, run, world);
    }
  }

  /** The planner's paths are distinct and, on a resume, its pins are the frozen ones in some order. */
  ghost predicate PlanFits(disk: Disk, resume: bool, binding: string, plan: seq<Pin>) {
    && Distinct(Paths(plan))
    && (resume ==> disk.checkpoint.Some? && disk.checkpoint.value.binding == binding
                   && multiset(disk.checkpoint.value.tasks) == multiset(plan))
  }

  lemma PlanFitsIffBound(disk: Disk, resume: bool, binding: string, plan: seq<Pin>, startFits: bool)
    ensures BoundCheckpoint(disk, resume, binding, plan, startFits).Some? <==> startFits && PlanFits(disk, resume, binding, plan)
  {
    PlannedWholeIff(plan);
    if |Planned(plan)| == |plan| && disk.checkpoint.Some? {
      AcceptsPermutations(disk.checkpoint.value.tasks, plan);
    }
  }

  /** The protocol's own binding step goes ahead on the same condition, and refuses otherwise. */
  lemma BindsIffPlanFits(env: Env, disk: Disk, resume: bool, max: Option<nat>, binding: string, plan: seq<Pin>)
    ensures var after := Next(env, State(disk, Started(resume, max, binding)), Bind(plan));
      if PlanFits(disk, resume, binding, plan) then
        after.proc.Bound? && after.proc.cp.tasks == FrozenTasks(disk, resume, plan)
        && (!resume ==> after.proc.cp.binding == binding)
      else after == State(disk, Ending(Refused))
  {
    PlannedWholeIff(plan);
    if |Planned(plan)| == |plan| && disk.checkpoint.Some? {
      AcceptsPermutations(disk.checkpoint.value.tasks, plan);
    }
  }

  /** The order an attempt works in. */
  function FrozenTasks(disk: Disk, resume: bool, plan: seq<Pin>): seq<Pin> {
    if resume && disk.checkpoint.Some? then disk.checkpoint.value.tasks else plan
  }

  // ----- damaged parts -----

  /** Some receipt's part file is missing or differs from its task's rows. */
  ghost predicate Damaged(env: Env, disk: Disk) {
    exists i :: i in disk.receipts && !PartOnDisk(env, disk, i)
  }

  /** The loop over tasks comes to every receipt before it reads anything, and stops at a damaged one. */
  lemma {:induction false} DamageStopsLoop(env: Env, disk: Disk, run: RunState, token: nat, world: World, i: nat)
    requires Sound(env) && DiskFits(env, disk) && RunFits(disk, run) && DigestsFit(env, disk)
    requires |run.complete| <= i && i in disk.receipts && !PartOnDisk(env, disk, i)
    ensures TaskLoop(env, disk, run, token, world).0 == disk && TaskLoop(env, disk, run, token, world).2 == Some(Refused)
    decreases i - |run.complete|
  {
    var index := |run.complete|;
    assert index in disk.receipts;
    VerifiedIffOnDisk(env, disk, index);
    if PartOnDisk(env, disk, index) {
      DamageStopsLoop(env, disk, Reused(disk, run), token, world, i);
    }
  }

  lemma SetAsideKeepsDamage(env: Env, disk: Disk, cp: Checkpoint)
    requires DiskFits(env, disk) && DigestsFit(env, disk) && disk.started && (disk.checkpoint.Some? ==> disk.checkpoint.value == cp)
    requires disk.result != Some(Captured) && disk.receipts != map[]
    ensures var begun := SetAside(disk.(started := true, checkpoint := Some(cp)));
      && DiskFits(env, begun) && DigestsFit(env, begun) && begun.receipts == disk.receipts && begun.parts == disk.parts
      && begun.pending == disk.pending
      && forall i :: PartOnDisk(env, begun, i) <==> PartOnDisk(env, disk, i)
  {
  }

  /** An attempt on a directory with a damaged part is refused, whatever its plan, bound, reader and writer: it reads no
      task and leaves receipts and part files as they were. */
  lemma DamagedIsRefused(env: Env, disk: Disk, resume: bool, max: Option<nat>, binding: string, plan: seq<Pin>, token: nat,
                         world: World)
    requires Sound(env) && Enters(disk, resume, max) && Inv(env, State(disk, Idle)) && DigestsFit(env, disk)
    requires Damaged(env, disk)
    ensures var (after, status) := Attempt(env, disk, resume, max, binding, plan, token, world);
      && status == Some(Refused)
      && after.receipts == disk.receipts && after.parts == disk.parts && after.pending == disk.pending
  {
    var i :| i in disk.receipts && !PartOnDisk(env, disk, i);
    if BoundCheckpoint(disk, resume, binding, plan, world.startFits).Some? {
      var cp := BoundCheckpoint(disk, resume, binding, plan, world.startFits).value;
      SetAsideKeepsDamage(env, disk, cp);
      DamageStopsLoop(env, SetAside(disk.(started := true, checkpoint := Some(cp))), RunState(cp, max, [], 0), token, world, i);
    }
  }

  lemma UndamagedIsIntact(env: Env, disk: Disk)
    requires DiskFits(env, disk) && DigestsFit(env, disk) && !Damaged(env, disk)
    ensures Intact(env, State(disk, Idle))
  {
    forall i | i in disk.receipts
      ensures && disk.checkpoint.Some? && ReceiptFits(env, disk.checkpoint.value, i, disk.receipts[i])
              && PartHolds(env, disk, disk.checkpoint.value, disk.receipts[i])
    {
      assert PartOnDisk(env, disk, i);
    }
  }

  /** On every reachable directory and with a writer that stores what it is given, an attempt that gets in is refused
      exactly when some receipted part is damaged or something obstructs it. */
  lemma RefusedIffDamagedOrObstructed(env: Env, actions: seq<Action>, resume: bool, max: Option<nat>, binding: string,
                                      plan: seq<Pin>, token: nat, world: World)
    requires Sound(env) && Honest(world.writer) && Run(env, START, actions).proc.Idle?
    requires TokensBelow(Run(env, START, actions).disk, token) && Enters(Run(env, START, actions).disk, resume, max)
    ensures var disk := Run(env, START, actions).disk;
      Attempt(env, disk, resume, max, binding, plan, token, world).1 == Some(Refused)
      <==> Damaged(env, disk) || Obstructed(disk, resume, max, binding, plan, world)
  {
    var disk := Run(env, START, actions).disk;
    StartFits(env);
    RunKeepsInv(env, START, actions);
    ReceiptsRecordTheirParts(env, actions);
    if Damaged(env, disk) {
      DamagedIsRefused(env, disk, resume, max, binding, plan, token, world);
    } else {
      UndamagedIsIntact(env, disk);
      AttemptRefusedIff(env, disk, resume, max, binding, plan, token, world);
    }
  }

  // ----- what makes an attempt fail -----

  /** What makes an attempt on an undamaged directory fail: the checks at its start or its end, a plan that does not fit, or
      a reader that fails on a task it comes to. */
  ghost predicate Obstructed(disk: Disk, resume: bool, max: Option<nat>, binding: string, plan: seq<Pin>, world: World) {
    || !world.startFits || !PlanFits(disk, resume, binding, plan) || !world.endFits
    || SomeUnreadable(world, FrozenTasks(disk, resume, plan), |disk.receipts|, BoundFrom(|disk.receipts|, max))
  }

  /** With undamaged parts and a writer that stores what it is given, an attempt that gets in is refused exactly when
      something obstructs it. */
  lemma AttemptRefusedIff(env: Env, disk: Disk, resume: bool, max: Option<nat>, binding: string, plan: seq<Pin>, token: nat,
                          world: World)
    requires Sound(env) && Honest(world.writer) && TokensBelow(disk, token) && Enters(disk, resume, max)
    requires Inv(env, State(disk, Idle)) && Intact(env, State(disk, Idle))
    ensures Attempt(env, disk, resume, max, binding, plan, token, world).1 == Some(Refused)
            <==> Obstructed(disk, resume, max, binding, plan, world)
  {
    PlanFitsIffBound(disk, resume, binding, plan, world.startFits);
    if BoundCheckpoint(disk, resume, binding, plan, world.startFits).Some? {
      var cp := BoundCheckpoint(disk, resume, binding, plan, world.startFits).value;
      BoundStateFits(env, disk, resume, max, binding, plan, world.startFits);
      HonestWork(env, disk.(started := true, checkpoint := Some(cp)), cp, max, token, world);
    }
  }

  lemma BoundStateFits(env: Env, disk: Disk, resume: bool, max: Option<nat>, binding: string, plan: seq<Pin>, startFits: bool)
    requires Sound(env) && Enters(disk, resume, max) && Inv(env, State(disk, Idle)) && Intact(env, State(disk, Idle))
    requires BoundCheckpoint(disk, resume, binding, plan, startFits).Some?
    ensures var cp := BoundCheckpoint(disk, resume, binding, plan, startFits).value;
      var bound := State(disk.(started := true, checkpoint := Some(cp)), Bound(cp, max));
      Inv(env, bound) && Intact(env, bound) && cp.tasks == FrozenTasks(disk, resume, plan)
  {
    var entered := disk.(started := true);
    var cp := BoundCheckpoint(disk, resume, binding, plan, startFits).value;
    var start := State(entered, Started(resume, max, binding));
    assert Next(env, State(disk, Idle), Begin(resume, max, binding)) == start;
    StepKeepsInv(env, State(disk, Idle), Begin(resume, max, binding));
    StepKeepsIntact(env, State(disk, Idle), Begin(resume, max, binding));
    Binds(env, entered, resume, max, binding, plan, startFits);
    ReachesKeeps(env, start, State(entered.(checkpoint := Some(cp)), Bound(cp, max)));
  }

  /** A path from a begun attempt to idle is, with its beginning, a bounded run. */
  lemma PathIsBoundedRun(env: Env, disk: Disk, begin: Action, started: State, rest: seq<Action>, after: Disk, k: nat)
    requires begin.Begin? && begin.max == Some(k) && Next(env, State(disk, Idle), begin) == started && started.proc.Started?
    requires Path(env, started, rest, State(after, Idle))
    ensures BoundedRun(env, State(disk, Idle), [begin] + rest, k)
    ensures Run(env, State(disk, Idle), [begin] + rest) == State(after, Idle)
  {
    var s, actions := State(disk, Idle), [begin] + rest;
    assert [begin][..0] == [];
    assert Run(env, s, [begin]) == started;
    RunAppend(env, s, [begin], rest);
    forall i | 1 <= i < |actions|
      ensures !actions[i].Begin? && !actions[i].Crash?
    {
      assert actions[i] == rest[i - 1] && rest[i - 1] in rest;
    }
  }

  /** An attempt bounded by k is one bounded run of the protocol. */
  lemma AttemptIsBoundedRun(env: Env, disk: Disk, resume: bool, k: nat, binding: string, plan: seq<Pin>, token: nat,
                            world: World)
    requires Enters(disk, resume, Some(k)) && TokensBelow(disk, token)
    ensures var (after, status) := Attempt(env, disk, resume, Some(k), binding, plan, token, world);
      exists actions :: BoundedRun(env, State(disk, Idle), actions, k) && Run(env, State(disk, Idle), actions) == State(after, Idle)
  {
    var s, begin := State(disk, Idle), Begin(resume, Some(k), binding);
    var started := State(disk.(started := true), Started(resume, Some(k), binding));
    var (after, status) := Attempt(env, disk, resume, Some(k), binding, plan, token, world);
    AttemptPath(env, disk, resume, Some(k), binding, plan, token, world);
    var rest :| Path(env, started, rest, State(after, Idle));
    assert Next(env, s, begin) == started;
    PathIsBoundedRun(env, disk, begin, started, rest, after, k);
  }

  /** What an uninterrupted, unobstructed attempt bounded by k achieves on a directory in any reachable undamaged state, whatever
      crashes came before: k more receipts or all that are missing, and the exact publication once none is missing. */
  lemma AttemptSucceeds(env: Env, disk: Disk, resume: bool, k: nat, binding: string, plan: seq<Pin>, token: nat,
                        world: World)
    requires Sound(env) && Honest(world.writer) && TokensBelow(disk, token) && Enters(disk, resume, Some(k))
    requires Inv(env, State(disk, Idle)) && Intact(env, State(disk, Idle))
    requires !Obstructed(disk, resume, Some(k), binding, plan, world)
    ensures var (after, status) := Attempt(env, disk, resume, Some(k), binding, plan, token, world);
      && after.checkpoint.Some? && after.result == status
      && |after.receipts| == Min(|disk.receipts| + k, |after.checkpoint.value.tasks|)
      && (status == Some(Captured) <==> |disk.receipts| + k >= |after.checkpoint.value.tasks|)
      && (status == Some(Captured) ==> after.comments == Some(Complete(env, after.checkpoint.value)))
  {
    var (after, status) := Attempt(env, disk, resume, Some(k), binding, plan, token, world);
    AttemptRefusedIff(env, disk, resume, Some(k), binding, plan, token, world);
    AttemptIsBoundedRun(env, disk, resume, k, binding, plan, token, world);
    var actions :| BoundedRun(env, State(disk, Idle), actions, k) && Run(env, State(disk, Idle), actions) == State(after, Idle);
    BoundedRunOutcome(env, State(disk, Idle), actions, k);
    RunKeepsInv(env, State(disk, Idle), actions);
  }
}
