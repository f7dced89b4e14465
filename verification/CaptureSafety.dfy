/** What every sequence of runs, crashes and part-file damage keeps, and how many runs a bounded capture takes. */
module CaptureSafety {
  import opened Basics
  import opened Framing
  import opened CaptureProtocol

  lemma StartFits(env: Env)
    ensures Inv(env, START)
  {
  }

  /** At every moment of every execution: receipts cover a prefix of the frozen tasks and attest exactly their rows; a
      published file, qualified or not, is the concatenation in frozen order; and a captured result means both are there. */
  lemma ReceiptsCoverPrefix(env: Env, actions: seq<Action>)
    requires Sound(env)
    ensures var disk := Run(env, START, actions).disk;
      && (forall i: nat :: i in disk.receipts <==> i < |disk.receipts|)
      && (disk.receipts != map[] || disk.comments.Some? || disk.populations.Some? ==> disk.checkpoint.Some?)
      && (forall i :: i in disk.receipts ==> ReceiptFits(env, disk.checkpoint.value, i, disk.receipts[i]))
      && (disk.comments.Some? ==> disk.comments.value == Complete(env, disk.checkpoint.value))
      && (disk.populations.Some? ==> disk.populations.value == env.populations(Complete(env, disk.checkpoint.value)))
      && (disk.result == Some(Captured) ==> disk.comments.Some? && disk.populations.Some?)
  {
    StartFits(env);
    RunKeepsInv(env, START, actions);
  }

  // ----- the published populations -----

  /** The numbers of the rows whose agency cell is this value. */
  ghost function RowsValued(file: Table, agency: nat, value: Value): set<nat> {
    set i: nat | i < |file| && agency < |file[i]| && file[i][agency] == value
  }

  lemma RowsValuedSnoc(front: Table, last: Row, agency: nat, value: Value)
    ensures |RowsValued(front + [last], agency, value)|
         == |RowsValued(front, agency, value)| + if agency < |last| && last[agency] == value then 1 else 0
  {
    var before, after := RowsValued(front, agency, value), RowsValued(front + [last], agency, value);
    assert forall i: nat :: i < |front| ==> (front + [last])[i] == front[i];
    OneMorePosition(before, after, |front|, agency < |last| && last[agency] == value);
  }

  lemma {:induction false} AgencyCountsMeaning(width: nat, agency: nat, file: Table, value: Value)
    requires Rectangular(file, width)
    ensures AgencyCounts(width, agency, file)[value] == |RowsValued(file, agency, value)|
  {
    if file == [] {
      assert RowsValued(file, agency, value) == {};
    } else {
      var front, last := file[..|file| - 1], file[|file| - 1];
      assert file == front + [last] && [last][0] in file;
      AgencyCountsMeaning(width, agency, front, value);
      AgencyCountsJoin(width, agency, front, [last]);
      RowsValuedSnoc(front, last, agency, value);
      if agency < width {
        assert Column([last], width, agency) == [last[agency]];
      }
    }
  }

  /** How many rows of these tasks have this agency value. */
  ghost function RowsWith(env: Env, binding: string, tasks: seq<Pin>, agency: nat, value: Value): nat {
    if tasks == [] then 0
    else
      RowsWith(env, binding, tasks[..|tasks| - 1], agency, value)
      + |RowsValued(env.rowsOf(binding, tasks[|tasks| - 1]), agency, value)|
  }

  lemma AgencyCountsJoin(width: nat, agency: nat, a: Table, b: Table)
    requires Rectangular(a, width) && Rectangular(b, width)
    ensures AgencyCounts(width, agency, a + b) == AgencyCounts(width, agency, a) + AgencyCounts(width, agency, b)
  {
    if agency < width {
      ColumnAppend(a, b, width, agency);
    }
  }

  lemma {:induction false} CompleteCounts(env: Env, binding: string, tasks: seq<Pin>, width: nat, agency: nat, value: Value)
    requires forall binding, pin :: Rectangular(env.rowsOf(binding, pin), width)
    ensures Rectangular(Concatenated(env, binding, tasks), width)
    ensures AgencyCounts(width, agency, Concatenated(env, binding, tasks))[value]
         == RowsWith(env, binding, tasks, agency, value)
  {
    if tasks != [] {
      var front := tasks[..|tasks| - 1];
      CompleteCounts(env, binding, front, width, agency, value);
      AgencyCountsJoin(width, agency, Concatenated(env, binding, front), env.rowsOf(binding, tasks[|tasks| - 1]));
      AgencyCountsMeaning(width, agency, env.rowsOf(binding, tasks[|tasks| - 1]), value);
    }
  }

  /** Whenever agency populations are published, they give for every agency value, NULL included, the number of its rows
      over all frozen tasks: nothing is counted twice or lost, whatever was interrupted before. */
  lemma PopulationsCountEveryTask(env: Env, actions: seq<Action>, width: nat, agency: nat, value: Value)
    requires Sound(env) && forall file :: env.populations(file) == AgencyCounts(width, agency, file)
    requires forall binding, pin :: Rectangular(env.rowsOf(binding, pin), width)
    ensures var disk := Run(env, START, actions).disk;
      && (disk.populations.Some? ==> disk.checkpoint.Some?)
      && (disk.populations.Some? ==>
            disk.populations.value[value]
            == RowsWith(env, disk.checkpoint.value.binding, disk.checkpoint.value.tasks, agency, value))
  {
    ReceiptsCoverPrefix(env, actions);
    var disk := Run(env, START, actions).disk;
    if disk.populations.Some? {
      var cp := disk.checkpoint.value;
      CompleteCounts(env, cp.binding, cp.tasks, width, agency, value);
      assert env.populations(Complete(env, cp)) == AgencyCounts(width, agency, Complete(env, cp));
    }
  }

  // ----- what never changes -----

  /** The checkpoint, once written, and every receipt, once written, stay. */
  ghost predicate Extends(before: Disk, after: Disk) {
    && (before.checkpoint.Some? ==> after.checkpoint == before.checkpoint)
    && forall i :: i in before.receipts ==> i in after.receipts && after.receipts[i] == before.receipts[i]
  }

  // Which phase writes which part of the directory.

  lemma ReceiptsOnlyWhenRenamed(env: Env, s: State, a: Action)
    requires !s.proc.Renamed?
    ensures Next(env, s, a).disk.receipts == s.disk.receipts
  {
  }

  lemma PartsOnlyWhenChecked(env: Env, s: State, a: Action)
    requires !s.proc.Checked? && !a.Tamper?
    ensures Next(env, s, a).disk.parts == s.disk.parts
  {
  }

  lemma CheckpointOnlyWhenStarted(env: Env, s: State, a: Action)
    requires !s.proc.Started?
    ensures Next(env, s, a).disk.checkpoint == s.disk.checkpoint
  {
  }

  lemma ResumeKeepsCheckpoint(env: Env, s: State, a: Action)
    requires s.proc.Started? && s.proc.resume
    ensures Next(env, s, a).disk.checkpoint == s.disk.checkpoint
  {
  }

  lemma StepExtends(env: Env, s: State, a: Action)
    requires Inv(env, s)
    ensures Extends(s.disk, Next(env, s, a).disk)
  {
    if s.disk.checkpoint.Some? {
      if s.proc.Started? {
        ResumeKeepsCheckpoint(env, s, a);
      } else {
        CheckpointOnlyWhenStarted(env, s, a);
      }
    }
    if s.proc.Renamed? {
      ReceiptsOnlyGain(env, s, a);
    } else {
      ReceiptsOnlyWhenRenamed(env, s, a);
    }
  }

  lemma ReceiptsOnlyGain(env: Env, s: State, a: Action)
    requires Inv(env, s) && s.proc.Renamed?
    ensures forall i :: i in s.disk.receipts ==>
              i in Next(env, s, a).disk.receipts && Next(env, s, a).disk.receipts[i] == s.disk.receipts[i]
  {
    NewReceiptIsNew(s.disk, s.proc.run);
    ReceiptsAfterRename(env, s, a);
  }

  lemma ReceiptsAfterRename(env: Env, s: State, a: Action)
    requires s.proc.Renamed?
    ensures Next(env, s, a).disk.receipts == s.disk.receipts
      || Next(env, s, a).disk.receipts == s.disk.receipts[|s.proc.run.complete| := s.proc.receipt]
  {
  }

  lemma NewReceiptIsNew(disk: Disk, run: RunState)
    requires ReceiptsArePrefix(disk) && AtNewTask(disk, run)
    ensures |run.complete| !in disk.receipts
  {
  }

  lemma {:induction false} RunExtends(env: Env, s: State, actions: seq<Action>)
    requires Sound(env) && Inv(env, s)
    ensures Extends(s.disk, Run(env, s, actions).disk)
  {
    if actions != [] {
      var front := actions[..|actions| - 1];
      RunExtends(env, s, front);
      RunKeepsInv(env, s, front);
      StepExtends(env, Run(env, s, front), actions[|actions| - 1]);
    }
  }

  /** A captured result is final: whatever is attempted later, only part files can still change. */
  lemma {:induction false} CapturedIsTerminal(env: Env, s: State, actions: seq<Action>)
    requires Inv(env, s) && s.disk.result == Some(Captured)
    ensures Run(env, s, actions).proc.Idle?
    ensures Run(env, s, actions).disk == s.disk.(parts := Run(env, s, actions).disk.parts)
  {
    if actions != [] {
      CapturedIsTerminal(env, s, actions[..|actions| - 1]);
    }
  }

  /** Two executions that froze the same tasks and both reached captured published the same rows and counts, however
      often either was interrupted, bounded, resumed or re-planned. */
  lemma CapturesAgree(env: Env, one: seq<Action>, other: seq<Action>)
    requires Sound(env)
    requires Run(env, START, one).disk.result == Some(Captured)
    requires Run(env, START, other).disk.result == Some(Captured)
    requires Run(env, START, one).disk.checkpoint == Run(env, START, other).disk.checkpoint
    ensures Run(env, START, one).disk.comments == Run(env, START, other).disk.comments
    ensures Run(env, START, one).disk.populations == Run(env, START, other).disk.populations
  {
    ReceiptsCoverPrefix(env, one);
    ReceiptsCoverPrefix(env, other);
  }

  /** A process killed after making the directory and before writing CHECKPOINT.json leaves a directory that no later
      run can use: a first run finds it present, a resume finds no checkpoint. */
  lemma {:induction false} NoCheckpointIsStuck(env: Env, s: State, actions: seq<Action>)
    requires s.disk.started && s.disk.checkpoint.None? && s.disk.result != Some(Captured)
    requires s.disk.comments.None? && s.proc.Idle?
    ensures var after := Run(env, s, actions);
      && after.disk.started && after.disk.checkpoint.None? && after.disk.comments.None?
      && after.disk.result != Some(Captured)
      && (after.proc.Idle? || (after.proc.Started? && after.proc.resume)
          || after.proc == Ending(Refused) || after.proc == Recorded(Refused))
  {
    if actions != [] {
      NoCheckpointIsStuck(env, s, actions[..|actions| - 1]);
    }
  }

  // ----- part files, when nobody damages them -----

  ghost predicate PartHolds(env: Env, disk: Disk, cp: Checkpoint, receipt: Receipt)
    requires receipt.part.index < |cp.tasks|
  {
    && receipt.part in disk.parts
    && disk.parts[receipt.part] == env.rowsOf(cp.binding, cp.tasks[receipt.part.index])
    && receipt.fileSha == env.fileSha(disk.parts[receipt.part])
  }

  ghost predicate PartsIntact(env: Env, disk: Disk) {
    forall i :: i in disk.receipts ==>
      && disk.checkpoint.Some? && ReceiptFits(env, disk.checkpoint.value, i, disk.receipts[i])
      && PartHolds(env, disk, disk.checkpoint.value, disk.receipts[i])
  }

  /** The file about to get its receipt holds its task's rows too. */
  ghost predicate NewPartIntact(env: Env, s: State) {
    match s.proc
    case Checked(run, receipt) =>
      && ReceiptFits(env, run.cp, |run.complete|, receipt) && receipt.part !in s.disk.parts
      && receipt.part in s.disk.pending && receipt.fileSha == env.fileSha(s.disk.pending[receipt.part])
      && s.disk.pending[receipt.part] == env.rowsOf(run.cp.binding, run.cp.tasks[|run.complete|])
    case Renamed(run, receipt) =>
      ReceiptFits(env, run.cp, |run.complete|, receipt) && PartHolds(env, s.disk, run.cp, receipt)
    case Pending(_, part, _) => part !in s.disk.parts
    case _ => true
  }

  ghost predicate Intact(env: Env, s: State) {
    PartsIntact(env, s.disk) && NewPartIntact(env, s)
  }

  lemma ReadBackKeepsIntact(env: Env, s: State, a: Action)
    requires Sound(env) && Inv(env, s) && Intact(env, s) && s.proc.Pending?
    ensures Intact(env, Advance(env, s, a))
  {
    var Pending(run, part, streamed) := s.proc;
    if a.ReadBack? && part in s.disk.pending && env.readback(s.disk.pending[part]) == env.readback(streamed) {
      assert env.readback(streamed).Some?;
      assert s.disk.pending[part] == streamed;
    }
  }

  lemma RenameKeepsIntact(env: Env, s: State, a: Action)
    requires Inv(env, s) && Intact(env, s) && s.proc.Checked?
    ensures Intact(env, Advance(env, s, a))
  {
    var after := RenameStep(s, a);
    forall i | i in after.disk.receipts
      ensures && after.disk.checkpoint.Some? && ReceiptFits(env, after.disk.checkpoint.value, i, after.disk.receipts[i])
              && PartHolds(env, after.disk, after.disk.checkpoint.value, after.disk.receipts[i])
    {
      assert PartHolds(env, s.disk, s.disk.checkpoint.value, s.disk.receipts[i]);
    }
  }

  lemma WriteReceiptKeepsIntact(env: Env, s: State, a: Action)
    requires Inv(env, s) && Intact(env, s) && s.proc.Renamed?
    ensures Intact(env, Advance(env, s, a))
  {
    var after := WriteReceiptStep(s, a);
    forall i | i in after.disk.receipts
      ensures && after.disk.checkpoint.Some? && ReceiptFits(env, after.disk.checkpoint.value, i, after.disk.receipts[i])
              && PartHolds(env, after.disk, after.disk.checkpoint.value, after.disk.receipts[i])
    {
      if i in s.disk.receipts && after.disk.receipts[i] == s.disk.receipts[i] {
        assert PartHolds(env, s.disk, s.disk.checkpoint.value, s.disk.receipts[i]);
      }
    }
  }

  lemma SamePartsIntact(env: Env, before: Disk, after: Disk)
    requires PartsIntact(env, before) && after.receipts == before.receipts && after.parts == before.parts
    requires before.checkpoint.Some? ==> after.checkpoint == before.checkpoint
    ensures PartsIntact(env, after)
  {
    forall i | i in after.receipts
      ensures && after.checkpoint.Some? && ReceiptFits(env, after.checkpoint.value, i, after.receipts[i])
              && PartHolds(env, after, after.checkpoint.value, after.receipts[i])
    {
      assert PartHolds(env, before, before.checkpoint.value, before.receipts[i]);
    }
  }

  /** The other steps leave receipts and part files alone. */
  lemma QuietStepKeepsIntact(env: Env, s: State, a: Action)
    requires Inv(env, s) && Intact(env, s) && !a.Tamper?
    requires a.Refuse? || a.Crash? || !(s.proc.Pending? || s.proc.Checked? || s.proc.Renamed?)
    ensures Intact(env, Next(env, s, a))
  {
    if a.Refuse? || a.Crash? {
      SamePartsIntact(env, s.disk, Next(env, s, a).disk);
    } else {
      QuietAdvanceKeepsParts(env, s, a);
      QuietAdvance(env, s, a);
    }
  }

  lemma QuietAdvanceKeepsParts(env: Env, s: State, a: Action)
    requires Inv(env, s) && PartsIntact(env, s.disk) && !a.Tamper?
    requires !s.proc.Pending? && !s.proc.Checked? && !s.proc.Renamed?
    ensures PartsIntact(env, Next(env, s, a).disk)
  {
    ReceiptsOnlyWhenRenamed(env, s, a);
    PartsOnlyWhenChecked(env, s, a);
    StepExtends(env, s, a);
    SamePartsIntact(env, s.disk, Next(env, s, a).disk);
  }

  lemma QuietAdvance(env: Env, s: State, a: Action)
    requires !s.proc.Pending? && !s.proc.Checked? && !s.proc.Renamed? && !a.Tamper?
    ensures NewPartIntact(env, Next(env, s, a))
  {
    if !a.Refuse? && !a.Crash? {
      if s.proc.Working? {
        WorkTakesNewName(env, s, a);
      } else {
        HandsStayEmpty(env, s, a);
      }
    }
  }

  lemma WorkTakesNewName(env: Env, s: State, a: Action)
    requires s.proc.Working?
    ensures NewPartIntact(env, Advance(env, s, a))
  {
  }

  lemma HandsStayEmpty(env: Env, s: State, a: Action)
    requires !s.proc.Working? && !s.proc.Pending? && !s.proc.Checked? && !s.proc.Renamed?
    ensures NewPartIntact(env, Advance(env, s, a))
  {
  }

  lemma StepKeepsIntact(env: Env, s: State, a: Action)
    requires Sound(env) && Inv(env, s) && Intact(env, s) && !a.Tamper?
    ensures Intact(env, Next(env, s, a))
  {
    if a.Refuse? || a.Crash? || !(s.proc.Pending? || s.proc.Checked? || s.proc.Renamed?) {
      QuietStepKeepsIntact(env, s, a);
    } else {
      PartStepKeepsIntact(env, s, a);
    }
  }

  lemma PartStepKeepsIntact(env: Env, s: State, a: Action)
    requires Sound(env) && Inv(env, s) && Intact(env, s) && (s.proc.Pending? || s.proc.Checked? || s.proc.Renamed?)
    ensures Intact(env, Advance(env, s, a))
  {
    if s.proc.Pending? {
      ReadBackKeepsIntact(env, s, a);
    } else if s.proc.Checked? {
      RenameKeepsIntact(env, s, a);
    } else {
      WriteReceiptKeepsIntact(env, s, a);
    }
  }

  /** Without outside damage, after any crashes, every receipt names a part file holding exactly its task's rows. */
  lemma {:induction false} UndamagedPartsHoldTheirRows(env: Env, actions: seq<Action>)
    requires Sound(env) && forall a :: a in actions ==> !a.Tamper?
    ensures Intact(env, Run(env, START, actions))
  {
    if actions != [] {
      var front := actions[..|actions| - 1];
      UndamagedPartsHoldTheirRows(env, front);
      StartFits(env);
      RunKeepsInv(env, START, front);
      assert actions[|actions| - 1] in actions;
      StepKeepsIntact(env, Run(env, START, front), actions[|actions| - 1]);
    }
  }

  /** An intact receipt passes the readback a resuming run makes. */
  lemma IntactPartVerifies(env: Env, disk: Disk, index: nat)
    requires Sound(env) && PartsIntact(env, disk) && index in disk.receipts
    ensures disk.checkpoint.Some? && index < |disk.checkpoint.value.tasks|
    ensures VerifiedPart(env, disk, disk.checkpoint.value, index)
  {
    assert ReceiptFits(env, disk.checkpoint.value, index, disk.receipts[index]);
    assert PartHolds(env, disk, disk.checkpoint.value, disk.receipts[index]);
  }

  // ----- damaged parts -----

  /** The receipt of task `index` names a part file that is there and holds exactly the task's rows. */
  ghost predicate PartOnDisk(env: Env, disk: Disk, index: nat) {
    && index in disk.receipts && disk.checkpoint.Some? && index < |disk.checkpoint.value.tasks|
    && disk.receipts[index].part in disk.parts
    && disk.parts[disk.receipts[index].part] == env.rowsOf(disk.checkpoint.value.binding, disk.checkpoint.value.tasks[index])
  }

  /** Every receipt records the digest of its task's rows as they were stored. */
  ghost predicate DigestsFit(env: Env, disk: Disk) {
    forall i :: i in disk.receipts ==>
      && disk.checkpoint.Some? && i < |disk.checkpoint.value.tasks|
      && disk.receipts[i].fileSha == env.fileSha(env.rowsOf(disk.checkpoint.value.binding, disk.checkpoint.value.tasks[i]))
  }

  /** So does the receipt about to be written, whose part is still pending or has just been renamed. */
  ghost predicate NewDigestFits(env: Env, s: State) {
    match s.proc
    case Checked(run, receipt) =>
      && |run.complete| < |run.cp.tasks|
      && receipt.fileSha == env.fileSha(env.rowsOf(run.cp.binding, run.cp.tasks[|run.complete|]))
    case Renamed(run, receipt) =>
      && |run.complete| < |run.cp.tasks|
      && receipt.fileSha == env.fileSha(env.rowsOf(run.cp.binding, run.cp.tasks[|run.complete|]))
    case _ => true
  }

  lemma ReadBackKeepsDigests(env: Env, s: State, a: Action)
    requires Sound(env) && Inv(env, s) && s.proc.Pending?
    ensures NewDigestFits(env, Advance(env, s, a)) && Advance(env, s, a).disk == s.disk
  {
    var Pending(run, part, streamed) := s.proc;
    if a.ReadBack? && part in s.disk.pending && env.readback(s.disk.pending[part]) == env.readback(streamed) {
      assert env.readback(streamed).Some?;
      assert s.disk.pending[part] == streamed;
    }
  }

  lemma WriteReceiptKeepsDigests(env: Env, s: State, a: Action)
    requires Inv(env, s) && DigestsFit(env, s.disk) && NewDigestFits(env, s) && s.proc.Renamed?
    ensures DigestsFit(env, Advance(env, s, a).disk) && NewDigestFits(env, Advance(env, s, a))
  {
  }

  lemma SameDigestsFit(env: Env, before: Disk, after: Disk)
    requires DigestsFit(env, before) && after.receipts == before.receipts
    requires before.checkpoint.Some? ==> after.checkpoint == before.checkpoint
    ensures DigestsFit(env, after)
  {
  }

  lemma NoDigestInHand(env: Env, s: State, a: Action)
    requires NewDigestFits(env, s) && !s.proc.Pending? && !s.proc.Renamed? && !a.Tamper? && !a.Refuse? && !a.Crash?
    ensures NewDigestFits(env, Next(env, s, a))
  {
    if s.proc.Working? {
      WorkTakesNewName(env, s, a);
    } else if !s.proc.Checked? {
      NoReceiptInHand(env, s, a);
    }
  }

  lemma NoReceiptInHand(env: Env, s: State, a: Action)
    requires !s.proc.Working? && !s.proc.Pending? && !s.proc.Checked? && !s.proc.Renamed?
    ensures !Advance(env, s, a).proc.Checked? && !Advance(env, s, a).proc.Renamed?
  {
  }

  lemma StepKeepsDigests(env: Env, s: State, a: Action)
    requires Sound(env) && Inv(env, s) && DigestsFit(env, s.disk) && NewDigestFits(env, s)
    ensures DigestsFit(env, Next(env, s, a).disk) && NewDigestFits(env, Next(env, s, a))
  {
    if a.Tamper? || a.Refuse? || a.Crash? {
      OutsideKeepsDigests(env, s, a);
    } else if s.proc.Pending? {
      ReadBackKeepsDigests(env, s, a);
    } else if s.proc.Renamed? {
      WriteReceiptKeepsDigests(env, s, a);
    } else {
      QuietKeepsDigests(env, s, a);
    }
  }

  lemma OutsideKeepsDigests(env: Env, s: State, a: Action)
    requires DigestsFit(env, s.disk) && NewDigestFits(env, s) && (a.Tamper? || a.Refuse? || a.Crash?)
    ensures DigestsFit(env, Next(env, s, a).disk) && NewDigestFits(env, Next(env, s, a))
  {
    SameDigestsFit(env, s.disk, Next(env, s, a).disk);
  }

  lemma QuietKeepsDigests(env: Env, s: State, a: Action)
    requires Inv(env, s) && DigestsFit(env, s.disk) && NewDigestFits(env, s)
    requires !a.Tamper? && !a.Refuse? && !a.Crash? && !s.proc.Pending? && !s.proc.Renamed?
    ensures DigestsFit(env, Next(env, s, a).disk) && NewDigestFits(env, Next(env, s, a))
  {
    NoDigestInHand(env, s, a);
    ReceiptsOnlyWhenRenamed(env, s, a);
    StepExtends(env, s, a);
    SameDigestsFit(env, s.disk, Next(env, s, a).disk);
  }

  /** Whatever happens to the part files, receipts keep saying what their tasks' parts were. */
  lemma {:induction false} ReceiptsRecordTheirParts(env: Env, actions: seq<Action>)
    requires Sound(env)
    ensures DigestsFit(env, Run(env, START, actions).disk) && NewDigestFits(env, Run(env, START, actions))
  {
    if actions != [] {
      var front := actions[..|actions| - 1];
      ReceiptsRecordTheirParts(env, front);
      StartFits(env);
      RunKeepsInv(env, START, front);
      StepKeepsDigests(env, Run(env, START, front), actions[|actions| - 1]);
    }
  }

  /** A receipt on disk passes the check of a resuming run exactly when its part is there and holds its task's rows. */
  lemma VerifiedIffOnDisk(env: Env, disk: Disk, index: nat)
    requires Sound(env) && DiskFits(env, disk) && DigestsFit(env, disk) && index in disk.receipts
    ensures disk.checkpoint.Some? && index < |disk.checkpoint.value.tasks|
    ensures VerifiedPart(env, disk, disk.checkpoint.value, index) <==> PartOnDisk(env, disk, index)
  {
    var cp, receipt := disk.checkpoint.value, disk.receipts[index];
    assert ReceiptFits(env, cp, index, receipt);
    if receipt.part in disk.parts && env.readback(disk.parts[receipt.part]) == Some(receipt.fields) {
      assert env.readback(disk.parts[receipt.part]) == env.readback(env.rowsOf(cp.binding, cp.tasks[index]));
    }
  }

  /** What a run does with the receipt it comes to: it takes the receipt over if the part file named there exists and
      equals the frozen task's rows, and refuses otherwise. */
  lemma ReuseMeansPartOnDisk(env: Env, actions: seq<Action>)
    requires Sound(env)
    ensures var s := Run(env, START, actions);
      var after := Next(env, s, Reuse);
      s.proc.Working? && |s.proc.run.complete| < |s.proc.run.cp.tasks| && |s.proc.run.complete| in s.disk.receipts ==>
        && after.disk == s.disk
        && (PartOnDisk(env, s.disk, |s.proc.run.complete|) ==>
              after.proc.Working? && after.proc.run.complete == s.proc.run.complete + [s.disk.receipts[|s.proc.run.complete|]])
        && (!PartOnDisk(env, s.disk, |s.proc.run.complete|) ==> after.proc == Ending(Refused))
  {
    StartFits(env);
    RunKeepsInv(env, START, actions);
    ReceiptsRecordTheirParts(env, actions);
    var s := Run(env, START, actions);
    if s.proc.Working? && |s.proc.run.complete| < |s.proc.run.cp.tasks| && |s.proc.run.complete| in s.disk.receipts {
      VerifiedIffOnDisk(env, s.disk, |s.proc.run.complete|);
    }
  }

  // ----- each check of a receipt by itself -----

  predicate AtReceipt(s: State) {
    s.proc.Working? && |s.proc.run.complete| < |s.proc.run.cp.tasks| && |s.proc.run.complete| in s.disk.receipts
  }

  /** The file digest alone, if collision-free, already keeps a run from reusing any other file than the one a receipt was
      made for, whatever the field readback can tell apart. */
  lemma OtherFileRefused(env: Env, s: State, stored: Table)
    requires AtReceipt(s) && s.disk.receipts[|s.proc.run.complete|].fileSha == env.fileSha(stored)
    requires forall a, b :: env.fileSha(a) == env.fileSha(b) ==> a == b
    requires var part := s.disk.receipts[|s.proc.run.complete|].part;
      part !in s.disk.parts || s.disk.parts[part] != stored
    ensures Next(env, s, Reuse) == State(s.disk, Ending(Refused))
  {
  }

  /** A receipt made under another checkpoint, for another task, or for another number is refused. */
  lemma ForeignReceiptRefused(env: Env, s: State, cp: Checkpoint, j: nat, part: PartName, file: Table, fields: Fields)
    requires AtReceipt(s) && j < |cp.tasks|
    requires s.disk.receipts[|s.proc.run.complete|] == MakeReceipt(env, cp, j, part, file, fields)
    requires forall a, b :: env.checkpointSha(a) == env.checkpointSha(b) ==> a == b
    requires forall a, b :: env.pinSha(a) == env.pinSha(b) ==> a == b
    requires cp != s.proc.run.cp || cp.tasks[j] != s.proc.run.cp.tasks[|s.proc.run.complete|] || part.index != |s.proc.run.complete|
    ensures Next(env, s, Reuse) == State(s.disk, Ending(Refused))
  {
  }

  // ----- the plan of a resumed run -----

  lemma {:induction false} PlannedLooksUp(plan: seq<Pin>)
    ensures |Planned(plan)| <= |plan|
    ensures |Planned(plan)| == |plan| ==> Distinct(Paths(plan))
    ensures forall path :: path in Planned(plan) ==> Planned(plan)[path] in plan && Planned(plan)[path].path == path
    ensures forall pin :: pin in plan ==> pin.path in Planned(plan)
  {
    if plan != [] {
      var front, last := plan[..|plan| - 1], plan[|plan| - 1];
      PlannedLooksUp(front);
      assert plan == front + [last];
      if |Planned(plan)| == |plan| {
        assert last.path !in Planned(front);
        assert forall i :: 0 <= i < |front| ==> Paths(plan)[i] == Paths(front)[i] == front[i].path && front[i] in front;
        assert Paths(plan)[|front|] == last.path;
      }
    }
  }

  lemma RepeatedPath(front: seq<Pin>, last: Pin)
    requires last.path in Planned(front)
    ensures !Distinct(Paths(front + [last]))
  {
    PlannedLooksUp(front);
    var i :| 0 <= i < |front| && front[i] == Planned(front)[last.path];
    assert Paths(front + [last])[i] == last.path && Paths(front + [last])[|front|] == last.path;
  }

  /** No planned task is lost exactly when no path is repeated. */
  lemma {:induction false} PlannedWholeIff(plan: seq<Pin>)
    ensures |Planned(plan)| == |plan| <==> Distinct(Paths(plan))
  {
    PlannedLooksUp(plan);
    if Distinct(Paths(plan)) {
      DistinctPlanIsWhole(plan);
    }
  }

  lemma {:induction false} DistinctPlanIsWhole(plan: seq<Pin>)
    requires Distinct(Paths(plan))
    ensures |Planned(plan)| == |plan|
  {
    if plan != [] {
      var front, last := plan[..|plan| - 1], plan[|plan| - 1];
      assert plan == front + [last];
      FrontPathsDistinct(front, last);
      DistinctPlanIsWhole(front);
      NewPathAdds(front, last);
    }
  }

  lemma FrontPathsDistinct(front: seq<Pin>, last: Pin)
    requires Distinct(Paths(front + [last]))
    ensures Distinct(Paths(front))
  {
    var all := Paths(front + [last]);
    assert forall i :: 0 <= i < |front| ==> Paths(front)[i] == all[i];
    forall i, j | 0 <= i < j < |front|
      ensures Paths(front)[i] != Paths(front)[j]
    {
      assert all[i] != all[j];
    }
  }

  lemma NewPathAdds(front: seq<Pin>, last: Pin)
    requires Distinct(Paths(front + [last]))
    ensures |Planned(front + [last])| == |Planned(front)| + 1
  {
    assert (front + [last])[..|front|] == front;
    if last.path in Planned(front) {
      RepeatedPath(front, last);
    }
  }

  lemma DistinctPathsDistinctPins(tasks: seq<Pin>)
    requires Distinct(Paths(tasks))
    ensures Distinct(tasks)
    ensures |set path | path in Paths(tasks)| == |tasks|
  {
    forall i, j | 0 <= i < j < |tasks|
      ensures tasks[i] != tasks[j]
    {
      assert Paths(tasks)[i] != Paths(tasks)[j];
    }
    DistinctCardinality(Paths(tasks));
    assert (set path | path in Paths(tasks)) == Elements(Paths(tasks));
  }

  lemma {:induction false} FullCardinalityDistinct<T>(s: seq<T>)
    requires |Elements(s)| == |s|
    ensures Distinct(s)
  {
    if s != [] {
      var front, last := s[..|s| - 1], s[|s| - 1];
      ElementsAtMost(front);
      assert Elements(s) == Elements(front) + {last};
      FullCardinalityDistinct(front);
      assert last !in Elements(front);
      forall i | 0 <= i < |front|
        ensures s[i] != last
      {
        assert front[i] in Elements(front);
      }
    }
  }

  lemma {:induction false} ElementsAtMost<T>(s: seq<T>)
    ensures |Elements(s)| <= |s|
  {
    if s != [] {
      var front, last := s[..|s| - 1], s[|s| - 1];
      ElementsAtMost(front);
      assert Elements(s) == Elements(front) + {last};
    }
  }

  /** A resume is admitted exactly when the planner returned the frozen pins in some order. */
  lemma AcceptsPermutations(frozen: seq<Pin>, plan: seq<Pin>)
    requires |Planned(plan)| == |plan|
    ensures Accepts(frozen, plan) <==> multiset(frozen) == multiset(plan)
  {
    PlannedLooksUp(plan);
    DistinctPathsDistinctPins(plan);
    if Accepts(frozen, plan) {
      assert (set path | path in Paths(frozen)) == Elements(Paths(frozen));
      FullCardinalityDistinct(Paths(frozen));
      DistinctPathsDistinctPins(frozen);
      DistinctSameLength(frozen, plan);
    }
    if multiset(frozen) == multiset(plan) {
      PermutationAccepted(frozen, plan);
    }
  }

  lemma PermutationAccepted(frozen: seq<Pin>, plan: seq<Pin>)
    requires |Planned(plan)| == |plan| && multiset(frozen) == multiset(plan)
    ensures Accepts(frozen, plan)
  {
    PlannedLooksUp(plan);
    assert |frozen| == |multiset(frozen)| == |plan|;
    forall pin | pin in frozen
      ensures pin.path in Planned(plan) && pin == Planned(plan)[pin.path]
    {
      assert pin in multiset(plan);
      SamePathSamePin(plan, pin, Planned(plan)[pin.path]);
    }
    PermutationSamePaths(frozen, plan);
    DistinctPathsDistinctPins(plan);
  }

  lemma PermutationSamePaths(a: seq<Pin>, b: seq<Pin>)
    requires multiset(a) == multiset(b)
    ensures (set path | path in Paths(a)) == (set path | path in Paths(b))
  {
    forall path
      ensures path in Paths(a) <==> path in Paths(b)
    {
      if path in Paths(a) {
        SamePaths(a, b, path);
      }
      if path in Paths(b) {
        SamePaths(b, a, path);
      }
    }
  }

  lemma SamePaths(a: seq<Pin>, b: seq<Pin>, path: string)
    requires multiset(a) == multiset(b) && path in Paths(a)
    ensures path in Paths(b)
  {
    var i :| 0 <= i < |a| && Paths(a)[i] == path;
    assert a[i] in multiset(a) && a[i] in multiset(b);
    var j :| 0 <= j < |b| && b[j] == a[i];
    assert Paths(b)[j] == path;
  }

  lemma SamePathSamePin(plan: seq<Pin>, a: Pin, b: Pin)
    requires Distinct(Paths(plan)) && a in plan && b in plan && a.path == b.path
    ensures a == b
  {
    var i :| 0 <= i < |plan| && plan[i] == a;
    var j :| 0 <= j < |plan| && plan[j] == b;
    assert Paths(plan)[i] == Paths(plan)[j];
  }
}
