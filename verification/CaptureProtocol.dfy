/** The checkpointed capture of scripts/capture_comments_current.py as a state machine: one action is one durable
    write or one check, and a crash may come between any two. */
module CaptureProtocol {
  import opened Basics
  import opened Framing

  type Table = seq<Row>

  /** A planned task: its data file's path, and everything else that is frozen about it and its delete files. */
  datatype Pin = Pin(path: string, detail: string)

  /** The frozen order. `binding` stands for namespace, source identity, fields, runtime, code and read semantics. */
  datatype Checkpoint = Checkpoint(binding: string, tasks: seq<Pin>)

  datatype PartName = PartName(index: nat, token: nat)

  datatype Receipt = Receipt(checkpointSha: string, pinSha: string, part: PartName, fileSha: string, fields: Fields)

  datatype Status = Captured | Checkpointed | Refused

  /** The functions a run applies: the reader of a task under a binding, part_values (None for an unreadable file or
      another schema), the agency counts, and the other digests. */
  datatype Env = Env(rowsOf: (string, Pin) -> Table, readback: Table -> Option<Fields>,
                     populations: Table -> multiset<Value>, fileSha: Table -> string, pinSha: Pin -> string,
                     checkpointSha: Checkpoint -> string)

  /** The output directory. `retained` collects unqualified final files moved aside. */
  datatype Disk = Disk(started: bool, checkpoint: Option<Checkpoint>, parts: map<PartName, Table>,
                       pending: map<PartName, Table>, receipts: map<nat, Receipt>, comments: Option<Table>,
                       populations: Option<multiset<Value>>, result: Option<Status>, retained: seq<Table>)

  const NO_DIRECTORY := Disk(false, None, map[], map[], map[], None, None, None, [])

  /** One run's memory: the frozen checkpoint, its task bound, the receipts admitted so far, tasks newly read. */
  datatype RunState = RunState(cp: Checkpoint, max: Option<nat>, complete: seq<Receipt>, newTasks: nat)

  datatype Proc =
    | Idle
    | Started(resume: bool, max: Option<nat>, binding: string)
    | Bound(cp: Checkpoint, max: Option<nat>)
    | CommentsAside(cp: Checkpoint, max: Option<nat>)
    | Working(run: RunState)
    | Pending(run: RunState, part: PartName, streamed: Table)
    | Checked(run: RunState, receipt: Receipt)
    | Renamed(run: RunState, receipt: Receipt)
    | Finalizing(run: RunState, next: nat, written: Table)
    | Exported(run: RunState, written: Table, file: Table)
    | Qualified(run: RunState, file: Table)
    | CommentsPublished(run: RunState, file: Table)
    | Ending(status: Status)
    | Recorded(status: Status)

  datatype State = State(disk: Disk, proc: Proc)

  const START := State(NO_DIRECTORY, Idle)

  datatype Action =
    | Begin(resume: bool, max: Option<nat>, binding: string)
    | Bind(plan: seq<Pin>)
    | SetCommentsAside
    | SetPopulationsAside
    | Reuse
    | ReadTask(token: nat, file: Table)
    | ReadBack
    | Rename
    | WriteReceipt
    | Stop
    | Finalize
    | CopyPart
    | CloseExport(file: Table)
    | Qualify
    | PublishComments
    | PublishPopulations
    | RecordAttempt
    | RecordResult
    | Refuse
    | Crash
    | Tamper(part: PartName, content: Option<Table>)

  // ----- checks -----

  /** part_values over FieldDigests for the given columns. */
  function PartFields(names: seq<string>, sha: seq<Byte> -> string, file: Table): Option<Fields> {
    if Rectangular(file, |names|) && RowsFit(file) then Some(FieldsOf(names, file, sha)) else None
  }

  /** count(*) by agency_code: how often each value of that column occurs. */
  function AgencyCounts(width: nat, agency: nat, file: Table): multiset<Value> {
    if Rectangular(file, width) && agency < width then multiset(Column(file, width, agency)) else multiset{}
  }

  /** Equal readbacks are equal tables; what the reader yields is readable, and so are readable tables joined up. */
  ghost predicate Sound(env: Env) {
    && (forall a, b :: env.readback(a).Some? && env.readback(a) == env.readback(b) ==> a == b)
    && (forall binding, pin :: env.readback(env.rowsOf(binding, pin)).Some?)
    && env.readback([]).Some?
    && forall a, b {:trigger env.readback(a + b)} ::
         env.readback(a).Some? && env.readback(b).Some? ==> env.readback(a + b).Some?
  }

  /** Length-framed field digests under a collision-free hash are such a readback. */
  lemma FieldDigestsAreSound(env: Env, names: seq<string>, sha: seq<Byte> -> string)
    requires Distinct(names) && names != [] && Injective(sha)
    requires forall file :: env.readback(file) == PartFields(names, sha, file)
    requires forall binding, pin :: Rectangular(env.rowsOf(binding, pin), |names|) && RowsFit(env.rowsOf(binding, pin))
    ensures Sound(env)
  {
    forall a, b | env.readback(a).Some? && env.readback(a) == env.readback(b)
      ensures a == b
    {
      assert env.readback(a) == PartFields(names, sha, a) && env.readback(b) == PartFields(names, sha, b);
      FieldsIdentifyRows(names, a, b, sha);
    }
    forall binding, pin
      ensures env.readback(env.rowsOf(binding, pin)).Some?
    {
      assert env.readback(env.rowsOf(binding, pin)) == PartFields(names, sha, env.rowsOf(binding, pin));
    }
    assert env.readback([]) == PartFields(names, sha, []);
    forall a, b | env.readback(a).Some? && env.readback(b).Some?
      ensures env.readback(a + b).Some?
    {
      assert env.readback(a) == PartFields(names, sha, a) && env.readback(b) == PartFields(names, sha, b);
      assert env.readback(a + b) == PartFields(names, sha, a + b);
    }
  }

  function MakeReceipt(env: Env, cp: Checkpoint, index: nat, part: PartName, file: Table, fields: Fields): Receipt
    requires index < |cp.tasks|
  {
    Receipt(env.checkpointSha(cp), env.pinSha(cp.tasks[index]), part, env.fileSha(file), fields)
  }

  /** verified_part on a receipt that exists: its pins, its part's name, the part's bytes and every field of the part. */
  predicate VerifiedPart(env: Env, disk: Disk, cp: Checkpoint, index: nat)
    requires index < |cp.tasks| && index in disk.receipts
  {
    var receipt := disk.receipts[index];
    && receipt.checkpointSha == env.checkpointSha(cp) && receipt.pinSha == env.pinSha(cp.tasks[index])
    && receipt.part.index == index && receipt.part in disk.parts
    && env.fileSha(disk.parts[receipt.part]) == receipt.fileSha
    && env.readback(disk.parts[receipt.part]) == Some(receipt.fields)
  }

  function Paths(tasks: seq<Pin>): seq<string> {
    seq(|tasks|, i requires 0 <= i < |tasks| => tasks[i].path)
  }

  /** {task.file.file_path: pin}: a later task of the same path replaces an earlier one. */
  function Planned(plan: seq<Pin>): map<string, Pin> {
    if plan == [] then map[]
    else Planned(plan[..|plan| - 1])[plan[|plan| - 1].path := plan[|plan| - 1]]
  }

  /** The resume check of the new plan against the frozen pins. */
  predicate Accepts(frozen: seq<Pin>, plan: seq<Pin>) {
    var planned := Planned(plan);
    && |frozen| == |planned| && |set path | path in Paths(frozen)| == |frozen|
    && forall pin :: pin in frozen ==> pin.path in planned && pin == planned[pin.path]
  }

  // ----- actions -----

  function Halt(s: State, status: Status): State {
    s.(proc := Ending(status))
  }

  function BeginStep(s: State, a: Action): (r: State)
    requires s.proc.Idle?
    ensures r.disk == s.disk.(started := r.disk.started)
  {
    match a
    case Begin(resume, max, binding) =>
      if max == Some(0) || resume != s.disk.started || s.disk.result == Some(Captured) then s
      else State(s.disk.(started := true), Started(resume, max, binding))
    case _ => s
  }

  function BindStep(s: State, a: Action): (r: State)
    requires s.proc.Started?
    ensures r.disk == s.disk.(checkpoint := r.disk.checkpoint)
  {
    match a
    case Bind(plan) =>
      if |Planned(plan)| != |plan| then Halt(s, Refused)
      else if !s.proc.resume then
        var cp := Checkpoint(s.proc.binding, plan);
        State(s.disk.(checkpoint := Some(cp)), Bound(cp, s.proc.max))
      else if s.disk.checkpoint.None? || s.disk.checkpoint.value.binding != s.proc.binding
           || !Accepts(s.disk.checkpoint.value.tasks, plan) then Halt(s, Refused)
      else s.(proc := Bound(s.disk.checkpoint.value, s.proc.max))
    case _ => s
  }

  function CommentsAsideStep(s: State, a: Action): (r: State)
    requires s.proc.Bound?
    ensures r.disk == s.disk.(comments := r.disk.comments, retained := r.disk.retained)
  {
    if !a.SetCommentsAside? then s
    else
      var aside := if s.disk.comments.Some? then [s.disk.comments.value] else [];
      State(s.disk.(comments := None, retained := s.disk.retained + aside), CommentsAside(s.proc.cp, s.proc.max))
  }

  function PopulationsAsideStep(s: State, a: Action): (r: State)
    requires s.proc.CommentsAside?
    ensures r.disk == s.disk.(populations := r.disk.populations)
  {
    if !a.SetPopulationsAside? then s
    else State(s.disk.(populations := None), Working(RunState(s.proc.cp, s.proc.max, [], 0)))
  }

  predicate MayRead(run: RunState) {
    run.max.None? || run.newTasks < run.max.value
  }

  /** The loop over tasks: reuse a receipt, read a task, stop at the bound, or finalize when every task has its receipt. */
  function WorkStep(env: Env, s: State, a: Action): (r: State)
    requires s.proc.Working?
    ensures r.disk == s.disk.(pending := r.disk.pending)
  {
    var run := s.proc.run;
    var index := |run.complete|;
    if index >= |run.cp.tasks| then
      if a.Finalize? && index == |run.cp.tasks| then s.(proc := Finalizing(run, 0, [])) else s
    else if index in s.disk.receipts then
      if !a.Reuse? then s
      else if VerifiedPart(env, s.disk, run.cp, index)
      then s.(proc := Working(run.(complete := run.complete + [s.disk.receipts[index]])))
      else Halt(s, Refused)
    else if !MayRead(run) then
      if a.Stop? then Halt(s, Checkpointed) else s
    else if a.ReadTask? then
      var part := PartName(index, a.token);
      if part in s.disk.parts || part in s.disk.pending then s
      else State(s.disk.(pending := s.disk.pending[part := a.file]),
                 Pending(run, part, env.rowsOf(run.cp.binding, run.cp.tasks[index])))
    else s
  }

  function ReadBackStep(env: Env, s: State, a: Action): (r: State)
    requires s.proc.Pending?
    ensures r.disk == s.disk
  {
    var Pending(run, part, streamed) := s.proc;
    if !a.ReadBack? then s
    else if part !in s.disk.pending || |run.complete| >= |run.cp.tasks| then Halt(s, Refused)
    else
      var file := s.disk.pending[part];
      var fields := env.readback(streamed);
      if fields.None? || env.readback(file) != fields then Halt(s, Refused)
      else s.(proc := Checked(run, MakeReceipt(env, run.cp, |run.complete|, part, file, fields.value)))
  }

  function RenameStep(s: State, a: Action): (r: State)
    requires s.proc.Checked?
    ensures r.disk == s.disk.(parts := r.disk.parts, pending := r.disk.pending)
  {
    var Checked(run, receipt) := s.proc;
    if !a.Rename? then s
    else if receipt.part !in s.disk.pending then Halt(s, Refused)
    else State(s.disk.(parts := s.disk.parts[receipt.part := s.disk.pending[receipt.part]],
                       pending := s.disk.pending - {receipt.part}), Renamed(run, receipt))
  }

  function WriteReceiptStep(s: State, a: Action): (r: State)
    requires s.proc.Renamed?
    ensures r.disk == s.disk.(receipts := r.disk.receipts)
  {
    var Renamed(run, receipt) := s.proc;
    if !a.WriteReceipt? then s
    else State(s.disk.(receipts := s.disk.receipts[|run.complete| := receipt]),
               Working(run.(complete := run.complete + [receipt], newTasks := run.newTasks + 1)))
  }

  /** The finalizing loop copies each admitted part, checking its digests as it goes. */
  function FinalizeStep(env: Env, s: State, a: Action): (r: State)
    requires s.proc.Finalizing?
    ensures r.disk == s.disk
  {
    var Finalizing(run, next, written) := s.proc;
    if next < |run.complete| then
      var receipt := run.complete[next];
      if !a.CopyPart? then s
      else if receipt.part !in s.disk.parts || env.readback(s.disk.parts[receipt.part]) != Some(receipt.fields)
      then Halt(s, Refused)
      else s.(proc := Finalizing(run, next + 1, written + s.disk.parts[receipt.part]))
    else if a.CloseExport? then s.(proc := Exported(run, written, a.file))
    else s
  }

  function QualifyStep(env: Env, s: State, a: Action): (r: State)
    requires s.proc.Exported?
    ensures r.disk == s.disk
  {
    var Exported(run, written, file) := s.proc;
    if !a.Qualify? then s
    else if env.readback(file).Some? && env.readback(file) == env.readback(written) then s.(proc := Qualified(run, file))
    else Halt(s, Refused)
  }

  function PublishCommentsStep(s: State, a: Action): (r: State)
    requires s.proc.Qualified?
    ensures r.disk == s.disk.(comments := r.disk.comments)
  {
    if !a.PublishComments? then s
    else State(s.disk.(comments := Some(s.proc.file)), CommentsPublished(s.proc.run, s.proc.file))
  }

  function PublishPopulationsStep(env: Env, s: State, a: Action): (r: State)
    requires s.proc.CommentsPublished?
    ensures r.disk == s.disk.(populations := r.disk.populations)
  {
    if !a.PublishPopulations? then s
    else State(s.disk.(populations := Some(env.populations(s.proc.file))), Ending(Captured))
  }

  /** One action of the running process; an action it is not ready for changes nothing. */
  function Advance(env: Env, s: State, a: Action): (r: State)
    ensures !s.proc.Renamed? ==> r.disk.receipts == s.disk.receipts
    ensures !s.proc.Checked? ==> r.disk.parts == s.disk.parts
    ensures !s.proc.Started? ==> r.disk.checkpoint == s.disk.checkpoint
  {
    match s.proc
    case Idle => BeginStep(s, a)
    case Started(_, _, _) => BindStep(s, a)
    case Bound(_, _) => CommentsAsideStep(s, a)
    case CommentsAside(_, _) => PopulationsAsideStep(s, a)
    case Working(_) => WorkStep(env, s, a)
    case Pending(_, _, _) => ReadBackStep(env, s, a)
    case Checked(_, _) => RenameStep(s, a)
    case Renamed(_, _) => WriteReceiptStep(s, a)
    case Finalizing(_, _, _) => FinalizeStep(env, s, a)
    case Exported(_, _, _) => QualifyStep(env, s, a)
    case Qualified(_, _) => PublishCommentsStep(s, a)
    case CommentsPublished(_, _) => PublishPopulationsStep(env, s, a)
    case Ending(status) => if a.RecordAttempt? then s.(proc := Recorded(status)) else s
    case Recorded(status) => if a.RecordResult? then State(s.disk.(result := Some(status)), Idle) else s
  }

  /** An error refuses any running attempt until its result is being recorded; a crash only stops the process;
      part files may be altered or lost at any time. */
  function Next(env: Env, s: State, a: Action): State {
    match a
    case Refuse => if s.proc.Idle? || s.proc.Recorded? then s else Halt(s, Refused)
    case Crash => s.(proc := Idle)
    case Tamper(part, content) =>
      s.(disk := s.disk.(parts := if content.Some? then s.disk.parts[part := content.value] else s.disk.parts - {part}))
    case _ => Advance(env, s, a)
  }

  function Run(env: Env, s: State, actions: seq<Action>): State {
    if actions == [] then s else Next(env, Run(env, s, actions[..|actions| - 1]), actions[|actions| - 1])
  }

  // ----- what is promised -----

  /** The rows of the tasks, one after another in the given order. */
  function Concatenated(env: Env, binding: string, tasks: seq<Pin>): Table {
    if tasks == [] then []
    else Concatenated(env, binding, tasks[..|tasks| - 1]) + env.rowsOf(binding, tasks[|tasks| - 1])
  }

  function Complete(env: Env, cp: Checkpoint): Table {
    Concatenated(env, cp.binding, cp.tasks)
  }

  /** The receipt of task `index` attests exactly that task's rows. */
  ghost predicate ReceiptFits(env: Env, cp: Checkpoint, index: nat, receipt: Receipt) {
    && index < |cp.tasks| && receipt.part.index == index
    && receipt.checkpointSha == env.checkpointSha(cp) && receipt.pinSha == env.pinSha(cp.tasks[index])
    && env.readback(env.rowsOf(cp.binding, cp.tasks[index])) == Some(receipt.fields)
  }

  /** Receipts cover exactly the first |receipts| frozen tasks. */
  ghost predicate ReceiptsArePrefix(disk: Disk) {
    forall i: nat :: i in disk.receipts <==> i < |disk.receipts|
  }

  ghost predicate DiskFits(env: Env, disk: Disk) {
    && ReceiptsArePrefix(disk)
    && (disk.checkpoint.None? ==> disk.receipts == map[] && disk.comments.None? && disk.populations.None?)
    && (disk.checkpoint.Some? ==> CheckpointFits(env, disk, disk.checkpoint.value))
    && (disk.result == Some(Captured) ==> disk.comments.Some? && disk.populations.Some?)
    && (!disk.started ==> disk.checkpoint.None? && disk.result.None?)
  }

  ghost predicate CheckpointFits(env: Env, disk: Disk, cp: Checkpoint) {
    && |disk.receipts| <= |cp.tasks|
    && (forall i :: i in disk.receipts ==> ReceiptFits(env, cp, i, disk.receipts[i]))
    && (disk.comments.Some? ==> disk.comments.value == Complete(env, cp))
    && (disk.populations.Some? ==> disk.populations.value == env.populations(Complete(env, cp)))
  }

  ghost predicate RunFits(disk: Disk, run: RunState) {
    && disk.checkpoint == Some(run.cp) && |run.complete| <= |run.cp.tasks|
    && forall i :: 0 <= i < |run.complete| ==> i in disk.receipts && disk.receipts[i] == run.complete[i]
  }

  /** The frozen task being read is the first without a receipt. */
  ghost predicate AtNewTask(disk: Disk, run: RunState) {
    RunFits(disk, run) && |run.complete| == |disk.receipts| < |run.cp.tasks|
  }

  ghost predicate AtEnd(disk: Disk, run: RunState) {
    RunFits(disk, run) && |run.complete| == |run.cp.tasks|
  }

  ghost predicate ProcFits(env: Env, s: State) {
    && (!s.proc.Idle? ==> s.disk.started && s.disk.result != Some(Captured))
    && match s.proc
       case Idle => true
       case Started(resume, _, _) => !resume ==> s.disk.checkpoint.None?
       case Bound(cp, _) => s.disk.checkpoint == Some(cp)
       case CommentsAside(cp, _) => s.disk.checkpoint == Some(cp)
       case Working(run) => RunFits(s.disk, run)
       case Pending(run, part, streamed) =>
         && AtNewTask(s.disk, run) && part.index == |run.complete|
         && streamed == env.rowsOf(run.cp.binding, run.cp.tasks[|run.complete|])
       case Checked(run, receipt) => AtNewTask(s.disk, run) && ReceiptFits(env, run.cp, |run.complete|, receipt)
       case Renamed(run, receipt) => AtNewTask(s.disk, run) && ReceiptFits(env, run.cp, |run.complete|, receipt)
       case Finalizing(run, next, written) =>
         && AtEnd(s.disk, run) && next <= |run.cp.tasks|
         && written == Concatenated(env, run.cp.binding, run.cp.tasks[..next])
       case Exported(run, written, _) => AtEnd(s.disk, run) && written == Complete(env, run.cp)
       case Qualified(run, file) => AtEnd(s.disk, run) && file == Complete(env, run.cp)
       case CommentsPublished(run, file) =>
         AtEnd(s.disk, run) && file == Complete(env, run.cp) && s.disk.comments == Some(file)
       case Ending(status) => status.Captured? ==> s.disk.comments.Some? && s.disk.populations.Some?
       case Recorded(status) => status.Captured? ==> s.disk.comments.Some? && s.disk.populations.Some?
  }

  ghost predicate Inv(env: Env, s: State) {
    DiskFits(env, s.disk) && ProcFits(env, s)
  }

  // ----- every step keeps the invariant -----

  lemma ConcatenatedSnoc(env: Env, binding: string, tasks: seq<Pin>, n: nat)
    requires n < |tasks|
    ensures Concatenated(env, binding, tasks[..n + 1]) ==
            Concatenated(env, binding, tasks[..n]) + env.rowsOf(binding, tasks[n])
  {
    assert tasks[..n + 1][..n] == tasks[..n];
  }

  lemma FirstWithoutReceipt(disk: Disk, run: RunState)
    requires ReceiptsArePrefix(disk) && RunFits(disk, run)
    ensures |run.complete| <= |disk.receipts|
    ensures |run.complete| !in disk.receipts ==> |run.complete| == |disk.receipts|
  {
    if |run.complete| > 0 {
      assert |run.complete| - 1 in disk.receipts;
    }
  }

  lemma WorkKeepsDisk(env: Env, s: State, a: Action)
    requires Inv(env, s) && s.proc.Working?
    ensures DiskFits(env, WorkStep(env, s, a).disk)
  {
    assert WorkStep(env, s, a).disk.(pending := s.disk.pending) == s.disk;
  }

  lemma LastTaskKeepsProc(env: Env, s: State, a: Action)
    requires Inv(env, s) && s.proc.Working? && |s.proc.run.complete| >= |s.proc.run.cp.tasks|
    ensures ProcFits(env, WorkStep(env, s, a))
  {
    assert s.proc.run.cp.tasks[..0] == [];
  }

  lemma HeldTaskKeepsProc(env: Env, s: State, a: Action)
    requires Inv(env, s) && s.proc.Working? && |s.proc.run.complete| < |s.proc.run.cp.tasks|
    requires |s.proc.run.complete| in s.disk.receipts
    ensures ProcFits(env, WorkStep(env, s, a))
  {
  }

  lemma NewTaskKeepsProc(env: Env, s: State, a: Action)
    requires Inv(env, s) && s.proc.Working? && |s.proc.run.complete| < |s.proc.run.cp.tasks|
    requires |s.proc.run.complete| !in s.disk.receipts
    ensures ProcFits(env, WorkStep(env, s, a))
  {
    FirstWithoutReceipt(s.disk, s.proc.run);
  }

  lemma WorkKeepsProc(env: Env, s: State, a: Action)
    requires Inv(env, s) && s.proc.Working?
    ensures ProcFits(env, WorkStep(env, s, a))
  {
    var run := s.proc.run;
    if |run.complete| >= |run.cp.tasks| {
      LastTaskKeepsProc(env, s, a);
    } else if |run.complete| in s.disk.receipts {
      HeldTaskKeepsProc(env, s, a);
    } else {
      NewTaskKeepsProc(env, s, a);
    }
  }

  lemma ReadBackKeepsInv(env: Env, s: State, a: Action)
    requires Inv(env, s) && s.proc.Pending?
    ensures Inv(env, ReadBackStep(env, s, a))
  {
  }

  lemma WriteReceiptKeepsInv(env: Env, s: State, a: Action)
    requires Inv(env, s) && s.proc.Renamed?
    ensures Inv(env, WriteReceiptStep(s, a))
  {
    if a.WriteReceipt? {
      var after := WriteReceiptStep(s, a);
      assert |after.disk.receipts| == |s.disk.receipts| + 1;
    }
  }

  lemma FinalizeKeepsInv(env: Env, s: State, a: Action)
    requires Sound(env) && Inv(env, s) && s.proc.Finalizing?
    ensures Inv(env, FinalizeStep(env, s, a))
  {
    var Finalizing(run, next, written) := s.proc;
    if next < |run.complete| {
      var receipt := run.complete[next];
      assert receipt == s.disk.receipts[next] && ReceiptFits(env, run.cp, next, receipt);
      ConcatenatedSnoc(env, run.cp.binding, run.cp.tasks, next);
    } else {
      assert run.cp.tasks[..next] == run.cp.tasks;
    }
  }

  lemma PublishKeepsInv(env: Env, s: State, a: Action)
    requires Sound(env) && Inv(env, s) && (s.proc.Exported? || s.proc.Qualified? || s.proc.CommentsPublished?)
    ensures Inv(env, Advance(env, s, a))
  {
  }

  lemma BookkeepingKeepsInv(env: Env, s: State, a: Action)
    requires Inv(env, s)
    requires s.proc.Idle? || s.proc.Started? || s.proc.Bound? || s.proc.CommentsAside? || s.proc.Checked? || s.proc.Ending?
             || s.proc.Recorded?
    ensures Inv(env, Advance(env, s, a))
  {
  }

  lemma AdvanceKeepsInv(env: Env, s: State, a: Action)
    requires Sound(env) && Inv(env, s)
    ensures Inv(env, Advance(env, s, a))
  {
    match s.proc
    case Working(_) => WorkKeepsDisk(env, s, a); WorkKeepsProc(env, s, a);
    case Pending(_, _, _) => ReadBackKeepsInv(env, s, a);
    case Renamed(_, _) => WriteReceiptKeepsInv(env, s, a);
    case Finalizing(_, _, _) => FinalizeKeepsInv(env, s, a);
    case Exported(_, _, _) => PublishKeepsInv(env, s, a);
    case Qualified(_, _) => PublishKeepsInv(env, s, a);
    case CommentsPublished(_, _) => PublishKeepsInv(env, s, a);
    case _ => BookkeepingKeepsInv(env, s, a);
  }

  lemma StepKeepsInv(env: Env, s: State, a: Action)
    requires Sound(env) && Inv(env, s)
    ensures Inv(env, Next(env, s, a))
  {
    if !a.Refuse? && !a.Crash? && !a.Tamper? {
      AdvanceKeepsInv(env, s, a);
    }
  }

  lemma {:induction false} RunKeepsInv(env: Env, s: State, actions: seq<Action>)
    requires Sound(env) && Inv(env, s)
    ensures Inv(env, Run(env, s, actions))
  {
    if actions != [] {
      RunKeepsInv(env, s, actions[..|actions| - 1]);
      StepKeepsInv(env, Run(env, s, actions[..|actions| - 1]), actions[|actions| - 1]);
    }
  }
}
