/** One uninterrupted attempt of capture() (scripts/capture_comments_current.py:278-520): the program with its loops,
    the function it computes, and that function as a path of CaptureProtocol. */
module CaptureAttempt {
  import opened Basics
  import opened Framing
  import opened CaptureProtocol

  // ----- what one attempt computes -----

  /** What an attempt meets: what the Parquet writer stores of given rows; which tasks the reader reads to their end, and
      what is in the pending file when it fails; and whether runtime, snapshot and read semantics are the expected ones
      when the attempt starts and when it checks them afresh at its end. */
  datatype World = World(writer: Table -> Table, readable: Pin -> bool, torn: Pin -> Table, startFits: bool, endFits: bool)

  /** A new task: pending part, readback against the reader's own values, rename, receipt. */
  function NewTask(env: Env, disk: Disk, run: RunState, part: PartName, world: World): (Disk, Option<Receipt>)
    requires |run.complete| < |run.cp.tasks|
  {
    var pin := run.cp.tasks[|run.complete|];
    if !world.readable(pin) then (disk.(pending := disk.pending[part := world.torn(pin)]), None)
    else StoredTask(env, disk, run, part, world.writer(env.rowsOf(run.cp.binding, pin)))
  }

  /** The reader is done and the pending file holds `stored`. */
  function StoredTask(env: Env, disk: Disk, run: RunState, part: PartName, stored: Table): (Disk, Option<Receipt>)
    requires |run.complete| < |run.cp.tasks|
  {
    var index := |run.complete|;
    var fields := env.readback(env.rowsOf(run.cp.binding, run.cp.tasks[index]));
    if fields.None? || env.readback(stored) != fields then (disk.(pending := disk.pending[part := stored]), None)
    else
      var receipt := MakeReceipt(env, run.cp, index, part, stored, fields.value);
      (disk.(parts := disk.parts[part := stored], pending := disk.pending[part := stored] - {part},
             receipts := disk.receipts[index := receipt]), Some(receipt))
  }

  function Reused(disk: Disk, run: RunState): RunState
    requires |run.complete| in disk.receipts
  {
    run.(complete := run.complete + [disk.receipts[|run.complete|]])
  }

  function Added(run: RunState, receipt: Receipt): RunState {
    run.(complete := run.complete + [receipt], newTasks := run.newTasks + 1)
  }

  /** The loop over tasks; a status says that it stopped short of the last task. */
  function TaskLoop(env: Env, disk: Disk, run: RunState, token: nat, world: World): (Disk, RunState, Option<Status>)
    decreases |run.cp.tasks| - |run.complete|
  {
    var index := |run.complete|;
    if index >= |run.cp.tasks| then (disk, run, None)
    else if index in disk.receipts then
      if VerifiedPart(env, disk, run.cp, index) then TaskLoop(env, disk, Reused(disk, run), token, world)
      else (disk, run, Some(Refused))
    else if !MayRead(run) then (disk, run, Some(if world.endFits then Checkpointed else Refused))
    else
      var (after, receipt) := NewTask(env, disk, run, PartName(index, token), world);
      if receipt.None? then (after, run, Some(Refused))
      else TaskLoop(env, after, Added(run, receipt.value), token + 1, world)
  }

  /** The finalizing loop from part `next` on; None when a part no longer matches its receipt. */
  function CopyLoop(env: Env, disk: Disk, complete: seq<Receipt>, next: nat, written: Table): Option<Table>
    decreases |complete| - next
  {
    if next >= |complete| then Some(written)
    else
      var receipt := complete[next];
      if receipt.part !in disk.parts || env.readback(disk.parts[receipt.part]) != Some(receipt.fields) then None
      else CopyLoop(env, disk, complete, next + 1, written + disk.parts[receipt.part])
  }

  function Publish(env: Env, disk: Disk, written: Table, stored: Table): (Disk, Status) {
    if env.readback(stored).None? || env.readback(stored) != env.readback(written) then (disk, Refused)
    else (disk.(comments := Some(stored), populations := Some(env.populations(stored))), Captured)
  }

  /** Everything after the checkpoint is bound. */
  function Work(env: Env, disk: Disk, cp: Checkpoint, max: Option<nat>, token: nat, world: World): (Disk, Status) {
    var (tasked, run, stop) := TaskLoop(env, SetAside(disk), RunState(cp, max, [], 0), token, world);
    if stop.Some? then (tasked, stop.value)
    else
      match CopyLoop(env, tasked, run.complete, 0, [])
      case None => (tasked, Refused)
      case Some(written) => if !world.endFits then (tasked, Refused) else Publish(env, tasked, written, world.writer(written))
  }

  function SetAside(disk: Disk): Disk {
    var aside := if disk.comments.Some? then [disk.comments.value] else [];
    disk.(comments := None, populations := None, retained := disk.retained + aside)
  }

  /** The checkpoint a run works from: the plan on a first run, the frozen one if the plan fits it on a resume; none when
      the start checks fail. */
  function BoundCheckpoint(disk: Disk, resume: bool, binding: string, plan: seq<Pin>, startFits: bool): Option<Checkpoint> {
    if !startFits then None
    else if |Planned(plan)| != |plan| then None
    else if !resume then Some(Checkpoint(binding, plan))
    else if disk.checkpoint.None? || disk.checkpoint.value.binding != binding || !Accepts(disk.checkpoint.value.tasks, plan)
    then None
    else disk.checkpoint
  }

  predicate Enters(disk: Disk, resume: bool, max: Option<nat>) {
    max != Some(0) && resume == disk.started && disk.result != Some(Captured)
  }

  /** The attempt as a whole; no status when it is turned away before it touches anything. */
  function Attempt(env: Env, disk: Disk, resume: bool, max: Option<nat>, binding: string, plan: seq<Pin>, token: nat,
                   world: World): (Disk, Option<Status>)
  {
    if !Enters(disk, resume, max) then (disk, None)
    else
      match BoundCheckpoint(disk, resume, binding, plan, world.startFits)
      case None => (disk.(started := true, result := Some(Refused)), Some(Refused))
      case Some(cp) =>
        var (after, status) := Work(env, disk.(started := true, checkpoint := Some(cp)), cp, max, token, world);
        (after.(result := Some(status)), Some(status))
  }

  // ----- the program -----

  class OutputDirectory {
    const env: Env
    var started: bool
    var checkpoint: Option<Checkpoint>
    var parts: map<PartName, Table>
    var pending: map<PartName, Table>
    var receipts: map<nat, Receipt>
    var comments: Option<Table>
    var populations: Option<multiset<Value>>
    var result: Option<Status>
    var retained: seq<Table>

    function OnDisk(): Disk
      reads this
    {
      Disk(started, checkpoint, parts, pending, receipts, comments, populations, result, retained)
    }

    constructor (env: Env)
      ensures OnDisk() == NO_DIRECTORY && this.env == env
    {
      this.env := env;
      started, checkpoint, parts, pending, receipts := false, None, map[], map[], map[];
      comments, populations, result, retained := None, None, None, [];
    }

    method ReadNewTask(run: RunState, token: nat, world: World) returns (receipt: Option<Receipt>)
      requires |run.complete| < |run.cp.tasks|
      modifies this`parts, this`pending, this`receipts
      ensures (OnDisk(), receipt) == NewTask(env, old(OnDisk()), run, PartName(|run.complete|, token), world)
    {
      var index := |run.complete|;
      var part, pin := PartName(index, token), run.cp.tasks[index];
      if !world.readable(pin) {
        pending := pending[part := world.torn(pin)];
        return None;
      }
      var rows := env.rowsOf(run.cp.binding, pin);
      var fields, stored := env.readback(rows), world.writer(rows);
      pending := pending[part := stored];
      if fields.None? || env.readback(stored) != fields {
        return None;
      }
      var made := MakeReceipt(env, run.cp, index, part, stored, fields.value);
      parts, pending := parts[part := pending[part]], pending - {part};
      receipts := receipts[index := made];
      receipt := Some(made);
    }

    method ReadTasks(cp: Checkpoint, max: Option<nat>, token: nat, world: World)
      returns (run: RunState, stop: Option<Status>)
      modifies this`parts, this`pending, this`receipts
      ensures (OnDisk(), run, stop) == TaskLoop(env, old(OnDisk()), RunState(cp, max, [], 0), token, world)
    {
      run, stop := RunState(cp, max, [], 0), None;
      var unused := token;
      while |run.complete| < |cp.tasks|
        invariant run.cp == cp
        invariant TaskLoop(env, old(OnDisk()), RunState(cp, max, [], 0), token, world)
               == TaskLoop(env, OnDisk(), run, unused, world)
        decreases |cp.tasks| - |run.complete|
      {
        var index := |run.complete|;
        if index in receipts {
          if !VerifiedPart(env, OnDisk(), cp, index) {
            return run, Some(Refused);
          }
          run := Reused(OnDisk(), run);
        } else if !MayRead(run) {
          return run, Some(if world.endFits then Checkpointed else Refused);
        } else {
          var receipt := ReadNewTask(run, unused, world);
          if receipt.None? {
            return run, Some(Refused);
          }
          run, unused := Added(run, receipt.value), unused + 1;
        }
      }
    }

    method CopyParts(complete: seq<Receipt>) returns (written: Option<Table>)
      ensures written == CopyLoop(env, OnDisk(), complete, 0, [])
    {
      var rows: Table := [];
      var next := 0;
      while next < |complete|
        invariant 0 <= next <= |complete|
        invariant CopyLoop(env, OnDisk(), complete, 0, []) == CopyLoop(env, OnDisk(), complete, next, rows)
      {
        var receipt := complete[next];
        if receipt.part !in parts || env.readback(parts[receipt.part]) != Some(receipt.fields) {
          return None;
        }
        rows, next := rows + parts[receipt.part], next + 1;
      }
      written := Some(rows);
    }

    method DoWork(cp: Checkpoint, max: Option<nat>, token: nat, world: World) returns (status: Status)
      modifies this
      ensures (OnDisk(), status) == Work(env, old(OnDisk()), cp, max, token, world)
    {
      if comments.Some? {
        retained := retained + [comments.value];
      }
      comments, populations := None, None;
      assert retained == old(retained) + if old(comments).Some? then [old(comments).value] else [];
      var run, stop := ReadTasks(cp, max, token, world);
      if stop.Some? {
        return stop.value;
      }
      var written := CopyParts(run.complete);
      if written.None? || !world.endFits {
        return Refused;
      }
      var stored := world.writer(written.value);
      if env.readback(stored).None? || env.readback(stored) != env.readback(written.value) {
        return Refused;
      }
      comments, populations := Some(stored), Some(env.populations(stored));
      status := Captured;
    }

    /** capture(): see AttemptSucceeds for what this outcome is. */
    method Capture(resume: bool, max: Option<nat>, binding: string, plan: seq<Pin>, token: nat, world: World)
      returns (outcome: Option<Status>)
      modifies this
      ensures (OnDisk(), outcome) == Attempt(env, old(OnDisk()), resume, max, binding, plan, token, world)
    {
      if !Enters(OnDisk(), resume, max) {
        return None;
      }
      started := true;
      var cp := BoundCheckpoint(OnDisk(), resume, binding, plan, world.startFits);
      if cp.None? {
        result := Some(Refused);
        return Some(Refused);
      }
      checkpoint := cp;
      var status := DoWork(cp.value, max, token, world);
      result := Some(status);
      outcome := Some(status);
    }
  }
}
