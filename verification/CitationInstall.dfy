/** On-demand preparation of private citation inputs, src/spicy_regs/citation_receipts.py: a lock for each connection, a
    check under it, and a transaction that copies every named table and writes the readiness record last. */
module CitationInstall {
  import opened Basics

  type Name = string
  type Rows = seq<string>
  type Thread = nat

  const BATCH: nat := 2000
  const PROCESSING_PREFIX := "_spicy_citation_processing_"
  const DIGEST_PREFIX := "_spicy_citation_digests_"

  /** The readiness record: the table bindings it names, in the order the copy takes them. */
  datatype Record = Record(tables: seq<Name>, sources: seq<Name>)

  /** The private tables and the record that a transaction sees. */
  datatype Database = Database(record: Option<Record>, tables: map<Name, Rows>)

  const BARE := Database(None, map[])

  /** dict.fromkeys((*tables, *sources)): each name once, first mention first. */
  function Names(record: Record): seq<Name> {
    Dedup(record.tables + record.sources)
  }

  /** Every table the record mentions, on either side, once. */
  lemma NamesMeaning(record: Record)
    ensures Distinct(Names(record)) && forall n :: n in Names(record) <==> n in record.tables || n in record.sources
  {
    DedupProperties(record.tables + record.sources);
  }

  predicate IsPrivate(name: Name) {
    PROCESSING_PREFIX <= name || DIGEST_PREFIX <= name
  }

  /** A whole install: the record, and each named table with exactly the source's rows in order. */
  ghost predicate Installed(db: Database, record: Record, source: map<Name, Rows>) {
    && db.record == Some(record)
    && (forall n :: n in db.tables <==> n in Names(record))
    && (forall n :: n in Names(record) ==> n in source && IsPrivate(n) && db.tables[n] == source[n])
  }

  // ----- threads on one connection -----

  /** Where a request is. A transaction keeps its own view of the database until it commits. */
  datatype Phase =
    | Waiting
    | Locked
    | Prepared(record: Record, source: map<Name, Rows>)
    | Copying(record: Record, source: map<Name, Rows>, work: Database, table: nat, rows: nat)
    | Ready(record: Record, source: map<Name, Rows>, work: Database)
    | Releasing

  /** `origin` is the source the committed install copied; `commits` counts installs. */
  datatype State = State(committed: Database, holder: Option<Thread>, phases: map<Thread, Phase>,
                         origin: Option<(Record, map<Name, Rows>)>, commits: nat)

  const START := State(BARE, None, map[], None, 0)

  datatype Step =
    | Arrive(t: Thread)
    | Acquire(t: Thread)
    | Check(t: Thread)
    | Prepare(t: Thread, record: Record, source: map<Name, Rows>)
    | BeginTransaction(t: Thread)
    | CreateTable(t: Thread)
    | CopyBatch(t: Thread, size: nat)
    | FinishTable(t: Thread)
    | WriteRecord(t: Thread)
    | Commit(t: Thread)
    | Fail(t: Thread)
    | Release(t: Thread)

  function Go(s: State, t: Thread, phase: Phase): State {
    s.(phases := s.phases[t := phase])
  }

  /** One step of one thread; a step its thread is not ready for changes nothing. A failure anywhere drops the
      transaction's work and leads to the release. */
  function Next(s: State, step: Step): State {
    if step.Arrive? then (if step.t in s.phases then s else Go(s, step.t, Waiting))
    else if step.t !in s.phases then s
    else
      match (step, s.phases[step.t])
      case (Acquire(t), Waiting) => if s.holder.Some? then s else Go(s, t, Locked).(holder := Some(t))
      case (Check(t), Locked) => if s.committed.record.Some? then Go(s, t, Releasing) else s
      case (Prepare(t, record, source), Locked) =>
        if s.committed.record.Some? then s else Go(s, t, Prepared(record, source))
      case (BeginTransaction(t), Prepared(record, source)) => Go(s, t, Copying(record, source, s.committed, 0, 0))
      case (CreateTable(t), Copying(record, source, work, table, _)) =>
        if table >= |Names(record)| then s
        else
          var name := Names(record)[table];
          if !IsPrivate(name) || name !in source || name in work.tables then Go(s, t, Releasing)
          else Go(s, t, Copying(record, source, work.(tables := work.tables[name := []]), table, 0))
      case (CopyBatch(t, size), Copying(record, source, work, table, rows)) =>
        if table >= |Names(record)| || Names(record)[table] !in work.tables || Names(record)[table] !in source
           || size == 0 || size > BATCH || rows + size > |source[Names(record)[table]]| then s
        else
          var name := Names(record)[table];
          var more := work.tables[name] + source[name][rows..rows + size];
          Go(s, t, Copying(record, source, work.(tables := work.tables[name := more]), table, rows + size))
      case (FinishTable(t), Copying(record, source, work, table, rows)) =>
        if table >= |Names(record)| || Names(record)[table] !in work.tables || Names(record)[table] !in source
           || rows != |source[Names(record)[table]]| then s
        else Go(s, t, Copying(record, source, work, table + 1, 0))
      case (WriteRecord(t), Copying(record, source, work, table, _)) =>
        if table < |Names(record)| then s else Go(s, t, Ready(record, source, work.(record := Some(record))))
      case (Commit(t), Ready(record, source, work)) =>
        Go(s, t, Releasing).(committed := work, origin := Some((record, source)), commits := s.commits + 1)
      case (Fail(t), phase) =>
        if phase.Waiting? then s.(phases := s.phases - {t}) else Go(s, t, Releasing)
      case (Release(t), Releasing) => s.(holder := None, phases := s.phases - {t})
      case _ => s
  }

  function Run(steps: seq<Step>): State {
    if steps == [] then START else Next(Run(steps[..|steps| - 1]), steps[|steps| - 1])
  }

  /** The tables copied so far: whole ones before `table`, and the first `rows` rows of the one being copied. */
  ghost predicate WorkFits(record: Record, source: map<Name, Rows>, work: Database, table: nat, rows: nat) {
    var names := Names(record);
    && work.record.None? && table <= |names|
    && (forall n :: n in work.tables ==> exists i :: 0 <= i <= table && i < |names| && names[i] == n)
    && (forall i :: 0 <= i < table ==>
          names[i] in work.tables && names[i] in source && IsPrivate(names[i]) && work.tables[names[i]] == source[names[i]])
    && (table < |names| && names[table] in work.tables ==>
          names[table] in source && IsPrivate(names[table]) && rows <= |source[names[table]]|
          && work.tables[names[table]] == source[names[table]][..rows])
    && (rows > 0 ==> table < |names| && names[table] in work.tables)
  }

  ghost predicate PhaseFits(s: State, t: Thread, phase: Phase) {
    && (!phase.Waiting? ==> s.holder == Some(t))
    && (phase.Prepared? || phase.Copying? || phase.Ready? ==> s.committed == BARE)
    && match phase
       case Copying(record, source, work, table, rows) => WorkFits(record, source, work, table, rows)
       case Ready(record, source, work) => Installed(work, record, source)
       case _ => true
  }

  ghost predicate Inv(s: State) {
    && (s.holder.Some? ==> s.holder.value in s.phases && !s.phases[s.holder.value].Waiting?)
    && (forall t :: t in s.phases ==> PhaseFits(s, t, s.phases[t]))
    && match s.origin
       case None => s.committed == BARE && s.commits == 0
       case Some((record, source)) => Installed(s.committed, record, source) && s.commits == 1
  }

  lemma CreateFits(record: Record, source: map<Name, Rows>, work: Database, table: nat)
    requires WorkFits(record, source, work, table, 0) && table < |Names(record)|
    requires IsPrivate(Names(record)[table]) && Names(record)[table] in source && Names(record)[table] !in work.tables
    ensures WorkFits(record, source, work.(tables := work.tables[Names(record)[table] := []]), table, 0)
  {
    var names := Names(record);
    var after := work.tables[names[table] := []];
    forall n | n in after
      ensures exists i :: 0 <= i <= table && i < |names| && names[i] == n
    {
      if n == names[table] {
        assert names[table] == n;
      }
    }
  }

  lemma CopyFits(record: Record, source: map<Name, Rows>, work: Database, table: nat, rows: nat, size: nat)
    requires WorkFits(record, source, work, table, rows) && table < |Names(record)|
    requires Names(record)[table] in work.tables && Names(record)[table] in source
    requires rows + size <= |source[Names(record)[table]]|
    ensures var name := Names(record)[table];
      WorkFits(record, source, work.(tables := work.tables[name := work.tables[name] + source[name][rows..rows + size]]),
               table, rows + size)
  {
    var names := Names(record);
    DedupProperties(record.tables + record.sources);
    var all := source[names[table]];
    assert all[..rows] + all[rows..rows + size] == all[..rows + size];
    forall i | 0 <= i < table
      ensures names[i] != names[table]
    {
    }
  }

  lemma FinishFits(record: Record, source: map<Name, Rows>, work: Database, table: nat, rows: nat)
    requires WorkFits(record, source, work, table, rows) && table < |Names(record)|
    requires Names(record)[table] in work.tables && Names(record)[table] in source
    requires rows == |source[Names(record)[table]]|
    ensures WorkFits(record, source, work, table + 1, 0)
  {
    var names := Names(record);
    var all := source[names[table]];
    assert all[..rows] == all;
    if table + 1 < |names| {
      NotCopiedYet(record, source, work, table, rows);
    }
  }

  lemma NotCopiedYet(record: Record, source: map<Name, Rows>, work: Database, table: nat, rows: nat)
    requires WorkFits(record, source, work, table, rows) && table + 1 < |Names(record)|
    ensures Names(record)[table + 1] !in work.tables
  {
    DedupProperties(record.tables + record.sources);
    assert forall i :: 0 <= i <= table ==> Names(record)[i] != Names(record)[table + 1];
  }

  lemma AllCopied(record: Record, source: map<Name, Rows>, work: Database, table: nat, rows: nat)
    requires WorkFits(record, source, work, table, rows) && table >= |Names(record)|
    ensures Installed(work.(record := Some(record)), record, source)
  {
    forall n | n in Names(record)
      ensures n in work.tables && n in source && IsPrivate(n) && work.tables[n] == source[n]
    {
      var i :| 0 <= i < |Names(record)| && Names(record)[i] == n;
    }
  }

  lemma CopyingKeepsFit(s: State, step: Step)
    requires Inv(s) && step.t in s.phases && s.phases[step.t].Copying? && !step.Arrive?
    ensures step.t in Next(s, step).phases && PhaseFits(Next(s, step), step.t, Next(s, step).phases[step.t])
    ensures Next(s, step).committed == s.committed && Next(s, step).holder == s.holder
    ensures Next(s, step).origin == s.origin && Next(s, step).commits == s.commits
  {
    var Copying(record, source, work, table, rows) := s.phases[step.t];
    assert PhaseFits(s, step.t, s.phases[step.t]);
    if table < |Names(record)| {
      var name := Names(record)[table];
      if step.CreateTable? && IsPrivate(name) && name in source && name !in work.tables {
        CreateFits(record, source, work, table);
      } else if step.CopyBatch? && name in work.tables && name in source && rows + step.size <= |source[name]| {
        CopyFits(record, source, work, table, rows, step.size);
      } else if step.FinishTable? && name in work.tables && name in source && rows == |source[name]| {
        FinishFits(record, source, work, table, rows);
      }
    } else {
      AllCopied(record, source, work, table, rows);
    }
  }

  lemma OtherStepKeepsInv(s: State, step: Step)
    requires Inv(s) && !(step.t in s.phases && s.phases[step.t].Copying? && !step.Arrive?)
    ensures Inv(Next(s, step))
  {
    if step.t in s.phases {
      assert PhaseFits(s, step.t, s.phases[step.t]);
    }
    var after := Next(s, step);
    forall t | t in after.phases
      ensures PhaseFits(after, t, after.phases[t])
    {
      if t in s.phases {
        assert PhaseFits(s, t, s.phases[t]);
      }
    }
  }

  lemma StepKeepsInv(s: State, step: Step)
    requires Inv(s)
    ensures Inv(Next(s, step))
  {
    if step.t in s.phases && s.phases[step.t].Copying? && !step.Arrive? {
      CopyingKeepsFit(s, step);
      assert PhaseFits(s, step.t, s.phases[step.t]);
      var after := Next(s, step);
      forall t | t in after.phases
        ensures PhaseFits(after, t, after.phases[t])
      {
        if t != step.t {
          assert PhaseFits(s, t, s.phases[t]);
        }
      }
    } else {
      OtherStepKeepsInv(s, step);
    }
  }

  lemma {:induction false} RunKeepsInv(steps: seq<Step>)
    ensures Inv(Run(steps))
  {
    if steps != [] {
      RunKeepsInv(steps[..|steps| - 1]);
      StepKeepsInv(Run(steps[..|steps| - 1]), steps[|steps| - 1]);
    }
  }

  /** With any number of threads and a failure possible at every step, what other cursors can read is either nothing at
      all, or the record with a row-for-row, in-order copy of every table it names; and at most one install ever commits. */
  lemma AllOrNothing(steps: seq<Step>)
    ensures var s := Run(steps);
      && s.commits <= 1 && (s.committed.record.Some? <==> s.commits == 1)
      && (s.commits == 0 ==> s.committed == BARE)
      && (s.commits == 1 ==> s.origin.Some? && Installed(s.committed, s.origin.value.0, s.origin.value.1))
  {
    RunKeepsInv(steps);
  }

  // ----- failure and retry -----

  function After(s: State, steps: seq<Step>): State
    decreases |steps|
  {
    if steps == [] then s else After(Next(s, steps[0]), steps[1..])
  }

  lemma {:induction false} AfterJoins(s: State, first: seq<Step>, second: seq<Step>)
    ensures After(s, first + second) == After(After(s, first), second)
    decreases |first|
  {
    if first == [] {
      assert first + second == second;
    } else {
      assert (first + second)[1..] == first[1..] + second;
      AfterJoins(Next(s, first[0]), first[1..], second);
    }
  }

  /** A failure in any phase past the wait rolls the transaction back: once the lock is let go, what is committed is what
      was committed before, and the next thread can take the lock. */
  lemma FailureRollsBack(steps: seq<Step>, t: Thread)
    requires t in Run(steps).phases && !Run(steps).phases[t].Waiting?
    ensures var s := Run(steps);
      && After(s, [Fail(t), Release(t)]) == s.(holder := None, phases := s.phases - {t})
      && s.holder == Some(t)
  {
    RunKeepsInv(steps);
    var s := Run(steps);
    assert PhaseFits(s, t, s.phases[t]);
    var failed := Next(s, Fail(t));
    assert failed == Go(s, t, Releasing);
    assert s.phases[t := Releasing] - {t} == s.phases - {t};
    assert After(s, [Fail(t), Release(t)]) == After(failed, [Release(t)]);
    assert After(failed, [Release(t)]) == After(Next(failed, Release(t)), []);
  }

  /** The copying of one table in batches of at most BATCH rows, from row `rows` on. */
  function Batches(t: Thread, rows: nat, total: nat): seq<Step>
    requires rows <= total
    decreases total - rows
  {
    if rows == total then [FinishTable(t)]
    else
      var size := Min(BATCH, total - rows);
      [CopyBatch(t, size)] + Batches(t, rows + size, total)
  }

  function Copies(t: Thread, record: Record, source: map<Name, Rows>, table: nat): seq<Step>
    requires forall n :: n in Names(record) ==> n in source
    requires table <= |Names(record)|
    decreases |Names(record)| - table
  {
    if table == |Names(record)| then []
    else [CreateTable(t)] + Batches(t, 0, |source[Names(record)[table]]|) + Copies(t, record, source, table + 1)
  }

  /** A request that meets no failure. */
  function Attempt(t: Thread, record: Record, source: map<Name, Rows>): seq<Step>
    requires forall n :: n in Names(record) ==> n in source
  {
    [Arrive(t), Acquire(t), Prepare(t, record, source), BeginTransaction(t)] + Copies(t, record, source, 0)
    + [WriteRecord(t), Commit(t), Release(t)]
  }

  ghost predicate Private(record: Record, source: map<Name, Rows>) {
    forall n :: n in Names(record) ==> n in source && IsPrivate(n)
  }

  /** Thread t has copied the first `table` tables whole and has not begun the next. */
  ghost predicate Between(s: State, t: Thread, record: Record, source: map<Name, Rows>, table: nat) {
    && Inv(s) && t in s.phases && s.phases[t].Copying? && table <= |Names(record)|
    && s.phases[t] == Copying(record, source, s.phases[t].work, table, 0)
    && (table < |Names(record)| ==> Names(record)[table] !in s.phases[t].work.tables)
  }

  /** Thread t is copying the table with this number and has copied its first `rows` rows. */
  ghost predicate Within(s: State, t: Thread, record: Record, source: map<Name, Rows>, table: nat, rows: nat) {
    && Inv(s) && t in s.phases && s.phases[t].Copying? && table < |Names(record)|
    && s.phases[t] == Copying(record, source, s.phases[t].work, table, rows)
    && Names(record)[table] in source && Names(record)[table] in s.phases[t].work.tables
    && rows <= |source[Names(record)[table]]|
  }

  lemma TableFinishes(s: State, t: Thread, record: Record, source: map<Name, Rows>, table: nat, rows: nat)
    requires Within(s, t, record, source, table, rows) && rows == |source[Names(record)[table]]|
    ensures Between(Next(s, FinishTable(t)), t, record, source, table + 1)
  {
    StepKeepsInv(s, FinishTable(t));
    assert PhaseFits(s, t, s.phases[t]);
    if table + 1 < |Names(record)| {
      NotCopiedYet(record, source, s.phases[t].work, table, rows);
    }
  }

  lemma BatchCopies(s: State, t: Thread, record: Record, source: map<Name, Rows>, table: nat, rows: nat, size: nat)
    requires Within(s, t, record, source, table, rows) && 0 < size <= BATCH
    requires rows + size <= |source[Names(record)[table]]|
    ensures Within(Next(s, CopyBatch(t, size)), t, record, source, table, rows + size)
  {
    StepKeepsInv(s, CopyBatch(t, size));
  }

  lemma {:induction false} BatchesFinish(s: State, t: Thread, record: Record, source: map<Name, Rows>, table: nat, rows: nat)
    requires Within(s, t, record, source, table, rows)
    ensures Between(After(s, Batches(t, rows, |source[Names(record)[table]]|)), t, record, source, table + 1)
    decreases |source[Names(record)[table]]| - rows
  {
    var total := |source[Names(record)[table]]|;
    var steps := Batches(t, rows, total);
    if rows == total {
      TableFinishes(s, t, record, source, table, rows);
      assert After(s, steps) == After(Next(s, steps[0]), []);
    } else {
      var size := Min(BATCH, total - rows);
      assert steps[1..] == Batches(t, rows + size, total);
      BatchCopies(s, t, record, source, table, rows, size);
      BatchesFinish(Next(s, steps[0]), t, record, source, table, rows + size);
    }
  }

  lemma TableOpens(s: State, t: Thread, record: Record, source: map<Name, Rows>, table: nat)
    requires Between(s, t, record, source, table) && table < |Names(record)| && Private(record, source)
    ensures Within(Next(s, CreateTable(t)), t, record, source, table, 0)
  {
    assert Names(record)[table] in Names(record);
    StepKeepsInv(s, CreateTable(t));
  }

  lemma CopiesSplit(s: State, t: Thread, record: Record, source: map<Name, Rows>, table: nat)
    requires Private(record, source) && table < |Names(record)|
    ensures var batches := Batches(t, 0, |source[Names(record)[table]]|);
      After(s, Copies(t, record, source, table))
      == After(After(Next(s, CreateTable(t)), batches), Copies(t, record, source, table + 1))
  {
    var batches := Batches(t, 0, |source[Names(record)[table]]|);
    var rest := Copies(t, record, source, table + 1);
    AfterOne(s, CreateTable(t));
    AfterJoins(s, [CreateTable(t)], batches);
    AfterJoins(s, [CreateTable(t)] + batches, rest);
  }

  lemma {:induction false} CopiesFinish(s: State, t: Thread, record: Record, source: map<Name, Rows>, table: nat)
    requires Private(record, source) && Between(s, t, record, source, table)
    ensures Between(After(s, Copies(t, record, source, table)), t, record, source, |Names(record)|)
    decreases |Names(record)| - table
  {
    if table < |Names(record)| {
      var made := Next(s, CreateTable(t));
      TableOpens(s, t, record, source, table);
      BatchesFinish(made, t, record, source, table, 0);
      CopiesFinish(After(made, Batches(t, 0, |source[Names(record)[table]]|)), t, record, source, table + 1);
      CopiesSplit(s, t, record, source, table);
    }
  }

  lemma AfterOne(s: State, a: Step)
    ensures After(s, [a]) == Next(s, a)
  {
    assert After(s, [a]) == After(Next(s, a), []);
  }

  lemma AfterTwo(s: State, a: Step, b: Step)
    ensures After(s, [a, b]) == Next(Next(s, a), b)
  {
    assert [a, b][1..] == [b];
    assert After(Next(s, a), [b]) == After(Next(Next(s, a), b), []);
  }

  lemma Opens(s: State, t: Thread, record: Record, source: map<Name, Rows>)
    requires Inv(s) && s.holder.None? && s.committed.record.None? && t !in s.phases
    ensures Between(After(After(s, [Arrive(t), Acquire(t)]), [Prepare(t, record, source), BeginTransaction(t)]),
                    t, record, source, 0)
  {
    var arrived := Next(s, Arrive(t));
    var locked := Next(arrived, Acquire(t));
    var prepared := Next(locked, Prepare(t, record, source));
    StepKeepsInv(s, Arrive(t));
    StepKeepsInv(arrived, Acquire(t));
    StepKeepsInv(locked, Prepare(t, record, source));
    StepKeepsInv(prepared, BeginTransaction(t));
    AfterTwo(s, Arrive(t), Acquire(t));
    AfterTwo(locked, Prepare(t, record, source), BeginTransaction(t));
  }

  lemma Closes(s: State, t: Thread, record: Record, source: map<Name, Rows>)
    requires Between(s, t, record, source, |Names(record)|)
    ensures var after := After(s, [WriteRecord(t), Commit(t), Release(t)]);
      Installed(after.committed, record, source) && after.holder.None? && t !in after.phases
  {
    var written := Next(s, WriteRecord(t));
    var committed := Next(written, Commit(t));
    StepKeepsInv(s, WriteRecord(t));
    assert PhaseFits(written, t, written.phases[t]);
    AfterTwo(written, Commit(t), Release(t));
    assert [WriteRecord(t), Commit(t), Release(t)][1..] == [Commit(t), Release(t)];
  }

  /** After any history, however many requests failed and wherever, a request that arrives while the lock is free and
      nothing is installed, and that meets no failure, commits the whole install. */
  lemma RetrySucceeds(steps: seq<Step>, t: Thread, record: Record, source: map<Name, Rows>)
    requires Private(record, source)
    ensures Run(steps).holder.None? && Run(steps).committed.record.None? && t !in Run(steps).phases ==>
      var after := After(Run(steps), Attempt(t, record, source));
      Installed(after.committed, record, source) && after.holder.None? && t !in after.phases
  {
    RunKeepsInv(steps);
    if Run(steps).holder.None? && Run(steps).committed.record.None? && t !in Run(steps).phases {
      AttemptInstalls(Run(steps), t, record, source);
    }
  }

  /** A request that finds the inputs installed commits nothing, leaves what is there and gives the lock back. */
  lemma LaterRequestReturns(s: State, t: Thread)
    requires Inv(s) && s.holder.None? && s.committed.record.Some? && t !in s.phases
    ensures After(s, [Arrive(t)] + [Acquire(t)] + [Check(t)] + [Release(t)]) == s
  {
    var arrived := [Arrive(t)];
    AfterJoins(s, [], arrived);
    AfterJoins(s, arrived, [Acquire(t)]);
    AfterJoins(s, arrived + [Acquire(t)], [Check(t)]);
    AfterJoins(s, arrived + [Acquire(t)] + [Check(t)], [Release(t)]);
    assert [Arrive(t)][..0] == [] && [Acquire(t)][..0] == [] && [Check(t)][..0] == [] && [Release(t)][..0] == [];
    assert s.phases[t := Waiting][t := Locked][t := Releasing] - {t} == s.phases;
  }

  lemma AttemptInstalls(s: State, t: Thread, record: Record, source: map<Name, Rows>)
    requires Inv(s) && s.holder.None? && s.committed.record.None? && t !in s.phases && Private(record, source)
    ensures var after := After(s, Attempt(t, record, source));
      Installed(after.committed, record, source) && after.holder.None? && t !in after.phases
  {
    var opening := [Arrive(t), Acquire(t), Prepare(t, record, source), BeginTransaction(t)];
    var copies := Copies(t, record, source, 0);
    var closing := [WriteRecord(t), Commit(t), Release(t)];
    Opens(s, t, record, source);
    AfterJoins(s, [Arrive(t), Acquire(t)], [Prepare(t, record, source), BeginTransaction(t)]);
    assert opening == [Arrive(t), Acquire(t)] + [Prepare(t, record, source), BeginTransaction(t)];
    CopiesFinish(After(s, opening), t, record, source, 0);
    Closes(After(After(s, opening), copies), t, record, source);
    AfterJoins(s, opening, copies);
    AfterJoins(s, opening + copies, closing);
  }

  // ----- the statements of one request -----

  /** Statements one request issues for a table of this many rows: a checkpoint and CREATE, then for each batch a
      checkpoint and INSERT. */
  function TableCost(rows: nat): nat {
    2 + 2 * ((rows + BATCH - 1) / BATCH)
  }

  function CopyCost(names: seq<Name>, source: map<Name, Rows>): nat {
    if names == [] then 2
    else TableCost(if names[0] in source then |source[names[0]]| else 0) + CopyCost(names[1..], source)
  }

  lemma CopyCostFrom(names: seq<Name>, source: map<Name, Rows>, i: nat)
    requires i < |names|
    ensures CopyCost(names[i..], source)
         == TableCost(if names[i] in source then |source[names[i]]| else 0) + CopyCost(names[i + 1..], source)
  {
    assert names[i..][1..] == names[i + 1..];
  }

  lemma BatchCost(rows: nat, size: nat)
    requires 0 < size && (size == BATCH || size == rows) && size <= rows && size <= BATCH
    ensures 2 * ((rows + BATCH - 1) / BATCH) == 2 + 2 * ((rows - size + BATCH - 1) / BATCH)
  {
  }

  /** Exactly these names have been copied, each whole. */
  ghost predicate Copied(tables: map<Name, Rows>, names: seq<Name>, source: map<Name, Rows>) {
    && (forall n :: n in tables <==> n in names)
    && (forall n :: n in names ==> n in source && IsPrivate(n) && tables[n] == source[n])
  }

  lemma CopiedOneMore(tables: map<Name, Rows>, names: seq<Name>, source: map<Name, Rows>, i: nat)
    requires Distinct(names) && i < |names| && Copied(tables, names[..i], source)
    requires names[i] in source && IsPrivate(names[i])
    ensures names[i] !in tables
    ensures Copied(tables[names[i] := source[names[i]]], names[..i + 1], source)
  {
    assert names[..i + 1] == names[..i] + [names[i]];
  }

  /** One serving connection as one request uses it after the lock is its own. `allowance` is the number of statements
      and checkpoints that still go through before one fails or is cancelled. */
  class Connection {
    var committed: Database
    var transaction: Option<Database>
    var locked: bool
    var allowance: nat

    /** Between requests: no open transaction, and private tables only beside a record. */
    ghost predicate Valid()
      reads this
    {
      transaction.None? && (committed.record.None? ==> committed == BARE)
    }

    constructor (allowance: nat)
      ensures Valid() && committed == BARE && !locked && this.allowance == allowance
    {
      committed := BARE;
      transaction := None;
      locked := false;
      this.allowance := allowance;
    }

    method Statement() returns (done: bool)
      modifies this`allowance
      ensures done == (old(allowance) > 0)
      ensures allowance == if done then old(allowance) - 1 else 0
    {
      done := allowance > 0;
      if done {
        allowance := allowance - 1;
      }
    }

    /** One table's batches, appended in order. */
    method CopyTable(name: Name, rows: Rows) returns (done: bool)
      requires transaction.Some? && name !in transaction.value.tables
      modifies this`transaction, this`allowance
      ensures done == (old(allowance) >= TableCost(|rows|))
      ensures done ==> allowance == old(allowance) - TableCost(|rows|)
      ensures done ==> transaction == Some(Database(old(transaction).value.record, old(transaction).value.tables[name := rows]))
      ensures transaction.Some?
    {
      var checked := Statement();
      done := Statement();
      if !checked || !done {
        return false;
      }
      var before := transaction.value;
      transaction := Some(Database(before.record, before.tables[name := []]));
      var copied := 0;
      while copied < |rows|
        invariant 0 <= copied <= |rows|
        invariant transaction == Some(Database(before.record, before.tables[name := rows[..copied]]))
        invariant old(allowance) - TableCost(|rows|) == allowance - 2 * ((|rows| - copied + BATCH - 1) / BATCH)
      {
        var size := Min(BATCH, |rows| - copied);
        BatchCost(|rows| - copied, size);
        checked := Statement();
        done := Statement();
        if !checked || !done {
          return false;
        }
        var held := transaction.value;
        assert rows[..copied] + rows[copied..copied + size] == rows[..copied + size];
        transaction := Some(Database(held.record, held.tables[name := held.tables[name] + rows[copied..copied + size]]));
        assert transaction.value.tables == before.tables[name := rows[..copied + size]];
        copied := copied + size;
      }
      assert rows[..copied] == rows;
      done := true;
    }

    /** Every named table, then the readiness record. */
    method CopyInputs(record: Record, source: map<Name, Rows>) returns (done: bool)
      requires transaction == Some(BARE)
      modifies this`transaction, this`allowance
      ensures done == (Private(record, source) && old(allowance) >= CopyCost(Names(record), source))
      ensures done ==> transaction.Some? && Installed(transaction.value, record, source)
      ensures done ==> allowance == old(allowance) - CopyCost(Names(record), source)
    {
      var names := Names(record);
      DedupProperties(record.tables + record.sources);
      var i := 0;
      assert names[0..] == names;
      while i < |names|
        invariant 0 <= i <= |names|
        invariant transaction.Some? && transaction.value.record.None?
        invariant Copied(transaction.value.tables, names[..i], source)
        invariant old(allowance) - CopyCost(names, source) == allowance - CopyCost(names[i..], source)
      {
        var name := names[i];
        CopyCostFrom(names, source, i);
        if !IsPrivate(name) || name !in source {
          return false;
        }
        CopiedOneMore(transaction.value.tables, names, source, i);
        done := CopyTable(name, source[name]);
        if !done {
          return false;
        }
        i := i + 1;
      }
      assert names[..i] == names && names[i..] == [];
      var created := Statement();
      var written := Statement();
      done := created && written;
      if done {
        transaction := Some(Database(Some(record), transaction.value.tables));
      }
    }

    /** A request: wait for the lock, look under it, prepare privately, and install in one transaction. `polls` is how often
        the lock was still taken, each time with a checkpoint; `preparation` is what the private database yields, or None
        when it refuses. */
    method EnsureInputs(polls: nat, preparation: Option<(Record, map<Name, Rows>)>) returns (done: bool)
      requires Valid() && !locked
      modifies this
      ensures Valid() && !locked
      ensures old(committed).record.Some? ==> committed == old(committed) && done == (old(allowance) >= polls + 2)
      ensures old(committed).record.None? && done ==>
        preparation.Some? && Installed(committed, preparation.value.0, preparation.value.1)
      ensures !done ==> committed == old(committed)
      ensures old(committed).record.None? ==>
        done == (preparation.Some? && Private(preparation.value.0, preparation.value.1)
                 && old(allowance) >= polls + 5 + CopyCost(Names(preparation.value.0), preparation.value.1))
    {
      var polled := 0;
      while polled < polls
        invariant 0 <= polled <= polls && allowance + polled == old(allowance)
        invariant committed == old(committed) && Valid() && !locked
      {
        done := Statement();
        if !done {
          return;
        }
        polled := polled + 1;
      }
      locked := true;
      done := Statement();
      if done {
        done := Statement();
      }
      if done && committed.record.None? {
        done := Install(preparation);
      }
      locked := false;
    }

    method Install(preparation: Option<(Record, map<Name, Rows>)>) returns (done: bool)
      requires transaction.None? && committed == BARE
      modifies this`committed, this`transaction, this`allowance
      ensures transaction.None?
      ensures done == (preparation.Some? && Private(preparation.value.0, preparation.value.1)
                       && old(allowance) >= 3 + CopyCost(Names(preparation.value.0), preparation.value.1))
      ensures done ==> Installed(committed, preparation.value.0, preparation.value.1)
      ensures !done ==> committed == old(committed)
    {
      done := Statement();
      if !done || preparation.None? {
        return false;
      }
      done := Statement();
      if !done {
        return;
      }
      transaction := Some(committed);
      done := CopyInputs(preparation.value.0, preparation.value.1);
      if done {
        done := Statement();
      }
      if done {
        committed := transaction.value;
      }
      transaction := None;
    }
  }
}
