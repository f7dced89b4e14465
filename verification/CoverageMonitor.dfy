/** The stateful checks of scripts/check_rollup_freshness.py: comment coverage against a kept baseline, and row counts that
    must change within a budget of days. */
module CoverageMonitor {
  import opened Basics
  import opened Sorting

  type Counts = map<string, nat>

  // ----- totals -----

  ghost function Total(m: Counts): nat
    decreases |m|
  {
    if m == map[] then 0
    else
      var k :| k in m;
      assert |m - {k}| < |m| by { RemoveShrinks(m, k); }
      m[k] + Total(m - {k})
  }

  lemma RemoveShrinks(m: Counts, k: string)
    requires k in m
    ensures |m - {k}| < |m|
  {
    assert (m - {k}).Keys == m.Keys - {k};
  }

  lemma {:induction false} TotalWithout(m: Counts, k: string)
    requires k in m
    ensures Total(m) == m[k] + Total(m - {k})
    decreases |m|
  {
    var first :| first in m && Total(m) == m[first] + Total(m - {first});
    if first != k {
      RemoveShrinks(m, first);
      RemoveShrinks(m, k);
      TotalWithout(m - {first}, k);
      TotalWithout(m - {k}, first);
      assert m - {first} - {k} == m - {k} - {first};
    }
  }

  /** Every agency of `less` is in `more` with at least as many rows. */
  predicate Covers(more: Counts, less: Counts) {
    forall k :: k in less ==> k in more && less[k] <= more[k]
  }

  lemma {:induction false} CoveringTotal(more: Counts, less: Counts)
    requires Covers(more, less)
    ensures Total(less) <= Total(more)
    decreases |less|
  {
    if less != map[] {
      var k :| k in less;
      RemoveShrinks(less, k);
      TotalWithout(less, k);
      TotalWithout(more, k);
      CoveringTotal(more - {k}, less - {k});
    }
  }

  // ----- one day's problems -----

  const MIN_AGENCY_DROP: nat := 1000

  datatype Problem =
    | Vanished(agency: string, before: nat)
    | Fell(agency: string, before: nat, after: nat)
    | TotalFell(before: nat, after: nat)

  /** At least MIN_AGENCY_DROP rows lost, and more than half. */
  predicate FellTooFar(before: nat, after: nat) {
    before - after >= MIN_AGENCY_DROP && 2 * after < before
  }

  /** Less than 98 per cent of a nonempty baseline. */
  predicate TotalTooLow(before: nat, after: nat) {
    before != 0 && 50 * after < 49 * before
  }

  function AgencyProblem(agency: string, before: nat, counts: Counts): Option<Problem> {
    if agency !in counts then Some(Vanished(agency, before))
    else if FellTooFar(before, counts[agency]) then Some(Fell(agency, before, counts[agency]))
    else None
  }

  /** What the day's counts must answer for, said of the two maps alone. */
  ghost predicate Acceptable(counts: Counts, baseline: Counts) {
    && (forall k :: k in baseline ==> k in counts && !FellTooFar(baseline[k], counts[k]))
    && !TotalTooLow(Total(baseline), Total(counts))
  }

  /** No agency is missing, none lost 1000 rows and more than half of what it had, and the total kept 98 per cent. */
  lemma AcceptableMeaning(counts: Counts, baseline: Counts)
    ensures Acceptable(counts, baseline) <==>
      && (forall k :: k in baseline ==>
            k in counts && (baseline[k] < counts[k] + 1000 || counts[k] as real >= 0.5 * baseline[k] as real))
      && (Total(baseline) == 0 || Total(counts) as real >= 0.98 * Total(baseline) as real)
  {
    forall k | k in baseline && k in counts
      ensures FellTooFar(baseline[k], counts[k]) <==>
        !(baseline[k] < counts[k] + 1000 || counts[k] as real >= 0.5 * baseline[k] as real)
    {
      HalfInReals(baseline[k], counts[k]);
    }
    LittleInReals(Total(baseline), Total(counts));
  }

  lemma HalfInReals(before: nat, after: nat)
    ensures 2 * after < before <==> !(after as real >= 0.5 * before as real)
  {
    assert (2 * after) as real == 2.0 * after as real;
  }

  lemma LittleInReals(before: nat, after: nat)
    ensures 50 * after < 49 * before <==> !(after as real >= 0.98 * before as real)
  {
    assert (50 * after) as real == 50.0 * after as real && (49 * before) as real == 49.0 * before as real;
  }

  /** The day's report: each lost or fallen agency once, largest first, then the total. */
  ghost predicate Reports(problems: seq<Problem>, counts: Counts, baseline: Counts) {
    && (forall k :: k in baseline && AgencyProblem(k, baseline[k], counts).Some? ==>
          AgencyProblem(k, baseline[k], counts).value in problems)
    && (TotalTooLow(Total(baseline), Total(counts)) <==> TotalFell(Total(baseline), Total(counts)) in problems)
    && (forall p :: p in problems ==>
          || p == TotalFell(Total(baseline), Total(counts))
          || (!p.TotalFell? && p.agency in baseline && AgencyProblem(p.agency, baseline[p.agency], counts) == Some(p)))
    && Distinct(problems)
    && (forall i, j :: 0 <= i < j < |problems| ==> Listed(problems[i], problems[j]))
  }

  /** The order of the report: agencies by falling baseline count, equal counts in the order of the stored keys, and the
      total last. */
  predicate Listed(a: Problem, b: Problem) {
    !a.TotalFell? && (b.TotalFell? || a.before > b.before || (a.before == b.before && TextLeq(a.agency, b.agency)))
  }

  lemma ListedMeaning(a: Problem, b: Problem)
    ensures a.TotalFell? ==> !Listed(a, b)
    ensures !a.TotalFell? && b.TotalFell? ==> Listed(a, b)
    ensures !a.TotalFell? && !b.TotalFell? ==>
      (Listed(a, b) <==> a.before > b.before || (a.before == b.before && InOrder(a.agency, b.agency)))
  {
    if !a.TotalFell? && !b.TotalFell? {
      TextLeqMeaning(a.agency, b.agency);
    }
  }

  /** One agency of the baseline, and the order the check takes them in. */
  datatype Entry = Entry(agency: string, before: nat)

  predicate Larger(a: Entry, b: Entry) {
    a.before > b.before || (a.before == b.before && TextLeq(a.agency, b.agency))
  }

  /** The agencies' part of the report, over the entries looked at so far. */
  ghost predicate AgencyReport(problems: seq<Problem>, counts: Counts, entries: seq<Entry>) {
    && (forall p :: p in problems ==>
          !p.TotalFell? && Entry(p.agency, p.before) in entries && AgencyProblem(p.agency, p.before, counts) == Some(p))
    && (forall e :: e in entries && AgencyProblem(e.agency, e.before, counts).Some? ==>
          AgencyProblem(e.agency, e.before, counts).value in problems)
    && Distinct(problems) && (forall i, j :: 0 <= i < j < |problems| ==> Listed(problems[i], problems[j]))
  }

  lemma ReportGrows(problems: seq<Problem>, counts: Counts, entries: seq<Entry>, i: nat)
    requires i < |entries| && AgencyReport(problems, counts, entries[..i])
    requires Sorted(entries, Larger) && Distinct(entries)
    ensures var found := AgencyProblem(entries[i].agency, entries[i].before, counts);
      AgencyReport(if found.Some? then problems + [found.value] else problems, counts, entries[..i + 1])
  {
    assert entries[..i + 1] == entries[..i] + [entries[i]];
    forall p | p in problems
      ensures Larger(Entry(p.agency, p.before), entries[i]) && Entry(p.agency, p.before) != entries[i]
    {
      var j :| 0 <= j < i && entries[j] == Entry(p.agency, p.before);
    }
  }

  lemma AgenciesReported(problems: seq<Problem>, counts: Counts, entries: seq<Entry>, baseline: Counts)
    requires AgencyReport(problems, counts, entries)
    requires forall e :: e in entries <==> e.agency in baseline && baseline[e.agency] == e.before
    ensures forall k :: k in baseline && AgencyProblem(k, baseline[k], counts).Some? ==>
      AgencyProblem(k, baseline[k], counts).value in problems
    ensures forall p :: p in problems ==>
      !p.TotalFell? && p.agency in baseline && AgencyProblem(p.agency, baseline[p.agency], counts) == Some(p)
  {
    forall k | k in baseline && AgencyProblem(k, baseline[k], counts).Some?
      ensures AgencyProblem(k, baseline[k], counts).value in problems
    {
      assert Entry(k, baseline[k]) in entries;
    }
  }

  lemma ReportMeaning(problems: seq<Problem>, counts: Counts, baseline: Counts)
    requires Reports(problems, counts, baseline)
    ensures problems == [] <==> Acceptable(counts, baseline)
  {
    if problems != [] {
      var p := problems[0];
      assert p in problems;
    } else {
      forall k | k in baseline
        ensures k in counts && !FellTooFar(baseline[k], counts[k])
      {
        assert AgencyProblem(k, baseline[k], counts).None?;
      }
    }
  }

  // ----- the kept state -----

  datatype RowEntry = RowEntry(count: int, lastChanged: Option<int>)

  datatype RowCheck = RowCheck(table: string, metric: string, rows: int)

  const ROW_BUDGETS: map<string, int> := map["usaspending_recipients" := 14]

  /** One row-count result against the kept entry: a changed count is recorded with the date, an unchanged one is stale
      once its age passes the budget. A missing or unreadable date counts as today. */
  function RowStep(entries: map<string, RowEntry>, check: RowCheck, today: int): (map<string, RowEntry>, Option<string>) {
    if check.metric != "row count" || check.table !in ROW_BUDGETS then (entries, None)
    else if check.table !in entries || entries[check.table].count != check.rows then
      (entries[check.table := RowEntry(check.rows, Some(today))], None)
    else
      var changed := entries[check.table].lastChanged;
      var age := if changed.Some? then today - changed.value else 0;
      (entries, if age > ROW_BUDGETS[check.table] then Some(check.table) else None)
  }

  /** An unchanged count whose entry has no readable date is as good as changed today: it is never reported. */
  lemma NoDateIsNeverStale(entries: map<string, RowEntry>, check: RowCheck, today: int)
    requires check.table in entries && entries[check.table] == RowEntry(check.rows, None)
    ensures RowStep(entries, check, today) == (entries, None)
    ensures forall later :: RowStep(entries, check, later).1.None?
  {
  }

  function RowSteps(entries: map<string, RowEntry>, checks: seq<RowCheck>, today: int): (map<string, RowEntry>, seq<string>) {
    if checks == [] then (entries, [])
    else
      var (before, stale) := RowSteps(entries, checks[..|checks| - 1], today);
      var (after, more) := RowStep(before, checks[|checks| - 1], today);
      (after, if more.Some? then stale + [more.value] else stale)
  }

  lemma EntriesAll(entries: seq<Entry>, keys: seq<string>, baseline: Counts)
    requires Distinct(keys) && (forall k :: k in keys <==> k in baseline) && |entries| == |keys|
    requires forall i :: 0 <= i < |keys| ==> keys[i] in baseline && entries[i] == Entry(keys[i], baseline[keys[i]])
    ensures Distinct(entries)
    ensures forall e :: e in entries <==> e.agency in baseline && baseline[e.agency] == e.before
  {
    forall e: Entry | e.agency in baseline && baseline[e.agency] == e.before
      ensures e in entries
    {
      var i :| 0 <= i < |keys| && keys[i] == e.agency;
      assert entries[i] == e;
    }
  }

  lemma SortedEntries(entries: seq<Entry>)
    requires Distinct(entries)
    ensures var sorted := Sort(entries, Larger);
      Sorted(sorted, Larger) && Distinct(sorted) && forall e :: e in sorted <==> e in entries
  {
    TextOrder();
    var sorted := Sort(entries, Larger);
    SortSorts(entries, Larger);
    SortKeeps(entries, Larger);
    forall e
      ensures multiset(sorted)[e] <= 1 && (e in sorted <==> e in entries)
    {
      DistinctMultiplicity(entries, e);
      assert e in multiset(sorted) <==> e in multiset(entries);
    }
    MultiplicityDistinct(sorted);
  }

  class Monitor {
    /** The coverage baseline, empty before the first good day. */
    var baseline: Counts
    var asOf: Option<int>
    var entries: map<string, RowEntry>

    constructor ()
      ensures baseline == map[] && asOf == None && entries == map[]
    {
      baseline, asOf, entries := map[], None, map[];
    }

    /** The baseline's entries by falling count, equal counts in the order of the stored keys. */
    method ByCount() returns (agencies: seq<Entry>)
      ensures Sorted(agencies, Larger) && Distinct(agencies)
      ensures forall e :: e in agencies <==> e.agency in baseline && baseline[e.agency] == e.before
    {
      var keys := SortedKeys(baseline.Keys);
      var stored: seq<Entry> := [];
      while |stored| < |keys|
        invariant |stored| <= |keys|
        invariant forall i :: 0 <= i < |stored| ==> stored[i] == Entry(keys[i], baseline[keys[i]])
      {
        stored := stored + [Entry(keys[|stored|], baseline[keys[|stored|]])];
      }
      agencies := Sort(stored, Larger);
      EntriesAll(stored, keys, baseline);
      SortedEntries(stored);
    }

    method Sum(m: Counts) returns (total: nat)
      ensures total == Total(m)
    {
      total := 0;
      var left := m;
      while left != map[]
        invariant total + Total(left) == Total(m)
        decreases |left|
      {
        var k :| k in left;
        RemoveShrinks(left, k);
        TotalWithout(left, k);
        total := total + left[k];
        left := left - {k};
      }
    }

    /** The day's check. The baseline moves to the day's counts only when nothing is flagged, or when the change is
        accepted. */
    method EvaluateCoverage(counts: Counts, today: int, accept: bool) returns (problems: seq<Problem>)
      modifies this`baseline, this`asOf
      ensures accept ==> problems == []
      ensures !accept ==> Reports(problems, counts, old(baseline))
      ensures baseline == if accept || Acceptable(counts, old(baseline)) then counts else old(baseline)
      ensures asOf == if accept || Acceptable(counts, old(baseline)) then Some(today) else old(asOf)
    {
      problems := FindProblems(counts);
      ReportMeaning(problems, counts, baseline);
      if problems == [] || accept {
        problems := [];
        baseline := counts;
        asOf := Some(today);
      }
    }

    method FindProblems(counts: Counts) returns (problems: seq<Problem>)
      ensures Reports(problems, counts, baseline)
    {
      var agencies := ByCount();
      problems := [];
      var i := 0;
      while i < |agencies|
        invariant 0 <= i <= |agencies|
        invariant AgencyReport(problems, counts, agencies[..i])
      {
        var Entry(agency, before) := agencies[i];
        ReportGrows(problems, counts, agencies, i);
        if agency !in counts {
          problems := problems + [Vanished(agency, before)];
        } else if before - counts[agency] >= MIN_AGENCY_DROP && 2 * counts[agency] < before {
          problems := problems + [Fell(agency, before, counts[agency])];
        }
        i := i + 1;
      }
      assert agencies[..i] == agencies;
      AgenciesReported(problems, counts, agencies, baseline);
      var before := Sum(baseline);
      var after := Sum(counts);
      if before != 0 && 50 * after < 49 * before {
        problems := problems + [TotalFell(before, after)];
      }
    }

    method EvaluateRowChanges(checks: seq<RowCheck>, today: int) returns (stale: seq<string>)
      modifies this`entries
      ensures (entries, stale) == RowSteps(old(entries), checks, today)
    {
      stale := [];
      var i := 0;
      assert checks[..0] == [];
      while i < |checks|
        invariant 0 <= i <= |checks|
        invariant (entries, stale) == RowSteps(old(entries), checks[..i], today)
      {
        assert checks[..i + 1][..i] == checks[..i];
        var check := checks[i];
        if check.metric == "row count" && check.table in ROW_BUDGETS {
          if check.table !in entries || entries[check.table].count != check.rows {
            entries := entries[check.table := RowEntry(check.rows, Some(today))];
          } else {
            var changed := entries[check.table].lastChanged;
            var age := if changed.Some? then today - changed.value else 0;
            if age > ROW_BUDGETS[check.table] {
              stale := stale + [check.table];
            }
          }
        }
        i := i + 1;
      }
      assert checks[..i] == checks;
    }
  }

  // ----- coverage over many days -----

  datatype Day = Day(counts: Counts, accept: bool)

  ghost function NextBaseline(baseline: Counts, day: Day): Counts {
    if day.accept || Acceptable(day.counts, baseline) then day.counts else baseline
  }

  ghost function AfterDays(baseline: Counts, days: seq<Day>): Counts {
    if days == [] then baseline else NextBaseline(AfterDays(baseline, days[..|days| - 1]), days[|days| - 1])
  }

  /** Days on which the baseline moved. */
  ghost function Updates(baseline: Counts, days: seq<Day>): nat {
    if days == [] then 0
    else
      var front := days[..|days| - 1];
      Updates(baseline, front) + (if Acceptable(days[|days| - 1].counts, AfterDays(baseline, front)) then 1 else 0)
  }

  function Power(base: nat, exponent: nat): nat {
    if exponent == 0 then 1 else base * Power(base, exponent - 1)
  }

  /** Without acceptance no agency ever leaves the baseline, and n updates keep at least 0.98^n of its total. */
  lemma {:induction false} BaselineDecaysSlowly(baseline: Counts, days: seq<Day>)
    requires forall i :: 0 <= i < |days| ==> !days[i].accept
    ensures baseline.Keys <= AfterDays(baseline, days).Keys
    ensures Power(50, Updates(baseline, days)) * Total(AfterDays(baseline, days))
         >= Power(49, Updates(baseline, days)) * Total(baseline)
  {
    if days != [] {
      var front, last := days[..|days| - 1], days[|days| - 1];
      BaselineDecaysSlowly(baseline, front);
      var before := AfterDays(baseline, front);
      if Acceptable(last.counts, before) {
        DecayStep(Power(50, Updates(baseline, front)), Power(49, Updates(baseline, front)), Total(baseline), Total(before),
                  Total(last.counts));
      }
    }
  }

  lemma DecayStep(p: nat, q: nat, start: nat, before: nat, after: nat)
    requires p * before >= q * start && 50 * after >= 49 * before
    ensures 50 * p * after >= 49 * q * start
  {
    assert p * (50 * after) >= p * (49 * before);
    assert 49 * (p * before) >= 49 * (q * start);
    assert p * (50 * after) == 50 * p * after;
    assert p * (49 * before) == 49 * (p * before);
    assert 49 * (q * start) == 49 * q * start;
  }

  /** A day that fails keeps failing: counts that are nowhere larger fail against the same baseline. */
  lemma FailureIsMonotone(baseline: Counts, counts: Counts, fewer: Counts)
    requires !Acceptable(counts, baseline) && Covers(counts, fewer)
    ensures !Acceptable(fewer, baseline)
  {
    CoveringTotal(counts, fewer);
    if !TotalTooLow(Total(baseline), Total(counts)) {
      var k :| k in baseline && !(k in counts && !FellTooFar(baseline[k], counts[k]));
      assert k in fewer ==> k in counts && fewer[k] <= counts[k];
    }
  }

  /** The alert persists: from a failing day on, as long as no day brings more rows anywhere and none is accepted, every
      day fails and the baseline does not move. */
  lemma {:induction false} AlertPersists(baseline: Counts, counts: Counts, days: seq<Day>)
    requires !Acceptable(counts, baseline)
    requires forall i :: 0 <= i < |days| ==> !days[i].accept && Covers(counts, days[i].counts)
    ensures AfterDays(baseline, days) == baseline && Updates(baseline, days) == 0
    ensures forall i :: 0 <= i < |days| ==> !Acceptable(days[i].counts, baseline)
  {
    if days != [] {
      var front := days[..|days| - 1];
      AlertPersists(baseline, counts, front);
      FailureIsMonotone(baseline, counts, days[|days| - 1].counts);
      forall i | 0 <= i < |days|
        ensures !Acceptable(days[i].counts, baseline)
      {
        if i < |front| {
          assert front[i] == days[i];
        }
      }
    }
  }

  /** The alert ends when the rows are back: counts that cover the baseline pass and become the new baseline. */
  lemma ReturnedRowsPass(baseline: Counts, counts: Counts)
    requires Covers(counts, baseline)
    ensures Acceptable(counts, baseline) && NextBaseline(baseline, Day(counts, false)) == counts
  {
    CoveringTotal(counts, baseline);
  }

  // ----- row counts over many days -----

  datatype Reading = Reading(today: int, rows: int)

  const TRACKED := "usaspending_recipients"

  function EntriesAfter(entries: map<string, RowEntry>, readings: seq<Reading>): map<string, RowEntry> {
    if readings == [] then entries
    else
      var last := readings[|readings| - 1];
      RowStep(EntriesAfter(entries, readings[..|readings| - 1]), RowCheck(TRACKED, "row count", last.rows), last.today).0
  }

  /** The first reading of the unbroken run of equal counts that ends the list. */
  function RunStart(readings: seq<Reading>): (i: nat)
    requires readings != []
    ensures i < |readings| && (forall j :: i <= j < |readings| ==> readings[j].rows == readings[|readings| - 1].rows)
    ensures i > 0 ==> readings[i - 1].rows != readings[i].rows
  {
    var n := |readings|;
    if n == 1 || readings[n - 2].rows != readings[n - 1].rows then n - 1 else RunStart(readings[..n - 1])
  }

  lemma {:induction false} EntryIsRunStart(readings: seq<Reading>)
    requires readings != []
    ensures var entries := EntriesAfter(map[], readings);
      TRACKED in entries
      && entries[TRACKED] == RowEntry(readings[|readings| - 1].rows, Some(readings[RunStart(readings)].today))
  {
    var front := readings[..|readings| - 1];
    if front != [] {
      EntryIsRunStart(front);
    }
  }

  /** From the first reading on, the table is reported on a day exactly when its count has stood still since a day more
      than the budget ago. */
  lemma StaleExactlyAfterTheBudget(readings: seq<Reading>)
    requires |readings| > 1
    ensures var last := readings[|readings| - 1];
      var stale := RowStep(EntriesAfter(map[], readings[..|readings| - 1]), RowCheck(TRACKED, "row count", last.rows), last.today).1;
      stale.Some? <==> RunStart(readings) < |readings| - 1 && last.today - readings[RunStart(readings)].today > ROW_BUDGETS[TRACKED]
  {
    EntryIsRunStart(readings[..|readings| - 1]);
  }
}
