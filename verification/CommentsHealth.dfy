/** src/spicy_regs/comments_health.py, and how scripts/check_comments_freshness.py composes its checks over the public
    files. SQL relations are row sequences; NULL is None. */
module CommentsHealth {
  import opened Basics

  /** agency_code, docket_id with quotes trimmed, and year and month of posted_date; NULL cells are their own value. */
  datatype Cohort = Cohort(agency: Option<string>, docket: Option<string>, month: Option<(int, int)>)

  datatype Comment = Comment(id: Option<string>, agency: Option<string>, docket: Option<string>, posted: Option<(int, int)>)

  /** One published index row; its count may be NULL. */
  datatype IndexRow = IndexRow(cohort: Cohort, rows: Option<int>)

  /** trim(docket_id, '"') */
  function TrimQuotes(s: string): string {
    if s != "" && s[0] == '"' then TrimQuotes(s[1..])
    else if s != "" && s[|s| - 1] == '"' then TrimQuotes(s[..|s| - 1])
    else s
  }

  function CohortOf(c: Comment): Cohort {
    Cohort(c.agency, match c.docket case None => None case Some(d) => Some(TrimQuotes(d)), c.posted)
  }

  // ----- check_comments -----

  function Ids(comments: seq<Comment>): seq<string> {
    if comments == [] then []
    else
      Ids(comments[..|comments| - 1])
      + (match comments[|comments| - 1].id case None => [] case Some(id) => [id])
  }

  /** count(DISTINCT comment_id): NULLs are not counted. */
  function DistinctIds(comments: seq<Comment>): nat {
    |set id | id in Ids(comments)|
  }

  function Incomplete(comments: seq<Comment>): nat {
    if comments == [] then 0
    else
      var last := comments[|comments| - 1];
      Incomplete(comments[..|comments| - 1]) + if last.id.None? || last.agency.None? then 1 else 0
  }

  function Cohorts(comments: seq<Comment>): (r: seq<Cohort>)
    ensures |r| == |comments|
  {
    seq(|comments|, i requires 0 <= i < |comments| => CohortOf(comments[i]))
  }

  /** The actual side of the outer join: a group exists where it has rows. */
  function Actual(comments: seq<Comment>, cohort: Cohort): Option<int> {
    var n := multiset(Cohorts(comments))[cohort];
    if n == 0 then None else Some(n)
  }

  /** sum(row_count) over the index rows of a cohort: NULL when there is none or all are NULL. */
  function Expected(index: seq<IndexRow>, cohort: Cohort): Option<int> {
    if index == [] then None
    else
      var last := index[|index| - 1];
      var before := Expected(index[..|index| - 1], cohort);
      if last.cohort != cohort || last.rows.None? then before
      else if before.None? then last.rows
      else Some(before.value + last.rows.value)
  }

  /** The full outer join's cohorts, and those whose counts are distinct. */
  function AllCohorts(comments: seq<Comment>, index: seq<IndexRow>): set<Cohort> {
    (set c | c in Cohorts(comments)) + (set i | 0 <= i < |index| :: index[i].cohort)
  }

  function Mismatches(comments: seq<Comment>, index: seq<IndexRow>): set<Cohort> {
    set c | c in AllCohorts(comments, index) && Expected(index, c) != Actual(comments, c)
  }

  /** How many errors check_comments returns; LIMIT keeps at most `limit` mismatches. */
  function CheckComments(comments: seq<Comment>, index: seq<IndexRow>, limit: nat): nat {
    (if |comments| != DistinctIds(comments) || Incomplete(comments) != 0 then 1 else 0)
    + Min(limit, |Mismatches(comments, index)|)
  }

  /** check_retained_ids: EXCEPT compares NULL as a value. */
  function CheckRetained(previous: seq<Comment>, candidate: seq<Comment>): nat {
    if |(set c | c in previous :: c.id) - (set c | c in candidate :: c.id)| != 0 then 1 else 0
  }

  // ----- what passing means -----

  ghost predicate EachOnce(comments: seq<Comment>) {
    && (forall c :: c in comments ==> c.id.Some? && c.agency.Some?)
    && forall i, j :: 0 <= i < j < |comments| ==> comments[i].id != comments[j].id
  }

  lemma {:induction false} IdsLength(comments: seq<Comment>)
    ensures |Ids(comments)| <= |comments|
    ensures |Ids(comments)| == |comments| <==> forall c :: c in comments ==> c.id.Some?
    ensures |Ids(comments)| == |comments| ==> forall i :: 0 <= i < |comments| ==> comments[i].id == Some(Ids(comments)[i])
  {
    if comments != [] {
      var front, last := comments[..|comments| - 1], comments[|comments| - 1];
      IdsLength(front);
      assert comments == front + [last];
    }
  }

  lemma {:induction false} IncompleteNone(comments: seq<Comment>)
    ensures Incomplete(comments) == 0 <==> forall c :: c in comments ==> c.id.Some? && c.agency.Some?
  {
    if comments != [] {
      var front, last := comments[..|comments| - 1], comments[|comments| - 1];
      IncompleteNone(front);
      assert comments == front + [last];
    }
  }

  lemma {:induction false} ElementsCount<T>(s: seq<T>)
    ensures |Elements(s)| <= |s|
    ensures |Elements(s)| == |s| <==> Distinct(s)
  {
    if s != [] {
      var front, last := s[..|s| - 1], s[|s| - 1];
      ElementsCount(front);
      assert s == front + [last];
      assert Elements(s) == Elements(front) + {last};
      if last in front {
        assert Elements(s) == Elements(front);
      }
    }
  }

  /** The identity check passes exactly when every row has an ID and an agency and no ID repeats. */
  lemma IdentityCheckMeaning(comments: seq<Comment>)
    ensures |comments| == DistinctIds(comments) && Incomplete(comments) == 0 <==> EachOnce(comments)
  {
    IdsLength(comments);
    IncompleteNone(comments);
    ElementsCount(Ids(comments));
    assert (set id | id in Ids(comments)) == Elements(Ids(comments));
  }

  /** The published counts cover the rows: every cohort, NULL cells included, has its count, and no index cohort is
      without rows unless its sum is NULL. */
  ghost predicate Covered(comments: seq<Comment>, index: seq<IndexRow>) {
    forall c :: Expected(index, c) == Actual(comments, c)
  }

  lemma {:induction false} ExpectedElsewhere(index: seq<IndexRow>, cohort: Cohort)
    requires forall i :: 0 <= i < |index| ==> index[i].cohort != cohort
    ensures Expected(index, cohort).None?
  {
    if index != [] {
      ExpectedElsewhere(index[..|index| - 1], cohort);
    }
  }

  lemma NoMismatchIffCovered(comments: seq<Comment>, index: seq<IndexRow>)
    ensures Mismatches(comments, index) == {} <==> Covered(comments, index)
  {
    if Mismatches(comments, index) == {} {
      forall c
        ensures Expected(index, c) == Actual(comments, c)
      {
        if c !in AllCohorts(comments, index) {
          ExpectedElsewhere(index, c);
        } else {
          assert c !in Mismatches(comments, index);
        }
      }
    }
  }

  /** check_comments returns no error exactly for clean, covered comments; a limit of zero would hide every mismatch. */
  lemma CheckCommentsMeaning(comments: seq<Comment>, index: seq<IndexRow>, limit: nat)
    ensures CheckComments(comments, index, limit) == 0
            <==> EachOnce(comments) && (limit == 0 || Covered(comments, index))
  {
    IdentityCheckMeaning(comments);
    NoMismatchIffCovered(comments, index);
  }

  // ----- coverage over the comments' own cells -----

  function Quotes(n: nat): (r: string)
    ensures |r| == n && forall i :: 0 <= i < n ==> r[i] == '"'
  {
    seq(n, i requires 0 <= i < n => '"')
  }

  predicate Unquoted(s: string) {
    s == "" || (s[0] != '"' && s[|s| - 1] != '"')
  }

  /** The text is quotes, then the trimmed text, then quotes, and the trimmed text has no quote left at either end. */
  ghost predicate TrimmedTo(s: string, t: string) {
    Unquoted(t) && exists a: nat, b: nat :: s == Quotes(a) + t + Quotes(b)
  }

  lemma {:induction false} TrimQuotesLeaves(s: string)
    ensures TrimmedTo(s, TrimQuotes(s))
    decreases |s|
  {
    if s != "" && s[0] == '"' {
      TrimQuotesLeaves(s[1..]);
      var a: nat, b: nat :| s[1..] == Quotes(a) + TrimQuotes(s) + Quotes(b);
      assert Quotes(a + 1) == ['"'] + Quotes(a);
      Regroup(['"'], Quotes(a), TrimQuotes(s));
      Regroup(['"'], Quotes(a) + TrimQuotes(s), Quotes(b));
      assert s == ['"'] + s[1..];
      assert s == Quotes(a + 1) + TrimQuotes(s) + Quotes(b);
    } else if s != "" && s[|s| - 1] == '"' {
      TrimQuotesLeaves(s[..|s| - 1]);
      var a: nat, b: nat :| s[..|s| - 1] == Quotes(a) + TrimQuotes(s) + Quotes(b);
      assert Quotes(b + 1) == Quotes(b) + ['"'];
      Regroup(Quotes(a) + TrimQuotes(s), Quotes(b), ['"']);
      assert s == s[..|s| - 1] + ['"'];
      assert s == Quotes(a) + TrimQuotes(s) + Quotes(b + 1);
    } else {
      assert s == Quotes(0) + s + Quotes(0);
    }
  }

  lemma {:induction false} TrimQuotesOf(a: nat, t: string, b: nat)
    requires Unquoted(t)
    ensures TrimQuotes(Quotes(a) + t + Quotes(b)) == t
    decreases a + b
  {
    if a > 0 {
      TrimQuotesOf(a - 1, t, b);
      QuoteInFront(a, t, b);
    } else if b > 0 {
      TrimQuotesOf(0, t, b - 1);
      QuoteBehind(t, b);
    } else {
      assert Quotes(a) + t + Quotes(b) == t;
    }
  }

  lemma QuoteInFront(a: nat, t: string, b: nat)
    requires a > 0
    ensures TrimQuotes(Quotes(a) + t + Quotes(b)) == TrimQuotes(Quotes(a - 1) + t + Quotes(b))
  {
    var s := Quotes(a) + t + Quotes(b);
    assert s[0] == '"' && s[1..] == Quotes(a - 1) + t + Quotes(b);
  }

  lemma QuoteBehind(t: string, b: nat)
    requires b > 0 && Unquoted(t)
    ensures TrimQuotes(Quotes(0) + t + Quotes(b)) == TrimQuotes(Quotes(0) + t + Quotes(b - 1))
  {
    var s, shorter := Quotes(0) + t + Quotes(b), Quotes(0) + t + Quotes(b - 1);
    if t == "" {
      assert s[0] == '"' && s[1..] == shorter;
    } else {
      assert s[0] == t[0] && s[|s| - 1] == '"' && s[..|s| - 1] == shorter;
    }
  }

  /** trim(docket_id, '"') removes exactly the quotes at both ends. */
  lemma TrimQuotesMeaning(s: string, t: string)
    ensures TrimQuotes(s) == t <==> TrimmedTo(s, t)
  {
    TrimQuotesLeaves(s);
    if TrimmedTo(s, t) {
      var a: nat, b: nat :| s == Quotes(a) + t + Quotes(b);
      TrimQuotesOf(a, t, b);
    }
  }

  /** The comment has exactly these cells: this agency, a docket that is this one within its quotes, this month. */
  ghost predicate InCells(c: Comment, agency: Option<string>, docket: Option<string>, month: Option<(int, int)>) {
    && c.agency == agency && c.posted == month
    && c.docket.Some? == docket.Some? && (docket.Some? ==> TrimmedTo(c.docket.value, docket.value))
  }

  ghost function RowsInCells(comments: seq<Comment>, agency: Option<string>, docket: Option<string>,
                             month: Option<(int, int)>): set<nat>
  {
    set i: nat | i < |comments| && InCells(comments[i], agency, docket, month)
  }

  lemma CohortIffInCells(c: Comment, agency: Option<string>, docket: Option<string>, month: Option<(int, int)>)
    ensures CohortOf(c) == Cohort(agency, docket, month) <==> InCells(c, agency, docket, month)
  {
    if c.docket.Some? && docket.Some? {
      TrimQuotesMeaning(c.docket.value, docket.value);
    }
  }

  lemma RowsInCellsSnoc(front: seq<Comment>, last: Comment, agency: Option<string>, docket: Option<string>,
                        month: Option<(int, int)>)
    ensures |RowsInCells(front + [last], agency, docket, month)| ==
            |RowsInCells(front, agency, docket, month)| + if InCells(last, agency, docket, month) then 1 else 0
  {
    var before, after := RowsInCells(front, agency, docket, month), RowsInCells(front + [last], agency, docket, month);
    forall i: nat
      ensures i in after <==> i in before || (i == |front| && InCells(last, agency, docket, month))
    {
      if i < |front| {
        assert (front + [last])[i] == front[i];
      }
    }
    OneMorePosition(before, after, |front|, InCells(last, agency, docket, month));
  }

  lemma {:induction false} ActualIsRowsInCells(comments: seq<Comment>, agency: Option<string>, docket: Option<string>,
                                               month: Option<(int, int)>)
    ensures multiset(Cohorts(comments))[Cohort(agency, docket, month)] == |RowsInCells(comments, agency, docket, month)|
  {
    if comments == [] {
      assert RowsInCells(comments, agency, docket, month) == {};
    } else {
      var front, last := comments[..|comments| - 1], comments[|comments| - 1];
      ActualIsRowsInCells(front, agency, docket, month);
      CohortIffInCells(last, agency, docket, month);
      assert comments == front + [last];
      CohortsSnoc(front, last);
      RowsInCellsSnoc(front, last, agency, docket, month);
    }
  }

  /** check_comments returns no error exactly when every comment has an ID of its own and an agency, and for every agency,
      docket and month the comments with exactly these cells are as many as the index counts for them. */
  lemma CheckCommentsCounts(comments: seq<Comment>, index: seq<IndexRow>, limit: nat)
    requires limit >= 1
    ensures CheckComments(comments, index, limit) == 0 <==>
      EachOnce(comments) && forall agency, docket, month :: CellsCounted(comments, index, agency, docket, month)
  {
    CheckCommentsMeaning(comments, index, limit);
    forall agency, docket, month
      ensures CellsCounted(comments, index, agency, docket, month) <==>
        Expected(index, Cohort(agency, docket, month)) == Actual(comments, Cohort(agency, docket, month))
    {
      ActualIsRowsInCells(comments, agency, docket, month);
    }
    if forall agency, docket, month :: CellsCounted(comments, index, agency, docket, month) {
      forall c: Cohort
        ensures Expected(index, c) == Actual(comments, c)
      {
        assert CellsCounted(comments, index, c.agency, c.docket, c.month);
      }
    }
  }

  /** How many errors are returned: one for unclean IDs, and one for each cohort with a wrong count, up to the limit; and
      for lost IDs one however many are lost. */
  lemma ErrorCounts(comments: seq<Comment>, index: seq<IndexRow>, limit: nat, candidate: seq<Comment>)
    ensures forall c :: c in Mismatches(comments, index) <==> Expected(index, c) != Actual(comments, c)
    ensures CheckComments(comments, index, limit) ==
      (if EachOnce(comments) then 0 else 1)
      + (if |Mismatches(comments, index)| <= limit then |Mismatches(comments, index)| else limit)
    ensures CheckRetained(comments, candidate) <= 1
  {
    IdentityCheckMeaning(comments);
    forall c
      ensures c in Mismatches(comments, index) <==> Expected(index, c) != Actual(comments, c)
    {
      if c !in AllCohorts(comments, index) {
        ExpectedElsewhere(index, c);
      }
    }
  }

  /** The index has a sum for these cells exactly if there are such comments, and then it is their number. */
  ghost predicate CellsCounted(comments: seq<Comment>, index: seq<IndexRow>, agency: Option<string>, docket: Option<string>,
                               month: Option<(int, int)>)
  {
    var n := |RowsInCells(comments, agency, docket, month)|;
    Expected(index, Cohort(agency, docket, month)) == if n == 0 then None else Some(n)
  }

  lemma CheckRetainedMeaning(previous: seq<Comment>, candidate: seq<Comment>)
    ensures CheckRetained(previous, candidate) == 0
            <==> forall i :: 0 <= i < |previous| ==> exists j :: 0 <= j < |candidate| && candidate[j].id == previous[i].id
  {
    var a, b := set c | c in previous :: c.id, set c | c in candidate :: c.id;
    if CheckRetained(previous, candidate) == 0 {
      forall i | 0 <= i < |previous|
        ensures exists j :: 0 <= j < |candidate| && candidate[j].id == previous[i].id
      {
        assert previous[i] in previous && previous[i].id in a;
        assert previous[i].id !in a - b;
        var c :| c in candidate && c.id == previous[i].id;
        var j :| 0 <= j < |candidate| && candidate[j] == c;
      }
    } else {
      var id :| id in a - b;
      var c :| c in previous && c.id == id;
      var i :| 0 <= i < |previous| && previous[i] == c;
      forall j | 0 <= j < |candidate|
        ensures candidate[j].id != previous[i].id
      {
        assert candidate[j] in candidate;
        assert candidate[j].id in b;
      }
    }
  }

  // ----- the three checks together -----

  lemma SameCohorts(a: seq<Comment>, b: seq<Comment>, index: seq<IndexRow>)
    requires Covered(a, index) && Covered(b, index)
    ensures multiset(Cohorts(a)) == multiset(Cohorts(b)) && |a| == |b|
  {
    forall c
      ensures multiset(Cohorts(a))[c] == multiset(Cohorts(b))[c]
    {
      assert Actual(a, c) == Expected(index, c) == Actual(b, c);
    }
    assert multiset(Cohorts(a)) == multiset(Cohorts(b));
    assert |a| == |multiset(Cohorts(a))| == |multiset(Cohorts(b))| == |b|;
  }

  ghost function IdSet(comments: seq<Comment>): set<Option<string>> {
    set i | 0 <= i < |comments| :: comments[i].id
  }

  lemma {:induction false} IdSetSize(comments: seq<Comment>)
    requires forall i, j :: 0 <= i < j < |comments| ==> comments[i].id != comments[j].id
    ensures |IdSet(comments)| == |comments|
  {
    if comments != [] {
      var front, last := comments[..|comments| - 1], comments[|comments| - 1];
      IdSetSize(front);
      assert IdSet(comments) == IdSet(front) + {last.id};
    }
  }

  /** If the monolith and the partitions both pass against one index and no monolith ID is missing from the partitions,
      both hold exactly the same IDs, each once, with the same count in every cohort. */
  lemma SurfacesAgree(monolith: seq<Comment>, partitions: seq<Comment>, index: seq<IndexRow>, limit: nat)
    requires limit >= 1
    requires CheckComments(monolith, index, limit) == 0 && CheckComments(partitions, index, limit) == 0
    requires CheckRetained(monolith, partitions) == 0
    ensures IdSet(monolith) == IdSet(partitions)
    ensures EachOnce(monolith) && EachOnce(partitions) && |monolith| == |partitions|
    ensures forall c :: multiset(Cohorts(monolith))[c] == multiset(Cohorts(partitions))[c]
  {
    CheckCommentsMeaning(monolith, index, limit);
    CheckCommentsMeaning(partitions, index, limit);
    CheckRetainedMeaning(monolith, partitions);
    SameCohorts(monolith, partitions, index);
    IdSetSize(monolith);
    IdSetSize(partitions);
    forall id | id in IdSet(monolith)
      ensures id in IdSet(partitions)
    {
      var i :| 0 <= i < |monolith| && monolith[i].id == id;
      var j :| 0 <= j < |partitions| && partitions[j].id == monolith[i].id;
    }
    SubsetSameSize(IdSet(monolith), IdSet(partitions));
  }

  /** Conversely, surfaces that hold the same rows cleanly and are covered pass all three checks. */
  lemma AgreeingSurfacesPass(monolith: seq<Comment>, partitions: seq<Comment>, index: seq<IndexRow>, limit: nat)
    requires EachOnce(monolith) && EachOnce(partitions) && IdSet(monolith) == IdSet(partitions)
    requires multiset(Cohorts(monolith)) == multiset(Cohorts(partitions)) && Covered(monolith, index)
    ensures CheckComments(monolith, index, limit) == 0 && CheckComments(partitions, index, limit) == 0
    ensures CheckRetained(monolith, partitions) == 0
  {
    forall c
      ensures Actual(partitions, c) == Actual(monolith, c)
    {
    }
    CheckCommentsMeaning(monolith, index, limit);
    CheckCommentsMeaning(partitions, index, limit);
    forall i | 0 <= i < |monolith|
      ensures exists j :: 0 <= j < |partitions| && partitions[j].id == monolith[i].id
    {
      assert monolith[i].id in IdSet(partitions);
    }
    CheckRetainedMeaning(monolith, partitions);
  }

  // ----- a NULL count in the index -----

  /** Some row of the index lists this cohort. */
  ghost predicate Lists(index: seq<IndexRow>, cohort: Cohort) {
    exists i :: 0 <= i < |index| && index[i].cohort == cohort
  }

  /** Some row of the index counts this cohort: its row_count is not NULL. */
  ghost predicate Counts(index: seq<IndexRow>, cohort: Cohort) {
    exists i :: 0 <= i < |index| && index[i].cohort == cohort && index[i].rows.Some?
  }

  /** The sum is NULL exactly when no row counts the cohort. */
  lemma {:induction false} ExpectedIffCounted(index: seq<IndexRow>, cohort: Cohort)
    ensures Expected(index, cohort).Some? <==> Counts(index, cohort)
  {
    if index != [] {
      var front, last := index[..|index| - 1], index[|index| - 1];
      ExpectedIffCounted(front, cohort);
      if Counts(front, cohort) {
        var i :| 0 <= i < |front| && front[i].cohort == cohort && front[i].rows.Some?;
        assert index[i] == front[i];
      }
      if Counts(index, cohort) && !(last.cohort == cohort && last.rows.Some?) {
        var i :| 0 <= i < |index| && index[i].cohort == cohort && index[i].rows.Some?;
        assert front[i] == index[i];
      }
    }
  }

  /** For a covered index, a cohort has rows exactly when some index row counts it. */
  lemma CoveredIffCounted(comments: seq<Comment>, index: seq<IndexRow>, cohort: Cohort)
    requires Covered(comments, index)
    ensures cohort in Cohorts(comments) <==> Counts(index, cohort)
  {
    ExpectedIffCounted(index, cohort);
    assert Expected(index, cohort) == Actual(comments, cohort);
    assert cohort in Cohorts(comments) <==> cohort in multiset(Cohorts(comments));
  }

  /** A covered index always lists every cohort that has rows. It lists no other exactly when each cohort it lists has
      some count that is not NULL. */
  lemma CoverageIsTwoWayIff(comments: seq<Comment>, index: seq<IndexRow>)
    requires Covered(comments, index)
    ensures forall cohort :: cohort in Cohorts(comments) ==> Lists(index, cohort)
    ensures ListedHaveRows(comments, index) <==> ListedAreCounted(index)
  {
    forall cohort
      ensures cohort in Cohorts(comments) <==> Counts(index, cohort)
    {
      CoveredIffCounted(comments, index, cohort);
    }
  }

  ghost predicate ListedHaveRows(comments: seq<Comment>, index: seq<IndexRow>) {
    forall cohort :: Lists(index, cohort) ==> cohort in Cohorts(comments)
  }

  ghost predicate ListedAreCounted(index: seq<IndexRow>) {
    forall cohort :: Lists(index, cohort) ==> Counts(index, cohort)
  }

  /** An index row with a NULL count for a cohort that has no rows goes unnoticed. */
  lemma NullCountGoesUnnoticed(cohort: Cohort)
    ensures CheckComments([], [IndexRow(cohort, None)], 20) == 0
    ensures Lists([IndexRow(cohort, None)], cohort) && cohort !in Cohorts([])
  {
    assert [IndexRow(cohort, None)][0].cohort == cohort;
    assert [IndexRow(cohort, None)][..0] == [];
    assert Ids([]) == [] && Elements<string>([]) == {};
    IdentityCheckMeaning([]);
    forall c
      ensures Expected([IndexRow(cohort, None)], c) == Actual([], c)
    {
      assert Cohorts([]) == [];
    }
    CheckCommentsMeaning([], [IndexRow(cohort, None)], 20);
  }

  // ----- main's composition -----

  /** What one surface's connection yields; None where reading fails. */
  datatype Surface = Public(monolith: seq<Comment>, files: map<string, seq<Comment>>) | Catalog(rows: seq<Comment>)

  /** hive_partitioning: a row's agency is the one its file's path names. */
  function FromPath(agency: string, rows: seq<Comment>): (r: seq<Comment>)
    ensures |r| == |rows|
  {
    seq(|rows|, i requires 0 <= i < |rows| => rows[i].(agency := Some(agency)))
  }

  /** The partition files of the index's agencies, read together; None when the inventory is not valid or a file is absent. */
  function Partitions(files: map<string, seq<Comment>>, agencies: seq<Option<string>>): Option<seq<Comment>> {
    if agencies == [] then Some([])
    else
      var rest := Partitions(files, agencies[..|agencies| - 1]);
      var last := agencies[|agencies| - 1];
      if rest.None? || last.None? || last.value !in files then None
      else Some(rest.value + FromPath(last.value, files[last.value]))
  }

  /** The partitions hold rows of exactly the listed agencies whose file is not empty. */
  lemma {:induction false} PartitionsKeepAgencies(files: map<string, seq<Comment>>, agencies: seq<Option<string>>, agency: string)
    requires Partitions(files, agencies).Some?
    ensures HasAgency(Partitions(files, agencies).value, agency)
            <==> Some(agency) in agencies && agency in files && files[agency] != []
  {
    if agencies != [] {
      var front, last := agencies[..|agencies| - 1], agencies[|agencies| - 1];
      PartitionsKeepAgencies(files, front, agency);
      assert agencies == front + [last];
      var before, added := Partitions(files, front).value, FromPath(last.value, files[last.value]);
      assert Partitions(files, agencies).value == before + added;
      AgencyIn(before, added, agency);
      if last.value == agency && files[agency] != [] {
        assert added[0].agency == Some(agency);
      }
    }
  }

  /** The part of one agency, and all parts end to end. */
  function PartOf(files: map<string, seq<Comment>>, agency: Option<string>): seq<Comment> {
    if agency.Some? && agency.value in files then FromPath(agency.value, files[agency.value]) else []
  }

  function Parts(files: map<string, seq<Comment>>, agencies: seq<Option<string>>): (r: seq<seq<Comment>>)
    ensures |r| == |agencies|
  {
    seq(|agencies|, i requires 0 <= i < |agencies| => PartOf(files, agencies[i]))
  }

  /** The partitions can be read exactly when every listed agency has a name and a file; they are then the files' rows end
      to end, each under the agency its path names and otherwise as it is. */
  lemma {:induction false} PartitionsAre(files: map<string, seq<Comment>>, agencies: seq<Option<string>>)
    ensures Partitions(files, agencies).Some? <==> forall a :: a in agencies ==> a.Some? && a.value in files
    ensures Partitions(files, agencies).Some? ==> Partitions(files, agencies).value == Flatten(Parts(files, agencies))
  {
    if agencies != [] {
      var front, last := agencies[..|agencies| - 1], agencies[|agencies| - 1];
      PartitionsAre(files, front);
      assert agencies == front + [last];
      assert Parts(files, agencies) == Parts(files, front) + [PartOf(files, last)];
      FlattenSnoc(Parts(files, front), PartOf(files, last));
    }
  }

  lemma FromPathMeaning(agency: string, rows: seq<Comment>, i: nat)
    requires i < |rows|
    ensures var row := FromPath(agency, rows)[i];
      row.agency == Some(agency) && row.id == rows[i].id && row.docket == rows[i].docket && row.posted == rows[i].posted
  {
  }

  lemma AgencyIn(a: seq<Comment>, b: seq<Comment>, agency: string)
    ensures HasAgency(a + b, agency) <==> HasAgency(a, agency) || HasAgency(b, agency)
  {
    if HasAgency(a, agency) {
      var i :| 0 <= i < |a| && a[i].agency == Some(agency);
      assert (a + b)[i] == a[i];
    }
    if HasAgency(b, agency) {
      var i :| 0 <= i < |b| && b[i].agency == Some(agency);
      assert (a + b)[|a| + i] == b[i];
    }
  }

  ghost predicate HasAgency(rows: seq<Comment>, agency: string) {
    exists i :: 0 <= i < |rows| && rows[i].agency == Some(agency)
  }

  /** SELECT DISTINCT agency_code of the index, in some order. */
  ghost predicate Inventory(index: seq<IndexRow>, agencies: seq<Option<string>>) {
    Distinct(agencies) && forall a :: a in agencies <==> exists i :: 0 <= i < |index| && index[i].cohort.agency == a
  }

  /** WHERE agency_code = the agency asked for; an empty text asks for all. A row without an agency never matches. */
  function OfAgency(rows: seq<Comment>, agency: string): seq<Comment> {
    if agency == "" then rows
    else if rows == [] then []
    else
      var last := rows[|rows| - 1];
      OfAgency(rows[..|rows| - 1], agency) + if last.agency == Some(agency) then [last] else []
  }

  function IndexOfAgency(index: seq<IndexRow>, agency: string): seq<IndexRow> {
    if agency == "" then index
    else if index == [] then []
    else
      var last := index[|index| - 1];
      IndexOfAgency(index[..|index| - 1], agency) + if last.cohort.agency == Some(agency) then [last] else []
  }

  lemma ExpectedSnoc(front: seq<IndexRow>, last: IndexRow, cohort: Cohort)
    ensures last.cohort != cohort ==> Expected(front + [last], cohort) == Expected(front, cohort)
    ensures last.cohort == cohort ==> Expected(front + [last], cohort) == Sum(Expected(front, cohort), last.rows)
  {
    assert (front + [last])[..|front|] == front;
  }

  /** SQL's sum of two: NULL counts for nothing. */
  function Sum(a: Option<int>, b: Option<int>): Option<int> {
    if a.None? then b else if b.None? then a else Some(a.value + b.value)
  }

  lemma {:induction false} ExpectedOfAgency(index: seq<IndexRow>, agency: string, cohort: Cohort)
    requires agency != ""
    ensures Expected(IndexOfAgency(index, agency), cohort) ==
            if cohort.agency == Some(agency) then Expected(index, cohort) else None
  {
    if index != [] {
      var front, last := index[..|index| - 1], index[|index| - 1];
      ExpectedOfAgency(front, agency, cohort);
      assert index == front + [last];
      ExpectedSnoc(front, last, cohort);
      if last.cohort.agency == Some(agency) {
        ExpectedSnoc(IndexOfAgency(front, agency), last, cohort);
      } else {
        assert IndexOfAgency(index, agency) == IndexOfAgency(front, agency);
      }
    }
  }

  lemma CohortsSnoc(front: seq<Comment>, last: Comment)
    ensures Cohorts(front + [last]) == Cohorts(front) + [CohortOf(last)]
  {
  }

  lemma {:induction false} ActualOfAgency(rows: seq<Comment>, agency: string, cohort: Cohort)
    requires agency != ""
    ensures multiset(Cohorts(OfAgency(rows, agency)))[cohort] ==
            if cohort.agency == Some(agency) then multiset(Cohorts(rows))[cohort] else 0
  {
    if rows != [] {
      var front, last := rows[..|rows| - 1], rows[|rows| - 1];
      ActualOfAgency(front, agency, cohort);
      assert rows == front + [last];
      CohortsSnoc(front, last);
      if last.agency == Some(agency) {
        CohortsSnoc(OfAgency(front, agency), last);
      } else {
        assert OfAgency(rows, agency) == OfAgency(front, agency);
      }
    }
  }

  /** The restriction keeps exactly the rows of the agency, as often as they occur; without an agency it keeps all. */
  lemma {:induction false} OfAgencyMeaning(rows: seq<Comment>, agency: string, c: Comment)
    ensures multiset(OfAgency(rows, agency))[c] ==
            if agency == "" || c.agency == Some(agency) then multiset(rows)[c] else 0
    ensures agency == "" ==> OfAgency(rows, agency) == rows
  {
    if rows != [] && agency != "" {
      var front, last := rows[..|rows| - 1], rows[|rows| - 1];
      OfAgencyMeaning(front, agency, c);
      assert rows == front + [last];
      OccursOnceMore(front, last, c);
      if last.agency == Some(agency) {
        OccursOnceMore(OfAgency(front, agency), last, c);
      } else {
        assert OfAgency(rows, agency) == OfAgency(front, agency);
      }
    }
  }

  lemma OccursOnceMore<T>(front: seq<T>, last: T, x: T)
    ensures multiset(front + [last])[x] == multiset(front)[x] + if x == last then 1 else 0
  {
  }

  lemma {:induction false} IndexOfAgencyMeaning(index: seq<IndexRow>, agency: string, row: IndexRow)
    ensures multiset(IndexOfAgency(index, agency))[row] ==
            if agency == "" || row.cohort.agency == Some(agency) then multiset(index)[row] else 0
    ensures agency == "" ==> IndexOfAgency(index, agency) == index
  {
    if index != [] && agency != "" {
      var front, last := index[..|index| - 1], index[|index| - 1];
      IndexOfAgencyMeaning(front, agency, row);
      assert index == front + [last];
      OccursOnceMore(front, last, row);
      if last.cohort.agency == Some(agency) {
        OccursOnceMore(IndexOfAgency(front, agency), last, row);
      } else {
        assert IndexOfAgency(index, agency) == IndexOfAgency(front, agency);
      }
    }
  }

  /** A run restricted to one agency checks the counts of exactly that agency's cohorts. */
  lemma RestrictedCoverage(rows: seq<Comment>, index: seq<IndexRow>, agency: string)
    requires agency != ""
    ensures Covered(OfAgency(rows, agency), IndexOfAgency(index, agency))
            <==> forall cohort: Cohort :: cohort.agency == Some(agency) ==> Expected(index, cohort) == Actual(rows, cohort)
  {
    var kept, counted := OfAgency(rows, agency), IndexOfAgency(index, agency);
    forall cohort
      ensures Expected(counted, cohort) == if cohort.agency == Some(agency) then Expected(index, cohort) else None
      ensures Actual(kept, cohort) == if cohort.agency == Some(agency) then Actual(rows, cohort) else None
    {
      ExpectedOfAgency(index, agency, cohort);
      ActualOfAgency(rows, agency, cohort);
    }
  }

  /** A surface passes against an index already restricted to `agency`; the partitions are read whole. */
  ghost predicate Passes(surface: Surface, agency: string, index: seq<IndexRow>, agencies: seq<Option<string>>) {
    match surface
    case Catalog(all) => var rows := OfAgency(all, agency); EachOnce(rows) && Covered(rows, index)
    case Public(all, files) =>
      var monolith := OfAgency(all, agency);
      && agencies != [] && Partitions(files, agencies).Some?
      && var partitions := Partitions(files, agencies).value;
         && EachOnce(monolith) && Covered(monolith, index) && EachOnce(partitions) && Covered(partitions, index)
         && IdSet(monolith) == IdSet(partitions)
  }

  /** The loop of main over the selected surfaces: the exit status is zero exactly when every surface passes. */
  method CheckSurfaces(surfaces: seq<Option<Surface>>, agency: string, published: seq<IndexRow>, agencies: seq<Option<string>>,
                       limit: nat)
    returns (failed: bool)
    requires limit >= 1 && Inventory(IndexOfAgency(published, agency), agencies)
    ensures !failed <==> forall i :: 0 <= i < |surfaces| ==>
      surfaces[i].Some? && Passes(surfaces[i].value, agency, IndexOfAgency(published, agency), agencies)
  {
    var index := IndexOfAgency(published, agency);
    failed := false;
    for i := 0 to |surfaces|
      invariant !failed <==> forall k :: 0 <= k < i ==>
        surfaces[k].Some? && Passes(surfaces[k].value, agency, index, agencies)
    {
      if surfaces[i].None? {
        failed := true;
      } else {
        var errors := CheckSurface(surfaces[i].value, agency, index, agencies, limit);
        failed := failed || errors.None? || errors.value != 0;
      }
    }
  }

  /** One surface's checks; None when verification is incomplete. */
  method CheckSurface(surface: Surface, agency: string, index: seq<IndexRow>, agencies: seq<Option<string>>, limit: nat)
    returns (errors: Option<nat>)
    requires limit >= 1
    ensures errors == Some(0) <==> Passes(surface, agency, index, agencies)
  {
    match surface
    case Catalog(all) =>
      var rows := OfAgency(all, agency);
      CheckCommentsMeaning(rows, index, limit);
      errors := Some(CheckComments(rows, index, limit));
    case Public(all, files) =>
      var monolith := OfAgency(all, agency);
      var count := CheckComments(monolith, index, limit);
      CheckCommentsMeaning(monolith, index, limit);
      if agencies == [] {
        return None;
      }
      var partitions := Partitions(files, agencies);
      if partitions.None? {
        return None;
      }
      CheckCommentsMeaning(partitions.value, index, limit);
      RetainedIffSame(monolith, partitions.value, index, limit);
      errors := Some(count + CheckComments(partitions.value, index, limit) + CheckRetained(monolith, partitions.value));
  }

  /** Given both coverage checks, the retained-ID check passes exactly when the ID sets are equal. */
  lemma RetainedIffSame(monolith: seq<Comment>, partitions: seq<Comment>, index: seq<IndexRow>, limit: nat)
    requires limit >= 1
    ensures CheckComments(monolith, index, limit) == 0 && CheckComments(partitions, index, limit) == 0
            ==> (CheckRetained(monolith, partitions) == 0 <==> IdSet(monolith) == IdSet(partitions))
  {
    if CheckComments(monolith, index, limit) == 0 && CheckComments(partitions, index, limit) == 0 {
      CheckCommentsMeaning(monolith, index, limit);
      CheckCommentsMeaning(partitions, index, limit);
      SameCohorts(monolith, partitions, index);
      if CheckRetained(monolith, partitions) == 0 {
        SurfacesAgree(monolith, partitions, index, limit);
      }
      if IdSet(monolith) == IdSet(partitions) {
        AgreeingSurfacesPass(monolith, partitions, index, limit);
      }
    }
  }
}
