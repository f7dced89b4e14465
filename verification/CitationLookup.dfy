/** _lookup in src/spicy_regs/citation_resolution.py: the relation its SQL text states, and the loop over its result. */
module CitationLookup {
  import opened Basics
  import opened Sorting

  /** The identity columns of a target row, as text or NULL. */
  type Identity = seq<Option<string>>

  /** match_bases: by key only, by range only, or both. */
  datatype Basis = ByKey | ByRange | ByBoth

  datatype Found = Found(candidates: seq<Identity>, count: nat, basis: Option<Basis>)

  /** A selected target table under a route. `keyOf` is the route's key expression (NULL when None); `spans` is where the
      range expression is true; `admits` is where the predicate is true. `statesRange`: the route has a range form;
      `ranged`: and the table has the columns it reads. */
  datatype Target<!T> = Target(rows: seq<T>, keyOf: T -> Option<string>, spans: (T, string) -> bool, admits: T -> bool,
                               identity: T -> Identity, statesRange: bool, ranged: bool)

  datatype Match = Match(identity: Identity, byRange: bool)

  // ----- the matches relation: two joins under UNION ALL -----

  predicate Keyed<T>(t: Target<T>, row: T, key: string) {
    t.admits(row) && t.keyOf(row) == Some(key)
  }

  predicate RangedOnly<T>(t: Target<T>, row: T, key: string) {
    t.ranged && t.admits(row) && t.spans(row, key) && t.keyOf(row) != Some(key)
  }

  function KeyedMatches<T>(t: Target<T>, rows: seq<T>, key: string): seq<Match> {
    if rows == [] then []
    else (if Keyed(t, rows[0], key) then [Match(t.identity(rows[0]), false)] else []) + KeyedMatches(t, rows[1..], key)
  }

  function RangeMatches<T>(t: Target<T>, rows: seq<T>, key: string): seq<Match> {
    if rows == [] then []
    else (if RangedOnly(t, rows[0], key) then [Match(t.identity(rows[0]), true)] else []) + RangeMatches(t, rows[1..], key)
  }

  function Matches<T>(t: Target<T>, key: string): seq<Match> {
    KeyedMatches(t, t.rows, key) + RangeMatches(t, t.rows, key)
  }

  function Identities(matches: seq<Match>): (r: seq<Identity>)
    ensures |r| == |matches|
  {
    seq(|matches|, i requires 0 <= i < |matches| => matches[i].identity)
  }

  // ----- ORDER BY the identity columns: text by code point, NULL last -----

  predicate CellLeq(a: Option<string>, b: Option<string>) {
    b.None? || (a.Some? && TextLeq(a.value, b.value))
  }

  predicate IdentityLeq(a: Identity, b: Identity) {
    a == [] || (b != [] && (if a[0] == b[0] then IdentityLeq(a[1..], b[1..]) else CellLeq(a[0], b[0])))
  }

  /** Cells in order: a text before NULL, and texts by code point. */
  ghost predicate CellsInOrder(a: Option<string>, b: Option<string>) {
    a.Some? && (b.None? || InOrder(a.value, b.value))
  }

  /** Identities in order: b is a itself or continues it, or at the first column where they differ their cells are in
      order. */
  ghost predicate IdentitiesInOrder(a: Identity, b: Identity) {
    a <= b || exists k: nat :: ColumnDiffers(a, b, k) && CellsInOrder(a[k], b[k])
  }

  predicate ColumnDiffers(a: Identity, b: Identity, k: nat) {
    k < |a| && k < |b| && a[..k] == b[..k] && a[k] != b[k]
  }

  lemma {:induction false} IdentityLeqMeaning(a: Identity, b: Identity)
    ensures IdentityLeq(a, b) <==> IdentitiesInOrder(a, b)
  {
    if a != [] && b != [] {
      if a[0] == b[0] {
        IdentityLeqMeaning(a[1..], b[1..]);
        SharedColumn(a, b);
      } else {
        FirstColumnDecides(a, b);
      }
    }
  }

  lemma FirstColumnDecides(a: Identity, b: Identity)
    requires a != [] && b != [] && a[0] != b[0]
    ensures IdentitiesInOrder(a, b) <==> CellLeq(a[0], b[0])
  {
    assert ColumnDiffers(a, b, 0);
    forall k: nat | ColumnDiffers(a, b, k)
      ensures k == 0
    {
      if k > 0 {
        BeginAlike(a, b, k);
      }
    }
    if a[0].Some? && b[0].Some? {
      TextLeqMeaning(a[0].value, b[0].value);
    }
  }

  lemma SharedColumn(a: Identity, b: Identity)
    requires a != [] && b != [] && a[0] == b[0]
    ensures IdentitiesInOrder(a, b) <==> IdentitiesInOrder(a[1..], b[1..])
  {
    var s, t := a[1..], b[1..];
    assert a == [a[0]] + s && b == [b[0]] + t;
    if k: nat :| ColumnDiffers(a, b, k) && CellsInOrder(a[k], b[k]) {
      assert k > 0 && s[..k - 1] == a[..k][1..] == b[..k][1..] == t[..k - 1];
      assert ColumnDiffers(s, t, k - 1);
    }
    if k: nat :| ColumnDiffers(s, t, k) && CellsInOrder(s[k], t[k]) {
      assert a[..k + 1] == [a[0]] + s[..k] && b[..k + 1] == [b[0]] + t[..k];
      assert ColumnDiffers(a, b, k + 1);
    }
  }

  lemma CellOrder()
    ensures TotalOrder(CellLeq)
  {
    TextOrder();
    forall a, b | CellLeq(a, b) && CellLeq(b, a)
      ensures a == b
    {
      if a.Some? && b.Some? {
        TextAntisymmetric(a.value, b.value);
      }
    }
    forall a, b
      ensures CellLeq(a, b) || CellLeq(b, a)
    {
      if a.Some? && b.Some? {
        TextTotal(a.value, b.value);
      }
    }
    forall a, b, c | CellLeq(a, b) && CellLeq(b, c)
      ensures CellLeq(a, c)
    {
      if c.Some? {
        TextTransitive(a.value, b.value, c.value);
      }
    }
  }

  lemma {:induction false} IdentityTotal(a: Identity, b: Identity)
    requires TotalOrder(CellLeq)
    ensures IdentityLeq(a, b) || IdentityLeq(b, a)
  {
    if a != [] && b != [] && a[0] == b[0] {
      IdentityTotal(a[1..], b[1..]);
    }
  }

  lemma {:induction false} IdentityAntisymmetric(a: Identity, b: Identity)
    requires TotalOrder(CellLeq) && IdentityLeq(a, b) && IdentityLeq(b, a)
    ensures a == b
  {
    if a != [] && b != [] {
      if a[0] == b[0] {
        IdentityAntisymmetric(a[1..], b[1..]);
        assert a == [a[0]] + a[1..] && b == [b[0]] + b[1..];
      }
    }
  }

  lemma {:induction false} IdentityTransitive(a: Identity, b: Identity, c: Identity)
    requires TotalOrder(CellLeq) && IdentityLeq(a, b) && IdentityLeq(b, c)
    ensures IdentityLeq(a, c)
  {
    if a != [] {
      if a[0] == b[0] == c[0] {
        IdentityTransitive(a[1..], b[1..], c[1..]);
      }
    }
  }

  lemma IdentityOrder()
    ensures TotalOrder(IdentityLeq)
  {
    CellOrder();
    forall a, b
      ensures IdentityLeq(a, b) || IdentityLeq(b, a)
    {
      IdentityTotal(a, b);
    }
    forall a, b | IdentityLeq(a, b) && IdentityLeq(b, a)
      ensures a == b
    {
      IdentityAntisymmetric(a, b);
    }
    forall a, b, c | IdentityLeq(a, b) && IdentityLeq(b, c)
      ensures IdentityLeq(a, c)
    {
      IdentityTransitive(a, b, c);
    }
  }

  // ----- what one key finds -----

  /** The identities whose row_number is within the bound. */
  function Ranked<T>(t: Target<T>, key: string, max: nat): seq<Identity> {
    var sorted := Sort(Identities(Matches(t, key)), IdentityLeq);
    sorted[..Min(max, |sorted|)]
  }

  function BasisOf<T>(t: Target<T>, key: string): Option<Basis> {
    if !t.statesRange then None
    else
      var anyRange := exists m :: m in Matches(t, key) && m.byRange;
      var allRange := forall m :: m in Matches(t, key) ==> m.byRange;
      Some(if anyRange && !allRange then ByBoth else if anyRange then ByRange else ByKey)
  }

  /** None when no row matches the key. */
  function LookupOne<T>(t: Target<T>, key: string, max: nat): Option<Found> {
    if Matches(t, key) == [] then None
    else Some(Found(Dedup(Ranked(t, key, max)), |Matches(t, key)|, BasisOf(t, key)))
  }

  // ----- what that means of the rows -----

  /** How many rows the route's predicate admits that hold the key or, where ranges are read, span it. */
  function MatchingRows<T>(t: Target<T>, rows: seq<T>, key: string): nat {
    if rows == [] then 0
    else (if RowMatches(t, rows[0], key) then 1 else 0) + MatchingRows(t, rows[1..], key)
  }

  predicate RowMatches<T>(t: Target<T>, row: T, key: string) {
    t.admits(row) && (t.keyOf(row) == Some(key) || (t.ranged && t.spans(row, key)))
  }

  lemma {:induction false} CountsAdd<T>(t: Target<T>, rows: seq<T>, key: string)
    ensures |KeyedMatches(t, rows, key)| + |RangeMatches(t, rows, key)| == MatchingRows(t, rows, key)
  {
    if rows != [] {
      CountsAdd(t, rows[1..], key);
    }
  }

  /** match_count counts every matching row once, a row matching both ways included. */
  lemma CountIsMatchingRows<T>(t: Target<T>, key: string, max: nat)
    ensures match LookupOne(t, key, max)
            case None => MatchingRows(t, t.rows, key) == 0
            case Some(found) => found.count == MatchingRows(t, t.rows, key) > 0
  {
    CountsAdd(t, t.rows, key);
  }

  lemma {:induction false} KeyedMatchesAre<T>(t: Target<T>, rows: seq<T>, key: string, m: Match)
    ensures m in KeyedMatches(t, rows, key)
            <==> !m.byRange && exists i :: 0 <= i < |rows| && Keyed(t, rows[i], key) && t.identity(rows[i]) == m.identity
  {
    if rows != [] {
      var rest := rows[1..];
      KeyedMatchesAre(t, rest, key, m);
      assert rows == [rows[0]] + rest;
      if i :| 0 <= i < |rows| && Keyed(t, rows[i], key) && t.identity(rows[i]) == m.identity {
        if i > 0 {
          assert rest[i - 1] == rows[i];
        }
      }
    }
  }

  lemma {:induction false} RangeMatchesAre<T>(t: Target<T>, rows: seq<T>, key: string, m: Match)
    ensures m in RangeMatches(t, rows, key)
            <==> m.byRange && exists i :: 0 <= i < |rows| && RangedOnly(t, rows[i], key) && t.identity(rows[i]) == m.identity
  {
    if rows != [] {
      var rest := rows[1..];
      RangeMatchesAre(t, rest, key, m);
      assert rows == [rows[0]] + rest;
      if i :| 0 <= i < |rows| && RangedOnly(t, rows[i], key) && t.identity(rows[i]) == m.identity {
        if i > 0 {
          assert rest[i - 1] == rows[i];
        }
      }
    }
  }

  /** A route without a range form states no basis. */
  lemma NoBasisWithoutRange<T>(t: Target<T>, key: string, max: nat)
    requires LookupOne(t, key, max).Some?
    ensures LookupOne(t, key, max).value.basis.Some? <==> t.statesRange
  {
  }

  /** The stated basis is decided by all matching rows, those beyond the candidate bound included. */
  lemma BasisMeaning<T>(t: Target<T>, key: string, max: nat)
    requires LookupOne(t, key, max).Some? && t.statesRange
    ensures var byKey := exists i :: 0 <= i < |t.rows| && Keyed(t, t.rows[i], key);
      var byRange := exists i :: 0 <= i < |t.rows| && RangedOnly(t, t.rows[i], key);
      && (byKey || byRange)
      && LookupOne(t, key, max).value.basis == Some(if byKey && byRange then ByBoth else if byRange then ByRange else ByKey)
  {
    var matches := Matches(t, key);
    forall m
      ensures m in matches <==> m in KeyedMatches(t, t.rows, key) || m in RangeMatches(t, t.rows, key)
    {
    }
    forall m
      ensures m in KeyedMatches(t, t.rows, key)
              <==> !m.byRange && exists i :: 0 <= i < |t.rows| && Keyed(t, t.rows[i], key) && t.identity(t.rows[i]) == m.identity
    {
      KeyedMatchesAre(t, t.rows, key, m);
    }
    forall m
      ensures m in RangeMatches(t, t.rows, key)
              <==> m.byRange && exists i :: 0 <= i < |t.rows| && RangedOnly(t, t.rows[i], key) && t.identity(t.rows[i]) == m.identity
    {
      RangeMatchesAre(t, t.rows, key, m);
    }
    assert matches[0] in matches;
    if i :| 0 <= i < |t.rows| && Keyed(t, t.rows[i], key) {
      assert Match(t.identity(t.rows[i]), false) in matches;
    }
    if i :| 0 <= i < |t.rows| && RangedOnly(t, t.rows[i], key) {
      assert Match(t.identity(t.rows[i]), true) in matches;
    }
  }

  lemma {:induction false} DedupKeepsSorted<T(!new)>(s: seq<T>, leq: (T, T) -> bool)
    requires Sorted(s, leq)
    ensures Sorted(Dedup(s), leq)
  {
    if s != [] {
      var front := s[..|s| - 1];
      var kept := Dedup(front);
      DedupKeepsSorted(front, leq);
      DedupProperties(front);
      forall j | 0 <= j < |kept|
        ensures leq(kept[j], s[|s| - 1])
      {
        assert kept[j] in front;
        var i :| 0 <= i < |front| && front[i] == kept[j];
        assert s[i] == kept[j];
      }
    }
  }

  lemma SortedIdentities<T>(t: Target<T>, key: string)
    ensures var sorted := Sort(Identities(Matches(t, key)), IdentityLeq);
      && |sorted| == |Matches(t, key)| && Sorted(sorted, IdentityLeq)
      && forall id :: id in sorted <==> id in Identities(Matches(t, key))
  {
    var ids := Identities(Matches(t, key));
    var sorted := Sort(ids, IdentityLeq);
    IdentityOrder();
    SortKeeps(ids, IdentityLeq);
    SortSorts(ids, IdentityLeq);
    assert |sorted| == |multiset(sorted)| == |multiset(ids)| == |ids|;
    forall id
      ensures id in sorted <==> id in ids
    {
      assert id in multiset(sorted) <==> id in multiset(ids);
    }
  }

  /** The ranked identities are the first min(count, max) in identity order: nothing left out precedes them. */
  lemma RankedMeaning<T>(t: Target<T>, key: string, max: nat)
    ensures var sorted := Sort(Identities(Matches(t, key)), IdentityLeq);
      && |Ranked(t, key, max)| == Min(|Matches(t, key)|, max) && Ranked(t, key, max) <= sorted
      && (|Matches(t, key)| <= max ==> forall id :: id in Ranked(t, key, max) <==> id in Identities(Matches(t, key)))
      && forall i, j :: 0 <= i < |Ranked(t, key, max)| <= j < |sorted| ==> IdentityLeq(Ranked(t, key, max)[i], sorted[j])
  {
    SortedIdentities(t, key);
    var sorted := Sort(Identities(Matches(t, key)), IdentityLeq);
    if |sorted| <= max {
      assert Ranked(t, key, max) == sorted;
    }
  }

  /** Candidates are repeat-free, in identity order, and are exactly the ranked identities. */
  lemma CandidatesMeaning<T>(t: Target<T>, key: string, max: nat)
    requires LookupOne(t, key, max).Some?
    ensures var candidates := LookupOne(t, key, max).value.candidates;
      && Distinct(candidates) && Sorted(candidates, IdentityLeq)
      && forall id :: id in candidates <==> id in Ranked(t, key, max)
  {
    SortedIdentities(t, key);
    var ranked := Ranked(t, key, max);
    DedupProperties(ranked);
    DedupKeepsSorted(ranked, IdentityLeq);
    forall id
      ensures id in Dedup(ranked) <==> id in ranked
    {
      DedupMember(ranked, id);
    }
  }

  // ----- the query for a batch of keys, and the loop that reads it -----

  datatype ResultRow = ResultRow(key: string, identity: Identity, count: nat, basis: Option<Basis>)

  function ResultOfKey<T>(t: Target<T>, key: string, max: nat): seq<ResultRow> {
    RowsFor(key, Ranked(t, key, max), |Matches(t, key)|, BasisOf(t, key))
  }

  function RowsFor(key: string, ids: seq<Identity>, count: nat, basis: Option<Basis>): seq<ResultRow> {
    seq(|ids|, i requires 0 <= i < |ids| => ResultRow(key, ids[i], count, basis))
  }

  /** One row for each match within the bound, key by key. */
  function ResultRows<T>(t: Target<T>, keys: seq<string>, max: nat): seq<ResultRow> {
    if keys == [] then [] else ResultRows(t, keys[..|keys| - 1], max) + ResultOfKey(t, keys[|keys| - 1], max)
  }

  /** One result row: setdefault the key's entry, then add the candidate unless it is there. */
  function Absorb(found: map<string, Found>, row: ResultRow): map<string, Found> {
    var entry := if row.key in found then found[row.key] else Found([], row.count, None);
    var candidates := if row.identity in entry.candidates then entry.candidates else entry.candidates + [row.identity];
    found[row.key := Found(candidates, entry.count, row.basis)]
  }

  /** A key's result rows, absorbed into a map that has not seen the key. */
  lemma {:induction false} AbsorbKey(key: string, ids: seq<Identity>, count: nat, basis: Option<Basis>, found: map<string, Found>)
    requires key !in found
    ensures AbsorbAll(found, RowsFor(key, ids, count, basis)) ==
            if ids == [] then found else found[key := Found(Dedup(ids), count, basis)]
  {
    if ids != [] {
      var front, last := ids[..|ids| - 1], ids[|ids| - 1];
      AbsorbKey(key, front, count, basis, found);
      assert RowsFor(key, ids, count, basis)[..|front|] == RowsFor(key, front, count, basis);
      DedupMember(front, last);
      if front == [] {
        DedupOne(last);
        assert ids == [last];
      }
    }
  }

  function AbsorbAll(found: map<string, Found>, rows: seq<ResultRow>): map<string, Found> {
    if rows == [] then found else Absorb(AbsorbAll(found, rows[..|rows| - 1]), rows[|rows| - 1])
  }

  lemma {:induction false} AbsorbAppend(found: map<string, Found>, a: seq<ResultRow>, b: seq<ResultRow>)
    ensures AbsorbAll(found, a + b) == AbsorbAll(AbsorbAll(found, a), b)
  {
    if b == [] {
      assert a + b == a;
    } else {
      AbsorbAppend(found, a, b[..|b| - 1]);
      assert (a + b)[..|a + b| - 1] == a + b[..|b| - 1];
    }
  }

  /** Every requested key with a match maps to what it finds alone. */
  ghost predicate FindsEach<T(!new)>(t: Target<T>, keys: seq<string>, max: nat, found: map<string, Found>) {
    forall key :: (key in found <==> key in keys && LookupOne(t, key, max).Some?)
               && (key in found ==> found[key] == LookupOne(t, key, max).value)
  }

  lemma RankedEmpty<T>(t: Target<T>, key: string, max: nat)
    requires max > 0
    ensures Ranked(t, key, max) == [] <==> Matches(t, key) == []
  {
    var ids := Identities(Matches(t, key));
    SortKeeps(ids, IdentityLeq);
    assert |Sort(ids, IdentityLeq)| == |multiset(Sort(ids, IdentityLeq))| == |ids|;
  }

  lemma {:induction false} BatchFindsEach<T(!new)>(t: Target<T>, keys: seq<string>, max: nat)
    requires Distinct(keys) && max > 0
    ensures FindsEach(t, keys, max, AbsorbAll(map[], ResultRows(t, keys, max)))
  {
    if keys != [] {
      var front, last := keys[..|keys| - 1], keys[|keys| - 1];
      BatchFindsEach(t, front, max);
      var before := AbsorbAll(map[], ResultRows(t, front, max));
      var rows := ResultOfKey(t, last, max);
      AbsorbAppend(map[], ResultRows(t, front, max), rows);
      assert last !in front;
      assert forall key :: key in keys <==> key in front || key == last;
      AbsorbKey(last, Ranked(t, last, max), |Matches(t, last)|, BasisOf(t, last), before);
      RankedEmpty(t, last, max);
    }
  }

  /** The caller passes each distinct key once; the answer for a batch is the answer for each key alone. */
  method Lookup<T(!new)>(t: Target<T>, keys: seq<string>, max: nat) returns (found: map<string, Found>)
    requires Distinct(keys) && max > 0
    ensures FindsEach(t, keys, max, found)
  {
    var ordered := Sort(keys, TextLeq);
    var rows := ResultRows(t, ordered, max);
    found := map[];
    for i := 0 to |rows|
      invariant found == AbsorbAll(map[], rows[..i])
    {
      assert rows[..i + 1][..i] == rows[..i];
      found := Absorb(found, rows[i]);
    }
    assert rows[..|rows|] == rows;
    SortKeepsDistinct(keys);
    BatchFindsEach(t, ordered, max);
  }

  lemma SortKeepsDistinct(keys: seq<string>)
    requires Distinct(keys)
    ensures Distinct(Sort(keys, TextLeq)) && forall k :: k in Sort(keys, TextLeq) <==> k in keys
  {
    SortKeeps(keys, TextLeq);
    forall k
      ensures multiset(Sort(keys, TextLeq))[k] <= 1 && (k in Sort(keys, TextLeq) <==> k in keys)
    {
      DistinctMultiplicity(keys, k);
      assert k in multiset(Sort(keys, TextLeq)) <==> k in multiset(keys);
    }
    MultiplicityDistinct(Sort(keys, TextLeq));
  }
}
