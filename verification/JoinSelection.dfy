/** changed_joins in scripts/check_table_joins.py: which declared joins a change must check again. */
module JoinSelection {
  import opened Basics
  import opened Sorting

  /** A declaration as the registry records it; `rest` is everything beside its identity. */
  datatype Record = Record(child: string, childColumns: seq<string>, parent: string, parentColumns: seq<string>, rest: string)

  /** An entry of a registry read back from another commit: None when it is not a mapping, or a side is not a text with a
      list of texts. */
  type Entry = Option<Record>

  /** A current declaration with its name and its record, as the Join class gives them. */
  datatype Join = Join(name: string, record: Record)

  datatype Refusal = UnsupportedFormat | InvalidJoin | RepeatedIdentity

  datatype Selection = Selection(selected: seq<Join>, removed: seq<string>)

  const SEPARATOR := "+"
  const ARROW := " -> "

  function Joined(columns: seq<string>): string {
    if columns == [] then ""
    else if |columns| == 1 then columns[0]
    else columns[0] + SEPARATOR + Joined(columns[1..])
  }

  function NameOf(r: Record): string {
    r.child + "." + Joined(r.childColumns) + ARROW + r.parent + "." + Joined(r.parentColumns)
  }

  predicate NamedColumns(columns: seq<string>) {
    columns != [] && forall column :: column in columns ==> column != ""
  }

  /** Both sides name at least one column, and no column name is empty. */
  predicate Identified(r: Record) {
    NamedColumns(r.childColumns) && NamedColumns(r.parentColumns)
  }

  /** The registry by name; an error when an entry is invalid or two share a name. */
  function Before(entries: seq<Entry>): Result<map<string, Record>, Refusal> {
    if entries == [] then Ok(map[])
    else
      var front, last := Before(entries[..|entries| - 1]), entries[|entries| - 1];
      if front.Err? then front
      else if last.None? || !Identified(last.value) then Err(InvalidJoin)
      else if NameOf(last.value) in front.value then Err(RepeatedIdentity)
      else Ok(front.value[NameOf(last.value) := last.value])
  }

  lemma {:induction false} BeforeHolds(entries: seq<Entry>)
    requires Before(entries).Ok?
    ensures var before := Before(entries).value;
      && (forall name :: name in before ==> Some(before[name]) in entries && NameOf(before[name]) == name)
      && (forall entry :: entry in entries ==>
            entry.Some? && NameOf(entry.value) in before && before[NameOf(entry.value)] == entry.value)
  {
    if entries != [] {
      var front, last := entries[..|entries| - 1], entries[|entries| - 1];
      BeforeHolds(front);
      assert entries == front + [last];
    }
  }

  /** Whether a declaration must be checked again, said of the two lists alone. */
  predicate Changed(join: Join, entries: seq<Entry>) {
    Some(join.record) !in entries || NameOf(join.record) != join.name
  }

  predicate Unchanged(before: map<string, Record>, join: Join) {
    join.name in before && before[join.name] == join.record
  }

  function Kept(before: map<string, Record>, current: seq<Join>): seq<Join> {
    if current == [] then []
    else
      var front, last := Kept(before, current[..|current| - 1]), current[|current| - 1];
      if Unchanged(before, last) then front else front + [last]
  }

  /** The registry's entries, checked one by one. */
  method ReadRegistry(entries: seq<Entry>) returns (r: Result<map<string, Record>, Refusal>)
    ensures r == Before(entries)
  {
    var before: map<string, Record> := map[];
    for i := 0 to |entries|
      invariant Before(entries[..i]) == Ok(before)
    {
      assert entries[..i + 1][..i] == entries[..i];
      if entries[i].None? || !Identified(entries[i].value) {
        RefusedStays(entries, i + 1);
        return Err(InvalidJoin);
      }
      var name := NameOf(entries[i].value);
      if name in before {
        RefusedStays(entries, i + 1);
        return Err(RepeatedIdentity);
      }
      before := before[name := entries[i].value];
    }
    assert entries[..|entries|] == entries;
    r := Ok(before);
  }

  /** `entries` is None for a registry of another format. */
  method ChangedJoins(current: seq<Join>, entries: Option<seq<Entry>>) returns (r: Result<Selection, Refusal>)
    ensures entries.None? ==> r == Err(UnsupportedFormat)
    ensures entries.Some? ==> (r.Ok? <==> Before(entries.value).Ok?)
    ensures entries.Some? && r.Err? ==> r.error == Before(entries.value).error
    ensures r.Ok? ==> r.value.selected == Kept(Before(entries.value).value, current)
    ensures r.Ok? ==> Sorted(r.value.removed, TextLeq) && Distinct(r.value.removed)
    ensures r.Ok? ==> forall name :: name in r.value.removed <==>
      name in Before(entries.value).value && forall join :: join in current ==> join.name != name
  {
    if entries.None? {
      return Err(UnsupportedFormat);
    }
    var registry := ReadRegistry(entries.value);
    if registry.Err? {
      return Err(registry.error);
    }
    var before := registry.value;
    var selected: seq<Join> := [];
    var present: set<string> := {};
    for i := 0 to |current|
      invariant selected == Kept(before, current[..i])
      invariant forall name :: name in present <==> exists join :: join in current[..i] && join.name == name
    {
      assert current[..i + 1] == current[..i] + [current[i]];
      if !Unchanged(before, current[i]) {
        selected := selected + [current[i]];
      }
      present := present + {current[i].name};
    }
    assert current[..|current|] == current;
    var removed := SortedKeys(before.Keys - present);
    r := Ok(Selection(selected, removed));
  }

  lemma {:induction false} RefusedStays(entries: seq<Entry>, n: nat)
    requires n <= |entries| && Before(entries[..n]).Err?
    ensures Before(entries) == Before(entries[..n])
    decreases |entries| - n
  {
    if n < |entries| {
      assert entries[..n + 1][..n] == entries[..n];
      RefusedStays(entries, n + 1);
    } else {
      assert entries[..n] == entries;
    }
  }

  /** A declaration is selected exactly when the earlier registry does not hold the very same record under its name: no
      new or altered declaration escapes, and an unaltered one costs no read. */
  lemma {:induction false} SelectedAreChanged(current: seq<Join>, entries: seq<Entry>, join: Join)
    requires Before(entries).Ok? && join in current
    ensures join in Kept(Before(entries).value, current) <==> Changed(join, entries)
  {
    BeforeHolds(entries);
    var front, last := current[..|current| - 1], current[|current| - 1];
    assert current == front + [last];
    if join in front {
      SelectedAreChanged(front, entries, join);
    } else {
      KeptAreCurrent(Before(entries).value, front, join);
    }
    assert Unchanged(Before(entries).value, join) <==> !Changed(join, entries) by {
      if !Changed(join, entries) {
        assert Some(join.record) in entries;
      }
    }
  }

  lemma {:induction false} KeptAreCurrent(before: map<string, Record>, current: seq<Join>, join: Join)
    ensures join in Kept(before, current) ==> join in current
  {
    if current != [] {
      KeptAreCurrent(before, current[..|current| - 1], join);
      assert current == current[..|current| - 1] + [current[|current| - 1]];
    }
  }

  // ----- which registries are accepted -----

  ghost predicate AllIdentified(entries: seq<Entry>) {
    forall entry :: entry in entries ==> entry.Some? && Identified(entry.value)
  }

  ghost predicate DistinctNames(entries: seq<Entry>)
    requires AllIdentified(entries)
  {
    forall i, j :: 0 <= i < j < |entries| ==> NameOf(entries[i].value) != NameOf(entries[j].value)
  }

  /** A registry is accepted if and only if every entry is valid and no two spell one name. */
  lemma {:induction false} AcceptedIff(entries: seq<Entry>)
    ensures Before(entries).Ok? <==> AllIdentified(entries) && DistinctNames(entries)
  {
    if entries != [] {
      var front, last := entries[..|entries| - 1], entries[|entries| - 1];
      AcceptedIff(front);
      assert entries == front + [last];
      if Before(front).Ok? && last.Some? && Identified(last.value) {
        NameTakenIff(front, NameOf(last.value));
      }
    }
  }

  lemma NameTakenIff(entries: seq<Entry>, name: string)
    requires Before(entries).Ok? && AllIdentified(entries)
    ensures name in Before(entries).value <==> exists i :: 0 <= i < |entries| && NameOf(entries[i].value) == name
  {
    BeforeHolds(entries);
    if name in Before(entries).value {
      var i :| 0 <= i < |entries| && entries[i] == Some(Before(entries).value[name]);
    }
    if i :| 0 <= i < |entries| && NameOf(entries[i].value) == name {
      assert entries[i] in entries;
    }
  }

  // ----- when a name says which declaration it is -----

  /** What a registry's author can check: no dot in a table name, and neither a plus sign nor a blank in a column name. */
  predicate SpelledPlainly(r: Record) {
    && '.' !in r.child && '.' !in r.parent
    && (forall column :: column in r.childColumns + r.parentColumns ==> '+' !in column && ' ' !in column)
  }

  predicate SameIdentity(a: Record, b: Record) {
    a.child == b.child && a.childColumns == b.childColumns && a.parent == b.parent && a.parentColumns == b.parentColumns
  }

  /** Texts that agree up to the first mark and after it. */
  lemma {:induction false} SplitAtMark(mark: char, x: string, y: string, u: string, v: string)
    requires mark !in x && mark !in u && x + ([mark] + y) == u + ([mark] + v)
    ensures x == u && y == v
    decreases |x|
  {
    var left, right := x + ([mark] + y), u + ([mark] + v);
    if x == "" || u == "" {
      assert left[0] == right[0];
      assert x == "" ==> left == [mark] + y && left[1..] == y;
      assert u == "" ==> right == [mark] + v && right[1..] == v;
    } else {
      assert x[0] == left[0] == right[0] == u[0];
      assert left[1..] == x[1..] + ([mark] + y) && right[1..] == u[1..] + ([mark] + v);
      SplitAtMark(mark, x[1..], y, u[1..], v);
      assert x == [x[0]] + x[1..] && u == [u[0]] + u[1..];
    }
  }

  lemma {:induction false} JoinedLacks(columns: seq<string>, mark: char)
    requires mark != '+' && forall column :: column in columns ==> mark !in column
    ensures mark !in Joined(columns)
  {
    if |columns| > 1 {
      JoinedLacks(columns[1..], mark);
    }
  }

  lemma {:induction false} JoinedSplits(columns: seq<string>)
    requires columns != [] && forall column :: column in columns ==> '+' !in column
    ensures '+' in Joined(columns) <==> |columns| > 1
    ensures |columns| > 1 ==> Joined(columns) == columns[0] + (['+'] + Joined(columns[1..]))
  {
    if |columns| > 1 {
      assert (columns[0] + SEPARATOR + Joined(columns[1..]))[|columns[0]|] == '+';
    }
  }

  lemma {:induction false} JoinedDetermines(a: seq<string>, b: seq<string>)
    requires a != [] && b != [] && Joined(a) == Joined(b)
    requires forall column :: column in a + b ==> '+' !in column
    ensures a == b
    decreases |a|
  {
    assert forall column :: column in a ==> column in a + b;
    assert forall column :: column in b ==> column in a + b;
    JoinedSplits(a);
    JoinedSplits(b);
    if |a| > 1 {
      SplitAtMark('+', a[0], Joined(a[1..]), b[0], Joined(b[1..]));
      JoinedDetermines(a[1..], b[1..]);
      assert a == [a[0]] + a[1..] && b == [b[0]] + b[1..];
    }
  }

  /** A name cut at its marks. */
  lemma NameParts(r: Record)
    ensures NameOf(r) == r.child + (['.'] + (Joined(r.childColumns) + ([' '] + ("-> " + ParentPart(r)))))
  {
    assert ARROW == [' '] + "-> ";
  }

  function ParentPart(r: Record): string {
    r.parent + (['.'] + Joined(r.parentColumns))
  }

  /** Plainly spelled declarations with one name are declarations of one join. */
  lemma NameDeterminesIdentity(a: Record, b: Record)
    requires Identified(a) && Identified(b) && SpelledPlainly(a) && SpelledPlainly(b) && NameOf(a) == NameOf(b)
    ensures SameIdentity(a, b)
  {
    NameParts(a);
    NameParts(b);
    var restA, restB := "-> " + ParentPart(a), "-> " + ParentPart(b);
    SplitAtMark('.', a.child, Joined(a.childColumns) + ([' '] + restA), b.child, Joined(b.childColumns) + ([' '] + restB));
    ColumnsArePlain(a);
    ColumnsArePlain(b);
    JoinedLacks(a.childColumns, ' ');
    JoinedLacks(b.childColumns, ' ');
    SplitAtMark(' ', Joined(a.childColumns), restA, Joined(b.childColumns), restB);
    assert restA[3..] == ParentPart(a) && restB[3..] == ParentPart(b);
    SplitAtMark('.', a.parent, Joined(a.parentColumns), b.parent, Joined(b.parentColumns));
    JoinedDetermines(a.childColumns, b.childColumns);
    JoinedDetermines(a.parentColumns, b.parentColumns);
  }

  lemma ColumnsArePlain(r: Record)
    requires SpelledPlainly(r)
    ensures forall column :: column in r.childColumns ==> '+' !in column && ' ' !in column
    ensures forall column :: column in r.parentColumns ==> '+' !in column && ' ' !in column
  {
    assert forall column :: column in r.childColumns ==> column in r.childColumns + r.parentColumns;
    assert forall column :: column in r.parentColumns ==> column in r.childColumns + r.parentColumns;
  }

  /** A plainly spelled registry is accepted if and only if every entry is valid and no two declare the same join. */
  lemma PlainRegistryAcceptedIff(entries: seq<Entry>)
    requires AllIdentified(entries) && forall entry :: entry in entries ==> SpelledPlainly(entry.value)
    ensures Before(entries).Ok? <==>
      forall i, j :: 0 <= i < j < |entries| ==> !SameIdentity(entries[i].value, entries[j].value)
  {
    AcceptedIff(entries);
    forall i, j | 0 <= i < j < |entries|
      ensures NameOf(entries[i].value) == NameOf(entries[j].value) <==> SameIdentity(entries[i].value, entries[j].value)
    {
      assert entries[i] in entries && entries[j] in entries;
      if NameOf(entries[i].value) == NameOf(entries[j].value) {
        NameDeterminesIdentity(entries[i].value, entries[j].value);
      }
    }
  }

  /** Different declarations can spell one name, and then the earlier registry is refused rather than misread: one column
      called "a+b" beside two columns "a" and "b". */
  lemma NamesCanCollide(parent: string, column: string)
    requires column != ""
    ensures var one := Record("t", ["a+b"], parent, [column], "");
      var two := Record("t", ["a", "b"], parent, [column], "");
      one != two && NameOf(one) == NameOf(two) && Before([Some(one), Some(two)]) == Err(RepeatedIdentity)
  {
    var one := Record("t", ["a+b"], parent, [column], "");
    var two := Record("t", ["a", "b"], parent, [column], "");
    assert ["a", "b"][1..] == ["b"];
    assert Joined(["a", "b"]) == "a" + SEPARATOR + "b" == "a+b";
    assert |["a+b"]| != |["a", "b"]|;
    assert [Some(one), Some(two)][..1] == [Some(one)] && [Some(one)][..0] == [];
    assert Before([Some(one)]) == Ok(map[NameOf(one) := one]);
  }
}
