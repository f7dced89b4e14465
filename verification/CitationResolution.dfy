/** resolve_citations in src/spicy_regs/citation_resolution.py: triage and admission in one pass, one bounded read per
    route in a second, and what each occurrence ends up with. */
module CitationResolution {
  import opened Basics
  import opened CitationLookup

  /** Routes are equal when all their fields are; `rest` stands for the SQL text, grain and column tuples. */
  datatype Route = Route(table: string, pinnedBy: Option<string>, many: bool, rest: string)

  /** A target pin; an empty mapping counts as no pin. */
  datatype Snapshot = Snapshot(empty: bool, status: Option<string>)

  /** `text` is None when the occurrence carries no text_sha256 field, Some(None) when that field is null.
      `settled` is str(target_resolved, default "true").lower() == "true". */
  datatype Item = Item(kind: string, key: string, settled: bool, text: Option<Option<string>>, source: (string, string))

  datatype SourceStatus = NativeField | UnreadSource | StaleSource | CurrentText
  datatype Status = NotChecked | Unsupported | Missing | Hit | Ambiguous
  datatype Reason =
    | SourceDigestUnavailable | SourceDigestMismatch | UnsupportedKind | UnsettledKey | SnapshotUnavailable
    | TargetKeyLimit | TargetTimeout | TargetReadFailure | CandidateLimit | IdentityIncomplete

  datatype Row = Row(source: SourceStatus, status: Status, reason: Option<Reason>, candidates: seq<Identity>,
                     count: Option<nat>, basis: Option<Basis>, error: Option<string>)

  type Pair = (Route, string)

  /** What one read of a route does: rows by key, or an exception of a named type. */
  datatype Reply = Rows(found: map<string, Found>) | Raised(name: string)

  datatype Config = Config(routes: map<string, Route>, snapshots: map<string, Snapshot>,
                           digests: map<(string, string), string>, normalizeRin: string -> Option<string>,
                           maxKeys: nat, maxCandidates: nat)

  const UNQUALIFIED: set<string> := {"legacy_unversioned", "local_unversioned", "unavailable"}
  const TIMEOUTS: set<string> := {"InterruptException", "TimeoutError"}

  // ----- first pass -----

  function Blank(source: SourceStatus, reason: Option<Reason>): Row {
    Row(source, NotChecked, reason, [], None, None, None)
  }

  /** _snapshot: the pin of the route's table, or of the published table behind a view. */
  function SnapshotOf(c: Config, route: Route): Option<Snapshot> {
    if route.table in c.snapshots && !c.snapshots[route.table].empty then Some(c.snapshots[route.table])
    else if route.pinnedBy.Some? && route.pinnedBy.value in c.snapshots then Some(c.snapshots[route.pinnedBy.value])
    else None
  }

  predicate Qualified(c: Config, route: Route) {
    var snapshot := SnapshotOf(c, route);
    && snapshot.Some? && !snapshot.value.empty
    && (snapshot.value.status.Some? ==> snapshot.value.status.value !in UNQUALIFIED)
  }

  function SourceOf(c: Config, item: Item): SourceStatus {
    match item.text
    case None => NativeField
    case Some(text) =>
      if item.source !in c.digests || c.digests[item.source] == "" || text.None? || text.value == "" then UnreadSource
      else if c.digests[item.source] != text.value then StaleSource
      else CurrentText
  }

  /** Why an occurrence is not looked up; None when it is eligible. */
  function Exclusion(c: Config, item: Item): Option<Row> {
    var source := SourceOf(c, item);
    if source.UnreadSource? then Some(Blank(source, Some(SourceDigestUnavailable)))
    else if source.StaleSource? then Some(Blank(source, Some(SourceDigestMismatch)))
    else if item.kind !in c.routes then Some(Blank(source, Some(UnsupportedKind)).(status := Unsupported))
    else if item.key == "" || !item.settled then Some(Blank(source, Some(UnsettledKey)))
    else if item.kind == "rin" && c.normalizeRin(item.key) != Some(item.key) then Some(Blank(source, Some(UnsettledKey)))
    else if !Qualified(c, c.routes[item.kind]) then Some(Blank(source, Some(SnapshotUnavailable)))
    else None
  }

  function Eligible(c: Config, item: Item): Option<Pair> {
    if Exclusion(c, item).Some? || item.kind !in c.routes then None else Some((c.routes[item.kind], item.key))
  }

  /** The eligible pairs in input order, repeats included. */
  function Pairs(c: Config, items: seq<Item>): seq<Pair> {
    if items == [] then []
    else
      Pairs(c, items[..|items| - 1])
      + (match Eligible(c, items[|items| - 1]) case None => [] case Some(pair) => [pair])
  }

  /** The first maxKeys distinct eligible pairs. */
  function Admitted(c: Config, items: seq<Item>): seq<Pair> {
    var distinct := Dedup(Pairs(c, items));
    distinct[..Min(c.maxKeys, |distinct|)]
  }

  // ----- second pass -----

  function RoutesOf(pairs: seq<Pair>): seq<Route> {
    seq(|pairs|, i requires 0 <= i < |pairs| => pairs[i].0)
  }

  /** The routes to read, in the order their first pair was admitted. */
  function ReadOrder(pairs: seq<Pair>): seq<Route> {
    Dedup(RoutesOf(pairs))
  }

  function KeysOf(pairs: seq<Pair>, route: Route): seq<string> {
    if pairs == [] then []
    else
      var rest := KeysOf(pairs[..|pairs| - 1], route);
      if pairs[|pairs| - 1].0 == route then rest + [pairs[|pairs| - 1].1] else rest
  }

  predicate TimedOut(reply: Reply) {
    reply.Raised? && reply.name in TIMEOUTS
  }

  /** What a route's occurrences see: its own reply, or nothing because an earlier read timed out. */
  datatype Fate = Read(reply: Reply) | NotRead

  ghost function FateOf(pairs: seq<Pair>, read: (Route, seq<string>) -> Reply, route: Route): Fate {
    var order := ReadOrder(pairs);
    if exists u, v :: 0 <= u < v < |order| && order[v] == route && TimedOut(read(order[u], KeysOf(pairs, order[u])))
    then NotRead
    else Read(read(route, KeysOf(pairs, route)))
  }

  /** The update of one occurrence's row after its route's turn. */
  function Settle(c: Config, row: Row, route: Route, key: string, fate: Fate): Row {
    match fate
    case NotRead => row.(reason := Some(TargetTimeout), error := Some("TimeoutError"))
    case Read(Raised(name)) =>
      row.(reason := Some(if name in TIMEOUTS then TargetTimeout else TargetReadFailure), error := Some(name))
    case Read(Rows(found)) =>
      var entry := if key in found then found[key] else Found([], 0, None);
      var incomplete := entry.count > c.maxCandidates;
      var unidentified := exists id :: id in entry.candidates && None in id;
      row.(candidates := entry.candidates, count := Some(entry.count), basis := entry.basis,
           status := if incomplete || unidentified then NotChecked
                     else if entry.count == 0 then Missing
                     else if route.many || entry.count == 1 then Hit else Ambiguous,
           reason := if incomplete then Some(CandidateLimit) else if unidentified then Some(IdentityIncomplete) else None)
  }

  /** The row of one occurrence among all. */
  ghost function RowOf(c: Config, items: seq<Item>, read: (Route, seq<string>) -> Reply, item: Item): Row {
    match Eligible(c, item)
    case None => (match Exclusion(c, item) case Some(row) => row case None => Blank(SourceOf(c, item), None))
    case Some(pair) =>
      var blank := Blank(SourceOf(c, item), None);
      if pair !in Admitted(c, items) then blank.(reason := Some(TargetKeyLimit))
      else Settle(c, blank, pair.0, pair.1, FateOf(Admitted(c, items), read, pair.0))
  }

  lemma EligibleExactly(c: Config, item: Item)
    ensures Eligible(c, item).None? <==> Exclusion(c, item).Some?
  {
  }

  // ----- refinement: the batch gives each occurrence what it would get alone -----

  /** A key's answer in a batch is its answer alone. */
  ghost predicate SameAlone(read: (Route, seq<string>) -> Reply, route: Route, keys: seq<string>, key: string) {
    && read(route, keys).Rows? && read(route, [key]).Rows?
    && (key in read(route, keys).found <==> key in read(route, [key]).found)
    && (key in read(route, keys).found ==> read(route, keys).found[key] == read(route, [key]).found[key])
  }

  /** No read of distinct keys fails, and what a key finds there does not depend on the other keys. */
  ghost predicate KeyByKey(read: (Route, seq<string>) -> Reply) {
    forall route, keys, key :: Distinct(keys) && key in keys ==> SameAlone(read, route, keys, key)
  }

  lemma {:induction false} KeysOfContains(pairs: seq<Pair>, pair: Pair)
    requires pair in pairs
    ensures pair.1 in KeysOf(pairs, pair.0)
  {
    var front, last := pairs[..|pairs| - 1], pairs[|pairs| - 1];
    assert pairs == front + [last];
    if pair != last {
      KeysOfContains(front, pair);
    }
  }

  lemma {:induction false} KeysOfNonempty(pairs: seq<Pair>, route: Route)
    requires route in RoutesOf(pairs)
    ensures KeysOf(pairs, route) != []
  {
    var i :| 0 <= i < |pairs| && RoutesOf(pairs)[i] == route;
    assert pairs[i] in pairs;
    KeysOfContains(pairs, pairs[i]);
  }

  lemma NoTimeoutWithoutFailure(pairs: seq<Pair>, read: (Route, seq<string>) -> Reply, route: Route)
    requires KeyByKey(read) && Distinct(pairs)
    ensures FateOf(pairs, read, route) == Read(read(route, KeysOf(pairs, route)))
  {
    var order := ReadOrder(pairs);
    DedupProperties(RoutesOf(pairs));
    forall u | 0 <= u < |order|
      ensures !TimedOut(read(order[u], KeysOf(pairs, order[u])))
    {
      assert order[u] in order;
      KeysOfNonempty(pairs, order[u]);
      KeysOfAre(pairs, order[u]);
      var keys := KeysOf(pairs, order[u]);
      assert SameAlone(read, order[u], keys, keys[0]);
    }
  }

  lemma AloneAdmits(c: Config, item: Item, pair: Pair)
    requires Eligible(c, item) == Some(pair) && c.maxKeys >= 1
    ensures Admitted(c, [item]) == [pair] && KeysOf([pair], pair.0) == [pair.1]
  {
    PairsOfOne(c, item, pair);
    DedupOne(pair);
    KeysOfOne(pair);
  }

  lemma PairsOfOne(c: Config, item: Item, pair: Pair)
    requires Eligible(c, item) == Some(pair)
    ensures Pairs(c, [item]) == [pair]
  {
    assert [item][..0] == [];
  }

  lemma KeysOfOne(pair: Pair)
    ensures KeysOf([pair], pair.0) == [pair.1]
  {
    assert [pair][..0] == [];
  }

  /** Every occurrence whose pair is among the first maxKeys distinct eligible pairs gets exactly what resolving it
      alone gives; every other eligible one gets target_key_limit; the rest are excluded as they are alone. */
  lemma BatchRefinesAlone(c: Config, items: seq<Item>, read: (Route, seq<string>) -> Reply, item: Item)
    requires KeyByKey(read) && c.maxKeys >= 1
    ensures Eligible(c, item).None? || Eligible(c, item).value in Admitted(c, items)
            ==> RowOf(c, items, read, item) == RowOf(c, [item], read, item)
    ensures Eligible(c, item).Some? && Eligible(c, item).value !in Admitted(c, items)
            ==> RowOf(c, items, read, item) == Blank(SourceOf(c, item), Some(TargetKeyLimit))
  {
    if Eligible(c, item).Some? && Eligible(c, item).value in Admitted(c, items) {
      var pair := Eligible(c, item).value;
      AloneAdmits(c, item, pair);
      AdmittedDistinct(c, items);
      KeysOfAre(Admitted(c, items), pair.0);
      NoTimeoutWithoutFailure(Admitted(c, items), read, pair.0);
      NoTimeoutWithoutFailure([pair], read, pair.0);
      KeysOfContains(Admitted(c, items), pair);
      assert pair.1 in KeysOf(Admitted(c, items), pair.0);
      var keys := KeysOf(Admitted(c, items), pair.0);
      assert SameAlone(read, pair.0, keys, pair.1) && SameAlone(read, pair.0, [pair.1], pair.1);
    }
  }

  /** Occurrences with one pair agree on everything but their source status. */
  lemma EqualPairsAgree(c: Config, items: seq<Item>, read: (Route, seq<string>) -> Reply, a: Item, b: Item)
    requires Eligible(c, a).Some? && Eligible(c, a) == Eligible(c, b)
    ensures RowOf(c, items, read, a) == RowOf(c, items, read, b).(source := SourceOf(c, a))
  {
  }

  /** Replies that are the relational lookup in a table for each route. The resolver asks for distinct keys. */
  ghost predicate Answers<T(!new)>(read: (Route, seq<string>) -> Reply, tables: Route -> Target<T>, max: nat) {
    forall route, keys :: Distinct(keys) ==> read(route, keys).Rows? && FindsEach(tables(route), keys, max, read(route, keys).found)
  }

  lemma LookupsAreKeyByKey<T(!new)>(read: (Route, seq<string>) -> Reply, tables: Route -> Target<T>, max: nat)
    requires Answers(read, tables, max)
    ensures KeyByKey(read)
  {
    forall route, keys, key | Distinct(keys) && key in keys
      ensures SameAlone(read, route, keys, key)
    {
      assert FindsEach(tables(route), keys, max, read(route, keys).found);
      assert FindsEach(tables(route), [key], max, read(route, [key]).found);
    }
  }

  /** The lookup of CitationLookup answers that way. */
  lemma LookupAnswers<T(!new)>(tables: Route -> Target<T>, max: nat)
    requires max > 0
    ensures Answers((route: Route, keys: seq<string>) => Rows(LookupOf(tables(route), keys, max)), tables, max)
  {
    forall route: Route, keys | Distinct(keys)
      ensures FindsEach(tables(route), keys, max, LookupOf(tables(route), keys, max))
    {
      BatchFindsEach(tables(route), keys, max);
    }
  }

  function LookupOf<T>(t: Target<T>, keys: seq<string>, max: nat): map<string, Found> {
    AbsorbAll(map[], ResultRows(t, keys, max))
  }

  /** Every listed candidate has all parts of its identity. */
  predicate Identified(candidates: seq<Identity>) {
    forall id :: id in candidates ==> None !in id
  }

  /** What an admitted occurrence's status says of the target table: missing when no row matches its key, a hit when one
      does or the route expects many, ambiguous when several do; not_checked only past the candidate bound or when a
      listed candidate lacks part of its identity. */
  lemma StatusMeaning<T(!new)>(c: Config, items: seq<Item>, read: (Route, seq<string>) -> Reply, tables: Route -> Target<T>,
                               item: Item, pair: Pair)
    requires Answers(read, tables, c.maxCandidates) && Eligible(c, item) == Some(pair) && pair in Admitted(c, items)
    ensures var n := MatchingRows(tables(pair.0), tables(pair.0).rows, pair.1);
      var row := RowOf(c, items, read, item);
      var listed := LookupOne(tables(pair.0), pair.1, c.maxCandidates);
      && row.count == Some(n)
      && (n == 0 ==> row.candidates == [] && row.basis.None?)
      && (n > 0 ==> listed.Some? && row.candidates == listed.value.candidates && row.basis == listed.value.basis)
      && (row.status == Missing <==> n == 0)
      && (row.status == Hit <==> 0 < n <= c.maxCandidates && Identified(row.candidates) && (n == 1 || pair.0.many))
      && (row.status == Ambiguous <==> 1 < n <= c.maxCandidates && Identified(row.candidates) && !pair.0.many)
      && (row.status == NotChecked <==> n > c.maxCandidates || !Identified(row.candidates))
      && (row.reason == Some(CandidateLimit) <==> n > c.maxCandidates)
      && (row.reason == Some(IdentityIncomplete) <==> n <= c.maxCandidates && !Identified(row.candidates))
      && (row.reason.None? <==> row.status in {Missing, Hit, Ambiguous}) && row.error.None?
  {
    LookupsAreKeyByKey(read, tables, c.maxCandidates);
    AdmittedDistinct(c, items);
    KeysOfAre(Admitted(c, items), pair.0);
    NoTimeoutWithoutFailure(Admitted(c, items), read, pair.0);
    KeysOfContains(Admitted(c, items), pair);
    var keys := KeysOf(Admitted(c, items), pair.0);
    CountIsMatchingRows(tables(pair.0), pair.1, c.maxCandidates);
    assert FindsEach(tables(pair.0), keys, c.maxCandidates, read(pair.0, keys).found);
  }

  // ----- what a row says of the occurrence's own fields -----

  /** The digest the occurrence gives for its text, and the one held for its source; empty when there is none. */
  function GivenDigest(item: Item): string {
    if item.text.Some? && item.text.value.Some? then item.text.value.value else ""
  }

  function HeldDigest(c: Config, item: Item): string {
    if item.source in c.digests then c.digests[item.source] else ""
  }

  /** The occurrence comes from a native field, or from the very text that is held. */
  predicate FromHeldText(c: Config, item: Item) {
    item.text.None? || (GivenDigest(item) == HeldDigest(c, item) && GivenDigest(item) != "")
  }

  /** The key is whole: not empty, not marked as unresolved, and a RIN in its normal form. */
  predicate SettledKey(c: Config, item: Item) {
    item.key != "" && item.settled && (item.kind == "rin" ==> c.normalizeRin(item.key) == Some(item.key))
  }

  predicate PinsVersion(c: Config, table: string) {
    && table in c.snapshots && !c.snapshots[table].empty
    && c.snapshots[table].status !in {Some("legacy_unversioned"), Some("local_unversioned"), Some("unavailable")}
  }

  /** The route's table has a version, or it has no pin at all and the published table behind it has a version. */
  predicate PinnedRoute(c: Config, route: Route) {
    || PinsVersion(c, route.table)
    || ((route.table !in c.snapshots || c.snapshots[route.table].empty)
        && route.pinnedBy.Some? && PinsVersion(c, route.pinnedBy.value))
  }

  /** The source status by the two digests alone. */
  ghost predicate SourceFits(c: Config, item: Item, row: Row) {
    var given, held := GivenDigest(item), HeldDigest(c, item);
    && (row.source == NativeField <==> item.text.None?)
    && (row.source == CurrentText <==> item.text.Some? && given != "" && given == held)
    && (row.source == StaleSource <==> item.text.Some? && given != "" && held != "" && given != held)
    && (row.source == UnreadSource <==> item.text.Some? && (given == "" || held == ""))
  }

  /** Each reason for not looking an occurrence up, and that nothing was looked up without passing them all. */
  ghost predicate ReasonFits(c: Config, item: Item, row: Row) {
    var supported := FromHeldText(c, item) && item.kind in c.routes;
    && (row.reason == Some(SourceDigestUnavailable) <==> row.source == UnreadSource)
    && (row.reason == Some(SourceDigestMismatch) <==> row.source == StaleSource)
    && (row.reason == Some(UnsupportedKind) <==> FromHeldText(c, item) && item.kind !in c.routes)
    && (row.status == Unsupported <==> row.reason == Some(UnsupportedKind))
    && (row.reason == Some(UnsettledKey) <==> supported && !SettledKey(c, item))
    && (row.reason == Some(SnapshotUnavailable) <==>
          supported && SettledKey(c, item) && !PinnedRoute(c, c.routes[item.kind]))
    && (row.count.Some? || row.error.Some? || row.candidates != [] || row.basis.Some? || row.status in {Missing, Hit, Ambiguous}
        ==> supported && SettledKey(c, item) && PinnedRoute(c, c.routes[item.kind]))
  }

  lemma PinnedMeaning(c: Config, route: Route)
    ensures Qualified(c, route) <==> PinnedRoute(c, route)
  {
  }

  /** An occurrence is eligible exactly when it passes all the checks, and then for its own route and key. */
  lemma EligibleMeaning(c: Config, item: Item)
    ensures Eligible(c, item) ==
            if FromHeldText(c, item) && item.kind in c.routes && SettledKey(c, item) && PinnedRoute(c, c.routes[item.kind])
            then Some((c.routes[item.kind], item.key)) else None
  {
    if item.kind in c.routes {
      PinnedMeaning(c, c.routes[item.kind]);
    }
  }

  lemma RowSourceMeaning(c: Config, items: seq<Item>, read: (Route, seq<string>) -> Reply, item: Item)
    ensures SourceFits(c, item, RowOf(c, items, read, item))
  {
  }

  lemma RowReasonMeaning(c: Config, items: seq<Item>, read: (Route, seq<string>) -> Reply, item: Item)
    ensures ReasonFits(c, item, RowOf(c, items, read, item))
  {
    RowSourceMeaning(c, items, read, item);
    EligibleMeaning(c, item);
    if Eligible(c, item).None? {
      ExcludedReason(c, item);
    }
  }

  lemma ExcludedReason(c: Config, item: Item)
    requires Exclusion(c, item).Some?
    ensures SourceFits(c, item, Exclusion(c, item).value) ==> ReasonFits(c, item, Exclusion(c, item).value)
  {
    if item.kind in c.routes {
      PinnedMeaning(c, c.routes[item.kind]);
    }
  }

  /** The read of a route before the v-th in turn raised one of the two timeout exceptions. */
  ghost predicate EarlierTimeout(pairs: seq<Pair>, read: (Route, seq<string>) -> Reply, v: nat)
    requires v <= |ReadOrder(pairs)|
  {
    exists u :: 0 <= u < v &&
      read(ReadOrder(pairs)[u], KeysOf(pairs, ReadOrder(pairs)[u])) in {Raised("InterruptException"), Raised("TimeoutError")}
  }

  lemma TimedOutMeaning(reply: Reply)
    ensures TimedOut(reply) <==> reply in {Raised("InterruptException"), Raised("TimeoutError")}
  {
  }

  /** When an admitted occurrence's target was not read: its own route's read timed out or one before it did, or its own
      read failed otherwise. */
  lemma FailureMeaning(c: Config, items: seq<Item>, read: (Route, seq<string>) -> Reply, item: Item, v: nat)
    requires Eligible(c, item).Some? && Eligible(c, item).value in Admitted(c, items)
    requires v < |ReadOrder(Admitted(c, items))| && ReadOrder(Admitted(c, items))[v] == Eligible(c, item).value.0
    ensures var row, admitted := RowOf(c, items, read, item), Admitted(c, items);
      var order := ReadOrder(admitted);
      var own := read(order[v], KeysOf(admitted, order[v]));
      && (row.reason == Some(TargetTimeout) <==>
            EarlierTimeout(admitted, read, v) || own in {Raised("InterruptException"), Raised("TimeoutError")})
      && (row.reason == Some(TargetReadFailure) <==> !EarlierTimeout(admitted, read, v) && own.Raised?
                                                     && own.name !in {"InterruptException", "TimeoutError"})
      && (row.count.None? <==> row.reason in {Some(TargetTimeout), Some(TargetReadFailure)})
      && row.error == (if EarlierTimeout(admitted, read, v) then Some("TimeoutError")
                       else if own.Raised? then Some(own.name) else None)
      && row.reason != Some(TargetKeyLimit)
      && (row.count.None? ==> row.status == NotChecked && row.candidates == [] && row.basis.None?)
  {
    var admitted := Admitted(c, items);
    FateInOrder(admitted, read, v);
    forall u | 0 <= u <= v
      ensures var reply := read(ReadOrder(admitted)[u], KeysOf(admitted, ReadOrder(admitted)[u]));
        TimedOut(reply) <==> reply in {Raised("InterruptException"), Raised("TimeoutError")}
    {
      TimedOutMeaning(read(ReadOrder(admitted)[u], KeysOf(admitted, ReadOrder(admitted)[u])));
    }
  }

  // ----- the program -----

  lemma AdmittedSnoc(c: Config, items: seq<Item>, item: Item)
    ensures Admitted(c, items + [item]) ==
            match Eligible(c, item)
            case None => Admitted(c, items)
            case Some(pair) =>
              if pair in Admitted(c, items) || |Admitted(c, items)| >= c.maxKeys then Admitted(c, items)
              else Admitted(c, items) + [pair]
  {
    assert (items + [item])[..|items|] == items;
    if Eligible(c, item).Some? {
      DedupSnoc(Pairs(c, items), Eligible(c, item).value);
      DedupMember(Pairs(c, items), Eligible(c, item).value);
    } else {
      assert Pairs(c, items) + [] == Pairs(c, items);
    }
  }

  lemma ReadOrderSnoc(pairs: seq<Pair>, pair: Pair)
    ensures ReadOrder(pairs + [pair]) ==
            if pair.0 in ReadOrder(pairs) then ReadOrder(pairs) else ReadOrder(pairs) + [pair.0]
  {
    assert RoutesOf(pairs + [pair]) == RoutesOf(pairs) + [pair.0];
    DedupSnoc(RoutesOf(pairs), pair.0);
    DedupMember(RoutesOf(pairs), pair.0);
  }

  lemma KeysOfSnoc(pairs: seq<Pair>, pair: Pair, route: Route)
    ensures KeysOf(pairs + [pair], route) == if pair.0 == route then KeysOf(pairs, route) + [pair.1] else KeysOf(pairs, route)
  {
    assert (pairs + [pair])[..|pairs|] == pairs;
  }

  lemma {:induction false} KeysOfAbsent(pairs: seq<Pair>, route: Route)
    requires route !in ReadOrder(pairs)
    ensures KeysOf(pairs, route) == []
  {
    if pairs != [] {
      var front, last := pairs[..|pairs| - 1], pairs[|pairs| - 1];
      assert pairs == front + [last];
      ReadOrderSnoc(front, last);
      KeysOfAbsent(front, route);
    }
  }

  /** A row after the first pass: excluded, limited, or waiting for its route. */
  function FirstRow(c: Config, item: Item, admitted: seq<Pair>): Row {
    match Eligible(c, item)
    case None => (match Exclusion(c, item) case Some(row) => row case None => Blank(SourceOf(c, item), None))
    case Some(pair) => Blank(SourceOf(c, item), if pair in admitted then None else Some(TargetKeyLimit))
  }

  /** The batches: routes in order, each route's keys in order, each pair's output positions. */
  datatype Batches = Batches(order: seq<Route>, keys: map<Route, seq<string>>, positions: map<Pair, seq<nat>>)

  ghost predicate BatchesFit(b: Batches, admitted: seq<Pair>) {
    && b.order == ReadOrder(admitted)
    && (forall route :: route in b.keys <==> route in b.order)
    && (forall route :: route in b.keys ==> b.keys[route] == KeysOf(admitted, route))
    && (forall pair :: pair in b.positions <==> pair in admitted)
  }

  /** Exactly the positions of the occurrences with this pair. */
  ghost predicate PositionsOf(c: Config, items: seq<Item>, pair: Pair, positions: seq<nat>) {
    && Distinct(positions)
    && forall i: nat :: i in positions <==> i < |items| && Eligible(c, items[i]) == Some(pair)
  }

  ghost predicate PositionsFit(c: Config, items: seq<Item>, b: Batches) {
    forall pair :: pair in b.positions ==> PositionsOf(c, items, pair, b.positions[pair])
  }

  lemma PositionsSnoc(c: Config, items: seq<Item>, item: Item, pair: Pair, positions: seq<nat>)
    requires PositionsOf(c, items, pair, positions)
    ensures PositionsOf(c, items + [item], pair,
                        if Eligible(c, item) == Some(pair) then positions + [|items|] else positions)
  {
    forall k | 0 <= k < |positions|
      ensures positions[k] != |items|
    {
      assert positions[k] in positions;
    }
  }

  /** batches[route].setdefault(key, []).append(position), after admitted.add(pair). */
  function Enter(b: Batches, pair: Pair, position: nat): Batches {
    if pair in b.positions then b.(positions := b.positions[pair := b.positions[pair] + [position]])
    else if pair.0 in b.keys then
      b.(keys := b.keys[pair.0 := b.keys[pair.0] + [pair.1]], positions := b.positions[pair := [position]])
    else Batches(b.order + [pair.0], b.keys[pair.0 := [pair.1]], b.positions[pair := [position]])
  }

  lemma EnterNewFits(b: Batches, admitted: seq<Pair>, pair: Pair, position: nat)
    requires BatchesFit(b, admitted) && pair !in admitted
    ensures BatchesFit(Enter(b, pair, position), admitted + [pair])
  {
    ReadOrderSnoc(admitted, pair);
    var after := Enter(b, pair, position);
    forall route | route in after.keys
      ensures after.keys[route] == KeysOf(admitted + [pair], route)
    {
      KeysOfSnoc(admitted, pair, route);
      if route !in b.order {
        KeysOfAbsent(admitted, route);
      }
    }
  }

  lemma EnterPositionsFit(c: Config, items: seq<Item>, item: Item, b: Batches, pair: Pair)
    requires PositionsFit(c, items, b) && Eligible(c, item) == Some(pair)
    requires pair !in b.positions ==> forall i :: 0 <= i < |items| ==> Eligible(c, items[i]) != Some(pair)
    ensures PositionsFit(c, items + [item], Enter(b, pair, |items|))
  {
    var after := Enter(b, pair, |items|);
    forall p | p in after.positions
      ensures PositionsOf(c, items + [item], p, after.positions[p])
    {
      if p in b.positions {
        PositionsSnoc(c, items, item, p, b.positions[p]);
      } else {
        assert PositionsOf(c, items, p, []);
        PositionsSnoc(c, items, item, p, []);
      }
    }
  }

  lemma SkipPositionsFit(c: Config, items: seq<Item>, item: Item, b: Batches)
    requires PositionsFit(c, items, b) && (Eligible(c, item).Some? ==> Eligible(c, item).value !in b.positions)
    ensures PositionsFit(c, items + [item], b)
  {
    forall p | p in b.positions
      ensures PositionsOf(c, items + [item], p, b.positions[p])
    {
      PositionsSnoc(c, items, item, p, b.positions[p]);
    }
  }

  ghost predicate FirstPassDone(c: Config, items: seq<Item>, outputs: seq<Row>, listed: seq<Pair>, b: Batches) {
    && listed == Admitted(c, items) && |outputs| == |items|
    && (forall i :: 0 <= i < |items| ==> outputs[i] == FirstRow(c, items[i], listed))
    && (forall i :: 0 <= i < |items| ==> LimitedOnlyWhenFull(c, items[i], listed))
    && BatchesFit(b, listed) && PositionsFit(c, items, b)
  }

  ghost predicate LimitedOnlyWhenFull(c: Config, item: Item, listed: seq<Pair>) {
    Eligible(c, item).Some? && Eligible(c, item).value !in listed ==> |listed| >= c.maxKeys
  }

  /** An occurrence that is excluded or limited leaves the batches alone. */
  lemma FirstPassSkips(c: Config, items: seq<Item>, item: Item, outputs: seq<Row>, listed: seq<Pair>, b: Batches)
    requires FirstPassDone(c, items, outputs, listed, b)
    requires Eligible(c, item).None? || (Eligible(c, item).value !in listed && |listed| >= c.maxKeys)
    ensures FirstPassDone(c, items + [item], outputs + [FirstRow(c, item, listed)], listed, b)
  {
    AdmittedSnoc(c, items, item);
    SkipPositionsFit(c, items, item, b);
  }

  /** A repeat of an admitted pair only adds a position. */
  lemma FirstPassRepeats(c: Config, items: seq<Item>, item: Item, pair: Pair, outputs: seq<Row>, listed: seq<Pair>, b: Batches)
    requires FirstPassDone(c, items, outputs, listed, b) && Eligible(c, item) == Some(pair) && pair in listed
    ensures FirstPassDone(c, items + [item], outputs + [FirstRow(c, item, listed)], listed, Enter(b, pair, |items|))
  {
    AdmittedSnoc(c, items, item);
    EnterPositionsFit(c, items, item, b, pair);
  }

  lemma NotYetSeen(c: Config, item: Item, pair: Pair, listed: seq<Pair>)
    requires LimitedOnlyWhenFull(c, item, listed) && |listed| < c.maxKeys && pair !in listed
    ensures Eligible(c, item) != Some(pair)
    ensures FirstRow(c, item, listed + [pair]) == FirstRow(c, item, listed)
    ensures LimitedOnlyWhenFull(c, item, listed + [pair])
  {
  }

  lemma EarlierRowsStay(c: Config, items: seq<Item>, pair: Pair, listed: seq<Pair>)
    requires forall i :: 0 <= i < |items| ==> LimitedOnlyWhenFull(c, items[i], listed)
    requires |listed| < c.maxKeys && pair !in listed
    ensures forall i :: 0 <= i < |items| ==> Eligible(c, items[i]) != Some(pair)
    ensures forall i :: 0 <= i < |items| ==> FirstRow(c, items[i], listed + [pair]) == FirstRow(c, items[i], listed)
    ensures forall i :: 0 <= i < |items| ==> LimitedOnlyWhenFull(c, items[i], listed + [pair])
  {
    forall i | 0 <= i < |items|
      ensures Eligible(c, items[i]) != Some(pair)
      ensures FirstRow(c, items[i], listed + [pair]) == FirstRow(c, items[i], listed)
      ensures LimitedOnlyWhenFull(c, items[i], listed + [pair])
    {
      NotYetSeen(c, items[i], pair, listed);
    }
  }

  /** A new pair within the bound is admitted; no earlier row changes, since none was limited yet. */
  lemma FirstPassAdmits(c: Config, items: seq<Item>, item: Item, pair: Pair, outputs: seq<Row>, listed: seq<Pair>, b: Batches)
    requires FirstPassDone(c, items, outputs, listed, b) && Eligible(c, item) == Some(pair)
    requires pair !in listed && |listed| < c.maxKeys
    ensures FirstPassDone(c, items + [item], outputs + [FirstRow(c, item, listed + [pair])], listed + [pair],
                          Enter(b, pair, |items|))
  {
    AdmittedSnoc(c, items, item);
    EarlierRowsStay(c, items, pair, listed);
    EnterPositionsFit(c, items, item, b, pair);
    EnterNewFits(b, listed, pair, |items|);
  }

  ghost predicate SameMembers(admitted: set<Pair>, listed: seq<Pair>) {
    (forall pair :: pair in admitted <==> pair in listed) && |admitted| == |listed|
  }

  lemma AddedOnce(admitted: set<Pair>, listed: seq<Pair>, pair: Pair)
    requires SameMembers(admitted, listed) || (listed != [] && pair == listed[|listed| - 1]
                                               && pair !in admitted && SameMembers(admitted, listed[..|listed| - 1]))
    requires pair in listed
    ensures SameMembers(admitted + {pair}, listed)
  {
    if SameMembers(admitted, listed) {
      assert admitted + {pair} == admitted;
    } else {
      assert listed == listed[..|listed| - 1] + [pair];
    }
  }

  lemma RowNowIsFirstRow(c: Config, item: Item, admitted: set<Pair>, listed: seq<Pair>)
    requires SameMembers(admitted, listed)
    ensures RowNow(c, item, admitted) == FirstRow(c, item, listed)
  {
  }

  lemma FirstPassPasses(c: Config, items: seq<Item>, item: Item, outputs: seq<Row>, listed: seq<Pair>, b: Batches, admitted: set<Pair>)
    requires FirstPassDone(c, items, outputs, listed, b) && SameMembers(admitted, listed)
    requires Eligible(c, item).None? || (Eligible(c, item).value !in admitted && |admitted| >= c.maxKeys)
    ensures FirstPassDone(c, items + [item], outputs + [RowNow(c, item, admitted)], listed, b)
  {
    FirstPassSkips(c, items, item, outputs, listed, b);
    RowNowIsFirstRow(c, item, admitted, listed);
  }

  lemma FirstPassTakes(c: Config, items: seq<Item>, item: Item, pair: Pair, outputs: seq<Row>, listed: seq<Pair>, b: Batches,
                       admitted: set<Pair>)
    requires FirstPassDone(c, items, outputs, listed, b) && SameMembers(admitted, listed)
    requires Eligible(c, item) == Some(pair) && (pair in admitted || |admitted| < c.maxKeys)
    ensures var after := if pair in listed then listed else listed + [pair];
      && SameMembers(admitted + {pair}, after)
      && FirstPassDone(c, items + [item], outputs + [RowNow(c, item, admitted + {pair})], after, Enter(b, pair, |items|))
  {
    var after := if pair in listed then listed else listed + [pair];
    AddedOnce(admitted, after, pair);
    RowNowIsFirstRow(c, item, admitted + {pair}, after);
    if pair in listed {
      FirstPassRepeats(c, items, item, pair, outputs, listed, b);
    } else {
      FirstPassAdmits(c, items, item, pair, outputs, listed, b);
    }
  }

  lemma FirstPassBegins(c: Config)
    ensures FirstPassDone(c, [], [], [], Batches([], map[], map[]))
  {
  }

  method FirstPass(c: Config, items: seq<Item>) returns (outputs: seq<Row>, b: Batches, selected: nat, ghost listed: seq<Pair>)
    ensures FirstPassDone(c, items, outputs, Admitted(c, items), b)
    ensures listed == Admitted(c, items) && selected == |Admitted(c, items)|
  {
    outputs, b, selected, listed := [], Batches([], map[], map[]), 0, [];
    FirstPassBegins(c);
    var admitted: set<Pair> := {};
    var n := 0;
    while n < |items|
      invariant 0 <= n <= |items|
      invariant FirstPassDone(c, items[..n], outputs, listed, b)
      invariant SameMembers(admitted, listed)
    {
      var item := items[n];
      assert items[..n + 1] == items[..n] + [item];
      var pair := Eligible(c, item);
      if pair.None? || (pair.value !in admitted && |admitted| >= c.maxKeys) {
        FirstPassPasses(c, items[..n], item, outputs, listed, b, admitted);
      } else {
        FirstPassTakes(c, items[..n], item, pair.value, outputs, listed, b, admitted);
        listed := if pair.value in listed then listed else listed + [pair.value];
        admitted := admitted + {pair.value};
        b := Enter(b, pair.value, n);
      }
      outputs := outputs + [RowNow(c, item, admitted)];
      n := n + 1;
    }
    assert items[..|items|] == items;
    selected := |admitted|;
  }

  function RowNow(c: Config, item: Item, admitted: set<Pair>): Row {
    match Eligible(c, item)
    case None => (match Exclusion(c, item) case Some(row) => row case None => Blank(SourceOf(c, item), None))
    case Some(pair) => Blank(SourceOf(c, item), if pair in admitted then None else Some(TargetKeyLimit))
  }

  /** One pair's occurrences take their route's outcome. */
  method SettleKey(c: Config, outputs: seq<Row>, positions: seq<nat>, route: Route, key: string, fate: Fate)
    returns (r: seq<Row>)
    requires Distinct(positions) && forall i :: i in positions ==> i < |outputs|
    ensures |r| == |outputs|
    ensures forall i :: 0 <= i < |r| ==> r[i] == if i in positions then Settle(c, outputs[i], route, key, fate) else outputs[i]
  {
    r := outputs;
    for k := 0 to |positions|
      invariant |r| == |outputs|
      invariant forall i :: 0 <= i < |r| ==>
        r[i] == if i in positions[..k] then Settle(c, outputs[i], route, key, fate) else outputs[i]
    {
      var position := positions[k];
      assert position in positions && position !in positions[..k];
      assert positions[..k + 1] == positions[..k] + [position];
      r := r[position := Settle(c, r[position], route, key, fate)];
    }
    assert positions[..|positions|] == positions;
  }

  /** The row of an occurrence once the routes in `done` have had their turn. */
  ghost function RowAfter(c: Config, item: Item, admitted: seq<Pair>, read: (Route, seq<string>) -> Reply, done: seq<Route>): Row {
    match Eligible(c, item)
    case None => FirstRow(c, item, admitted)
    case Some(pair) =>
      if pair in admitted && pair.0 in done
      then Settle(c, FirstRow(c, item, admitted), pair.0, pair.1, FateOf(admitted, read, pair.0))
      else FirstRow(c, item, admitted)
  }

  /** One route's turn: every key's occurrences, key by key. */
  method SettleRoute(c: Config, items: seq<Item>, outputs: seq<Row>, b: Batches, ghost admitted: seq<Pair>, route: Route, fate: Fate)
    returns (r: seq<Row>)
    requires BatchesFit(b, admitted) && PositionsFit(c, items, b) && |outputs| == |items| && route in b.keys
    requires forall key :: key in b.keys[route] <==> (route, key) in admitted
    requires Distinct(b.keys[route])
    ensures |r| == |items|
    ensures forall i :: 0 <= i < |items| ==> r[i] == TurnOf(c, items[i], admitted, route, fate, outputs[i])
  {
    var keys := b.keys[route];
    r := outputs;
    for k := 0 to |keys|
      invariant |r| == |items|
      invariant forall i :: 0 <= i < |items| ==> r[i] == PartTurn(c, items[i], route, keys[..k], fate, outputs[i])
    {
      assert keys[k] in keys;
      var pair := (route, keys[k]);
      assert PositionsOf(c, items, pair, b.positions[pair]);
      assert keys[k] !in keys[..k];
      assert keys[..k + 1] == keys[..k] + [keys[k]];
      r := SettleKey(c, r, b.positions[pair], route, keys[k], fate);
    }
    assert keys[..|keys|] == keys;
  }

  ghost function PartTurn(c: Config, item: Item, route: Route, keys: seq<string>, fate: Fate, row: Row): Row {
    match Eligible(c, item)
    case None => row
    case Some(pair) => if pair.0 == route && pair.1 in keys then Settle(c, row, route, pair.1, fate) else row
  }

  ghost function TurnOf(c: Config, item: Item, admitted: seq<Pair>, route: Route, fate: Fate, row: Row): Row {
    match Eligible(c, item)
    case None => row
    case Some(pair) => if pair.0 == route && pair in admitted then Settle(c, row, route, pair.1, fate) else row
  }

  lemma {:induction false} KeysOfAre(pairs: seq<Pair>, route: Route)
    requires Distinct(pairs)
    ensures Distinct(KeysOf(pairs, route))
    ensures forall key :: key in KeysOf(pairs, route) <==> (route, key) in pairs
  {
    if pairs != [] {
      var front, last := pairs[..|pairs| - 1], pairs[|pairs| - 1];
      KeysOfAre(front, route);
      assert pairs == front + [last];
      assert last !in front;
    }
  }

  lemma AdmittedDistinct(c: Config, items: seq<Item>)
    ensures Distinct(Admitted(c, items))
  {
    DedupProperties(Pairs(c, items));
  }

  /** The routes read are the read order, cut after the first read that times out. */
  ghost predicate ReadsStopAtTimeout(pairs: seq<Pair>, read: (Route, seq<string>) -> Reply, asked: seq<Route>) {
    && asked <= ReadOrder(pairs)
    && (forall u :: 0 <= u < |asked| - 1 ==> !TimedOut(read(asked[u], KeysOf(pairs, asked[u]))))
    && (asked == ReadOrder(pairs)
        || (asked != [] && TimedOut(read(asked[|asked| - 1], KeysOf(pairs, asked[|asked| - 1])))))
  }

  /** In reading order, a route is skipped exactly when some earlier read timed out. */
  lemma FateInOrder(pairs: seq<Pair>, read: (Route, seq<string>) -> Reply, t: nat)
    requires t < |ReadOrder(pairs)|
    ensures var order := ReadOrder(pairs);
      FateOf(pairs, read, order[t]) ==
      if exists u :: 0 <= u < t && TimedOut(read(order[u], KeysOf(pairs, order[u]))) then NotRead
      else Read(read(order[t], KeysOf(pairs, order[t])))
  {
    DedupProperties(RoutesOf(pairs));
  }

  lemma TurnAdds(c: Config, item: Item, admitted: seq<Pair>, read: (Route, seq<string>) -> Reply, done: seq<Route>, route: Route)
    requires route !in done
    ensures RowAfter(c, item, admitted, read, done + [route]) ==
            TurnOf(c, item, admitted, route, FateOf(admitted, read, route), RowAfter(c, item, admitted, read, done))
  {
  }

  ghost predicate RowsAfter(c: Config, items: seq<Item>, admitted: seq<Pair>, read: (Route, seq<string>) -> Reply,
                            done: seq<Route>, outputs: seq<Row>) {
    && |outputs| == |items|
    && forall i :: 0 <= i < |items| ==> outputs[i] == RowAfter(c, items[i], admitted, read, done)
  }

  method TakeTurn(c: Config, items: seq<Item>, outputs: seq<Row>, b: Batches, ghost admitted: seq<Pair>,
                  ghost read: (Route, seq<string>) -> Reply, t: nat, fate: Fate)
    returns (r: seq<Row>)
    requires BatchesFit(b, admitted) && PositionsFit(c, items, b) && Distinct(admitted) && t < |b.order|
    requires RowsAfter(c, items, admitted, read, b.order[..t], outputs) && fate == FateOf(admitted, read, b.order[t])
    ensures RowsAfter(c, items, admitted, read, b.order[..t + 1], r)
  {
    var route := b.order[t];
    KeysOfAre(admitted, route);
    assert route in b.order;
    DedupProperties(RoutesOf(admitted));
    assert b.order[..t + 1] == b.order[..t] + [route] && route !in b.order[..t];
    forall i | 0 <= i < |items|
      ensures RowAfter(c, items[i], admitted, read, b.order[..t + 1]) ==
              TurnOf(c, items[i], admitted, route, fate, RowAfter(c, items[i], admitted, read, b.order[..t]))
    {
      TurnAdds(c, items[i], admitted, read, b.order[..t], route);
    }
    r := SettleRoute(c, items, outputs, b, admitted, route, fate);
  }

  ghost predicate SomeTimedOut(pairs: seq<Pair>, read: (Route, seq<string>) -> Reply, order: seq<Route>, t: nat)
    requires t <= |order|
  {
    exists u :: 0 <= u < t && TimedOut(read(order[u], KeysOf(pairs, order[u])))
  }

  /** Until the first timeout everything in turn is asked; after it nothing more is. */
  ghost predicate AskedSoFar(pairs: seq<Pair>, read: (Route, seq<string>) -> Reply, t: nat, asked: seq<Route>, timedOut: bool)
    requires t <= |ReadOrder(pairs)|
  {
    var order := ReadOrder(pairs);
    && timedOut == SomeTimedOut(pairs, read, order, t)
    && |asked| <= t && asked == order[..|asked|] && (!timedOut ==> |asked| == t)
    && (timedOut ==> |asked| > 0 && TimedOut(read(order[|asked| - 1], KeysOf(pairs, order[|asked| - 1]))))
    && forall u :: 0 <= u < |asked| - 1 ==> !TimedOut(read(order[u], KeysOf(pairs, order[u])))
  }

  lemma AskNext(pairs: seq<Pair>, read: (Route, seq<string>) -> Reply, t: nat, asked: seq<Route>)
    requires t < |ReadOrder(pairs)| && AskedSoFar(pairs, read, t, asked, false)
    ensures var route := ReadOrder(pairs)[t];
      && FateOf(pairs, read, route) == Read(read(route, KeysOf(pairs, route)))
      && AskedSoFar(pairs, read, t + 1, asked + [route], TimedOut(read(route, KeysOf(pairs, route))))
  {
    FateInOrder(pairs, read, t);
  }

  lemma SkipNext(pairs: seq<Pair>, read: (Route, seq<string>) -> Reply, t: nat, asked: seq<Route>)
    requires t < |ReadOrder(pairs)| && AskedSoFar(pairs, read, t, asked, true)
    ensures FateOf(pairs, read, ReadOrder(pairs)[t]) == NotRead
    ensures AskedSoFar(pairs, read, t + 1, asked, true)
  {
    FateInOrder(pairs, read, t);
  }

  lemma AskedAll(pairs: seq<Pair>, read: (Route, seq<string>) -> Reply, asked: seq<Route>, timedOut: bool)
    requires AskedSoFar(pairs, read, |ReadOrder(pairs)|, asked, timedOut)
    ensures ReadsStopAtTimeout(pairs, read, asked)
  {
  }

  /** How many keys were in the reads that came back with rows. */
  function KeysRead(pairs: seq<Pair>, read: (Route, seq<string>) -> Reply, asked: seq<Route>): nat {
    if asked == [] then 0
    else
      var last := asked[|asked| - 1];
      KeysRead(pairs, read, asked[..|asked| - 1])
      + (if read(last, KeysOf(pairs, last)).Rows? then |KeysOf(pairs, last)| else 0)
  }

  lemma KeysReadSnoc(pairs: seq<Pair>, read: (Route, seq<string>) -> Reply, asked: seq<Route>, route: Route)
    ensures KeysRead(pairs, read, asked + [route])
         == KeysRead(pairs, read, asked) + (if read(route, KeysOf(pairs, route)).Rows? then |KeysOf(pairs, route)| else 0)
  {
    assert (asked + [route])[..|asked|] == asked;
  }

  method SecondPass(c: Config, items: seq<Item>, first: seq<Row>, b: Batches, ghost admitted: seq<Pair>,
                    read: (Route, seq<string>) -> Reply)
    returns (outputs: seq<Row>, asked: seq<Route>, keysRead: nat)
    requires BatchesFit(b, admitted) && PositionsFit(c, items, b) && Distinct(admitted)
    requires RowsAfter(c, items, admitted, read, [], first)
    ensures RowsAfter(c, items, admitted, read, ReadOrder(admitted), outputs)
    ensures ReadsStopAtTimeout(admitted, read, asked) && keysRead == KeysRead(admitted, read, asked)
  {
    outputs, asked, keysRead := first, [], 0;
    var timedOut := false;
    assert b.order[..0] == [];
    for t := 0 to |b.order|
      invariant RowsAfter(c, items, admitted, read, b.order[..t], outputs)
      invariant AskedSoFar(admitted, read, t, asked, timedOut)
      invariant keysRead == KeysRead(admitted, read, asked)
    {
      if timedOut {
        SkipNext(admitted, read, t, asked);
        outputs := TakeTurn(c, items, outputs, b, admitted, read, t, NotRead);
      } else {
        AskNext(admitted, read, t, asked);
        var route := b.order[t];
        assert route in b.order;
        var reply := read(route, b.keys[route]);
        KeysReadSnoc(admitted, read, asked, route);
        outputs := TakeTurn(c, items, outputs, b, admitted, read, t, Read(reply));
        asked, timedOut := asked + [route], TimedOut(reply);
        keysRead := keysRead + if reply.Rows? then |b.keys[route]| else 0;
      }
    }
    assert b.order[..|b.order|] == b.order;
    AskedAll(admitted, read, asked, timedOut);
  }

  lemma FirstRowsWait(c: Config, items: seq<Item>, first: seq<Row>, admitted: seq<Pair>, b: Batches,
                      read: (Route, seq<string>) -> Reply)
    requires FirstPassDone(c, items, first, admitted, b)
    ensures RowsAfter(c, items, admitted, read, [], first)
  {
  }

  /** Every admitted pair's route has had its turn. */
  lemma AllTurnsTaken(c: Config, items: seq<Item>, read: (Route, seq<string>) -> Reply, item: Item)
    ensures RowAfter(c, item, Admitted(c, items), read, ReadOrder(Admitted(c, items))) == RowOf(c, items, read, item)
  {
    EligibleExactly(c, item);
    var admitted := Admitted(c, items);
    if Eligible(c, item).Some? && Eligible(c, item).value in admitted {
      var i :| 0 <= i < |admitted| && admitted[i] == Eligible(c, item).value;
      assert RoutesOf(admitted)[i] == admitted[i].0;
      DedupMember(RoutesOf(admitted), admitted[i].0);
    }
  }

  // ----- coverage counts -----

  function Tally(rows: seq<Row>, status: Status): nat {
    if rows == [] then 0
    else Tally(rows[..|rows| - 1], status) + (if rows[|rows| - 1].status == status then 1 else 0)
  }

  /** Every occurrence is counted under exactly one status. */
  lemma {:induction false} TalliesSum(rows: seq<Row>)
    ensures Tally(rows, NotChecked) + Tally(rows, Unsupported) + Tally(rows, Missing) + Tally(rows, Hit)
          + Tally(rows, Ambiguous) == |rows|
  {
    if rows != [] {
      TalliesSum(rows[..|rows| - 1]);
    }
  }

  method CountStatuses(rows: seq<Row>) returns (counts: map<Status, nat>)
    ensures forall status :: (if status in counts then counts[status] else 0) == Tally(rows, status)
  {
    counts := map[];
    for i := 0 to |rows|
      invariant forall status :: (if status in counts then counts[status] else 0) == Tally(rows[..i], status)
    {
      assert rows[..i + 1][..i] == rows[..i];
      var status := rows[i].status;
      counts := counts[status := (if status in counts then counts[status] else 0) + 1];
    }
    assert rows[..|rows|] == rows;
  }

  function ReasonTally(rows: seq<Row>, reason: Reason): nat {
    if rows == [] then 0
    else ReasonTally(rows[..|rows| - 1], reason) + (if rows[|rows| - 1].reason == Some(reason) then 1 else 0)
  }

  method CountReasons(rows: seq<Row>) returns (counts: map<Reason, nat>)
    ensures forall reason :: (if reason in counts then counts[reason] else 0) == ReasonTally(rows, reason)
    ensures forall reason :: reason in counts <==> exists i :: 0 <= i < |rows| && rows[i].reason == Some(reason)
  {
    counts := map[];
    for i := 0 to |rows|
      invariant forall reason :: (if reason in counts then counts[reason] else 0) == ReasonTally(rows[..i], reason)
      invariant forall reason :: reason in counts <==> exists k :: 0 <= k < i && rows[k].reason == Some(reason)
    {
      assert rows[..i + 1][..i] == rows[..i];
      if rows[i].reason.Some? {
        var reason := rows[i].reason.value;
        counts := counts[reason := (if reason in counts then counts[reason] else 0) + 1];
      }
    }
    assert rows[..|rows|] == rows;
  }

  /** The coverage part of the answer. */
  datatype Coverage = Coverage(statuses: map<Status, nat>, reasons: map<Reason, nat>, keysRead: nat, keysSelected: nat,
                               batches: nat, partial: bool)

  datatype Resolution = Resolution(outputs: seq<Row>, asked: seq<Route>, coverage: Coverage)

  ghost predicate CoverageFits(c: Config, items: seq<Item>, read: (Route, seq<string>) -> Reply, r: Resolution) {
    && (forall status ::
          (if status in r.coverage.statuses then r.coverage.statuses[status] else 0) == Tally(r.outputs, status))
    && (forall reason ::
          (if reason in r.coverage.reasons then r.coverage.reasons[reason] else 0) == ReasonTally(r.outputs, reason))
    && r.coverage.keysRead == KeysRead(Admitted(c, items), read, r.asked)
    && r.coverage.keysSelected == |Admitted(c, items)| && r.coverage.batches == |r.asked|
    && (r.coverage.partial <==> exists i :: 0 <= i < |r.outputs| && r.outputs[i].reason.Some?)
  }

  /** The whole resolver. Bounds outside the supported limits are a ValueError (None). */
  method Resolve(c: Config, items: seq<Item>, read: (Route, seq<string>) -> Reply) returns (r: Option<Resolution>)
    ensures r.None? <==> !(1 <= c.maxKeys <= 10_000) || !(1 <= c.maxCandidates <= 1_000)
    ensures r.Some? ==> |r.value.outputs| == |items|
    ensures r.Some? ==> forall i :: 0 <= i < |items| ==> r.value.outputs[i] == RowOf(c, items, read, items[i])
    ensures r.Some? ==> forall i :: 0 <= i < |items| ==>
      SourceFits(c, items[i], r.value.outputs[i]) && ReasonFits(c, items[i], r.value.outputs[i])
    ensures r.Some? ==> ReadsStopAtTimeout(Admitted(c, items), read, r.value.asked)
    ensures r.Some? ==> CoverageFits(c, items, read, r.value)
  {
    if !(1 <= c.maxKeys <= 10_000) || !(1 <= c.maxCandidates <= 1_000) {
      return None;
    }
    var first, b, selected, admitted := FirstPass(c, items);
    FirstRowsWait(c, items, first, admitted, b, read);
    AdmittedDistinct(c, items);
    var outputs, asked, keysRead := SecondPass(c, items, first, b, admitted, read);
    forall i | 0 <= i < |items|
      ensures outputs[i] == RowOf(c, items, read, items[i])
    {
      AllTurnsTaken(c, items, read, items[i]);
    }
    forall i | 0 <= i < |items|
      ensures SourceFits(c, items[i], outputs[i]) && ReasonFits(c, items[i], outputs[i])
    {
      RowSourceMeaning(c, items, read, items[i]);
      RowReasonMeaning(c, items, read, items[i]);
    }
    var statuses := CountStatuses(outputs);
    var reasons := CountReasons(outputs);
    PartialIffReasons(outputs, reasons);
    r := Some(Resolution(outputs, asked,
                         Coverage(statuses, reasons, keysRead, selected, |asked|, |reasons| > 0)));
  }

  lemma PartialIffReasons(rows: seq<Row>, counts: map<Reason, nat>)
    requires forall reason :: reason in counts <==> exists i :: 0 <= i < |rows| && rows[i].reason == Some(reason)
    ensures |counts| > 0 <==> exists i :: 0 <= i < |rows| && rows[i].reason.Some?
  {
    if i :| 0 <= i < |rows| && rows[i].reason.Some? {
      assert rows[i].reason.value in counts;
    }
    if |counts| > 0 {
      assert |counts.Keys| > 0;
      var reason :| reason in counts.Keys;
    }
  }
}
