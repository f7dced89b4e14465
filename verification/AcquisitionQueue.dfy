/** The missing-target queue of src/spicy_regs/acquisition_queue.py: which occurrences qualify, how they group by target,
    and how the groups are ranked. */
module AcquisitionQueue {
  import opened Basics
  import opened Decimals
  import opened Sorting

  type Snapshot = map<string, string>

  /** One resolved occurrence; None is an absent or null field. `detail` is what a request carries along unread: the
      matched text, its digest and span, and the resolution rule. */
  datatype Row = Row(targetStatus: Option<string>, matchCount: Option<int>, sourceStatus: Option<string>,
                     documentKind: Option<string>, targetSnapshot: Option<Snapshot>, targetKind: Option<string>,
                     normalizedKey: Option<string>, occurrenceKey: Option<string>, documentKey: Option<string>,
                     detail: string)

  datatype Retained = Retained(status: Option<string>, sha256: Option<string>, receipt: Option<string>)

  datatype Route =
    | Govinfo(identifier: string, congress: nat, kind: string, number: nat)
    | Gao(identifier: string)
    | Unsupported(identifier: string, unprinted: bool)

  datatype Identity = Identity(kind: string, provider: Option<string>, identifier: string, snapshot: Snapshot)

  datatype Request = Request(occurrence: string, documentKind: string, documentKey: string, detail: string,
                             pin: Snapshot, sourceStatus: string)

  datatype ItemStatus = UnsupportedItem | RetainedItem | PlannedItem | NeedsRetainedLookup

  datatype Head = Head(kind: string, key: string, snapshot: Snapshot, route: Route, status: ItemStatus)

  datatype Reason = NotQualifiedMissing | SourceUnqualified | SnapshotUnavailable | IdentityIncomplete

  /** What becomes of one row: an exclusion, a request joining the group with this id, or a ValueError from a law number
      that int() refuses. */
  datatype Fate =
    | Excluded(reason: Reason)
    | Joins(id: string, identity: Identity, head: Head, request: Request)
    | Fails

  /** The inputs that are fixed for a run. `digest` stands for the hash of the JSON text of an identity, and `lower` for
      str.lower. */
  datatype Planner = Planner(pins: map<string, Snapshot>, retained: map<(string, string), Retained>,
                             lower: string -> string, digest: Identity -> string)

  // ----- law keys -----

  const PUBLIC := "-public-"
  const PRIVATE := "-private-"

  function DigitRun(s: string): (n: nat)
    ensures n <= |s| && AllDigits(s[..n]) && (n < |s| ==> !IsDigit(s[n]))
  {
    if s == "" || !IsDigit(s[0]) then 0 else 1 + DigitRun(s[1..])
  }

  /** What stands between the two numbers. */
  function Middle(kind: string): string {
    if kind == "public" then PUBLIC else PRIVATE
  }

  /** The kind and the text after it, if one of the two kinds stands here. */
  function KindHere(rest: string): Option<(string, string)> {
    if PUBLIC <= rest then Some(("public", rest[|PUBLIC|..]))
    else if PRIVATE <= rest then Some(("private", rest[|PRIVATE|..]))
    else None
  }

  datatype Law = NoLaw | LongLaw | Law(congress: nat, kind: string, number: nat)

  /** re.fullmatch of ([1-9][0-9]*)-(public|private)-([1-9][0-9]*), with int() of its two numbers. */
  function LawKey(key: string): Law {
    var n := DigitRun(key);
    match KindHere(key[n..])
    case None => NoLaw
    case Some((kind, number)) =>
      if !IsPlain(key[..n]) || !IsPlain(number) then NoLaw
      else if n > MAX_DIGITS || |number| > MAX_DIGITS then LongLaw
      else Law(Value(key[..n]), kind, Value(number))
  }

  function LawText(congress: nat, kind: string, number: nat): string {
    Show(congress) + (Middle(kind) + Show(number))
  }

  lemma {:induction false} DigitRunStops(digits: string, rest: string)
    requires AllDigits(digits) && (rest == "" || !IsDigit(rest[0]))
    ensures DigitRun(digits + rest) == |digits|
  {
    if digits == "" {
      assert digits + rest == rest;
    } else {
      DigitRunStops(digits[1..], rest);
      assert (digits + rest)[1..] == digits[1..] + rest;
    }
  }

  lemma KindFound(kind: string, number: string)
    requires kind == "public" || kind == "private"
    ensures KindHere(Middle(kind) + number) == Some((kind, number))
  {
    var rest := Middle(kind) + number;
    assert rest[|Middle(kind)|..] == number;
    if kind == "private" {
      assert rest[2] == PRIVATE[2] != PUBLIC[2];
    }
  }

  /** int() reads both numbers. */
  predicate ShortNumbers(congress: nat, number: nat) {
    |Show(congress)| <= MAX_DIGITS && |Show(number)| <= MAX_DIGITS
  }

  lemma LawPieces(congress: nat, kind: string, number: nat)
    requires congress > 0 && number > 0 && (kind == "public" || kind == "private")
    ensures LawKey(LawText(congress, kind, number))
         == if ShortNumbers(congress, number) then Law(congress, kind, number) else LongLaw
  {
    ShowReadsBack(congress);
    ShowReadsBack(number);
    var rest := Middle(kind) + Show(number);
    var key := LawText(congress, kind, number);
    assert !IsDigit(rest[0]);
    DigitRunStops(Show(congress), rest);
    assert key[..|Show(congress)|] == Show(congress) && key[|Show(congress)|..] == rest;
    KindFound(kind, Show(number));
  }

  lemma KindSpells(rest: string)
    requires KindHere(rest).Some?
    ensures var (kind, number) := KindHere(rest).value;
      (kind == "public" || kind == "private") && rest == Middle(kind) + number
  {
  }

  /** Some congress and number, both positive and without leading zeros, that the key spells. */
  lemma LawSpells(key: string) returns (congress: nat, kind: string, number: nat)
    requires !LawKey(key).NoLaw?
    ensures congress > 0 && number > 0 && (kind == "public" || kind == "private") && key == LawText(congress, kind, number)
  {
    var n := DigitRun(key);
    var digits := KindHere(key[n..]).value.1;
    KindSpells(key[n..]);
    PlainWritesBack(key[..n]);
    PlainWritesBack(digits);
    assert key == key[..n] + key[n..];
    congress, kind, number := Value(key[..n]), KindHere(key[n..]).value.0, Value(digits);
  }

  /** A key routes to the law service exactly when it spells a congress and a number, both positive, without leading zeros
      and of at most 4300 digits, and then the arguments spell the key back; with a longer number it fails the build. */
  lemma LawKeyRoundTrip(key: string)
    ensures var law := LawKey(key);
      law.Law? ==> law.congress > 0 && law.number > 0 && (law.kind == "public" || law.kind == "private")
                   && ShortNumbers(law.congress, law.number) && key == LawText(law.congress, law.kind, law.number)
    ensures LawKey(key).NoLaw? <==> forall congress, kind, number ::
      congress > 0 && number > 0 && (kind == "public" || kind == "private") ==> key != LawText(congress, kind, number)
    ensures LawKey(key).LongLaw? <==> exists congress, kind, number ::
      congress > 0 && number > 0 && (kind == "public" || kind == "private") && key == LawText(congress, kind, number)
      && !ShortNumbers(congress, number)
  {
    if !LawKey(key).NoLaw? {
      var congress, kind, number := LawSpells(key);
      LawPieces(congress, kind, number);
    }
    forall congress, kind, number | congress > 0 && number > 0 && (kind == "public" || kind == "private")
      && key == LawText(congress, kind, number)
      ensures LawKey(key) == if ShortNumbers(congress, number) then Law(congress, kind, number) else LongLaw
    {
      LawPieces(congress, kind, number);
    }
  }

  // ----- the fate of one row -----

  const UNPINNED := {"legacy_unversioned", "local_unversioned", "unavailable"}

  predicate Pinned(value: Option<Snapshot>) {
    value.Some? && |value.value| > 0 && ("status" in value.value ==> value.value["status"] !in UNPINNED)
  }

  predicate Filled(text: Option<string>) {
    text.Some? && text.value != ""
  }

  /** The route, unless a number of its key is too long. */
  predicate Routable(kind: string, key: string) {
    kind == "public_law" ==> !LawKey(key).LongLaw?
  }

  function RouteOf(p: Planner, kind: string, key: string): Route
    requires Routable(kind, key)
  {
    if kind == "public_law" && LawKey(key).Law? then
      var law := LawKey(key);
      Govinfo(key, law.congress, law.kind, law.number)
    else if kind == "gao_product_id" then Gao(p.lower(key))
    else Unsupported(key, kind == "usc_section")
  }

  function Provider(route: Route): Option<string> {
    match route
    case Govinfo(_, _, _, _) => Some("govinfo")
    case Gao(_) => Some("gao")
    case Unsupported(_, _) => None
  }

  /** What the caller knows of a target: a retained copy with its digest and receipt, a recorded absence, or neither. */
  datatype Inspection = Held | Absent | Uninspected

  function InspectionOf(p: Planner, kind: string, key: string): Inspection {
    var retained := if (kind, key) in p.retained then p.retained[(kind, key)] else Retained(None, None, None);
    if retained.status == Some("retained") && Filled(retained.sha256) && Filled(retained.receipt) then Held
    else if retained.status == Some("absent") then Absent
    else Uninspected
  }

  function StatusOf(p: Planner, kind: string, key: string, route: Route): ItemStatus {
    if route.Unsupported? then UnsupportedItem
    else
      match InspectionOf(p, kind, key)
      case Held => RetainedItem
      case Absent => PlannedItem
      case Uninspected => NeedsRetainedLookup
  }

  function PinOf(p: Planner, row: Row): Option<Snapshot> {
    if row.documentKind.Some? && row.documentKind.value in p.pins then Some(p.pins[row.documentKind.value]) else None
  }

  function FateOf(p: Planner, row: Row): Fate {
    if row.targetStatus != Some("missing") || row.matchCount != Some(0) then Excluded(NotQualifiedMissing)
    else if row.sourceStatus != Some("current_text") && row.sourceStatus != Some("native_field") then
      Excluded(SourceUnqualified)
    else if !Pinned(PinOf(p, row)) || !Pinned(row.targetSnapshot) then Excluded(SnapshotUnavailable)
    else if !Filled(row.targetKind) || !Filled(row.normalizedKey) || !Filled(row.occurrenceKey)
         || !Filled(row.documentKey) then Excluded(IdentityIncomplete)
    else if !Routable(row.targetKind.value, row.normalizedKey.value) then Fails
    else
      var kind, key, snapshot := row.targetKind.value, row.normalizedKey.value, row.targetSnapshot.value;
      var route := RouteOf(p, kind, key);
      var identity := Identity(kind, Provider(route), route.identifier, snapshot);
      Joins(p.digest(identity), identity, Head(kind, key, snapshot, route, StatusOf(p, kind, key, route)),
            Request(row.occurrenceKey.value, row.documentKind.value, row.documentKey.value, row.detail,
                    PinOf(p, row).value, row.sourceStatus.value))
  }

  // ----- what the fate says of the row's own fields -----

  predicate TargetMissing(row: Row) {
    row.targetStatus == Some("missing") && row.matchCount == Some(0)
  }

  predicate SourceRead(row: Row) {
    row.sourceStatus == Some("current_text") || row.sourceStatus == Some("native_field")
  }

  /** A pin with fields, whose status, if it gives one, is not among the three that name no version. */
  predicate NamesVersion(value: Option<Snapshot>) {
    && value.Some? && value.value != map[]
    && ("status" !in value.value
        || !(value.value["status"] == "legacy_unversioned" || value.value["status"] == "local_unversioned"
             || value.value["status"] == "unavailable"))
  }

  predicate BothPinned(p: Planner, row: Row) {
    && row.documentKind.Some? && row.documentKind.value in p.pins && NamesVersion(Some(p.pins[row.documentKind.value]))
    && NamesVersion(row.targetSnapshot)
  }

  predicate Identifies(row: Row) {
    && HasText(row.targetKind) && HasText(row.normalizedKey) && HasText(row.occurrenceKey) && HasText(row.documentKey)
  }

  predicate HasText(text: Option<string>) {
    text.Some? && |text.value| > 0
  }

  /** The first of the four tests that the row fails is this one. */
  predicate FailsFirst(p: Planner, row: Row, reason: Reason) {
    match reason
    case NotQualifiedMissing => !TargetMissing(row)
    case SourceUnqualified => TargetMissing(row) && !SourceRead(row)
    case SnapshotUnavailable => TargetMissing(row) && SourceRead(row) && !BothPinned(p, row)
    case IdentityIncomplete => TargetMissing(row) && SourceRead(row) && BothPinned(p, row) && !Identifies(row)
  }

  predicate PassesAll(p: Planner, row: Row) {
    TargetMissing(row) && SourceRead(row) && BothPinned(p, row) && Identifies(row)
  }

  ghost predicate SpellsLaw(key: string) {
    exists congress, kind, number ::
      congress > 0 && number > 0 && (kind == "public" || kind == "private") && key == LawText(congress, kind, number)
  }

  /** The target a row names: its kind and pin, and the identifier in the provider's own spelling. */
  ghost predicate Names(p: Planner, row: Row, target: Identity) {
    && row.targetKind == Some(target.kind) && row.targetSnapshot == Some(target.snapshot) && row.normalizedKey.Some?
    && var key := row.normalizedKey.value;
      if target.kind == "gao_product_id" then target.provider == Some("gao") && target.identifier == p.lower(key)
      else target.identifier == key
           && target.provider == if target.kind == "public_law" && SpellsLaw(key) then Some("govinfo") else None
  }

  /** The request a row makes. */
  predicate Asks(p: Planner, row: Row, r: Request) {
    && row.occurrenceKey == Some(r.occurrence) && row.documentKind == Some(r.documentKind)
    && row.documentKey == Some(r.documentKey) && row.detail == r.detail && row.sourceStatus == Some(r.sourceStatus)
    && r.documentKind in p.pins && r.pin == p.pins[r.documentKind]
  }

  lemma PinnedMeaning(value: Option<Snapshot>)
    ensures Pinned(value) <==> NamesVersion(value)
  {
    if value.Some? && |value.value| == 0 {
      assert value.value == map[];
    }
  }

  /** Each exclusion is the row's first failing test; a row that passes all joins a group, unless its law number is one
      that int() refuses. */
  lemma FateMeaning(p: Planner, row: Row, reason: Reason)
    ensures FateOf(p, row) == Excluded(reason) <==> FailsFirst(p, row, reason)
    ensures FateOf(p, row).Joins? <==> PassesAll(p, row) && !NamesALongLaw(row)
    ensures FateOf(p, row).Fails? <==> PassesAll(p, row) && NamesALongLaw(row)
  {
    PinnedMeaning(PinOf(p, row));
    PinnedMeaning(row.targetSnapshot);
  }

  lemma JoiningMeaning(p: Planner, row: Row)
    requires FateOf(p, row).Joins?
    ensures var fate := FateOf(p, row);
      Names(p, row, fate.identity) && Asks(p, row, fate.request) && fate.id == p.digest(fate.identity)
      && fate.head.kind == fate.identity.kind && row.normalizedKey == Some(fate.head.key)
      && fate.head.snapshot == fate.identity.snapshot
  {
    LawKeyRoundTrip(row.normalizedKey.value);
  }

  /** What Names says determines the target, and what Asks says the request. */
  lemma OneTargetOneRequest(p: Planner, row: Row, a: Identity, b: Identity, q: Request, r: Request)
    requires Names(p, row, a) && Names(p, row, b) && Asks(p, row, q) && Asks(p, row, r)
    ensures a == b && q == r
  {
  }

  /** The numbers of the rows whose first failing test is this one. */
  ghost function RowsFailing(p: Planner, rows: seq<Row>, reason: Reason): set<nat> {
    set i: nat | i < |rows| && FailsFirst(p, rows[i], reason)
  }

  lemma RowsFailingSnoc(p: Planner, front: seq<Row>, last: Row, reason: Reason)
    ensures |RowsFailing(p, front + [last], reason)|
         == |RowsFailing(p, front, reason)| + if FailsFirst(p, last, reason) then 1 else 0
  {
    var before, after := RowsFailing(p, front, reason), RowsFailing(p, front + [last], reason);
    forall i: nat
      ensures i in after <==> i in before || (i == |front| && FailsFirst(p, last, reason))
    {
      if i < |front| {
        assert (front + [last])[i] == front[i];
      }
    }
    OneMorePosition(before, after, |front|, FailsFirst(p, last, reason));
  }

  /** An exclusion count is the number of rows that fail that test first. */
  lemma {:induction false} CountMeaning(p: Planner, rows: seq<Row>, reason: Reason)
    ensures Count(p, rows, reason) == |RowsFailing(p, rows, reason)|
  {
    if rows == [] {
      assert RowsFailing(p, rows, reason) == {};
    } else {
      var front, last := rows[..|rows| - 1], rows[|rows| - 1];
      CountMeaning(p, front, reason);
      FateMeaning(p, last, reason);
      RowsFailingSnoc(p, front, last, reason);
      assert rows == front + [last];
    }
  }

  /** A row that passes every test and whose law key, if any, int() reads. */
  predicate Qualifies(p: Planner, row: Row) {
    PassesAll(p, row) && !NamesALongLaw(row)
  }

  /** Some row of the input qualifies, names this target and makes this request. */
  ghost predicate Requested(p: Planner, rows: seq<Row>, target: Identity, r: Request) {
    exists row :: row in rows && Qualifies(p, row) && Names(p, row, target) && Asks(p, row, r)
  }

  lemma MembersMeaning(p: Planner, rows: seq<Row>, target: Identity)
    requires forall x, y :: p.digest(x) == p.digest(y) ==> x == y
    ensures forall r :: r in Members(p, rows, p.digest(target)) <==> Requested(p, rows, target, r)
  {
    forall r
      ensures r in Members(p, rows, p.digest(target)) <==> Requested(p, rows, target, r)
    {
      if r in Members(p, rows, p.digest(target)) {
        MemberIsRequested(p, rows, target, r);
      }
      if Requested(p, rows, target, r) {
        RequestedIsMember(p, rows, target, r);
      }
    }
  }

  lemma MemberIsRequested(p: Planner, rows: seq<Row>, target: Identity, r: Request)
    requires forall x, y :: p.digest(x) == p.digest(y) ==> x == y
    requires r in Members(p, rows, p.digest(target))
    ensures Requested(p, rows, target, r)
  {
    var row :| row in rows && FateOf(p, row).Joins? && FateOf(p, row).id == p.digest(target) && FateOf(p, row).request == r;
    FateMeaning(p, row, NotQualifiedMissing);
    JoiningMeaning(p, row);
    assert FateOf(p, row).identity == target;
  }

  lemma RequestedIsMember(p: Planner, rows: seq<Row>, target: Identity, r: Request)
    requires Requested(p, rows, target, r)
    ensures r in Members(p, rows, p.digest(target))
  {
    var row :| row in rows && Qualifies(p, row) && Names(p, row, target) && Asks(p, row, r);
    FateMeaning(p, row, NotQualifiedMissing);
    JoiningMeaning(p, row);
    OneTargetOneRequest(p, row, target, FateOf(p, row).identity, r, FateOf(p, row).request);
  }

  // ----- the groups of a whole input -----

  function Ids(p: Planner, rows: seq<Row>): seq<string> {
    if rows == [] then []
    else
      var front, fate := Ids(p, rows[..|rows| - 1]), FateOf(p, rows[|rows| - 1]);
      if fate.Joins? then front + [fate.id] else front
  }

  function Requests(p: Planner, rows: seq<Row>, id: string): seq<Request> {
    if rows == [] then []
    else
      var front, fate := Requests(p, rows[..|rows| - 1], id), FateOf(p, rows[|rows| - 1]);
      if fate.Joins? && fate.id == id then front + [fate.request] else front
  }

  function Count(p: Planner, rows: seq<Row>, reason: Reason): nat {
    if rows == [] then 0
    else Count(p, rows[..|rows| - 1], reason) + (if FateOf(p, rows[|rows| - 1]) == Excluded(reason) then 1 else 0)
  }

  /** The head of the first row that joined the group. */
  function FirstHead(p: Planner, rows: seq<Row>, id: string): Option<Head> {
    if rows == [] then None
    else
      var front, fate := FirstHead(p, rows[..|rows| - 1], id), FateOf(p, rows[|rows| - 1]);
      if front.None? && fate.Joins? && fate.id == id then Some(fate.head) else front
  }

  function Occurrences(requests: seq<Request>): nat {
    |set r | r in requests :: r.occurrence|
  }

  function Records(requests: seq<Request>): nat {
    |set r | r in requests :: (r.documentKind, r.documentKey)|
  }

  // ----- ranking -----

  datatype Rank = Rank(occurrences: nat, records: nat, id: string)

  /** sorted by (-occurrences, -records, id). */
  predicate Before(a: Rank, b: Rank) {
    if a.occurrences != b.occurrences then a.occurrences > b.occurrences
    else if a.records != b.records then a.records > b.records
    else TextLeq(a.id, b.id)
  }

  lemma RankOrder()
    ensures TotalOrder(Before)
  {
    TextOrder();
  }

  function RankOf(p: Planner, rows: seq<Row>, id: string): Rank {
    var requests := Dedup(Requests(p, rows, id));
    Rank(Occurrences(requests), Records(requests), id)
  }

  function Unranked(p: Planner, rows: seq<Row>): (r: seq<Rank>)
    ensures |r| == |Dedup(Ids(p, rows))|
    ensures forall i :: 0 <= i < |r| ==> r[i] == RankOf(p, rows, Dedup(Ids(p, rows))[i])
  {
    var ids := Dedup(Ids(p, rows));
    seq(|ids|, i requires 0 <= i < |ids| => RankOf(p, rows, ids[i]))
  }

  function Ranked(p: Planner, rows: seq<Row>): seq<Rank> {
    Sort(Unranked(p, rows), Before)
  }

  // ----- order independence -----

  /** The requests of a group as a set, said without any order of the rows. */
  ghost function Members(p: Planner, rows: seq<Row>, id: string): set<Request> {
    set row | row in rows && FateOf(p, row).Joins? && FateOf(p, row).id == id :: FateOf(p, row).request
  }

  lemma {:induction false} RequestsAreMembers(p: Planner, rows: seq<Row>, id: string)
    ensures forall r :: r in Requests(p, rows, id) <==> r in Members(p, rows, id)
  {
    if rows != [] {
      var front, last := rows[..|rows| - 1], rows[|rows| - 1];
      RequestsAreMembers(p, front, id);
      assert rows == front + [last];
      forall r
        ensures r in Members(p, rows, id) <==>
          r in Members(p, front, id) || (FateOf(p, last).Joins? && FateOf(p, last).id == id && r == FateOf(p, last).request)
      {
      }
    }
  }

  lemma {:induction false} IdsAreThose(p: Planner, rows: seq<Row>)
    ensures forall id :: id in Ids(p, rows) <==> exists row :: row in rows && FateOf(p, row).Joins? && FateOf(p, row).id == id
  {
    if rows != [] {
      var front, last := rows[..|rows| - 1], rows[|rows| - 1];
      IdsAreThose(p, front);
      assert rows == front + [last];
    }
  }

  lemma RankOfMembers(p: Planner, rows: seq<Row>, id: string)
    ensures RankOf(p, rows, id) == Rank(|set r | r in Members(p, rows, id) :: r.occurrence|,
                                        |set r | r in Members(p, rows, id) :: (r.documentKind, r.documentKey)|, id)
  {
    var requests := Dedup(Requests(p, rows, id));
    DedupProperties(Requests(p, rows, id));
    RequestsAreMembers(p, rows, id);
    assert forall r :: r in requests <==> r in Members(p, rows, id);
    assert (set r | r in requests :: r.occurrence) == (set r | r in Members(p, rows, id) :: r.occurrence);
    assert (set r | r in requests :: (r.documentKind, r.documentKey))
        == (set r | r in Members(p, rows, id) :: (r.documentKind, r.documentKey));
  }

  lemma SameRowsSameRank(p: Planner, rows: seq<Row>, others: seq<Row>, id: string)
    requires forall row :: row in rows <==> row in others
    ensures RankOf(p, rows, id) == RankOf(p, others, id)
  {
    RankOfMembers(p, rows, id);
    RankOfMembers(p, others, id);
    assert Members(p, rows, id) == Members(p, others, id);
  }

  lemma UnrankedDistinct(p: Planner, rows: seq<Row>)
    ensures Distinct(Unranked(p, rows))
    ensures forall r :: r in Unranked(p, rows) <==> r.id in Ids(p, rows) && r == RankOf(p, rows, r.id)
  {
    var ids, ranks := Dedup(Ids(p, rows)), Unranked(p, rows);
    DedupProperties(Ids(p, rows));
    forall i, j | 0 <= i < j < |ranks|
      ensures ranks[i] != ranks[j]
    {
      assert ranks[i].id == ids[i] && ranks[j].id == ids[j];
    }
    forall r: Rank | r.id in Ids(p, rows) && r == RankOf(p, rows, r.id)
      ensures r in ranks
    {
      assert r.id in ids;
      var i :| 0 <= i < |ids| && ids[i] == r.id;
      assert ranks[i] == r;
    }
    forall r | r in ranks
      ensures r.id in Ids(p, rows) && r == RankOf(p, rows, r.id)
    {
      var i :| 0 <= i < |ranks| && ranks[i] == r;
      assert ids[i] in ids;
    }
  }

  lemma RankedIsListing(p: Planner, rows: seq<Row>)
    ensures Sorted(Ranked(p, rows), Before) && Distinct(Ranked(p, rows))
    ensures forall r :: r in Ranked(p, rows) <==> r.id in Ids(p, rows) && r == RankOf(p, rows, r.id)
  {
    RankOrder();
    var before, after := Unranked(p, rows), Ranked(p, rows);
    SortSorts(before, Before);
    SortKeeps(before, Before);
    UnrankedDistinct(p, rows);
    forall r
      ensures multiset(after)[r] <= 1 && (r in after <==> r in before)
    {
      DistinctMultiplicity(before, r);
      assert r in multiset(after) <==> r in multiset(before);
    }
    MultiplicityDistinct(after);
  }

  /** The ranking depends only on which rows occur, not on their order or repetition. */
  lemma RankingIgnoresOrder(p: Planner, rows: seq<Row>, others: seq<Row>)
    requires forall row :: row in rows <==> row in others
    ensures Ranked(p, rows) == Ranked(p, others)
  {
    RankedIsListing(p, rows);
    RankedIsListing(p, others);
    IdsAreThose(p, rows);
    IdsAreThose(p, others);
    forall r
      ensures r in Ranked(p, rows) <==> r in Ranked(p, others)
    {
      SameRowsSameRank(p, rows, others, r.id);
    }
    RankOrder();
    SortedListingUnique(Ranked(p, rows), Ranked(p, others), Before);
  }

  lemma {:induction false} CountJoins(p: Planner, a: seq<Row>, b: seq<Row>, reason: Reason)
    ensures Count(p, a + b, reason) == Count(p, a, reason) + Count(p, b, reason)
  {
    if b == [] {
      assert a + b == a;
    } else {
      CountJoins(p, a, b[..|b| - 1], reason);
      assert (a + b)[..|a + b| - 1] == a + b[..|b| - 1];
    }
  }

  /** Rows with one occurrence of `row` taken out. */
  lemma TakeOut(rows: seq<Row>, row: Row) returns (x: seq<Row>, y: seq<Row>)
    requires row in multiset(rows)
    ensures rows == x + ([row] + y) && multiset(x + y) == multiset(rows) - multiset{row}
  {
    var i :| 0 <= i < |rows| && rows[i] == row;
    x, y := rows[..i], rows[i + 1..];
    assert rows == x + ([row] + y);
  }

  lemma {:induction false} CountOfMultiset(p: Planner, rows: seq<Row>, others: seq<Row>, reason: Reason)
    requires multiset(rows) == multiset(others)
    ensures Count(p, rows, reason) == Count(p, others, reason)
    decreases |rows|
  {
    if rows == [] {
      assert |multiset(others)| == 0;
    } else {
      var front, last := rows[..|rows| - 1], rows[|rows| - 1];
      assert rows == front + [last];
      var x, y := TakeOut(others, last);
      CountOfMultiset(p, front, x + y, reason);
      CountJoins(p, x, [last] + y, reason);
      CountJoins(p, [last], y, reason);
      CountJoins(p, x, y, reason);
      CountJoins(p, front, [last], reason);
    }
  }

  /** Permuting the occurrences changes neither the ranked ids, nor their affected counts, nor any exclusion count. */
  lemma OrderIndependent(p: Planner, rows: seq<Row>, others: seq<Row>)
    requires multiset(rows) == multiset(others)
    ensures Ranked(p, rows) == Ranked(p, others)
    ensures forall reason :: Count(p, rows, reason) == Count(p, others, reason)
  {
    forall row
      ensures row in rows <==> row in others
    {
      assert row in multiset(rows) <==> row in multiset(others);
    }
    RankingIgnoresOrder(p, rows, others);
    forall reason
      ensures Count(p, rows, reason) == Count(p, others, reason)
    {
      CountOfMultiset(p, rows, others, reason);
    }
  }

  // ----- every row once -----

  function SizeSum(p: Planner, rows: seq<Row>, ids: seq<string>): nat {
    if ids == [] then 0 else SizeSum(p, rows, ids[..|ids| - 1]) + |Requests(p, rows, ids[|ids| - 1])|
  }

  lemma {:induction false} SizeSumStep(p: Planner, front: seq<Row>, last: Row, ids: seq<string>)
    requires Distinct(ids)
    ensures SizeSum(p, front + [last], ids)
         == SizeSum(p, front, ids) + (if FateOf(p, last).Joins? && FateOf(p, last).id in ids then 1 else 0)
  {
    assert (front + [last])[..|front|] == front;
    if ids != [] {
      SizeSumStep(p, front, last, ids[..|ids| - 1]);
      assert ids == ids[..|ids| - 1] + [ids[|ids| - 1]];
    }
  }

  /** Rows that fail the whole build. */
  function Failing(p: Planner, rows: seq<Row>): nat {
    if rows == [] then 0
    else Failing(p, rows[..|rows| - 1]) + (if FateOf(p, rows[|rows| - 1]).Fails? then 1 else 0)
  }

  function Excluding(p: Planner, rows: seq<Row>): nat {
    Count(p, rows, NotQualifiedMissing) + Count(p, rows, SourceUnqualified) + Count(p, rows, SnapshotUnavailable)
    + Count(p, rows, IdentityIncomplete)
  }

  lemma {:induction false} EveryRowOnceOver(p: Planner, rows: seq<Row>, ids: seq<string>)
    requires Distinct(ids) && forall id :: id in Ids(p, rows) ==> id in ids
    ensures Excluding(p, rows) + SizeSum(p, rows, ids) + Failing(p, rows) == |rows|
  {
    if rows == [] {
      EmptySum(p, ids);
    } else {
      var front, last := rows[..|rows| - 1], rows[|rows| - 1];
      assert forall id :: id in Ids(p, front) ==> id in Ids(p, rows);
      EveryRowOnceOver(p, front, ids);
      SizeSumStep(p, front, last, ids);
      assert rows == front + [last];
      assert FateOf(p, last).Joins? ==> FateOf(p, last).id in Ids(p, rows);
    }
  }

  lemma {:induction false} EmptySum(p: Planner, ids: seq<string>)
    ensures SizeSum(p, [], ids) == 0
  {
    if ids != [] {
      EmptySum(p, ids[..|ids| - 1]);
    }
  }

  /** Each row is counted under exactly one reason, asks exactly one group, or fails the build: the tallies and the group
      sizes, before repeated requests are dropped, add up to the input whenever there is a queue. */
  lemma EveryRowOnce(p: Planner, rows: seq<Row>)
    ensures Excluding(p, rows) + SizeSum(p, rows, Dedup(Ids(p, rows))) + Failing(p, rows) == |rows|
    ensures Failing(p, rows) == 0 <==> Buildable(p, rows)
  {
    NoneFailing(p, rows);
    DedupProperties(Ids(p, rows));
    EveryRowOnceOver(p, rows, Dedup(Ids(p, rows)));
  }

  /** No row names a law by a number that int() refuses. */
  ghost predicate Buildable(p: Planner, rows: seq<Row>) {
    forall row :: row in rows ==> !FateOf(p, row).Fails?
  }

  lemma {:induction false} NoneFailing(p: Planner, rows: seq<Row>)
    ensures Failing(p, rows) == 0 <==> Buildable(p, rows)
  {
    if rows != [] {
      var front, last := rows[..|rows| - 1], rows[|rows| - 1];
      NoneFailing(p, front);
      assert rows == front + [last];
    }
  }

  /** When a row fails: it qualifies in every other way, and names a public law with a number of more than 4300 digits. */
  lemma FailsExactly(p: Planner, row: Row)
    ensures FateOf(p, row).Fails? ==> NamesALongLaw(row)
    ensures NamesALongLaw(row) ==> FateOf(p, row).Fails? || FateOf(p, row).Excluded?
    ensures NamesALongLaw(row) ==> forall key ::
      LawKey(key).Law? ==> (FateOf(p, row).Fails? <==> FateOf(p, row.(normalizedKey := Some(key))).Joins?)
  {
  }

  predicate NamesALongLaw(row: Row) {
    row.targetKind == Some("public_law") && row.normalizedKey.Some? && LawKey(row.normalizedKey.value).LongLaw?
  }

  // ----- what a group has in common -----

  /** With a collision-free digest, rows share a group exactly when they share the identity. Outside GAO products that
      fixes the whole head, so the status and the key do not depend on which row came first. */
  lemma GroupIsOneTarget(p: Planner, a: Row, b: Row)
    requires forall x, y :: p.digest(x) == p.digest(y) ==> x == y
    requires FateOf(p, a).Joins? && FateOf(p, b).Joins?
    ensures FateOf(p, a).id == FateOf(p, b).id <==> FateOf(p, a).identity == FateOf(p, b).identity
    ensures FateOf(p, a).id == FateOf(p, b).id && a.targetKind != Some("gao_product_id") ==>
      FateOf(p, a).head == FateOf(p, b).head
    ensures FateOf(p, a).id == FateOf(p, b).id && a.targetKind == Some("gao_product_id") ==>
      p.lower(a.normalizedKey.value) == p.lower(b.normalizedKey.value)
      && a.targetSnapshot == b.targetSnapshot && b.targetKind == Some("gao_product_id")
  {
    assert p.digest(FateOf(p, a).identity) == FateOf(p, a).id;
    assert p.digest(FateOf(p, b).identity) == FateOf(p, b).id;
  }

  // ----- when a group's status depends on the order -----

  predicate InGroup(p: Planner, row: Row, id: string) {
    FateOf(p, row).Joins? && FateOf(p, row).id == id
  }

  /** The status a group is created with. */
  function StatusIn(p: Planner, rows: seq<Row>, id: string): Option<ItemStatus> {
    match FirstHead(p, rows, id)
    case None => None
    case Some(head) => Some(head.status)
  }

  ghost predicate StatusIgnoresOrder(p: Planner, rows: seq<Row>, id: string) {
    forall others :: multiset(others) == multiset(rows) ==> StatusIn(p, others, id) == StatusIn(p, rows, id)
  }

  lemma {:induction false} FirstHeadJoins(p: Planner, a: seq<Row>, b: seq<Row>, id: string)
    ensures FirstHead(p, a + b, id) == if FirstHead(p, a, id).Some? then FirstHead(p, a, id) else FirstHead(p, b, id)
  {
    if b == [] {
      assert a + b == a;
    } else {
      FirstHeadJoins(p, a, b[..|b| - 1], id);
      assert (a + b)[..|a + b| - 1] == a + b[..|b| - 1];
    }
  }

  lemma {:induction false} FirstHeadIsOfARow(p: Planner, rows: seq<Row>, id: string)
    ensures FirstHead(p, rows, id).Some? <==> exists row :: row in rows && InGroup(p, row, id)
    ensures FirstHead(p, rows, id).Some? ==>
      exists row :: row in rows && InGroup(p, row, id) && FateOf(p, row).head == FirstHead(p, rows, id).value
  {
    if rows != [] {
      var front, last := rows[..|rows| - 1], rows[|rows| - 1];
      FirstHeadIsOfARow(p, front, id);
      assert forall row :: row in rows <==> row in front || row == last;
      if InGroup(p, last, id) {
        assert last in rows;
      } else if FirstHead(p, front, id).Some? {
        var row :| row in front && InGroup(p, row, id) && FateOf(p, row).head == FirstHead(p, front, id).value;
        assert row in rows;
      }
    }
  }

  /** Any row of a group can be moved to the front, and then it gives the group its head. */
  lemma FrontRowLeads(p: Planner, rows: seq<Row>, row: Row) returns (others: seq<Row>)
    requires row in rows && FateOf(p, row).Joins?
    ensures multiset(others) == multiset(rows)
    ensures FirstHead(p, others, FateOf(p, row).id) == Some(FateOf(p, row).head)
  {
    var x, y := TakeOut(rows, row);
    others := [row] + (x + y);
    assert multiset(others) == multiset{row} + multiset(x + y);
    assert [row][..0] == [] && FirstHead(p, [row], FateOf(p, row).id) == Some(FateOf(p, row).head);
    FirstHeadJoins(p, [row], x + y, FateOf(p, row).id);
  }

  /** Every row of the group would give it the same status. */
  ghost predicate ClassifyAlike(p: Planner, rows: seq<Row>, id: string) {
    forall a, b :: a in rows && b in rows && InGroup(p, a, id) && InGroup(p, b, id) ==>
      FateOf(p, a).head.status == FateOf(p, b).head.status
  }

  /** Every spelling of the group's target that occurs was inspected with the same outcome. */
  ghost predicate InspectedAlike(p: Planner, rows: seq<Row>, id: string) {
    forall a, b :: a in rows && b in rows && InGroup(p, a, id) && InGroup(p, b, id) ==>
      InspectionOf(p, a.targetKind.value, a.normalizedKey.value) == InspectionOf(p, b.targetKind.value, b.normalizedKey.value)
  }

  /** A group's status is the same in every order of the rows if and only if all its rows classify alike. */
  lemma StatusIgnoresOrderIff(p: Planner, rows: seq<Row>, id: string)
    ensures StatusIgnoresOrder(p, rows, id) <==> ClassifyAlike(p, rows, id)
  {
    if StatusIgnoresOrder(p, rows, id) {
      forall a, b | a in rows && b in rows && InGroup(p, a, id) && InGroup(p, b, id)
        ensures FateOf(p, a).head.status == FateOf(p, b).head.status
      {
        var first := FrontRowLeads(p, rows, a);
        var second := FrontRowLeads(p, rows, b);
        assert StatusIn(p, first, id) == StatusIn(p, rows, id) == StatusIn(p, second, id);
      }
    } else {
      var others :| multiset(others) == multiset(rows) && StatusIn(p, others, id) != StatusIn(p, rows, id);
      TwoStatuses(p, rows, others, id);
    }
  }

  lemma TwoStatuses(p: Planner, rows: seq<Row>, others: seq<Row>, id: string)
    requires multiset(others) == multiset(rows) && StatusIn(p, others, id) != StatusIn(p, rows, id)
    ensures !ClassifyAlike(p, rows, id)
  {
    forall row
      ensures row in rows <==> row in others
    {
      assert row in multiset(rows) <==> row in multiset(others);
    }
    FirstHeadIsOfARow(p, rows, id);
    FirstHeadIsOfARow(p, others, id);
    var a :| a in rows && InGroup(p, a, id) && FateOf(p, a).head == FirstHead(p, rows, id).value;
    var b :| b in others && InGroup(p, b, id) && FateOf(p, b).head == FirstHead(p, others, id).value;
    assert a in rows && b in rows;
  }

  /** What a planner can check beforehand: with a collision-free digest, a group's status is the same in every order if
      and only if all the spellings of its target that occur were inspected alike. Only a GAO group can have two. */
  lemma StatusIgnoresOrderIffInspectedAlike(p: Planner, rows: seq<Row>, id: string)
    requires forall x, y :: p.digest(x) == p.digest(y) ==> x == y
    ensures StatusIgnoresOrder(p, rows, id) <==> InspectedAlike(p, rows, id)
  {
    StatusIgnoresOrderIff(p, rows, id);
    forall a, b | a in rows && b in rows && InGroup(p, a, id) && InGroup(p, b, id)
      ensures SameStatus(p, a, b)
    {
      GroupIsOneTarget(p, a, b);
      SameTargetSameStatus(p, a, b);
    }
  }

  /** Two rows get the same status exactly when their keys were inspected alike. */
  ghost predicate SameStatus(p: Planner, a: Row, b: Row)
    requires FateOf(p, a).Joins? && FateOf(p, b).Joins?
  {
    FateOf(p, a).head.status == FateOf(p, b).head.status <==>
    InspectionOf(p, a.targetKind.value, a.normalizedKey.value) == InspectionOf(p, b.targetKind.value, b.normalizedKey.value)
  }

  lemma SameTargetSameStatus(p: Planner, a: Row, b: Row)
    requires FateOf(p, a).Joins? && FateOf(p, b).Joins? && FateOf(p, a).identity == FateOf(p, b).identity
    ensures SameStatus(p, a, b)
  {
  }

  /** Two spellings of one GAO product, of which only one was inspected and found absent: their rows share a group, and
      the group's status is that of whichever row came first, while the ranking is the same either way. */
  lemma GaoStatusFollowsTheFirstRow(p: Planner, a: Row, b: Row)
    requires a.targetKind == Some("gao_product_id") && a.normalizedKey == Some("GAO-26-1") && FateOf(p, a).Joins?
    requires b == a.(normalizedKey := Some("gao-26-1"))
    requires p.lower("GAO-26-1") == "gao-26-1" && p.lower("gao-26-1") == "gao-26-1"
    requires p.retained == map[("gao_product_id", "GAO-26-1") := Retained(Some("absent"), None, None)]
    ensures FateOf(p, b).Joins? && FateOf(p, a).id == FateOf(p, b).id
    ensures var id := FateOf(p, a).id;
      && FirstHead(p, [a, b], id).Some? && FirstHead(p, [a, b], id).value.status == PlannedItem
      && FirstHead(p, [b, a], id).Some? && FirstHead(p, [b, a], id).value.status == NeedsRetainedLookup
    ensures Ranked(p, [a, b]) == Ranked(p, [b, a])
  {
    var id := FateOf(p, a).id;
    assert "GAO-26-1"[0] != "gao-26-1"[0];
    assert [a, b][..1] == [a] && [b, a][..1] == [b];
    assert [a][..0] == [] && [b][..0] == [];
    assert FirstHead(p, [a], id) == Some(FateOf(p, a).head);
    assert FirstHead(p, [b], id) == Some(FateOf(p, b).head);
    assert multiset([a, b]) == multiset([b, a]);
    OrderIndependent(p, [a, b], [b, a]);
  }

  // ----- the loop that builds the queue -----

  datatype Group = Group(head: Head, requests: seq<Request>)

  datatype Item = Item(head: Head, requests: seq<Request>, rank: Rank)

  datatype Queue = Queue(items: seq<Item>, inputOccurrences: nat, excluded: map<Reason, nat>, groups: nat, returned: nat,
                         partial: bool)

  /** `ids` lists the groups in insertion order; each holds its first head and its requests without repeats. */
  ghost predicate Grouped(p: Planner, rows: seq<Row>, ids: seq<string>, groups: map<string, Group>) {
    && ids == Dedup(Ids(p, rows))
    && (forall id :: id in groups <==> id in ids)
    && (forall id :: id in groups ==>
          FirstHead(p, rows, id) == Some(groups[id].head) && groups[id].requests == Dedup(Requests(p, rows, id)))
  }

  /** A Counter holds just the reasons that occurred. */
  ghost predicate Tallied(p: Planner, rows: seq<Row>, excluded: map<Reason, nat>) {
    forall reason :: Count(p, rows, reason) == if reason in excluded then excluded[reason] else 0
  }

  /** What a reader of the queue relies on. */
  ghost predicate Answers(p: Planner, rows: seq<Row>, maxItems: int, q: Queue) {
    && q.inputOccurrences == |rows| && q.groups == |Ranked(p, rows)|
    && q.returned == |q.items| == Min(maxItems, |Ranked(p, rows)|)
    && (forall i :: 0 <= i < |q.items| ==> ItemFits(p, rows, q.items[i], Ranked(p, rows)[i]))
    && Tallied(p, rows, q.excluded)
  }

  ghost predicate ItemFits(p: Planner, rows: seq<Row>, item: Item, rank: Rank) {
    && item.rank == rank && FirstHead(p, rows, rank.id) == Some(item.head)
    && item.requests == Dedup(Requests(p, rows, rank.id))
  }

  lemma NewIdIsUnseen(p: Planner, rows: seq<Row>, id: string)
    requires id !in Ids(p, rows)
    ensures Requests(p, rows, id) == [] && FirstHead(p, rows, id).None?
  {
    if rows != [] {
      var front := rows[..|rows| - 1];
      assert forall x :: x in Ids(p, front) ==> x in Ids(p, rows);
      NewIdIsUnseen(p, front, id);
      assert FateOf(p, rows[|rows| - 1]).Joins? ==> FateOf(p, rows[|rows| - 1]).id in Ids(p, rows);
    }
  }

  function Insertion(ids: seq<string>, groups: map<string, Group>, fate: Fate): (seq<string>, map<string, Group>) {
    if !fate.Joins? then (ids, groups)
    else if fate.id !in groups then (ids + [fate.id], groups[fate.id := Group(fate.head, [fate.request])])
    else if fate.request in groups[fate.id].requests then (ids, groups)
    else (ids, groups[fate.id := Group(groups[fate.id].head, groups[fate.id].requests + [fate.request])])
  }

  lemma OtherGroupsUntouched(p: Planner, rows: seq<Row>, row: Row, id: string)
    requires !FateOf(p, row).Joins? || FateOf(p, row).id != id
    ensures Requests(p, rows + [row], id) == Requests(p, rows, id)
    ensures FirstHead(p, rows + [row], id) == FirstHead(p, rows, id)
  {
    assert (rows + [row])[..|rows|] == rows;
  }

  lemma GroupGains(p: Planner, rows: seq<Row>, row: Row)
    requires FateOf(p, row).Joins?
    ensures var fate := FateOf(p, row);
      var before := Dedup(Requests(p, rows, fate.id));
      && Dedup(Requests(p, rows + [row], fate.id)) == (if fate.request in before then before else before + [fate.request])
      && FirstHead(p, rows + [row], fate.id)
         == (if FirstHead(p, rows, fate.id).None? then Some(fate.head) else FirstHead(p, rows, fate.id))
  {
    assert (rows + [row])[..|rows|] == rows;
    DedupSnoc(Requests(p, rows, FateOf(p, row).id), FateOf(p, row).request);
    DedupMember(Requests(p, rows, FateOf(p, row).id), FateOf(p, row).request);
  }

  lemma IdsGain(p: Planner, rows: seq<Row>, row: Row)
    ensures var fate, before := FateOf(p, row), Dedup(Ids(p, rows));
      Dedup(Ids(p, rows + [row])) == if !fate.Joins? || fate.id in before then before else before + [fate.id]
  {
    assert (rows + [row])[..|rows|] == rows;
    if FateOf(p, row).Joins? {
      DedupSnoc(Ids(p, rows), FateOf(p, row).id);
      DedupMember(Ids(p, rows), FateOf(p, row).id);
    }
  }

  lemma InsertionGroups(p: Planner, rows: seq<Row>, row: Row, ids: seq<string>, groups: map<string, Group>)
    requires Grouped(p, rows, ids, groups)
    ensures var (ids', groups') := Insertion(ids, groups, FateOf(p, row));
      Grouped(p, rows + [row], ids', groups')
  {
    var fate := FateOf(p, row);
    var (ids', groups') := Insertion(ids, groups, fate);
    IdsGain(p, rows, row);
    if fate.Joins? {
      GroupGains(p, rows, row);
      if fate.id !in groups {
        DedupMember(Ids(p, rows), fate.id);
        NewIdIsUnseen(p, rows, fate.id);
      }
    }
    forall id | id in groups' && (!fate.Joins? || fate.id != id)
      ensures FirstHead(p, rows + [row], id) == Some(groups'[id].head)
      ensures groups'[id].requests == Dedup(Requests(p, rows + [row], id))
    {
      OtherGroupsUntouched(p, rows, row, id);
    }
  }

  lemma BuildableSnoc(p: Planner, rows: seq<Row>, i: nat)
    requires i < |rows| && Buildable(p, rows[..i])
    ensures Buildable(p, rows[..i + 1]) <==> !FateOf(p, rows[i]).Fails?
    ensures FateOf(p, rows[i]).Fails? ==> !Buildable(p, rows)
  {
    assert rows[..i + 1] == rows[..i] + [rows[i]];
    assert rows[i] in rows;
  }

  /** The loop over the rows; None for a ValueError from a law number. */
  method GroupRows(p: Planner, rows: seq<Row>) returns (r: Option<(seq<string>, map<string, Group>, map<Reason, nat>)>)
    ensures r.Some? <==> Buildable(p, rows)
    ensures r.Some? ==> Grouped(p, rows, r.value.0, r.value.1) && Tallied(p, rows, r.value.2)
  {
    var ids: seq<string>, groups: map<string, Group>, excluded: map<Reason, nat> := [], map[], map[];
    var i := 0;
    while i < |rows|
      invariant 0 <= i <= |rows|
      invariant Grouped(p, rows[..i], ids, groups)
      invariant Tallied(p, rows[..i], excluded)
      invariant Buildable(p, rows[..i])
    {
      assert rows[..i + 1] == rows[..i] + [rows[i]];
      InsertionGroups(p, rows[..i], rows[i], ids, groups);
      TallyOneMore(p, rows[..i], rows[i], excluded);
      BuildableSnoc(p, rows, i);
      var fate := FateOf(p, rows[i]);
      match fate {
        case Excluded(reason) =>
          excluded := excluded[reason := (if reason in excluded then excluded[reason] else 0) + 1];
        case Joins(id, _, head, request) =>
          if id !in groups {
            ids, groups := ids + [id], groups[id := Group(head, [])];
          }
          if request !in groups[id].requests {
            groups := groups[id := Group(groups[id].head, groups[id].requests + [request])];
          }
        case Fails =>
          return None;
      }
      i := i + 1;
    }
    assert rows[..i] == rows;
    r := Some((ids, groups, excluded));
  }

  /** The whole build; a ValueError unless 1 <= maxItems <= 1000 and no row fails. */
  method BuildQueue(p: Planner, rows: seq<Row>, inputPartial: bool, maxItems: int) returns (r: Option<Queue>)
    ensures r.Some? <==> 1 <= maxItems <= 1000 && Buildable(p, rows)
    ensures r.Some? ==> Answers(p, rows, maxItems, r.value)
    ensures r.Some? ==> (r.value.partial <==> inputPartial || |Ranked(p, rows)| > maxItems)
  {
    if maxItems < 1 || maxItems > 1000 {
      return None;
    }
    var grouped := GroupRows(p, rows);
    if grouped.None? {
      return None;
    }
    var (ids, groups, excluded) := grouped.value;
    var items := RankItems(p, rows, ids, groups);
    r := Some(Queue(items[..Min(maxItems, |items|)], |rows|, excluded, |items|, Min(maxItems, |items|),
                    |items| > maxItems || inputPartial));
  }

  lemma TallyOneMore(p: Planner, rows: seq<Row>, row: Row, excluded: map<Reason, nat>)
    requires Tallied(p, rows, excluded)
    ensures !FateOf(p, row).Excluded? ==> Tallied(p, rows + [row], excluded)
    ensures FateOf(p, row).Excluded? ==>
      var reason := FateOf(p, row).reason;
      Tallied(p, rows + [row], excluded[reason := (if reason in excluded then excluded[reason] else 0) + 1])
  {
    assert (rows + [row])[..|rows|] == rows;
  }

  /** The affected counts of every group, in insertion order. */
  method CountAffected(p: Planner, rows: seq<Row>, ids: seq<string>, groups: map<string, Group>) returns (ranks: seq<Rank>)
    requires Grouped(p, rows, ids, groups)
    ensures ranks == Unranked(p, rows)
  {
    ranks := [];
    var i := 0;
    while i < |ids|
      invariant 0 <= i <= |ids| && |ranks| == i
      invariant forall j :: 0 <= j < i ==> ranks[j] == RankOf(p, rows, ids[j])
    {
      var requests := groups[ids[i]].requests;
      ranks := ranks + [Rank(Occurrences(requests), Records(requests), ids[i])];
      i := i + 1;
    }
  }

  /** The groups in this order. */
  method Arrange(sorted: seq<Rank>, groups: map<string, Group>) returns (items: seq<Item>)
    requires forall i :: 0 <= i < |sorted| ==> sorted[i].id in groups
    ensures |items| == |sorted|
    ensures forall i :: 0 <= i < |items| ==>
      items[i] == Item(groups[sorted[i].id].head, groups[sorted[i].id].requests, sorted[i])
  {
    items := [];
    while |items| < |sorted|
      invariant |items| <= |sorted|
      invariant forall i :: 0 <= i < |items| ==>
        items[i] == Item(groups[sorted[i].id].head, groups[sorted[i].id].requests, sorted[i])
    {
      var rank := sorted[|items|];
      items := items + [Item(groups[rank.id].head, groups[rank.id].requests, rank)];
    }
  }

  method RankItems(p: Planner, rows: seq<Row>, ids: seq<string>, groups: map<string, Group>) returns (items: seq<Item>)
    requires Grouped(p, rows, ids, groups)
    ensures |items| == |Ranked(p, rows)|
    ensures forall i :: 0 <= i < |items| ==> ItemFits(p, rows, items[i], Ranked(p, rows)[i])
  {
    var ranks := CountAffected(p, rows, ids, groups);
    RankedHaveGroups(p, rows, ids, groups);
    var sorted := Sort(ranks, Before);
    assert sorted == Ranked(p, rows);
    items := Arrange(sorted, groups);
  }

  lemma RankedHaveGroups(p: Planner, rows: seq<Row>, ids: seq<string>, groups: map<string, Group>)
    requires Grouped(p, rows, ids, groups)
    ensures forall i :: 0 <= i < |Ranked(p, rows)| ==> Ranked(p, rows)[i].id in groups
  {
    RankedIsListing(p, rows);
    forall i | 0 <= i < |Ranked(p, rows)|
      ensures Ranked(p, rows)[i].id in groups
    {
      assert Ranked(p, rows)[i] in Ranked(p, rows);
      DedupMember(Ids(p, rows), Ranked(p, rows)[i].id);
    }
  }

  /** No group left out affects more occurrences than one returned, nor as many occurrences and more records. */
  lemma NothingLeftOutRanksHigher(p: Planner, rows: seq<Row>, maxItems: int, q: Queue, i: nat, id: string)
    requires Answers(p, rows, maxItems, q) && i < |q.items| && id in Ids(p, rows)
    requires forall j :: 0 <= j < |q.items| ==> q.items[j].rank.id != id
    ensures InRankOrder(q.items[i].rank, RankOf(p, rows, id))
  {
    TextLeqMeaning(q.items[i].rank.id, id);
    RankedIsListing(p, rows);
    var ranked := Ranked(p, rows);
    assert RankOf(p, rows, id) in ranked;
    var k :| 0 <= k < |ranked| && ranked[k] == RankOf(p, rows, id);
    forall j | 0 <= j < |q.items|
      ensures ranked[j].id != id
    {
      assert ItemFits(p, rows, q.items[j], ranked[j]);
    }
    assert ItemFits(p, rows, q.items[i], ranked[i]);
    assert Before(ranked[i], ranked[k]);
  }

  /** More occurrences first, then more records, then the smaller id by code point. */
  ghost predicate InRankOrder(a: Rank, b: Rank) {
    || a.occurrences > b.occurrences
    || (a.occurrences == b.occurrences && a.records > b.records)
    || (a.occurrences == b.occurrences && a.records == b.records && InOrder(a.id, b.id))
  }

  /** The items come in this order. */
  lemma ItemsInRankOrder(p: Planner, rows: seq<Row>, maxItems: int, q: Queue, i: nat, j: nat)
    requires Answers(p, rows, maxItems, q) && i < j < |q.items|
    ensures InRankOrder(q.items[i].rank, q.items[j].rank)
  {
    RankedIsListing(p, rows);
    var ranked := Ranked(p, rows);
    assert ItemFits(p, rows, q.items[i], ranked[i]) && ItemFits(p, rows, q.items[j], ranked[j]);
    assert Before(ranked[i], ranked[j]);
    TextLeqMeaning(ranked[i].id, ranked[j].id);
  }

  /** An item is about one target: it lists, once each, exactly the requests of the qualified rows that name the target, and
      its counts are over those. */
  ghost predicate ItemIsAbout(p: Planner, rows: seq<Row>, item: Item, target: Identity) {
    && (forall r :: r in item.requests <==> Requested(p, rows, target, r)) && Distinct(item.requests)
    && item.rank == Rank(|set r | r in item.requests :: r.occurrence|,
                         |set r | r in item.requests :: (r.documentKind, r.documentKey)|, p.digest(target))
    && item.head.kind == target.kind && item.head.snapshot == target.snapshot
  }

  lemma ItemMeaning(p: Planner, rows: seq<Row>, maxItems: int, q: Queue, i: nat) returns (target: Identity)
    requires forall x, y :: p.digest(x) == p.digest(y) ==> x == y
    requires Answers(p, rows, maxItems, q) && i < |q.items|
    ensures ItemIsAbout(p, rows, q.items[i], target)
  {
    var item := q.items[i];
    assert ItemFits(p, rows, item, Ranked(p, rows)[i]);
    RankedIsListing(p, rows);
    assert Ranked(p, rows)[i] in Ranked(p, rows);
    FirstHeadIsOfARow(p, rows, item.rank.id);
    var row :| row in rows && InGroup(p, row, item.rank.id) && FateOf(p, row).head == item.head;
    target := FateOf(p, row).identity;
    JoiningMeaning(p, row);
    MembersMeaning(p, rows, target);
    RequestsAreMembers(p, rows, item.rank.id);
    DedupProperties(Requests(p, rows, item.rank.id));
  }

  /** Every qualified row's target has a group, which is among those returned unless there are more than maxItems. */
  lemma QualifiedRowsAreGrouped(p: Planner, rows: seq<Row>, maxItems: int, q: Queue, row: Row, target: Identity)
    requires Answers(p, rows, maxItems, q) && row in rows && Qualifies(p, row) && Names(p, row, target)
    ensures p.digest(target) in Ids(p, rows)
    ensures q.groups <= maxItems ==> exists i :: 0 <= i < |q.items| && q.items[i].rank.id == p.digest(target)
  {
    FateMeaning(p, row, NotQualifiedMissing);
    JoiningMeaning(p, row);
    OneTargetOneRequest(p, row, target, FateOf(p, row).identity, FateOf(p, row).request, FateOf(p, row).request);
    IdsAreThose(p, rows);
    RankedIsListing(p, rows);
    var ranked, rank := Ranked(p, rows), RankOf(p, rows, p.digest(target));
    assert rank in ranked;
    var i :| 0 <= i < |ranked| && ranked[i] == rank;
    if q.groups <= maxItems {
      assert ItemFits(p, rows, q.items[i], ranked[i]);
    }
  }

  /** Every returned item has the head of one of its rows, and a target nobody inspected is never taken to be absent:
      acquisition is planned only on a recorded absence, and a target counts as retained only with its digest and
      receipt. */
  lemma OmissionIsNotAbsence(p: Planner, rows: seq<Row>, maxItems: int, q: Queue, i: nat)
    requires Answers(p, rows, maxItems, q) && i < |q.items|
    ensures var head := q.items[i].head;
      && (exists row :: row in rows && InGroup(p, row, q.items[i].rank.id) && FateOf(p, row).head == head)
      && (head.status == UnsupportedItem <==> !Acquirable(head.kind, head.key))
      && (head.status == PlannedItem <==> Acquirable(head.kind, head.key) && Inspected(p, head, "absent"))
      && (head.status == RetainedItem <==> Acquirable(head.kind, head.key) && CopyRecorded(p, head))
      && (head.status == NeedsRetainedLookup <==>
            Acquirable(head.kind, head.key) && !Inspected(p, head, "absent") && !CopyRecorded(p, head))
  {
    assert ItemFits(p, rows, q.items[i], Ranked(p, rows)[i]);
    FirstHeadIsOfARow(p, rows, q.items[i].rank.id);
    var row :| row in rows && InGroup(p, row, q.items[i].rank.id) && FateOf(p, row).head == q.items[i].head;
    HeadMeaning(p, row);
  }

  /** Some provider serves the target: GAO its products, govinfo the laws whose key spells one. */
  ghost predicate Acquirable(kind: string, key: string) {
    kind == "gao_product_id" || (kind == "public_law" && SpellsLaw(key))
  }

  predicate Inspected(p: Planner, head: Head, status: string) {
    (head.kind, head.key) in p.retained && p.retained[(head.kind, head.key)].status == Some(status)
  }

  /** A copy is on record with both its digest and its receipt. */
  predicate CopyRecorded(p: Planner, head: Head) {
    && Inspected(p, head, "retained")
    && HasText(p.retained[(head.kind, head.key)].sha256) && HasText(p.retained[(head.kind, head.key)].receipt)
  }

  lemma HeadMeaning(p: Planner, row: Row)
    requires FateOf(p, row).Joins?
    ensures var head := FateOf(p, row).head;
      && (head.status == UnsupportedItem <==> !Acquirable(head.kind, head.key))
      && (head.status == PlannedItem <==> Acquirable(head.kind, head.key) && Inspected(p, head, "absent"))
      && (head.status == RetainedItem <==> Acquirable(head.kind, head.key) && CopyRecorded(p, head))
      && (head.route.Gao? <==> head.kind == "gao_product_id")
      && (head.route.Gao? ==> head.route.identifier == p.lower(head.key))
      && (head.route.Govinfo? <==> head.kind == "public_law" && SpellsLaw(head.key))
      && (head.route.Govinfo? ==> head.key == LawText(head.route.congress, head.route.kind, head.route.number))
      && (!head.route.Gao? ==> head.route.identifier == head.key)
      && (head.route.Unsupported? ==> (head.route.unprinted <==> head.kind == "usc_section"))
  {
    LawKeyRoundTrip(row.normalizedKey.value);
    assert "absent"[0] != "retained"[0];
  }
}
