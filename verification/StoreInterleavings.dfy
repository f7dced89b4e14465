/** Every interleaving of streaming puts and multipart completions on one store:
    scripts/qualification_store.py, put_object and complete_multipart_upload with their two checks taken apart. */
module StoreInterleavings {
  import opened Basics
  import opened ObjectStore

  type WriterId = nat

  type PartList = seq<(int, Tag)>

  /** A writer between its first check and its commit. A completion has checked the part list it was given, then joins the
      parts there are, then computes the tag from the parts there are. */
  datatype Writer =
    | Streaming(req: PutRequest, body: Bytes)
    | Listed(key: Key, id: string, ifNoneMatch: Option<string>, listed: PartList)
    | Joined(key: Key, id: string, ifNoneMatch: Option<string>, listed: PartList, joined: seq<Bytes>)
    | Tagged(key: Key, id: string, ifNoneMatch: Option<string>, listed: PartList, joined: seq<Bytes>, tagged: seq<Bytes>)

  /** `history` lists the committed writes in commit order; `ids` are the upload identities issued so far. */
  datatype Machine = Machine(store: Store, writers: map<WriterId, Writer>, history: seq<Write>, ids: set<string>)

  const START := Machine(EMPTY, map[], [], {})

  datatype Step =
    | StartPut(w: WriterId, req: PutRequest, body: Bytes)
    | FinishPut(w: WriterId)
    | StartComplete(w: WriterId, key: Key, id: string, listed: seq<(int, Tag)>, ifNoneMatch: Option<string>)
    | JoinParts(w: WriterId)
    | ComputeTag(w: WriterId)
    | FinishComplete(w: WriterId)
    | CreateUpload(key: Key, id: string)
    | AddPart(key: Key, id: string, body: Bytes)
    | AbortUpload(key: Key, id: string)

  function Leave(m: Machine, w: WriterId): Machine {
    m.(writers := m.writers - {w})
  }

  function Enter(m: Machine, w: WriterId, writer: Writer): Machine {
    m.(writers := m.writers[w := writer])
  }

  /** Some completion under way names this upload. */
  predicate InFlight(m: Machine, id: string) {
    exists w :: w in m.writers && !m.writers[w].Streaming? && m.writers[w].id == id
  }

  /** One atomic section. A step that is refused, or that its writer is not ready for, leaves the store alone. */
  function Next(h: Hashes, m: Machine, step: Step): Machine {
    match step
    case StartPut(w, req, body) =>
      if w in m.writers || PutShape(true, req).Some? || Condition(m.store, req.key, req.ifMatch, req.ifNoneMatch).Some?
      then m
      else Enter(m, w, Streaming(req, body))
    case FinishPut(w) =>
      if w !in m.writers || !m.writers[w].Streaming? then m
      else
        var Streaming(req, body) := m.writers[w];
        if BodyDiffers(h, req, body) then Leave(m, w) else Finish(Leave(m, w), PutWrite(h, req, body), None)
    case StartComplete(w, key, id, listed, ifNoneMatch) =>
      if w in m.writers || CompleteShape(h, m.store, true, key, id, listed, ifNoneMatch).Some? then m
      else Enter(m, w, Listed(key, id, ifNoneMatch, listed))
    case JoinParts(w) =>
      if w !in m.writers || !m.writers[w].Listed? then m
      else
        var Listed(key, id, ifNoneMatch, listed) := m.writers[w];
        if id !in m.store.uploads || m.store.uploads[id].assembled then Leave(m, w)
        else
          Enter(m.(store := MarkAssembled(m.store, id)), w,
                Joined(key, id, ifNoneMatch, listed, m.store.uploads[id].parts))
    case ComputeTag(w) =>
      if w !in m.writers || !m.writers[w].Joined? then m
      else
        var Joined(key, id, ifNoneMatch, listed, joined) := m.writers[w];
        if id !in m.store.uploads then Leave(m, w)
        else Enter(m, w, Tagged(key, id, ifNoneMatch, listed, joined, m.store.uploads[id].parts))
    case FinishComplete(w) =>
      if w !in m.writers || !m.writers[w].Tagged? then m
      else
        var Tagged(key, id, ifNoneMatch, listed, joined, tagged) := m.writers[w];
        if id !in m.store.uploads then Leave(m, w)
        else Finish(Leave(m, w), CompleteWrite(h, key, ifNoneMatch, id, joined, tagged, listed), Some(id))
    case CreateUpload(key, id) =>
      if !ValidKey(key) || id in m.ids then m
      else m.(store := m.store.(uploads := m.store.uploads[id := Upload(key, [], false)]), ids := m.ids + {id})
    case AddPart(key, id, body) =>
      if FindUpload(m.store, true, key, id).Some? then m
      else
        var upload := m.store.uploads[id];
        m.(store := m.store.(uploads := m.store.uploads[id := upload.(parts := upload.parts + [body])]))
    case AbortUpload(key, id) =>
      if FindUpload(m.store, true, key, id).Some? then m else m.(store := DropUpload(m.store, id))
  }

  /** The second check and the replacement; a completion also drops its upload. */
  function Finish(m: Machine, w: Write, upload: Option<string>): Machine {
    match Commit(m.store, w)
    case Err(_) => m
    case Ok(after) =>
      Machine(if upload.Some? then DropUpload(after, upload.value) else after, m.writers, m.history + [w], m.ids)
  }

  function Run(h: Hashes, steps: seq<Step>): Machine {
    if steps == [] then START else Next(h, Run(h, steps[..|steps| - 1]), steps[|steps| - 1])
  }

  // ----- the committed history is a run of atomic conditional writes -----

  /** The store after each write performs only its second check, one after another; None when one would be refused. */
  function Replay(history: seq<Write>): Option<Store> {
    if history == [] then Some(EMPTY)
    else
      match Replay(history[..|history| - 1])
      case None => None
      case Some(st) =>
        match Commit(st, history[|history| - 1])
        case Err(_) => None
        case Ok(after) => Some(after)
  }

  ghost predicate SameObjects(a: Store, b: Store) {
    a.objects == b.objects && a.tags == b.tags && a.checksums == b.checksums
  }

  lemma CommitReadsObjectsOnly(a: Store, b: Store, w: Write)
    requires SameObjects(a, b)
    ensures Commit(a, w).Ok? == Commit(b, w).Ok?
    ensures Commit(a, w).Ok? ==> SameObjects(Commit(a, w).value, Commit(b, w).value)
  {
  }

  /** What is known of a writer in flight. */
  ghost predicate WriterFits(h: Hashes, m: Machine, writer: Writer) {
    match writer
    case Streaming(req, _) => ValidKey(req.key)
    case Listed(key, id, _, listed) =>
      && listed != [] && ValidKey(key) && id in m.ids
      && (id in m.store.uploads ==> m.store.uploads[id].key == key && ListsFirst(h, listed, m.store.uploads[id].parts))
    case Joined(key, id, _, listed, joined) =>
      && listed != [] && ListsFirst(h, listed, joined) && ValidKey(key) && id in m.ids
      && (id in m.store.uploads ==> m.store.uploads[id].key == key && joined <= m.store.uploads[id].parts)
    case Tagged(key, id, _, listed, joined, tagged) =>
      && listed != [] && ListsFirst(h, listed, joined) && joined <= tagged && ValidKey(key) && id in m.ids
  }

  /** The list is that of the first parts. */
  ghost predicate ListsFirst(h: Hashes, listed: PartList, parts: seq<Bytes>) {
    |listed| <= |parts| && listed == Wanted(h, parts[..|listed|])
  }

  lemma ListsFirstOfMore(h: Hashes, listed: PartList, parts: seq<Bytes>, more: seq<Bytes>)
    requires ListsFirst(h, listed, parts) && parts <= more
    ensures ListsFirst(h, listed, more)
  {
    assert more[..|listed|] == parts[..|listed|];
  }

  ghost predicate WritersFit(h: Hashes, m: Machine) {
    && (forall w :: w in m.writers ==> WriterFits(h, m, m.writers[w]))
    && m.store.uploads.Keys <= m.ids
  }

  ghost predicate WriteFits(h: Hashes, w: Write) {
    && ValidKey(w.key) && ChecksumFits(h, w)
    && match w.origin
       case FromPut => w.tag == Single(h.md5(w.body))
       case FromParts(_, joined, tagged, listed) =>
         && listed != [] && ListsFirst(h, listed, joined) && joined <= tagged
         && w.body == Flatten(joined) && w.tag == PartsTag(h, tagged, |listed|)
  }

  ghost predicate HistoryFits(h: Hashes, m: Machine) {
    && Replay(m.history).Some? && SameObjects(m.store, Replay(m.history).value)
    && forall w :: w in m.history ==> WriteFits(h, w)
  }

  ghost predicate Inv(h: Hashes, m: Machine) {
    HistoryFits(h, m) && WritersFit(h, m)
  }

  lemma FinishKeepsHistory(h: Hashes, m: Machine, w: Write, upload: Option<string>)
    requires HistoryFits(h, m) && WriteFits(h, w)
    ensures HistoryFits(h, Finish(m, w, upload))
  {
    CommitReadsObjectsOnly(m.store, Replay(m.history).value, w);
    if Commit(m.store, w).Ok? {
      var history := m.history + [w];
      assert history[..|history| - 1] == m.history;
    }
  }

  /** Uploads named by a writer only ever gain parts or vanish. */
  ghost predicate UploadsGrow(m: Machine, after: Machine) {
    forall id :: id in after.store.uploads && InFlight(m, id) ==>
      && id in m.store.uploads && after.store.uploads[id].key == m.store.uploads[id].key
      && m.store.uploads[id].parts <= after.store.uploads[id].parts
  }

  lemma GrowthKeepsWriters(h: Hashes, m: Machine, after: Machine, w: WriterId)
    requires WritersFit(h, m) && UploadsGrow(m, after) && m.ids <= after.ids && w in m.writers
    ensures WriterFits(h, after, m.writers[w])
  {
    var writer := m.writers[w];
    assert WriterFits(h, m, writer);
    if !writer.Streaming? && writer.id in after.store.uploads {
      assert InFlight(m, writer.id);
      if writer.Listed? {
        ListsFirstOfMore(h, writer.listed, m.store.uploads[writer.id].parts, after.store.uploads[writer.id].parts);
      }
    }
  }

  lemma StepGrows(h: Hashes, m: Machine, step: Step)
    requires WritersFit(h, m)
    ensures UploadsGrow(m, Next(h, m, step)) && m.ids <= Next(h, m, step).ids
  {
    if step.CreateUpload? {
      if InFlight(m, step.id) {
        InFlightWasIssued(h, m, step.id);
      }
    } else {
      UploadStaysOrGrows(h, m, step);
    }
  }

  lemma UploadStaysOrGrows(h: Hashes, m: Machine, step: Step)
    requires !step.CreateUpload?
    ensures m.ids <= Next(h, m, step).ids
    ensures forall id :: id in Next(h, m, step).store.uploads ==>
      id in m.store.uploads && m.store.uploads[id].key == Next(h, m, step).store.uploads[id].key
      && m.store.uploads[id].parts <= Next(h, m, step).store.uploads[id].parts
  {
  }

  lemma InFlightWasIssued(h: Hashes, m: Machine, id: string)
    requires WritersFit(h, m) && InFlight(m, id)
    ensures id in m.ids
  {
    var w :| w in m.writers && !m.writers[w].Streaming? && m.writers[w].id == id;
    assert WriterFits(h, m, m.writers[w]);
  }

  lemma StepKeepsHistory(h: Hashes, m: Machine, step: Step)
    requires Inv(h, m)
    ensures HistoryFits(h, Next(h, m, step))
  {
    match step
    case FinishPut(w) =>
      if w in m.writers && m.writers[w].Streaming? {
        assert WriterFits(h, m, m.writers[w]);
        var Streaming(req, body) := m.writers[w];
        if !BodyDiffers(h, req, body) {
          FinishKeepsHistory(h, Leave(m, w), PutWrite(h, req, body), None);
        }
      }
    case FinishComplete(w) =>
      if w in m.writers && m.writers[w].Tagged? {
        assert WriterFits(h, m, m.writers[w]);
        var Tagged(key, id, ifNoneMatch, listed, joined, tagged) := m.writers[w];
        FinishKeepsHistory(h, Leave(m, w), CompleteWrite(h, key, ifNoneMatch, id, joined, tagged, listed), Some(id));
      }
    case _ =>
  }

  /** A writer that a step moves fits its new place. */
  lemma MovedWriterFits(h: Hashes, m: Machine, step: Step, w: WriterId)
    requires WritersFit(h, m) && w in Next(h, m, step).writers
    requires w !in m.writers || Next(h, m, step).writers[w] != m.writers[w]
    ensures WriterFits(h, Next(h, m, step), Next(h, m, step).writers[w])
  {
    if w in m.writers {
      assert WriterFits(h, m, m.writers[w]);
    } else if step.StartComplete? {
      var parts := m.store.uploads[step.id].parts;
      assert parts[..|step.listed|] == parts;
    }
  }

  lemma StepKeepsWriters(h: Hashes, m: Machine, step: Step)
    requires Inv(h, m)
    ensures WritersFit(h, Next(h, m, step))
  {
    StepGrows(h, m, step);
    var after := Next(h, m, step);
    forall w | w in after.writers
      ensures WriterFits(h, after, after.writers[w])
    {
      if w in m.writers && after.writers[w] == m.writers[w] {
        GrowthKeepsWriters(h, m, after, w);
      } else {
        MovedWriterFits(h, m, step, w);
      }
    }
    KeysWereIssued(h, m, step);
  }

  lemma KeysWereIssued(h: Hashes, m: Machine, step: Step)
    requires WritersFit(h, m)
    ensures Next(h, m, step).store.uploads.Keys <= Next(h, m, step).ids
  {
  }

  lemma {:induction false} RunKeepsInv(h: Hashes, steps: seq<Step>)
    ensures Inv(h, Run(h, steps))
  {
    if steps != [] {
      RunKeepsInv(h, steps[..|steps| - 1]);
      StepKeepsHistory(h, Run(h, steps[..|steps| - 1]), steps[|steps| - 1]);
      StepKeepsWriters(h, Run(h, steps[..|steps| - 1]), steps[|steps| - 1]);
    }
  }

  /** Whatever interleaves, the objects are those of the committed writes run one by one as atomic conditional writes:
      the first check and the streaming in between have no effect on what is stored. */
  lemma InterleavingsAreAtomic(h: Hashes, steps: seq<Step>)
    ensures var m := Run(h, steps);
      Replay(m.history).Some? && SameObjects(m.store, Replay(m.history).value)
  {
    RunKeepsInv(h, steps);
  }

  // ----- what conditional writers get -----

  lemma {:induction false} ReplayPrefix(history: seq<Write>, n: nat)
    requires n <= |history| && Replay(history).Some?
    ensures Replay(history[..n]).Some?
    ensures n < |history| ==> Commit(Replay(history[..n]).value, history[n]).Ok?
    decreases |history|
  {
    if n < |history| - 1 {
      ReplayPrefix(history[..|history| - 1], n);
      assert history[..|history| - 1][..n] == history[..n];
    } else if n == |history| {
      assert history[..n] == history;
    }
  }

  /** The last committed write to a key before position n, if there is one. */
  function LastWrite(history: seq<Write>, key: Key): Option<Write> {
    if history == [] then None
    else if history[|history| - 1].key == key then Some(history[|history| - 1])
    else LastWrite(history[..|history| - 1], key)
  }

  /** The store holds, for every key, exactly what the last write to it put there. */
  lemma {:induction false} ReplayIsLastWrite(history: seq<Write>, key: Key)
    requires Replay(history).Some?
    ensures var st := Replay(history).value;
      match LastWrite(history, key)
      case None => key !in st.objects && key !in st.tags && key !in st.checksums
      case Some(w) => key in st.objects && st.objects[key] == w.body && key in st.tags && st.tags[key] == w.tag
                      && (key in st.checksums <==> w.checksum.Some?)
                      && (w.checksum.Some? ==> st.checksums[key] == w.checksum.value)
  {
    if history != [] {
      ReplayIsLastWrite(history[..|history| - 1], key);
    }
  }

  lemma {:induction false} LastWriteIn(history: seq<Write>, key: Key, i: nat)
    requires i < |history| && history[i].key == key
    ensures LastWrite(history, key).Some?
  {
    if history[|history| - 1].key != key {
      LastWriteIn(history[..|history| - 1], key, i);
    }
  }

  /** At most one create-only writer per key ever commits, and it is the first write to that key. */
  lemma OneCreator(h: Hashes, steps: seq<Step>, i: nat, j: nat)
    requires var history := Run(h, steps).history;
      i < j < |history| && history[i].key == history[j].key
    ensures Run(h, steps).history[j].ifNoneMatch != Some("*")
  {
    InterleavingsAreAtomic(h, steps);
    var history := Run(h, steps).history;
    ReplayPrefix(history, j);
    assert history[..j][i] == history[i];
    LastWriteIn(history[..j], history[j].key, i);
    ReplayIsLastWrite(history[..j], history[j].key);
  }

  /** A committed If-Match writer replaced bytes whose tag was the one it named at the instant of its commit; those bytes
      are the latest committed ones, so no write between its read and its commit is lost. */
  lemma NoLostUpdate(h: Hashes, steps: seq<Step>, j: nat)
    requires j < |Run(h, steps).history| && Run(h, steps).history[j].ifMatch.Some?
    ensures var history := Run(h, steps).history;
      var earlier := LastWrite(history[..j], history[j].key);
      && earlier.Some? && earlier.value.tag == history[j].ifMatch.value
      && Replay(history[..j]).Some? && history[j].key in Replay(history[..j]).value.objects
      && Replay(history[..j]).value.objects[history[j].key] == earlier.value.body
  {
    InterleavingsAreAtomic(h, steps);
    var history := Run(h, steps).history;
    ReplayPrefix(history, j);
    ReplayIsLastWrite(history[..j], history[j].key);
  }

  // ----- tags under interference -----

  /** The digests of these parts have md5's 16 bytes. */
  ghost predicate ProperDigests(h: Hashes, parts: seq<Bytes>) {
    forall part :: part in parts ==> |h.md5(part)| == 16
  }

  lemma {:induction false} JoinDigestsLength(h: Hashes, parts: seq<Bytes>)
    requires ProperDigests(h, parts)
    ensures |JoinDigests(h, parts)| == 16 * |parts|
  {
    if parts != [] {
      JoinDigestsLength(h, parts[..|parts| - 1]);
    }
  }

  /** md5 tells the digest lists of these two part lists apart if they differ. */
  ghost predicate NoCollision(h: Hashes, a: seq<Bytes>, b: seq<Bytes>) {
    h.md5(JoinDigests(h, a)) == h.md5(JoinDigests(h, b)) ==> JoinDigests(h, a) == JoinDigests(h, b)
  }

  lemma TagFitsByLength(h: Hashes, w: Write)
    requires WriteFits(h, w) && w.origin.FromParts?
    requires ProperDigests(h, w.origin.tagged) && NoCollision(h, w.origin.joined, w.origin.tagged)
    ensures TagFits(h, w) <==> |w.origin.tagged| == |w.origin.listed|
  {
    var FromParts(_, joined, tagged, listed) := w.origin;
    assert forall part :: part in joined ==> part in tagged;
    JoinDigestsLength(h, joined);
    JoinDigestsLength(h, tagged);
    if |tagged| == |listed| {
      assert joined == tagged;
    }
  }

  /** A part is added only to an upload that no completion has begun on. */
  ghost predicate Quiet(h: Hashes, steps: seq<Step>) {
    steps == [] ||
    (var last := steps[|steps| - 1];
     && Quiet(h, steps[..|steps| - 1])
     && (last.AddPart? ==> !InFlight(Run(h, steps[..|steps| - 1]), last.id)))
  }

  ghost predicate WriterQuiet(m: Machine, writer: Writer) {
    match writer
    case Streaming(_, _) => true
    case Listed(_, id, _, listed) => id in m.store.uploads ==> |m.store.uploads[id].parts| == |listed|
    case Joined(_, id, _, listed, joined) =>
      |joined| == |listed| && (id in m.store.uploads ==> m.store.uploads[id].parts == joined)
    case Tagged(_, _, _, listed, joined, tagged) => |joined| == |listed| && tagged == joined
  }

  ghost predicate AllQuiet(m: Machine) {
    forall w :: w in m.writers ==> WriterQuiet(m, m.writers[w])
  }

  ghost predicate TagsFit(h: Hashes, m: Machine) {
    forall w :: w in m.history ==> TagFits(h, w) && PublishesItsList(h, w)
  }

  /** A completion published exactly the parts its caller listed. */
  ghost predicate PublishesItsList(h: Hashes, w: Write) {
    w.origin.FromParts? ==> w.origin.listed == Wanted(h, w.origin.joined) && w.body == Flatten(w.origin.joined)
  }

  /** A writer that the step does not move stays quiet. */
  lemma QuietBystander(h: Hashes, m: Machine, step: Step, w: WriterId)
    requires WritersFit(h, m) && AllQuiet(m) && w in m.writers && (step.AddPart? ==> !InFlight(m, step.id))
    ensures WriterQuiet(Next(h, m, step), m.writers[w])
  {
    assert WriterQuiet(m, m.writers[w]) && WriterFits(h, m, m.writers[w]);
    if !m.writers[w].Streaming? {
      assert InFlight(m, m.writers[w].id);
    }
  }

  lemma QuietStep(h: Hashes, m: Machine, step: Step)
    requires WritersFit(h, m) && AllQuiet(m) && (step.AddPart? ==> !InFlight(m, step.id))
    ensures AllQuiet(Next(h, m, step))
  {
    var after := Next(h, m, step);
    forall w | w in after.writers
      ensures WriterQuiet(after, after.writers[w])
    {
      if w in m.writers {
        if after.writers[w] == m.writers[w] {
          QuietBystander(h, m, step, w);
        } else {
          assert WriterQuiet(m, m.writers[w]);
        }
      }
    }
  }

  lemma QuietHistoryStep(h: Hashes, m: Machine, step: Step)
    requires WritersFit(h, m) && AllQuiet(m) && TagsFit(h, m)
    ensures TagsFit(h, Next(h, m, step))
  {
    if step.FinishComplete? && step.w in m.writers && m.writers[step.w].Tagged? {
      var writer := m.writers[step.w];
      assert WriterQuiet(m, writer) && WriterFits(h, m, writer);
      assert writer.joined[..|writer.listed|] == writer.joined;
    }
  }

  lemma {:induction false} QuietRun(h: Hashes, steps: seq<Step>)
    requires Quiet(h, steps)
    ensures AllQuiet(Run(h, steps)) && TagsFit(h, Run(h, steps))
  {
    if steps != [] {
      var front, last := steps[..|steps| - 1], steps[|steps| - 1];
      QuietRun(h, front);
      RunKeepsInv(h, front);
      QuietStep(h, Run(h, front), last);
      QuietHistoryStep(h, Run(h, front), last);
    }
  }

  lemma FittingWriteTag(h: Hashes, w: Write)
    requires TagFits(h, w)
    ensures TagOf(h, w.tag, w.body)
  {
  }

  /** In every quiet interleaving, every stored tag and checksum is that of the stored bytes. */
  lemma QuietTags(h: Hashes, steps: seq<Step>, key: Key)
    requires Quiet(h, steps) && key in Run(h, steps).store.objects
    ensures var st := Run(h, steps).store;
      && key in st.tags && TagOf(h, st.tags[key], st.objects[key])
      && (key in st.checksums ==> st.checksums[key] == h.sha256Base64(st.objects[key]))
  {
    var m := Run(h, steps);
    QuietRun(h, steps);
    RunKeepsInv(h, steps);
    StoredIsLastWrite(h, m, key);
    FittingWriteTag(h, LastWrite(m.history, key).value);
  }

  lemma StoredIsLastWrite(h: Hashes, m: Machine, key: Key)
    requires HistoryFits(h, m) && key in m.store.objects
    ensures LastWrite(m.history, key).Some?
    ensures var w := LastWrite(m.history, key).value;
      && w in m.history && WriteFits(h, w) && m.store.objects[key] == w.body && key in m.store.tags
      && m.store.tags[key] == w.tag && (key in m.store.checksums ==> w.checksum == Some(m.store.checksums[key]))
  {
    ReplayIsLastWrite(m.history, key);
    LastWriteOccurs(m.history, key);
  }

  lemma {:induction false} LastWriteOccurs(history: seq<Write>, key: Key)
    requires LastWrite(history, key).Some?
    ensures LastWrite(history, key).value in history && LastWrite(history, key).value.key == key
  {
    if history[|history| - 1].key != key {
      LastWriteOccurs(history[..|history| - 1], key);
    }
  }

  // ----- a part that arrives during a completion -----

  lemma RunSnoc(h: Hashes, steps: seq<Step>, step: Step)
    ensures Run(h, steps + [step]) == Next(h, Run(h, steps), step)
  {
    assert (steps + [step])[..|steps|] == steps;
  }

  /** Create, add one part, begin completing. */
  function OneListed(h: Hashes, key: Key, part: Bytes, ifNoneMatch: Option<string>): seq<Step> {
    [CreateUpload(key, "u")] + [AddPart(key, "u", part)] + [StartComplete(0, key, "u", Wanted(h, [part]), ifNoneMatch)]
  }

  lemma OneListedRuns(h: Hashes, key: Key, part: Bytes, ifNoneMatch: Option<string>)
    requires ValidKey(key) && (ifNoneMatch == None || ifNoneMatch == Some("*"))
    ensures Run(h, OneListed(h, key, part, ifNoneMatch)) ==
            Machine(EMPTY.(uploads := map["u" := Upload(key, [part], false)]),
                    map[0 := Listed(key, "u", ifNoneMatch, Wanted(h, [part]))], [], {"u"})
  {
    var create, add := [CreateUpload(key, "u")], [AddPart(key, "u", part)];
    RunSnoc(h, [], create[0]);
    RunSnoc(h, create, add[0]);
    RunSnoc(h, create + add, StartComplete(0, key, "u", Wanted(h, [part]), ifNoneMatch));
    assert [] + create == create;
    var m1 := Machine(EMPTY.(uploads := map["u" := Upload(key, [], false)]), map[], [], {"u"});
    assert Run(h, create) == m1;
    assert [] + [part] == [part];
    assert Run(h, create + add) == m1.(store := EMPTY.(uploads := map["u" := Upload(key, [part], false)]));
  }

  /** Another part arrives then; afterwards the completion joins, computes its tag and commits. */
  function LatePartBegins(h: Hashes, key: Key, first: Bytes, late: Bytes): seq<Step> {
    OneListed(h, key, first, None) + [AddPart(key, "u", late)]
  }

  lemma LatePartBeginning(h: Hashes, key: Key, first: Bytes, late: Bytes)
    requires ValidKey(key)
    ensures Run(h, LatePartBegins(h, key, first, late)) ==
            Machine(EMPTY.(uploads := map["u" := Upload(key, [first, late], false)]),
                    map[0 := Listed(key, "u", None, Wanted(h, [first]))], [], {"u"})
  {
    OneListedRuns(h, key, first, None);
    RunSnoc(h, OneListed(h, key, first, None), AddPart(key, "u", late));
    assert [first] + [late] == [first, late];
  }

  /** A count of one fits only the md5 of the whole body's own md5. */
  lemma TagOfOnePart(h: Hashes, first: Bytes, late: Bytes)
    ensures TagOf(h, PartsTag(h, [first, late], 1), first + late) <==>
            h.md5(h.md5(first + late)) == h.md5(h.md5(first) + h.md5(late))
  {
    var tag, body := PartsTag(h, [first, late], 1), first + late;
    DigestsOfTwo(h, first, late);
    DigestsOfOne(h, body);
    assert Flatten([body]) == body + Flatten([]);
    if TagOf(h, tag, body) {
      var parts :| parts != [] && IsMultipart(h, tag, body, parts);
      assert |parts| == 1 && parts[1..] == [] && Flatten(parts) == parts[0] + Flatten(parts[1..]);
      assert parts[0] == parts[0] + [] == body;
      assert parts == [body];
    } else {
      assert !IsMultipart(h, tag, body, [body]);
    }
  }

  lemma DigestsOfOne(h: Hashes, part: Bytes)
    ensures JoinDigests(h, [part]) == h.md5(part)
  {
    assert [part][..0] == [];
  }

  lemma DigestsOfTwo(h: Hashes, first: Bytes, second: Bytes)
    ensures JoinDigests(h, [first, second]) == h.md5(first) + h.md5(second)
  {
    DigestsOfOne(h, first);
    assert [first, second][..1] == [first];
  }

  /** A caller who listed one part gets an object of two, under a tag that says one and that fits only if md5 collides. */
  lemma LatePartBreaksTag(h: Hashes, key: Key, first: Bytes, late: Bytes)
    requires ValidKey(key)
    ensures var m := Run(h, LatePartBegins(h, key, first, late) + [JoinParts(0)] + [ComputeTag(0)] + [FinishComplete(0)]);
      && key in m.store.objects && m.store.objects[key] == first + late
      && key in m.store.tags && m.store.tags[key] == PartsTag(h, [first, late], 1)
      && (TagOf(h, m.store.tags[key], m.store.objects[key]) <==>
            h.md5(h.md5(first + late)) == h.md5(h.md5(first) + h.md5(late)))
  {
    TagOfOnePart(h, first, late);
    var begun := LatePartBegins(h, key, first, late);
    LatePartBeginning(h, key, first, late);
    RunSnoc(h, begun, JoinParts(0));
    RunSnoc(h, begun + [JoinParts(0)], ComputeTag(0));
    RunSnoc(h, begun + [JoinParts(0)] + [ComputeTag(0)], FinishComplete(0));
    var both := [first, late];
    assert Run(h, begun + [JoinParts(0)] + [ComputeTag(0)]).writers[0] == Tagged(key, "u", None, Wanted(h, [first]), both, both);
    assert Flatten(both) == first + late by {
      FlattenSnoc([first], late);
      assert [first] + [late] == both && Flatten([first]) == first + Flatten([]);
    }
  }

  // ----- a completion joins its own upload's parts -----

  /** The bodies that accepted AddPart steps gave upload `id`, in order. */
  function Added(h: Hashes, steps: seq<Step>, id: string): seq<Bytes> {
    if steps == [] then []
    else
      var front := steps[..|steps| - 1];
      AddedBy(Run(h, front), steps[|steps| - 1], id, Added(h, front, id))
  }

  ghost predicate OwnPartsOnly(m: Machine, id: string, added: seq<Bytes>) {
    && (id !in m.ids ==> added == [])
    && (id in m.store.uploads ==> m.store.uploads[id].parts == added)
    && (forall w :: w in m.writers ==> WriterOwn(m.writers[w], id, added))
    && (forall w :: w in m.history && w.origin.FromParts? && w.origin.id == id ==>
          w.origin.joined <= added && w.origin.tagged <= added)
  }

  ghost predicate WriterOwn(writer: Writer, id: string, added: seq<Bytes>) {
    match writer
    case Joined(_, own, _, _, joined) => own == id ==> joined <= added
    case Tagged(_, own, _, _, joined, tagged) => own == id ==> joined <= added && tagged <= added
    case _ => true
  }

  lemma StepKeepsOwn(h: Hashes, m: Machine, step: Step, id: string, added: seq<Bytes>)
    requires WritersFit(h, m) && OwnPartsOnly(m, id, added)
    ensures OwnPartsOnly(Next(h, m, step), id, AddedBy(m, step, id, added))
  {
    var after, now := Next(h, m, step), AddedBy(m, step, id, added);
    forall w | w in after.writers
      ensures WriterOwn(after.writers[w], id, now)
    {
      if w in m.writers {
        assert WriterOwn(m.writers[w], id, added);
      }
    }
    HistoryStaysOwn(h, m, step, id, added);
  }

  function AddedBy(m: Machine, step: Step, id: string, added: seq<Bytes>): (now: seq<Bytes>)
    ensures added <= now
  {
    if step.AddPart? && step.id == id && FindUpload(m.store, true, step.key, id).None? then added + [step.body] else added
  }

  lemma HistoryStaysOwn(h: Hashes, m: Machine, step: Step, id: string, added: seq<Bytes>)
    requires WritersFit(h, m) && OwnPartsOnly(m, id, added)
    ensures forall w :: w in Next(h, m, step).history && w.origin.FromParts? && w.origin.id == id ==>
      w.origin.joined <= AddedBy(m, step, id, added) && w.origin.tagged <= AddedBy(m, step, id, added)
  {
    if step.FinishComplete? && step.w in m.writers {
      assert WriterOwn(m.writers[step.w], id, added);
    }
  }

  lemma {:induction false} RunKeepsOwn(h: Hashes, steps: seq<Step>, id: string)
    ensures OwnPartsOnly(Run(h, steps), id, Added(h, steps, id))
  {
    if steps != [] {
      var front := steps[..|steps| - 1];
      RunKeepsOwn(h, front, id);
      RunKeepsInv(h, front);
      StepKeepsOwn(h, Run(h, front), steps[|steps| - 1], id, Added(h, front, id));
    }
  }

  /** Whatever other uploads interleave, a committed completion published a first run of the parts its own upload was
      given, at least those its caller listed, in order; in a quiet interleaving, exactly those listed. */
  lemma CompletionsPublishOwnParts(h: Hashes, steps: seq<Step>, w: Write)
    requires w in Run(h, steps).history && w.origin.FromParts?
    ensures var added := Added(h, steps, w.origin.id);
      && w.origin.joined <= added && w.body == Flatten(w.origin.joined)
      && 0 < |w.origin.listed| <= |w.origin.joined| && w.origin.listed == Wanted(h, added[..|w.origin.listed|])
    ensures Quiet(h, steps) ==> w.body == Flatten(Added(h, steps, w.origin.id)[..|w.origin.listed|])
  {
    RunKeepsInv(h, steps);
    RunKeepsOwn(h, steps, w.origin.id);
    var added := Added(h, steps, w.origin.id);
    assert WriteFits(h, w);
    ListsFirstOfMore(h, w.origin.listed, w.origin.joined, added);
    if Quiet(h, steps) {
      QuietRun(h, steps);
      assert PublishesItsList(h, w);
      assert |w.origin.listed| == |w.origin.joined|;
      assert added[..|w.origin.joined|] == w.origin.joined;
    }
  }

  // ----- when a completion's tag is right -----

  /** Step i asks to complete upload `id` with `listed`, the list of the parts it then had. */
  ghost predicate BeganAt(h: Hashes, steps: seq<Step>, i: nat, v: WriterId, key: Key, id: string, cond: Option<string>, listed: PartList) {
    && i < |steps| && steps[i].StartComplete? && steps[i].w == v
    && steps[i].key == key && steps[i].id == id && steps[i].ifNoneMatch == cond && steps[i].listed == listed
    && listed == Wanted(h, Added(h, steps[..i], id))
  }

  /** The request of step i computed its tag in step j, from the parts there were then. */
  ghost predicate MeasuredAt(h: Hashes, steps: seq<Step>, i: nat, j: nat, key: Key, id: string, cond: Option<string>, listed: PartList,
                             tagged: seq<Bytes>)
  {
    && i < j < |steps| && steps[i].StartComplete? && BeganAt(h, steps, i, steps[i].w, key, id, cond, listed)
    && steps[j] == ComputeTag(steps[i].w) && tagged == Added(h, steps[..j], id)
  }

  ghost predicate Began(h: Hashes, steps: seq<Step>, v: WriterId, key: Key, id: string, cond: Option<string>, listed: PartList) {
    exists i: nat :: BeganAt(h, steps, i, v, key, id, cond, listed)
  }

  ghost predicate Measured(h: Hashes, steps: seq<Step>, key: Key, id: string, cond: Option<string>, listed: PartList, tagged: seq<Bytes>) {
    exists i: nat, j: nat :: MeasuredAt(h, steps, i, j, key, id, cond, listed, tagged)
  }

  lemma BeganStays(h: Hashes, steps: seq<Step>, last: Step, v: WriterId, key: Key, id: string, cond: Option<string>, listed: PartList)
    requires Began(h, steps, v, key, id, cond, listed)
    ensures Began(h, steps + [last], v, key, id, cond, listed)
  {
    var i: nat :| BeganAt(h, steps, i, v, key, id, cond, listed);
    assert (steps + [last])[..i] == steps[..i];
    assert BeganAt(h, steps + [last], i, v, key, id, cond, listed);
  }

  lemma MeasuredStays(h: Hashes, steps: seq<Step>, last: Step, key: Key, id: string, cond: Option<string>, listed: PartList, tagged: seq<Bytes>)
    requires Measured(h, steps, key, id, cond, listed, tagged)
    ensures Measured(h, steps + [last], key, id, cond, listed, tagged)
  {
    var i: nat, j: nat :| MeasuredAt(h, steps, i, j, key, id, cond, listed, tagged);
    assert (steps + [last])[..i] == steps[..i] && (steps + [last])[..j] == steps[..j];
    assert MeasuredAt(h, steps + [last], i, j, key, id, cond, listed, tagged);
  }

  lemma BeginsNow(h: Hashes, steps: seq<Step>, last: Step)
    requires last.StartComplete? && last.listed == Wanted(h, Added(h, steps, last.id))
    ensures Began(h, steps + [last], last.w, last.key, last.id, last.ifNoneMatch, last.listed)
  {
    assert (steps + [last])[..|steps|] == steps;
    assert BeganAt(h, steps + [last], |steps|, last.w, last.key, last.id, last.ifNoneMatch, last.listed);
  }

  lemma MeasuresNow(h: Hashes, steps: seq<Step>, v: WriterId, key: Key, id: string, cond: Option<string>, listed: PartList)
    requires Began(h, steps, v, key, id, cond, listed)
    ensures Measured(h, steps + [ComputeTag(v)], key, id, cond, listed, Added(h, steps, id))
  {
    var i: nat :| BeganAt(h, steps, i, v, key, id, cond, listed);
    var more := steps + [ComputeTag(v)];
    assert more[..|steps|] == steps && more[..i] == steps[..i];
    assert MeasuredAt(h, more, i, |steps|, key, id, cond, listed, Added(h, steps, id));
  }

  /** Some step asks to put this body under this request. */
  ghost predicate AskedToPut(steps: seq<Step>, req: PutRequest, body: Bytes) {
    exists i :: 0 <= i < |steps| && steps[i].StartPut? && steps[i].req == req && steps[i].body == body
  }

  /** What the request asks to be written: its key, its own conditions and checksum, the body and the body's tag. */
  function PutOf(h: Hashes, req: PutRequest, body: Bytes): Write {
    Write(req.key, req.ifMatch, req.ifNoneMatch, body, Single(h.md5(body)), req.sha256, FromPut)
  }

  lemma AskedStays(steps: seq<Step>, last: Step, req: PutRequest, body: Bytes)
    requires AskedToPut(steps, req, body)
    ensures AskedToPut(steps + [last], req, body)
  {
    var i :| 0 <= i < |steps| && steps[i].StartPut? && steps[i].req == req && steps[i].body == body;
    assert (steps + [last])[i] == steps[i];
  }

  lemma AsksNow(steps: seq<Step>, last: Step)
    requires last.StartPut?
    ensures AskedToPut(steps + [last], last.req, last.body)
  {
    assert (steps + [last])[|steps|] == last;
  }

  ghost predicate WriterTraced(h: Hashes, steps: seq<Step>, v: WriterId, writer: Writer) {
    match writer
    case Streaming(req, body) => AskedToPut(steps, req, body)
    case Listed(key, id, cond, listed) => Began(h, steps, v, key, id, cond, listed)
    case Joined(key, id, cond, listed, _) => Began(h, steps, v, key, id, cond, listed)
    case Tagged(key, id, cond, listed, _, tagged) => Measured(h, steps, key, id, cond, listed, tagged)
  }

  ghost predicate WriteTraced(h: Hashes, steps: seq<Step>, w: Write) {
    match w.origin
    case FromPut => exists req :: AskedToPut(steps, req, w.body) && w == PutOf(h, req, w.body)
    case FromParts(id, _, tagged, listed) => w.ifMatch.None? && Measured(h, steps, w.key, id, w.ifNoneMatch, listed, tagged)
  }

  ghost predicate Traced(h: Hashes, steps: seq<Step>) {
    && (forall v :: v in Run(h, steps).writers ==> WriterTraced(h, steps, v, Run(h, steps).writers[v]))
    && (forall w :: w in Run(h, steps).history ==> WriteTraced(h, steps, w))
  }

  lemma UnmovedStaysTraced(h: Hashes, steps: seq<Step>, last: Step, v: WriterId, writer: Writer)
    requires WriterTraced(h, steps, v, writer)
    ensures WriterTraced(h, steps + [last], v, writer)
  {
    match writer
    case Streaming(req, body) => AskedStays(steps, last, req, body);
    case Listed(key, id, cond, listed) => BeganStays(h, steps, last, v, key, id, cond, listed);
    case Joined(key, id, cond, listed, _) => BeganStays(h, steps, last, v, key, id, cond, listed);
    case Tagged(key, id, cond, listed, _, tagged) => MeasuredStays(h, steps, last, key, id, cond, listed, tagged);
  }

  lemma StartedIsTraced(h: Hashes, steps: seq<Step>, last: Step)
    requires last.StartComplete? && last.w !in Run(h, steps).writers && last.w in Next(h, Run(h, steps), last).writers
    ensures WriterTraced(h, steps + [last], last.w, Next(h, Run(h, steps), last).writers[last.w])
  {
    RunKeepsOwn(h, steps, last.id);
    BeginsNow(h, steps, last);
  }

  lemma TaggedIsTraced(h: Hashes, steps: seq<Step>, last: Step)
    requires last.ComputeTag? && last.w in Run(h, steps).writers && Run(h, steps).writers[last.w].Joined?
    requires WriterTraced(h, steps, last.w, Run(h, steps).writers[last.w]) && last.w in Next(h, Run(h, steps), last).writers
    ensures WriterTraced(h, steps + [last], last.w, Next(h, Run(h, steps), last).writers[last.w])
  {
    var Joined(key, id, cond, listed, _) := Run(h, steps).writers[last.w];
    RunKeepsOwn(h, steps, id);
    MeasuresNow(h, steps, last.w, key, id, cond, listed);
  }

  lemma JoinedIsTraced(h: Hashes, steps: seq<Step>, last: Step)
    requires last.JoinParts? && last.w in Run(h, steps).writers && Run(h, steps).writers[last.w].Listed?
    requires WriterTraced(h, steps, last.w, Run(h, steps).writers[last.w]) && last.w in Next(h, Run(h, steps), last).writers
    ensures WriterTraced(h, steps + [last], last.w, Next(h, Run(h, steps), last).writers[last.w])
  {
    var Listed(key, id, cond, listed) := Run(h, steps).writers[last.w];
    BeganStays(h, steps, last, last.w, key, id, cond, listed);
  }

  /** A step moves at most its own writer. */
  lemma OthersUnmoved(h: Hashes, m: Machine, step: Step, v: WriterId)
    requires v in Next(h, m, step).writers && !(v in m.writers && Next(h, m, step).writers[v] == m.writers[v])
    ensures (step.StartPut? || step.StartComplete?) ==> v == step.w && v !in m.writers
    ensures step.JoinParts? ==> v == step.w && v in m.writers && m.writers[v].Listed?
    ensures step.ComputeTag? ==> v == step.w && v in m.writers && m.writers[v].Joined?
    ensures step.StartPut? || step.StartComplete? || step.JoinParts? || step.ComputeTag?
  {
  }

  lemma WriterStaysTraced(h: Hashes, steps: seq<Step>, last: Step, v: WriterId)
    requires Traced(h, steps) && v in Next(h, Run(h, steps), last).writers
    ensures WriterTraced(h, steps + [last], v, Next(h, Run(h, steps), last).writers[v])
  {
    var m := Run(h, steps);
    if v in m.writers && Next(h, m, last).writers[v] == m.writers[v] {
      UnmovedStaysTraced(h, steps, last, v, m.writers[v]);
    } else {
      OthersUnmoved(h, m, last, v);
      if last.StartPut? {
        AsksNow(steps, last);
      } else if last.StartComplete? {
        StartedIsTraced(h, steps, last);
      } else if last.JoinParts? {
        JoinedIsTraced(h, steps, last);
      } else if last.ComputeTag? {
        TaggedIsTraced(h, steps, last);
      }
    }
  }

  lemma WriteStaysTraced(h: Hashes, steps: seq<Step>, last: Step, w: Write)
    requires Traced(h, steps) && w in Next(h, Run(h, steps), last).history
    ensures WriteTraced(h, steps + [last], w)
  {
    var m := Run(h, steps);
    if w in m.history {
      OldWriteStaysTraced(h, steps, last, w);
    } else {
      assert WriterTraced(h, steps, last.w, m.writers[last.w]);
      if w.origin.FromPut? {
        AskedStays(steps, last, m.writers[last.w].req, w.body);
      } else {
        MeasuredStays(h, steps, last, w.key, w.origin.id, w.ifNoneMatch, w.origin.listed, w.origin.tagged);
      }
    }
  }

  lemma OldWriteStaysTraced(h: Hashes, steps: seq<Step>, last: Step, w: Write)
    requires WriteTraced(h, steps, w)
    ensures WriteTraced(h, steps + [last], w)
  {
    if w.origin.FromPut? {
      var req :| AskedToPut(steps, req, w.body) && w == PutOf(h, req, w.body);
      AskedStays(steps, last, req, w.body);
    } else {
      MeasuredStays(h, steps, last, w.key, w.origin.id, w.ifNoneMatch, w.origin.listed, w.origin.tagged);
    }
  }

  lemma {:induction false} RunIsTraced(h: Hashes, steps: seq<Step>)
    ensures Traced(h, steps)
  {
    if steps != [] {
      var front, last := steps[..|steps| - 1], steps[|steps| - 1];
      RunIsTraced(h, front);
      assert steps == front + [last];
      RunSnoc(h, front, last);
      forall v | v in Run(h, steps).writers
        ensures WriterTraced(h, steps, v, Run(h, steps).writers[v])
      {
        WriterStaysTraced(h, front, last, v);
      }
      forall w | w in Run(h, steps).history
        ensures WriteTraced(h, steps, w)
      {
        WriteStaysTraced(h, front, last, w);
      }
    }
  }

  /** Step k adds a part to upload `id`. */
  predicate AddsPart(h: Hashes, steps: seq<Step>, k: nat, id: string)
    requires k < |steps|
  {
    steps[k].AddPart? && steps[k].id == id && FindUpload(Run(h, steps[..k]).store, true, steps[k].key, id).None?
  }

  ghost predicate NoPartBetween(h: Hashes, steps: seq<Step>, i: nat, j: nat, id: string)
    requires i <= j <= |steps|
  {
    forall k :: i <= k < j ==> !AddsPart(h, steps, k, id)
  }

  lemma AddedInStep(h: Hashes, steps: seq<Step>, k: nat, id: string)
    requires k < |steps|
    ensures |Added(h, steps[..k + 1], id)| == |Added(h, steps[..k], id)| + if AddsPart(h, steps, k, id) then 1 else 0
  {
    assert steps[..k + 1][..k] == steps[..k];
  }

  /** A count that each marked step raises by one stays the same exactly over steps without a mark. */
  lemma {:induction false} CountBetween(counts: seq<nat>, marks: seq<bool>, i: nat, j: nat)
    requires i <= j <= |marks| && |counts| == |marks| + 1
    requires forall k :: 0 <= k < |marks| ==> counts[k + 1] == counts[k] + if marks[k] then 1 else 0
    ensures counts[i] <= counts[j]
    ensures counts[i] == counts[j] <==> forall k :: i <= k < j ==> !marks[k]
    decreases j
  {
    if i < j {
      CountBetween(counts, marks, i, j - 1);
      assert counts[j - 1 + 1] == counts[j - 1] + if marks[j - 1] then 1 else 0;
    }
  }

  lemma AddedBetween(h: Hashes, steps: seq<Step>, i: nat, j: nat, id: string)
    requires i <= j <= |steps|
    ensures |Added(h, steps[..i], id)| == |Added(h, steps[..j], id)| <==> NoPartBetween(h, steps, i, j, id)
  {
    var counts: seq<nat> := seq(|steps| + 1, n requires 0 <= n <= |steps| => |Added(h, steps[..n], id)|);
    var marks := seq(|steps|, k requires 0 <= k < |steps| => AddsPart(h, steps, k, id));
    forall k | 0 <= k < |marks|
      ensures counts[k + 1] == counts[k] + if marks[k] then 1 else 0
    {
      AddedInStep(h, steps, k, id);
    }
    CountBetween(counts, marks, i, j);
    assert forall k :: i <= k < j ==> marks[k] == AddsPart(h, steps, k, id);
  }

  /** The steps i and j that checked the list of a committed completion and that computed its tag. */
  ghost predicate Spans(h: Hashes, steps: seq<Step>, i: nat, j: nat, w: Write)
    requires w.origin.FromParts?
  {
    MeasuredAt(h, steps, i, j, w.key, w.origin.id, w.ifNoneMatch, w.origin.listed, w.origin.tagged)
  }

  /** Every committed write was asked for: a put by a step with its key, its very conditions, checksum and body; a completion
      by a step with its key, condition and list. */
  lemma EveryWriteWasAsked(h: Hashes, steps: seq<Step>, w: Write)
    requires w in Run(h, steps).history
    ensures w.origin.FromPut? ==> exists req :: AskedToPut(steps, req, w.body) && w == PutOf(h, req, w.body)
    ensures w.origin.FromParts? ==> w.ifMatch.None? && exists i: nat, j: nat :: Spans(h, steps, i, j, w)
  {
    RunIsTraced(h, steps);
    assert WriteTraced(h, steps, w);
    if w.origin.FromParts? {
      EveryCompletionSpans(h, steps, w);
    }
  }

  /** Every committed completion checked its list in one step and computed its tag in a later one. */
  lemma EveryCompletionSpans(h: Hashes, steps: seq<Step>, w: Write)
    requires w in Run(h, steps).history && w.origin.FromParts?
    ensures exists i: nat, j: nat :: Spans(h, steps, i, j, w)
  {
    RunIsTraced(h, steps);
    assert WriteTraced(h, steps, w);
    var i: nat, j: nat :| MeasuredAt(h, steps, i, j, w.key, w.origin.id, w.ifNoneMatch, w.origin.listed, w.origin.tagged);
    assert Spans(h, steps, i, j, w);
  }

  /** It carries the tag of the parts it joined exactly when no step in between added a part to its upload. Of md5 this
      asks only 16-byte digests of these parts, and that it tells their two digest lists apart. */
  lemma TagFitsIff(h: Hashes, steps: seq<Step>, i: nat, j: nat, w: Write)
    requires w in Run(h, steps).history && w.origin.FromParts? && Spans(h, steps, i, j, w)
    requires ProperDigests(h, w.origin.tagged) && NoCollision(h, w.origin.joined, w.origin.tagged)
    ensures TagFits(h, w) <==> NoPartBetween(h, steps, i, j, w.origin.id)
  {
    RunKeepsInv(h, steps);
    assert WriteFits(h, w);
    TagFitsByLength(h, w);
    AddedBetween(h, steps, i, j, w.origin.id);
  }

  // ----- an upload whose completion was refused after joining -----

  /** The completion has joined its parts, and its second check would pass now. */
  predicate CanCommit(m: Machine, writer: Writer, id: string) {
    && (writer.Joined? || writer.Tagged?) && writer.id == id
    && Condition(m.store, writer.key, None, writer.ifNoneMatch).None? && !Occupied(m.store.objects.Keys, writer.key)
  }

  predicate SomeCanCommit(m: Machine, id: string) {
    exists v :: v in m.writers && CanCommit(m, m.writers[v], id)
  }

  ghost predicate Completed(m: Machine, id: string) {
    exists w :: w in m.history && w.origin.FromParts? && w.origin.id == id
  }

  /** No completion of the upload has committed, nor can any: its joined file is in the way of those still to join, or the
      upload is gone, and those that have joined would be refused. */
  ghost predicate Stuck(m: Machine, id: string) {
    && id in m.ids
    && (id in m.store.uploads ==> m.store.uploads[id].assembled)
    && !SomeCanCommit(m, id) && !Completed(m, id)
  }

  /** Objects are never removed, so a second check that fails now fails for good. */
  lemma RefusalsLast(h: Hashes, m: Machine, step: Step, writer: Writer, id: string)
    requires (writer.Joined? || writer.Tagged?) && !CanCommit(m, writer, id)
    ensures !CanCommit(Next(h, m, step), writer, id)
  {
    assert m.store.objects.Keys <= Next(h, m, step).store.objects.Keys;
  }

  lemma StuckStaysUncommittable(h: Hashes, m: Machine, step: Step, id: string, v: WriterId)
    requires Stuck(m, id) && v in Next(h, m, step).writers
    ensures !CanCommit(Next(h, m, step), Next(h, m, step).writers[v], id)
  {
    var writer := Next(h, m, step).writers[v];
    if v in m.writers {
      assert !CanCommit(m, m.writers[v], id);
      if writer == m.writers[v] {
        if writer.Joined? || writer.Tagged? {
          RefusalsLast(h, m, step, writer, id);
        }
      } else {
        OthersUnmoved(h, m, step, v);
      }
    }
  }

  lemma StuckStaysUncompleted(h: Hashes, m: Machine, step: Step, id: string)
    requires Stuck(m, id)
    ensures !Completed(Next(h, m, step), id)
  {
    if step.FinishComplete? && step.w in m.writers && m.writers[step.w].Tagged? {
      assert !CanCommit(m, m.writers[step.w], id);
    }
  }

  lemma StepKeepsStuck(h: Hashes, m: Machine, step: Step, id: string)
    requires Stuck(m, id)
    ensures Stuck(Next(h, m, step), id)
  {
    forall v | v in Next(h, m, step).writers
      ensures !CanCommit(Next(h, m, step), Next(h, m, step).writers[v], id)
    {
      StuckStaysUncommittable(h, m, step, id, v);
    }
    StuckStaysUncompleted(h, m, step, id);
  }

  /** The upload of a committed completion is gone. */
  ghost predicate CompletedAreGone(m: Machine) {
    forall w :: w in m.history && w.origin.FromParts? ==> w.origin.id in m.ids && w.origin.id !in m.store.uploads
  }

  lemma {:induction false} RunKeepsCompletedGone(h: Hashes, steps: seq<Step>)
    ensures CompletedAreGone(Run(h, steps))
  {
    if steps != [] {
      var front := steps[..|steps| - 1];
      RunKeepsCompletedGone(h, front);
      RunKeepsInv(h, front);
      StepKeepsCompletedGone(h, Run(h, front), steps[|steps| - 1]);
    }
  }

  lemma StepKeepsCompletedGone(h: Hashes, m: Machine, step: Step)
    requires WritersFit(h, m) && CompletedAreGone(m)
    ensures CompletedAreGone(Next(h, m, step))
  {
    if step.FinishComplete? && step.w in m.writers {
      assert WriterFits(h, m, m.writers[step.w]);
    }
  }

  /** Once an upload's joined file is there and no completion of it could commit at once, none ever commits, whatever
      follows: not a repeated request, nor one with other conditions, nor after more parts. */
  lemma {:induction false} AssembledNeverCompletes(h: Hashes, steps: seq<Step>, later: seq<Step>, id: string)
    requires id in Run(h, steps).store.uploads && Run(h, steps).store.uploads[id].assembled
    requires !SomeCanCommit(Run(h, steps), id)
    ensures Stuck(Run(h, steps + later), id)
    decreases |later|
  {
    if later == [] {
      assert steps + later == steps;
      RunKeepsCompletedGone(h, steps);
      RunKeepsInv(h, steps);
    } else {
      var front, last := later[..|later| - 1], later[|later| - 1];
      AssembledNeverCompletes(h, steps, front, id);
      assert steps + later == (steps + front) + [last];
      RunSnoc(h, steps + front, last);
      StepKeepsStuck(h, Run(h, steps + front), last, id);
    }
  }

  /** An upload whose joined file is there can still be published exactly when some completion of it has joined and would
      pass its second check at once. */
  lemma AssembledCompletesIff(h: Hashes, steps: seq<Step>, id: string)
    requires id in Run(h, steps).store.uploads && Run(h, steps).store.uploads[id].assembled
    ensures (exists later :: Completed(Run(h, steps + later), id)) <==> SomeCanCommit(Run(h, steps), id)
  {
    if SomeCanCommit(Run(h, steps), id) {
      var v :| v in Run(h, steps).writers && CanCommit(Run(h, steps), Run(h, steps).writers[v], id);
      CommitsNow(h, steps, v, id);
    } else {
      forall later
        ensures !Completed(Run(h, steps + later), id)
      {
        AssembledNeverCompletes(h, steps, later, id);
      }
    }
  }

  lemma CommitsNow(h: Hashes, steps: seq<Step>, v: WriterId, id: string)
    requires id in Run(h, steps).store.uploads && v in Run(h, steps).writers
    requires CanCommit(Run(h, steps), Run(h, steps).writers[v], id)
    ensures exists later :: Completed(Run(h, steps + later), id)
  {
    var tag, finish := [ComputeTag(v)], [FinishComplete(v)];
    if Run(h, steps).writers[v].Joined? {
      RunSnoc(h, steps, tag[0]);
      RunSnoc(h, steps + tag, finish[0]);
      FinishCompletes(h, Run(h, steps + tag), v, id);
      assert steps + (tag + finish) == steps + tag + finish;
    } else {
      RunSnoc(h, steps, finish[0]);
      FinishCompletes(h, Run(h, steps), v, id);
      assert Completed(Run(h, steps + finish), id);
    }
  }

  lemma FinishCompletes(h: Hashes, m: Machine, v: WriterId, id: string)
    requires id in m.store.uploads && v in m.writers && m.writers[v].Tagged? && CanCommit(m, m.writers[v], id)
    ensures Completed(Next(h, m, FinishComplete(v)), id)
  {
    var Tagged(key, _, ifNoneMatch, listed, joined, tagged) := m.writers[v];
    var w := CompleteWrite(h, key, ifNoneMatch, id, joined, tagged, listed);
    assert w in Next(h, m, FinishComplete(v)).history;
  }

  // ----- an aborted upload -----

  /** The upload was opened and dropped without having been published. */
  ghost predicate Aborted(m: Machine, id: string) {
    id in m.ids && id !in m.store.uploads && !Completed(m, id)
  }

  lemma StepKeepsAborted(h: Hashes, m: Machine, step: Step, id: string)
    requires Aborted(m, id)
    ensures Aborted(Next(h, m, step), id)
  {
  }

  /** Once aborted, an upload is never published: neither by a completion under way at the abort nor by a later one. */
  lemma {:induction false} AbortedNeverCompletes(h: Hashes, steps: seq<Step>, later: seq<Step>, id: string)
    requires Aborted(Run(h, steps), id)
    ensures Aborted(Run(h, steps + later), id)
    decreases |later|
  {
    if later == [] {
      assert steps + later == steps;
    } else {
      var front, last := later[..|later| - 1], later[|later| - 1];
      AbortedNeverCompletes(h, steps, front, id);
      assert steps + later == (steps + front) + [last];
      RunSnoc(h, steps + front, last);
      StepKeepsAborted(h, Run(h, steps + front), last, id);
    }
  }

  /** An accepted abort aborts the upload. */
  lemma AbortAborts(h: Hashes, steps: seq<Step>, key: Key, id: string)
    requires FindUpload(Run(h, steps).store, true, key, id).None?
    ensures Aborted(Run(h, steps + [AbortUpload(key, id)]), id)
  {
    RunSnoc(h, steps, AbortUpload(key, id));
    RunKeepsInv(h, steps);
    RunKeepsCompletedGone(h, steps);
  }

  /** A request to create the object only if it is absent has joined its part, and then a put of the same key commits. */
  function StuckBegins(h: Hashes, key: Key, part: Bytes, body: Bytes): seq<Step> {
    OneListed(h, key, part, Some("*")) + [JoinParts(0)] + [StartPut(1, PlainPut(key), body)] + [FinishPut(1)]
  }

  function PlainPut(key: Key): PutRequest {
    PutRequest(key, None, None, None, None, None, {})
  }

  lemma StuckJoins(h: Hashes, key: Key, part: Bytes)
    requires ValidKey(key)
    ensures Run(h, OneListed(h, key, part, Some("*")) + [JoinParts(0)]) ==
            Machine(EMPTY.(uploads := map["u" := Upload(key, [part], true)]),
                    map[0 := Joined(key, "u", Some("*"), Wanted(h, [part]), [part])], [], {"u"})
  {
    OneListedRuns(h, key, part, Some("*"));
    RunSnoc(h, OneListed(h, key, part, Some("*")), JoinParts(0));
  }

  lemma StuckBeginning(h: Hashes, key: Key, part: Bytes, body: Bytes)
    requires ValidKey(key)
    ensures var m := Run(h, StuckBegins(h, key, part, body));
      && m.store.uploads == map["u" := Upload(key, [part], true)] && m.store.objects == map[key := body]
      && m.writers == map[0 := Joined(key, "u", Some("*"), Wanted(h, [part]), [part])]
  {
    var joined := OneListed(h, key, part, Some("*")) + [JoinParts(0)];
    var put := StartPut(1, PlainPut(key), body);
    StuckJoins(h, key, part);
    RunSnoc(h, joined, put);
    RunSnoc(h, joined + [put], FinishPut(1));
    var m := Run(h, joined);
    assert Run(h, joined + [put]) == m.(writers := m.writers[1 := Streaming(PlainPut(key), body)]);
    assert m.writers[1 := Streaming(PlainPut(key), body)] - {1} == m.writers;
  }

  /** How the state of AssembledNeverCompletes comes about: the completion is refused at its second check, its upload stays
      with its joined file, and no completion is under way any more. */
  lemma StuckUploadReached(h: Hashes, key: Key, part: Bytes, body: Bytes)
    requires ValidKey(key)
    ensures var m := Run(h, StuckBegins(h, key, part, body) + [ComputeTag(0)] + [FinishComplete(0)]);
      && "u" in m.store.uploads && m.store.uploads["u"] == Upload(key, [part], true) && !InFlight(m, "u")
      && !SomeCanCommit(m, "u") && key in m.store.objects && m.store.objects[key] == body
  {
    var begun := StuckBegins(h, key, part, body);
    StuckBeginning(h, key, part, body);
    RunSnoc(h, begun, ComputeTag(0));
    RunSnoc(h, begun + [ComputeTag(0)], FinishComplete(0));
    var m := Run(h, begun + [ComputeTag(0)]);
    assert m.writers == map[0 := Tagged(key, "u", Some("*"), Wanted(h, [part]), [part], [part])];
  }

  // ----- the class is the uninterrupted schedule -----

  /** The first checks: a put or a completion gets under way exactly if its request is well formed and its conditions hold
      of the store it finds, and it changes nothing yet. */
  lemma FirstChecks(h: Hashes, m: Machine, w: WriterId, req: PutRequest, body: Bytes, key: Key, id: string, listed: PartList,
                    cond: Option<string>)
    requires w !in m.writers
    ensures var after := Next(h, m, StartPut(w, req, body));
      if PutShape(true, req).None? && (req.ifNoneMatch in {None, Some("*")})
         && ConditionsHold(m.store, req.key, req.ifMatch, req.ifNoneMatch)
      then after == m.(writers := m.writers[w := Streaming(req, body)]) else after == m
    ensures var after := Next(h, m, StartComplete(w, key, id, listed, cond));
      if ValidKey(key) && id in m.store.uploads && m.store.uploads[id].key == key && m.store.uploads[id].parts != []
         && listed == Wanted(h, m.store.uploads[id].parts) && (cond in {None, Some("*")}) && ConditionsHold(m.store, key, None, cond)
      then after == m.(writers := m.writers[w := Listed(key, id, cond, listed)]) else after == m
  {
  }

  /** The steps on uploads, over the call's own arguments: a new identity opens an empty upload; a part is appended, and an
      abort drops the upload, exactly when it is there under this key. No object changes. */
  lemma UploadSteps(h: Hashes, m: Machine, key: Key, id: string, body: Bytes)
    ensures Next(h, m, CreateUpload(key, id)).store.uploads ==
      if ValidKey(key) && id !in m.ids then m.store.uploads[id := Upload(key, [], false)] else m.store.uploads
    ensures var mine := ValidKey(key) && id in m.store.uploads && m.store.uploads[id].key == key;
      && Next(h, m, AddPart(key, id, body)).store.uploads ==
         (if mine then m.store.uploads[id := m.store.uploads[id].(parts := m.store.uploads[id].parts + [body])]
          else m.store.uploads)
      && Next(h, m, AbortUpload(key, id)).store.uploads == (if mine then m.store.uploads - {id} else m.store.uploads)
    ensures forall step :: step in {CreateUpload(key, id), AddPart(key, id, body), AbortUpload(key, id)} ==>
      SameObjects(Next(h, m, step).store, m.store) && Next(h, m, step).history == m.history
  {
  }

  /** put_object run without interference is its two sections back to back. */
  lemma UninterruptedPut(h: Hashes, m: Machine, w: WriterId, req: PutRequest, body: Bytes)
    requires w !in m.writers
    ensures var after := Next(h, Next(h, m, StartPut(w, req, body)), FinishPut(w));
      && after.writers == m.writers
      && match PutOutcome(h, m.store, true, req, body)
         case Ok(st) => after.store == st && after.history == m.history + [PutWrite(h, req, body)]
         case Err(_) => after.store == m.store && after.history == m.history
  {
    assert m.writers - {w} == m.writers;
    assert m.writers[w := Streaming(req, body)] - {w} == m.writers;
  }

  /** complete_multipart_upload run without interference is its four sections back to back. */
  lemma UninterruptedCompletion(h: Hashes, m: Machine, w: WriterId, key: Key, id: string, listed: seq<(int, Tag)>,
                                ifNoneMatch: Option<string>)
    requires w !in m.writers
    ensures var m1 := Next(h, m, StartComplete(w, key, id, listed, ifNoneMatch));
      var after := Next(h, Next(h, Next(h, m1, JoinParts(w)), ComputeTag(w)), FinishComplete(w));
      && after.writers == m.writers
      && after.store == CompleteOutcome(h, m.store, true, key, id, listed, ifNoneMatch).0
  {
    assert m.writers - {w} == m.writers;
    if CompleteShape(h, m.store, true, key, id, listed, ifNoneMatch).None? {
      var parts := m.store.uploads[id].parts;
      var m1 := Next(h, m, StartComplete(w, key, id, listed, ifNoneMatch));
      assert m1 == Enter(m, w, Listed(key, id, ifNoneMatch, listed));
      var m2 := Next(h, m1, JoinParts(w));
      if m.store.uploads[id].assembled {
        assert m2.writers == m.writers;
      } else {
        var marked := m.(store := MarkAssembled(m.store, id));
        assert m2.store == marked.store && m2.writers == m.writers[w := m2.writers[w]];
        var m3 := Next(h, m2, ComputeTag(w));
        assert m3.writers[w] == Tagged(key, id, ifNoneMatch, listed, parts, parts);
        assert Leave(m3, w).writers == m.writers;
      }
    }
  }
}
