/** The private S3-like store of scripts/qualification_store.py: atomic meaning of its operations, and the class. */
module ObjectStore {
  import opened Basics
  import opened Sorting

  type Bytes = seq<Byte>
  type Key = string

  const PAGE: nat := 1000

  /** The digests the store computes; sha256 is rendered in base64, md5 as 16 bytes (hex in an ETag, base64 in a header). */
  datatype Hashes = Hashes(md5: Bytes -> Bytes, md5Base64: Bytes -> string, sha256Base64: Bytes -> string)

  /** An ETag's text: a quoted md5, a quoted md5 with a part count, or any other text a caller may send. */
  datatype Tag = Single(digest: Bytes) | Multi(digest: Bytes, count: nat) | Other(text: string)

  datatype Refusal =
    | BadPath | BadOptions | BadCondition | BadMode | PreconditionFailed | InvalidRequest | BadDigest | NoSuchKey
    | NotImplemented | UnknownUpload | OtherObjectsUpload | PartOutOfOrder | CompletionDiffers
    | AlreadyAssembled | PathOccupied

  /** `assembled` says that the upload's directory already holds its joined file. */
  datatype Upload = Upload(key: Key, parts: seq<Bytes>, assembled: bool)

  datatype Store = Store(objects: map<Key, Bytes>, tags: map<Key, Tag>, checksums: map<Key, string>,
                         uploads: map<string, Upload>)

  const EMPTY := Store(map[], map[], map[], map[])

  // ----- keys -----

  /** key.split('/') */
  function Split(key: string): (r: seq<string>)
    ensures |r| > 0
  {
    if key == "" then [""]
    else
      var rest := Split(key[1..]);
      if key[0] == '/' then [""] + rest else [[key[0]] + rest[0]] + rest[1..]
  }

  /** DiskStore.path: the exact bucket and a relative key without empty, '.' or '..' segments. */
  predicate ValidKey(key: string) {
    key != "" && key[0] != '/' && forall part :: part in Split(key) ==> part != "" && part != "." && part != ".."
  }

  /** One key lies below the other as if it were a directory, so both cannot be files on disk. */
  predicate Below(key: Key, directory: Key) {
    directory + "/" <= key
  }

  predicate Occupied(keys: set<Key>, key: Key) {
    exists other :: other in keys && (Below(key, other) || Below(other, key))
  }

  /** '/'.join(parts) */
  function Slashed(parts: seq<string>): string {
    if parts == [] then "" else if |parts| == 1 then parts[0] else parts[0] + "/" + Slashed(parts[1..])
  }

  lemma {:induction false} SplitRejoins(key: string)
    ensures Slashed(Split(key)) == key
    ensures forall part :: part in Split(key) ==> '/' !in part
  {
    if key != "" {
      var rest := Split(key[1..]);
      SplitRejoins(key[1..]);
      assert key == [key[0]] + key[1..];
      assert rest == [rest[0]] + rest[1..];
      if key[0] == '/' {
        assert ([""] + rest)[1..] == rest;
      } else {
        assert ([[key[0]] + rest[0]] + rest[1..])[1..] == rest[1..];
      }
    }
  }

  lemma {:induction false} SplitPiece(piece: string, rest: string)
    requires '/' !in piece
    ensures Split(piece + "/" + rest) == [piece] + Split(rest)
    ensures Split(piece) == [piece]
  {
    var key := piece + "/" + rest;
    if piece == "" {
      assert key[1..] == rest;
    } else {
      SplitPiece(piece[1..], rest);
      assert key[1..] == piece[1..] + "/" + rest && key[0] == piece[0] && piece == [piece[0]] + piece[1..];
      assert piece[0] in piece;
    }
  }

  /** Splitting gives back the parts that were joined, and joining the key that was split. */
  lemma {:induction false} SplitInverts(parts: seq<string>)
    requires parts != [] && forall part :: part in parts ==> '/' !in part
    ensures Split(Slashed(parts)) == parts
  {
    if |parts| == 1 {
      SplitPiece(parts[0], "");
    } else {
      SplitInverts(parts[1..]);
      SplitPiece(parts[0], Slashed(parts[1..]));
      assert parts == [parts[0]] + parts[1..];
    }
  }

  /** A part that can be a file's name below its directory. */
  predicate PlainPart(part: string) {
    part != "" && part != "." && part != ".." && '/' !in part
  }

  /** The accepted keys are the relative paths of plain parts, and nothing else. */
  lemma ValidKeyMeaning(key: string)
    ensures ValidKey(key) <==> exists parts: seq<string> :: parts != [] && Plain(parts) && Slashed(parts) == key
  {
    SplitRejoins(key);
    if ValidKey(key) {
      assert Plain(Split(key));
    }
    if parts: seq<string> :| parts != [] && Plain(parts) && Slashed(parts) == key {
      SplitInverts(parts);
      assert parts[0] in parts && key[0] == parts[0][0] && parts[0][0] in parts[0];
    }
  }

  predicate Plain(parts: seq<string>) {
    forall part :: part in parts ==> PlainPart(part)
  }

  // ----- the atomic meaning of a write -----

  /** How a write's bytes and tag came about: from upload `id`, the parts joined, the parts the tag was computed from, and
      the list the caller asked to complete, whose length the tag carries. */
  datatype Origin = FromPut | FromParts(id: string, joined: seq<Bytes>, tagged: seq<Bytes>, listed: seq<(int, Tag)>)

  datatype Write = Write(key: Key, ifMatch: Option<Tag>, ifNoneMatch: Option<string>, body: Bytes, tag: Tag,
                         checksum: Option<string>, origin: Origin)

  /** _condition */
  function Condition(st: Store, key: Key, ifMatch: Option<Tag>, ifNoneMatch: Option<string>): Option<Refusal> {
    if ifNoneMatch.Some? && ifNoneMatch.value != "*" then Some(BadCondition)
    else if (ifNoneMatch.Some? && key in st.objects)
         || (ifMatch.Some? && (key !in st.tags || st.tags[key] != ifMatch.value)) then Some(PreconditionFailed)
    else None
  }

  function Place(st: Store, w: Write): Store {
    st.(objects := st.objects[w.key := w.body],
        tags := st.tags[w.key := w.tag],
        checksums := if w.checksum.Some? then st.checksums[w.key := w.checksum.value] else st.checksums - {w.key})
  }

  /** The section under the lock: the second check, then the replacement. */
  function Commit(st: Store, w: Write): Result<Store, Refusal> {
    match Condition(st, w.key, w.ifMatch, w.ifNoneMatch)
    case Some(refusal) => Err(refusal)
    case None => if Occupied(st.objects.Keys, w.key) then Err(PathOccupied) else Ok(Place(st, w))
  }

  // ----- tags and checksums -----

  function JoinDigests(h: Hashes, parts: seq<Bytes>): Bytes {
    if parts == [] then [] else JoinDigests(h, parts[..|parts| - 1]) + h.md5(parts[|parts| - 1])
  }

  function PartsTag(h: Hashes, parts: seq<Bytes>, count: nat): Tag {
    Multi(h.md5(JoinDigests(h, parts)), count)
  }

  /** The tag a reader may recompute from the object: the md5 of the bytes, or the multipart formula over its parts. */
  ghost predicate TagOf(h: Hashes, tag: Tag, body: Bytes) {
    tag == Single(h.md5(body)) || exists parts :: parts != [] && IsMultipart(h, tag, body, parts)
  }

  ghost predicate IsMultipart(h: Hashes, tag: Tag, body: Bytes, parts: seq<Bytes>) {
    body == Flatten(parts) && tag == PartsTag(h, parts, |parts|)
  }

  ghost predicate TagFits(h: Hashes, w: Write) {
    match w.origin
    case FromPut => w.tag == Single(h.md5(w.body))
    case FromParts(_, joined, _, _) => joined != [] && IsMultipart(h, w.tag, w.body, joined)
  }

  ghost predicate ChecksumFits(h: Hashes, w: Write) {
    w.checksum.Some? ==> w.checksum.value == h.sha256Base64(w.body)
  }

  /** What every reachable state keeps. */
  ghost predicate Consistent(h: Hashes, st: Store) {
    && st.objects.Keys == st.tags.Keys
    && st.checksums.Keys <= st.objects.Keys
    && (forall k :: k in st.objects ==> ValidKey(k) && TagOf(h, st.tags[k], st.objects[k]))
    && (forall k :: k in st.checksums ==> st.checksums[k] == h.sha256Base64(st.objects[k]))
    && (forall k, other :: k in st.objects && other in st.objects ==> !Below(k, other))
    && (forall id :: id in st.uploads ==> ValidKey(st.uploads[id].key))
  }

  lemma CommitKeepsConsistent(h: Hashes, st: Store, w: Write)
    requires Consistent(h, st) && ValidKey(w.key) && TagFits(h, w) && ChecksumFits(h, w)
    requires Commit(st, w).Ok?
    ensures Consistent(h, Commit(st, w).value)
  {
    var after := Commit(st, w).value;
    assert TagOf(h, w.tag, w.body);
    forall k, other | k in after.objects && other in after.objects
      ensures !Below(k, other)
    {
      if k == w.key && other == w.key {
        assert |w.key + "/"| > |w.key|;
      }
    }
  }

  /** The bytes of a put: one whole value, or reads up to the first empty one. */
  datatype Body = Whole(bytes: Bytes) | Chunks(chunks: seq<Bytes>)

  function Received(body: Body): Bytes {
    match body
    case Whole(bytes) => bytes
    case Chunks(chunks) => UntilEmpty(chunks)
  }

  function UntilEmpty(chunks: seq<Bytes>): Bytes {
    if chunks == [] || chunks[0] == [] then [] else chunks[0] + UntilEmpty(chunks[1..])
  }

  lemma UntilEmptyNext(bytes: Bytes, chunks: seq<Bytes>, i: nat)
    requires i < |chunks| && chunks[i] != []
    ensures bytes + UntilEmpty(chunks[i..]) == bytes + chunks[i] + UntilEmpty(chunks[i + 1..])
  {
    assert chunks[i..][1..] == chunks[i + 1..];
    Regroup(bytes, chunks[i], UntilEmpty(chunks[i + 1..]));
  }

  /** The headers of put_object. */
  datatype PutRequest = PutRequest(key: Key, ifMatch: Option<Tag>, ifNoneMatch: Option<string>, md5: Option<string>,
                                   length: Option<nat>, sha256: Option<string>, options: set<string>)

  const ALLOWED_OPTIONS: set<string> := {"ContentType", "CacheControl"}

  /** The checks put_object makes before it looks at the store. */
  function PutShape(bucketMatches: bool, req: PutRequest): Option<Refusal> {
    if !bucketMatches || !ValidKey(req.key) then Some(BadPath)
    else if !(req.options <= ALLOWED_OPTIONS) then Some(BadOptions)
    else if req.md5.Some? && req.sha256.Some? then Some(InvalidRequest)
    else None
  }

  predicate BodyDiffers(h: Hashes, req: PutRequest, body: Bytes) {
    || (req.md5.Some? && h.md5Base64(body) != req.md5.value)
    || (req.sha256.Some? && h.sha256Base64(body) != req.sha256.value)
    || (req.length.Some? && req.length.value != |body|)
  }

  function PutWrite(h: Hashes, req: PutRequest, body: Bytes): Write {
    Write(req.key, req.ifMatch, req.ifNoneMatch, body, Single(h.md5(body)), req.sha256, FromPut)
  }

  /** put_object without interference: refusals in the source's order, then the commit. */
  function PutOutcome(h: Hashes, st: Store, bucketMatches: bool, req: PutRequest, body: Bytes): Result<Store, Refusal> {
    match PutShape(bucketMatches, req)
    case Some(refusal) => Err(refusal)
    case None =>
      match Condition(st, req.key, req.ifMatch, req.ifNoneMatch)
      case Some(refusal) => Err(refusal)
      case None => if BodyDiffers(h, req, body) then Err(BadDigest) else Commit(st, PutWrite(h, req, body))
  }

  /** No stored key is a directory of this one, nor the other way round. */
  ghost predicate PathFree(st: Store, key: Key) {
    forall other :: other in st.objects ==> !(other + "/" <= key) && !(key + "/" <= other)
  }

  /** If-None-Match asks that there be no object, If-Match that there be one under this very tag. */
  predicate ConditionsHold(st: Store, key: Key, ifMatch: Option<Tag>, ifNoneMatch: Option<string>) {
    (ifNoneMatch.Some? ==> key !in st.objects) && (ifMatch.Some? ==> key in st.tags && st.tags[key] == ifMatch.value)
  }

  predicate DigestsRight(h: Hashes, req: PutRequest, body: Bytes) {
    && (req.md5.Some? ==> req.md5.value == h.md5Base64(body))
    && (req.sha256.Some? ==> req.sha256.value == h.sha256Base64(body))
    && (req.length.Some? ==> req.length.value == |body|)
  }

  /** A put is accepted exactly when nothing is wrong with it, and then stores the body under its own digests and nothing
      else; otherwise the first thing wrong, in this order, is what it reports. */
  lemma PutMeaning(h: Hashes, st: Store, bucketMatches: bool, req: PutRequest, body: Bytes)
    ensures PutOutcome(h, st, bucketMatches, req, body) ==
      if !bucketMatches || !ValidKey(req.key) then Err(BadPath)
      else if exists option :: option in req.options && option != "ContentType" && option != "CacheControl" then Err(BadOptions)
      else if req.md5.Some? && req.sha256.Some? then Err(InvalidRequest)
      else if req.ifNoneMatch.Some? && req.ifNoneMatch != Some("*") then Err(BadCondition)
      else if !ConditionsHold(st, req.key, req.ifMatch, req.ifNoneMatch) then Err(PreconditionFailed)
      else if !DigestsRight(h, req, body) then Err(BadDigest)
      else if !PathFree(st, req.key) then Err(PathOccupied)
      else Ok(Store(st.objects[req.key := body], st.tags[req.key := Single(h.md5(body))],
                    if req.sha256.Some? then st.checksums[req.key := h.sha256Base64(body)] else st.checksums - {req.key},
                    st.uploads))
  {
    PathFreeIff(st, req.key);
  }

  lemma PathFreeIff(st: Store, key: Key)
    ensures PathFree(st, key) <==> !Occupied(st.objects.Keys, key)
  {
    if other :| other in st.objects && (other + "/" <= key || key + "/" <= other) {
      assert other in st.objects.Keys && (Below(key, other) || Below(other, key));
    }
  }

  /** The numbered part list a completion must repeat exactly. */
  function Wanted(h: Hashes, parts: seq<Bytes>): seq<(int, Tag)> {
    seq(|parts|, i requires 0 <= i < |parts| => (i + 1, Single(h.md5(parts[i]))))
  }

  /** _upload */
  function FindUpload(st: Store, bucketMatches: bool, key: Key, id: string): Option<Refusal> {
    if !bucketMatches || !ValidKey(key) then Some(BadPath)
    else if id !in st.uploads then Some(UnknownUpload)
    else if st.uploads[id].key != key then Some(OtherObjectsUpload)
    else None
  }

  function CompleteShape(h: Hashes, st: Store, bucketMatches: bool, key: Key, id: string, listed: seq<(int, Tag)>,
                         ifNoneMatch: Option<string>): Option<Refusal> {
    match FindUpload(st, bucketMatches, key, id)
    case Some(refusal) => Some(refusal)
    case None =>
      if st.uploads[id].parts == [] || listed != Wanted(h, st.uploads[id].parts) then Some(CompletionDiffers)
      else Condition(st, key, None, ifNoneMatch)
  }

  function CompleteWrite(h: Hashes, key: Key, ifNoneMatch: Option<string>, id: string, joined: seq<Bytes>,
                         tagged: seq<Bytes>, listed: seq<(int, Tag)>): Write {
    Write(key, None, ifNoneMatch, Flatten(joined), PartsTag(h, tagged, |listed|), None,
          FromParts(id, joined, tagged, listed))
  }

  function MarkAssembled(st: Store, id: string): Store
    requires id in st.uploads
  {
    st.(uploads := st.uploads[id := st.uploads[id].(assembled := true)])
  }

  function DropUpload(st: Store, id: string): Store {
    st.(uploads := st.uploads - {id})
  }

  lemma MarkKeepsConsistent(h: Hashes, st: Store, id: string)
    requires Consistent(h, st) && id in st.uploads
    ensures Consistent(h, MarkAssembled(st, id))
  {
  }

  lemma DropKeepsConsistent(h: Hashes, st: Store, id: string)
    requires Consistent(h, st)
    ensures Consistent(h, DropUpload(st, id))
  {
  }

  /** complete_multipart_upload without interference. A refusal after the joined file was written keeps that file. */
  function CompleteOutcome(h: Hashes, st: Store, bucketMatches: bool, key: Key, id: string, listed: seq<(int, Tag)>,
                           ifNoneMatch: Option<string>): (Store, Result<Tag, Refusal>)
  {
    match CompleteShape(h, st, bucketMatches, key, id, listed, ifNoneMatch)
    case Some(refusal) => (st, Err(refusal))
    case None =>
      var parts := st.uploads[id].parts;
      if st.uploads[id].assembled then (st, Err(AlreadyAssembled))
      else
        var w := CompleteWrite(h, key, ifNoneMatch, id, parts, parts, listed);
        match Commit(MarkAssembled(st, id), w)
        case Err(refusal) => (MarkAssembled(st, id), Err(refusal))
        case Ok(after) => (DropUpload(after, id), Ok(w.tag))
  }

  /** A completed object is its own upload's parts 1..n joined, under the multipart tag; every other object, tag,
      checksum and upload is as before. A refused completion touches no object, tag or checksum. */
  lemma CompletionIsOwnParts(h: Hashes, st: Store, key: Key, id: string, listed: seq<(int, Tag)>, ifNoneMatch: Option<string>)
    ensures var (after, r) := CompleteOutcome(h, st, true, key, id, listed, ifNoneMatch);
      if r.Ok? then
        && id in st.uploads && st.uploads[id].key == key && listed == Wanted(h, st.uploads[id].parts)
        && after.objects == st.objects[key := Flatten(st.uploads[id].parts)]
        && after.tags == st.tags[key := PartsTag(h, st.uploads[id].parts, |st.uploads[id].parts|)]
        && after.checksums == st.checksums - {key} && after.uploads == st.uploads - {id}
        && (ifNoneMatch.Some? ==> key !in st.objects)
      else after.objects == st.objects && after.tags == st.tags && after.checksums == st.checksums
  {
    if CompleteShape(h, st, true, key, id, listed, ifNoneMatch).None? && !st.uploads[id].assembled {
      var marked := MarkAssembled(st, id);
      assert marked.uploads - {id} == st.uploads - {id};
    }
  }

  /** When a completion succeeds: the call names an upload of this key with exactly its parts, the condition holds, no
      earlier completion left its joined file behind, and no other object stands in the way on disk. Any refusal after the
      joining leaves that file, and StoreInterleavings.AssembledNeverCompletes says what that means for good. */
  lemma CompletionAcceptedIff(h: Hashes, st: Store, bucketMatches: bool, key: Key, id: string, listed: seq<(int, Tag)>,
                              ifNoneMatch: Option<string>)
    ensures CompleteOutcome(h, st, bucketMatches, key, id, listed, ifNoneMatch).1.Ok? <==>
      && bucketMatches && ValidKey(key) && id in st.uploads && st.uploads[id].key == key
      && st.uploads[id].parts != [] && |listed| == |st.uploads[id].parts|
      && (forall i :: 0 <= i < |listed| ==> listed[i] == (i + 1, Single(h.md5(st.uploads[id].parts[i]))))
      && (ifNoneMatch == None || (ifNoneMatch == Some("*") && key !in st.objects))
      && !st.uploads[id].assembled && PathFree(st, key)
  {
    CompletesIff(h, st, bucketMatches, key, id, listed, ifNoneMatch);
    PathFreeIff(st, key);
  }

  lemma CompletesIff(h: Hashes, st: Store, bucketMatches: bool, key: Key, id: string, listed: seq<(int, Tag)>,
                     ifNoneMatch: Option<string>)
    ensures var (after, r) := CompleteOutcome(h, st, bucketMatches, key, id, listed, ifNoneMatch);
      && (r.Ok? <==> CompleteShape(h, st, bucketMatches, key, id, listed, ifNoneMatch).None? && !st.uploads[id].assembled
                     && !Occupied(st.objects.Keys, key))
      && (r.Err? && id in after.uploads ==>
            (after.uploads[id].assembled <==> st.uploads[id].assembled || r.error.PathOccupied?))
  {
  }

  // ----- the class -----

  datatype Call = GetObject(key: Key) | PutObject(key: Key, bytes: nat) | UploadPart(key: Key, bytes: nat)
  datatype Head = Head(length: nat, tag: Tag, checksum: Option<string>)
  datatype Entry = Entry(key: Key, size: nat)

  /** One operation at a time; StoreInterleavings takes the same sections apart. */
  class DiskStore {
    const h: Hashes
    var objects: map<Key, Bytes>
    var tags: map<Key, Tag>
    var checksums: map<Key, string>
    var uploads: map<string, Upload>
    var calls: seq<Call>

    function State(): Store
      reads this
    {
      Store(objects, tags, checksums, uploads)
    }

    ghost predicate Valid()
      reads this
    {
      Consistent(h, State())
    }

    constructor (h: Hashes)
      ensures Valid() && State() == EMPTY && calls == [] && this.h == h
    {
      this.h := h;
      objects, tags, checksums, uploads, calls := map[], map[], map[], map[], [];
    }

    method HeadObject(bucketMatches: bool, key: Key, mode: Option<string>) returns (r: Result<Head, Refusal>)
      requires Valid()
      ensures r == Err(BadPath) <==> !bucketMatches || !ValidKey(key)
      ensures r == Err(BadMode) <==> bucketMatches && ValidKey(key) && mode != None && mode != Some("ENABLED")
      ensures r.Ok? <==> bucketMatches && key in objects && (mode == None || mode == Some("ENABLED"))
      ensures r.Err? ==> r.error in {BadPath, BadMode, NoSuchKey}
      ensures r.Ok? ==> r.value.length == |objects[key]| && r.value.tag == tags[key] && TagOf(h, r.value.tag, objects[key])
      ensures r.Ok? ==> (r.value.checksum.Some? <==> mode.Some? && key in checksums)
      ensures r.Ok? && r.value.checksum.Some? ==> r.value.checksum.value == h.sha256Base64(objects[key])
    {
      if !bucketMatches || !ValidKey(key) {
        return Err(BadPath);
      }
      if mode.Some? && mode.value != "ENABLED" {
        return Err(BadMode);
      }
      if key !in objects {
        return Err(NoSuchKey);
      }
      var checksum := if mode.Some? && key in checksums then Some(checksums[key]) else None;
      r := Ok(Head(|objects[key]|, tags[key], checksum));
    }

    method GetObject(bucketMatches: bool, key: Key) returns (r: Result<(Head, Bytes), Refusal>)
      requires Valid()
      modifies this`calls
      ensures r.Ok? <==> bucketMatches && key in objects
      ensures r.Ok? ==> r.value == (Head(|objects[key]|, tags[key], None), objects[key])
      ensures r.Err? ==> r.error == if bucketMatches && ValidKey(key) then NoSuchKey else BadPath
      ensures calls == old(calls) + if r.Ok? then [Call.GetObject(key)] else []
    {
      var head := HeadObject(bucketMatches, key, None);
      if head.Err? {
        return Err(head.error);
      }
      calls := calls + [Call.GetObject(key)];
      r := Ok((head.value, objects[key]));
    }

    /** A refused put changes nothing; an accepted one is exactly its commit. */
    method PutObject(bucketMatches: bool, req: PutRequest, body: Body) returns (r: Result<Tag, Refusal>)
      requires Valid()
      modifies this
      ensures Valid()
      ensures var outcome := PutOutcome(h, old(State()), bucketMatches, req, Received(body));
              if outcome.Ok? then State() == outcome.value && r == Ok(Single(h.md5(Received(body))))
              else State() == old(State()) && r == Err(outcome.error)
      ensures calls == old(calls) + if r.Ok? then [Call.PutObject(req.key, |Received(body)|)] else []
    {
      var shape := PutShape(bucketMatches, req);
      if shape.Some? {
        return Err(shape.value);
      }
      var first := Condition(State(), req.key, req.ifMatch, req.ifNoneMatch);
      if first.Some? {
        return Err(first.value);
      }
      var bytes := Receive(body);
      if BodyDiffers(h, req, bytes) {
        return Err(BadDigest);
      }
      var w := PutWrite(h, req, bytes);
      var committed := Commit(State(), w);
      if committed.Err? {
        return Err(committed.error);
      }
      CommitKeepsConsistent(h, State(), w);
      objects, tags, checksums := committed.value.objects, committed.value.tags, committed.value.checksums;
      calls := calls + [Call.PutObject(req.key, |bytes|)];
      r := Ok(w.tag);
    }

    /** The streaming loop: reads until an empty one, or takes a whole value. */
    method Receive(body: Body) returns (bytes: Bytes)
      ensures bytes == Received(body)
    {
      if body.Whole? {
        return body.bytes;
      }
      bytes := [];
      var i := 0;
      while i < |body.chunks| && body.chunks[i] != []
        invariant 0 <= i <= |body.chunks|
        invariant UntilEmpty(body.chunks) == bytes + UntilEmpty(body.chunks[i..])
      {
        UntilEmptyNext(bytes, body.chunks, i);
        bytes := bytes + body.chunks[i];
        i := i + 1;
      }
    }

    method CreateMultipartUpload(bucketMatches: bool, key: Key, options: set<string>, fresh_id: string)
      returns (r: Result<string, Refusal>)
      requires Valid() && fresh_id !in uploads
      modifies this`uploads
      ensures Valid()
      ensures r == if !bucketMatches || !ValidKey(key) then Err(BadPath)
                   else if !(options <= ALLOWED_OPTIONS) then Err(BadOptions) else Ok(fresh_id)
      ensures uploads == if r.Ok? then old(uploads)[fresh_id := Upload(key, [], false)] else old(uploads)
    {
      if !bucketMatches || !ValidKey(key) {
        return Err(BadPath);
      }
      if !(options <= ALLOWED_OPTIONS) {
        return Err(BadOptions);
      }
      uploads := uploads[fresh_id := Upload(key, [], false)];
      r := Ok(fresh_id);
    }

    /** Parts arrive in order 1, 2, ...; nothing but this upload's part list changes. */
    method UploadPart(bucketMatches: bool, key: Key, id: string, number: int, body: Bytes, md5: string, sha256: Option<string>)
      returns (r: Result<Tag, Refusal>)
      requires Valid()
      modifies this`uploads, this`calls
      ensures Valid()
      ensures r == if sha256.Some? then Err(NotImplemented)
                   else if FindUpload(old(State()), bucketMatches, key, id).Some? then
                     Err(FindUpload(old(State()), bucketMatches, key, id).value)
                   else if number != |old(uploads)[id].parts| + 1 then Err(PartOutOfOrder)
                   else if h.md5Base64(body) != md5 then Err(BadDigest) else Ok(Single(h.md5(body)))
      ensures if r.Ok? then uploads == old(uploads)[id := old(uploads)[id].(parts := old(uploads)[id].parts + [body])]
                            && calls == old(calls) + [Call.UploadPart(key, |body|)]
              else uploads == old(uploads) && calls == old(calls)
    {
      if sha256.Some? {
        return Err(NotImplemented);
      }
      var found := FindUpload(State(), bucketMatches, key, id);
      if found.Some? {
        return Err(found.value);
      }
      var upload := uploads[id];
      if number != |upload.parts| + 1 {
        return Err(PartOutOfOrder);
      }
      if h.md5Base64(body) != md5 {
        return Err(BadDigest);
      }
      uploads := uploads[id := upload.(parts := upload.parts + [body])];
      calls := calls + [Call.UploadPart(key, |body|)];
      r := Ok(Single(h.md5(body)));
    }

    /** The new state and the answer are CompleteOutcome's; CompletionIsOwnParts says what that means. */
    method CompleteMultipartUpload(bucketMatches: bool, key: Key, id: string, listed: seq<(int, Tag)>,
                                   ifNoneMatch: Option<string>)
      returns (r: Result<Tag, Refusal>)
      requires Valid()
      modifies this`objects, this`tags, this`checksums, this`uploads
      ensures Valid()
      ensures (State(), r) == CompleteOutcome(h, old(State()), bucketMatches, key, id, listed, ifNoneMatch)
    {
      var shape := CompleteShape(h, State(), bucketMatches, key, id, listed, ifNoneMatch);
      if shape.Some? {
        return Err(shape.value);
      }
      var upload := uploads[id];
      if upload.assembled {
        return Err(AlreadyAssembled);
      }
      var joined := Join(upload.parts);
      MarkKeepsConsistent(h, State(), id);
      uploads := uploads[id := upload.(assembled := true)];
      var w := CompleteWrite(h, key, ifNoneMatch, id, upload.parts, upload.parts, listed);
      var committed := Commit(State(), w);
      if committed.Err? {
        return Err(committed.error);
      }
      CommitKeepsConsistent(h, State(), w);
      DropKeepsConsistent(h, committed.value, id);
      objects, tags, checksums := objects[key := joined], tags[key := w.tag], checksums - {key};
      uploads := uploads - {id};
      r := Ok(w.tag);
    }

    method Join(parts: seq<Bytes>) returns (joined: Bytes)
      ensures joined == Flatten(parts)
    {
      joined := [];
      for i := 0 to |parts|
        invariant joined == Flatten(parts[..i])
      {
        assert parts[..i + 1] == parts[..i] + [parts[i]];
        FlattenSnoc(parts[..i], parts[i]);
        joined := joined + parts[i];
      }
      assert parts[..|parts|] == parts;
    }

    method AbortMultipartUpload(bucketMatches: bool, key: Key, id: string) returns (r: Option<Refusal>)
      requires Valid()
      modifies this`uploads
      ensures Valid()
      ensures r == FindUpload(old(State()), bucketMatches, key, id)
      ensures uploads == if r.None? then old(uploads) - {id} else old(uploads)
    {
      r := FindUpload(State(), bucketMatches, key, id);
      if r.None? {
        uploads := uploads - {id};
      }
    }

    /** Pages of at most 1000 that join up to the sorted listing of exactly the keys with the prefix. */
    method Paginate(bucketMatches: bool, prefix: string) returns (r: Result<seq<seq<Entry>>, Refusal>)
      requires Valid()
      ensures r.Err? <==> !bucketMatches || !ValidKey(WithoutTrailingSlashes(prefix))
      ensures r.Ok? ==> Listing(Flatten(r.value), prefix)
      ensures r.Ok? ==> forall page :: page in r.value ==> 1 <= |page| <= PAGE
      ensures r.Ok? ==> forall i :: 0 <= i < |r.value| - 1 ==> |r.value[i]| == PAGE
    {
      if !bucketMatches || !ValidKey(WithoutTrailingSlashes(prefix)) {
        return Err(BadPath);
      }
      var keys := SortedKeys(set k | k in objects && prefix <= k);
      var entries := EntriesOf(keys, objects);
      assert Listing(entries, prefix) by {
        assert seq(|entries|, i requires 0 <= i < |entries| => entries[i].key) == keys;
      }
      var pages := Pages(entries);
      r := Ok(pages);
    }

    ghost predicate Listing(entries: seq<Entry>, prefix: string)
      reads this
    {
      var keys := seq(|entries|, i requires 0 <= i < |entries| => entries[i].key);
      && Sorted(keys, TextLeq) && Distinct(keys)
      && (forall k :: k in keys <==> k in objects && prefix <= k)
      && (forall e :: e in entries ==> e.key in objects && e.size == |objects[e.key]|)
    }
  }

  function EntriesOf(keys: seq<Key>, objects: map<Key, Bytes>): (r: seq<Entry>)
    requires forall k :: k in keys ==> k in objects
    ensures |r| == |keys|
    ensures forall i :: 0 <= i < |r| ==> r[i].key == keys[i] && r[i].size == |objects[keys[i]]|
  {
    seq(|keys|, i requires 0 <= i < |keys| => Entry(keys[i], |objects[keys[i]]|))
  }

  /** Prefix.rstrip('/') */
  function WithoutTrailingSlashes(s: string): string {
    if s != "" && s[|s| - 1] == '/' then WithoutTrailingSlashes(s[..|s| - 1]) else s
  }

  /** Exactly the slashes at the end are removed. */
  lemma {:induction false} WithoutTrailingSlashesMeaning(s: string)
    ensures var r := WithoutTrailingSlashes(s);
      && r <= s && (forall i :: |r| <= i < |s| ==> s[i] == '/') && (r != "" ==> r[|r| - 1] != '/')
  {
    if s != "" && s[|s| - 1] == '/' {
      WithoutTrailingSlashesMeaning(s[..|s| - 1]);
    }
  }

  method Pages(entries: seq<Entry>) returns (pages: seq<seq<Entry>>)
    ensures Flatten(pages) == entries
    ensures forall page :: page in pages ==> 1 <= |page| <= PAGE
    ensures forall i :: 0 <= i < |pages| - 1 ==> |pages[i]| == PAGE
  {
    pages := [];
    var offset := 0;
    while offset < |entries|
      invariant 0 <= offset
      invariant Flatten(pages) == entries[..Min(offset, |entries|)]
      invariant forall page :: page in pages ==> 1 <= |page| <= PAGE
      invariant forall i :: 0 <= i < |pages| ==> |pages[i]| == PAGE || (i == |pages| - 1 && offset >= |entries|)
    {
      var page := entries[offset..Min(offset + PAGE, |entries|)];
      FlattenSnoc(pages, page);
      assert entries[..Min(offset + PAGE, |entries|)] == entries[..offset] + page;
      pages := pages + [page];
      offset := offset + PAGE;
    }
    assert entries[..|entries|] == entries;
  }
}
