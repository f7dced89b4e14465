/** Length-framed column streams: scripts/capture_comments_current.py, class FieldDigests. */
module Framing {
  import opened Basics

  /** A nullable string cell. Arrow strings are valid UTF-8, so every character is a Unicode scalar value. */
  type Value = Option<string>
  type Row = seq<Value>

  const FRAME_BYTES: nat := 8
  const FRAME_LIMIT: nat := 0x1_0000_0000_0000_0000
  const BATCH_ROWS: nat := 1000

  // ----- UTF-8 (RFC 3629, section 3) -----

  /** The bytes of a scalar value: a lead byte, then six bits a byte. */
  function Utf8Char(c: char): (r: seq<Byte>)
    ensures 1 <= |r| <= 4
  {
    var v := c as int;
    var high := v / 0x40;
    var top := high / 0x40;
    if v < 0x80 then [v]
    else if v < 0x800 then [0xC0 + high, 0x80 + v % 0x40]
    else if v < 0x10000 then [0xE0 + top, 0x80 + high % 0x40, 0x80 + v % 0x40]
    else [0xF0 + top / 0x40, 0x80 + top % 0x40, 0x80 + high % 0x40, 0x80 + v % 0x40]
  }

  function Utf8(s: string): seq<Byte> {
    if s == "" then [] else Utf8Char(s[0]) + Utf8(s[1..])
  }

  /** The inverse on one encoded character. */
  function Utf8Code(b: seq<int>): int
    requires 1 <= |b| <= 4
  {
    if |b| == 1 then b[0]
    else if |b| == 2 then (b[0] - 0xC0) * 0x40 + b[1] - 0x80
    else if |b| == 3 then ((b[0] - 0xE0) * 0x40 + b[1] - 0x80) * 0x40 + b[2] - 0x80
    else (((b[0] - 0xF0) * 0x40 + b[1] - 0x80) * 0x40 + b[2] - 0x80) * 0x40 + b[3] - 0x80
  }

  lemma Utf8CharDecodes(c: char)
    ensures Utf8Code(Utf8Char(c)) == c as int
  {
  }

  /** The table of section 3 of RFC 3629: which lead bytes there are, how many bytes follow each, and which second bytes
      keep every encoding the shortest and off the surrogates. */
  lemma Utf8WellFormed(c: char)
    ensures var b := Utf8Char(c);
      && (forall i :: 1 <= i < |b| ==> 0x80 <= b[i] <= 0xBF)
      && (|b| == 1 <==> b[0] <= 0x7F) && (|b| == 2 <==> 0xC2 <= b[0] <= 0xDF)
      && (|b| == 3 <==> 0xE0 <= b[0] <= 0xEF) && (|b| == 4 <==> 0xF0 <= b[0] <= 0xF4)
      && (b[0] == 0xE0 ==> b[1] >= 0xA0) && (b[0] == 0xED ==> b[1] <= 0x9F)
      && (b[0] == 0xF0 ==> b[1] >= 0x90) && (b[0] == 0xF4 ==> b[1] <= 0x8F)
  {
  }

  /** The lead byte tells how many bytes follow. */
  lemma Utf8LeadTellsLength(c: char, d: char)
    requires Utf8Char(c)[0] == Utf8Char(d)[0]
    ensures |Utf8Char(c)| == |Utf8Char(d)|
  {
  }

  /** Two encodings that start alike start with the same character. */
  lemma Utf8CharPrefix(c: char, d: char, x: seq<Byte>, y: seq<Byte>)
    requires Utf8Char(c) + x == Utf8Char(d) + y
    ensures c == d && x == y
  {
    Utf8LeadTellsLengthIn(c, d, x, y);
    var p, q := Utf8Char(c), Utf8Char(d);
    assert p == (p + x)[..|p|] && q == (q + y)[..|q|];
    assert x == (p + x)[|p|..] && y == (q + y)[|q|..];
    Utf8CharDecodes(c);
    Utf8CharDecodes(d);
  }

  lemma Utf8LeadTellsLengthIn(c: char, d: char, x: seq<Byte>, y: seq<Byte>)
    requires Utf8Char(c) + x == Utf8Char(d) + y
    ensures |Utf8Char(c)| == |Utf8Char(d)|
  {
    assert (Utf8Char(c) + x)[0] == Utf8Char(c)[0] && (Utf8Char(d) + y)[0] == Utf8Char(d)[0];
    Utf8LeadTellsLength(c, d);
  }

  lemma {:induction false} Utf8Injective(s: string, t: string)
    requires Utf8(s) == Utf8(t)
    ensures s == t
  {
    if s != "" && t != "" {
      Utf8CharPrefix(s[0], t[0], Utf8(s[1..]), Utf8(t[1..]));
      Utf8Injective(s[1..], t[1..]);
      assert s == [s[0]] + s[1..] && t == [t[0]] + t[1..];
    }
  }

  // ----- framing one value -----

  /** The k-th base-256 digit of n, least significant first. */
  function Digit(n: nat, k: nat): Byte {
    if k == 0 then n % 256 else Digit(n / 256, k - 1)
  }

  /** Big-endian digits of n, most significant first. */
  function BigEndian(n: nat, width: nat): (r: seq<Byte>)
    ensures |r| == width
  {
    seq(width, i requires 0 <= i < width => Digit(n, width - 1 - i))
  }

  function FromBigEndian(b: seq<Byte>): nat {
    if b == [] then 0 else FromBigEndian(b[..|b| - 1]) * 256 + b[|b| - 1]
  }

  function Power256(width: nat): nat {
    if width == 0 then 1 else 256 * Power256(width - 1)
  }

  lemma {:induction false} BigEndianRoundTrip(n: nat, width: nat)
    requires n < Power256(width)
    ensures FromBigEndian(BigEndian(n, width)) == n
  {
    if width > 0 {
      BigEndianRoundTrip(n / 256, width - 1);
      var b, high := BigEndian(n, width), BigEndian(n / 256, width - 1);
      assert forall i :: 0 <= i < width - 1 ==> b[i] == Digit(n, width - 1 - i) == high[i];
      assert b[..|b| - 1] == high;
      assert b[|b| - 1] == Digit(n, 0) == n % 256;
      assert n / 256 < Power256(width - 1);
    }
  }

  /** The eight length bytes of to_bytes(8, 'big'). */
  function LengthBytes(n: nat): (r: seq<Byte>)
    ensures |r| == FRAME_BYTES
  {
    BigEndian(n, FRAME_BYTES)
  }

  lemma LengthRoundTrip(n: nat)
    requires n < FRAME_LIMIT
    ensures FromBigEndian(LengthBytes(n)) == n
  {
    FrameLimitIsPower();
    BigEndianRoundTrip(n, FRAME_BYTES);
  }

  lemma FrameLimitIsPower()
    ensures Power256(FRAME_BYTES) == FRAME_LIMIT
  {
    assert Power256(4) == 0x1_0000_0000;
    assert Power256(8) == 256 * (256 * (256 * (256 * Power256(4))));
  }

  /** A cell after encode('utf-8'). */
  type RawValue = Option<seq<Byte>>

  function Frame(v: RawValue): seq<Byte> {
    match v
    case None => [0]
    case Some(raw) => [1] + LengthBytes(|raw|) + raw
  }

  function Frames(values: seq<RawValue>): seq<Byte> {
    if values == [] then [] else Frame(values[0]) + Frames(values[1..])
  }

  lemma {:induction false} FramesAppend(a: seq<RawValue>, b: seq<RawValue>)
    ensures Frames(a + b) == Frames(a) + Frames(b)
  {
    if a == [] {
      assert a + b == b;
    } else {
      FramesAppend(a[1..], b);
      assert (a + b)[1..] == a[1..] + b && (a + b)[0] == a[0];
      Regroup(Frame(a[0]), Frames(a[1..]), Frames(b));
    }
  }

  lemma FramesSnoc(a: seq<RawValue>, v: RawValue)
    ensures Frames(a + [v]) == Frames(a) + Frame(v)
  {
    FramesAppend(a, [v]);
    assert Frames([v]) == Frame(v) + Frames([]);
  }

  /** The source's to_bytes(8, 'big') refuses a longer value; no in-memory value reaches that size. */
  predicate Fits(v: RawValue) {
    v.Some? ==> |v.value| < FRAME_LIMIT
  }

  predicate AllFit(values: seq<RawValue>) {
    forall v :: v in values ==> Fits(v)
  }

  // ----- decoding -----

  /** Reads a stream back into null markers and byte strings; None when it is not a sequence of frames. */
  function Unframe(stream: seq<Byte>): Option<seq<RawValue>>
    decreases |stream|
  {
    if stream == [] then Some([])
    else if stream[0] == 0 then Prepend(None, Unframe(stream[1..]))
    else if stream[0] != 1 || |stream| < 1 + FRAME_BYTES then None
    else
      var n := FromBigEndian(stream[1..1 + FRAME_BYTES]);
      var body := stream[1 + FRAME_BYTES..];
      if |body| < n then None else Prepend(Some(body[..n]), Unframe(body[n..]))
  }

  function Prepend(v: RawValue, rest: Option<seq<RawValue>>): Option<seq<RawValue>> {
    match rest
    case None => None
    case Some(values) => Some([v] + values)
  }

  lemma UnframeOne(raw: seq<Byte>, rest: seq<Byte>)
    requires |raw| < FRAME_LIMIT
    ensures Unframe(Frame(Some(raw)) + rest) == Prepend(Some(raw), Unframe(rest))
  {
    var length := LengthBytes(|raw|);
    var stream := Frame(Some(raw)) + rest;
    assert stream == [1] + length + raw + rest;
    assert stream[1..1 + FRAME_BYTES] == length;
    var body := stream[1 + FRAME_BYTES..];
    assert body == raw + rest;
    LengthRoundTrip(|raw|);
    assert body[..|raw|] == raw && body[|raw|..] == rest;
  }

  /** Every column stream decodes to exactly the values that were framed. */
  lemma {:induction false} StreamDecodes(values: seq<RawValue>)
    requires AllFit(values)
    ensures Unframe(Frames(values)) == Some(values)
  {
    if values != [] {
      var rest := values[1..];
      assert Fits(values[0]) && AllFit(rest);
      StreamDecodes(rest);
      assert values == [values[0]] + rest;
      match values[0] {
        case None =>
          assert Frames(values)[1..] == Frames(rest);
        case Some(raw) =>
          UnframeOne(raw, Frames(rest));
      }
    }
  }

  function Raw(v: Value): RawValue {
    match v
    case None => None
    case Some(s) => Some(Utf8(s))
  }

  function Raws(values: seq<Value>): (r: seq<RawValue>)
    ensures |r| == |values|
  {
    seq(|values|, i requires 0 <= i < |values| => Raw(values[i]))
  }

  lemma RawsInjective(a: seq<Value>, b: seq<Value>)
    requires Raws(a) == Raws(b)
    ensures a == b
  {
    assert |a| == |Raws(a)| == |Raws(b)| == |b|;
    forall i | 0 <= i < |a|
      ensures a[i] == b[i]
    {
      assert Raws(a)[i] == Raw(a[i]) && Raws(b)[i] == Raw(b[i]);
      if a[i].Some? && b[i].Some? {
        Utf8Injective(a[i].value, b[i].value);
      }
    }
  }

  lemma RawsAppend(a: seq<Value>, b: seq<Value>)
    ensures Raws(a + b) == Raws(a) + Raws(b)
  {
    assert forall i :: 0 <= i < |a| ==> (a + b)[i] == a[i];
    assert forall i :: 0 <= i < |b| ==> (a + b)[|a| + i] == b[i];
  }

  /** What a column's hash is fed: the frames of its UTF-8 encoded values. */
  function Stream(values: seq<Value>): seq<Byte> {
    Frames(Raws(values))
  }

  predicate ValuesFit(values: seq<Value>) {
    forall v :: v in values ==> Fits(Raw(v))
  }

  lemma StreamAppend(a: seq<Value>, b: seq<Value>)
    ensures Stream(a + b) == Stream(a) + Stream(b)
  {
    RawsAppend(a, b);
    FramesAppend(Raws(a), Raws(b));
  }

  lemma StreamSnoc(a: seq<Value>, v: Value)
    ensures Stream(a + [v]) == Stream(a) + Frame(Raw(v))
  {
    RawsAppend(a, [v]);
    assert Raws([v]) == [Raw(v)];
    FramesSnoc(Raws(a), Raw(v));
  }

  /** The stream says nulls, lengths, order and repeats apart: equal streams are equal columns. */
  lemma StreamIdentifiesColumn(a: seq<Value>, b: seq<Value>)
    requires ValuesFit(a) && ValuesFit(b)
    ensures Stream(a) == Stream(b) <==> a == b
  {
    if Stream(a) == Stream(b) {
      StreamDecodes(Raws(a));
      StreamDecodes(Raws(b));
      RawsInjective(a, b);
    }
  }

  // ----- tables -----

  /** Arrow batch: a column count and rows of that width. */
  datatype Batch = Batch(width: nat, rows: seq<Row>)

  predicate Rectangular(rows: seq<Row>, width: nat) {
    forall row :: row in rows ==> |row| == width
  }

  predicate WellFormed(batch: Batch) {
    Rectangular(batch.rows, batch.width)
  }

  function Column(rows: seq<Row>, width: nat, c: nat): (r: seq<Value>)
    requires Rectangular(rows, width) && c < width
    ensures |r| == |rows|
  {
    seq(|rows|, i requires 0 <= i < |rows| => rows[i][c])
  }

  /** What column c of the hashes is fed by one batch. */
  function StreamOf(batch: Batch, c: nat): seq<Byte>
    requires WellFormed(batch)
  {
    if c < batch.width then Stream(Column(batch.rows, batch.width, c)) else []
  }

  predicate RowsFit(rows: seq<Row>) {
    forall row :: row in rows ==> ValuesFit(row)
  }

  lemma ColumnAppend(a: seq<Row>, b: seq<Row>, width: nat, c: nat)
    requires Rectangular(a, width) && Rectangular(b, width) && c < width
    ensures Rectangular(a + b, width)
    ensures Column(a + b, width, c) == Column(a, width, c) + Column(b, width, c)
  {
  }

  lemma ColumnFits(rows: seq<Row>, width: nat, c: nat)
    requires Rectangular(rows, width) && c < width && RowsFit(rows)
    ensures ValuesFit(Column(rows, width, c))
  {
    forall v | v in Column(rows, width, c)
      ensures Fits(Raw(v))
    {
      var i :| 0 <= i < |rows| && v == rows[i][c];
      assert rows[i] in rows && v in rows[i];
    }
  }

  lemma RowsFromColumns(a: seq<Row>, b: seq<Row>, width: nat)
    requires Rectangular(a, width) && Rectangular(b, width) && |a| == |b|
    requires forall c :: 0 <= c < width ==> Column(a, width, c) == Column(b, width, c)
    ensures a == b
  {
    forall i | 0 <= i < |a|
      ensures a[i] == b[i]
    {
      assert a[i] in a && b[i] in b;
      forall c | 0 <= c < width
        ensures a[i][c] == b[i][c]
      {
        assert Column(a, width, c)[i] == Column(b, width, c)[i];
      }
    }
  }

  /** FieldDigests.result(): the row count and one hex digest per column. */
  datatype Fields = Fields(rows: nat, columns: map<string, string>)

  function FieldsOf(names: seq<string>, rows: seq<Row>, sha: seq<Byte> -> string): Fields
    requires Rectangular(rows, |names|)
  {
    Fields(|rows|, Zip(names, Digests(rows, |names|, sha)))
  }

  function Digests(rows: seq<Row>, width: nat, sha: seq<Byte> -> string): (r: seq<string>)
    requires Rectangular(rows, width)
    ensures |r| == width
  {
    seq(width, c requires 0 <= c < width => sha(Stream(Column(rows, width, c))))
  }

  /** dict(zip(names, values)): a later entry of the same name replaces an earlier one. */
  function Zip(names: seq<string>, values: seq<string>): map<string, string>
    requires |names| == |values|
  {
    if names == [] then map[]
    else Zip(names[..|names| - 1], values[..|names| - 1])[names[|names| - 1] := values[|names| - 1]]
  }

  lemma {:induction false} ZipLookup(names: seq<string>, values: seq<string>, c: nat)
    requires c < |names| == |values| && Distinct(names)
    ensures names[c] in Zip(names, values) && Zip(names, values)[names[c]] == values[c]
  {
    if c < |names| - 1 {
      ZipLookup(names[..|names| - 1], values[..|names| - 1], c);
    }
  }

  ghost predicate Injective(sha: seq<Byte> -> string) {
    forall x, y :: sha(x) == sha(y) ==> x == y
  }

  /** With a collision-free hash, equal field digests are equal tables, every value and ordinal included. */
  lemma FieldsIdentifyRows(names: seq<string>, a: seq<Row>, b: seq<Row>, sha: seq<Byte> -> string)
    requires Distinct(names) && names != [] && Injective(sha)
    requires Rectangular(a, |names|) && Rectangular(b, |names|) && RowsFit(a) && RowsFit(b)
    ensures FieldsOf(names, a, sha) == FieldsOf(names, b, sha) <==> a == b
  {
    if FieldsOf(names, a, sha) == FieldsOf(names, b, sha) {
      forall c | 0 <= c < |names|
        ensures Column(a, |names|, c) == Column(b, |names|, c)
      {
        ZipLookup(names, Digests(a, |names|, sha), c);
        ZipLookup(names, Digests(b, |names|, sha), c);
        ColumnFits(a, |names|, c);
        ColumnFits(b, |names|, c);
        StreamIdentifiesColumn(Column(a, |names|, c), Column(b, |names|, c));
      }
      RowsFromColumns(a, b, |names|);
    }
  }

  // ----- the accumulator -----

  /** The inner loop: one column's hash takes each value in turn. */
  method Feed(stream: seq<Byte>, column: seq<Value>) returns (fed: seq<Byte>)
    ensures fed == stream + Stream(column)
  {
    fed := stream;
    var i := 0;
    while i < |column|
      invariant 0 <= i <= |column|
      invariant fed == stream + Stream(column[..i])
    {
      StreamSnoc(column[..i], column[i]);
      assert column[..i + 1] == column[..i] + [column[i]];
      fed := fed + Frame(Raw(column[i]));
      i := i + 1;
    }
    assert column[..|column|] == column;
  }

  class FieldDigests {
    const names: seq<string>
    /** What each column's hash object has been fed so far. */
    var streams: seq<seq<Byte>>
    var rows: nat

    ghost predicate Valid()
      reads this
    {
      |streams| == |names|
    }

    /** The accumulator's state is the one for exactly these rows, however they arrived. */
    ghost predicate Holds(seen: seq<Row>)
      reads this
    {
      && Valid() && Rectangular(seen, |names|) && rows == |seen|
      && forall c :: 0 <= c < |names| ==> streams[c] == Stream(Column(seen, |names|, c))
    }

    constructor (names: seq<string>)
      ensures this.names == names && Holds([])
    {
      this.names := names;
      this.streams := seq(|names|, _ => []);
      this.rows := 0;
    }

    /** One batch. A batch with another column count updates the columns both have, counts nothing and fails. */
    method Add(batch: Batch) returns (ok: bool)
      requires Valid() && WellFormed(batch)
      modifies this
      ensures Valid()
      ensures ok <==> batch.width == |names|
      ensures rows == old(rows) + if ok then |batch.rows| else 0
      ensures forall c :: 0 <= c < |names| ==> streams[c] == old(streams)[c] + StreamOf(batch, c)
    {
      var both := Min(|names|, batch.width);
      var c := 0;
      while c < both
        invariant 0 <= c <= both && |streams| == |names| && rows == old(rows)
        invariant forall k :: 0 <= k < c ==>
          streams[k] == old(streams)[k] + StreamOf(batch, k)
        invariant forall k :: c <= k < |names| ==> streams[k] == old(streams)[k]
      {
        var fed := Feed(streams[c], Column(batch.rows, batch.width, c));
        streams := streams[c := fed];
        c := c + 1;
      }
      ok := batch.width == |names|;
      if ok {
        rows := rows + |batch.rows|;
      }
    }

    /** Adding a batch after `seen` is the same as having seen both at once. */
    ghost method AddKeepsHolds(seen: seq<Row>, batch: Batch, before: seq<seq<Byte>>)
      requires Valid() && WellFormed(batch) && batch.width == |names| && Rectangular(seen, |names|)
      requires |before| == |names| && rows == |seen| + |batch.rows|
      requires forall c :: 0 <= c < |names| ==> before[c] == Stream(Column(seen, |names|, c))
      requires forall c :: 0 <= c < |names| ==> streams[c] == before[c] + Stream(Column(batch.rows, |names|, c))
      ensures Holds(seen + batch.rows)
    {
      forall c | 0 <= c < |names|
        ensures Rectangular(seen + batch.rows, |names|)
        ensures streams[c] == Stream(Column(seen + batch.rows, |names|, c))
      {
        ColumnAppend(seen, batch.rows, |names|, c);
        StreamAppend(Column(seen, |names|, c), Column(batch.rows, |names|, c));
      }
    }

    /** The next batch after the rows seen so far. */
    method AddAfter(batch: Batch, ghost seen: seq<Row>) returns (ok: bool)
      requires Holds(seen) && WellFormed(batch)
      modifies this
      ensures ok <==> batch.width == |names|
      ensures ok ==> Holds(seen + batch.rows)
    {
      ghost var before := streams;
      ok := Add(batch);
      if ok {
        AddKeepsHolds(seen, batch, before);
      }
    }

    method Result(sha: seq<Byte> -> string, ghost seen: seq<Row>) returns (r: Fields)
      requires Holds(seen)
      ensures r == FieldsOf(names, seen, sha)
    {
      var fed := streams;
      var digests := seq(|names|, c requires 0 <= c < |names| => sha(fed[c]));
      assert digests == Digests(seen, |names|, sha);
      r := Fields(rows, Zip(names, digests));
    }
  }

  /** task_batches re-slices a reader batch into pieces of at most 1000 rows that join up to the batch. */
  method Slices(batch: Batch) returns (slices: seq<Batch>)
    requires WellFormed(batch)
    ensures forall s :: s in slices ==> WellFormed(s) && s.width == batch.width && 1 <= |s.rows| <= BATCH_ROWS
    ensures Flatten(seq(|slices|, i requires 0 <= i < |slices| => slices[i].rows)) == batch.rows
  {
    slices := [];
    ghost var pieces: seq<seq<Row>> := [];
    var offset := 0;
    while offset < |batch.rows|
      invariant 0 <= offset
      invariant |pieces| == |slices| && forall i :: 0 <= i < |slices| ==> pieces[i] == slices[i].rows
      invariant forall s :: s in slices ==> WellFormed(s) && s.width == batch.width && 1 <= |s.rows| <= BATCH_ROWS
      invariant Flatten(pieces) == batch.rows[..Min(offset, |batch.rows|)]
    {
      var stop := Min(offset + BATCH_ROWS, |batch.rows|);
      var piece := batch.rows[offset..stop];
      FlattenSnoc(pieces, piece);
      assert batch.rows[..stop] == batch.rows[..offset] + piece;
      slices, pieces := slices + [Batch(batch.width, piece)], pieces + [piece];
      offset := offset + BATCH_ROWS;
    }
    assert pieces == seq(|slices|, i requires 0 <= i < |slices| => slices[i].rows);
    assert batch.rows[..|batch.rows|] == batch.rows;
  }

  function RowsOf(batches: seq<Batch>): seq<Row> {
    if batches == [] then [] else batches[0].rows + RowsOf(batches[1..])
  }

  lemma {:induction false} RowsOfSnoc(batches: seq<Batch>, b: Batch)
    ensures RowsOf(batches + [b]) == RowsOf(batches) + b.rows
  {
    if batches == [] {
      assert RowsOf([b]) == b.rows + RowsOf([]);
    } else {
      RowsOfSnoc(batches[1..], b);
      assert (batches + [b])[1..] == batches[1..] + [b];
    }
  }

  lemma RowsOfTake(batches: seq<Batch>, i: nat)
    requires i < |batches|
    ensures RowsOf(batches[..i + 1]) == RowsOf(batches[..i]) + batches[i].rows
  {
    assert batches[..i + 1] == batches[..i] + [batches[i]];
    RowsOfSnoc(batches[..i], batches[i]);
  }

  /** part_values: whatever division into batches, the digests are those of the rows. `schemaFits` and `footerRows` are what
      the file's footer says of its schema and its row count. */
  method PartValues(names: seq<string>, schemaFits: bool, footerRows: nat, batches: seq<Batch>, sha: seq<Byte> -> string)
    returns (r: Option<Fields>)
    requires forall b :: b in batches ==> WellFormed(b)
    ensures r.Some? <==> schemaFits && footerRows == |RowsOf(batches)| && forall b :: b in batches ==> b.width == |names|
    ensures r.Some? ==> Rectangular(RowsOf(batches), |names|) && r.value == FieldsOf(names, RowsOf(batches), sha)
  {
    if !schemaFits {
      return None;
    }
    var values := new FieldDigests(names);
    ghost var seen: seq<Row> := [];
    var i := 0;
    while i < |batches|
      invariant 0 <= i <= |batches| && fresh(values) && values.names == names
      invariant seen == RowsOf(batches[..i])
      invariant values.Holds(seen)
      invariant forall k :: 0 <= k < i ==> batches[k].width == |names|
    {
      RowsOfTake(batches, i);
      assert batches[i] in batches;
      var ok := values.AddAfter(batches[i], seen);
      if !ok {
        return None;
      }
      seen := seen + batches[i].rows;
      i := i + 1;
    }
    assert batches[..|batches|] == batches;
    if footerRows != values.rows {
      return None;
    }
    var fields := values.Result(sha, seen);
    r := Some(fields);
  }
}
