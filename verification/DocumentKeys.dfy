/** The document keys of src/spicy_regs/citation_sources.py: single native keys stay literal, composite ones are a JSON
    array of strings. Text is a sequence of code points, lone surrogates included, as Python strings are. */
module DocumentKeys {
  import opened Basics

  type Point = c: int | 0 <= c < 0x110000

  type Text = seq<Point>

  const QUOTE: Point := 0x22
  const BACKSLASH: Point := 0x5C
  const OPEN: Point := 0x5B
  const CLOSE: Point := 0x5D
  const COMMA: Point := 0x2C
  const SPACE: Point := 0x20
  const LETTER_U: Point := 0x75
  const ZERO: Point := 0x30

  // ----- strings: sections 7 and 9 of RFC 8259 -----

  function HexDigit(d: nat): (c: Point)
    requires d < 16
    ensures HexValue(c) == Some(d)
  {
    if d < 10 then 0x30 + d else 0x61 + d - 10
  }

  function HexValue(c: Point): (d: Option<nat>)
    ensures d.Some? ==> d.value < 16
  {
    if 0x30 <= c <= 0x39 then Some(c - 0x30)
    else if 0x61 <= c <= 0x66 then Some(c - 0x61 + 10)
    else if 0x41 <= c <= 0x46 then Some(c - 0x41 + 10)
    else None
  }

  /** The letter of a two-character escape. */
  function ShortEscape(c: Point): Option<Point> {
    if c == QUOTE || c == BACKSLASH then Some(c)
    else if c == 0x08 then Some(0x62)
    else if c == 0x0C then Some(0x66)
    else if c == 0x0A then Some(0x6E)
    else if c == 0x0D then Some(0x72)
    else if c == 0x09 then Some(0x74)
    else None
  }

  /** What the letter of a two-character escape stands for; the solidus may be escaped too. */
  function ShortMeaning(letter: Point): Option<Point> {
    if letter == QUOTE || letter == BACKSLASH || letter == 0x2F then Some(letter)
    else if letter == 0x62 then Some(0x08)
    else if letter == 0x66 then Some(0x0C)
    else if letter == 0x6E then Some(0x0A)
    else if letter == 0x72 then Some(0x0D)
    else if letter == 0x74 then Some(0x09)
    else None
  }

  /** How json.dumps writes one character when ensure_ascii is off. */
  function Escape(c: Point): Text {
    if ShortEscape(c).Some? then [BACKSLASH, ShortEscape(c).value]
    else if c < 0x20 then [BACKSLASH, LETTER_U, ZERO, ZERO, HexDigit(c / 16), HexDigit(c % 16)]
    else [c]
  }

  function EscapeAll(t: Text): Text {
    if t == [] then [] else Escape(t[0]) + EscapeAll(t[1..])
  }

  function PrintString(t: Text): Text {
    [QUOTE] + EscapeAll(t) + [QUOTE]
  }

  function Hex4(s: Text): Option<nat> {
    if |s| < 4 || HexValue(s[0]).None? || HexValue(s[1]).None? || HexValue(s[2]).None? || HexValue(s[3]).None? then None
    else Some(((HexValue(s[0]).value * 16 + HexValue(s[1]).value) * 16 + HexValue(s[2]).value) * 16 + HexValue(s[3]).value)
  }

  predicate IsHigh(u: int) { 0xD800 <= u <= 0xDBFF }

  predicate IsLow(u: int) { 0xDC00 <= u <= 0xDFFF }

  /** One character of a string body and how many places it takes: a raw character, or an escape; two \u escapes that form
      a surrogate pair are one character. None at the closing quote, a control character or a broken escape. */
  function ReadOne(s: Text): (r: Option<(Point, nat)>)
    ensures r.Some? ==> 1 <= r.value.1 <= |s|
  {
    if s == [] || s[0] == QUOTE || s[0] < 0x20 then None
    else if s[0] != BACKSLASH then Some((s[0], 1))
    else if |s| < 2 then None
    else if s[1] != LETTER_U then (if ShortMeaning(s[1]).None? then None else Some((ShortMeaning(s[1]).value, 2)))
    else
      match Hex4(s[2..])
      case None => None
      case Some(u) =>
        if IsHigh(u) && |s| >= 12 && s[6] == BACKSLASH && s[7] == LETTER_U && Hex4(s[8..]).Some? && IsLow(Hex4(s[8..]).value)
        then Some((0x10000 + (u - 0xD800) * 0x400 + (Hex4(s[8..]).value - 0xDC00), 12))
        else Some((u, 6))
  }

  /** A string body up to its closing quote, and the text after the quote. */
  function ReadString(s: Text): (r: Option<(Text, Text)>)
    ensures r.Some? ==> |r.value.1| < |s|
    decreases |s|
  {
    if s == [] then None
    else if s[0] == QUOTE then Some(([], s[1..]))
    else
      match ReadOne(s)
      case None => None
      case Some((c, width)) =>
        match ReadString(s[width..])
        case None => None
        case Some((t, rest)) => Some(([c] + t, rest))
  }

  lemma EscapeReads(c: Point, rest: Text)
    ensures ReadOne(Escape(c) + rest) == Some((c, |Escape(c)|)) && Escape(c)[0] != QUOTE
  {
    var s := Escape(c) + rest;
    if ShortEscape(c).None? && c < 0x20 {
      assert s[2..][0] == ZERO && s[2..][1] == ZERO && s[2..][2] == HexDigit(c / 16) && s[2..][3] == HexDigit(c % 16);
      assert Hex4(s[2..]) == Some(c);
    }
  }

  lemma ReadStringStep(head: Text, c: Point, after: Text, t: Text, rest: Text)
    requires head != [] && head[0] != QUOTE && ReadOne(head + after) == Some((c, |head|))
    requires ReadString(after) == Some((t, rest))
    ensures ReadString(head + after) == Some(([c] + t, rest))
  {
    assert (head + after)[|head|..] == after;
  }

  lemma ReadStringEnd(rest: Text)
    ensures ReadString([QUOTE] + rest) == Some(([], rest))
  {
    assert ([QUOTE] + rest)[1..] == rest;
  }

  lemma EscapeSplits(t: Text, tail: Text)
    requires t != []
    ensures EscapeAll(t) + tail == Escape(t[0]) + (EscapeAll(t[1..]) + tail)
  {
    Regroup(Escape(t[0]), EscapeAll(t[1..]), tail);
  }

  lemma {:induction false} StringReads(t: Text, rest: Text)
    ensures ReadString(EscapeAll(t) + ([QUOTE] + rest)) == Some((t, rest))
  {
    ReadStringEnd(rest);
    if t == [] {
      assert EscapeAll(t) + ([QUOTE] + rest) == [QUOTE] + rest;
    } else {
      var after := EscapeAll(t[1..]) + ([QUOTE] + rest);
      StringReads(t[1..], rest);
      EscapeReads(t[0], after);
      ReadStringStep(Escape(t[0]), t[0], after, t[1..], rest);
      EscapeSplits(t, [QUOTE] + rest);
      assert t == [t[0]] + t[1..];
    }
  }

  lemma ReadOneTakesNoControl(s: Text)
    requires ReadOne(s).Some?
    ensures forall i :: 0 <= i < ReadOne(s).value.1 ==> s[i] >= 0x20
  {
    var width := ReadOne(s).value.1;
    if width >= 6 {
      var hex := s[2..];
      assert hex[0] == s[2] && hex[1] == s[3] && hex[2] == s[4] && hex[3] == s[5];
    }
    if width == 12 {
      var hex := s[8..];
      assert hex[0] == s[8] && hex[1] == s[9] && hex[2] == s[10] && hex[3] == s[11];
    }
  }

  /** A character is written by its two-character escape if it has one, the solidus apart; any other control character by
      the four digits of its code; and every other character as it is. */
  lemma EscapeMeaning(c: Point, letter: Point)
    ensures letter != 0x2F && ShortMeaning(letter) == Some(c) ==> Escape(c) == [BACKSLASH, letter]
    ensures (c >= 0x20 && c != QUOTE && c != BACKSLASH) <==> Escape(c) == [c]
    ensures |Escape(c)| in {1, 2, 6}
    ensures |Escape(c)| == 2 ==> ShortMeaning(Escape(c)[1]) == Some(c)
    ensures |Escape(c)| == 6 ==> Escape(c)[..2] == [BACKSLASH, LETTER_U] && Hex4(Escape(c)[2..]) == Some(c)
  {
  }

  /** An escape \u with four hexadecimal digits stands for the code point they spell, unless it opens a surrogate pair; the
      reader takes any spelling of the digits, capital letters included. */
  lemma CodeEscapeReads(u: nat, digits: Text, rest: Text)
    requires |digits| == 4 && Hex4(digits) == Some(u) && u < 0x10000
    requires !(IsHigh(u) && |rest| >= 6 && rest[0] == BACKSLASH && rest[1] == LETTER_U && Hex4(rest[2..]).Some?
               && IsLow(Hex4(rest[2..]).value))
    ensures ReadOne([BACKSLASH, LETTER_U] + (digits + rest)) == Some((u, 6))
  {
    var s := [BACKSLASH, LETTER_U] + (digits + rest);
    assert s[2..] == digits + rest && (|rest| >= 2 ==> s[8..] == rest[2..]);
    assert forall i :: 0 <= i < 4 ==> s[2..][i] == digits[i];
    assert |s| >= 12 ==> s[6] == rest[0] && s[7] == rest[1];
  }

  /** Two escapes that spell a character's surrogate pair, as section 7 of RFC 8259 writes characters beyond the Basic
      Multilingual Plane, are read as that one character. */
  lemma PairReads(c: Point, high: Text, low: Text, rest: Text)
    requires c >= 0x10000 && |high| == 4 && |low| == 4
    requires Hex4(high) == Some(0xD800 + (c - 0x10000) / 0x400) && Hex4(low) == Some(0xDC00 + (c - 0x10000) % 0x400)
    ensures ReadOne([BACKSLASH, LETTER_U] + high + [BACKSLASH, LETTER_U] + low + rest) == Some((c, 12))
  {
    var s := [BACKSLASH, LETTER_U] + high + [BACKSLASH, LETTER_U] + low + rest;
    assert forall i :: 0 <= i < 4 ==> s[2..][i] == high[i] && s[8..][i] == low[i];
    assert s[6] == BACKSLASH && s[7] == LETTER_U;
  }

  const SMALL_DIGITS: seq<int> := [0x30, 0x31, 0x32, 0x33, 0x34, 0x35, 0x36, 0x37, 0x38, 0x39, 0x61, 0x62, 0x63, 0x64, 0x65, 0x66]
  const LARGE_DIGITS: seq<int> := [0x30, 0x31, 0x32, 0x33, 0x34, 0x35, 0x36, 0x37, 0x38, 0x39, 0x41, 0x42, 0x43, 0x44, 0x45, 0x46]

  /** The sixteen digits in small and in capital letters, and no other character, are hexadecimal digits. */
  lemma HexTable(c: Point)
    ensures forall d :: 0 <= d < 16 ==> HexDigit(d) == SMALL_DIGITS[d]
    ensures forall d :: 0 <= d < 16 ==> (HexValue(c) == Some(d) <==> c == SMALL_DIGITS[d] || c == LARGE_DIGITS[d])
  {
  }

  /** Each hexadecimal digit counts in its place. */
  lemma Hex4Meaning(a: nat, b: nat, c: nat, d: nat)
    requires a < 16 && b < 16 && c < 16 && d < 16
    ensures Hex4([HexDigit(a), HexDigit(b), HexDigit(c), HexDigit(d)]) == Some(a * 0x1000 + b * 0x100 + c * 0x10 + d)
  {
  }

  /** The strict reading of section 7 of RFC 8259: no accepted string holds a raw control character. */
  lemma {:induction false} ReadStringTakesNoControl(s: Text)
    requires ReadString(s).Some?
    ensures forall i :: 0 <= i < |s| - |ReadString(s).value.1| ==> s[i] >= 0x20
    decreases |s|
  {
    if s[0] != QUOTE {
      var width := ReadOne(s).value.1;
      ReadOneTakesNoControl(s);
      ReadStringTakesNoControl(s[width..]);
      assert forall i :: width <= i < |s| ==> s[i] == s[width..][i - width];
    }
  }

  // ----- arrays: section 5 of RFC 8259 -----

  predicate IsBlank(c: Point) {
    c == 0x20 || c == 0x09 || c == 0x0A || c == 0x0D
  }

  function SkipBlanks(s: Text): (r: Text)
    ensures |r| <= |s|
  {
    if s != [] && IsBlank(s[0]) then SkipBlanks(s[1..]) else s
  }

  /** The strings with commas between them. */
  function PrintItems(values: seq<Text>): Text {
    if values == [] then []
    else if |values| == 1 then PrintString(values[0])
    else PrintString(values[0]) + ([COMMA] + PrintItems(values[1..]))
  }

  /** json.dumps of a tuple of strings with compact separators. */
  function PrintArray(values: seq<Text>): Text {
    [OPEN] + PrintItems(values) + [CLOSE]
  }

  /** At an element of a nonempty array: its strings, and the text after the closing bracket. */
  function ReadItems(s: Text): (r: Option<(seq<Text>, Text)>)
    decreases |s|
  {
    if s == [] || s[0] != QUOTE then None
    else
      match ReadString(s[1..])
      case None => None
      case Some((t, after)) =>
        var next := SkipBlanks(after);
        if next == [] then None
        else if next[0] == CLOSE then Some(([t], next[1..]))
        else if next[0] != COMMA then None
        else
          match ReadItems(SkipBlanks(next[1..]))
          case None => None
          case Some((more, rest)) => Some(([t] + more, rest))
  }

  /** json.loads where the whole text is an array of strings; None for anything else, JSON or not. */
  function ReadArray(s: Text): Option<seq<Text>> {
    var start := SkipBlanks(s);
    if start == [] || start[0] != OPEN then None
    else
      var first := SkipBlanks(start[1..]);
      if first != [] && first[0] == CLOSE then (if SkipBlanks(first[1..]) == [] then Some([]) else None)
      else
        match ReadItems(first)
        case None => None
        case Some((values, rest)) => if SkipBlanks(rest) == [] then Some(values) else None
  }

  lemma PrintedStringReads(t: Text, rest: Text)
    ensures var s := PrintString(t) + rest; s[0] == QUOTE && ReadString(s[1..]) == Some((t, rest))
  {
    StringReads(t, rest);
    PrintStringSplits(t, rest);
  }

  lemma PrintStringSplits(t: Text, rest: Text)
    ensures PrintString(t) + rest == [QUOTE] + (EscapeAll(t) + ([QUOTE] + rest))
    ensures (PrintString(t) + rest)[1..] == EscapeAll(t) + ([QUOTE] + rest)
  {
    Regroup([QUOTE] + EscapeAll(t), [QUOTE], rest);
    Regroup([QUOTE], EscapeAll(t), [QUOTE] + rest);
  }

  lemma LastItemReads(t: Text, rest: Text)
    ensures ReadItems(PrintString(t) + ([CLOSE] + rest)) == Some(([t], rest))
  {
    PrintedStringReads(t, [CLOSE] + rest);
    assert ([CLOSE] + rest)[1..] == rest;
  }

  lemma EarlierItemReads(t: Text, more: Text, values: seq<Text>, rest: Text)
    requires SkipBlanks(more) == more && ReadItems(more) == Some((values, rest))
    ensures ReadItems(PrintString(t) + ([COMMA] + more)) == Some(([t] + values, rest))
  {
    PrintedStringReads(t, [COMMA] + more);
    assert ([COMMA] + more)[1..] == more;
  }

  lemma ItemsSplit(values: seq<Text>, tail: Text)
    requires |values| > 1
    ensures PrintItems(values) + tail == PrintString(values[0]) + ([COMMA] + (PrintItems(values[1..]) + tail))
  {
    Regroup(PrintString(values[0]), [COMMA] + PrintItems(values[1..]), tail);
    Regroup([COMMA], PrintItems(values[1..]), tail);
  }

  lemma {:induction false} ItemsRead(values: seq<Text>, rest: Text)
    requires values != []
    ensures ReadItems(PrintItems(values) + ([CLOSE] + rest)) == Some((values, rest))
    decreases |values|
  {
    if |values| == 1 {
      LastItemReads(values[0], rest);
      assert values == [values[0]];
    } else {
      var more := PrintItems(values[1..]) + ([CLOSE] + rest);
      ItemsRead(values[1..], rest);
      ItemsStartWithQuote(values[1..], [CLOSE] + rest);
      EarlierItemReads(values[0], more, values[1..], rest);
      ItemsSplit(values, [CLOSE] + rest);
      assert values == [values[0]] + values[1..];
    }
  }

  lemma ItemsStartWithQuote(values: seq<Text>, rest: Text)
    requires values != []
    ensures PrintItems(values) + rest != [] && (PrintItems(values) + rest)[0] == QUOTE
    ensures SkipBlanks(PrintItems(values) + rest) == PrintItems(values) + rest
  {
  }

  /** Printing and reading undo each other on every list of strings, whatever characters they hold. */
  lemma ArrayRoundTrip(values: seq<Text>)
    ensures ReadArray(PrintArray(values)) == Some(values)
  {
    var s := PrintArray(values);
    assert SkipBlanks(s) == s;
    if values == [] {
      assert s[1..] == [CLOSE];
      assert [CLOSE][1..] == [];
    } else {
      assert s[1..] == PrintItems(values) + ([CLOSE] + []);
      ItemsStartWithQuote(values, [CLOSE] + []);
      ItemsRead(values, []);
    }
  }

  // ----- document keys -----

  const ARITIES: map<string, nat> := map[
    "court_opinion_derived_pdf" := 1,
    "communication_authority" := 3,
    "communication_report_nature" := 3,
    "communication_record_entry" := 3,
    "bill_section" := 4,
    "report_section" := 3,
    "lobbying_activity" := 2,
    "comment_inline" := 1
  ]

  datatype KeyError = UnknownKind | NotNonemptyValues | NotAList

  predicate ValuesFit(arity: nat, values: seq<Text>) {
    |values| == arity && forall i :: 0 <= i < |values| ==> values[i] != []
  }

  function DocumentKey(kind: string, values: seq<Text>): Result<Text, KeyError> {
    if kind !in ARITIES then Err(UnknownKind)
    else if !ValuesFit(ARITIES[kind], values) then Err(NotNonemptyValues)
    else if |values| == 1 then Ok(values[0])
    else Ok(PrintArray(values))
  }

  function KeyValues(kind: string, key: Text): Result<seq<Text>, KeyError> {
    if kind !in ARITIES then Err(UnknownKind)
    else
      var parsed := if ARITIES[kind] == 1 then Some([key]) else ReadArray(key);
      if parsed.None? then Err(NotAList)
      else if DocumentKey(kind, parsed.value).Err? then Err(DocumentKey(kind, parsed.value).error)
      else Ok(parsed.value)
  }

  /** Why a tuple or a key is refused. */
  lemma KeyErrorMeaning(kind: string, values: seq<Text>, key: Text)
    ensures DocumentKey(kind, values) == Err(UnknownKind) <==> kind !in ARITIES
    ensures KeyValues(kind, key) == Err(UnknownKind) <==> kind !in ARITIES
    ensures DocumentKey(kind, values) == Err(NotNonemptyValues) <==>
      kind in ARITIES && (|values| != ARITIES[kind] || [] in values)
    ensures KeyValues(kind, key) == Err(NotAList) <==> kind in ARITIES && ARITIES[kind] != 1 && ReadArray(key).None?
    ensures KeyValues(kind, key) == Err(NotNonemptyValues) <==>
      kind in ARITIES && (if ARITIES[kind] == 1 then key == []
                          else ReadArray(key).Some? && (|ReadArray(key).value| != ARITIES[kind] || [] in ReadArray(key).value))
  {
    assert key == [] <==> [] in [key];
  }

  /** Nothing but blanks may follow an empty array. */
  lemma EmptyArrayReads(rest: Text)
    ensures ReadArray([OPEN, CLOSE] + rest) == if forall c :: c in rest ==> IsBlank(c) then Some([]) else None
  {
    var s := [OPEN, CLOSE] + rest;
    assert s[1..] == [CLOSE] + rest && ([CLOSE] + rest)[1..] == rest;
    SkipsAllIff(rest);
  }

  lemma {:induction false} SkipsAllIff(s: Text)
    ensures SkipBlanks(s) == [] <==> forall c :: c in s ==> IsBlank(c)
  {
    if s != [] {
      SkipsAllIff(s[1..]);
      assert s == [s[0]] + s[1..];
    }
  }

  /** Every key that document_key makes gives its values back; so no two value tuples of one kind share a key. */
  lemma KeyRoundTrip(kind: string, values: seq<Text>)
    ensures DocumentKey(kind, values).Ok? ==> KeyValues(kind, DocumentKey(kind, values).value) == Ok(values)
    ensures DocumentKey(kind, values).Ok? <==> kind in ARITIES && ValuesFit(ARITIES[kind], values)
  {
    if kind in ARITIES && ValuesFit(ARITIES[kind], values) {
      if |values| == 1 {
        assert values == [values[0]];
      } else {
        ArrayRoundTrip(values);
      }
    }
  }

  lemma KeysNeverCollide(kind: string, a: seq<Text>, b: seq<Text>)
    requires DocumentKey(kind, a).Ok? && DocumentKey(kind, a) == DocumentKey(kind, b)
    ensures a == b
  {
    KeyRoundTrip(kind, a);
    KeyRoundTrip(kind, b);
  }

  /** What key_values accepts always names a document: a tuple of the kind's arity with no empty value. For the kinds
      with one key column, the key is that value, character for character. */
  lemma AcceptedKeysNameDocuments(kind: string, key: Text)
    ensures KeyValues(kind, key).Ok? ==>
      kind in ARITIES && ValuesFit(ARITIES[kind], KeyValues(kind, key).value) && DocumentKey(kind, KeyValues(kind, key).value).Ok?
    ensures kind in ARITIES && ARITIES[kind] == 1 ==>
      (KeyValues(kind, key).Ok? <==> key != []) && (key != [] ==> DocumentKey(kind, KeyValues(kind, key).value) == Ok(key))
  {
    if kind in ARITIES && ARITIES[kind] == 1 && key != [] {
      assert ValuesFit(1, [key]);
    }
  }

  /** A composite key is not the only spelling of its document: a blank in front is read past, though document_key never
      writes one. */
  lemma LeadingBlankNamesTheSameDocument(kind: string, values: seq<Text>)
    requires DocumentKey(kind, values).Ok? && |values| != 1
    ensures var padded := [SPACE] + DocumentKey(kind, values).value;
      KeyValues(kind, padded) == Ok(values) && DocumentKey(kind, values) != Ok(padded)
  {
    KeyRoundTrip(kind, values);
    var key := DocumentKey(kind, values).value;
    assert ([SPACE] + key)[1..] == key;
    assert key[0] == OPEN;
  }

  // ----- the printed form -----

  lemma {:induction false} EscapedIsPrintable(t: Text)
    ensures forall i :: 0 <= i < |EscapeAll(t)| ==> EscapeAll(t)[i] >= 0x20
  {
    if t != [] {
      EscapedIsPrintable(t[1..]);
      var head := Escape(t[0]);
      assert forall i :: 0 <= i < |head| ==> head[i] >= 0x20;
    }
  }

  lemma {:induction false} ItemsArePrintable(values: seq<Text>)
    ensures forall i :: 0 <= i < |PrintItems(values)| ==> PrintItems(values)[i] >= 0x20
  {
    if values != [] {
      EscapedIsPrintable(values[0]);
      ItemsArePrintable(values[1..]);
    }
  }

  /** A composite key never holds a raw control character, whatever its values hold: it is always one line. */
  lemma CompositeKeysAreOneLine(kind: string, values: seq<Text>)
    requires DocumentKey(kind, values).Ok? && |values| != 1
    ensures forall c :: c in DocumentKey(kind, values).value ==> c >= 0x20
  {
    ItemsArePrintable(values);
  }

  // ----- the one spelling that document_key writes -----

  /** How many places an escape that Escape writes takes here, at a backslash; 0 for any other text. */
  function WrittenEscape(s: Text): (width: nat)
    ensures width <= |s|
  {
    if |s| >= 2 && s[0] == BACKSLASH && ShortMeaning(s[1]).Some? && Escape(ShortMeaning(s[1]).value) == s[..2] then 2
    else if |s| >= 6 && Hex4(s[2..]).Some? && Hex4(s[2..]).value < 0x20 && Escape(Hex4(s[2..]).value) == s[..6] then 6
    else 0
  }

  /** Read from left to right, inside a string or outside: no blank outside a string, every backslash begins an escape that
      Escape writes, and no character stands raw that Escape writes otherwise. */
  predicate Compact(s: Text, inside: bool)
    decreases |s|
  {
    if s == [] then true
    else if s[0] == QUOTE then Compact(s[1..], !inside)
    else if !inside then !IsBlank(s[0]) && Compact(s[1..], false)
    else if s[0] == BACKSLASH then WrittenEscape(s) > 0 && Compact(s[WrittenEscape(s)..], true)
    else Escape(s[0]) == [s[0]] && Compact(s[1..], true)
  }

  lemma EscapeIsCompact(c: Point, rest: Text)
    ensures Compact(Escape(c) + rest, true) <==> Compact(rest, true)
  {
    var s := Escape(c) + rest;
    if ShortEscape(c).Some? {
      assert s[..2] == Escape(c) && s[2..] == rest;
    } else if c < 0x20 {
      EscapeReads(c, rest);
      assert s[..6] == Escape(c) && s[6..] == rest;
      assert s[2..][..4] == s[2..6];
      assert Hex4(s[2..]) == Some(c);
      assert ShortMeaning(s[1]).None?;
    } else {
      assert s[1..] == rest;
    }
  }

  lemma {:induction false} StringIsCompact(t: Text, rest: Text)
    ensures Compact(EscapeAll(t) + ([QUOTE] + rest), true) <==> Compact(rest, false)
  {
    if t == [] {
      assert EscapeAll(t) + ([QUOTE] + rest) == [QUOTE] + rest;
      assert ([QUOTE] + rest)[1..] == rest;
    } else {
      StringIsCompact(t[1..], rest);
      EscapeSplits(t, [QUOTE] + rest);
      EscapeIsCompact(t[0], EscapeAll(t[1..]) + ([QUOTE] + rest));
    }
  }

  lemma PrintedStringIsCompact(t: Text, rest: Text)
    ensures Compact(PrintString(t) + rest, false) <==> Compact(rest, false)
  {
    StringIsCompact(t, rest);
    PrintStringSplits(t, rest);
  }

  lemma PlainIsCompact(c: Point, rest: Text)
    requires c == OPEN || c == CLOSE || c == COMMA
    ensures Compact([c] + rest, false) <==> Compact(rest, false)
  {
    assert ([c] + rest)[1..] == rest;
  }

  lemma {:induction false} ItemsAreCompact(values: seq<Text>, rest: Text)
    ensures Compact(PrintItems(values) + rest, false) <==> Compact(rest, false)
  {
    if values == [] {
      assert PrintItems(values) + rest == rest;
    } else if |values| == 1 {
      PrintedStringIsCompact(values[0], rest);
    } else {
      ItemsAreCompact(values[1..], rest);
      ItemsSplit(values, rest);
      PrintedStringIsCompact(values[0], [COMMA] + (PrintItems(values[1..]) + rest));
      PlainIsCompact(COMMA, PrintItems(values[1..]) + rest);
    }
  }

  lemma PrintedIsCompact(values: seq<Text>)
    ensures Compact(PrintArray(values), false)
  {
    ItemsAreCompact(values, [CLOSE]);
    PlainIsCompact(CLOSE, []);
    PlainIsCompact(OPEN, PrintItems(values) + [CLOSE]);
    assert [CLOSE] + [] == [CLOSE];
    assert PrintArray(values) == [OPEN] + (PrintItems(values) + [CLOSE]);
  }

  // A compact text is read in only one way: what was read, printed again, is the text.

  lemma CompactCharacter(s: Text)
    requires ReadOne(s).Some? && Compact(s, true)
    ensures var (c, width) := ReadOne(s).value;
      s[..width] == Escape(c) && Compact(s[width..], true)
  {
    if s[0] == BACKSLASH {
      CompactEscape(s);
    } else {
      assert s[..1] == [s[0]];
    }
  }

  lemma CompactEscape(s: Text)
    requires ReadOne(s).Some? && Compact(s, true) && s[0] == BACKSLASH
    ensures ReadOne(s).value.1 == WrittenEscape(s) && s[..WrittenEscape(s)] == Escape(ReadOne(s).value.0)
  {
    if WrittenEscape(s) == 6 {
      var c := Hex4(s[2..]).value;
      assert Escape(c)[1] == s[..6][1] == s[1];
      assert |Escape(c)| == 6 && s[1] == LETTER_U;
    } else {
      assert s[..2][1] == s[1];
    }
  }

  lemma {:induction false} CompactString(s: Text)
    requires ReadString(s).Some? && Compact(s, true)
    ensures var (t, rest) := ReadString(s).value;
      s == EscapeAll(t) + ([QUOTE] + rest) && Compact(rest, false)
    decreases |s|
  {
    if s[0] == QUOTE {
      assert s == [] + ([QUOTE] + s[1..]);
    } else {
      var (c, width) := ReadOne(s).value;
      CompactCharacter(s);
      CompactString(s[width..]);
      var (more, rest) := ReadString(s[width..]).value;
      PrintedBefore(s, c, width, more, [QUOTE] + rest);
    }
  }

  lemma PrintedBefore(s: Text, c: Point, width: nat, more: Text, tail: Text)
    requires width <= |s| && s[..width] == Escape(c) && s[width..] == EscapeAll(more) + tail
    ensures s == EscapeAll([c] + more) + tail
  {
    assert ([c] + more)[1..] == more;
    EscapeSplits([c] + more, tail);
    assert s == s[..width] + s[width..];
  }

  lemma CompactPrintedString(s: Text)
    requires s != [] && s[0] == QUOTE && ReadString(s[1..]).Some? && Compact(s, false)
    ensures var (t, rest) := ReadString(s[1..]).value;
      s == PrintString(t) + rest && Compact(rest, false) && SkipBlanks(rest) == rest
  {
    CompactString(s[1..]);
    var (t, rest) := ReadString(s[1..]).value;
    assert s == [QUOTE] + s[1..];
    PrintStringSplits(t, rest);
  }

  lemma CompactNext(s: Text)
    requires Compact(s, false) && s != [] && (s[0] == COMMA || s[0] == CLOSE || s[0] == OPEN)
    ensures Compact(s[1..], false) && SkipBlanks(s[1..]) == s[1..]
  {
  }

  lemma {:induction false} CompactItems(s: Text)
    requires ReadItems(s).Some? && Compact(s, false)
    ensures var (values, rest) := ReadItems(s).value;
      values != [] && s == PrintItems(values) + ([CLOSE] + rest) && Compact(rest, false)
    decreases |s|
  {
    CompactPrintedString(s);
    var (t, after) := ReadString(s[1..]).value;
    CompactNext(after);
    if after[0] == CLOSE {
      assert after == [CLOSE] + after[1..];
      assert PrintItems([t]) == PrintString(t);
    } else {
      CompactItems(after[1..]);
      var (more, rest) := ReadItems(after[1..]).value;
      var values := [t] + more;
      assert values[1..] == more && values[0] == t;
      ItemsSplit(values, [CLOSE] + rest);
      assert after == [COMMA] + after[1..];
    }
  }

  lemma CompactArray(s: Text)
    requires ReadArray(s).Some? && ReadArray(s).value != [] && Compact(s, false)
    ensures s == PrintArray(ReadArray(s).value)
  {
    assert SkipBlanks(s) == s;
    CompactNext(s);
    CompactItems(s[1..]);
    var (values, rest) := ReadItems(s[1..]).value;
    assert SkipBlanks(rest) == rest == [];
    assert s == [OPEN] + s[1..];
    assert [CLOSE] + [] == [CLOSE];
    assert PrintArray(values) == [OPEN] + (PrintItems(values) + [CLOSE]);
  }

  /** An accepted composite key is the one document_key writes if and only if its text is compact. */
  lemma OneSpellingIff(kind: string, key: Text)
    requires kind in ARITIES && ARITIES[kind] > 1 && KeyValues(kind, key).Ok?
    ensures DocumentKey(kind, KeyValues(kind, key).value) == Ok(key) <==> Compact(key, false)
  {
    var values := KeyValues(kind, key).value;
    AcceptedKeysNameDocuments(kind, key);
    if Compact(key, false) {
      CompactArray(key);
    } else {
      PrintedIsCompact(values);
    }
  }

  /** The letter a, spelled as an escape. */
  const ESCAPED_A: Text := [BACKSLASH, LETTER_U, ZERO, ZERO, 0x36, 0x31]

  lemma EscapedLetter(rest: Text)
    ensures ReadOne(ESCAPED_A + rest) == Some((0x61, 6)) && WrittenEscape(ESCAPED_A + rest) == 0
  {
    var s := ESCAPED_A + rest;
    assert s[2..][0] == ZERO && s[2..][1] == ZERO && s[2..][2] == 0x36 && s[2..][3] == 0x31;
    assert Hex4(s[2..]) == Some(0x61);
  }

  /** A JSON string in which the letter a is escaped, then the rest of an array. */
  function EscapedFirst(rest: Text): Text {
    [QUOTE] + (ESCAPED_A + ([QUOTE] + ([COMMA] + rest)))
  }

  lemma EscapedFirstReads(rest: Text, values: seq<Text>)
    requires SkipBlanks(rest) == rest && ReadItems(rest) == Some((values, []))
    ensures ReadItems(EscapedFirst(rest)) == Some(([[0x61]] + values, []))
  {
    var tail := [COMMA] + rest;
    EscapedLetter([QUOTE] + tail);
    ReadStringEnd(tail);
    ReadStringStep(ESCAPED_A, 0x61, [QUOTE] + tail, [], tail);
    assert [0x61] + [] == [0x61];
    assert EscapedFirst(rest)[1..] == ESCAPED_A + ([QUOTE] + tail);
    assert tail[1..] == rest;
  }

  lemma EscapedFirstIsNotCompact(rest: Text)
    ensures !Compact(EscapedFirst(rest), false)
  {
    EscapedLetter([QUOTE] + ([COMMA] + rest));
    assert EscapedFirst(rest)[1..] == ESCAPED_A + ([QUOTE] + ([COMMA] + rest));
  }

  lemma BracketedReads(s: Text, values: seq<Text>)
    requires s != [] && s[0] == QUOTE && ReadItems(s) == Some((values, []))
    ensures ReadArray([OPEN] + s) == Some(values)
  {
    assert ([OPEN] + s)[1..] == s;
  }

  /** Another spelling, without any blank: a letter escaped where Escape writes it raw. */
  lemma NeedlessEscapeNamesTheSameDocument(b: Text)
    requires b != []
    ensures var key := [OPEN] + EscapedFirst(PrintString(b) + ([CLOSE] + []));
      KeyValues("lobbying_activity", key) == Ok([[0x61], b]) && !Compact(key, false)
  {
    var last := PrintString(b) + ([CLOSE] + []);
    LastItemReads(b, []);
    EscapedFirstReads(last, [b]);
    assert [[0x61]] + [b] == [[0x61], b];
    BracketedReads(EscapedFirst(last), [[0x61], b]);
    EscapedFirstIsNotCompact(last);
    PlainIsCompact(OPEN, EscapedFirst(last));
  }
}
