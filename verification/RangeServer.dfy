/** The single-range file server of scripts/qualify_receipt_index.py: reading the Range header, choosing the bytes, and
    the loop that sends them. */
module RangeServer {
  import opened Basics
  import opened Decimals

  // ----- Python's int() on header text -----

  /** The white space int() ignores at both ends, among the characters a header can hold. */
  predicate IsSpace(c: char) {
    var code := c as int;
    code == 0x20 || 0x09 <= code <= 0x0D || 0x1C <= code <= 0x1F || code == 0x85 || code == 0xA0
  }

  /** One by one: the tab to the carriage return, the four separators, the blank, the next line and the no-break space. */
  lemma SpaceTable(c: char)
    ensures IsSpace(c) <==> c as int in {9, 10, 11, 12, 13, 28, 29, 30, 31, 32, 133, 160}
  {
  }

  function StripLeft(s: string): string {
    if s != "" && IsSpace(s[0]) then StripLeft(s[1..]) else s
  }

  function StripRight(s: string): string {
    if s != "" && IsSpace(s[|s| - 1]) then StripRight(s[..|s| - 1]) else s
  }

  /** Digits, with single underscores allowed between them. */
  predicate IsGrouped(s: string) {
    && s != "" && IsDigit(s[0]) && IsDigit(s[|s| - 1])
    && (forall i :: 0 <= i < |s| ==> IsDigit(s[i]) || s[i] == '_')
    && (forall i :: 0 < i < |s| ==> !(s[i - 1] == '_' && s[i] == '_'))
  }

  function Digits(s: string): (r: string)
    requires forall i :: 0 <= i < |s| ==> IsDigit(s[i]) || s[i] == '_'
    ensures AllDigits(r)
  {
    if s == "" then ""
    else if s[0] == '_' then Digits(s[1..])
    else [s[0]] + Digits(s[1..])
  }

  /** None stands for ValueError: text that is no number, or one of too many digits. */
  function ParseInt(s: string): Option<int> {
    var t := StripRight(StripLeft(s));
    var negative := t != "" && t[0] == '-';
    var u := if t != "" && (t[0] == '-' || t[0] == '+') then t[1..] else t;
    if IsGrouped(u) && |Digits(u)| <= MAX_DIGITS then
      var value: int := Value(Digits(u));
      Some(if negative then -value else value)
    else None
  }

  lemma {:induction false} DigitsOfDigits(s: string)
    requires AllDigits(s)
    ensures Digits(s) == s
  {
    if s != "" {
      DigitsOfDigits(s[1..]);
      assert s == [s[0]] + s[1..];
    }
  }

  lemma ParsePlainDigits(s: string)
    requires AllDigits(s)
    ensures ParseInt(s) == if s == "" || |s| > MAX_DIGITS then None else Some(Value(s))
  {
    if s != "" {
      NothingToStrip(s);
      DigitsOfDigits(s);
      assert IsDigit(s[0]);
      assert IsGrouped(s);
    }
  }

  // ----- exactly what int() reads -----

  predicate Blank(s: string) {
    forall i :: 0 <= i < |s| ==> IsSpace(s[i])
  }

  /** Groups of digits with an underscore between any two. */
  function Underscored(groups: seq<string>): string {
    if groups == [] then "" else if |groups| == 1 then groups[0] else groups[0] + ("_" + Underscored(groups[1..]))
  }

  predicate DigitGroups(groups: seq<string>) {
    groups != [] && forall g :: g in groups ==> g != "" && AllDigits(g)
  }

  function SignOf(negative: bool, plus: bool): string {
    if negative then "-" else if plus then "+" else ""
  }

  /** Blanks, a sign, groups of digits, blanks. */
  function IntText(before: string, negative: bool, plus: bool, groups: seq<string>, after: string): string {
    before + ((SignOf(negative, plus) + Underscored(groups)) + after)
  }

  lemma {:induction false} UnderscoredIsGrouped(groups: seq<string>)
    requires DigitGroups(groups)
    ensures IsGrouped(Underscored(groups)) && Digits(Underscored(groups)) == Flatten(groups)
  {
    var first := groups[0];
    assert first in groups;
    if |groups| == 1 {
      DigitsOfDigits(first);
      assert IsDigit(first[0]) && IsDigit(first[|first| - 1]);
      assert Flatten(groups) == first + Flatten(groups[1..]);
    } else {
      var rest := Underscored(groups[1..]);
      assert groups[1] in groups[1..];
      UnderscoredIsGrouped(groups[1..]);
      DigitsPast(first, rest);
      GroupedPast(first, rest);
    }
  }

  lemma GroupedPast(first: string, rest: string)
    requires first != "" && AllDigits(first) && IsGrouped(rest)
    ensures IsGrouped(first + ("_" + rest))
  {
    var s := first + ("_" + rest);
    forall i | 0 < i < |s|
      ensures !(s[i - 1] == '_' && s[i] == '_')
    {
      if i <= |first| {
        assert s[i - 1] == first[i - 1] && IsDigit(first[i - 1]);
      } else if i == |first| + 1 {
        assert s[i] == rest[0] && IsDigit(rest[0]);
      } else {
        assert s[i - 1] == rest[i - |first| - 2] && s[i] == rest[i - |first| - 1];
      }
    }
    assert s[0] == first[0] && IsDigit(first[0]) && s[|s| - 1] == rest[|rest| - 1];
  }

  lemma {:induction false} DigitsPast(first: string, rest: string)
    requires AllDigits(first) && forall i :: 0 <= i < |rest| ==> IsDigit(rest[i]) || rest[i] == '_'
    ensures Digits(first + ("_" + rest)) == first + Digits(rest)
  {
    var s := first + ("_" + rest);
    if first == "" {
      assert s[1..] == rest && s[0] == '_';
    } else {
      DigitsPast(first[1..], rest);
      assert s[1..] == first[1..] + ("_" + rest) && s[0] == first[0] && IsDigit(first[0]);
      assert first == [first[0]] + first[1..];
    }
  }

  lemma {:induction false} StripsBefore(before: string, s: string)
    requires Blank(before) && s != "" && !IsSpace(s[0])
    ensures StripLeft(before + s) == s
  {
    if before == "" {
      assert before + s == s;
    } else {
      StripsBefore(before[1..], s);
      assert (before + s)[1..] == before[1..] + s && (before + s)[0] == before[0];
    }
  }

  lemma {:induction false} StripsAfter(s: string, after: string)
    requires Blank(after) && s != "" && !IsSpace(s[|s| - 1])
    ensures StripRight(s + after) == s
  {
    var n := |after|;
    if after == "" {
      assert s + after == s;
    } else {
      StripsAfter(s, after[..n - 1]);
      assert (s + after)[..|s + after| - 1] == s + after[..n - 1] && (s + after)[|s + after| - 1] == after[n - 1];
    }
  }

  /** int() reads every such text of at most MAX_DIGITS digits as the number its digits spell. */
  lemma ReadsIntText(before: string, negative: bool, plus: bool, groups: seq<string>, after: string)
    requires Blank(before) && Blank(after) && DigitGroups(groups)
    ensures AllDigits(Flatten(groups))
    ensures ParseInt(IntText(before, negative, plus, groups, after)) ==
      if |Flatten(groups)| > MAX_DIGITS then None
      else var value: int := Value(Flatten(groups)); Some(if negative then -value else value)
  {
    UnderscoredIsGrouped(groups);
    var u := Underscored(groups);
    StripsBoth(before, SignOf(negative, plus), u, after);
    SignThenNumber(negative, plus, u);
  }

  lemma StripsBoth(before: string, sign: string, u: string, after: string)
    requires Blank(before) && Blank(after) && IsGrouped(u) && (sign == "" || sign == "-" || sign == "+")
    ensures StripRight(StripLeft(before + ((sign + u) + after))) == sign + u
  {
    var t := sign + u;
    assert IsDigit(u[0]) && t[|t| - 1] == u[|u| - 1] && IsDigit(u[|u| - 1]);
    StripsBefore(before, t + after);
    StripsAfter(t, after);
  }

  lemma SignThenNumber(negative: bool, plus: bool, u: string)
    requires IsGrouped(u)
    ensures var t := SignOf(negative, plus) + u;
      && t != "" && (t[0] == '-' <==> negative)
      && u == if t[0] == '-' || t[0] == '+' then t[1..] else t
  {
    assert IsDigit(u[0]);
  }

  lemma {:induction false} StripLeftLeaves(s: string) returns (before: string)
    ensures Blank(before) && s == before + StripLeft(s)
  {
    if s != "" && IsSpace(s[0]) {
      var rest := StripLeftLeaves(s[1..]);
      before := [s[0]] + rest;
      assert s == [s[0]] + s[1..];
    } else {
      before := "";
    }
  }

  lemma {:induction false} StripRightLeaves(s: string) returns (after: string)
    ensures Blank(after) && s == StripRight(s) + after
  {
    var n := |s|;
    if s != "" && IsSpace(s[n - 1]) {
      var rest := StripRightLeaves(s[..n - 1]);
      after := rest + [s[n - 1]];
      assert s == s[..n - 1] + [s[n - 1]];
    } else {
      after := "";
    }
  }

  function DigitPrefix(s: string): (n: nat)
    ensures n <= |s| && AllDigits(s[..n]) && (n < |s| ==> !IsDigit(s[n]))
  {
    if s == "" || !IsDigit(s[0]) then 0 else 1 + DigitPrefix(s[1..])
  }

  lemma {:induction false} GroupsOf(u: string) returns (groups: seq<string>)
    requires IsGrouped(u)
    ensures DigitGroups(groups) && Underscored(groups) == u
    decreases |u|
  {
    var n := DigitPrefix(u);
    if n == |u| {
      assert u[..n] == u;
      groups := [u];
    } else {
      var rest := u[n + 1..];
      assert n > 0 && u[n] == '_' && n + 1 < |u|;
      assert !(u[n] == '_' && u[n + 1] == '_');
      assert rest[0] == u[n + 1] && rest[|rest| - 1] == u[|u| - 1];
      forall i | 0 < i < |rest|
        ensures !(rest[i - 1] == '_' && rest[i] == '_')
      {
        assert rest[i - 1] == u[n + i] && rest[i] == u[n + 1 + i];
      }
      var more := GroupsOf(rest);
      groups := [u[..n]] + more;
      assert groups[1..] == more;
      assert u == u[..n] + ("_" + rest);
    }
  }

  /** And it reads nothing else. */
  lemma ReadsOnlyIntText(s: string) returns (before: string, negative: bool, plus: bool, groups: seq<string>, after: string)
    requires ParseInt(s).Some?
    ensures Blank(before) && Blank(after) && DigitGroups(groups) && s == IntText(before, negative, plus, groups, after)
  {
    before := StripLeftLeaves(s);
    after := StripRightLeaves(StripLeft(s));
    var t := StripRight(StripLeft(s));
    negative, plus := t[0] == '-', t[0] == '+';
    var u := if negative || plus then t[1..] else t;
    groups := GroupsOf(u);
    assert t == SignOf(negative, plus) + u;
  }

  lemma NothingToStrip(s: string)
    requires AllDigits(s) && s != ""
    ensures StripRight(StripLeft(s)) == s
  {
    assert IsDigit(s[0]) && IsDigit(s[|s| - 1]);
  }

  // ----- the requested range -----

  const PREFIX := "bytes="

  /** The text before and after the first hyphen; None when there is none. */
  function SplitHyphen(s: string): Option<(string, string)> {
    if s == "" then None
    else if s[0] == '-' then Some(("", s[1..]))
    else
      match SplitHyphen(s[1..])
      case None => None
      case Some((left, right)) => Some(([s[0]] + left, right))
  }

  /** First and last position chosen for a nonempty Range header, or None for the 416 reply. */
  function Chosen(header: string, size: nat): Option<(int, int)> {
    if !(PREFIX <= header) || ',' in header then None
    else
      match SplitHyphen(header[|PREFIX|..])
      case None => None
      case Some((left, right)) =>
        var bounds := if left != "" then FromFirst(left, right, size) else Suffix(right, size);
        if bounds.Some? && 0 <= bounds.value.0 <= bounds.value.1 && bounds.value.0 < size then bounds else None
  }

  function FromFirst(left: string, right: string, size: nat): Option<(int, int)> {
    match ParseInt(left)
    case None => None
    case Some(first) =>
      if right == "" then Some((first, size - 1))
      else
        match ParseInt(right)
        case None => None
        case Some(last) => Some((first, Min(last, size - 1)))
  }

  function Suffix(right: string, size: nat): Option<(int, int)> {
    match ParseInt(right)
    case None => None
    case Some(length) => if length <= 0 then None else Some((Max(0, size - length), size - 1))
  }

  lemma ChosenIsInside(header: string, size: nat)
    ensures Chosen(header, size).Some? ==> 0 <= Chosen(header, size).value.0 <= Chosen(header, size).value.1 < size
  {
    if Chosen(header, size).Some? {
      var Some((left, right)) := SplitHyphen(header[|PREFIX|..]);
      assert left != "" ==> FromFirst(left, right, size).value.1 <= size - 1;
    }
  }

  // ----- what the standard says -----

  /** The one unit this server knows. Section 14.1 of RFC 9110 makes unit names case-insensitive. */
  const UNIT := "bytes"

  function LowerCase(s: string): (r: string)
    ensures |r| == |s|
  {
    seq(|s|, i requires 0 <= i < |s| => if 'A' <= s[i] <= 'Z' then (s[i] as int + 32) as char else s[i])
  }

  /** The capital letters and their small ones, letter by letter; other characters stay. */
  lemma LowerCaseMeaning(s: string, i: nat)
    requires i < |s|
    ensures var capitals, small := "ABCDEFGHIJKLMNOPQRSTUVWXYZ", "abcdefghijklmnopqrstuvwxyz";
      && (forall k :: 0 <= k < 26 && s[i] == capitals[k] ==> LowerCase(s)[i] == small[k])
      && (!('A' <= s[i] <= 'Z') ==> LowerCase(s)[i] == s[i])
  {
  }

  /** A single byte-range-spec as the standard writes it: `first` and `last` are digits, not both empty. */
  predicate Standard(first: string, last: string) {
    AllDigits(first) && AllDigits(last) && (first != "" || last != "")
  }

  function WrittenIn(unit: string, first: string, last: string): string {
    unit + "=" + (first + "-" + last)
  }

  function Written(first: string, last: string): string {
    WrittenIn(UNIT, first, last)
  }

  /** Section 14.1.2 of RFC 9110, position by position: from first to last, to the end when last is absent, or the last
      so many bytes when first is. */
  predicate Wanted(first: string, last: string, size: nat, k: int)
    requires Standard(first, last)
  {
    && 0 <= k < size
    && (if first == "" then size - Value(last) <= k
        else Value(first) <= k && (last == "" || k <= Value(last)))
  }

  /** No number is longer than int() reads. */
  predicate Readable(first: string, last: string) {
    |first| <= MAX_DIGITS && |last| <= MAX_DIGITS
  }

  lemma {:induction false} SplitWritten(first: string, last: string)
    requires AllDigits(first)
    ensures SplitHyphen(first + "-" + last) == Some((first, last))
  {
    var s := first + "-" + last;
    if first == "" {
      assert s[1..] == last;
    } else {
      SplitWritten(first[1..], last);
      assert s[1..] == first[1..] + "-" + last;
      assert first == [first[0]] + first[1..];
    }
  }

  lemma ChosenOfWritten(first: string, last: string, size: nat)
    requires Standard(first, last)
    ensures Chosen(Written(first, last), size)
         == var bounds := if first != "" then FromFirst(first, last, size) else Suffix(last, size);
            if bounds.Some? && 0 <= bounds.value.0 <= bounds.value.1 && bounds.value.0 < size then bounds else None
  {
    var header := Written(first, last);
    SplitWritten(first, last);
    assert header == PREFIX + (first + "-" + last);
    assert header[|PREFIX|..] == first + "-" + last;
    assert PREFIX <= header;
    assert ',' !in header;
  }

  /** A unit spelled in any other case is refused. */
  lemma OtherUnitRefused(unit: string, first: string, last: string, size: nat)
    requires LowerCase(unit) == UNIT && unit != UNIT
    ensures Chosen(WrittenIn(unit, first, last), size).None?
  {
    var header := WrittenIn(unit, first, last);
    assert |unit| == |LowerCase(unit)| == |UNIT|;
    assert header[..|UNIT|] == unit;
    if PREFIX <= header {
      PrefixNamesTheUnit(header);
    }
  }

  lemma PrefixNamesTheUnit(header: string)
    requires PREFIX <= header
    ensures header[..|UNIT|] == UNIT
  {
    assert header[..|UNIT|] == PREFIX[..|UNIT|];
  }

  /** For every file and every single range the standard can write, with the unit in any case, the server accepts exactly
      when the unit is in lower case, each number has at most 4300 digits and the range wants some byte of the file; and
      then it sends precisely the wanted positions. */
  lemma AcceptsWhatTheStandardWants(unit: string, first: string, last: string, size: nat)
    requires Standard(first, last) && LowerCase(unit) == UNIT
    ensures var chosen := Chosen(WrittenIn(unit, first, last), size);
      && (chosen.Some? <==> unit == UNIT && Readable(first, last) && exists k :: Wanted(first, last, size, k))
      && (chosen.Some? ==> forall k :: chosen.value.0 <= k <= chosen.value.1 <==> Wanted(first, last, size, k))
  {
    if unit != UNIT {
      OtherUnitRefused(unit, first, last, size);
    } else if Readable(first, last) {
      AcceptsReadable(first, last, size);
    } else {
      LongNumberRefused(first, last, size);
    }
  }

  lemma AcceptsReadable(first: string, last: string, size: nat)
    requires Standard(first, last) && Readable(first, last)
    ensures var chosen := Chosen(Written(first, last), size);
      && (chosen.Some? <==> exists k :: Wanted(first, last, size, k))
      && (chosen.Some? ==> forall k :: chosen.value.0 <= k <= chosen.value.1 <==> Wanted(first, last, size, k))
  {
    ParsePlainDigits(first);
    ParsePlainDigits(last);
    ChosenOfWritten(first, last, size);
    var chosen := Chosen(Written(first, last), size);
    if chosen.Some? {
      assert Wanted(first, last, size, chosen.value.0);
    } else if first != "" {
      WantedFirst(first, last, size);
    } else {
      WantedSuffix(last, size);
    }
  }

  lemma WantedFirst(first: string, last: string, size: nat)
    requires Standard(first, last) && Readable(first, last) && first != "" && Chosen(Written(first, last), size).None?
    ensures forall k :: !Wanted(first, last, size, k)
  {
    ParsePlainDigits(first);
    ParsePlainDigits(last);
    ChosenOfWritten(first, last, size);
  }

  lemma WantedSuffix(last: string, size: nat)
    requires Standard("", last) && Readable("", last) && Chosen(Written("", last), size).None?
    ensures forall k :: !Wanted("", last, size, k)
  {
    ParsePlainDigits(last);
    ChosenOfWritten("", last, size);
  }

  lemma LongNumberRefused(first: string, last: string, size: nat)
    requires Standard(first, last) && !Readable(first, last)
    ensures Chosen(Written(first, last), size).None?
  {
    ParsePlainDigits(first);
    ParsePlainDigits(last);
    ChosenOfWritten(first, last, size);
  }

  /** The header bytes=0-99...9 with more than 4300 nines, for a file the nines reach past: the standard wants every byte,
      and the server answers 416. */
  lemma LongHeaderRefused(nines: string, size: nat)
    requires |nines| > MAX_DIGITS && (forall i :: 0 <= i < |nines| ==> nines[i] == '9') && 0 < size <= Value(nines)
    ensures forall k :: Wanted("0", nines, size, k) <==> 0 <= k < size
    ensures Chosen(Written("0", nines), size).None?
  {
    assert "0"[..0] == "" && Value("0") == 0;
    LongNumberRefused("0", nines, size);
  }

  /** The header of a single range with these two texts for its numbers. */
  function Header(left: string, right: string): string {
    PREFIX + (left + "-" + right)
  }

  lemma {:induction false} SplitAtFirstHyphen(left: string, right: string)
    requires '-' !in left
    ensures SplitHyphen(left + "-" + right) == Some((left, right))
  {
    var s := left + "-" + right;
    if left == "" {
      assert s[1..] == right;
    } else {
      SplitAtFirstHyphen(left[1..], right);
      assert s[1..] == left[1..] + "-" + right;
      assert left == [left[0]] + left[1..];
    }
  }

  lemma ChosenOfHeader(left: string, right: string, size: nat)
    requires '-' !in left && ',' !in left + right
    ensures Chosen(Header(left, right), size)
         == var bounds := if left != "" then FromFirst(left, right, size) else Suffix(right, size);
            if bounds.Some? && 0 <= bounds.value.0 <= bounds.value.1 && bounds.value.0 < size then bounds else None
  {
    var header := Header(left, right);
    SplitAtFirstHyphen(left, right);
    assert header[|PREFIX|..] == left + "-" + right;
    assert forall c :: c in left + "-" + right ==> c in left + right || c == '-';
    assert ',' !in header;
  }

  /** Any spelling int() reads asks for what the plain digits of the same numbers ask for; a text it does not read, a
      negative number and a header without a hyphen or with a comma are refused. */
  lemma SpellingDoesNotMatter(left: string, right: string, size: nat)
    requires '-' !in left && ',' !in left + right
    ensures var first, last := ParseInt(left), ParseInt(right);
      Chosen(Header(left, right), size) ==
      if (left != "" && first.None?) || (right != "" && last.None?) || (left == "" && right == "")
         || (right != "" && last.value < 0) || (left != "" && first.value < 0) then None
      else Chosen(Written(if left == "" then "" else Show(first.value), if right == "" then "" else Show(last.value)), size)
  {
    ChosenOfHeader(left, right, size);
    if left != "" && ParseInt(left).Some? && ParseInt(left).value >= 0 {
      ParsedIsShort(left);
    }
    if right != "" && ParseInt(right).Some? && ParseInt(right).value >= 0 {
      ParsedIsShort(right);
    }
    if left == "" && right == "" {
      ParsePlainDigits("");
    } else if (left == "" || (ParseInt(left).Some? && ParseInt(left).value >= 0))
           && (right == "" || (ParseInt(right).Some? && ParseInt(right).value >= 0)) {
      ChosenOfWritten(if left == "" then "" else Show(ParseInt(left).value),
                      if right == "" then "" else Show(ParseInt(right).value), size);
    }
  }

  lemma {:induction false} NoHyphenNoSplit(s: string)
    ensures SplitHyphen(s).None? <==> '-' !in s
    ensures SplitHyphen(s).Some? ==> '-' !in SplitHyphen(s).value.0 && s == SplitHyphen(s).value.0 + "-" + SplitHyphen(s).value.1
  {
    if s != "" {
      NoHyphenNoSplit(s[1..]);
      assert s == [s[0]] + s[1..];
    }
  }

  /** Every accepted header is of that form. */
  lemma AcceptedIsAHeader(header: string, size: nat) returns (left: string, right: string)
    requires Chosen(header, size).Some?
    ensures '-' !in left && ',' !in left + right && header == Header(left, right)
  {
    NoHyphenNoSplit(header[|PREFIX|..]);
    left, right := SplitHyphen(header[|PREFIX|..]).value.0, SplitHyphen(header[|PREFIX|..]).value.1;
    assert header == PREFIX + header[|PREFIX|..];
    assert forall c :: c in left + right ==> c in left + "-" + right;
  }

  /** The standard form of an accepted request: int() also takes white space, signs and underscores, but the choice is
      always one that a standard request for the same file makes. */
  lemma AcceptedMeansAStandardRange(header: string, size: nat)
    requires Chosen(header, size).Some?
    ensures exists first, last :: Standard(first, last) && Chosen(Written(first, last), size) == Chosen(header, size)
    ensures |Show(size)| <= MAX_DIGITS ==> exists first, last ::
      Standard(first, last) && first != "" && Chosen(Written(first, last), size) == Chosen(header, size)
  {
    var Some((left, right)) := SplitHyphen(header[|PREFIX|..]);
    if left != "" {
      FromFirstIsStandard(header, left, right, size);
    } else {
      SuffixIsStandard(header, right, size);
    }
    if |Show(size)| <= MAX_DIGITS {
      BoundsAreStandard(header, size);
    }
  }

  /** A number int() reads is written with at most MAX_DIGITS digits. */
  lemma ParsedIsShort(s: string)
    requires ParseInt(s).Some? && ParseInt(s).value >= 0
    ensures var text := Show(ParseInt(s).value); text != "" && AllDigits(text) && ParseInt(text) == ParseInt(s)
  {
    var t := StripRight(StripLeft(s));
    var u := if t != "" && (t[0] == '-' || t[0] == '+') then t[1..] else t;
    assert IsGrouped(u) && u[0] != '_';
    ShowReadsBack(ParseInt(s).value);
    ShowOfValue(Digits(u));
    ParsePlainDigits(Show(ParseInt(s).value));
  }

  lemma FromFirstIsStandard(header: string, left: string, right: string, size: nat)
    requires Chosen(header, size).Some? && SplitHyphen(header[|PREFIX|..]) == Some((left, right)) && left != ""
    ensures exists first, last :: Standard(first, last) && Chosen(Written(first, last), size) == Chosen(header, size)
  {
    ParsedIsShort(left);
    var first := Show(ParseInt(left).value);
    var last := if right == "" then "" else Show(ParseInt(right).value);
    if right != "" {
      ParsedIsShort(right);
    }
    assert Standard(first, last);
    ChosenOfWritten(first, last, size);
  }

  lemma SuffixIsStandard(header: string, right: string, size: nat)
    requires Chosen(header, size).Some? && SplitHyphen(header[|PREFIX|..]) == Some(("", right))
    ensures exists first, last :: Standard(first, last) && Chosen(Written(first, last), size) == Chosen(header, size)
  {
    ParsedIsShort(right);
    var last := Show(ParseInt(right).value);
    assert Standard("", last);
    ChosenOfWritten("", last, size);
  }

  lemma BoundsAreStandard(header: string, size: nat)
    requires Chosen(header, size).Some? && |Show(size)| <= MAX_DIGITS
    ensures exists first, last ::
      Standard(first, last) && first != "" && Chosen(Written(first, last), size) == Chosen(header, size)
  {
    ChosenIsInside(header, size);
    var (start, end) := Chosen(header, size).value;
    ShowReadsBack(start);
    ShowReadsBack(end);
    ShowGrows(start, size);
    ShowGrows(end, size);
    ParsePlainDigits(Show(start));
    ParsePlainDigits(Show(end));
    ChosenOfWritten(Show(start), Show(end), size);
    assert Standard(Show(start), Show(end));
  }

  // ----- the reply -----

  datatype File = File(size: nat, content: seq<Byte>)

  datatype Reply = Reply(status: int, contentLength: int, contentRange: Option<(int, int, nat)>, body: seq<Byte>,
                         failed: bool)

  datatype Entry = Entry(path: string, requested: Option<string>, start: int, end: int, status: int, bodyBytes: nat,
                         failed: bool)

  const CHUNK: nat := 1024 * 1024

  /** The send loop. `offers` says how many bytes each read yields at most; a read of at least one byte never comes back
      empty before the end of the file, and an empty read fails the reply. */
  method Send(content: seq<Byte>, start: nat, length: nat, offers: nat -> nat) returns (sent: seq<Byte>, failed: bool)
    ensures !failed <==> length == 0 || start + length <= |content|
    ensures !failed && length > 0 ==> sent == content[start..start + length]
    ensures |sent| == length <==> !failed
    ensures failed ==> sent == if start <= |content| then content[start..] else []
  {
    sent, failed := [], false;
    var remaining := length;
    var turn := 0;
    while remaining != 0
      invariant 0 <= remaining && remaining + |sent| == length
      invariant |sent| > 0 ==> start + |sent| <= |content|
      invariant sent == if start + |sent| <= |content| then content[start..start + |sent|] else []
      decreases remaining
    {
      var position := start + |sent|;
      if position >= |content| {
        return sent, true;
      }
      var n := Min(Min(remaining, CHUNK), Min(Max(1, offers(turn)), |content| - position));
      var chunk := content[position..position + n];
      assert content[start..position] + chunk == content[start..position + n];
      sent := sent + chunk;
      remaining := remaining - n;
      turn := turn + 1;
    }
  }

  /** What is asked of a file: the whole of it without a Range header, otherwise the chosen positions. */
  function Requested(requested: Option<string>, size: nat): Option<(int, int)> {
    if requested.None? || requested.value == "" then Some((0, size - 1)) else Chosen(requested.value, size)
  }

  class Server {
    const objects: map<string, File>
    var log: seq<Entry>

    constructor (objects: map<string, File>)
      ensures this.objects == objects && log == []
    {
      this.objects := objects;
      log := [];
    }

    /** One GET (with a body) or HEAD. */
    method Transfer(path: string, requested: Option<string>, body: bool, offers: nat -> nat) returns (r: Reply)
      modifies this`log
      ensures path !in objects ==> r.status == 404 && log == old(log)
      ensures path in objects ==>
        (r.status == 416 <==> Requested(requested, objects[path].size).None?) && r.status in {200, 206, 416}
      ensures r.status == 416 ==> r.contentLength == 0 && r.body == [] && log == old(log)
      ensures r.status in {200, 206} ==>
        ReplyFits(r, objects[path], Requested(requested, objects[path].size).value, body)
      ensures r.status == 206 <==>
        path in objects && requested.Some? && requested.value != "" && Chosen(requested.value, objects[path].size).Some?
      ensures r.status in {200, 206} ==>
        && |log| == |old(log)| + 1 && log[..|old(log)|] == old(log)
        && log[|old(log)|].bodyBytes == |r.body| && log[|old(log)|].status == r.status
        && (log[|old(log)|].start, log[|old(log)|].end) == Requested(requested, objects[path].size).value
    {
      if path !in objects {
        return Reply(404, 0, None, [], false);
      }
      var file := objects[path];
      var start, end, status := 0, file.size - 1, 200;
      if requested.Some? && requested.value != "" {
        var chosen := Chosen(requested.value, file.size);
        if chosen.None? {
          return Reply(416, 0, None, [], false);
        }
        ChosenIsInside(requested.value, file.size);
        start, end, status := chosen.value.0, chosen.value.1, 206;
      }
      var sent, failed := [], false;
      if body {
        sent, failed := Send(file.content, start, end - start + 1, offers);
      }
      r := Reply(status, end - start + 1, if status == 206 then Some((start, end, file.size)) else None, sent, failed);
      log := log + [Entry(path, requested, start, end, status, |sent|, failed)];
    }
  }

  /** A served reply: the announced length is the length of the range; a body that did not fail is exactly that slice; a
      file cut short since its size was read fails the reply after what there is, never shortens it silently. */
  ghost predicate ReplyFits(r: Reply, file: File, range: (int, int), body: bool) {
    var (start, end) := range;
    && r.contentLength == end - start + 1
    && (r.status == 206 <==> r.contentRange.Some?) && (r.contentRange.Some? ==> r.contentRange.value == (start, end, file.size))
    && (!body ==> r.body == [] && !r.failed)
    && (body && !r.failed ==>
          && |r.body| == r.contentLength
          && (start <= end ==> 0 <= start && end < |file.content| && r.body == file.content[start..end + 1]))
    && (body && r.failed ==>
          && end >= |file.content| && |r.body| < r.contentLength
          && r.body == if 0 <= start <= |file.content| then file.content[start..] else [])
  }

  // ----- ranges that tile a file -----

  ghost predicate Tiles(ranges: seq<(int, int)>, from: int, size: nat) {
    if ranges == [] then from == size
    else ranges[0].0 == from && from <= ranges[0].1 < size && Tiles(ranges[1..], ranges[0].1 + 1, size)
  }

  function Slice(content: seq<Byte>, range: (int, int)): seq<Byte> {
    if 0 <= range.0 <= range.1 < |content| then content[range.0..range.1 + 1] else []
  }

  function Bodies(content: seq<Byte>, ranges: seq<(int, int)>): seq<seq<Byte>> {
    seq(|ranges|, i requires 0 <= i < |ranges| => Slice(content, ranges[i]))
  }

  /** Whatever accepted ranges tile a file, their bodies put end to end are the file. */
  lemma {:induction false} TilingReassembles(content: seq<Byte>, ranges: seq<(int, int)>, from: nat)
    requires Tiles(ranges, from, |content|)
    ensures from <= |content| && Flatten(Bodies(content, ranges)) == content[from..]
    decreases |ranges|
  {
    if ranges != [] {
      TilingReassembles(content, ranges[1..], ranges[0].1 + 1);
      assert Bodies(content, ranges)[1..] == Bodies(content, ranges[1..]);
      assert Slice(content, ranges[0]) + content[ranges[0].1 + 1..] == content[from..];
    }
  }

  /** The headers a reader sends to fetch a file in pieces of `step` bytes, from position `from` on. */
  function PieceHeaders(from: nat, step: nat, size: nat): seq<string>
    requires step > 0
    decreases size - from
  {
    if from >= size then [] else [Written(Show(from), Show(from + step - 1))] + PieceHeaders(from + step, step, size)
  }

  function Ranges(headers: seq<string>, size: nat): Option<seq<(int, int)>> {
    if headers == [] then Some([])
    else
      var first, rest := Chosen(headers[0], size), Ranges(headers[1..], size);
      if first.None? || rest.None? then None else Some([first.value] + rest.value)
  }

  /** The last position named in those headers. */
  function LastBound(from: nat, step: nat, size: nat): nat
    requires step > 0
    decreases size - from
  {
    if from + step >= size then from + step - 1 else LastBound(from + step, step, size)
  }

  /** The end of the last whole piece, where a file of this size is cut into pieces of `step` bytes from its beginning. */
  function LastPosition(size: nat, step: nat): nat
    requires step > 0 && size > 0
  {
    var whole: nat := (size - 1) / step;
    whole * step + step - 1
  }

  lemma {:induction false} LastBoundIs(turn: nat, step: nat, size: nat)
    requires step > 0 && turn * step < size
    ensures LastBound(turn * step, step, size) == LastPosition(size, step)
    decreases size - turn * step
  {
    assert (turn + 1) * step == turn * step + step;
    if turn * step + step >= size {
      assert (size - 1) / step == turn by {
        DivisionIs(size - 1, step, turn);
      }
    } else {
      LastBoundIs(turn + 1, step, size);
    }
  }

  lemma DivisionIs(n: nat, d: nat, q: nat)
    requires d > 0 && q * d <= n < q * d + d
    ensures n / d == q
  {
    var r := n / d;
    assert r * d <= n < r * d + d && (q + 1) * d == q * d + d && (r + 1) * d == r * d + d;
    if r > q {
      TimesGrows(q + 1, r, d);
    } else if r < q {
      TimesGrows(r + 1, q, d);
    }
  }

  lemma TimesGrows(a: nat, b: nat, d: nat)
    requires a <= b
    ensures a * d <= b * d
  {
  }

  lemma {:induction false} LastBoundIsLast(from: nat, step: nat, size: nat)
    requires step > 0
    ensures LastBound(from, step, size) >= from + step - 1
    decreases size - from
  {
    if from + step < size {
      LastBoundIsLast(from + step, step, size);
    }
  }

  lemma PieceIsChosen(from: nat, step: nat, size: nat)
    requires step > 0 && from < size
    ensures Chosen(Written(Show(from), Show(from + step - 1)), size)
         == if |Show(from + step - 1)| <= MAX_DIGITS then Some((from, Min(from + step - 1, size - 1))) else None
  {
    ShowReadsBack(from);
    ShowReadsBack(from + step - 1);
    ShowGrows(from, from + step - 1);
    ParsePlainDigits(Show(from));
    ParsePlainDigits(Show(from + step - 1));
    ChosenOfWritten(Show(from), Show(from + step - 1), size);
  }

  lemma PieceRanges(from: nat, step: nat, size: nat)
    requires step > 0 && from < size
    ensures var rest := Ranges(PieceHeaders(from + step, step, size), size);
      Ranges(PieceHeaders(from, step, size), size)
      == if rest.None? || |Show(from + step - 1)| > MAX_DIGITS then None
         else Some([(from, Min(from + step - 1, size - 1))] + rest.value)
  {
    PieceIsChosen(from, step, size);
    assert PieceHeaders(from, step, size)[1..] == PieceHeaders(from + step, step, size);
  }

  lemma {:induction false} PiecesTile(from: nat, step: nat, size: nat)
    requires step > 0
    ensures var ranges := Ranges(PieceHeaders(from, step, size), size);
      && (ranges.Some? <==> from >= size || |Show(LastBound(from, step, size))| <= MAX_DIGITS)
      && (ranges.Some? ==> Tiles(ranges.value, Min(from, size), size))
    decreases size - from
  {
    if from < size {
      PiecesTile(from + step, step, size);
      PieceRanges(from, step, size);
      LastBoundIsLast(from, step, size);
      ShowGrows(from + step - 1, LastBound(from, step, size));
      var rest := Ranges(PieceHeaders(from + step, step, size), size);
      if rest.Some? {
        TilesFirst((from, Min(from + step - 1, size - 1)), rest.value, from, size);
      }
    }
  }

  lemma TilesFirst(range: (int, int), rest: seq<(int, int)>, from: int, size: nat)
    requires range.0 == from && from <= range.1 < size && Tiles(rest, range.1 + 1, size)
    ensures Tiles([range] + rest, from, size)
  {
    assert ([range] + rest)[1..] == rest;
  }

  /** Reading any file in pieces of any size: every request is accepted if and only if the last position named has at
      most 4300 digits, and then the pieces are the file. */
  lemma ReadingInPieces(content: seq<Byte>, step: nat)
    requires step > 0
    ensures var ranges := Ranges(PieceHeaders(0, step, |content|), |content|);
      && (ranges.Some? <==> content == [] || |Show(LastPosition(|content|, step))| <= MAX_DIGITS)
      && (ranges.Some? ==> Flatten(Bodies(content, ranges.value)) == content)
  {
    var ranges := Ranges(PieceHeaders(0, step, |content|), |content|);
    PiecesTile(0, step, |content|);
    if content != [] {
      LastBoundIs(0, step, |content|);
    }
    if ranges.Some? {
      TilingReassembles(content, ranges.value, 0);
      assert content[0..] == content;
    }
  }
}
