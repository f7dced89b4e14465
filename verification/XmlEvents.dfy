/** Two readings of one XML document compared event by event: src/spicy_regs/cfr_native_audit.py, independent_events
    (parser callbacks driving a state machine), maintained_events (a recursive walk of a tree) and the comparison in run. */
module XmlEvents {
  import opened Basics

  const MAX_BODY: nat := 2 * 1024 * 1024
  const MAX_ELEMENTS: nat := 100000
  const MAX_DEPTH: nat := 64
  const MAX_ATTRIBUTES: nat := 64

  type Pairs = seq<(string, string)>

  datatype Event = Start(name: string, attributes: Pairs, declarations: Pairs) | End(name: string) | Text(text: string)

  /** Mixed content, in order. Names are in expanded form: a local name, with its URI in braces before it if it has one. */
  datatype Node = Node(name: string, attributes: Pairs, declarations: Pairs, content: Content)
  datatype Content = Nil | TextThen(text: string, rest: Content) | NodeThen(node: Node, rest: Content)

  // ----- the tree walk -----

  /** result[-1][1] += item, or append a text event. */
  function AddText(events: seq<Event>, text: string): seq<Event> {
    if events != [] && events[|events| - 1].Text?
    then events[..|events| - 1] + [Text(events[|events| - 1].text + text)]
    else events + [Text(text)]
  }

  function Maintained(node: Node): seq<Event>
    decreases node, 1
  {
    Walk([Start(node.name, node.attributes, node.declarations)], node.content) + [End(node.name)]
  }

  /** The loop over a node's content, with what it has produced so far. */
  function Walk(result: seq<Event>, content: Content): seq<Event>
    decreases content, 0
  {
    match content
    case Nil => result
    case TextThen(text, rest) => Walk(AddText(result, text), rest)
    case NodeThen(node, rest) => Walk(result + Maintained(node), rest)
  }

  // ----- parser callbacks -----

  datatype Callback =
    | OnDeclaration(prefix: string, uri: string)
    | OnStart(raw: string, attributes: Pairs)
    | OnEnd(raw: string)
    | OnText(chunk: string)
    | OnForbidden

  const OPEN_BRACE: char := 123 as char
  const CLOSE_BRACE: char := 125 as char

  /** Expat joins a namespace URI to its local name with a closing brace. */
  function Expanded(raw: string): string {
    if CLOSE_BRACE in raw then [OPEN_BRACE] + raw else raw
  }

  function RawName(name: string): string {
    if name != "" && name[0] == OPEN_BRACE then name[1..] else name
  }

  /** An expanded name: no closing brace, or an opening brace followed by something that holds a closing one. */
  predicate IsExpandedName(name: string) {
    if name != "" && name[0] == OPEN_BRACE then CLOSE_BRACE in name[1..] else CLOSE_BRACE !in name
  }

  lemma ExpandedOfRaw(name: string)
    requires IsExpandedName(name)
    ensures Expanded(RawName(name)) == name
  {
    if name != "" && name[0] == OPEN_BRACE {
      assert name == [OPEN_BRACE] + name[1..];
    }
  }

  function ExpandPairs(pairs: Pairs): (r: Pairs)
    ensures |r| == |pairs|
  {
    seq(|pairs|, i requires 0 <= i < |pairs| => (Expanded(pairs[i].0), pairs[i].1))
  }

  function RawPairs(pairs: Pairs): (r: Pairs)
    ensures |r| == |pairs|
  {
    seq(|pairs|, i requires 0 <= i < |pairs| => (RawName(pairs[i].0), pairs[i].1))
  }

  predicate ExpandedNames(pairs: Pairs) {
    forall pair :: pair in pairs ==> IsExpandedName(pair.0)
  }

  lemma ExpandRawPairs(pairs: Pairs)
    requires ExpandedNames(pairs)
    ensures ExpandPairs(RawPairs(pairs)) == pairs
  {
    forall i | 0 <= i < |pairs|
      ensures ExpandPairs(RawPairs(pairs))[i] == pairs[i]
    {
      assert pairs[i] in pairs;
      ExpandedOfRaw(pairs[i].0);
    }
  }

  // ----- the handlers -----

  datatype Machine = Machine(depth: int, count: nat, chars: nat, declarations: Pairs, events: seq<Event>)

  const START := Machine(0, 0, 0, [], [])

  /** One callback; None where the source raises. */
  function Handle(m: Machine, callback: Callback): Option<Machine> {
    match callback
    case OnDeclaration(prefix, uri) => Some(m.(declarations := m.declarations + [(prefix, uri)]))
    case OnStart(raw, attributes) =>
      if m.depth + 1 > MAX_DEPTH || m.count + 1 > MAX_ELEMENTS || |attributes| > MAX_ATTRIBUTES then None
      else Some(Machine(m.depth + 1, m.count + 1, m.chars, [],
                        m.events + [Start(Expanded(raw), ExpandPairs(attributes), m.declarations)]))
    case OnEnd(raw) => Some(m.(events := m.events + [End(Expanded(raw))], depth := m.depth - 1))
    case OnText(chunk) =>
      if m.depth == 0 then Some(m)
      else if m.chars + |chunk| > MAX_BODY then None
      else Some(m.(chars := m.chars + |chunk|, events := AddText(m.events, chunk)))
    case OnForbidden => None
  }

  function HandleAll(m: Machine, callbacks: seq<Callback>): Option<Machine>
    decreases |callbacks|
  {
    if callbacks == [] then Some(m)
    else
      match Handle(m, callbacks[0])
      case None => None
      case Some(next) => HandleAll(next, callbacks[1..])
  }

  /** What independent_events returns. */
  function Independent(callbacks: seq<Callback>): Option<seq<Event>> {
    match HandleAll(START, callbacks)
    case None => None
    case Some(m) => if m.count > 0 && m.depth == 0 then Some(m.events) else None
  }

  /** The handlers as the source has them: closures over variables they update. */
  class Handlers {
    var depth: int
    var count: nat
    var chars: nat
    var declarations: Pairs
    var events: seq<Event>

    function Now(): Machine
      reads this
    {
      Machine(depth, count, chars, declarations, events)
    }

    constructor ()
      ensures Now() == START
    {
      depth, count, chars, declarations, events := 0, 0, 0, [], [];
    }

    method OnStartElement(raw: string, attributes: Pairs) returns (ok: bool)
      modifies this
      ensures ok <==> Handle(old(Now()), OnStart(raw, attributes)).Some?
      ensures ok ==> Now() == Handle(old(Now()), OnStart(raw, attributes)).value
    {
      depth, count := depth + 1, count + 1;
      if depth > MAX_DEPTH || count > MAX_ELEMENTS || |attributes| > MAX_ATTRIBUTES {
        return false;
      }
      events := events + [Start(Expanded(raw), ExpandPairs(attributes), declarations)];
      declarations := [];
      ok := true;
    }

    method OnCharacters(chunk: string) returns (ok: bool)
      modifies this
      ensures ok <==> Handle(old(Now()), OnText(chunk)).Some?
      ensures ok ==> Now() == Handle(old(Now()), OnText(chunk)).value
    {
      if depth == 0 {
        return true;
      }
      chars := chars + |chunk|;
      if chars > MAX_BODY {
        return false;
      }
      events := AddText(events, chunk);
      ok := true;
    }

    method Dispatch(callback: Callback) returns (ok: bool)
      modifies this
      ensures ok <==> Handle(old(Now()), callback).Some?
      ensures ok ==> Now() == Handle(old(Now()), callback).value
    {
      match callback
      case OnDeclaration(prefix, uri) =>
        declarations := declarations + [(prefix, uri)];
        ok := true;
      case OnStart(raw, attributes) =>
        ok := OnStartElement(raw, attributes);
      case OnEnd(raw) =>
        events := events + [End(Expanded(raw))];
        depth := depth - 1;
        ok := true;
      case OnText(chunk) =>
        ok := OnCharacters(chunk);
      case OnForbidden =>
        ok := false;
    }
  }

  /** `bytes` is the length of the body; the callbacks are those the parser makes of it. */
  method IndependentEvents(bytes: nat, callbacks: seq<Callback>) returns (r: Option<seq<Event>>)
    ensures r == if bytes <= MAX_BODY then Independent(callbacks) else None
  {
    if bytes > MAX_BODY {
      return None;
    }
    var handlers := new Handlers();
    var i := 0;
    while i < |callbacks|
      invariant 0 <= i <= |callbacks| && fresh(handlers)
      invariant HandleAll(START, callbacks) == HandleAll(handlers.Now(), callbacks[i..])
    {
      assert callbacks[i..][1..] == callbacks[i + 1..];
      var ok := handlers.Dispatch(callbacks[i]);
      if !ok {
        return None;
      }
      i := i + 1;
    }
    r := if handlers.count > 0 && handlers.depth == 0 then Some(handlers.events) else None;
  }

  // ----- the meaning of the walk: merge adjacent text, then list -----

  function PrependText(text: string, content: Content): Content {
    if content.TextThen? then TextThen(text + content.text, content.rest) else TextThen(text, content)
  }

  function Merge(node: Node): Node
    decreases node, 1
  {
    node.(content := MergeContent(node.content))
  }

  function MergeContent(content: Content): Content
    decreases content, 0
  {
    match content
    case Nil => Nil
    case TextThen(text, rest) => PrependText(text, MergeContent(rest))
    case NodeThen(node, rest) => NodeThen(Merge(node), MergeContent(rest))
  }

  /** The events of a tree item by item, without any merging. */
  function Plain(node: Node): (r: seq<Event>)
    ensures r != [] && r[0].Start? && r[|r| - 1].End?
    decreases node, 1
  {
    [Start(node.name, node.attributes, node.declarations)] + PlainContent(node.content) + [End(node.name)]
  }

  function PlainContent(content: Content): seq<Event>
    decreases content, 0
  {
    match content
    case Nil => []
    case TextThen(text, rest) => [Text(text)] + PlainContent(rest)
    case NodeThen(node, rest) => Plain(node) + PlainContent(rest)
  }

  predicate EndsInText(events: seq<Event>) {
    events != [] && events[|events| - 1].Text?
  }

  /** Continue a list whose last event may be text that the content's leading text joins. */
  function Continue(result: seq<Event>, content: Content): seq<Event> {
    if EndsInText(result) && content.TextThen?
    then AddText(result, content.text) + PlainContent(content.rest)
    else result + PlainContent(content)
  }

  lemma ContinueText(result: seq<Event>, text: string, merged: Content)
    requires result != []
    ensures Continue(AddText(result, text), merged) == Continue(result, PrependText(text, merged))
  {
    if EndsInText(result) {
      var front, last := result[..|result| - 1], result[|result| - 1];
      assert AddText(result, text)[..|result| - 1] == front;
      if merged.TextThen? {
        assert last.text + text + merged.text == last.text + (text + merged.text);
      }
    } else {
      assert AddText(result, text)[..|result|] == result;
      if merged.TextThen? {
        assert result + [Text(text + merged.text)] + PlainContent(merged.rest)
            == result + ([Text(text + merged.text)] + PlainContent(merged.rest));
      } else {
        assert result + [Text(text)] + PlainContent(merged) == result + ([Text(text)] + PlainContent(merged));
      }
    }
  }

  lemma {:induction false} WalkIsPlainMerged(result: seq<Event>, content: Content)
    requires result != []
    ensures Walk(result, content) == Continue(result, MergeContent(content))
    decreases content, 0
  {
    match content
    case Nil =>
    case TextThen(text, rest) =>
      WalkIsPlainMerged(AddText(result, text), rest);
      ContinueText(result, text, MergeContent(rest));
    case NodeThen(node, rest) =>
      MaintainedIsPlainMerged(node);
      WalkIsPlainMerged(result + Maintained(node), rest);
      assert result + Plain(Merge(node)) + PlainContent(MergeContent(rest))
          == result + (Plain(Merge(node)) + PlainContent(MergeContent(rest)));
  }

  /** maintained_events lists the tree whose adjacent text items have been joined. */
  lemma {:induction false} MaintainedIsPlainMerged(node: Node)
    ensures Maintained(node) == Plain(Merge(node))
    decreases node, 1
  {
    WalkIsPlainMerged([Start(node.name, node.attributes, node.declarations)], node.content);
  }

  // ----- the event list determines the tree -----

  function Parse(events: seq<Event>): (r: Option<(Node, seq<Event>)>)
    ensures r.Some? ==> |r.value.1| < |events|
    decreases |events|, 0
  {
    if events == [] || !events[0].Start? then None
    else
      match ParseContent(events[1..])
      case None => None
      case Some((content, rest)) =>
        if rest == [] || rest[0] != End(events[0].name) then None
        else Some((Node(events[0].name, events[0].attributes, events[0].declarations, content), rest[1..]))
  }

  /** Content up to, and not including, the first end event that is not its own. */
  function ParseContent(events: seq<Event>): (r: Option<(Content, seq<Event>)>)
    ensures r.Some? ==> |r.value.1| <= |events|
    decreases |events|, 1
  {
    if events == [] then None
    else
      match events[0]
      case End(_) => Some((Nil, events))
      case Text(text) =>
        (match ParseContent(events[1..])
         case None => None
         case Some((content, rest)) => Some((TextThen(text, content), rest)))
      case Start(_, _, _) =>
        (match Parse(events)
         case None => None
         case Some((node, more)) =>
           match ParseContent(more)
           case None => None
           case Some((content, rest)) => Some((NodeThen(node, content), rest)))
  }

  lemma {:induction false} ParsePlain(node: Node, tail: seq<Event>)
    ensures Parse(Plain(node) + tail) == Some((node, tail))
    decreases node, 1
  {
    var events := Plain(node) + tail;
    var after := [End(node.name)] + tail;
    assert events[1..] == PlainContent(node.content) + after;
    ParsePlainContent(node.content, after);
    assert after[1..] == tail;
  }

  lemma {:induction false} ParsePlainContent(content: Content, tail: seq<Event>)
    requires tail != [] && tail[0].End?
    ensures ParseContent(PlainContent(content) + tail) == Some((content, tail))
    decreases content, 0
  {
    match content
    case Nil =>
      assert PlainContent(Nil) + tail == tail;
    case TextThen(text, rest) =>
      ParsePlainContent(rest, tail);
      assert (PlainContent(content) + tail)[1..] == PlainContent(rest) + tail;
    case NodeThen(node, rest) =>
      assert PlainContent(content) + tail == Plain(node) + (PlainContent(rest) + tail);
      ParsePlain(node, PlainContent(rest) + tail);
      ParsePlainContent(rest, tail);
  }

  /** Reading maintained events back gives the tree with adjacent text joined. */
  lemma MaintainedParsesBack(node: Node)
    ensures Parse(Maintained(node)) == Some((Merge(node), []))
  {
    MaintainedIsPlainMerged(node);
    ParsePlain(Merge(node), []);
    assert Plain(Merge(node)) + [] == Plain(Merge(node));
  }

  /** Equal event lists are equal trees, up to how adjacent text is cut into items. */
  lemma EventsDetermineTree(a: Node, b: Node)
    ensures Maintained(a) == Maintained(b) <==> Merge(a) == Merge(b)
  {
    MaintainedParsesBack(a);
    MaintainedParsesBack(b);
    MaintainedIsPlainMerged(a);
    MaintainedIsPlainMerged(b);
  }

  // ----- empty text -----

  /** The tree without its empty text items: the parser reports no empty text. */
  function Strip(node: Node): Node
    decreases node, 1
  {
    node.(content := StripContent(node.content))
  }

  function StripContent(content: Content): Content
    decreases content, 0
  {
    match content
    case Nil => Nil
    case TextThen(text, rest) => if text == "" then StripContent(rest) else TextThen(text, StripContent(rest))
    case NodeThen(node, rest) => NodeThen(Strip(node), StripContent(rest))
  }

  predicate TextsNonempty(node: Node)
    decreases node, 1
  {
    ContentNonempty(node.content)
  }

  predicate ContentNonempty(content: Content)
    decreases content, 0
  {
    match content
    case Nil => true
    case TextThen(text, rest) => text != "" && ContentNonempty(rest)
    case NodeThen(node, rest) => TextsNonempty(node) && ContentNonempty(rest)
  }

  /** No two text items next to each other. */
  predicate Merged(node: Node)
    decreases node, 1
  {
    ContentMerged(node.content)
  }

  predicate ContentMerged(content: Content)
    decreases content, 0
  {
    match content
    case Nil => true
    case TextThen(_, rest) => !rest.TextThen? && ContentMerged(rest)
    case NodeThen(node, rest) => Merged(node) && ContentMerged(rest)
  }

  lemma {:induction false} MergeMerges(node: Node)
    ensures Merged(Merge(node))
    decreases node, 1
  {
    MergeContentMerges(node.content);
  }

  lemma {:induction false} MergeContentMerges(content: Content)
    ensures ContentMerged(MergeContent(content))
    decreases content, 0
  {
    match content
    case Nil =>
    case TextThen(_, rest) => MergeContentMerges(rest);
    case NodeThen(node, rest) => MergeMerges(node); MergeContentMerges(rest);
  }

  lemma {:induction false} StripOfMerged(node: Node)
    ensures Merge(Strip(node)) == Strip(Merge(node))
    decreases node, 1
  {
    StripOfMergedContent(node.content);
  }

  /** Dropping empty items and then joining is joining and then dropping empty runs. */
  lemma {:induction false} StripOfMergedContent(content: Content)
    ensures MergeContent(StripContent(content)) == StripContent(MergeContent(content))
    decreases content, 0
  {
    match content
    case Nil =>
    case TextThen(text, rest) =>
      StripOfMergedContent(rest);
      MergeContentMerges(rest);
      var merged := MergeContent(rest);
      if merged.TextThen? {
        assert !StripContent(merged.rest).TextThen?;
      } else {
        assert !StripContent(merged).TextThen?;
      }
    case NodeThen(node, rest) =>
      StripOfMerged(node);
      StripOfMergedContent(rest);
  }

  lemma {:induction false} StripFixesExactly(node: Node)
    ensures Strip(node) == node <==> TextsNonempty(node)
    decreases node, 1
  {
    StripContentFixesExactly(node.content);
  }

  lemma {:induction false} StripContentFixesExactly(content: Content)
    ensures StripContent(content) == content <==> ContentNonempty(content)
    decreases content, 0
  {
    match content
    case Nil =>
    case TextThen(text, rest) =>
      StripContentFixesExactly(rest);
      StripShortens(rest);
    case NodeThen(node, rest) =>
      StripFixesExactly(node);
      StripContentFixesExactly(rest);
  }

  function Items(content: Content): nat {
    match content
    case Nil => 0
    case TextThen(_, rest) => 1 + Items(rest)
    case NodeThen(_, rest) => 1 + Items(rest)
  }

  lemma {:induction false} StripShortens(content: Content)
    ensures Items(StripContent(content)) <= Items(content)
  {
    match content
    case Nil =>
    case TextThen(_, rest) => StripShortens(rest);
    case NodeThen(_, rest) => StripShortens(rest);
  }

  // ----- the callbacks of a document -----

  function Declarations(pairs: Pairs): seq<Callback> {
    if pairs == [] then [] else [OnDeclaration(pairs[0].0, pairs[0].1)] + Declarations(pairs[1..])
  }

  function Opening(node: Node): seq<Callback> {
    Declarations(node.declarations) + [OnStart(RawName(node.name), RawPairs(node.attributes))]
  }

  /** One callback for each item: each declaration, the start, each text item, the end. */
  function Calls(node: Node): seq<Callback>
    decreases node, 1
  {
    Opening(node) + ContentCalls(node.content) + [OnEnd(RawName(node.name))]
  }

  function ContentCalls(content: Content): seq<Callback>
    decreases content, 0
  {
    match content
    case Nil => []
    case TextThen(text, rest) => [OnText(text)] + ContentCalls(rest)
    case NodeThen(node, rest) => Calls(node) + ContentCalls(rest)
  }

  /** Joins neighbouring text callbacks. */
  function Glue(callbacks: seq<Callback>): seq<Callback>
    decreases |callbacks|
  {
    if |callbacks| < 2 then callbacks
    else if callbacks[0].OnText? && callbacks[1].OnText?
    then Glue([OnText(callbacks[0].chunk + callbacks[1].chunk)] + callbacks[2..])
    else [callbacks[0]] + Glue(callbacks[1..])
  }

  /** A parser's report of the document: text in nonempty chunks cut anywhere, everything else once and in order. */
  ghost predicate ParserStream(node: Node, callbacks: seq<Callback>) {
    && (forall i :: 0 <= i < |callbacks| && callbacks[i].OnText? ==> callbacks[i].chunk != "")
    && Glue(callbacks) == Calls(Merge(Strip(node)))
  }

  function Chunks(chunks: seq<string>): seq<Callback> {
    if chunks == [] then [] else [OnText(chunks[0])] + Chunks(chunks[1..])
  }

  /** Cutting one text callback into any number of chunks does not change what the stream reports. */
  lemma {:induction false} SplittingIsInvisible(before: seq<Callback>, chunks: seq<string>, after: seq<Callback>)
    requires chunks != []
    ensures Glue(before + Chunks(chunks) + after) == Glue(before + [OnText(Flatten(chunks))] + after)
    decreases |chunks|
  {
    var first, rest := OnText(chunks[0]), chunks[1..];
    if rest == [] {
      assert Chunks(chunks) == [first] + Chunks(rest) && Flatten(chunks) == chunks[0] + Flatten(rest);
      assert Flatten(chunks) == chunks[0] && Chunks(chunks) == [first];
    } else {
      SplittingIsInvisible(before + [first], rest, after);
      JoinFirstTwo(before, chunks[0], Flatten(rest), after);
      assert before + Chunks(chunks) + after == before + [first] + Chunks(rest) + after;
      assert before + [first] + [OnText(Flatten(rest))] + after == before + [first, OnText(Flatten(rest))] + after;
    }
  }

  lemma DropFront(before: seq<Callback>, middle: seq<Callback>, after: seq<Callback>, k: nat)
    requires k <= |before|
    ensures (before + middle + after)[k..] == before[k..] + middle + after
  {
  }

  /** A text callback before two others that are joined. */
  lemma JoinAfterText(t: string, a: string, b: string, after: seq<Callback>)
    ensures Glue([OnText(t), OnText(a), OnText(b)] + after) == Glue([OnText(t), OnText(a + b)] + after)
  {
    var three, two := [OnText(t), OnText(a), OnText(b)] + after, [OnText(t), OnText(a + b)] + after;
    var joined := [OnText(t + a), OnText(b)] + after;
    assert [OnText(t + a)] + three[2..] == joined && joined[2..] == after;
    assert two[2..] == after && t + a + b == t + (a + b);
  }

  lemma {:induction false} JoinFirstTwo(before: seq<Callback>, a: string, b: string, after: seq<Callback>)
    ensures Glue(before + [OnText(a), OnText(b)] + after) == Glue(before + [OnText(a + b)] + after)
    decreases |before|
  {
    var apart, joined := [OnText(a), OnText(b)], [OnText(a + b)];
    var two, one := before + apart + after, before + joined + after;
    if before == [] {
      assert two[2..] == after && one == joined + after;
    } else if |before| == 1 && before[0].OnText? {
      JoinAfterText(before[0].chunk, a, b, after);
      assert two == [OnText(before[0].chunk), OnText(a), OnText(b)] + after;
      assert one == [OnText(before[0].chunk), OnText(a + b)] + after;
    } else if |before| > 1 && before[0].OnText? && before[1].OnText? {
      DropFront(before, apart, after, 2);
      DropFront(before, joined, after, 2);
      var first := [OnText(before[0].chunk + before[1].chunk)];
      JoinFirstTwo(first + before[2..], a, b, after);
      assert first + two[2..] == first + before[2..] + apart + after;
      assert first + one[2..] == first + before[2..] + joined + after;
    } else {
      DropFront(before, apart, after, 1);
      DropFront(before, joined, after, 1);
      JoinFirstTwo(before[1..], a, b, after);
    }
  }

  // ----- the handlers on such a stream -----

  lemma {:induction false} HandleAppend(m: Machine, a: seq<Callback>, b: seq<Callback>)
    ensures HandleAll(m, a + b) ==
            match HandleAll(m, a) case None => None case Some(next) => HandleAll(next, b)
    decreases |a|
  {
    if a == [] {
      assert a + b == b;
    } else {
      assert (a + b)[1..] == a[1..] + b && (a + b)[0] == a[0];
      match Handle(m, a[0])
      case None =>
      case Some(next) => HandleAppend(next, a[1..], b);
    }
  }

  lemma HandleTwoTexts(m: Machine, a: string, b: string, rest: seq<Callback>)
    ensures HandleAll(m, [OnText(a), OnText(b)] + rest) == HandleAll(m, [OnText(a + b)] + rest)
  {
    var two, one := [OnText(a), OnText(b)] + rest, [OnText(a + b)] + rest;
    assert two[1..] == [OnText(b)] + rest && two[1..][1..] == rest && one[1..] == rest;
    if m.depth != 0 {
      ContinueText2(m.events, a, b);
    }
  }

  lemma ContinueText2(events: seq<Event>, a: string, b: string)
    ensures AddText(AddText(events, a), b) == AddText(events, a + b)
  {
    if EndsInText(events) {
      var last := events[|events| - 1].text;
      assert AddText(events, a)[..|events| - 1] == events[..|events| - 1];
      assert last + a + b == last + (a + b);
    } else {
      assert AddText(events, a)[..|events|] == events;
    }
  }

  /** The handlers cannot tell how text was cut. */
  lemma {:induction false} GlueIsInvisible(m: Machine, callbacks: seq<Callback>)
    ensures HandleAll(m, Glue(callbacks)) == HandleAll(m, callbacks)
    decreases |callbacks|
  {
    if |callbacks| >= 2 {
      if callbacks[0].OnText? && callbacks[1].OnText? {
        var rest := callbacks[2..];
        HandleTwoTexts(m, callbacks[0].chunk, callbacks[1].chunk, rest);
        assert callbacks == [callbacks[0], callbacks[1]] + rest;
        GlueIsInvisible(m, [OnText(callbacks[0].chunk + callbacks[1].chunk)] + rest);
      } else {
        var glued := [callbacks[0]] + Glue(callbacks[1..]);
        assert glued[1..] == Glue(callbacks[1..]);
        match Handle(m, callbacks[0])
        case None =>
        case Some(next) => GlueIsInvisible(next, callbacks[1..]);
      }
    }
  }

  /** Cutting one text callback into any number of chunks changes neither the events nor whether they are accepted. */
  lemma SplittingKeepsEvents(before: seq<Callback>, chunks: seq<string>, after: seq<Callback>)
    requires chunks != []
    ensures Independent(before + Chunks(chunks) + after) == Independent(before + [OnText(Flatten(chunks))] + after)
  {
    SplittingIsInvisible(before, chunks, after);
    GlueIsInvisible(START, before + Chunks(chunks) + after);
    GlueIsInvisible(START, before + [OnText(Flatten(chunks))] + after);
  }

  // ----- every cutting of a document is a parser's stream -----

  /** The stream with each text cut into nonempty chunks, anywhere. */
  ghost predicate CutFrom(callbacks: seq<Callback>, whole: seq<Callback>)
    decreases |whole|
  {
    if whole == [] then callbacks == []
    else if whole[0].OnText? then
      exists chunks: seq<string> :: IsCut(chunks, whole[0].chunk, callbacks) && CutFrom(callbacks[|chunks|..], whole[1..])
    else callbacks != [] && callbacks[0] == whole[0] && CutFrom(callbacks[1..], whole[1..])
  }

  ghost predicate IsCut(chunks: seq<string>, text: string, callbacks: seq<Callback>) {
    && chunks != [] && Flatten(chunks) == text && (forall chunk :: chunk in chunks ==> chunk != "")
    && |chunks| <= |callbacks| && callbacks[..|chunks|] == Chunks(chunks)
  }

  ghost predicate NonemptyTexts(callbacks: seq<Callback>) {
    forall i :: 0 <= i < |callbacks| && callbacks[i].OnText? ==> callbacks[i].chunk != ""
  }

  lemma {:induction false} ChunksAre(chunks: seq<string>)
    ensures |Chunks(chunks)| == |chunks| && forall i :: 0 <= i < |chunks| ==> Chunks(chunks)[i] == OnText(chunks[i])
  {
    if chunks != [] {
      ChunksAre(chunks[1..]);
    }
  }

  lemma {:induction false} CutTextsNonempty(callbacks: seq<Callback>, whole: seq<Callback>)
    requires CutFrom(callbacks, whole)
    ensures NonemptyTexts(callbacks)
    decreases |whole|
  {
    if whole != [] {
      if whole[0].OnText? {
        var chunks: seq<string> :| IsCut(chunks, whole[0].chunk, callbacks) && CutFrom(callbacks[|chunks|..], whole[1..]);
        CutTextsNonempty(callbacks[|chunks|..], whole[1..]);
        CutIsNonempty(chunks, whole[0].chunk, callbacks);
        NonemptyTextsJoin(callbacks, |chunks|);
      } else {
        CutTextsNonempty(callbacks[1..], whole[1..]);
        MarkHoldsNoText(callbacks);
        NonemptyTextsJoin(callbacks, 1);
      }
    }
  }

  lemma CutIsNonempty(chunks: seq<string>, text: string, callbacks: seq<Callback>)
    requires IsCut(chunks, text, callbacks)
    ensures NonemptyTexts(callbacks[..|chunks|])
  {
    ChunksAre(chunks);
    assert forall i :: 0 <= i < |chunks| ==> chunks[i] in chunks;
  }

  lemma MarkHoldsNoText(callbacks: seq<Callback>)
    requires callbacks != [] && !callbacks[0].OnText?
    ensures NonemptyTexts(callbacks[..1])
  {
  }

  lemma NonemptyTextsJoin(callbacks: seq<Callback>, n: nat)
    requires n <= |callbacks| && NonemptyTexts(callbacks[..n]) && NonemptyTexts(callbacks[n..])
    ensures NonemptyTexts(callbacks)
  {
    forall i | 0 <= i < |callbacks| && callbacks[i].OnText?
      ensures callbacks[i].chunk != ""
    {
      assert if i < n then callbacks[..n][i] == callbacks[i] else callbacks[n..][i - n] == callbacks[i];
    }
  }

  lemma {:induction false} CutGluesBack(before: seq<Callback>, callbacks: seq<Callback>, whole: seq<Callback>)
    requires CutFrom(callbacks, whole)
    ensures Glue(before + callbacks) == Glue(before + whole)
    decreases |whole|
  {
    if whole != [] {
      var next := before + [whole[0]];
      Regroup(before, [whole[0]], whole[1..]);
      assert whole == [whole[0]] + whole[1..];
      if whole[0].OnText? {
        var chunks: seq<string> :| IsCut(chunks, whole[0].chunk, callbacks) && CutFrom(callbacks[|chunks|..], whole[1..]);
        CutTextGluesBack(before, chunks, callbacks, whole);
        CutGluesBack(next, callbacks[|chunks|..], whole[1..]);
      } else {
        CutGluesBack(next, callbacks[1..], whole[1..]);
        Regroup(before, [callbacks[0]], callbacks[1..]);
        assert callbacks == [callbacks[0]] + callbacks[1..];
      }
    }
  }

  lemma CutTextGluesBack(before: seq<Callback>, chunks: seq<string>, callbacks: seq<Callback>, whole: seq<Callback>)
    requires whole != [] && whole[0].OnText? && IsCut(chunks, whole[0].chunk, callbacks)
    ensures Glue(before + callbacks) == Glue((before + [whole[0]]) + callbacks[|chunks|..])
  {
    SplittingIsInvisible(before, chunks, callbacks[|chunks|..]);
    assert callbacks == Chunks(chunks) + callbacks[|chunks|..];
    Regroup(before, Chunks(chunks), callbacks[|chunks|..]);
    assert whole[0] == OnText(Flatten(chunks));
  }

  ghost predicate NoTwoTexts(callbacks: seq<Callback>) {
    forall i :: 0 < i < |callbacks| ==> !(callbacks[i - 1].OnText? && callbacks[i].OnText?)
  }

  lemma {:induction false} GlueFixes(callbacks: seq<Callback>)
    requires NoTwoTexts(callbacks)
    ensures Glue(callbacks) == callbacks
    decreases |callbacks|
  {
    if |callbacks| >= 2 {
      assert !(callbacks[0].OnText? && callbacks[1].OnText?);
      GlueFixes(callbacks[1..]);
      assert callbacks == [callbacks[0]] + callbacks[1..];
    }
  }

  lemma {:induction false} DeclarationsHoldNoText(pairs: Pairs)
    ensures forall i :: 0 <= i < |Declarations(pairs)| ==> !Declarations(pairs)[i].OnText?
  {
    if pairs != [] {
      DeclarationsHoldNoText(pairs[1..]);
    }
  }

  /** A callback sequence that neither begins nor ends with text. */
  ghost predicate Enclosed(callbacks: seq<Callback>) {
    NoTwoTexts(callbacks) && callbacks != [] && !callbacks[0].OnText? && !callbacks[|callbacks| - 1].OnText?
  }

  lemma {:induction false} CallsAlternate(node: Node)
    requires Merged(node)
    ensures Enclosed(Calls(node))
    decreases node, 1
  {
    var opening, content := Opening(node), ContentCalls(node.content);
    DeclarationsHoldNoText(node.declarations);
    ContentAlternates(node.content);
    assert !opening[|opening| - 1].OnText?;
    assert Calls(node) == opening + content + [OnEnd(RawName(node.name))];
    assert NoTwoTexts(opening + content);
  }

  lemma {:induction false} ContentAlternates(content: Content)
    requires ContentMerged(content)
    ensures NoTwoTexts(ContentCalls(content))
    ensures !content.TextThen? && ContentCalls(content) != [] ==> !ContentCalls(content)[0].OnText?
    decreases content, 0
  {
    match content
    case Nil =>
    case TextThen(text, rest) => ContentAlternates(rest);
    case NodeThen(node, rest) =>
      CallsAlternate(node);
      ContentAlternates(rest);
  }

  /** Every document, cut in every way into nonempty chunks, is a stream to which the main results apply. */
  lemma EveryCuttingIsAParserStream(node: Node, callbacks: seq<Callback>)
    requires CutFrom(callbacks, Calls(Merge(Strip(node))))
    ensures ParserStream(node, callbacks)
  {
    var whole := Calls(Merge(Strip(node)));
    MergeMerges(Strip(node));
    CallsAlternate(Merge(Strip(node)));
    GlueFixes(whole);
    CutGluesBack([], callbacks, whole);
    CutTextsNonempty(callbacks, whole);
    assert [] + callbacks == callbacks && [] + whole == whole;
  }

  /** The uncut stream is a cutting too, so no document is without a stream. */
  lemma UncutIsACutting(node: Node)
    ensures CutFrom(Calls(Merge(Strip(node))), Calls(Merge(Strip(node))))
  {
    MergeStripTexts(node);
    UncutOf(Calls(Merge(Strip(node))));
  }

  lemma {:induction false} UncutOf(whole: seq<Callback>)
    requires NonemptyTexts(whole)
    ensures CutFrom(whole, whole)
    decreases |whole|
  {
    if whole != [] {
      UncutOf(whole[1..]);
      if whole[0].OnText? {
        var chunks := [whole[0].chunk];
        assert chunks[1..] == [] && Flatten(chunks) == whole[0].chunk + Flatten(chunks[1..]);
        assert Chunks(chunks) == [whole[0]] + Chunks(chunks[1..]) == [whole[0]];
        assert IsCut(chunks, whole[0].chunk, whole);
      }
    }
  }

  lemma MergeStripTexts(node: Node)
    ensures NonemptyTexts(Calls(Merge(Strip(node))))
  {
    StripOfMerged(node);
    StripLeavesNoEmpty(Merge(node));
    CallTextsNonempty(Strip(Merge(node)));
  }

  lemma {:induction false} StripLeavesNoEmpty(node: Node)
    ensures TextsNonempty(Strip(node))
    decreases node, 1
  {
    StripContentLeavesNoEmpty(node.content);
  }

  lemma {:induction false} StripContentLeavesNoEmpty(content: Content)
    ensures ContentNonempty(StripContent(content))
    decreases content, 0
  {
    match content
    case Nil =>
    case TextThen(_, rest) => StripContentLeavesNoEmpty(rest);
    case NodeThen(node, rest) => StripLeavesNoEmpty(node); StripContentLeavesNoEmpty(rest);
  }

  lemma {:induction false} CallTextsNonempty(node: Node)
    requires TextsNonempty(node)
    ensures NonemptyTexts(Calls(node))
    decreases node, 1
  {
    DeclarationsHoldNoText(node.declarations);
    ContentTextsNonempty(node.content);
  }

  lemma {:induction false} ContentTextsNonempty(content: Content)
    requires ContentNonempty(content)
    ensures NonemptyTexts(ContentCalls(content))
    decreases content, 0
  {
    match content
    case Nil =>
    case TextThen(_, rest) => ContentTextsNonempty(rest);
    case NodeThen(node, rest) => CallTextsNonempty(node); ContentTextsNonempty(rest);
  }

  // ----- the bounds, as measures of the tree -----

  function Height(node: Node): nat
    decreases node, 1
  {
    1 + ContentHeight(node.content)
  }

  function ContentHeight(content: Content): nat
    decreases content, 0
  {
    match content
    case Nil => 0
    case TextThen(_, rest) => ContentHeight(rest)
    case NodeThen(node, rest) => Max(Height(node), ContentHeight(rest))
  }

  function Count(node: Node): nat
    decreases node, 1
  {
    1 + ContentCount(node.content)
  }

  function ContentCount(content: Content): nat
    decreases content, 0
  {
    match content
    case Nil => 0
    case TextThen(_, rest) => ContentCount(rest)
    case NodeThen(node, rest) => Count(node) + ContentCount(rest)
  }

  function Characters(node: Node): nat
    decreases node, 1
  {
    ContentCharacters(node.content)
  }

  function ContentCharacters(content: Content): nat
    decreases content, 0
  {
    match content
    case Nil => 0
    case TextThen(text, rest) => |text| + ContentCharacters(rest)
    case NodeThen(node, rest) => Characters(node) + ContentCharacters(rest)
  }

  predicate FewAttributes(node: Node)
    decreases node, 1
  {
    |node.attributes| <= MAX_ATTRIBUTES && ContentFewAttributes(node.content)
  }

  predicate ContentFewAttributes(content: Content)
    decreases content, 0
  {
    match content
    case Nil => true
    case TextThen(_, rest) => ContentFewAttributes(rest)
    case NodeThen(node, rest) => FewAttributes(node) && ContentFewAttributes(rest)
  }

  /** Element and attribute names are expanded names throughout. */
  predicate WellNamed(node: Node)
    decreases node, 1
  {
    IsExpandedName(node.name) && ExpandedNames(node.attributes) && ContentWellNamed(node.content)
  }

  predicate ContentWellNamed(content: Content)
    decreases content, 0
  {
    match content
    case Nil => true
    case TextThen(_, rest) => ContentWellNamed(rest)
    case NodeThen(node, rest) => WellNamed(node) && ContentWellNamed(rest)
  }

  predicate WithinBounds(node: Node) {
    Height(node) <= MAX_DEPTH && Count(node) <= MAX_ELEMENTS && Characters(node) <= MAX_BODY && FewAttributes(node)
  }

  /** There is room for content of these measures below the machine's position. */
  ghost predicate Room(m: Machine, height: nat, count: nat, chars: nat, few: bool) {
    m.depth + height <= MAX_DEPTH && m.count + count <= MAX_ELEMENTS && m.chars + chars <= MAX_BODY && few
  }

  ghost predicate Steady(m: Machine) {
    Room(m, 0, 0, 0, true) && m.depth >= 0 && m.declarations == []
  }

  lemma {:induction false} HandleDeclarations(m: Machine, pairs: Pairs)
    ensures HandleAll(m, Declarations(pairs)) == Some(m.(declarations := m.declarations + pairs))
    decreases |pairs|
  {
    if pairs == [] {
      assert m.declarations + pairs == m.declarations;
    } else {
      HandleDeclarations(m.(declarations := m.declarations + [pairs[0]]), pairs[1..]);
      assert m.declarations + pairs == m.declarations + [pairs[0]] + pairs[1..];
    }
  }

  /** After an element's declarations and start tag. */
  lemma HandleOpening(m: Machine, node: Node)
    requires Steady(m) && IsExpandedName(node.name) && ExpandedNames(node.attributes)
    ensures HandleAll(m, Opening(node)) ==
            if !Room(m, 1, 1, 0, |node.attributes| <= MAX_ATTRIBUTES) then None
            else Some(Machine(m.depth + 1, m.count + 1, m.chars, [],
                              m.events + [Start(node.name, node.attributes, node.declarations)]))
  {
    HandleDeclarations(m, node.declarations);
    assert m.declarations + node.declarations == node.declarations;
    HandleAppend(m, Declarations(node.declarations), [OnStart(RawName(node.name), RawPairs(node.attributes))]);
    ExpandedOfRaw(node.name);
    ExpandRawPairs(node.attributes);
  }

  function AfterContent(m: Machine, content: Content): Machine {
    m.(count := m.count + ContentCount(content), chars := m.chars + ContentCharacters(content),
       events := m.events + PlainContent(content))
  }

  lemma {:induction false} HandleContent(m: Machine, content: Content)
    requires Steady(m) && m.depth > 0 && ContentMerged(content) && ContentWellNamed(content)
    requires !(EndsInText(m.events) && content.TextThen?)
    ensures HandleAll(m, ContentCalls(content)) ==
            if Room(m, ContentHeight(content), ContentCount(content), ContentCharacters(content), ContentFewAttributes(content))
            then Some(AfterContent(m, content)) else None
    decreases content, 0
  {
    match content
    case Nil =>
      assert m.events + [] == m.events;
    case TextThen(text, rest) =>
      if m.chars + |text| <= MAX_BODY {
        HandleContent(AfterText(m, text), rest);
      }
      HandleText(m, text, rest);
    case NodeThen(node, rest) =>
      HandleNode(m, node);
      if Room(m, Height(node), Count(node), Characters(node), FewAttributes(node)) {
        AfterNodeEnds(m, node);
        HandleContent(AfterNode(m, node), rest);
      }
      HandleThen(m, node, rest);
  }

  function AfterText(m: Machine, text: string): Machine {
    m.(chars := m.chars + |text|, events := m.events + [Text(text)])
  }

  lemma HandleText(m: Machine, text: string, rest: Content)
    requires Steady(m) && m.depth > 0 && !EndsInText(m.events)
    ensures HandleAll(m, ContentCalls(TextThen(text, rest))) ==
            if m.chars + |text| <= MAX_BODY then HandleAll(AfterText(m, text), ContentCalls(rest)) else None
    ensures AfterContent(AfterText(m, text), rest) == AfterContent(m, TextThen(text, rest))
  {
    assert ContentCalls(TextThen(text, rest))[1..] == ContentCalls(rest);
    assert m.events + [Text(text)] + PlainContent(rest) == m.events + ([Text(text)] + PlainContent(rest));
  }

  lemma AfterNodeEnds(m: Machine, node: Node)
    ensures !EndsInText(AfterNode(m, node).events)
  {
    var events := m.events + Plain(node);
    assert events[|events| - 1] == Plain(node)[|Plain(node)| - 1];
  }

  lemma HandleThen(m: Machine, node: Node, rest: Content)
    requires HandleAll(m, Calls(node)) ==
             if Room(m, Height(node), Count(node), Characters(node), FewAttributes(node)) then Some(AfterNode(m, node)) else None
    ensures HandleAll(m, ContentCalls(NodeThen(node, rest))) ==
            if Room(m, Height(node), Count(node), Characters(node), FewAttributes(node))
            then HandleAll(AfterNode(m, node), ContentCalls(rest)) else None
    ensures AfterContent(AfterNode(m, node), rest) == AfterContent(m, NodeThen(node, rest))
  {
    HandleAppend(m, Calls(node), ContentCalls(rest));
    assert m.events + Plain(node) + PlainContent(rest) == m.events + (Plain(node) + PlainContent(rest));
  }

  function AfterNode(m: Machine, node: Node): Machine {
    m.(count := m.count + Count(node), chars := m.chars + Characters(node), events := m.events + Plain(node))
  }

  lemma {:induction false} HandleNode(m: Machine, node: Node)
    requires Steady(m) && Merged(node) && WellNamed(node)
    ensures HandleAll(m, Calls(node)) ==
            if Room(m, Height(node), Count(node), Characters(node), FewAttributes(node)) then Some(AfterNode(m, node)) else None
    decreases node, 1
  {
    var start := Start(node.name, node.attributes, node.declarations);
    var last := [OnEnd(RawName(node.name))];
    HandleOpening(m, node);
    HandleAppend(m, Opening(node), ContentCalls(node.content) + last);
    assert Calls(node) == Opening(node) + (ContentCalls(node.content) + last);
    if Room(m, 1, 1, 0, |node.attributes| <= MAX_ATTRIBUTES) {
      var inside := Machine(m.depth + 1, m.count + 1, m.chars, [], m.events + [start]);
      HandleContent(inside, node.content);
      HandleAppend(inside, ContentCalls(node.content), last);
      ExpandedOfRaw(node.name);
      assert m.events + Plain(node) == m.events + [start] + PlainContent(node.content) + [End(node.name)];
    }
  }

  // ----- the measures do not see how text is cut -----

  ghost predicate SameMeasures(a: Node, b: Node) {
    Height(a) == Height(b) && Count(a) == Count(b) && Characters(a) == Characters(b) && (FewAttributes(a) <==> FewAttributes(b))
  }

  ghost predicate SameContentMeasures(a: Content, b: Content) {
    && ContentHeight(a) == ContentHeight(b) && ContentCount(a) == ContentCount(b)
    && ContentCharacters(a) == ContentCharacters(b) && (ContentFewAttributes(a) <==> ContentFewAttributes(b))
  }

  lemma {:induction false} MergeStripKeeps(node: Node)
    ensures SameMeasures(Merge(Strip(node)), node) && (WellNamed(node) ==> WellNamed(Merge(Strip(node))))
    decreases node, 1
  {
    MergeStripKeepsContent(node.content);
  }

  lemma {:induction false} MergeStripKeepsContent(content: Content)
    ensures SameContentMeasures(MergeContent(StripContent(content)), content)
    ensures ContentWellNamed(content) ==> ContentWellNamed(MergeContent(StripContent(content)))
    decreases content, 0
  {
    match content
    case Nil =>
    case TextThen(_, rest) => MergeStripKeepsContent(rest);
    case NodeThen(node, rest) => MergeStripKeeps(node); MergeStripKeepsContent(rest);
  }

  // ----- the main results -----

  /** Text before and after the root element, such as line ends, is ignored. */
  lemma {:induction false} OutsideTextIgnored(m: Machine, outside: seq<string>)
    requires m.depth == 0
    ensures HandleAll(m, Chunks(outside)) == Some(m)
    decreases |outside|
  {
    if outside != [] {
      assert Chunks(outside)[1..] == Chunks(outside[1..]);
      OutsideTextIgnored(m, outside[1..]);
    }
  }

  /** For any way of cutting the text, the handlers accept exactly the documents within the bounds, and then list the
      tree without its empty text. */
  lemma IndependentListsTree(node: Node, callbacks: seq<Callback>, before: seq<string>, after: seq<string>)
    requires WellNamed(node) && ParserStream(node, callbacks)
    ensures Independent(Chunks(before) + callbacks + Chunks(after)) ==
            if WithinBounds(node) then Some(Maintained(Strip(node))) else None
  {
    var merged := Merge(Strip(node));
    MergeStripKeeps(node);
    MergeMerges(Strip(node));
    HandleAppend(START, Chunks(before) + callbacks, Chunks(after));
    HandleAppend(START, Chunks(before), callbacks);
    OutsideTextIgnored(START, before);
    GlueIsInvisible(START, callbacks);
    HandleNode(START, merged);
    if WithinBounds(node) {
      OutsideTextIgnored(AfterNode(START, merged), after);
      MaintainedIsPlainMerged(Strip(node));
      assert START.events + Plain(merged) == Plain(merged);
    }
  }

  /** The two readings agree, within the bounds, exactly for trees in which no run of adjacent text items is empty. */
  lemma ReadingsAgreeIff(node: Node, callbacks: seq<Callback>, before: seq<string>, after: seq<string>)
    requires WellNamed(node) && ParserStream(node, callbacks)
    ensures Independent(Chunks(before) + callbacks + Chunks(after)) == Some(Maintained(node))
            <==> WithinBounds(node) && TextsNonempty(Merge(node))
  {
    IndependentListsTree(node, callbacks, before, after);
    EventsDetermineTree(Strip(node), node);
    StripOfMerged(node);
    StripFixesExactly(Merge(node));
  }

  lemma {:induction false} NonemptyItemsMerge(content: Content)
    requires ContentNonempty(content)
    ensures ContentNonempty(MergeContent(content))
    decreases content, 0
  {
    match content
    case Nil =>
    case TextThen(_, rest) => NonemptyItemsMerge(rest);
    case NodeThen(node, rest) => NonemptyItemsMerge(node.content); NonemptyItemsMerge(rest);
  }

  /** In particular for every tree whose text items are all nonempty. */
  lemma ReadingsAgree(node: Node, callbacks: seq<Callback>, before: seq<string>, after: seq<string>)
    requires WellNamed(node) && ParserStream(node, callbacks) && TextsNonempty(node) && WithinBounds(node)
    ensures Independent(Chunks(before) + callbacks + Chunks(after)) == Some(Maintained(node))
  {
    ReadingsAgreeIff(node, callbacks, before, after);
    NonemptyItemsMerge(node.content);
  }

  /** A tree that does hold an empty text item, and the events the two readings give for it. */
  lemma EmptyTextDiffers()
    ensures var node := Node("a", [], [], TextThen("", Nil));
      && ParserStream(node, [OnStart("a", []), OnEnd("a")])
      && Independent([OnStart("a", []), OnEnd("a")]) == Some([Start("a", [], []), End("a")])
      && Maintained(node) == [Start("a", [], []), Text(""), End("a")]
  {
    var node := Node("a", [], [], TextThen("", Nil));
    var callbacks := [OnStart("a", []), OnEnd("a")];
    assert Strip(node) == Node("a", [], [], Nil) && Merge(Strip(node)) == Node("a", [], [], Nil);
    assert RawPairs([]) == [] && Calls(Merge(Strip(node))) == callbacks;
    assert callbacks[1..] == [OnEnd("a")] && Glue(callbacks) == callbacks;
    IndependentListsTree(node, callbacks, [], []);
    assert Chunks([]) + callbacks + Chunks([]) == callbacks;
    assert ContentHeight(node.content) == 0 && ContentCount(node.content) == 0 && ContentCharacters(node.content) == 0;
    assert ContentFewAttributes(node.content) && WithinBounds(node);
    assert Plain(Merge(Strip(node))) == [Start("a", [], []), End("a")];
    assert Independent(callbacks) == Some(Maintained(Strip(node)));
    MaintainedIsPlainMerged(Strip(node));
    MaintainedIsPlainMerged(node);
  }

  // ----- comparing two event lists position by position -----

  datatype Difference = Difference(position: nat, left: Option<Event>, right: Option<Event>)

  function At(events: seq<Event>, i: nat): Option<Event> {
    if i < |events| then Some(events[i]) else None
  }

  function Differences(a: seq<Event>, b: seq<Event>, n: nat): seq<Difference> {
    if n == 0 then []
    else
      Differences(a, b, n - 1)
      + (if At(a, n - 1) != At(b, n - 1) then [Difference(n, At(a, n - 1), At(b, n - 1))] else [])
  }

  /** The comparison loop of run. */
  method Compare(a: seq<Event>, b: seq<Event>) returns (rows: seq<Difference>)
    ensures rows == Differences(a, b, Max(|a|, |b|))
  {
    rows := [];
    for i := 0 to Max(|a|, |b|)
      invariant rows == Differences(a, b, i)
    {
      var x := if i < |a| then Some(a[i]) else None;
      var y := if i < |b| then Some(b[i]) else None;
      if x != y {
        rows := rows + [Difference(i + 1, x, y)];
      }
    }
  }

  /** Exactly the differing positions are reported, each with both sides. */
  lemma {:induction false} DifferencesAre(a: seq<Event>, b: seq<Event>, n: nat, d: Difference)
    ensures d in Differences(a, b, n)
            <==> 1 <= d.position <= n && At(a, d.position - 1) != At(b, d.position - 1)
                 && d.left == At(a, d.position - 1) && d.right == At(b, d.position - 1)
  {
    if n > 0 {
      DifferencesAre(a, b, n - 1, d);
    }
  }

  /** Two documents compare without a difference exactly when their trees are equal up to how text is cut. */
  lemma NoDifferenceIffSameTree(a: Node, b: Node)
    ensures Differences(Maintained(a), Maintained(b), Max(|Maintained(a)|, |Maintained(b)|)) == [] <==> Merge(a) == Merge(b)
  {
    var x, y := Maintained(a), Maintained(b);
    var n := Max(|x|, |y|);
    EventsDetermineTree(a, b);
    if x != y {
      DifferentSomewhere(x, y);
      var i :| 0 <= i < n && At(x, i) != At(y, i);
      DifferencesAre(x, y, n, Difference(i + 1, At(x, i), At(y, i)));
    } else if Differences(x, y, n) != [] {
      DifferencesAre(x, y, n, Differences(x, y, n)[0]);
    }
  }

  lemma DifferentSomewhere(x: seq<Event>, y: seq<Event>)
    requires x != y
    ensures exists i :: 0 <= i < Max(|x|, |y|) && At(x, i) != At(y, i)
  {
    if |x| < |y| {
      assert At(x, |x|) != At(y, |x|);
    } else if |y| < |x| {
      assert At(x, |y|) != At(y, |y|);
    } else {
      var i :| 0 <= i < |x| && x[i] != y[i];
      assert At(x, i) != At(y, i);
    }
  }
}
