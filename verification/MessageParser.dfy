/**
 * Parsing received xPL text (xplcore.c): a character machine that reads one
 * block, run once for the header and once for the schema of a message.
 */
module MessageParser {
  import opened Common
  import opened Numerals
  import opened XplTag
  import opened XplMessage

  const HEADER_SIZE: nat := 64
  const ITEM_SIZE: nat := 32

  /** The characters that stand for themselves. */
  predicate Allowed(c: char) {
    32 <= c as int < 123 || c as int == 124
  }

  /**
   * VALID_CHAR assigns where a comparison was meant: it accepts every
   * character, and turns those outside 32..122 into '|'.
   */
  function Norm(c: char): (r: char)
    ensures Allowed(r)
    ensures r == c <==> Allowed(c)
  {
    if 32 <= c as int < 123 then c else '|'
  }

  /** Skipped before a block starts; a C char above 127 is negative. */
  predicate Junk(c: char) {
    c as int <= 32 || c as int >= 128
  }

  datatype Phase = InHeader | WantBrace | WantNewline | InName | InValue | WantEnd

  /** header, name and value are what the three buffers hold so far. */
  datatype BlockState = BlockState(
    phase: Phase, started: bool, header: string, name: string, value: string, items: seq<NameValue>)

  datatype StepResult = Go(state: BlockState) | Finished | Bad

  const INITIAL := BlockState(InHeader, false, "", "", "", [])

  function Step(s: BlockState, c: char): StepResult {
    match s.phase
    case InHeader =>
      if c == '\n' && s.started then Go(s.(phase := WantBrace))
      else if !s.started && Junk(c) then Go(s)
      else if |s.header| < HEADER_SIZE - 1 then Go(s.(started := true, header := s.header + [Norm(c)]))
      else Bad
    case WantBrace =>
      if c == '{' then Go(s.(phase := WantNewline)) else Bad
    case WantNewline =>
      if c == '\n' then Go(s.(phase := InName, name := "")) else Bad
    case InName =>
      if c == '=' then Go(s.(phase := InValue, value := ""))
      else if c == '}' then Go(s.(phase := WantEnd))
      else if |s.name| < ITEM_SIZE - 1 then Go(s.(name := s.name + [Norm(c)]))
      else Bad
    case InValue =>
      if c == '\n' then
        Go(s.(phase := InName, name := "", value := "", items := s.items + [NameValue(s.name, s.value)]))
      else if |s.value| < ITEM_SIZE - 1 then Go(s.(value := s.value + [Norm(c)]))
      else Bad
    case WantEnd =>
      if c == '\n' then Finished else Bad
  }

  /** n is the number of characters of a complete block, 0 at the end of the stream, and negative on an error. */
  datatype Block = Block(n: int, header: string, items: seq<NameValue>)

  function ParseFrom(rest: string, index: nat, s: BlockState): Block
    decreases |rest|
  {
    if rest == "" then Block(if s.started then -(index as int) else 0, s.header, s.items)
    else
      match Step(s, rest[0])
      case Go(s') => ParseFrom(rest[1..], index + 1, s')
      case Finished => Block(index + 1, s.header, s.items)
      case Bad => Block(-(index as int), s.header, s.items)
  }

  function ParsedBlock(text: string): Block {
    ParseFrom(text, 0, INITIAL)
  }

  predicate AllowedText(s: string) {
    forall i :: 0 <= i < |s| ==> Allowed(s[i])
  }

  ghost predicate StateFits(s: BlockState) {
    && AllowedText(s.header) && AllowedText(s.name) && AllowedText(s.value)
    && |s.header| < HEADER_SIZE && |s.name| < ITEM_SIZE && |s.value| < ITEM_SIZE
    && (s.phase != InHeader ==> s.started)
    && (s.started ==> s.header != "")
    && (!s.started ==> s.header == "" && s.items == [])
  }

  /** A block that is found lies within the text; 0 says that nothing was started. */
  lemma {:induction false} ParseBounds(rest: string, index: nat, s: BlockState)
    requires StateFits(s) && (index == 0 ==> s == INITIAL)
    ensures
      var b := ParseFrom(rest, index, s);
      && -(index + |rest|) <= b.n <= index + |rest|
      && AllowedText(b.header)
      && (b.n > 0 ==> b.n > index && b.header != "")
      && (b.n == 0 ==> b.header == "" && b.items == [] && !s.started && forall i :: 0 <= i < |rest| ==> Junk(rest[i]))
    decreases |rest|
  {
    if rest != "" && Step(s, rest[0]).Go? {
      ParseBounds(rest[1..], index + 1, Step(s, rest[0]).state);
    }
  }

  /**
   * Parsing is local: a complete block is found, with the same contents, in
   * every text that begins with the same characters.
   */
  lemma {:induction false} ParseLocal(rest: string, rest': string, index: nat, s: BlockState)
    requires
      var k := ParseFrom(rest, index, s).n - index;
      0 < k <= |rest| && k <= |rest'| && rest'[..k] == rest[..k]
    ensures ParseFrom(rest', index, s) == ParseFrom(rest, index, s)
    decreases |rest|
  {
    if rest != "" {
      var k := ParseFrom(rest, index, s).n - index;
      assert rest'[..k][0] == rest[..k][0];
      if Step(s, rest[0]).Go? {
        var s' := Step(s, rest[0]).state;
        assert rest'[1..][..k - 1] == rest'[..k][1..] && rest[1..][..k - 1] == rest[..k][1..];
        ParseGrows(rest[1..], index + 1, s');
        ParseLocal(rest[1..], rest'[1..], index + 1, s');
      }
    }
  }

  lemma {:induction false} ParseGrows(rest: string, index: nat, s: BlockState)
    ensures ParseFrom(rest, index, s).n > 0 ==> index < ParseFrom(rest, index, s).n <= index + |rest|
    decreases |rest|
  {
    if rest != "" && Step(s, rest[0]).Go? {
      ParseGrows(rest[1..], index + 1, Step(s, rest[0]).state);
    }
  }

  /** A complete block is found the same in every text with the same beginning. */
  lemma BlockLocal(text: string, text': string)
    requires
      var n := ParsedBlock(text).n;
      0 < n <= |text'| && n <= |text| && text'[..n] == text[..n]
    ensures ParsedBlock(text') == ParsedBlock(text)
  {
    ParseLocal(text, text', 0, INITIAL);
  }

  /** The buffer holds this string and its terminating NUL. */
  ghost predicate Holds(buffer: array<char>, s: string)
    reads buffer
  {
    |s| < buffer.Length && buffer[..|s|] == s && buffer[|s|] == '\0'
  }

  method Store(buffer: array<char>, i: nat, c: char)
    requires i < buffer.Length
    modifies buffer
    ensures buffer[i] == c && buffer[..i] == old(buffer[..i]) && buffer[..i + 1] == old(buffer[..i]) + [c]
  {
    buffer[i] := c;
  }

  /** The local variables of the machine stand for this state. */
  ghost predicate Represents(curState: Phase, charCount: nat, blockStarted: bool,
                             blockHeader: array<char>, nb: array<char>, vb: array<char>, s: BlockState)
    reads blockHeader, nb, vb
  {
    && StateFits(s) && s.phase == curState && s.started == blockStarted
    && charCount < blockHeader.Length == HEADER_SIZE && nb.Length == vb.Length == ITEM_SIZE
    && (if curState == InHeader then charCount == |s.header| && blockHeader[..charCount] == s.header
        else Holds(blockHeader, s.header))
    && (curState == InName ==> charCount == |s.name| && nb[..charCount] == s.name)
    && (curState == InValue ==> Holds(nb, s.name) && charCount == |s.value| && vb[..charCount] == s.value)
  }

  /** State 0 of the machine, past any leading junk. */
  method HeaderChar(theChar: char, charCount: nat, blockStarted: bool, blockHeader: array<char>,
                    ghost nb: array<char>, ghost vb: array<char>, ghost s: BlockState)
    returns (ok: bool, curState: Phase, charCount': nat)
    requires Represents(InHeader, charCount, blockStarted, blockHeader, nb, vb, s)
    requires blockHeader != nb && blockHeader != vb && nb != vb
    requires blockStarted || !Junk(theChar)
    modifies blockHeader
    ensures ok == Step(s, theChar).Go?
    ensures if ok then Represents(curState, charCount', true, blockHeader, nb, vb, Step(s, theChar).state)
            else Step(s, theChar).Bad?
  {
    ok, curState, charCount' := true, InHeader, charCount;
    if theChar == '\n' && blockStarted {
      Store(blockHeader, charCount, '\0');
      curState, charCount' := WantBrace, 0;
    } else if charCount < HEADER_SIZE - 1 {
      Store(blockHeader, charCount, Norm(theChar));
      charCount' := charCount + 1;
    } else {
      ok := false;
    }
  }

  /** State 3 of the machine. */
  method NameChar(theChar: char, charCount: nat, nb: array<char>,
                  ghost blockHeader: array<char>, ghost vb: array<char>, ghost s: BlockState)
    returns (ok: bool, curState: Phase, charCount': nat)
    requires Represents(InName, charCount, true, blockHeader, nb, vb, s)
    requires blockHeader != nb && blockHeader != vb && nb != vb
    modifies nb
    ensures ok == Step(s, theChar).Go?
    ensures if ok then Represents(curState, charCount', true, blockHeader, nb, vb, Step(s, theChar).state)
            else Step(s, theChar).Bad?
  {
    ok, curState, charCount' := true, InName, charCount;
    if theChar == '=' {
      Store(nb, charCount, '\0');
      curState, charCount' := InValue, 0;
    } else if theChar == '}' {
      curState := WantEnd;
    } else if charCount < ITEM_SIZE - 1 {
      Store(nb, charCount, Norm(theChar));
      charCount' := charCount + 1;
    } else {
      ok := false;
    }
  }

  /** State 4 of the machine; a completed item is appended to the list. */
  method ValueChar(list: seq<NameValue>, theChar: char, charCount: nat, nb: array<char>, vb: array<char>,
                   ghost blockHeader: array<char>, ghost s: BlockState)
    returns (ok: bool, curState: Phase, charCount': nat, list': seq<NameValue>)
    requires Represents(InValue, charCount, true, blockHeader, nb, vb, s)
    requires blockHeader != nb && blockHeader != vb && nb != vb
    modifies vb
    ensures ok == Step(s, theChar).Go?
    ensures if ok then Represents(curState, charCount', true, blockHeader, nb, vb, Step(s, theChar).state)
            else Step(s, theChar).Bad?
    ensures list' == list + (if ok then Step(s, theChar).state.items[|s.items|..] else [])
  {
    ok, curState, charCount', list' := true, InValue, charCount, list;
    if theChar == '\n' {
      Store(vb, charCount, '\0');
      var name := ReadString(nb, s.name);
      var value := ReadString(vb, s.value);
      list' := list + [NameValue(name, value)];
      curState, charCount' := InName, 0;
    } else if charCount < ITEM_SIZE - 1 {
      Store(vb, charCount, Norm(theChar));
      charCount' := charCount + 1;
    } else {
      ok := false;
    }
  }

  /** One turn of the machine, in any state. */
  method BlockChar(list: seq<NameValue>, theChar: char, state: Phase, count: nat, started: bool,
                   blockHeader: array<char>, nb: array<char>, vb: array<char>, ghost s: BlockState)
    returns (result: StepKind, curState: Phase, charCount: nat, blockStarted: bool, list': seq<NameValue>)
    requires Represents(state, count, started, blockHeader, nb, vb, s)
    requires blockHeader != nb && blockHeader != vb && nb != vb
    modifies blockHeader, nb, vb
    ensures
      match Step(s, theChar)
      case Go(s') =>
        && result.Goes? && Represents(curState, charCount, blockStarted, blockHeader, nb, vb, s')
        && |s.items| <= |s'.items| && s'.items[..|s.items|] == s.items && list' == list + s'.items[|s.items|..]
      case Finished => result.Finishes? && list' == list
      case Bad => result.Errs? && list' == list
    ensures result.Finishes? || (result.Goes? && !blockStarted) ==> blockHeader[..] == old(blockHeader[..])
    ensures result.Finishes? ==> Holds(blockHeader, s.header)
  {
    result, curState, charCount, blockStarted, list' := Goes, state, count, started, list;
    var ok := true;
    match state {
      case InHeader =>
        if started || !Junk(theChar) {
          ok, curState, charCount := HeaderChar(theChar, count, started, blockHeader, nb, vb, s);
          blockStarted := true;
        }
      case WantBrace =>
        ok, curState := theChar == '{', WantNewline;
      case WantNewline =>
        ok, curState, charCount := theChar == '\n', InName, 0;
      case InName =>
        ok, curState, charCount := NameChar(theChar, count, nb, blockHeader, vb, s);
      case InValue =>
        ok, curState, charCount, list' := ValueChar(list, theChar, count, nb, vb, blockHeader, s);
      case WantEnd =>
        if theChar == '\n' {
          result := Finishes;
          return;
        }
        ok := false;
    }
    result := if ok then Goes else Errs;
  }

  datatype StepKind = Goes | Finishes | Errs

  lemma ParseStep(text: string, i: nat, s: BlockState)
    requires i < |text|
    ensures ParseFrom(text[i..], i, s) ==
      match Step(s, text[i])
      case Go(s') => ParseFrom(text[i + 1..], i + 1, s')
      case Finished => Block(i + 1, s.header, s.items)
      case Bad => Block(-(i as int), s.header, s.items)
  {
    assert text[i..][1..] == text[i + 1..];
  }

  lemma ParseEnds(text: string, i: nat, s: BlockState)
    requires i == |text|
    ensures ParseFrom(text[i..], i, s) == Block(if s.started then -|text| else 0, s.header, s.items)
  {
  }

  lemma ItemsAppended<T>(list: seq<T>, items: seq<T>, more: seq<T>)
    requires |items| <= |more| && more[..|items|] == items
    ensures list + items + more[|items|..] == list + more
  {
  }

  /** The machine over its local buffers. Items found are appended to the list. */
  method ParseBlock(list: seq<NameValue>, text: string, blockHeader: array<char>)
    returns (n: int, list': seq<NameValue>)
    requires blockHeader.Length == HEADER_SIZE
    modifies blockHeader
    ensures n == ParsedBlock(text).n && list' == list + ParsedBlock(text).items
    ensures n > 0 ==> Holds(blockHeader, ParsedBlock(text).header)
    ensures n == 0 ==> blockHeader[..] == old(blockHeader[..])
  {
    hide ParseFrom;
    var nb, vb := new char[ITEM_SIZE](_ => '\0'), new char[ITEM_SIZE](_ => '\0');
    var curState := InHeader;
    var curIndex, charCount: nat := 0, 0;
    var blockStarted := false;
    ghost var s := INITIAL;
    list' := list;
    assert text[0..] == text;
    ParseBounds(text, 0, INITIAL);
    while curIndex < |text|
      invariant curIndex <= |text|
      invariant ParsedBlock(text) == ParseFrom(text[curIndex..], curIndex, s)
      invariant Represents(curState, charCount, blockStarted, blockHeader, nb, vb, s)
      invariant list' == list + s.items
      invariant !blockStarted ==> blockHeader[..] == old(blockHeader[..])
    {
      ghost var step := Step(s, text[curIndex]);
      ParseStep(text, curIndex, s);
      var result;
      result, curState, charCount, blockStarted, list' :=
        BlockChar(list', text[curIndex], curState, charCount, blockStarted, blockHeader, nb, vb, s);
      if result.Finishes? {
        return curIndex + 1, list';
      }
      if result.Errs? {
        return -curIndex, list';
      }
      ItemsAppended(list, s.items, step.state.items);
      s := step.state;
      curIndex := curIndex + 1;
    }
    ParseEnds(text, curIndex, s);
    return if blockStarted then -|text| else 0, list';
  }

  /** Copies a C string out of a buffer. */
  method ReadString(buffer: array<char>, ghost s: string) returns (r: string)
    requires Holds(buffer, s) && AllowedText(s)
    ensures r == s
  {
    var i := 0;
    while buffer[i] != '\0'
      invariant i <= |s|
      decreases |s| - i
    {
      i := i + 1;
    }
    r := buffer[..i];
  }

  // ----- whole messages -----

  /** The first item of this name. */
  function NamedValue(items: seq<NameValue>, name: string): Option<string> {
    if items == [] then None
    else if items[0].name == name then Some(items[0].value)
    else NamedValue(items[1..], name)
  }

  ghost predicate FirstNamed(items: seq<NameValue>, name: string, i: nat) {
    i < |items| && items[i].name == name && forall j :: 0 <= j < i ==> items[j].name != name
  }

  lemma {:induction false} NamedValueMeaning(items: seq<NameValue>, name: string)
    ensures NamedValue(items, name).None? <==> forall i :: 0 <= i < |items| ==> items[i].name != name
    ensures forall i: nat :: FirstNamed(items, name, i) ==> NamedValue(items, name) == Some(items[i].value)
  {
    if items != [] && items[0].name != name {
      var rest := items[1..];
      NamedValueMeaning(rest, name);
      assert forall i :: 1 <= i < |items| ==> items[i] == rest[i - 1];
      forall i: nat | FirstNamed(items, name, i)
        ensures NamedValue(items, name) == Some(items[i].value)
      {
        assert i > 0;
        assert FirstNamed(rest, name, i - 1);
      }
    }
  }

  function TypeOf(header: string): Option<MessageType> {
    if header == "xpl-cmnd" then Some(CommandType)
    else if header == "xpl-stat" then Some(StatusType)
    else if header == "xpl-trig" then Some(TriggerType)
    else None
  }

  /** The hop count, the source, and the target if the message is not broadcast. */
  datatype Addressing = Addressing(hopCount: int, source: Tag, target: Option<Tag>)

  function ParsedHeader(items: seq<NameValue>): Option<Addressing> {
    var hop := NamedValue(items, "hop");
    if hop.None? || StringToInt(hop.value).None? || StringToInt(hop.value).value < 1 then None
    else
      var source := NamedValue(items, "source");
      if source.None? || Cut(source.value).None? then None
      else
        var target := NamedValue(items, "target");
        if target.None? then None
        else if target.value == "*" then
          Some(Addressing(StringToInt(hop.value).value, Cut(source.value).value, None))
        else if Cut(target.value).None? then None
        else Some(Addressing(StringToInt(hop.value).value, Cut(source.value).value, Cut(target.value)))
  }

  /** The value is the joined tag, and can be cut into it again. */
  ghost predicate NamesTag(value: Option<string>, t: Tag) {
    Separable(t) && value == Some(Join(t))
  }

  /**
   * The header items are accepted exactly when there is a hop count of at
   * least one, a source tag, and a target that is the wildcard or a tag.
   */
  lemma HeaderMeaning(items: seq<NameValue>, a: Addressing)
    ensures
      var hop, target := NamedValue(items, "hop"), NamedValue(items, "target");
      ParsedHeader(items) == Some(a)
      <==> && hop.Some? && StringToInt(hop.value) == Some(a.hopCount) && a.hopCount >= 1
           && NamesTag(NamedValue(items, "source"), a.source)
           && if a.target.None? then target == Some("*") else NamesTag(target, a.target.value)
  {
    TagCut(a.source);
    if a.target.Some? {
      TagCut(a.target.value);
    }
  }

  lemma TagCut(t: Tag)
    ensures Join(t) != "*"
    ensures Separable(t) ==> Cut(Join(t)) == Some(t)
  {
    assert Join(t)[|t.vendor|] == '-';
    if Separable(t) {
      CutOfJoin(t);
    }
  }

  datatype Received = Received(hopCount: int, message: Message)

  /** The message made of a parsed header and the block behind it. */
  function Assembled(t: MessageType, header: string, a: Addressing, schema: Block): Option<Received> {
    // At the end of the stream the buffer still holds the first header.
    var schemaHeader := if schema.n == 0 then header else schema.header;
    var dot := IndexOf(schemaHeader, '.');
    if schema.n < 0 || dot == |schemaHeader| then None
    else
      Some(Received(a.hopCount,
        Message(t, a.source, a.target, schemaHeader[..dot], schemaHeader[dot + 1..], schema.items)))
  }

  /** The message made of two blocks, of which the first is complete. */
  function Combined(first: Block, schema: Block): Option<Received> {
    if TypeOf(first.header).None? || first.items == [] then None
    else
      var a := ParsedHeader(first.items);
      if a.None? then None
      else Assembled(TypeOf(first.header).value, first.header, a.value, schema)
  }

  /** The message a text is parsed to, if it is well formed. */
  function ParsedMessage(text: string): Option<Received> {
    var first := ParsedBlock(text);
    if 0 < first.n <= |text| then Combined(first, ParsedBlock(text[first.n..])) else None
  }

  method GetNamedValue(items: seq<NameValue>, name: string) returns (value: Option<string>)
    ensures value == NamedValue(items, name)
  {
    var i := 0;
    while i < |items| && items[i].name != name
      invariant i <= |items| && NamedValue(items, name) == NamedValue(items[i..], name)
    {
      i := i + 1;
    }
    value := if i < |items| then Some(items[i].value) else None;
  }

  method ParseMessageHeader(items: seq<NameValue>) returns (r: Option<Addressing>)
    ensures r == ParsedHeader(items)
  {
    var hop := GetNamedValue(items, "hop");
    if hop.None? {
      return None;
    }
    var hopCount := StringToInt(hop.value);
    if hopCount.None? || hopCount.value < 1 {
      return None;
    }
    var source := GetNamedValue(items, "source");
    if source.None? {
      return None;
    }
    var sourceTag := Cut(source.value);
    if sourceTag.None? {
      return None;
    }
    var target := GetNamedValue(items, "target");
    if target.None? {
      return None;
    }
    if target.value == "*" {
      return Some(Addressing(hopCount.value, sourceTag.value, None));
    }
    var targetTag := Cut(target.value);
    r := if targetTag.None? then None
         else Some(Addressing(hopCount.value, sourceTag.value, targetTag));
  }

  method ParseSchema(text: string, blockHeader: array<char>, t: MessageType, a: Addressing, ghost header: string)
    returns (r: Option<Received>)
    requires blockHeader.Length == HEADER_SIZE && Holds(blockHeader, header) && AllowedText(header)
    modifies blockHeader
    ensures r == Assembled(t, header, a, ParsedBlock(text))
  {
    ghost var kept := blockHeader[..];
    ParseBounds(text, 0, INITIAL);
    var n, items := ParseBlock([], text, blockHeader);
    if n < 0 {
      return None;
    }
    assert items == ParsedBlock(text).items;
    assert n == 0 ==> Holds(blockHeader, header) by {
      if n == 0 {
        assert blockHeader[..|header|] == kept[..|header|];
        assert blockHeader[|header|] == kept[|header|];
      }
    }
    var schemaHeader := ReadString(blockHeader, if n == 0 then header else ParsedBlock(text).header);
    var dot := IndexOf(schemaHeader, '.');
    if dot == |schemaHeader| {
      return None;
    }
    return Some(Received(a.hopCount,
      Message(t, a.source, a.target, schemaHeader[..dot], schemaHeader[dot + 1..], items)));
  }

  method ParseMessage(text: string) returns (r: Option<Received>)
    ensures r == ParsedMessage(text)
  {
    var blockHeader := new char[HEADER_SIZE](_ => '\0');
    ParseBounds(text, 0, INITIAL);
    var n, headerItems := ParseBlock([], text, blockHeader);
    if n <= 0 {
      return None;
    }
    ghost var first := ParsedBlock(text);
    assert headerItems == first.items;
    var header := ReadString(blockHeader, first.header);
    var messageType := TypeOf(header);
    if messageType.None? || headerItems == [] {
      return None;
    }
    var addressing := ParseMessageHeader(headerItems);
    if addressing.None? {
      return None;
    }
    r := ParseSchema(text[n..], blockHeader, messageType.value, addressing.value, header);
  }
}
