/**
 * Parsing what was printed gives back the message.
 */
module MessageRoundTrip {
  import opened Common
  import opened Numerals
  import opened XplTag
  import opened XplMessage
  import opened MessageParser

  function NormText(s: string): (r: string)
    ensures |r| == |s|
  {
    seq(|s|, i requires 0 <= i < |s| => Norm(s[i]))
  }

  function NormItems(items: seq<NameValue>): (r: seq<NameValue>)
    ensures |r| == |items|
  {
    seq(|items|, i requires 0 <= i < |items| => NameValue(NormText(items[i].name), NormText(items[i].value)))
  }

  function NormTag(t: Tag): Tag {
    Tag(NormText(t.vendor), NormText(t.device), NormText(t.instance))
  }

  /** The message with every character replaced as the receiver replaces it. */
  function Normal(m: Message): Message {
    m.(source := NormTag(m.source),
       target := if m.target.Some? then Some(NormTag(m.target.value)) else None,
       schemaClass := NormText(m.schemaClass),
       schemaType := NormText(m.schemaType),
       items := NormItems(m.items))
  }

  predicate TagFramed(t: Tag) {
    Separable(t) && |Join(t)| < 32 && '\n' !in Join(t)
  }

  predicate HeaderFramed(h: string) {
    0 < |h| < 64 && '\n' !in h && 32 < h[0] as int < 128
  }

  predicate ItemFramed(i: NameValue) {
    && '=' !in i.name && '}' !in i.name && '\n' !in i.value
    && |i.name| < 32 && |i.value| < 32
  }

  /** The parts of the message fit the receiver's buffers and hold none of its delimiters. */
  predicate Framed(m: Message) {
    && m.messageType != Any
    && TagFramed(m.source) && (m.target.Some? ==> TagFramed(m.target.value))
    && '.' !in m.schemaClass && HeaderFramed(m.schemaClass + "." + m.schemaType)
    && (forall i :: 0 <= i < |m.items| ==> ItemFramed(m.items[i]))
  }

  predicate TagAllowed(t: Tag) {
    AllowedText(t.vendor) && AllowedText(t.device) && AllowedText(t.instance)
  }

  /** All characters are 32 to 122, or 124. */
  predicate CharactersAllowed(m: Message) {
    && TagAllowed(m.source) && (m.target.Some? ==> TagAllowed(m.target.value))
    && AllowedText(m.schemaClass) && AllowedText(m.schemaType)
    && (forall i :: 0 <= i < |m.items| ==> AllowedText(m.items[i].name) && AllowedText(m.items[i].value))
  }

  lemma NormTextSplit(a: string, b: string)
    ensures NormText(a + b) == NormText(a) + NormText(b)
  {
  }

  lemma NormTextSame(s: string)
    ensures NormText(s) == s <==> AllowedText(s)
  {
    if NormText(s) == s {
      forall i | 0 <= i < |s| ensures Allowed(s[i]) {
        assert NormText(s)[i] == Norm(s[i]);
      }
    }
  }

  /** Replacing characters never makes or removes a delimiter. */
  lemma NormTextKeeps(s: string, c: char)
    requires Allowed(c) && c != '|'
    ensures c in NormText(s) <==> c in s
  {
    forall i | 0 <= i < |s| ensures NormText(s)[i] == c <==> s[i] == c {
      assert NormText(s)[i] == Norm(s[i]);
    }
    if c in s {
      var i :| 0 <= i < |s| && s[i] == c;
      assert NormText(s)[i] == c;
    }
  }

  lemma NormJoin(t: Tag)
    ensures NormText(Join(t)) == Join(NormTag(t))
  {
    NormTextSame("-");
    NormTextSame(".");
    NormTextSplit(t.vendor + "-" + t.device + ".", t.instance);
    NormTextSplit(t.vendor + "-" + t.device, ".");
    NormTextSplit(t.vendor + "-", t.device);
    NormTextSplit(t.vendor, "-");
  }

  lemma NormTagJoin(t: Tag)
    requires Separable(t)
    ensures NormText(Join(t)) == Join(NormTag(t)) && Separable(NormTag(t))
    ensures Cut(NormText(Join(t))) == Some(NormTag(t))
  {
    NormTextKeeps(t.vendor, '-');
    NormTextKeeps(t.device, '.');
    NormJoin(t);
    CutOfJoin(NormTag(t));
  }

  // ----- runs of the block machine -----

  /** Between items, with nothing in the name and value buffers. */
  function Clean(header: string, items: seq<NameValue>): BlockState {
    BlockState(InName, true, header, "", "", items)
  }

  lemma {:induction false} HeaderRun(h: string, rest: string, index: nat, s: BlockState)
    requires s.phase == InHeader && '\n' !in h && |s.header| + |h| < HEADER_SIZE
    requires s.started || (h != "" && !Junk(h[0]))
    ensures ParseFrom(h + rest, index, s)
         == ParseFrom(rest, index + |h|, s.(header := s.header + NormText(h), started := true))
    decreases |h|
  {
    if h == "" {
      assert h + rest == rest;
      assert s.header + NormText(h) == s.header;
    } else {
      var s' := s.(started := true, header := s.header + [Norm(h[0])]);
      assert (h + rest)[1..] == h[1..] + rest;
      HeaderRun(h[1..], rest, index + 1, s');
      assert s.header + NormText(h) == s'.header + NormText(h[1..]);
    }
  }

  lemma {:induction false} NameRun(n: string, rest: string, index: nat, s: BlockState)
    requires s.phase == InName && '=' !in n && '}' !in n && |s.name| + |n| < ITEM_SIZE
    ensures ParseFrom(n + rest, index, s) == ParseFrom(rest, index + |n|, s.(name := s.name + NormText(n)))
    decreases |n|
  {
    if n == "" {
      assert n + rest == rest;
      assert s.name + NormText(n) == s.name;
    } else {
      var s' := s.(name := s.name + [Norm(n[0])]);
      assert (n + rest)[1..] == n[1..] + rest;
      NameRun(n[1..], rest, index + 1, s');
      assert s.name + NormText(n) == s'.name + NormText(n[1..]);
    }
  }

  lemma {:induction false} ValueRun(v: string, rest: string, index: nat, s: BlockState)
    requires s.phase == InValue && '\n' !in v && |s.value| + |v| < ITEM_SIZE
    ensures ParseFrom(v + rest, index, s) == ParseFrom(rest, index + |v|, s.(value := s.value + NormText(v)))
    decreases |v|
  {
    if v == "" {
      assert v + rest == rest;
      assert s.value + NormText(v) == s.value;
    } else {
      var s' := s.(value := s.value + [Norm(v[0])]);
      assert (v + rest)[1..] == v[1..] + rest;
      ValueRun(v[1..], rest, index + 1, s');
      assert s.value + NormText(v) == s'.value + NormText(v[1..]);
    }
  }

  /** One delimiter that the machine takes. */
  lemma DelimiterRun(c: char, rest: string, index: nat, s: BlockState)
    requires Step(s, c).Go?
    ensures ParseFrom([c] + rest, index, s) == ParseFrom(rest, index + 1, Step(s, c).state)
  {
    assert ([c] + rest)[1..] == rest;
  }

  lemma ItemRun(i: NameValue, rest: string, index: nat, header: string, items: seq<NameValue>)
    requires ItemFramed(i)
    ensures ParseFrom(i.name + "=" + i.value + "\n" + rest, index, Clean(header, items))
         == ParseFrom(rest, index + |i.name| + |i.value| + 2,
                      Clean(header, items + [NameValue(NormText(i.name), NormText(i.value))]))
  {
    var afterValue := ['\n'] + rest;
    var afterName := ['='] + (i.value + afterValue);
    assert i.name + "=" + i.value + "\n" + rest == i.name + afterName;
    var s0 := Clean(header, items);
    NameRun(i.name, afterName, index, s0);
    assert s0.name + NormText(i.name) == NormText(i.name);
    var s1 := s0.(name := NormText(i.name));
    DelimiterRun('=', i.value + afterValue, index + |i.name|, s1);
    var s2 := s1.(phase := InValue, value := "");
    ValueRun(i.value, afterValue, index + |i.name| + 1, s2);
    assert s2.value + NormText(i.value) == NormText(i.value);
    DelimiterRun('\n', rest, index + |i.name| + 1 + |i.value|, s2.(value := NormText(i.value)));
  }

  lemma {:induction false} ItemsRun(list: seq<NameValue>, rest: string, index: nat, header: string,
                                      items: seq<NameValue>)
    requires forall i :: 0 <= i < |list| ==> ItemFramed(list[i])
    ensures ParseFrom(ItemsText(list) + rest, index, Clean(header, items))
         == ParseFrom(rest, index + |ItemsText(list)|, Clean(header, items + NormItems(list)))
    decreases list
  {
    if list == [] {
      assert ItemsText(list) + rest == rest;
      assert items + NormItems(list) == items;
    } else {
      var i := list[0];
      var items' := items + [NameValue(NormText(i.name), NormText(i.value))];
      var text := i.name + "=" + i.value + "\n";
      assert ItemsText(list) + rest == text + (ItemsText(list[1..]) + rest);
      ItemRun(i, ItemsText(list[1..]) + rest, index, header, items);
      ItemsRun(list[1..], rest, index + |text|, header, items');
      assert items + NormItems(list) == items' + NormItems(list[1..]);
    }
  }

  /** From the header line of a block to the start of its items. */
  lemma OpeningRun(header: string, rest: string)
    requires HeaderFramed(header)
    ensures ParsedBlock(header + (['\n'] + (['{'] + (['\n'] + rest))))
         == ParseFrom(rest, |header| + 3, Clean(NormText(header), []))
  {
    var h := NormText(header);
    var n := |header|;
    HeaderRun(header, ['\n'] + (['{'] + (['\n'] + rest)), 0, INITIAL);
    assert INITIAL.header + h == h;
    var s := BlockState(InHeader, true, h, "", "", []);
    DelimiterRun('\n', ['{'] + (['\n'] + rest), n, s);
    DelimiterRun('{', ['\n'] + rest, n + 1, s.(phase := WantBrace));
    DelimiterRun('\n', rest, n + 2, s.(phase := WantNewline));
  }

  lemma ClosingRun(rest: string, index: nat, header: string, items: seq<NameValue>)
    ensures ParseFrom(['}'] + (['\n'] + rest), index, Clean(header, items)) == Block(index + 2, header, items)
  {
    DelimiterRun('}', ['\n'] + rest, index, Clean(header, items));
    assert (['\n'] + rest)[0] == '\n';
  }

  /** A printed block is parsed to its header and items, wherever the text goes on. */
  lemma BlockRun(header: string, items: seq<NameValue>, rest: string)
    requires HeaderFramed(header) && forall i :: 0 <= i < |items| ==> ItemFramed(items[i])
    ensures ParsedBlock(BlockText(header, items) + rest)
         == Block(|BlockText(header, items)|, NormText(header), NormItems(items))
  {
    var h := NormText(header);
    var close := ['}'] + (['\n'] + rest);
    var inside := ItemsText(items) + close;
    assert BlockText(header, items) + rest == header + (['\n'] + (['{'] + (['\n'] + inside)));
    OpeningRun(header, inside);
    ItemsRun(items, close, |header| + 3, h, []);
    assert [] + NormItems(items) == NormItems(items);
    ClosingRun(rest, |header| + 3 + |ItemsText(items)|, h, NormItems(items));
  }

  /** A hop count as it may stand in a message: digits that fit the receiver's buffer. */
  predicate HopFits(hop: string) {
    0 < |hop| < 32 && AllDigits(hop)
  }

  /** The header items of a message that comes with another hop count than the 1 that is printed. */
  function HopItems(m: Message, hop: string): seq<NameValue> {
    [NameValue("hop", hop), NameValue("source", Join(m.source)), NameValue("target", TargetText(m))]
  }

  function HopText(m: Message, hop: string): string
    requires m.messageType != Any
  {
    BlockText(Header(m.messageType), HopItems(m, hop)) + BlockText(m.schemaClass + "." + m.schemaType, m.items)
  }

  lemma HopItemsFramed(m: Message, hop: string)
    requires Framed(m) && HopFits(hop)
    ensures forall i :: 0 <= i < 3 ==> ItemFramed(HopItems(m, hop)[i])
    ensures NormItems(HopItems(m, hop))
         == [NameValue("hop", hop), NameValue("source", NormText(Join(m.source))),
             NameValue("target", NormText(TargetText(m)))]
  {
    NormTextSame("hop");
    NormTextSame(hop);
    NormTextSame("source");
    NormTextSame("target");
  }

  lemma HopNumber(hop: string)
    requires HopFits(hop)
    ensures StringToInt(hop) == if NumberOf(hop) <= 0x7FFF_FFFF then Some(NumberOf(hop)) else None
  {
    assert IsDigit(hop[0]) && !IsSpace(hop[0]);
  }

  /** The receiver takes every hop count from 1 to the largest int. */
  ghost predicate HopTaken(hop: string)
    requires AllDigits(hop)
  {
    1 <= NumberOf(hop) <= 0x7FFF_FFFF
  }

  lemma HeaderParsed(m: Message, hop: string)
    requires Framed(m) && HopFits(hop)
    ensures ParsedHeader(NormItems(HopItems(m, hop)))
         == if HopTaken(hop) then Some(Addressing(NumberOf(hop), NormTag(m.source), Normal(m).target)) else None
  {
    HopItemsFramed(m, hop);
    var source, target := NormText(Join(m.source)), NormText(TargetText(m));
    ItemValues(hop, source, target);
    HopNumber(hop);
    NormTagJoin(m.source);
    match m.target
    case None =>
      NormTextSame("*");
    case Some(t) =>
      NormTagJoin(t);
      assert Join(NormTag(t))[|NormTag(t).vendor|] == '-';
  }

  lemma ItemValues(hop: string, source: string, target: string)
    ensures
      var items := [NameValue("hop", hop), NameValue("source", source), NameValue("target", target)];
      && NamedValue(items, "hop") == Some(hop)
      && NamedValue(items, "source") == Some(source) && NamedValue(items, "target") == Some(target)
  {
    var items := [NameValue("hop", hop), NameValue("source", source), NameValue("target", target)];
    assert items[1..][0].name == "source" && items[1..][1..][0].name == "target";
    assert NamedValue(items, "source") == NamedValue(items[1..], "source");
    assert NamedValue(items, "target") == NamedValue(items[1..][1..], "target");
  }

  lemma SchemaSplit(m: Message)
    requires '.' !in m.schemaClass
    ensures
      var h := NormText(m.schemaClass + "." + m.schemaType);
      var dot := |m.schemaClass|;
      && IndexOf(h, '.') == dot < |h|
      && h[..dot] == NormText(m.schemaClass) && h[dot + 1..] == NormText(m.schemaType)
  {
    NormTextSplit(m.schemaClass + ".", m.schemaType);
    NormTextSplit(m.schemaClass, ".");
    NormTextSame(".");
    NormTextKeeps(m.schemaClass, '.');
    IndexOfJoin(NormText(m.schemaClass), '.', NormText(m.schemaType));
  }

  lemma TypeIsRead(t: MessageType)
    requires t != Any
    ensures TypeOf(Header(t)) == Some(t)
  {
  }

  lemma BlocksCombined(m: Message, hop: string, first: Block, schema: Block)
    requires Framed(m) && HopFits(hop) && schema.n > 0
    requires first.header == Header(m.messageType) && first.items == NormItems(HopItems(m, hop))
    requires schema.header == NormText(m.schemaClass + "." + m.schemaType) && schema.items == NormItems(m.items)
    ensures Combined(first, schema) == if HopTaken(hop) then Some(Received(NumberOf(hop), Normal(m))) else None
  {
    hide ParsedHeader, NormItems, NumberOf;
    HeaderParsed(m, hop);
    SchemaSplit(m);
    TypeIsRead(m.messageType);
  }

  /**
   * A well-formed text with any hop count is parsed to its message, with the
   * characters replaced: same type, source, target or broadcast, schema, and
   * items in order. It is refused exactly for a hop count that is zero or no int.
   */
  lemma HopIsParsed(m: Message, hop: string)
    requires Framed(m) && HopFits(hop)
    ensures ParsedMessage(HopText(m, hop))
         == if 1 <= NumberOf(hop) <= 0x7FFF_FFFF then Some(Received(NumberOf(hop), Normal(m))) else None
  {
    TwoBlocksRun(m, hop);
    var first := ParsedBlock(HopText(m, hop));
    var schema := ParsedBlock(HopText(m, hop)[HeaderLength(m, hop)..]);
    BlocksCombined(m, hop, first, schema);
  }

  lemma NumberOfOne()
    ensures HopFits("1") && NumberOf("1") == 1
  {
    assert NumberOf("1"[..0]) == 0;
  }

  /** The text printed for a framed message is parsed to that message with its characters replaced. */
  lemma PrintedIsParsed(m: Message)
    requires Framed(m)
    ensures ParsedMessage(Rendering(m)) == Some(Received(1, Normal(m)))
  {
    NumberOfOne();
    HopIsParsed(m, "1");
    assert HeaderItems(m) == HopItems(m, "1");
  }

  function HeaderLength(m: Message, hop: string): (n: nat)
    requires m.messageType != Any
    ensures n <= |HopText(m, hop)|
  {
    |BlockText(Header(m.messageType), HopItems(m, hop))|
  }

  /** The two blocks of a message, as the machine finds them. */
  lemma TwoBlocksRun(m: Message, hop: string)
    requires Framed(m) && HopFits(hop)
    ensures ParsedBlock(HopText(m, hop))
         == Block(HeaderLength(m, hop), Header(m.messageType), NormItems(HopItems(m, hop)))
    ensures ParsedBlock(HopText(m, hop)[HeaderLength(m, hop)..])
         == Block(|HopText(m, hop)| - HeaderLength(m, hop), NormText(m.schemaClass + "." + m.schemaType),
                  NormItems(m.items))
  {
    var header, schema := Header(m.messageType), m.schemaClass + "." + m.schemaType;
    var second := BlockText(schema, m.items);
    HopItemsFramed(m, hop);
    NormTextSame(header);
    BlockRun(header, HopItems(m, hop), second);
    assert HopText(m, hop)[HeaderLength(m, hop)..] == second == second + "";
    BlockRun(schema, m.items, "");
  }

  lemma NormalSame(m: Message)
    ensures Normal(m) == m <==> CharactersAllowed(m)
  {
    NormTagSame(m.source);
    if m.target.Some? {
      NormTagSame(m.target.value);
    }
    NormTextSame(m.schemaClass);
    NormTextSame(m.schemaType);
    forall i | 0 <= i < |m.items|
      ensures NormItems(m.items)[i] == m.items[i]
         <==> AllowedText(m.items[i].name) && AllowedText(m.items[i].value)
    {
      NormTextSame(m.items[i].name);
      NormTextSame(m.items[i].value);
    }
    assert NormItems(m.items) == m.items <==> forall i :: 0 <= i < |m.items| ==> NormItems(m.items)[i] == m.items[i];
  }

  lemma NormTagSame(t: Tag)
    ensures NormTag(t) == t <==> TagAllowed(t)
  {
    NormTextSame(t.vendor);
    NormTextSame(t.device);
    NormTextSame(t.instance);
  }

  /** A framed message survives printing and parsing exactly when all its characters are allowed. */
  lemma RoundTrip(m: Message)
    requires Framed(m)
    ensures ParsedMessage(Rendering(m)) == Some(Received(1, m)) <==> CharactersAllowed(m)
  {
    PrintedIsParsed(m);
    NormalSame(m);
  }

  /**
   * Every character of a value is received as itself if its code is 32 to 122
   * or 124, and as '|' if not; so '~', though printable, is lost.
   */
  lemma CharacterReceived(m: Message, c: char)
    requires Framed(m) && m.items == [NameValue("key", [c])]
    ensures
      var r := ParsedMessage(Rendering(m));
      && r.Some?
      && r.value.message.items
         == [NameValue("key", [if 32 <= c as int <= 122 || c as int == 124 then c else '|'])]
  {
    hide ParsedMessage, Rendering, Framed, NormTag;
    PrintedIsParsed(m);
    NormTextSame("key");
    assert NormText([c]) == [Norm(c)];
    assert NormItems(m.items) == [NameValue("key", [Norm(c)])];
  }

  /** Where a block starts in a text is of no account. */
  lemma {:induction false} ParseShifted(rest: string, index: nat, shift: nat, s: BlockState)
    ensures
      var b, b' := ParseFrom(rest, index, s), ParseFrom(rest, index + shift, s);
      b'.header == b.header && b'.items == b.items && if b.n > 0 then b'.n == b.n + shift else b'.n <= 0
    decreases |rest|
  {
    if rest != "" && Step(s, rest[0]).Go? {
      ParseShifted(rest[1..], index + 1, shift, Step(s, rest[0]).state);
    }
  }

  predicate NoText(junk: string) {
    forall i :: 0 <= i < |junk| ==> junk[i] as int <= 32 || junk[i] as int >= 128
  }

  lemma {:induction false} JunkSkipped(junk: string, text: string, index: nat)
    requires NoText(junk)
    ensures ParseFrom(junk + text, index, INITIAL) == ParseFrom(text, index + |junk|, INITIAL)
    decreases junk
  {
    if junk == "" {
      assert junk + text == text;
    } else {
      assert (junk + text)[1..] == junk[1..] + text;
      JunkSkipped(junk[1..], text, index + 1);
    }
  }

  lemma CombinedAnywhere(first: Block, n: int, schema: Block)
    ensures Combined(first.(n := n), schema) == Combined(first, schema)
  {
  }

  /** Control characters, blanks and characters above 127 in front of a message make no difference. */
  lemma LeadingJunkIgnored(junk: string, text: string)
    requires NoText(junk)
    ensures ParsedMessage(junk + text) == ParsedMessage(text)
  {
    hide ParseFrom, Combined;
    JunkSkipped(junk, text, 0);
    ParseShifted(text, 0, |junk|, INITIAL);
    ParseBounds(text, 0, INITIAL);
    var n := ParsedBlock(text).n;
    if n > 0 {
      CombinedAnywhere(ParsedBlock(text), |junk| + n, ParsedBlock(text[n..]));
      assert (junk + text)[|junk| + n..] == text[n..];
    }
  }
}
