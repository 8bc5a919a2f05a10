/**
 * What the parser can produce: every message it returns can be printed and
 * parsed again without change. With that the conditions of the round trip are
 * not only sufficient but exact.
 */
module ParsedMessages {
  import opened Common
  import opened XplTag
  import opened XplMessage
  import opened MessageParser
  import opened MessageRoundTrip

  predicate ItemFine(i: NameValue) {
    ItemFramed(i) && AllowedText(i.name) && AllowedText(i.value)
  }

  predicate ItemsFine(items: seq<NameValue>) {
    forall i :: 0 <= i < |items| ==> ItemFine(items[i])
  }

  ghost predicate StateFine(s: BlockState) {
    && StateFits(s) && ItemsFine(s.items)
    && (s.started ==> !Junk(s.header[0]))
    && '=' !in s.name && '}' !in s.name
  }

  lemma AllowedHasNo(s: string)
    requires AllowedText(s)
    ensures '\n' !in s
  {
  }

  lemma StepFine(s: BlockState, c: char)
    requires StateFine(s) && Step(s, c).Go?
    ensures StateFine(Step(s, c).state)
  {
    AllowedHasNo(s.value);
    if s.phase == InHeader && s.started {
      assert (s.header + [Norm(c)])[0] == s.header[0];
    }
  }

  /** A complete block has a header and items such as can be printed. */
  lemma {:induction false} BlockFine(rest: string, index: nat, s: BlockState)
    requires StateFine(s)
    ensures
      var b := ParseFrom(rest, index, s);
      b.n > 0 ==> HeaderFramed(b.header) && AllowedText(b.header) && ItemsFine(b.items)
    decreases |rest|
  {
    if rest != "" {
      match Step(s, rest[0])
      case Go(s') =>
        StepFine(s, rest[0]);
        BlockFine(rest[1..], index + 1, s');
      case Finished =>
        AllowedHasNo(s.header);
      case Bad =>
    }
  }

  lemma {:induction false} NamedValueFine(items: seq<NameValue>, name: string)
    requires ItemsFine(items) && NamedValue(items, name).Some?
    ensures |NamedValue(items, name).value| < ITEM_SIZE && AllowedText(NamedValue(items, name).value)
  {
    if items[0].name != name {
      assert forall i :: 0 <= i < |items[1..]| ==> items[1..][i] == items[i + 1];
      NamedValueFine(items[1..], name);
    } else {
      assert ItemFine(items[0]);
    }
  }

  lemma CutFine(s: string)
    requires AllowedText(s) && |s| < ITEM_SIZE && Cut(s).Some?
    ensures TagFramed(Cut(s).value) && TagAllowed(Cut(s).value)
  {
    var t := Cut(s).value;
    AllowedHasNo(s);
    assert s[..|t.vendor|] == t.vendor;
    assert s[|t.vendor| + 1..][..|t.device|] == t.device;
    assert s[|t.vendor| + 1..][|t.device| + 1..] == t.instance;
  }

  lemma HeaderFine(items: seq<NameValue>)
    requires ItemsFine(items) && ParsedHeader(items).Some?
    ensures
      var a := ParsedHeader(items).value;
      && TagFramed(a.source) && TagAllowed(a.source)
      && (a.target.Some? ==> TagFramed(a.target.value) && TagAllowed(a.target.value))
  {
    var source, target := NamedValue(items, "source"), NamedValue(items, "target");
    NamedValueFine(items, "source");
    NamedValueFine(items, "target");
    CutFine(source.value);
    if target.value != "*" {
      CutFine(target.value);
    }
  }

  lemma SchemaFine(header: string)
    requires HeaderFramed(header) && AllowedText(header) && IndexOf(header, '.') < |header|
    ensures
      var dot := IndexOf(header, '.');
      && '.' !in header[..dot] && HeaderFramed(header[..dot] + "." + header[dot + 1..])
      && AllowedText(header[0..dot]) && AllowedText(header[dot + 1..|header|])
  {
    var dot := IndexOf(header, '.');
    CutAtDot(header, dot);
    AllowedPart(header, 0, dot);
    AllowedPart(header, dot + 1, |header|);
  }

  lemma CutAtDot(s: string, dot: nat)
    requires dot < |s| && s[dot] == '.'
    ensures s[..dot] + "." + s[dot + 1..] == s
  {
  }

  lemma AllowedPart(s: string, from: nat, to: nat)
    requires AllowedText(s) && from <= to <= |s|
    ensures AllowedText(s[from..to])
  {
  }

  lemma TypeHasNoDot(header: string)
    requires TypeOf(header).Some?
    ensures IndexOf(header, '.') == |header|
  {
    TypeHeader(header);
    HeaderHasNoDot(TypeOf(header).value);
  }

  lemma TypeHeader(header: string)
    requires TypeOf(header).Some?
    ensures TypeOf(header).value != Any && header == Header(TypeOf(header).value)
  {
  }

  lemma HeaderHasNoDot(t: MessageType)
    requires t != Any
    ensures IndexOf(Header(t), '.') == |Header(t)|
  {
    NoDotInEight(Header(t));
  }

  lemma NoDotInEight(h: string)
    requires |h| == 8 && h[0] != '.' && h[1] != '.' && h[2] != '.' && h[3] != '.'
    requires h[4] != '.' && h[5] != '.' && h[6] != '.' && h[7] != '.'
    ensures IndexOf(h, '.') == 8
  {
    var i := IndexOf(h, '.');
    assert 0 <= i <= 8;
  }

  ghost predicate BlockGood(b: Block) {
    b.n > 0 ==> HeaderFramed(b.header) && AllowedText(b.header) && ItemsFine(b.items)
  }

  lemma AssembledFine(t: MessageType, header: string, a: Addressing, schema: Block)
    requires t != Any && IndexOf(header, '.') == |header| && BlockGood(schema)
    requires TagFramed(a.source) && TagAllowed(a.source)
    requires a.target.Some? ==> TagFramed(a.target.value) && TagAllowed(a.target.value)
    requires Assembled(t, header, a, schema).Some?
    ensures Framed(Assembled(t, header, a, schema).value.message)
    ensures CharactersAllowed(Assembled(t, header, a, schema).value.message)
  {
    SchemaFine(schema.header);
    assert forall i :: 0 <= i < |schema.items| ==> ItemFine(schema.items[i]);
  }

  /** Every message the parser returns is framed and has allowed characters only. */
  lemma ParsedIsFramed(text: string)
    ensures ParsedMessage(text).Some? ==>
      var m := ParsedMessage(text).value.message;
      Framed(m) && CharactersAllowed(m)
  {
    var first := ParsedBlock(text);
    if ParsedMessage(text).Some? {
      var schema := ParsedBlock(text[first.n..]);
      BlockFine(text, 0, INITIAL);
      BlockFine(text[first.n..], 0, INITIAL);
      HeaderFine(first.items);
      TypeHasNoDot(first.header);
      AssembledFine(TypeOf(first.header).value, first.header, ParsedHeader(first.items).value, schema);
    }
  }

  /**
   * The round trip, for all messages: what is printed is parsed to the same
   * message exactly when it fits the receiver's buffers, holds none of its
   * delimiters, and has allowed characters only.
   */
  lemma RoundTripExactly(m: Message)
    requires m.messageType != Any
    ensures ParsedMessage(Rendering(m)) == Some(Received(1, m)) <==> Framed(m) && CharactersAllowed(m)
  {
    ParsedIsFramed(Rendering(m));
    if Framed(m) {
      RoundTrip(m);
    }
  }

  /** Whatever text a message was read from, printing it and reading it again changes nothing but the hop count. */
  lemma ParsedPrintsBack(text: string)
    ensures ParsedMessage(text).Some? ==>
      var m := ParsedMessage(text).value.message;
      m.messageType != Any && ParsedMessage(Rendering(m)) == Some(Received(1, m))
  {
    ParsedIsFramed(text);
    if ParsedMessage(text).Some? {
      RoundTripExactly(ParsedMessage(text).value.message);
    }
  }

  /** Sending a message through the bounded buffer, and parsing what was sent. */
  method SendAndReceive(m: Message) returns (r: Option<Received>)
    requires m.messageType != Any
    ensures r == Some(Received(1, m)) <==> |Rendering(m)| < 1500 && Framed(m) && CharactersAllowed(m)
    ensures |Rendering(m)| < 1500 && Framed(m) ==> r == Some(Received(1, Normal(m)))
  {
    RoundTripExactly(m);
    if Framed(m) {
      PrintedIsParsed(m);
    }
    var tx := new TxBuffer();
    var ok := tx.FormatMessage(m);
    if !ok {
      return None;
    }
    r := ParseMessage(tx.txBuff[..tx.txBuffBytesWritten]);
  }
}
