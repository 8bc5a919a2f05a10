/**
 * xPL messages and their printing into the fixed transmit buffer (xplcore.c).
 */
module XplMessage {
  import opened Common
  import opened XplTag

  const MSG_MAX_SIZE: nat := 1500

  datatype MessageType = Any | CommandType | StatusType | TriggerType

  datatype NameValue = NameValue(name: string, value: string)

  /** target is None for a broadcast. */
  datatype Message = Message(
    messageType: MessageType,
    source: Tag,
    target: Option<Tag>,
    schemaClass: string,
    schemaType: string,
    items: seq<NameValue>)

  function Header(t: MessageType): string
    requires t != Any
  {
    match t
    case CommandType => "xpl-cmnd"
    case StatusType => "xpl-stat"
    case TriggerType => "xpl-trig"
  }

  function TargetText(m: Message): string {
    match m.target
    case None => "*"
    case Some(tag) => Join(tag)
  }

  function ItemsText(items: seq<NameValue>): string {
    if items == [] then "" else items[0].name + "=" + items[0].value + "\n" + ItemsText(items[1..])
  }

  /** A block: its header line, and its items between braces. */
  function BlockText(header: string, items: seq<NameValue>): string {
    header + "\n{\n" + ItemsText(items) + "}\n"
  }

  function HeaderItems(m: Message): seq<NameValue> {
    [NameValue("hop", "1"), NameValue("source", Join(m.source)), NameValue("target", TargetText(m))]
  }

  /** The whole text of a message: a header block and a schema block. */
  function Rendering(m: Message): string
    requires m.messageType != Any
  {
    BlockText(Header(m.messageType), HeaderItems(m)) + BlockText(m.schemaClass + "." + m.schemaType, m.items)
  }

  /** Each item is a line of its own. */
  lemma {:induction false} ItemLine(items: seq<NameValue>, name: string, value: string)
    ensures ItemsText(items + [NameValue(name, value)]) == ItemsText(items) + (name + "=" + value + "\n")
  {
    var last := [NameValue(name, value)];
    if items == [] {
      assert items + last == last && last[1..] == [];
      assert name + "=" + value + "\n" + "" == name + "=" + value + "\n";
    } else {
      var first := items[0].name + "=" + items[0].value + "\n";
      assert (items + last)[1..] == items[1..] + last;
      ItemLine(items[1..], name, value);
      AppendAssociates(first, ItemsText(items[1..]), name + "=" + value + "\n");
    }
  }

  // ----- the fragments written -----

  function SourceFragments(m: Message): seq<string>
    requires m.messageType != Any
  {
    [Header(m.messageType), "\n{\nhop=1\nsource=",
     m.source.vendor, "-", m.source.device, ".", m.source.instance, "\n"]
  }

  function TargetFragments(m: Message): seq<string> {
    match m.target
    case None => ["target=*"]
    case Some(tag) => ["target=", tag.vendor, "-", tag.device, ".", tag.instance]
  }

  function SchemaFragments(m: Message): seq<string> {
    ["\n}\n", m.schemaClass, ".", m.schemaType, "\n{\n"]
  }

  function ItemFragments(items: seq<NameValue>): seq<string> {
    if items == [] then [] else [items[0].name, "=", items[0].value, "\n"] + ItemFragments(items[1..])
  }

  function Fragments(m: Message): seq<string>
    requires m.messageType != Any
  {
    SourceFragments(m) + (TargetFragments(m) + (SchemaFragments(m) + (ItemFragments(m.items) + ["}\n"])))
  }

  /** Appends fragments while they fit; tells whether all did, and what was written. */
  function Printed(fragments: seq<string>, text: string): (r: (bool, string)) {
    if fragments == [] then (true, text)
    else if |text| + |fragments[0]| >= MSG_MAX_SIZE then (false, text)
    else Printed(fragments[1..], text + fragments[0])
  }

  lemma {:induction false} ConcatItems(items: seq<NameValue>)
    ensures Concat(ItemFragments(items)) == ItemsText(items)
  {
    if items != [] {
      var first := [items[0].name, "=", items[0].value, "\n"];
      ConcatItems(items[1..]);
      ConcatAppend(first, ItemFragments(items[1..]));
      ConcatFour(items[0].name, "=", items[0].value, "\n");
    }
  }

  lemma ConcatFour(a: string, b: string, c: string, d: string)
    ensures Concat([a, b, c, d]) == a + b + c + d
  {
    ConcatTwo(a, b);
    ConcatTwo(c, d);
    ConcatAppend([a, b], [c, d]);
    assert [a, b] + [c, d] == [a, b, c, d];
  }

  lemma ConcatTwo(a: string, b: string)
    ensures Concat([a, b]) == a + b
  {
    assert Concat([b]) == b;
  }

  lemma ConcatSource(m: Message)
    requires m.messageType != Any
    ensures Concat(SourceFragments(m))
         == Header(m.messageType) + "\n{\nhop=1\nsource=" + Join(m.source) + "\n"
  {
    var head := [Header(m.messageType), "\n{\nhop=1\nsource="];
    var tag := [m.source.vendor, "-", m.source.device, "."];
    var tail := [m.source.instance, "\n"];
    assert SourceFragments(m) == head + (tag + tail);
    ConcatAppend(head, tag + tail);
    ConcatAppend(tag, tail);
    ConcatTwo(head[0], head[1]);
    ConcatFour(tag[0], tag[1], tag[2], tag[3]);
    ConcatTwo(tail[0], tail[1]);
  }

  lemma ConcatTarget(m: Message)
    ensures Concat(TargetFragments(m)) == "target=" + TargetText(m)
  {
    match m.target
    case None =>
      assert Concat(["target=*"]) == "target=" + "*";
    case Some(tag) =>
      var head := ["target=", tag.vendor];
      var tail := ["-", tag.device, ".", tag.instance];
      assert TargetFragments(m) == head + tail;
      ConcatAppend(head, tail);
      ConcatTwo(head[0], head[1]);
      ConcatFour(tail[0], tail[1], tail[2], tail[3]);
  }

  lemma ConcatSchema(m: Message)
    ensures Concat(SchemaFragments(m)) == "\n}\n" + m.schemaClass + "." + m.schemaType + "\n{\n"
  {
    var head := ["\n}\n", m.schemaClass, ".", m.schemaType];
    assert SchemaFragments(m) == head + ["\n{\n"];
    ConcatAppend(head, ["\n{\n"]);
    ConcatFour(head[0], head[1], head[2], head[3]);
    assert Concat(["\n{\n"]) == "\n{\n";
  }

  lemma ThreeItems(a: NameValue, b: NameValue, c: NameValue)
    ensures ItemsText([a, b, c])
         == (a.name + "=" + a.value + "\n") + (b.name + "=" + b.value + "\n") + (c.name + "=" + c.value + "\n")
  {
    assert [a, b, c][1..] == [b, c] && [b, c][1..] == [c] && [c][1..] == [];
    assert ItemsText([c]) == c.name + "=" + c.value + "\n";
    AppendAssociates(a.name + "=" + a.value + "\n", b.name + "=" + b.value + "\n", ItemsText([c]));
  }

  lemma HeaderText(m: Message)
    requires m.messageType != Any
    ensures BlockText(Header(m.messageType), HeaderItems(m))
         == (Header(m.messageType) + "\n{\nhop=1\nsource=" + Join(m.source) + "\n")
            + (("target=" + TargetText(m)) + "\n}\n")
  {
    hide Header, TargetText, Join, ItemsText;
    ThreeItems(HeaderItems(m)[0], HeaderItems(m)[1], HeaderItems(m)[2]);
  }

  /** What a message looks like on the wire. */
  lemma RenderingText(m: Message)
    requires m.messageType != Any
    ensures
      var kind := if m.messageType == CommandType then "xpl-cmnd"
                  else if m.messageType == StatusType then "xpl-stat" else "xpl-trig";
      var source := m.source.vendor + "-" + m.source.device + "." + m.source.instance;
      var target := if m.target.None? then "*"
                    else m.target.value.vendor + "-" + m.target.value.device + "." + m.target.value.instance;
      Rendering(m)
      == ((kind + "\n{\nhop=1\nsource=" + source + "\n") + (("target=" + target) + "\n}\n"))
         + (m.schemaClass + "." + m.schemaType + "\n{\n" + ItemsText(m.items) + "}\n")
  {
    HeaderText(m);
  }

  lemma ConcatBody(m: Message)
    ensures Concat(SchemaFragments(m) + (ItemFragments(m.items) + ["}\n"]))
         == "\n}\n" + BlockText(m.schemaClass + "." + m.schemaType, m.items)
  {
    var items := ItemFragments(m.items) + ["}\n"];
    ConcatAppend(ItemFragments(m.items), ["}\n"]);
    ConcatItems(m.items);
    assert Concat(["}\n"]) == "}\n";
    ConcatAppend(SchemaFragments(m), items);
    ConcatSchema(m);
  }

  lemma ConcatFragments(m: Message)
    requires m.messageType != Any
    ensures Concat(Fragments(m)) == Rendering(m)
  {
    var body := SchemaFragments(m) + (ItemFragments(m.items) + ["}\n"]);
    ConcatBody(m);
    ConcatAppend(TargetFragments(m), body);
    ConcatTarget(m);
    ConcatAppend(SourceFragments(m), TargetFragments(m) + body);
    ConcatSource(m);
    HeaderText(m);
  }

  /**
   * Printing succeeds exactly when the text stays below the size of the
   * buffer, and then it is the whole text. Otherwise it stops before the
   * first fragment that does not fit.
   */
  lemma {:induction false} PrintedMeaning(fragments: seq<string>, text: string)
    requires |text| < MSG_MAX_SIZE
    ensures
      var (ok, out) := Printed(fragments, text);
      && ok == (|text| + |Concat(fragments)| < MSG_MAX_SIZE)
      && |out| < MSG_MAX_SIZE
      && (ok ==> out == text + Concat(fragments))
      && (!ok ==> exists k :: 0 <= k < |fragments| && out == text + Concat(fragments[..k])
                              && |out| + |fragments[k]| >= MSG_MAX_SIZE)
  {
    if fragments != [] {
      if |text| + |fragments[0]| >= MSG_MAX_SIZE {
        assert fragments[..0] == [];
      } else {
        var rest := fragments[1..];
        PrintedMeaning(rest, text + fragments[0]);
        var (ok, out) := Printed(rest, text + fragments[0]);
        if !ok {
          var k :| 0 <= k < |rest| && out == text + fragments[0] + Concat(rest[..k])
                   && |out| + |rest[k]| >= MSG_MAX_SIZE;
          var front := fragments[..k + 1];
          assert front == [fragments[0]] + rest[..k];
          assert front[1..] == rest[..k];
          assert fragments[k + 1] == rest[k];
        }
      }
    }
  }

  /** Where the fragments of the i-th item are in the list of all. */
  lemma {:induction false} ItemFragmentsAt(items: seq<NameValue>, i: nat)
    requires i <= |items|
    ensures |ItemFragments(items)| == 4 * |items|
    ensures i < |items| ==>
      var f := ItemFragments(items);
      f[4 * i] == items[i].name && f[4 * i + 1] == "=" && f[4 * i + 2] == items[i].value && f[4 * i + 3] == "\n"
  {
    if items != [] {
      var first, rest := [items[0].name, "=", items[0].value, "\n"], ItemFragments(items[1..]);
      ItemFragmentsAt(items[1..], if i == 0 then 0 else i - 1);
      if 0 < i < |items| {
        var k := 4 * (i - 1);
        FourBehind(first, rest, k);
      }
    }
  }

  lemma FourBehind(first: seq<string>, rest: seq<string>, k: nat)
    requires |first| == 4 && k + 4 <= |rest|
    ensures
      var f := first + rest;
      f[k + 4] == rest[k] && f[k + 5] == rest[k + 1] && f[k + 6] == rest[k + 2] && f[k + 7] == rest[k + 3]
  {
  }

  lemma SourceAt(m: Message, f: seq<string>)
    requires m.messageType != Any && SourceFragments(m) <= f
    ensures |f| >= 8 && f[0] == Header(m.messageType) && f[1] == "\n{\nhop=1\nsource=" && f[7] == "\n"
    ensures f[2] == m.source.vendor && f[3] == "-" && f[4] == m.source.device
    ensures f[5] == "." && f[6] == m.source.instance
  {
    var g := SourceFragments(m);
    assert |g| == 8 && forall k :: 0 <= k < 8 ==> f[k] == g[k];
    assert g[0] == Header(m.messageType) && g[1] == "\n{\nhop=1\nsource=" && g[7] == "\n";
  }

  lemma SchemaAt(m: Message, f: seq<string>)
    requires SchemaFragments(m) <= f
    ensures |f| >= 5 && f[0] == "\n}\n" && f[1] == m.schemaClass && f[2] == "."
    ensures f[3] == m.schemaType && f[4] == "\n{\n"
  {
    var g := SchemaFragments(m);
    assert |g| == 5 && forall k :: 0 <= k < 5 ==> f[k] == g[k];
  }

  // ----- the transmit buffer -----

  class TxBuffer {
    const txBuff: array<char>
    var txBuffBytesWritten: nat

    ghost predicate Valid()
      reads this
    {
      txBuff.Length == MSG_MAX_SIZE && txBuffBytesWritten < MSG_MAX_SIZE
    }

    ghost predicate Terminated()
      requires Valid()
      reads this, txBuff
    {
      txBuff[txBuffBytesWritten] == '\0'
    }

    ghost function Text(): string
      requires Valid()
      reads this, txBuff
    {
      txBuff[..txBuffBytesWritten]
    }

    constructor ()
      ensures Valid() && fresh(txBuff) && Text() == "" && Terminated()
    {
      txBuff := new char[MSG_MAX_SIZE](_ => '\0');
      txBuffBytesWritten := 0;
    }

    method AppendText(text: string) returns (ok: bool)
      requires Valid()
      modifies this, txBuff
      ensures Valid()
      ensures ok == (|old(Text())| + |text| < MSG_MAX_SIZE)
      ensures Text() == if ok then old(Text()) + text else old(Text())
      ensures ok || old(Terminated()) ==> Terminated()
    {
      if txBuffBytesWritten + |text| >= MSG_MAX_SIZE {
        return false;
      }
      ghost var before := Text();
      var start := txBuffBytesWritten;
      for i := 0 to |text|
        invariant txBuff[..start] == before
        invariant txBuff[start..start + i] == text[..i]
        modifies txBuff
      {
        txBuff[start + i] := text[i];
      }
      txBuffBytesWritten := start + |text|;
      txBuff[txBuffBytesWritten] := '\0';
      assert txBuff[..start + |text|] == txBuff[..start] + txBuff[start..start + |text|];
      return true;
    }

    /** Writes the k-th of the fragments of a message. */
    method WriteText(text: string, ghost fragments: seq<string>, ghost k: nat) returns (ok: bool)
      requires Valid() && k < |fragments| && fragments[k] == text
      modifies this, txBuff
      ensures Valid() && (ok || old(Terminated()) ==> Terminated())
      ensures ok == (|old(Text())| + |text| < MSG_MAX_SIZE)
      ensures Printed(fragments[k..], old(Text()))
           == if ok then Printed(fragments[k + 1..], Text()) else (false, Text())
    {
      ok := AppendText(text);
      assert fragments[k..][1..] == fragments[k + 1..];
    }

    /** Writes a tag as vendor, '-', device, '.', instance. */
    method WriteTag(tag: Tag, ghost f: seq<string>, ghost k: nat) returns (ok: bool)
      requires Valid() && Terminated() && k + 5 <= |f|
      requires f[k] == tag.vendor && f[k + 1] == "-" && f[k + 2] == tag.device
      requires f[k + 3] == "." && f[k + 4] == tag.instance
      modifies this, txBuff
      ensures Valid() && Terminated()
      ensures Printed(f[k..], old(Text())) == if ok then Printed(f[k + 5..], Text()) else (false, Text())
    {
      ok := WriteText(tag.vendor, f, k);
      if ok { ok := WriteText("-", f, k + 1); }
      if ok { ok := WriteText(tag.device, f, k + 2); }
      if ok { ok := WriteText(".", f, k + 3); }
      if ok { ok := WriteText(tag.instance, f, k + 4); }
    }

    method FormatSource(m: Message, ghost f: seq<string>) returns (ok: bool)
      requires Valid() && m.messageType != Any && Text() == "" && SourceFragments(m) <= f
      modifies this, txBuff
      ensures Valid() && Terminated()
      ensures Printed(f, "") == if ok then Printed(f[8..], Text()) else (false, Text())
    {
      assert f[0..] == f;
      SourceAt(m, f);
      ok := WriteText(Header(m.messageType), f, 0);
      if ok { ok := WriteText("\n{\nhop=1\nsource=", f, 1); }
      if ok { ok := WriteTag(m.source, f, 2); }
      if ok { ok := WriteText("\n", f, 7); }
    }

    method FormatTarget(m: Message, ghost f: seq<string>) returns (ok: bool)
      requires Valid() && Terminated() && TargetFragments(m) <= f
      modifies this, txBuff
      ensures Valid() && Terminated()
      ensures Printed(f, old(Text()))
           == if ok then Printed(f[|TargetFragments(m)|..], Text()) else (false, Text())
    {
      assert f[0..] == f;
      if m.target.None? {
        ok := WriteText("target=*", f, 0);
      } else {
        ok := WriteText("target=", f, 0);
        if ok { ok := WriteTag(m.target.value, f, 1); }
      }
    }

    method FormatSchema(m: Message, ghost f: seq<string>) returns (ok: bool)
      requires Valid() && Terminated() && SchemaFragments(m) <= f
      modifies this, txBuff
      ensures Valid() && Terminated()
      ensures Printed(f, old(Text())) == if ok then Printed(f[5..], Text()) else (false, Text())
    {
      assert f[0..] == f;
      SchemaAt(m, f);
      ok := WriteText("\n}\n", f, 0);
      if ok { ok := WriteText(m.schemaClass, f, 1); }
      if ok { ok := WriteText(".", f, 2); }
      if ok { ok := WriteText(m.schemaType, f, 3); }
      if ok { ok := WriteText("\n{\n", f, 4); }
    }

    /** Writes an item as name, '=', value, newline. */
    method WriteItem(item: NameValue, ghost f: seq<string>, ghost k: nat) returns (ok: bool)
      requires Valid() && Terminated() && k + 4 <= |f|
      requires f[k] == item.name && f[k + 1] == "=" && f[k + 2] == item.value && f[k + 3] == "\n"
      modifies this, txBuff
      ensures Valid() && Terminated()
      ensures Printed(f[k..], old(Text())) == if ok then Printed(f[k + 4..], Text()) else (false, Text())
    {
      ok := WriteText(item.name, f, k);
      if ok { ok := WriteText("=", f, k + 1); }
      if ok { ok := WriteText(item.value, f, k + 2); }
      if ok { ok := WriteText("\n", f, k + 3); }
    }

    method FormatItems(items: seq<NameValue>) returns (ok: bool)
      requires Valid() && Terminated()
      modifies this, txBuff
      ensures Valid() && Terminated()
      ensures (ok, Text()) == Printed(ItemFragments(items) + ["}\n"], old(Text()))
    {
      ghost var f := ItemFragments(items) + ["}\n"];
      ItemFragmentsAt(items, 0);
      assert f[0..] == f;
      ok := true;
      for i := 0 to |items|
        invariant Valid() && Terminated() && ok
        invariant Printed(f, old(Text())) == Printed(f[4 * i..], Text())
      {
        ItemFragmentsAt(items, i);
        ok := WriteItem(items[i], f, 4 * i);
        if !ok {
          return;
        }
      }
      ok := WriteText("}\n", f, 4 * |items|);
    }

    /**
     * Prints a message. It succeeds exactly when the text is shorter than the
     * buffer, and the buffer then holds it as a string; otherwise it holds
     * the fragments before the first that does not fit.
     */
    method FormatMessage(m: Message) returns (ok: bool)
      requires txBuff.Length == MSG_MAX_SIZE && m.messageType != Any
      modifies this, txBuff
      ensures Valid() && Terminated()
      ensures ok <==> |Rendering(m)| < 1500
      ensures ok ==> Text() == Rendering(m)
      ensures !ok ==> exists k :: 0 <= k < |Fragments(m)| && Text() == Concat(Fragments(m)[..k])
                                  && |Text()| + |Fragments(m)[k]| >= 1500
    {
      txBuffBytesWritten := 0;
      ghost var items := ItemFragments(m.items) + ["}\n"];
      ghost var rest := TargetFragments(m) + (SchemaFragments(m) + items);
      ConcatFragments(m);
      PrintedMeaning(Fragments(m), "");
      ok := FormatSource(m, Fragments(m));
      assert Fragments(m)[8..] == rest;
      if ok {
        ok := FormatTarget(m, rest);
        assert rest[|TargetFragments(m)|..] == SchemaFragments(m) + items;
      }
      if ok {
        ok := FormatSchema(m, SchemaFragments(m) + items);
        assert (SchemaFragments(m) + items)[5..] == items;
      }
      if ok {
        ok := FormatItems(m.items);
      }
    }
  }
}
