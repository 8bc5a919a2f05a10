/**
 * The script transfer protocol (monitor.c): the sender frames the lines of a
 * script, the receiver collects them in a buffer that doubles when needed.
 */
module ScriptTransfer {
  import opened Common
  import opened Split

  const LINE_MAX: nat := 258
  const SIZE_LIMIT: nat := 65536
  const FIRST_SIZE: nat := 2048

  // ----- the wire -----

  function Framed(lines: seq<string>): string {
    if lines == [] then "" else "sl:" + lines[0] + "\n" + Framed(lines[1..])
  }

  function WireText(script: string, id: string): string {
    "sb:" + id + "\n" + Framed(Pieces(script, {'\n'})) + "se:" + id + "\n"
  }

  method MonitorSendScript(theScript: string, id: string) returns (sent: string)
    ensures sent == WireText(theScript, id)
  {
    sent := "sb:" + id + "\n";
    var lines := UtilSplitString(theScript, '\n');
    for i := 0 to |lines|
      invariant sent + Framed(lines[i..]) == "sb:" + id + "\n" + Framed(lines)
    {
      ghost var before := sent;
      sent := sent + ("sl:" + lines[i] + "\n");
      assert lines[i..][1..] == lines[i + 1..];
      assert sent + Framed(lines[i + 1..]) == before + ("sl:" + lines[i] + "\n" + Framed(lines[i + 1..]));
    }
    sent := sent + "se:" + id + "\n";
  }

  /** SocketReadLine drops carriage returns and ends a line at a newline. */
  function RemoveCr(s: string): string {
    Filtered(s, {'\r'})
  }

  /** The complete lines in a stream of characters. */
  function LinesFrom(stream: string, line: string): seq<string>
    decreases |stream|
  {
    if stream == "" then []
    else if stream[0] == '\r' then LinesFrom(stream[1..], line)
    else if stream[0] == '\n' then [line] + LinesFrom(stream[1..], "")
    else LinesFrom(stream[1..], line + [stream[0]])
  }

  lemma {:induction false} LineRead(text: string, rest: string, line: string)
    requires '\n' !in text
    ensures LinesFrom(text + "\n" + rest, line) == [line + RemoveCr(text)] + LinesFrom(rest, "")
    decreases |text|
  {
    var stream := text + "\n" + rest;
    if text == "" {
      assert stream[1..] == rest && line + "" == line;
    } else {
      assert stream[1..] == text[1..] + "\n" + rest;
      if text[0] == '\r' {
        LineRead(text[1..], rest, line);
        assert RemoveCr(text) == "" + RemoveCr(text[1..]) == RemoveCr(text[1..]);
      } else {
        LineRead(text[1..], rest, line + [text[0]]);
        assert line + RemoveCr(text) == line + [text[0]] + RemoveCr(text[1..]);
      }
    }
  }

  // ----- the receiver as a function -----

  datatype Phase = Idle | WaitLine | Finished | Error

  datatype Received = Received(state: Phase, name: string, text: string)

  const IDLE := Received(Idle, "", "")

  predicate Prefixed(line: string, prefix: string) {
    |line| >= |prefix| && line[..|prefix|] == prefix
  }

  /** A line that ends a transfer with an error wherever it comes. */
  predicate Fatal(line: string) {
    |line| < 3 || |line| > LINE_MAX || Prefixed(line, "er:")
  }

  /** What a line does, and whether the receiver is done. */
  function Receive(r: Received, line: string): (Received, bool) {
    if Fatal(line) then (r.(state := Error), true)
    else
      match r.state
      case Idle =>
        if Prefixed(line, "sb:") then (r.(state := WaitLine, name := line[3..]), false) else (r, false)
      case WaitLine =>
        if Prefixed(line, "se:") then (r.(state := Finished), true)
        else if Prefixed(line, "sl:") then
          if |r.text| + |line| - 3 >= SIZE_LIMIT then (r.(state := Error), true)
          else (r.(text := r.text + line[3..] + "\n"), false)
        else (r, false)
      case Finished => (r, true)
      case Error => (r, true)
  }

  /** The caller feeds lines until the receiver is done. */
  function ReceiveAll(r: Received, lines: seq<string>): Received
    decreases lines
  {
    if lines == [] then r
    else
      var (r', done) := Receive(r, lines[0]);
      if done then r' else ReceiveAll(r', lines[1..])
  }

  // ----- what a transfer gives -----

  /** Each line followed by a newline. */
  function Terminated(lines: seq<string>): string {
    if lines == [] then "" else lines[0] + "\n" + Terminated(lines[1..])
  }

  function RemoveCrs(lines: seq<string>): (r: seq<string>)
    ensures |r| == |lines| && forall i :: 0 <= i < |lines| ==> r[i] == RemoveCr(lines[i])
  {
    if lines == [] then [] else [RemoveCr(lines[0])] + RemoveCrs(lines[1..])
  }

  /** The script as it arrives: its non-empty lines, without carriage returns. */
  function Normalized(script: string): string {
    Terminated(RemoveCrs(Pieces(script, {'\n'})))
  }

  ghost predicate LinesFit(lines: seq<string>) {
    forall i :: 0 <= i < |lines| ==> |lines[i]| <= 255
  }

  lemma {:induction false} RemoveCrKeeps(s: string)
    ensures '\n' !in s ==> '\n' !in RemoveCr(s)
    ensures '\r' !in s ==> RemoveCr(s) == s
  {
    if s != "" {
      RemoveCrKeeps(s[1..]);
      assert s == [s[0]] + s[1..];
    }
  }

  lemma {:induction false} RemoveCrPrefix(prefix: string, s: string)
    requires '\r' !in prefix
    ensures RemoveCr(prefix + s) == prefix + RemoveCr(s)
  {
    if prefix == "" {
      assert prefix + s == s;
    } else {
      assert (prefix + s)[1..] == prefix[1..] + s;
      RemoveCrPrefix(prefix[1..], s);
    }
  }

  /** The lines read from the frames of a script. */
  function FrameLines(lines: seq<string>): (r: seq<string>)
    ensures |r| == |lines|
  {
    if lines == [] then [] else ["sl:" + lines[0]] + FrameLines(lines[1..])
  }

  lemma FramesFirst(line: string, rest: seq<string>)
    ensures Framed([line] + rest) == "sl:" + line + "\n" + Framed(rest)
    ensures FrameLines(RemoveCrs([line] + rest)) == ["sl:" + RemoveCr(line)] + FrameLines(RemoveCrs(rest))
  {
    assert ([line] + rest)[1..] == rest;
    assert RemoveCrs([line] + rest) == [RemoveCr(line)] + RemoveCrs(rest);
    assert RemoveCrs([line] + rest)[1..] == RemoveCrs(rest);
  }

  lemma {:induction false} FramesRead(lines: seq<string>, rest: string)
    requires forall i :: 0 <= i < |lines| ==> '\n' !in lines[i]
    ensures LinesFrom(Framed(lines) + rest, "") == FrameLines(RemoveCrs(lines)) + LinesFrom(rest, "")
    decreases lines
  {
    if lines == [] {
      assert Framed(lines) + rest == rest;
    } else {
      var line, others := lines[0], lines[1..];
      assert lines == [line] + others;
      FramesFirst(line, others);
      FramesRead(others, rest);
      FrameRead(line, Framed(others) + rest);
      AppendAssociates("sl:" + line + "\n", Framed(others), rest);
      AppendAssociates(["sl:" + RemoveCr(line)], FrameLines(RemoveCrs(others)), LinesFrom(rest, ""));
    }
  }

  lemma FrameRead(line: string, rest: string)
    requires '\n' !in line
    ensures LinesFrom("sl:" + line + "\n" + rest, "") == ["sl:" + RemoveCr(line)] + LinesFrom(rest, "")
  {
    LineRead("sl:" + line, rest, "");
    RemoveCrPrefix("sl:", line);
    assert "" + RemoveCr("sl:" + line) == "sl:" + RemoveCr(line);
  }

  /** The lines that arrive when a script is sent. */
  lemma WireRead(script: string, id: string)
    requires '\n' !in id
    ensures LinesFrom(WireText(script, id), "")
         == ["sb:" + RemoveCr(id)] + FrameLines(RemoveCrs(Pieces(script, {'\n'}))) + ["se:" + RemoveCr(id)]
  {
    var lines := Pieces(script, {'\n'});
    var end := "se:" + id + "\n";
    PiecesOneSep(script, '\n');
    assert WireText(script, id) == ("sb:" + id) + "\n" + (Framed(lines) + end);
    LineRead("sb:" + id, Framed(lines) + end, "");
    FramesRead(lines, end);
    assert end == ("se:" + id) + "\n" + "";
    LineRead("se:" + id, "", "");
    RemoveCrPrefix("sb:", id);
    RemoveCrPrefix("se:", id);
    assert "" + RemoveCr("sb:" + id) == "sb:" + RemoveCr(id);
    assert "" + RemoveCr("se:" + id) == "se:" + RemoveCr(id);
  }

  lemma LinesFitRest(lines: seq<string>)
    requires lines != []
    ensures LinesFit(lines) <==> |lines[0]| <= LINE_MAX - 3 && LinesFit(lines[1..])
  {
    assert forall i :: 0 <= i < |lines| - 1 ==> lines[1..][i] == lines[i + 1];
    assert forall i :: 1 <= i < |lines| ==> lines[i] == lines[1..][i - 1];
  }

  lemma FrameTaken(r: Received, line: string)
    requires r.state == WaitLine
    ensures Receive(r, "sl:" + line) ==
      if |line| > LINE_MAX - 3 || |r.text| + |line| >= SIZE_LIMIT then (r.(state := Error), true)
      else (r.(text := r.text + line + "\n"), false)
  {
    var frame := "sl:" + line;
    assert frame[..3] == "sl:" && frame[3..] == line;
  }

  lemma EndTaken(r: Received, id: string)
    requires r.state == WaitLine && |id| <= LINE_MAX - 3
    ensures Receive(r, "se:" + id) == (r.(state := Finished), true)
  {
    var frame := "se:" + id;
    assert frame[..3] == "se:";
  }

  lemma TerminatedFirst(text: string, line: string, rest: seq<string>)
    ensures text + line + "\n" + Terminated(rest) == text + Terminated([line] + rest)
  {
    assert ([line] + rest)[1..] == rest;
  }

  /** Whatever the lines contain, they are stored, up to the limits. */
  lemma {:induction false} FramesReceived(r: Received, lines: seq<string>, id: string)
    requires r.state == WaitLine && |r.text| <= SIZE_LIMIT && |id| <= LINE_MAX - 3
    ensures
      var r' := ReceiveAll(r, FrameLines(lines) + ["se:" + id]);
      if LinesFit(lines) && |r.text| + |Terminated(lines)| <= SIZE_LIMIT
      then r' == Received(Finished, r.name, r.text + Terminated(lines))
      else r'.state == Error
    decreases lines
  {
    var all := FrameLines(lines) + ["se:" + id];
    if lines == [] {
      EndTaken(r, id);
      assert r.text + "" == r.text;
    } else {
      var line, rest := lines[0], lines[1..];
      assert lines == [line] + rest;
      assert all == ["sl:" + line] + (FrameLines(rest) + ["se:" + id]);
      FrameTaken(r, line);
      LinesFitRest(lines);
      if |line| <= LINE_MAX - 3 && |r.text| + |line| < SIZE_LIMIT {
        FramesReceived(r.(text := r.text + line + "\n"), rest, id);
        TerminatedFirst(r.text, line, rest);
      }
    }
  }

  /** The script can be transferred under this name. */
  ghost predicate Transferable(script: string, id: string) {
    && |RemoveCr(id)| <= 255 && LinesFit(RemoveCrs(Pieces(script, {'\n'})))
    && |Normalized(script)| <= 65536
  }

  /**
   * A transfer succeeds exactly when the script and its name are within the
   * limits, and the receiver then holds the non-empty lines of the script,
   * each ended by a newline.
   */
  lemma TransferRoundTrip(script: string, id: string)
    requires '\n' !in id
    ensures
      var r := ReceiveAll(IDLE, LinesFrom(WireText(script, id), ""));
      if Transferable(script, id) then r == Received(Finished, RemoveCr(id), Normalized(script))
      else r.state == Error
  {
    var name := RemoveCr(id);
    var lines := RemoveCrs(Pieces(script, {'\n'}));
    var all := ["sb:" + name] + FrameLines(lines) + ["se:" + name];
    WireRead(script, id);
    assert all[0] == "sb:" + name && all[0][..3] == "sb:" && all[0][3..] == name;
    assert all[1..] == FrameLines(lines) + ["se:" + name];
    if |name| <= LINE_MAX - 3 {
      FramesReceived(Received(WaitLine, name, ""), lines, name);
      assert "" + Terminated(lines) == Terminated(lines);
    }
  }

  function NonEmpty(lines: seq<string>): seq<string> {
    if lines == [] then [] else (if lines[0] == "" then [] else [lines[0]]) + NonEmpty(lines[1..])
  }

  ghost predicate Clean(line: string) {
    '\n' !in line && '\r' !in line
  }

  lemma {:induction false} PiecesOfTerminated(lines: seq<string>)
    requires forall l :: l in lines ==> Clean(l)
    ensures Pieces(Terminated(lines), {'\n'}) == NonEmpty(lines) == RemoveCrs(NonEmpty(lines))
    ensures |Terminated(NonEmpty(lines))| == |Terminated(lines)| ==> "" !in lines
    ensures |Terminated(NonEmpty(lines))| <= |Terminated(lines)|
    ensures "" !in lines ==> NonEmpty(lines) == lines
  {
    if lines != [] {
      var line, rest := lines[0], lines[1..];
      PiecesOfTerminated(rest);
      assert Clean(line);
      assert lines == [line] + rest;
      if line == "" {
        assert Terminated(lines) == "\n" + Terminated(rest);
        PiecesSkip("\n", Terminated(rest), {'\n'});
        assert NonEmpty(lines) == NonEmpty(rest);
      } else {
        PiecesCons(line, '\n', Terminated(rest), {'\n'});
        RemoveCrKeeps(line);
        assert NonEmpty(lines) == [line] + NonEmpty(rest);
        assert RemoveCrs(NonEmpty(lines)) == [line] + RemoveCrs(NonEmpty(rest));
      }
    }
  }

  lemma {:induction false} RemoveCrsMembers(lines: seq<string>)
    ensures "" in RemoveCrs(lines) <==> exists p :: p in lines && RemoveCr(p) == ""
    ensures (forall p :: p in lines ==> '\n' !in p) ==> forall l :: l in RemoveCrs(lines) ==> Clean(l)
  {
    if lines != [] {
      RemoveCrsMembers(lines[1..]);
      RemoveCrKeeps(lines[0]);
      FilteredNone(lines[0]);
      assert lines == [lines[0]] + lines[1..];
    }
  }

  /** What has arrived arrives unchanged a second time, unless a line held nothing but carriage returns. */
  lemma NormalizedIsStable(script: string)
    ensures Normalized(Normalized(script)) == Normalized(script)
       <==> forall p :: p in Pieces(script, {'\n'}) ==> RemoveCr(p) != ""
  {
    var pieces := Pieces(script, {'\n'});
    PiecesOneSep(script, '\n');
    RemoveCrsMembers(pieces);
    PiecesOfTerminated(RemoveCrs(pieces));
  }

  lemma {:induction false} FilteredNone(s: string)
    ensures '\r' !in RemoveCr(s)
  {
    if s != "" {
      FilteredNone(s[1..]);
    }
  }

  // ----- any sequence of lines -----

  /** The texts of the script lines among some lines. */
  function Payloads(lines: seq<string>): seq<string> {
    if lines == [] then []
    else (if Prefixed(lines[0], "sl:") then [lines[0][3..]] else []) + Payloads(lines[1..])
  }

  /** How many lines are taken before one that ends the transfer. */
  function Taken(r: Received, lines: seq<string>): (n: nat)
    ensures n <= |lines|
    decreases lines
  {
    if lines == [] || Receive(r, lines[0]).1 then 0 else 1 + Taken(Receive(r, lines[0]).0, lines[1..])
  }

  /** The position of the first line that begins a script, or the number of lines. */
  function BeginAt(lines: seq<string>): (b: nat)
    ensures b <= |lines|
  {
    if lines == [] || Prefixed(lines[0], "sb:") then 0 else 1 + BeginAt(lines[1..])
  }

  /** What a line does that ends the transfer. */
  ghost predicate EndsWith(size: nat, line: string, state: Phase) {
    if |line| < 3 || |line| > 258 || line[..3] == "er:" then state == Error
    else if line[..3] == "se:" then state == Finished
    else line[..3] == "sl:" && size + |line| - 3 >= 65536 && state == Error
  }

  /** Neither too short nor too long, nor an error line. */
  ghost predicate PassedOver(line: string) {
    3 <= |line| <= 258 && line[..3] != "er:"
  }

  /**
   * From the begin line on, over any lines: the text is that of the script
   * lines taken, in order, and it ends at the first line that is fatal, ends
   * the script, or does not fit.
   */
  lemma {:induction false} CollectsPayloads(r: Received, lines: seq<string>)
    requires r.state == WaitLine
    ensures
      var n, r' := Taken(r, lines), ReceiveAll(r, lines);
      && r'.text == r.text + Terminated(Payloads(lines[..n])) && r'.name == r.name
      && (if n < |lines| then EndsWith(|r'.text|, lines[n], r'.state) else r'.state == WaitLine)
      && forall i :: 0 <= i < n ==> PassedOver(lines[i]) && lines[i][..3] != "se:"
    decreases lines
  {
    var n := Taken(r, lines);
    if n == 0 {
      assert lines[..0] == [];
      assert r.text + "" == r.text;
    } else {
      var r1, rest := Receive(r, lines[0]).0, lines[1..];
      CollectsPayloads(r1, rest);
      assert lines[..n][0] == lines[0] && lines[..n][1..] == rest[..n - 1];
      assert forall i :: 1 <= i < n ==> lines[i] == rest[i - 1];
      if Prefixed(lines[0], "sl:") {
        TerminatedFirst(r.text, lines[0][3..], Payloads(rest[..n - 1]));
      } else {
        assert Payloads(lines[..n]) == Payloads(rest[..n - 1]);
      }
    }
  }

  /** Lines before the begin line are passed over, up to a fatal one. */
  lemma {:induction false} IdleUntilBegin(lines: seq<string>)
    ensures
      var n, b := Taken(IDLE, lines), BeginAt(lines);
      && (forall i :: 0 <= i < n && i < b ==> PassedOver(lines[i]))
      && if n < b then ReceiveAll(IDLE, lines) == IDLE.(state := Error) && !PassedOver(lines[n])
      else
        n == b + Taken(IDLE, lines[b..]) && ReceiveAll(IDLE, lines) == ReceiveAll(IDLE, lines[b..])
    decreases lines
  {
    if lines == [] || Prefixed(lines[0], "sb:") {
      assert lines[0..] == lines;
    } else if !Fatal(lines[0]) {
      IdleUntilBegin(lines[1..]);
      var b := BeginAt(lines);
      assert lines[b..] == lines[1..][b - 1..];
    }
  }

  /** What the receiver holds after lines that start with a begin line. */
  lemma BegunReceives(lines: seq<string>)
    requires lines != [] && Prefixed(lines[0], "sb:")
    ensures
      var n, r' := Taken(IDLE, lines), ReceiveAll(IDLE, lines);
      if n == 0 then !PassedOver(lines[0]) && r' == IDLE.(state := Error)
      else
        && (forall i :: 0 < i < n ==> PassedOver(lines[i]) && lines[i][..3] != "se:")
        && PassedOver(lines[0])
        && r'.text == Terminated(Payloads(lines[1..n])) && r'.name == lines[0][3..]
        && (if n < |lines| then EndsWith(|r'.text|, lines[n], r'.state) else r'.state == WaitLine)
  {
    if !Fatal(lines[0]) {
      var r1, rest := Received(WaitLine, lines[0][3..], ""), lines[1..];
      var m := Taken(r1, rest);
      CollectsPayloads(r1, rest);
      assert Taken(IDLE, lines) == 1 + m && ReceiveAll(IDLE, lines) == ReceiveAll(r1, rest);
      assert lines[1..1 + m] == rest[..m];
      NothingBefore(Terminated(Payloads(rest[..m])));
    }
  }

  lemma NothingBefore(text: string)
    ensures "" + text == text
  {
  }

  /**
   * A new receiver fed any lines whatever: nothing is stored up to the first
   * begin line, unless a fatal one comes before it, which ends the transfer;
   * from there on the text is the concatenation of the script lines taken, up
   * to the line that ends the transfer.
   */
  lemma ReceivesPayloads(lines: seq<string>)
    ensures
      var n, b, r' := Taken(IDLE, lines), BeginAt(lines), ReceiveAll(IDLE, lines);
      && (forall i :: 0 <= i < n ==> PassedOver(lines[i]))
      && (forall i :: b < i < n ==> lines[i][..3] != "se:")
      && if n < |lines| && n <= b then !PassedOver(lines[n]) && r' == IDLE.(state := Error)
      else if b == |lines| then r' == IDLE
      else
        && b < n && lines[b][..3] == "sb:"
        && r'.text == Terminated(Payloads(lines[b + 1..n])) && r'.name == lines[b][3..]
        && (if n < |lines| then EndsWith(|r'.text|, lines[n], r'.state) else r'.state == WaitLine)
  {
    var n, b := Taken(IDLE, lines), BeginAt(lines);
    IdleUntilBegin(lines);
    if b <= n {
      var rest := lines[b..];
      if b == |lines| {
        assert rest == [];
      } else {
        BeginPrefixed(lines);
        BegunReceives(rest);
        if n > b {
          SliceOfSlice(lines, b, n);
        }
      }
    }
  }

  lemma SliceOfSlice(lines: seq<string>, b: nat, n: nat)
    requires b < n <= |lines|
    ensures lines[b..][1..n - b] == lines[b + 1..n]
  {
  }

  lemma {:induction false} BeginPrefixed(lines: seq<string>)
    requires BeginAt(lines) < |lines|
    ensures Prefixed(lines[BeginAt(lines)], "sb:")
  {
    if !Prefixed(lines[0], "sb:") {
      BeginPrefixed(lines[1..]);
    }
  }

  // ----- the receiver and its buffer -----

  /** 2048 doubled some number of times. */
  predicate Doubled(size: nat) {
    size == FIRST_SIZE || (size > FIRST_SIZE && size % 2 == 0 && Doubled(size / 2))
  }

  lemma {:induction false} DoubledGap(size: nat, bound: nat)
    requires Doubled(size) && Doubled(bound) && size < 2 * bound
    ensures size <= bound
    decreases bound
  {
    if size > FIRST_SIZE && bound > FIRST_SIZE {
      DoubledGap(size / 2, bound / 2);
    }
  }

  class MonRcvInfo {
    var state: Phase
    var name: string
    var script: array<char>
    var scriptLen: nat
    var scriptBufSize: nat
    const scriptSizeLimit: nat

    /** The text is stored within the buffer and terminated there. */
    ghost predicate Valid()
      reads this, script
    {
      && scriptSizeLimit == SIZE_LIMIT && script.Length == scriptBufSize
      && scriptLen < scriptBufSize && scriptLen <= SIZE_LIMIT && script[scriptLen] == '\0'
      && Doubled(scriptBufSize) && scriptBufSize <= 2 * SIZE_LIMIT
    }

    ghost function Value(): Received
      requires scriptLen <= script.Length
      reads this, script
    {
      Received(state, name, script[..scriptLen])
    }

    constructor ()
      ensures Valid() && Value() == IDLE && fresh(script)
    {
      state, name := Idle, "";
      scriptBufSize, scriptLen, scriptSizeLimit := FIRST_SIZE, 0, SIZE_LIMIT;
      script := new char[FIRST_SIZE](_ => '\0');
    }

    /** Doubles the buffer, keeping the text. */
    method Grow()
      requires script.Length == scriptBufSize && scriptLen < scriptBufSize
      modifies this`script, this`scriptBufSize
      ensures fresh(script) && script.Length == scriptBufSize == 2 * old(scriptBufSize)
      ensures script[..scriptLen] == old(script[..scriptLen])
    {
      scriptBufSize := 2 * scriptBufSize;
      var longer := new char[scriptBufSize](_ => '\0');
      for i := 0 to script.Length
        invariant longer[..i] == script[..i]
        modifies longer
      {
        longer[i] := script[i];
      }
      assert longer[..scriptLen] == longer[..script.Length][..scriptLen];
      script := longer;
    }

    /** Writes a line, a newline and a NUL behind the text. */
    method Append(line: string)
      requires scriptLen + |line| + 2 <= script.Length
      modifies this`scriptLen, script
      ensures scriptLen == old(scriptLen) + |line| + 1 && script[scriptLen] == '\0'
      ensures script[..scriptLen] == old(script[..scriptLen]) + line + "\n"
    {
      ghost var before := script[..scriptLen];
      for i := 0 to |line|
        invariant script[..scriptLen] == before
        invariant script[scriptLen..scriptLen + i] == line[..i]
        modifies script
      {
        script[scriptLen + i] := line[i];
      }
      var end := scriptLen + |line|;
      assert script[..end] == script[..scriptLen] + script[scriptLen..end];
      script[end], script[end + 1] := '\n', '\0';
      assert script[..end + 1] == script[..end] + [script[end]];
      scriptLen := end + 1;
    }

    /**
     * Takes one line. The buffer is doubled at most once, and that is always
     * enough; it never exceeds twice the size limit.
     */
    method MonitorRecvScript(line: string) returns (done: bool)
      requires Valid()
      modifies this, script
      ensures Valid() && (script == old(script) || fresh(script))
      ensures scriptBufSize == old(scriptBufSize) || scriptBufSize == 2 * old(scriptBufSize)
      ensures (Value(), done) == Receive(old(Value()), line)
    {
      if |line| < 3 || |line| > LINE_MAX || line[..3] == "er:" {
        state := Error;
        return true;
      }
      if state.Idle? {
        if line[..3] == "sb:" {
          name := line[3..];
          state := WaitLine;
        }
      } else if state.WaitLine? {
        if line[..3] == "se:" {
          state := Finished;
          return true;
        } else if line[..3] == "sl:" {
          var text := line[3..];
          if scriptLen + |text| >= scriptSizeLimit {
            state := Error;
            return true;
          }
          if scriptLen + |text| + 2 >= scriptBufSize {
            assert Doubled(SIZE_LIMIT);
            DoubledGap(scriptBufSize, SIZE_LIMIT);
            Grow();
          }
          Append(text);
        }
      } else {
        return true;
      }
      return false;
    }
  }

  /** A whole transfer: what is sent is read line by line into a new receiver. */
  method Transfer(script: string, id: string) returns (ri: MonRcvInfo)
    requires '\n' !in id
    ensures ri.Valid()
    ensures ri.state.Finished? <==> Transferable(script, id)
    ensures ri.state.Finished? ==> ri.Value() == Received(Finished, RemoveCr(id), Normalized(script))
  {
    ri := new MonRcvInfo();
    var sent := MonitorSendScript(script, id);
    var lines := LinesFrom(sent, "");
    TransferRoundTrip(script, id);
    var done := false;
    var i := 0;
    while i < |lines| && !done
      invariant i <= |lines| && ri.Valid() && fresh(ri) && fresh(ri.script)
      invariant ReceiveAll(IDLE, lines)
        == (if done then ri.Value() else ReceiveAll(ri.Value(), lines[i..]))
    {
      assert lines[i..][1..] == lines[i + 1..];
      done := ri.MonitorRecvScript(lines[i]);
      i := i + 1;
    }
  }
}
