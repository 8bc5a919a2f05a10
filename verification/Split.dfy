/**
 * Splitting a string at separator characters (util.c): UtilSplitString with
 * one separator, UtilSplitWhite with blank and tab. Empty pieces are dropped.
 */
module Split {
  import opened Common

  function Close(piece: string): seq<string> {
    if piece == "" then [] else [piece]
  }

  function PiecesFrom(s: string, piece: string, seps: set<char>): seq<string>
    decreases |s|
  {
    if s == "" then Close(piece)
    else if s[0] in seps then Close(piece) + PiecesFrom(s[1..], "", seps)
    else PiecesFrom(s[1..], piece + [s[0]], seps)
  }

  function Pieces(s: string, seps: set<char>): seq<string> {
    PiecesFrom(s, "", seps)
  }

  ghost predicate SepFree(s: string, seps: set<char>) {
    forall i :: 0 <= i < |s| ==> s[i] !in seps
  }

  lemma SepFreeOne(s: string, sep: char)
    ensures SepFree(s, {sep}) <==> sep !in s
  {
  }

  /** The characters of s that are not separators. */
  function Filtered(s: string, seps: set<char>): string {
    if s == "" then "" else (if s[0] in seps then "" else [s[0]]) + Filtered(s[1..], seps)
  }

  ghost predicate Good(piece: string, seps: set<char>) {
    piece != "" && SepFree(piece, seps)
  }

  /** No piece is empty or has a separator in it. */
  lemma {:induction false} PiecesGood(s: string, piece: string, seps: set<char>)
    requires SepFree(piece, seps)
    ensures forall p :: p in PiecesFrom(s, piece, seps) ==> Good(p, seps)
    decreases |s|
  {
    if s == "" {
    } else if s[0] in seps {
      PiecesGood(s[1..], "", seps);
      assert PiecesFrom(s, piece, seps) == Close(piece) + PiecesFrom(s[1..], "", seps);
    } else {
      assert SepFree(piece + [s[0]], seps);
      PiecesGood(s[1..], piece + [s[0]], seps);
    }
  }

  /** With one separator: no piece is empty or has it. */
  lemma PiecesOneSep(s: string, sep: char)
    ensures forall p :: p in Pieces(s, {sep}) ==> p != "" && sep !in p
  {
    var seps := {sep};
    PiecesGood(s, "", seps);
    forall p | p in Pieces(s, seps) ensures p != "" && sep !in p {
      assert Good(p, seps);
      SepFreeOne(p, sep);
    }
  }

  /** The pieces hold all characters that are not separators, in order. */
  lemma {:induction false} PiecesContent(s: string, piece: string, seps: set<char>)
    ensures Concat(PiecesFrom(s, piece, seps)) == piece + Filtered(s, seps)
    decreases |s|
  {
    if s == "" {
      ConcatClose(piece);
      assert piece + "" == piece;
    } else if s[0] in seps {
      PiecesContent(s[1..], "", seps);
      ConcatAppend(Close(piece), PiecesFrom(s[1..], "", seps));
      ConcatClose(piece);
      FilteredStep(s, "", seps);
    } else {
      PiecesContent(s[1..], piece + [s[0]], seps);
      FilteredStep(s, piece, seps);
    }
  }

  lemma ConcatClose(piece: string)
    ensures Concat(Close(piece)) == piece
  {
    assert piece + "" == piece;
  }

  lemma FilteredStep(s: string, piece: string, seps: set<char>)
    requires s != ""
    ensures piece + Filtered(s, seps) ==
      if s[0] in seps then piece + Filtered(s[1..], seps) else piece + [s[0]] + Filtered(s[1..], seps)
    ensures "" + Filtered(s, seps) == Filtered(s, seps)
  {
    assert "" + Filtered(s[1..], seps) == Filtered(s[1..], seps);
  }

  lemma {:induction false} PiecesOfSepFree(s: string, piece: string, rest: string, seps: set<char>)
    requires SepFree(s, seps)
    ensures PiecesFrom(s + rest, piece, seps) == PiecesFrom(rest, piece + s, seps)
    decreases |s|
  {
    if s == "" {
      assert s + rest == rest && piece + s == piece;
    } else {
      assert (s + rest)[1..] == s[1..] + rest;
      PiecesOfSepFree(s[1..], piece + [s[0]], rest, seps);
      assert piece + [s[0]] + s[1..] == piece + s;
    }
  }

  /** A piece and a separator in front of a text add that piece to its pieces. */
  lemma PiecesCons(piece: string, sep: char, rest: string, seps: set<char>)
    requires piece != "" && SepFree(piece, seps) && sep in seps
    ensures Pieces(piece + [sep] + rest, seps) == [piece] + Pieces(rest, seps)
  {
    assert piece + [sep] + rest == piece + ([sep] + rest);
    PiecesOfSepFree(piece, "", [sep] + rest, seps);
    assert "" + piece == piece;
    assert ([sep] + rest)[1..] == rest;
  }

  lemma PiecesSingle(piece: string, seps: set<char>)
    requires piece != "" && SepFree(piece, seps)
    ensures Pieces(piece, seps) == [piece]
  {
    PiecesOfSepFree(piece, "", "", seps);
    assert piece + "" == piece && "" + piece == piece;
  }

  /** Separators in front of a text do not matter. */
  lemma {:induction false} PiecesSkip(blanks: string, rest: string, seps: set<char>)
    requires forall i :: 0 <= i < |blanks| ==> blanks[i] in seps
    ensures Pieces(blanks + rest, seps) == Pieces(rest, seps)
    decreases |blanks|
  {
    if blanks == "" {
      assert blanks + rest == rest;
    } else {
      assert (blanks + rest)[1..] == blanks[1..] + rest;
      PiecesSkip(blanks[1..], rest, seps);
    }
  }

  method Store(strings: array<string>, count: nat, piece: string)
    requires count < strings.Length
    modifies strings
    ensures strings[..count + 1] == old(strings[..count]) + [piece]
  {
    strings[count] := piece;
  }

  /** One character further: what has been found, and what the rest gives. */
  lemma PiecesStep(input: string, p: nat, found: seq<string>, piece: string, seps: set<char>)
    requires p < |input|
    ensures found + Close("") == found
    ensures found + PiecesFrom(input[p..], piece, seps) ==
      if input[p] in seps then found + Close(piece) + PiecesFrom(input[p + 1..], "", seps)
      else found + PiecesFrom(input[p + 1..], piece + [input[p]], seps)
  {
    assert input[p..][1..] == input[p + 1..];
    var rest := PiecesFrom(input[p + 1..], "", seps);
    assert found + (Close(piece) + rest) == found + Close(piece) + rest;
  }

  /** The scan stands at p, in or outside a piece that started at start. */
  ghost predicate Scanning(input: string, p: nat, state: int, start: nat, len: nat, piece: string) {
    p <= |input| && if state == 0 then piece == "" else 1 <= len && start + len == p && piece == input[start..p]
  }

  lemma ScanStart(input: string, p: nat)
    requires p < |input|
    ensures Scanning(input, p + 1, 1, p, 1, "" + [input[p]])
  {
    assert input[p..p + 1] == "" + [input[p]];
  }

  lemma ScanOn(input: string, p: nat, start: nat, len: nat, piece: string)
    requires p < |input| && Scanning(input, p, 1, start, len, piece)
    ensures Scanning(input, p + 1, 1, start, len + 1, piece + [input[p]])
  {
    assert input[start..p + 1] == input[start..p] + [input[p]];
  }

  /** The two-state scan. The array grows before it could overflow its end mark. */
  method SplitAt(input: string, seps: set<char>) returns (pieces: seq<string>)
    ensures pieces == Pieces(input, seps)
  {
    var strings := new string[8](_ => "");
    var count, p, start, len, state := 0, 0, 0, 0, 0;
    ghost var found, piece := [], "";
    assert input[0..] == input;
    assert [] + Pieces(input, seps) == Pieces(input, seps);
    while p < |input|
      invariant fresh(strings) && 0 <= count < strings.Length - 1 && 0 <= start && 0 <= len
      invariant Scanning(input, p, state, start, len, piece)
      invariant strings[..count] == found
      invariant Pieces(input, seps) == found + PiecesFrom(input[p..], piece, seps)
    {
      strings := WithRoom(strings, count);
      PiecesStep(input, p, found, piece, seps);
      if state == 0 {
        if input[p] !in seps {
          ScanStart(input, p);
          start, len, state := p, 1, 1;
          piece := piece + [input[p]];
        }
      } else if input[p] in seps {
        Store(strings, count, input[start..start + len]);
        count, state := count + 1, 0;
        found, piece := found + Close(piece), "";
      } else {
        ScanOn(input, p, start, len, piece);
        len := len + 1;
        piece := piece + [input[p]];
      }
      p := p + 1;
    }
    // At the terminating NUL a piece that was begun is stored as well.
    strings := WithRoom(strings, count);
    if state != 0 {
      Store(strings, count, input[start..start + len]);
      count := count + 1;
    }
    return strings[..count];
  }

  /** The array, extended if it is close to full. */
  method WithRoom(strings: array<string>, count: nat) returns (roomy: array<string>)
    requires count < strings.Length - 1
    ensures (roomy == strings || fresh(roomy)) && count < roomy.Length - 2
    ensures roomy[..count] == strings[..count]
  {
    roomy := strings;
    if count >= strings.Length - 2 {
      roomy := Extended(strings, count);
    }
  }

  /** An array of twice the length that begins with the same strings. */
  method Extended(strings: array<string>, ghost count: nat) returns (longer: array<string>)
    requires count <= strings.Length
    ensures fresh(longer) && longer.Length == 2 * strings.Length
    ensures longer[..count] == strings[..count]
  {
    longer := new string[2 * strings.Length](_ => "");
    for i := 0 to strings.Length
      invariant longer[..i] == strings[..i]
    {
      longer[i] := strings[i];
    }
    assert longer[..count] == longer[..strings.Length][..count];
  }

  method UtilSplitString(input: string, sep: char) returns (pieces: seq<string>)
    ensures pieces == Pieces(input, {sep})
  {
    pieces := SplitAt(input, {sep});
  }

  method UtilSplitWhite(input: string) returns (pieces: seq<string>)
    ensures pieces == Pieces(input, {' ', '\t'})
  {
    pieces := SplitAt(input, {' ', '\t'});
  }
}
