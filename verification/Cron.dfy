/**
 * Cron expressions (scheduler.c): the matching loop of the scheduler and what
 * a well-formed expression denotes.
 */
module Cron {
  import opened Numerals
  import opened Split

  /** The fields of struct tm that are looked at. Months count from zero. */
  datatype Time = Time(min: int, hour: int, mday: int, mon: int, wday: int)

  /** The switch of the matching loop. */
  function FieldOf(t: Time, i: nat): int
    requires i < 5
  {
    if i == 0 then t.min else if i == 1 then t.hour else if i == 2 then t.mday
    else if i == 3 then t.mon else t.wday
  }

  // ----- one field -----

  /** Whether a comma list has the value. */
  predicate ListMatches(values: seq<string>, value: int) {
    exists i :: 0 <= i < |values| && Atoi(values[i]) == value
  }

  predicate FieldMatches(expr: string, value: int) {
    if expr == "" then false
    else if expr[0] == '*' then
      |expr| == 1 || (expr[1] == '/' && Atoi(expr[2..]) != 0 && value % Atoi(expr[2..]) == 0)
    else IsDigit(expr[0]) && ListMatches(Pieces(expr, {','}), value)
  }

  method CronNumEval(timeValue: int, subExpr: string, matchCount: nat) returns (newCount: nat)
    ensures newCount == if ListMatches(Pieces(subExpr, {','}), timeValue) then matchCount + 1 else matchCount
  {
    var values := UtilSplitString(subExpr, ',');
    for i := 0 to |values|
      invariant forall j :: 0 <= j < i ==> Atoi(values[j]) != timeValue
    {
      if Atoi(values[i]) == timeValue {
        return matchCount + 1;
      }
    }
    return matchCount;
  }

  /** In C the remainder by a negative number is zero for the same values. */
  method CronWildCardEval(timeValue: int, subExpr: string, matchCount: nat) returns (newCount: nat)
    requires subExpr != "" && subExpr[0] == '*' && |subExpr| > 1
    ensures newCount == if FieldMatches(subExpr, timeValue) then matchCount + 1 else matchCount
  {
    newCount := matchCount;
    if subExpr[1] == '/' {
      var val := Atoi(subExpr[2..]);
      if val == 0 {
        return;
      }
      if timeValue % val == 0 {
        newCount := newCount + 1;
      }
    }
  }

  /** The entry runs: all of its first five fields match. */
  predicate CronDue(substrs: seq<string>, t: Time) {
    && |substrs| >= 5
    && FieldMatches(substrs[0], t.min)
    && FieldMatches(substrs[1], t.hour)
    && FieldMatches(substrs[2], t.mday)
    && FieldMatches(substrs[3], t.mon)
    && FieldMatches(substrs[4], t.wday)
  }

  /** The loop of schedulerWalk that counts matching fields. */
  method CountMatches(substrs: seq<string>, t: Time) returns (matchCount: nat)
    ensures matchCount <= 5
    ensures matchCount == 5 <==> CronDue(substrs, t)
  {
    matchCount := 0;
    var i := 0;
    while i < 5
      invariant i <= 5 && matchCount <= i <= |substrs|
      invariant matchCount == i <==> forall j :: 0 <= j < i ==> FieldMatches(substrs[j], FieldOf(t, j))
    {
      if i == |substrs| {
        break;
      }
      var expr := substrs[i];
      if expr != "" && expr[0] == '*' {
        if |expr| == 1 {
          matchCount := matchCount + 1;
        } else if expr[1] == '/' {
          matchCount := CronWildCardEval(FieldOf(t, i), expr, matchCount);
        }
      } else if expr != "" && IsDigit(expr[0]) {
        matchCount := CronNumEval(FieldOf(t, i), expr, matchCount);
      } else {
        assert !FieldMatches(substrs[i], FieldOf(t, i));
        break;
      }
      i := i + 1;
    }
  }

  /** A field that starts with neither a digit nor a bare '*' nor "*" and '/' matches nothing. */
  predicate Malformed(field: string) {
    || field == ""
    || (field[0] == '*' && |field| > 1 && field[1] != '/')
    || (field[0] != '*' && !('0' <= field[0] <= '9'))
  }

  /** An expression with such a field among its first five is never due, and neither is a shorter one. */
  lemma MalformedNeverDue(substrs: seq<string>, t: Time)
    requires |substrs| < 5 || exists i :: 0 <= i < 5 && Malformed(substrs[i])
    ensures !CronDue(substrs, t)
  {
    if |substrs| >= 5 {
      var i :| 0 <= i < 5 && Malformed(substrs[i]);
      assert !FieldMatches(substrs[i], t.min) && !FieldMatches(substrs[i], t.hour);
    }
  }

  // ----- what a well-formed expression denotes -----

  datatype Field = Any | Every(step: string) | OneOf(numbers: seq<string>)

  predicate FieldOk(f: Field) {
    match f
    case Any => true
    case Every(step) => Numeral(step)
    case OneOf(numbers) => numbers != [] && forall i :: 0 <= i < |numbers| ==> Numeral(numbers[i])
  }

  function Commas(numbers: seq<string>): string
    requires numbers != []
  {
    if |numbers| == 1 then numbers[0] else numbers[0] + "," + Commas(numbers[1..])
  }

  function Written(f: Field): string
    requires FieldOk(f)
  {
    match f
    case Any => "*"
    case Every(step) => "*/" + step
    case OneOf(numbers) => Commas(numbers)
  }

  /** The values a field stands for. A step of zero stands for none. */
  predicate Denotes(f: Field, value: int)
    requires FieldOk(f)
  {
    match f
    case Any => true
    case Every(step) => NumberOf(step) > 0 && value % NumberOf(step) == 0
    case OneOf(numbers) => exists i :: 0 <= i < |numbers| && NumberOf(numbers[i]) == value
  }

  lemma NumeralHasNo(s: string, c: char)
    requires Numeral(s) && !IsDigit(c)
    ensures SepFree(s, {c})
  {
    SepFreeOne(s, c);
  }

  lemma {:induction false} CommaPieces(numbers: seq<string>)
    requires FieldOk(OneOf(numbers))
    ensures Pieces(Commas(numbers), {','}) == numbers
    ensures Commas(numbers) != "" && IsDigit(Commas(numbers)[0])
    decreases numbers
  {
    var seps := {','};
    assert Numeral(numbers[0]);
    NumeralHasNo(numbers[0], ',');
    if |numbers| == 1 {
      PiecesSingle(numbers[0], seps);
    } else {
      CommaPieces(numbers[1..]);
      PiecesCons(numbers[0], ',', Commas(numbers[1..]), seps);
      assert Commas(numbers) == numbers[0] + [','] + Commas(numbers[1..]);
      assert Commas(numbers)[0] == numbers[0][0];
    }
  }

  /** A well-formed field matches exactly the values it stands for. */
  lemma FieldMeaning(f: Field, value: int)
    requires FieldOk(f)
    ensures FieldMatches(Written(f), value) <==> Denotes(f, value)
  {
    match f
    case Any =>
    case Every(step) =>
      assert Written(f)[2..] == step && step + "" == step;
      AtoiOfNumeral(step, "");
    case OneOf(numbers) =>
      CommaPieces(numbers);
      forall i | 0 <= i < |numbers| ensures Atoi(numbers[i]) == NumberOf(numbers[i]) {
        assert Numeral(numbers[i]) && numbers[i] + "" == numbers[i];
        AtoiOfNumeral(numbers[i], "");
      }
  }

  /** The comment above schedulerWalk lists N/M as supported: it means just N. */
  lemma StepAfterNumberIgnored(n: string, m: string, value: int)
    requires Numeral(n) && Numeral(m)
    ensures FieldMatches(n + "/" + m, value) <==> value == NumberOf(n)
  {
    var expr := n + "/" + m;
    var seps := {','};
    assert expr == n + ("/" + m);
    assert expr[0] == n[0] && IsDigit(n[0]);
    assert SepFree(expr, seps);
    PiecesSingle(expr, seps);
    AtoiOfNumeral(n, "/" + m);
    assert Pieces(expr, {','}) == [expr];
    assert Atoi(Pieces(expr, {','})[0]) == NumberOf(n);
  }

  /** The fields with blank space in front of each. */
  function LaidOut(fields: seq<string>, gaps: seq<string>): string
    requires |gaps| == |fields|
  {
    if fields == [] then "" else gaps[0] + fields[0] + LaidOut(fields[1..], gaps[1..])
  }

  predicate Blank(s: string) {
    forall i :: 0 <= i < |s| ==> s[i] == ' ' || s[i] == '\t'
  }

  /** Only the first field may have no space in front of it. */
  predicate GapsOk(gaps: seq<string>) {
    forall i :: 0 <= i < |gaps| ==> Blank(gaps[i]) && (i > 0 ==> gaps[i] != "")
  }

  const BLANKS: set<char> := {' ', '\t'}

  ghost predicate AllGood(fields: seq<string>) {
    forall i :: 0 <= i < |fields| ==> Good(fields[i], BLANKS)
  }

  lemma {:induction false} LaidOutPieces(fields: seq<string>, gaps: seq<string>, end: string)
    requires |gaps| == |fields| && GapsOk(gaps) && Blank(end) && AllGood(fields)
    ensures Pieces(LaidOut(fields, gaps) + end, BLANKS) == fields
    decreases fields
  {
    if fields == [] {
      assert LaidOut(fields, gaps) + end == end + "";
      PiecesSkip(end, "", BLANKS);
    } else {
      var rest := LaidOut(fields[1..], gaps[1..]) + end;
      assert GapsOk(gaps[1..]) by {
        assert forall i :: 0 <= i < |gaps[1..]| ==> gaps[1..][i] == gaps[i + 1];
      }
      LaidOutPieces(fields[1..], gaps[1..], end);
      assert LaidOut(fields, gaps) + end == gaps[0] + (fields[0] + rest);
      PiecesSkip(gaps[0], fields[0] + rest, BLANKS);
      assert Good(fields[0], BLANKS);
      FirstPiece(fields[0], rest);
    }
  }

  lemma FirstPiece(field: string, rest: string)
    requires Good(field, BLANKS)
    requires rest == "" || rest[0] in BLANKS
    ensures Pieces(field + rest, BLANKS) == [field] + Pieces(rest, BLANKS)
  {
    if rest == "" {
      assert field + rest == field;
      PiecesSingle(field, BLANKS);
    } else {
      assert field + rest == field + [rest[0]] + rest[1..];
      PiecesCons(field, rest[0], rest[1..], BLANKS);
      assert [rest[0]] + rest[1..] == rest;
      PiecesSkip([rest[0]], rest[1..], BLANKS);
    }
  }

  function WrittenAll(fields: seq<Field>): (r: seq<string>)
    requires AllOk(fields)
    ensures |r| == |fields| && forall i :: 0 <= i < |fields| ==> r[i] == Written(fields[i])
  {
    if fields == [] then [] else [Written(fields[0])] + WrittenAll(fields[1..])
  }

  lemma WrittenGood(f: Field)
    requires FieldOk(f)
    ensures Good(Written(f), BLANKS)
  {
    match f
    case Any =>
    case Every(step) =>
    case OneOf(numbers) => CommasGood(numbers);
  }

  lemma {:induction false} CommasGood(numbers: seq<string>)
    requires FieldOk(OneOf(numbers))
    ensures Good(Commas(numbers), BLANKS)
    decreases numbers
  {
    assert Numeral(numbers[0]);
    if |numbers| > 1 {
      CommasGood(numbers[1..]);
    }
  }

  predicate AllOk(fields: seq<Field>) {
    forall i :: 0 <= i < |fields| ==> FieldOk(fields[i])
  }

  lemma AllWrittenGood(fields: seq<Field>)
    requires AllOk(fields)
    ensures AllGood(WrittenAll(fields))
  {
    forall i | 0 <= i < |fields| ensures Good(WrittenAll(fields)[i], BLANKS) {
      WrittenGood(fields[i]);
    }
  }

  lemma DueMeaning(fields: seq<Field>, t: Time)
    requires AllOk(fields)
    ensures CronDue(WrittenAll(fields), t) <==>
      (&& |fields| >= 5
       && Denotes(fields[0], t.min) && Denotes(fields[1], t.hour) && Denotes(fields[2], t.mday)
       && Denotes(fields[3], t.mon) && Denotes(fields[4], t.wday))
  {
    if |fields| >= 5 {
      FieldMeaning(fields[0], t.min);
      FieldMeaning(fields[1], t.hour);
      FieldMeaning(fields[2], t.mday);
      FieldMeaning(fields[3], t.mon);
      FieldMeaning(fields[4], t.wday);
    }
  }

  /**
   * An expression of well-formed fields, however spaced, is due exactly when
   * it has at least five fields and the first five stand for the minute, hour,
   * day of the month, month from zero and day of the week.
   */
  lemma ExpressionMeaning(fields: seq<Field>, gaps: seq<string>, end: string, t: Time)
    requires AllOk(fields)
    requires |gaps| == |fields| && GapsOk(gaps) && Blank(end)
    ensures CronDue(Pieces(LaidOut(WrittenAll(fields), gaps) + end, BLANKS), t) <==>
      (&& |fields| >= 5
       && Denotes(fields[0], t.min) && Denotes(fields[1], t.hour) && Denotes(fields[2], t.mday)
       && Denotes(fields[3], t.mon) && Denotes(fields[4], t.wday))
  {
    AllWrittenGood(fields);
    LaidOutPieces(WrittenAll(fields), gaps, end);
    DueMeaning(fields, t);
  }
}
