/**
 * Where the jumps and the operands of compiled code are, described on the
 * flat list alone: by matching BEGIN with END, and by counting pushes.
 */
module Jumps {
  import opened Common
  import opened Script
  import opened Pcode
  import opened CompilerCorrectness

  /** The END that closes the level blocks open at position i. */
  function MatchingEnd(code: seq<Instr>, i: nat, level: nat): (r: Option<nat>)
    requires level >= 1
    ensures r.Some? ==> i <= r.value < |code| && code[r.value].op.BlockEnd?
    decreases |code| - i
  {
    if i >= |code| then None
    else if code[i].op.BlockBegin? then MatchingEnd(code, i + 1, level + 1)
    else if !code[i].op.BlockEnd? then MatchingEnd(code, i + 1, level)
    else if level == 1 then Some(i)
    else MatchingEnd(code, i + 1, level - 1)
  }

  predicate BeginsAt(code: seq<Instr>, i: nat) {
    i < |code| && code[i].op.BlockBegin?
  }

  /**
   * The jump an instruction should have: a test goes to the END of the block
   * behind it, or on to the BEGIN if an else follows there; the END of a
   * block followed by an else goes to the END of that else.
   */
  function ExpectedSkip(code: seq<Instr>, i: nat): Option<nat>
    requires i < |code|
  {
    if IsTest(code[i].op) then
      var end := MatchingEnd(code, i + 2, 1);
      if end.Some? && BeginsAt(code, end.value + 1) then Some(end.value + 1) else end
    else if code[i].op.BlockEnd? && BeginsAt(code, i + 1) then MatchingEnd(code, i + 2, 1)
    else None
  }

  lemma {:induction false} ScanPushes(code: seq<Instr>, operands: seq<Operand>, base: nat, depth: int, level: nat)
    requires level >= 1 && At(code, base, Pushes(operands, depth))
    ensures MatchingEnd(code, base, level) == MatchingEnd(code, base + |operands|, level)
    decreases operands
  {
    if operands != [] {
      assert Pushes(operands, depth)[1..] == Pushes(operands[1..], depth);
      ScanPushes(code, operands[1..], base + 1, depth, level);
    }
  }

  /** Looking for the END of an enclosing block passes over a statement. */
  lemma {:induction false} ScanStmt(code: seq<Instr>, s: Stmt, base: nat, depth: int, level: nat)
    requires level >= 1 && At(code, base, Code(s, base, depth))
    ensures MatchingEnd(code, base, level) == MatchingEnd(code, base + Size(s), level)
    decreases s, 1
  {
    match s
    case Call(fn, args) => ScanLeaf(code, args, FuncOp(fn), base, depth, level);
    case Assign(target, value) => ScanLeaf(code, [target, value], AssignOp, base, depth, level);
    case If(_, _) =>
      IfCodeAt(code, s, base, depth);
      ScanIf(code, s, base, depth + 1, level);
    case IfElse(_, _, _) =>
      IfElseCodeAt(code, s, base, depth);
      IfElseBlocks(code, s, base, depth + 1);
      ScanIfElse(code, s, base, depth + 1, level);
  }

  lemma {:induction false} ScanIf(code: seq<Instr>, s: Stmt, base: nat, depth: int, level: nat)
    requires s.If? && level >= 1 && IfPlaced(code, s, base, depth)
    ensures MatchingEnd(code, base, level) == MatchingEnd(code, base + Size(s), level)
    decreases s, 0
  {
    hide MatchingEnd;
    var t := base + |Operands(s.test)|;
    ScanHead(code, s.test, base, depth, t + 2 + BlockSize(s.body), level);
    ScanBraced(code, s.body, t + 1, depth, level);
  }

  lemma {:induction false} ScanIfElse(code: seq<Instr>, s: Stmt, base: nat, depth: int, level: nat)
    requires s.IfElse? && level >= 1 && ThenPlaced(code, s, base, depth) && ElsePlaced(code, s, base, depth)
    ensures MatchingEnd(code, base, level) == MatchingEnd(code, base + Size(s), level)
    decreases s, 0
  {
    hide MatchingEnd;
    var t := base + |Operands(s.test)|;
    var end := t + 2 + BlockSize(s.thn);
    ScanHead(code, s.test, base, depth, end + 1, level);
    ScanBraced(code, s.thn, t + 1, depth, level);
    ScanBraced(code, s.els, end + 1, depth, level);
  }

  lemma ScanLeaf(code: seq<Instr>, operands: seq<Operand>, op: Op, base: nat, depth: int, level: nat)
    requires level >= 1 && !op.BlockBegin? && !op.BlockEnd?
    requires At(code, base, Pushes(operands, depth) + [Instr(op, depth, None)])
    ensures MatchingEnd(code, base, level) == MatchingEnd(code, base + |operands| + 1, level)
  {
    AtSub(code, base, Pushes(operands, depth), [Instr(op, depth, None)]);
    ScanPushes(code, operands, base, depth, level);
  }

  lemma ScanHead(code: seq<Instr>, test: Test, base: nat, depth: int, skip: nat, level: nat)
    requires level >= 1
    requires At(code, base, Pushes(Operands(test), depth) + [Instr(TestOpcode(test), depth, Some(skip))])
    ensures MatchingEnd(code, base, level) == MatchingEnd(code, base + |Operands(test)| + 1, level)
  {
    AtSub(code, base, Pushes(Operands(test), depth), [Instr(TestOpcode(test), depth, Some(skip))]);
    ScanPushes(code, Operands(test), base, depth, level);
  }

  lemma {:induction false} ScanBraced(code: seq<Instr>, ss: seq<Stmt>, begin: nat, depth: int, level: nat)
    requires level >= 1 && BlockPlaced(code, ss, begin, depth)
    ensures MatchingEnd(code, begin, level) == MatchingEnd(code, begin + 2 + BlockSize(ss), level)
    decreases ss, 1
  {
    ScanBlock(code, ss, begin + 1, depth, level + 1);
  }

  lemma {:induction false} ScanBlock(code: seq<Instr>, ss: seq<Stmt>, base: nat, depth: int, level: nat)
    requires level >= 1 && At(code, base, BlockCode(ss, base, depth))
    ensures MatchingEnd(code, base, level) == MatchingEnd(code, base + BlockSize(ss), level)
    decreases ss, 0
  {
    hide MatchingEnd;
    if ss != [] {
      var next := base + Size(ss[0]);
      BlockAt(code, ss, base, depth);
      ScanStmt(code, ss[0], base, depth, level);
      assert MatchingEnd(code, base, level) == MatchingEnd(code, next, level);
      ScanBlock(code, ss[1..], next, depth, level);
    }
  }

  /** The END matching a block's BEGIN is the one behind its statements. */
  lemma MatchingOwnEnd(code: seq<Instr>, ss: seq<Stmt>, first: nat, depth: int)
    requires At(code, first, BlockCode(ss, first, depth))
    requires first + BlockSize(ss) < |code| && code[first + BlockSize(ss)].op.BlockEnd?
    ensures MatchingEnd(code, first, 1) == Some(first + BlockSize(ss))
  {
    hide At, BlockCode;
    ScanBlock(code, ss, first, depth, 1);
  }

  ghost predicate Exact(code: seq<Instr>, i: nat) {
    i < |code| ==> code[i].skip == ExpectedSkip(code, i)
  }

  lemma PushExact(code: seq<Instr>, operands: seq<Operand>, base: nat, depth: int, i: nat)
    requires At(code, base, Pushes(operands, depth)) && base <= i < base + |operands|
    ensures Exact(code, i)
  {
    AtIndex(code, base, Pushes(operands, depth), i - base);
  }

  /** No statement begins with a BEGIN. */
  lemma FirstNotBegin(code: seq<Instr>, ss: seq<Stmt>, base: nat, depth: int)
    requires At(code, base, BlockCode(ss, base, depth)) && !BeginsAt(code, base + BlockSize(ss))
    ensures !BeginsAt(code, base)
  {
    if ss != [] {
      BlockAt(code, ss, base, depth);
      AtIndex(code, base, Code(ss[0], base, depth), 0);
    }
  }

  /** The jumps of a statement are exact, if what follows it is not a BEGIN. */
  lemma {:induction false} StmtExact(code: seq<Instr>, s: Stmt, base: nat, depth: int, i: nat)
    requires At(code, base, Code(s, base, depth)) && !BeginsAt(code, base + Size(s))
    requires base <= i < base + Size(s)
    ensures Exact(code, i)
    decreases s, 1
  {
    match s
    case Call(fn, args) => LeafExact(code, args, FuncOp(fn), base, depth, i);
    case Assign(target, value) => LeafExact(code, [target, value], AssignOp, base, depth, i);
    case If(_, _) =>
      IfCodeAt(code, s, base, depth);
      IfExact(code, s, base, depth + 1, i);
    case IfElse(_, _, _) =>
      IfElseCodeAt(code, s, base, depth);
      IfElseBlocks(code, s, base, depth + 1);
      if i < base + |Operands(s.test)| + 3 + BlockSize(s.thn) {
        ThenEndPatched(code, s, base, depth + 1, base + |Operands(s.test)| + 2 + BlockSize(s.thn));
        ThenExact(code, s, base, depth + 1, i);
      } else {
        ElseExact(code, s, base, depth + 1, i);
      }
  }

  lemma LeafExact(code: seq<Instr>, operands: seq<Operand>, op: Op, base: nat, depth: int, i: nat)
    requires op.FuncOp? || op.AssignOp?
    requires At(code, base, Pushes(operands, depth) + [Instr(op, depth, None)]) && base <= i <= base + |operands|
    ensures Exact(code, i)
  {
    AtSub(code, base, Pushes(operands, depth), [Instr(op, depth, None)]);
    if i < base + |operands| {
      PushExact(code, operands, base, depth, i);
    }
  }

  lemma TestExact(code: seq<Instr>, test: Test, base: nat, depth: int, skip: nat, i: nat)
    requires At(code, base, Pushes(Operands(test), depth) + [Instr(TestOpcode(test), depth, Some(skip))])
    requires
      var t := base + |Operands(test)|;
      base <= i <= t && (t < |code| && IsTest(code[t].op) ==> ExpectedSkip(code, t) == Some(skip))
    ensures Exact(code, i)
  {
    AtSub(code, base, Pushes(Operands(test), depth), [Instr(TestOpcode(test), depth, Some(skip))]);
    if i < base + |Operands(test)| {
      PushExact(code, Operands(test), base, depth, i);
    }
  }

  ghost predicate EndPatched(code: seq<Instr>, end: nat)
    requires end < |code|
  {
    code[end].skip == if BeginsAt(code, end + 1) then MatchingEnd(code, end + 2, 1) else None
  }

  /** A block from its BEGIN through its END, whose jump is known to be exact. */
  lemma {:induction false} BracedExact(code: seq<Instr>, ss: seq<Stmt>, begin: nat, depth: int, i: nat)
    requires BlockPlaced(code, ss, begin, depth) && EndPatched(code, begin + 1 + BlockSize(ss))
    requires begin <= i <= begin + 1 + BlockSize(ss)
    ensures Exact(code, i)
    decreases ss, 1
  {
    hide MatchingEnd, At, BlockCode;
    if begin < i < begin + 1 + BlockSize(ss) {
      BlockExact(code, ss, begin + 1, depth, i);
    }
  }

  /** What a test should skip to, when the END of the block behind it is known. */
  lemma TestSkip(code: seq<Instr>, t: nat, end: nat)
    requires t < |code| && IsTest(code[t].op) && MatchingEnd(code, t + 2, 1) == Some(end)
    ensures ExpectedSkip(code, t) == Some(if BeginsAt(code, end + 1) then end + 1 else end)
  {
  }

  /** The operands of a test and the test, when the END of the block behind it is known. */
  lemma HeadExact(code: seq<Instr>, test: Test, skip: nat, base: nat, depth: int, end: nat, i: nat)
    requires At(code, base, Pushes(Operands(test), depth) + [Instr(TestOpcode(test), depth, Some(skip))])
    requires MatchingEnd(code, base + |Operands(test)| + 2, 1) == Some(end)
    requires skip == (if BeginsAt(code, end + 1) then end + 1 else end)
    requires base <= i <= base + |Operands(test)|
    ensures Exact(code, i)
  {
    var t := base + |Operands(test)|;
    if t < |code| && IsTest(code[t].op) {
      TestSkip(code, t, end);
    }
    TestExact(code, test, base, depth, skip, i);
  }

  /** A test with its block, when the jumps of the test and of the END are known to be exact. */
  lemma {:induction false} TestedExact(code: seq<Instr>, test: Test, skip: nat, ss: seq<Stmt>, base: nat, depth: int,
                                       i: nat)
    requires At(code, base, Pushes(Operands(test), depth) + [Instr(TestOpcode(test), depth, Some(skip))])
    requires BlockPlaced(code, ss, base + |Operands(test)| + 1, depth)
    requires
      var end := base + |Operands(test)| + 2 + BlockSize(ss);
      && EndPatched(code, end) && base <= i <= end
      && skip == (if BeginsAt(code, end + 1) then end + 1 else end)
    ensures Exact(code, i)
    decreases ss, 2
  {
    hide At, BlockCode;
    var t := base + |Operands(test)|;
    if i <= t {
      MatchingOwnEnd(code, ss, t + 2, depth);
      HeadExact(code, test, skip, base, depth, t + 2 + BlockSize(ss), i);
    } else {
      BracedExact(code, ss, t + 1, depth, i);
    }
  }

  lemma {:induction false} IfExact(code: seq<Instr>, s: Stmt, base: nat, depth: int, i: nat)
    requires s.If? && IfPlaced(code, s, base, depth) && !BeginsAt(code, base + Size(s))
    requires base <= i < base + Size(s)
    ensures Exact(code, i)
    decreases s, 0
  {
    hide At, BlockCode;
    TestedExact(code, s.test, base + Size(s) - 1, s.body, base, depth, i);
  }

  /** The END of the then block has its jump. */
  lemma ThenEndPatched(code: seq<Instr>, s: Stmt, base: nat, depth: int, end: nat)
    requires s.IfElse? && ElsePlaced(code, s, base, depth)
    requires end == base + |Operands(s.test)| + 2 + BlockSize(s.thn) && end < |code|
    requires code[end].skip == Some(base + Size(s) - 1)
    ensures EndPatched(code, end) && BeginsAt(code, end + 1)
  {
    hide At, BlockCode;
    MatchingOwnEnd(code, s.els, end + 2, depth);
  }

  lemma {:induction false} ThenExact(code: seq<Instr>, s: Stmt, base: nat, depth: int, i: nat)
    requires s.IfElse? && ThenPlaced(code, s, base, depth)
    requires
      var end := base + |Operands(s.test)| + 2 + BlockSize(s.thn);
      base <= i <= end && EndPatched(code, end) && BeginsAt(code, end + 1)
    ensures Exact(code, i)
    decreases s, 0
  {
    hide At, BlockCode;
    var begin := base + |Operands(s.test)| + 3 + BlockSize(s.thn);
    TestedExact(code, s.test, begin, s.thn, base, depth, i);
  }

  lemma {:induction false} ElseExact(code: seq<Instr>, s: Stmt, base: nat, depth: int, i: nat)
    requires s.IfElse? && ElsePlaced(code, s, base, depth) && !BeginsAt(code, base + Size(s))
    requires base + |Operands(s.test)| + 3 + BlockSize(s.thn) <= i < base + Size(s)
    ensures Exact(code, i)
    decreases s, 0
  {
    hide At, BlockCode;
    BracedExact(code, s.els, base + |Operands(s.test)| + 3 + BlockSize(s.thn), depth, i);
  }

  lemma {:induction false} BlockExact(code: seq<Instr>, ss: seq<Stmt>, base: nat, depth: int, i: nat)
    requires At(code, base, BlockCode(ss, base, depth)) && !BeginsAt(code, base + BlockSize(ss))
    requires base <= i < base + BlockSize(ss)
    ensures Exact(code, i)
    decreases ss, 0
  {
    var next := base + Size(ss[0]);
    BlockAt(code, ss, base, depth);
    if i < next {
      FirstNotBegin(code, ss[1..], next, depth);
      StmtExact(code, ss[0], base, depth, i);
    } else {
      BlockExact(code, ss[1..], next, depth, i);
    }
  }

  lemma {:induction false} AtSelf(code: seq<Instr>, base: nat)
    requires base <= |code|
    ensures At(code, base, code[base..])
    decreases |code| - base
  {
    if base < |code| {
      AtSelf(code, base + 1);
      assert code[base..][1..] == code[base + 1..];
    }
  }

  /**
   * Back-patching is exact: in the code of any program every jump is the one
   * matching BEGIN with END prescribes, and there is no other. So all jumps
   * go forward, to a BEGIN or an END.
   */
  lemma JumpsExact(program: seq<Stmt>)
    ensures
      var code := Compiled(program);
      && (forall i :: 0 <= i < |code| ==> code[i].skip == ExpectedSkip(code, i))
      && ForwardJumps(code)
      && BlockTargets(code)
  {
    var code := Compiled(program);
    AtSelf(code, 0);
    assert code[0..] == code;
    forall i | 0 <= i < |code| ensures code[i].skip == ExpectedSkip(code, i) {
      BlockExact(code, program, 0, 0, i);
      assert Exact(code, i);
    }
  }

  ghost predicate BlockTargets(code: seq<Instr>) {
    forall i :: 0 <= i < |code| && code[i].skip.Some? && code[i].skip.value < |code| ==>
      code[code[i].skip.value].op.BlockBegin? || code[code[i].skip.value].op.BlockEnd?
  }
}
