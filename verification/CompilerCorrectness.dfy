/**
 * The back-patched p-code of a program, run by the p-code machine, does what
 * the program means.
 */
module CompilerCorrectness {
  import opened Common
  import opened Script
  import opened Pcode
  import opened PcodeMachine

  /** The code contains this part at this position. */
  ghost predicate At(code: seq<Instr>, base: nat, part: seq<Instr>)
    decreases part
  {
    && base + |part| <= |code|
    && (part == [] || (code[base] == part[0] && At(code, base + 1, part[1..])))
  }

  /** About to execute the instruction at pc, with no pushes pending. */
  ghost predicate Ready(m: Machine, pc: nat) {
    m.pc == pc && m.firstPush.None? && m.outcome.Done?
  }

  ghost predicate Stopped(code: seq<Instr>, m: Machine) {
    m.pc >= |code| || !m.outcome.Done?
  }

  ghost predicate ReachesIn(env: Env, code: seq<Instr>, m: Machine, m': Machine, steps: nat)
    decreases steps
  {
    if steps == 0 then m == m'
    else !Stopped(code, m) && ReachesIn(env, code, Step(env, code, m), m', steps - 1)
  }

  ghost predicate Reaches(env: Env, code: seq<Instr>, m: Machine, m': Machine) {
    exists steps: nat :: ReachesIn(env, code, m, m', steps)
  }

  lemma ReachesStep(env: Env, code: seq<Instr>, m: Machine)
    requires !Stopped(code, m)
    ensures Reaches(env, code, m, Step(env, code, m))
  {
    assert ReachesIn(env, code, m, Step(env, code, m), 1);
  }

  lemma ReachesSelf(env: Env, code: seq<Instr>, m: Machine)
    ensures Reaches(env, code, m, m)
  {
    assert ReachesIn(env, code, m, m, 0);
  }

  lemma {:induction false} ReachesInThen(env: Env, code: seq<Instr>, a: Machine, b: Machine, c: Machine, j: nat, k: nat)
    requires ReachesIn(env, code, a, b, j) && ReachesIn(env, code, b, c, k)
    ensures ReachesIn(env, code, a, c, j + k)
    decreases j
  {
    if j > 0 {
      ReachesInThen(env, code, Step(env, code, a), b, c, j - 1, k);
    }
  }

  lemma ReachesThen(env: Env, code: seq<Instr>, a: Machine, b: Machine, c: Machine)
    requires Reaches(env, code, a, b) && Reaches(env, code, b, c)
    ensures Reaches(env, code, a, c)
  {
    var j: nat :| ReachesIn(env, code, a, b, j);
    var k: nat :| ReachesIn(env, code, b, c, k);
    ReachesInThen(env, code, a, b, c, j, k);
  }

  /** Running from a state ends as running from any state reached from it. */
  lemma {:induction false} RunReached(env: Env, code: seq<Instr>, m: Machine, m': Machine, steps: nat)
    requires ForwardJumps(code) && ReachesIn(env, code, m, m', steps)
    ensures Run(env, code, m) == Run(env, code, m')
    decreases steps
  {
    if steps > 0 {
      RunReached(env, code, Step(env, code, m), m', steps - 1);
    }
  }

  /**
   * From m the machine gets to m' by this effect: after a normal end it is
   * ready behind the phrase, at position end, and otherwise it has stopped.
   */
  ghost predicate RunsTo(env: Env, code: seq<Instr>, m: Machine, end: nat, effect: (World, Outcome), m': Machine) {
    && Reaches(env, code, m, m')
    && m'.w == effect.0 && m'.outcome == effect.1
    && (effect.1.Done? ==> Ready(m', end))
  }

  /** Getting to a state, and from there on. */
  lemma RunsOn(env: Env, code: seq<Instr>, m: Machine, m1: Machine, end: nat, effect: (World, Outcome), m': Machine)
    requires Reaches(env, code, m, m1) && RunsTo(env, code, m1, end, effect, m')
    ensures RunsTo(env, code, m, end, effect, m')
  {
    ReachesThen(env, code, m, m1, m');
  }

  /** The END of a block leads to what stands behind it. */
  lemma EndRuns(env: Env, code: seq<Instr>, end: nat, m: Machine) returns (m': Machine)
    requires end < |code| && code[end].op.BlockEnd? && Ready(m, end)
    ensures RunsTo(env, code, m, Exit(code, end), (m.w, Done), m')
  {
    m' := Step(env, code, m);
    ReachesStep(env, code, m);
  }

  /** What stands behind the END of a block. */
  function Exit(code: seq<Instr>, end: nat): nat
    requires end < |code|
  {
    if code[end].skip.None? then end + 1 else code[end].skip.value + 1
  }

  lemma {:induction false} AtSub(code: seq<Instr>, base: nat, a: seq<Instr>, b: seq<Instr>)
    requires At(code, base, a + b)
    ensures At(code, base, a) && At(code, base + |a|, b)
    decreases a
  {
    if a == [] {
      assert a + b == b;
    } else {
      assert (a + b)[1..] == a[1..] + b;
      AtSub(code, base + 1, a[1..], b);
    }
  }

  /** A block from its BEGIN through its END. */
  ghost predicate BlockPlaced(code: seq<Instr>, ss: seq<Stmt>, begin: nat, depth: int) {
    var end := begin + 1 + BlockSize(ss);
    && At(code, begin + 1, BlockCode(ss, begin + 1, depth)) && end < |code|
    && code[begin].op.BlockBegin? && code[begin].skip.None? && code[end].op.BlockEnd?
  }

  lemma BlockAt(code: seq<Instr>, ss: seq<Stmt>, base: nat, depth: int)
    requires ss != [] && At(code, base, BlockCode(ss, base, depth))
    ensures At(code, base, Code(ss[0], base, depth))
    ensures At(code, base + Size(ss[0]), BlockCode(ss[1..], base + Size(ss[0]), depth))
  {
    hide At, Code;
    AtSub(code, base, Code(ss[0], base, depth), BlockCode(ss[1..], base + Size(ss[0]), depth));
  }

  lemma {:induction false} AtIndex(code: seq<Instr>, base: nat, part: seq<Instr>, i: nat)
    requires At(code, base, part) && i < |part|
    ensures base + i < |code| && code[base + i] == part[i]
    decreases i
  {
    if i > 0 {
      AtIndex(code, base + 1, part[1..], i - 1);
    }
  }

  /** After the first k pushes of a phrase k are counted and pending. */
  lemma {:induction false} PushesRun(env: Env, code: seq<Instr>, operands: seq<Operand>, base: nat,
                                       depth: int, m: Machine)
    returns (m': Machine)
    requires At(code, base, Pushes(operands, depth))
    requires Ready(m, base) && operands != []
    ensures m' == Machine(base + |operands|, Some(base), |operands|, m.w, Done)
    ensures Reaches(env, code, m, m')
    ensures OperandsBefore(code, base + |operands|, |operands|) == Some(operands)
  {
    var last := |operands| - 1;
    AtIndex(code, base, Pushes(operands, depth), last);
    if last == 0 {
      m' := Step(env, code, m);
      ReachesStep(env, code, m);
      assert OperandsBefore(code, base, 0) == Some([]);
      assert operands == [] + [operands[0]];
    } else {
      var init := operands[..last];
      assert Pushes(operands, depth) == Pushes(init, depth) + [Instr(Push(operands[last]), depth, None)];
      AtSub(code, base, Pushes(init, depth), [Instr(Push(operands[last]), depth, None)]);
      var m1 := PushesRun(env, code, init, base, depth, m);
      m' := Step(env, code, m1);
      ReachesStep(env, code, m1);
      ReachesThen(env, code, m, m1, m');
      assert operands == init + [operands[last]];
    }
  }

  lemma SimpleRuns(env: Env, code: seq<Instr>, operands: seq<Operand>, op: Op, base: nat, depth: int, m: Machine)
    returns (m': Machine)
    requires operands != [] && Ready(m, base)
    requires At(code, base, Pushes(operands, depth) + [Instr(op, depth, None)])
    requires op.FuncOp? || (op.AssignOp? && |operands| == 2)
    ensures
      var effect := if op.FuncOp? then Invoke(env, m.w, op.fn, operands)
                    else AssignTo(env, m.w, operands[0], operands[1]);
      RunsTo(env, code, m, base + |operands| + 1, effect, m')
  {
    AtSub(code, base, Pushes(operands, depth), [Instr(op, depth, None)]);
    var m1 := PushesRun(env, code, operands, base, depth, m);
    AtIndex(code, base + |operands|, [Instr(op, depth, None)], 0);
    m' := Step(env, code, m1);
    ReachesStep(env, code, m1);
    ReachesThen(env, code, m, m1, m');
  }

  /** The instructions of a test: on from it, past its jump, or stopped. */
  lemma TestRuns(env: Env, code: seq<Instr>, test: Test, base: nat, depth: int, skip: nat, m: Machine)
    returns (m': Machine)
    requires Ready(m, base)
    requires At(code, base, Pushes(Operands(test), depth) + [Instr(TestOpcode(test), depth, Some(skip))])
    ensures
      var t := base + |Operands(test)|;
      match Judge(env, m.w, test)
      case Yes => RunsTo(env, code, m, t + 1, (m.w, Done), m')
      case No => RunsTo(env, code, m, skip + 1, (m.w, Done), m')
      case NotNumeric => RunsTo(env, code, m, t + 1, (m.w, Failed(InvalidNumber)), m')
      case Unset(name) => RunsTo(env, code, m, t + 1, (m.w, Undefined(env, name)), m')
  {
    var t := base + |Operands(test)|;
    AtSub(code, base, Pushes(Operands(test), depth), [Instr(TestOpcode(test), depth, Some(skip))]);
    var m1 := PushesRun(env, code, Operands(test), base, depth, m);
    AtIndex(code, t, [Instr(TestOpcode(test), depth, Some(skip))], 0);
    m' := Step(env, code, m1);
    ReachesStep(env, code, m1);
    ReachesThen(env, code, m, m1, m');
  }

  /** Where the parts of an if are. */
  lemma IfParts(code: seq<Instr>, test: Test, body: seq<Instr>, base: nat, depth: int)
    requires At(code, base, IfCode(test, body, base, depth))
    ensures
      var t := base + |Operands(test)|;
      var end := t + 2 + |body|;
      && At(code, base, Pushes(Operands(test), depth) + [Instr(TestOpcode(test), depth, Some(end))])
      && At(code, t + 2, body)
      && end < |code|
      && code[t + 1] == Instr(BlockBegin, depth, None)
      && code[end] == Instr(BlockEnd, depth, None)
  {
    var t := base + |Operands(test)|;
    var end := t + 2 + |body|;
    var begin := Instr(BlockBegin, depth, None);
    var head := Pushes(Operands(test), depth) + [Instr(TestOpcode(test), depth, Some(end))];
    var last := [Instr(BlockEnd, depth, None)];
    AtSub(code, base, head, [begin] + (body + last));
    AtSub(code, t + 1, [begin], body + last);
    AtSub(code, t + 2, body, last);
  }

  /** Where the parts of an if-else are. */
  ghost predicate IfElsePlaced(code: seq<Instr>, test: Test, thn: seq<Instr>, els: seq<Instr>, base: nat, depth: int) {
    var t := base + |Operands(test)|;
    var end := t + 2 + |thn|;
    var elseEnd := end + 2 + |els|;
    && At(code, base, Pushes(Operands(test), depth) + [Instr(TestOpcode(test), depth, Some(end + 1))])
    && At(code, t + 2, thn)
    && At(code, end + 2, els)
    && elseEnd < |code|
    && code[t + 1] == Instr(BlockBegin, depth, None)
    && code[end] == Instr(BlockEnd, depth, Some(elseEnd))
    && code[end + 1] == Instr(BlockBegin, depth, None)
    && code[elseEnd] == Instr(BlockEnd, depth, None)
  }

  lemma IfElseParts(code: seq<Instr>, test: Test, thn: seq<Instr>, els: seq<Instr>, base: nat, depth: int)
    requires At(code, base, IfElseCode(test, thn, els, base, depth))
    ensures IfElsePlaced(code, test, thn, els, base, depth)
  {
    var t := base + |Operands(test)|;
    var end := t + 2 + |thn|;
    var elseEnd := end + 2 + |els|;
    var begin := Instr(BlockBegin, depth, None);
    var middle := [Instr(BlockEnd, depth, Some(elseEnd)), begin];
    var last := [Instr(BlockEnd, depth, None)];
    var head := Pushes(Operands(test), depth) + [Instr(TestOpcode(test), depth, Some(end + 1))];
    AtSub(code, base, head, [begin] + (thn + (middle + (els + last))));
    AtSub(code, t + 1, [begin], thn + (middle + (els + last)));
    AtSub(code, t + 2, thn, middle + (els + last));
    AtSub(code, end, middle, els + last);
    AtSub(code, end + 2, els, last);
    AtIndex(code, end, middle, 1);
  }

  ghost predicate IfElseAt(code: seq<Instr>, s: Stmt, base: nat, depth: int)
    requires s.IfElse?
  {
    var first := base + |Operands(s.test)| + 2;
    IfElsePlaced(code, s.test, BlockCode(s.thn, first, depth),
                 BlockCode(s.els, first + BlockSize(s.thn) + 2, depth), base, depth)
  }

  lemma IfElseCodeAt(code: seq<Instr>, s: Stmt, base: nat, depth: int)
    requires s.IfElse? && At(code, base, Code(s, base, depth))
    ensures IfElseAt(code, s, base, depth + 1)
  {
    var first := base + |Operands(s.test)| + 2;
    IfElseParts(code, s.test, BlockCode(s.thn, first, depth + 1),
                BlockCode(s.els, first + BlockSize(s.thn) + 2, depth + 1), base, depth + 1);
  }

  /** Running the code of a statement has the effect of the statement. */
  lemma {:induction false} StmtRuns(env: Env, code: seq<Instr>, s: Stmt, base: nat, depth: int, m: Machine)
    returns (m': Machine)
    requires Formed(s) && At(code, base, Code(s, base, depth)) && Ready(m, base)
    ensures RunsTo(env, code, m, base + Size(s), ExecStmt(env, s, m.w), m')
    decreases s, 2
  {
    if s.If? {
      IfCodeAt(code, s, base, depth);
      m' := IfRuns(env, code, s, base, depth + 1, m);
    } else if s.IfElse? {
      IfElseCodeAt(code, s, base, depth);
      m' := IfElseRuns(env, code, s, base, depth + 1, m);
    } else {
      m' := LeafRuns(env, code, s, base, depth, m);
    }
  }

  lemma LeafRuns(env: Env, code: seq<Instr>, s: Stmt, base: nat, depth: int, m: Machine)
    returns (m': Machine)
    requires Formed(s) && (s.Call? || s.Assign?) && At(code, base, Code(s, base, depth)) && Ready(m, base)
    ensures RunsTo(env, code, m, base + Size(s), ExecStmt(env, s, m.w), m')
  {
    match s
    case Call(fn, args) =>
      m' := SimpleRuns(env, code, args, FuncOp(fn), base, depth, m);
    case Assign(target, value) =>
      m' := SimpleRuns(env, code, [target, value], AssignOp, base, depth, m);
  }

  /** A block from its first statement through its END, and the jump that may be there. */
  lemma {:induction false} BodyRuns(env: Env, code: seq<Instr>, ss: seq<Stmt>, base: nat, depth: int, m: Machine)
    returns (m': Machine)
    requires AllFormed(ss)
    requires At(code, base, BlockCode(ss, base, depth)) && Ready(m, base)
    requires base + BlockSize(ss) < |code| && code[base + BlockSize(ss)].op.BlockEnd?
    ensures RunsTo(env, code, m, Exit(code, base + BlockSize(ss)), ExecBlock(env, ss, m.w), m')
    decreases ss, 1
  {
    hide At, BlockCode, ExecBlock;
    m' := BlockRuns(env, code, ss, base, depth, m);
    if ExecBlock(env, ss, m.w).1.Done? {
      var m1 := m';
      m' := EndRuns(env, code, base + BlockSize(ss), m1);
      RunsOn(env, code, m, m1, Exit(code, base + BlockSize(ss)), ExecBlock(env, ss, m.w), m');
    }
  }

  /** A whole block, from its BEGIN. */
  lemma {:induction false} BracedRuns(env: Env, code: seq<Instr>, ss: seq<Stmt>, begin: nat, depth: int, m: Machine)
    returns (m': Machine)
    requires AllFormed(ss)
    requires BlockPlaced(code, ss, begin, depth) && Ready(m, begin)
    ensures RunsTo(env, code, m, Exit(code, begin + 1 + BlockSize(ss)), ExecBlock(env, ss, m.w), m')
    decreases ss, 2
  {
    hide At, BlockCode, ExecBlock;
    var m1 := Step(env, code, m);
    ReachesStep(env, code, m);
    m' := BodyRuns(env, code, ss, begin + 1, depth, m1);
    RunsOn(env, code, m, m1, Exit(code, begin + 1 + BlockSize(ss)), ExecBlock(env, ss, m.w), m');
  }

  /** The block of an if or an if-else runs. */
  predicate Enters(env: Env, verdict: Verdict) {
    verdict.Yes? || (verdict.Unset? && env.ignoreAssignErrors)
  }

  /** What an if or an if-else does, by the verdict of its test. */
  lemma ChoiceMeaning(env: Env, s: Stmt, w: World)
    requires s.If? || s.IfElse?
    ensures
      var verdict := Judge(env, w, s.test);
      ExecStmt(env, s, w) ==
        if Enters(env, verdict) then ExecBlock(env, if s.If? then s.body else s.thn, w)
        else if verdict.No? then if s.If? then (w, Done) else ExecBlock(env, s.els, w)
        else (w, if verdict.NotNumeric? then Failed(InvalidNumber) else Undefined(env, verdict.name))
  {
  }

  /** The test of an if or if-else is passed and its block is run. */
  lemma {:induction false} TakenRuns(env: Env, code: seq<Instr>, test: Test, skip: nat, ss: seq<Stmt>, base: nat,
                                       depth: int, m: Machine)
    returns (m': Machine)
    requires AllFormed(ss) && Ready(m, base)
    requires Enters(env, Judge(env, m.w, test))
    requires At(code, base, Pushes(Operands(test), depth) + [Instr(TestOpcode(test), depth, Some(skip))])
    requires BlockPlaced(code, ss, base + |Operands(test)| + 1, depth)
    ensures RunsTo(env, code, m, Exit(code, base + |Operands(test)| + 2 + BlockSize(ss)), ExecBlock(env, ss, m.w), m')
    decreases ss, 3
  {
    hide At, BlockCode, ExecBlock, Judge;
    var m1 := TestRuns(env, code, test, base, depth, skip, m);
    var begin := base + |Operands(test)| + 1;
    m' := BracedRuns(env, code, ss, begin, depth, m1);
    RunsOn(env, code, m, m1, Exit(code, begin + 1 + BlockSize(ss)), ExecBlock(env, ss, m.w), m');
  }

  /** The test of an if-else fails, and its else block is run. */
  lemma {:induction false} ElseRuns(env: Env, code: seq<Instr>, test: Test, skip: nat, ss: seq<Stmt>, base: nat,
                                      depth: int, m: Machine)
    returns (m': Machine)
    requires AllFormed(ss) && Ready(m, base) && Judge(env, m.w, test).No?
    requires At(code, base, Pushes(Operands(test), depth) + [Instr(TestOpcode(test), depth, Some(skip))])
    requires BlockPlaced(code, ss, skip, depth)
    ensures RunsTo(env, code, m, Exit(code, skip + 1 + BlockSize(ss)), ExecBlock(env, ss, m.w), m')
    decreases ss, 3
  {
    hide At, BlockCode, ExecBlock, Judge;
    var m1 := TestRuns(env, code, test, base, depth, skip, m);
    assert Reaches(env, code, m, m1) && Ready(m1, skip + 1);
    assert m1.w == m.w;
    m' := BodyRuns(env, code, ss, skip + 1, depth, m1);
    RunsOn(env, code, m, m1, Exit(code, skip + 1 + BlockSize(ss)), ExecBlock(env, ss, m.w), m');
  }

  /** Where the parts of an if statement are. */
  ghost predicate IfPlaced(code: seq<Instr>, s: Stmt, base: nat, depth: int)
    requires s.If?
  {
    var first := base + |Operands(s.test)| + 2;
    var end := first + BlockSize(s.body);
    && At(code, base, Pushes(Operands(s.test), depth) + [Instr(TestOpcode(s.test), depth, Some(end))])
    && BlockPlaced(code, s.body, first - 1, depth) && code[end].skip.None?
  }

  lemma IfCodeAt(code: seq<Instr>, s: Stmt, base: nat, depth: int)
    requires s.If? && At(code, base, Code(s, base, depth))
    ensures IfPlaced(code, s, base, depth + 1)
  {
    var first := base + |Operands(s.test)| + 2;
    IfCodeOf(s, base, depth);
    IfParts(code, s.test, BlockCode(s.body, first, depth + 1), base, depth + 1);
  }

  lemma {:induction false} IfRuns(env: Env, code: seq<Instr>, s: Stmt, base: nat, depth: int, m: Machine)
    returns (m': Machine)
    requires Formed(s) && s.If? && Ready(m, base) && IfPlaced(code, s, base, depth)
    ensures RunsTo(env, code, m, base + Size(s), ExecStmt(env, s, m.w), m')
    decreases s, 1
  {
    ChoiceMeaning(env, s, m.w);
    if Enters(env, Judge(env, m.w, s.test)) {
      m' := IfEntered(env, code, s, base, depth, m);
    } else {
      m' := IfPassed(env, code, s, base, depth, m);
    }
  }

  lemma {:induction false} IfEntered(env: Env, code: seq<Instr>, s: Stmt, base: nat, depth: int, m: Machine)
    returns (m': Machine)
    requires Formed(s) && s.If? && Ready(m, base) && IfPlaced(code, s, base, depth)
    requires Enters(env, Judge(env, m.w, s.test))
    ensures RunsTo(env, code, m, base + Size(s), ExecBlock(env, s.body, m.w), m')
    decreases s, 0
  {
    hide At, BlockCode, ExecBlock, Judge;
    var end := base + |Operands(s.test)| + 2 + BlockSize(s.body);
    m' := TakenRuns(env, code, s.test, end, s.body, base, depth, m);
  }

  lemma IfPassed(env: Env, code: seq<Instr>, s: Stmt, base: nat, depth: int, m: Machine)
    returns (m': Machine)
    requires s.If? && Ready(m, base) && IfPlaced(code, s, base, depth)
    requires !Enters(env, Judge(env, m.w, s.test))
    ensures RunsTo(env, code, m, base + Size(s), ExecStmt(env, s, m.w), m')
  {
    hide At, BlockCode, ExecBlock, ExecStmt, Judge;
    var end := base + |Operands(s.test)| + 2 + BlockSize(s.body);
    ChoiceMeaning(env, s, m.w);
    m' := TestRuns(env, code, s.test, base, depth, end, m);
  }

  /** Where the head and the then block of an if-else are. */
  ghost predicate ThenPlaced(code: seq<Instr>, s: Stmt, base: nat, depth: int)
    requires s.IfElse?
  {
    var first := base + |Operands(s.test)| + 2;
    var end := first + BlockSize(s.thn);
    && At(code, base, Pushes(Operands(s.test), depth) + [Instr(TestOpcode(s.test), depth, Some(end + 1))])
    && BlockPlaced(code, s.thn, first - 1, depth) && code[end].skip == Some(base + Size(s) - 1)
  }

  /** Where its else block is. */
  ghost predicate ElsePlaced(code: seq<Instr>, s: Stmt, base: nat, depth: int)
    requires s.IfElse?
  {
    var begin := base + |Operands(s.test)| + 3 + BlockSize(s.thn);
    BlockPlaced(code, s.els, begin, depth) && code[base + Size(s) - 1].skip.None?
  }

  lemma IfElseBlocks(code: seq<Instr>, s: Stmt, base: nat, depth: int)
    requires s.IfElse? && IfElseAt(code, s, base, depth)
    ensures ThenPlaced(code, s, base, depth) && ElsePlaced(code, s, base, depth)
  {
    hide At, BlockCode;
  }

  lemma {:induction false} ThenTaken(env: Env, code: seq<Instr>, s: Stmt, base: nat, depth: int, m: Machine)
    returns (m': Machine)
    requires Formed(s) && s.IfElse? && Ready(m, base) && ThenPlaced(code, s, base, depth)
    requires Enters(env, Judge(env, m.w, s.test))
    ensures RunsTo(env, code, m, base + Size(s), ExecBlock(env, s.thn, m.w), m')
    decreases s, 0
  {
    hide At, BlockCode, ExecBlock, Judge;
    var skip := base + |Operands(s.test)| + 3 + BlockSize(s.thn);
    m' := TakenRuns(env, code, s.test, skip, s.thn, base, depth, m);
  }

  lemma {:induction false} ElseTaken(env: Env, code: seq<Instr>, s: Stmt, base: nat, depth: int, m: Machine)
    returns (m': Machine)
    requires Formed(s) && s.IfElse? && Ready(m, base) && Judge(env, m.w, s.test).No?
    requires ThenPlaced(code, s, base, depth) && ElsePlaced(code, s, base, depth)
    ensures RunsTo(env, code, m, base + Size(s), ExecBlock(env, s.els, m.w), m')
    decreases s, 0
  {
    hide At, BlockCode, ExecBlock, Judge;
    var skip := base + |Operands(s.test)| + 3 + BlockSize(s.thn);
    m' := ElseRuns(env, code, s.test, skip, s.els, base, depth, m);
  }

  lemma NeitherTaken(env: Env, code: seq<Instr>, s: Stmt, base: nat, depth: int, m: Machine)
    returns (m': Machine)
    requires s.IfElse? && Ready(m, base) && ThenPlaced(code, s, base, depth)
    requires !Enters(env, Judge(env, m.w, s.test)) && !Judge(env, m.w, s.test).No?
    ensures RunsTo(env, code, m, base + Size(s), ExecStmt(env, s, m.w), m')
  {
    hide At, BlockCode, ExecBlock, ExecStmt, Judge;
    var skip := base + |Operands(s.test)| + 3 + BlockSize(s.thn);
    ChoiceMeaning(env, s, m.w);
    m' := TestRuns(env, code, s.test, base, depth, skip, m);
  }

  lemma {:induction false} IfElseRuns(env: Env, code: seq<Instr>, s: Stmt, base: nat, depth: int, m: Machine)
    returns (m': Machine)
    requires Formed(s) && s.IfElse? && Ready(m, base) && IfElseAt(code, s, base, depth)
    ensures RunsTo(env, code, m, base + Size(s), ExecStmt(env, s, m.w), m')
    decreases s, 1
  {
    IfElseBlocks(code, s, base, depth);
    ChoiceMeaning(env, s, m.w);
    var verdict := Judge(env, m.w, s.test);
    if Enters(env, verdict) {
      m' := ThenTaken(env, code, s, base, depth, m);
    } else if verdict.No? {
      m' := ElseTaken(env, code, s, base, depth, m);
    } else {
      m' := NeitherTaken(env, code, s, base, depth, m);
    }
  }

  lemma {:induction false} BlockRuns(env: Env, code: seq<Instr>, ss: seq<Stmt>, base: nat, depth: int, m: Machine)
    returns (m': Machine)
    requires AllFormed(ss)
    requires At(code, base, BlockCode(ss, base, depth)) && Ready(m, base)
    ensures RunsTo(env, code, m, base + BlockSize(ss), ExecBlock(env, ss, m.w), m')
    decreases ss, 0
  {
    if ss == [] {
      m' := m;
      ReachesSelf(env, code, m);
    } else {
      BlockAt(code, ss, base, depth);
      m' := StmtRuns(env, code, ss[0], base, depth, m);
      var (w, outcome) := ExecStmt(env, ss[0], m.w);
      if outcome.Done? {
        var m1 := m';
        m' := BlockRuns(env, code, ss[1..], base + Size(ss[0]), depth, m1);
        RunsOn(env, code, m, m1, base + BlockSize(ss), ExecBlock(env, ss, m.w), m');
      }
    }
  }
}
