/**
 * The machine counts consecutive pushes and fetches operands by stepping back
 * in the list. On compiled code the count is right wherever it is used.
 */
module OperandCounts {
  import opened Common
  import opened Script
  import opened Pcode
  import opened PcodeMachine
  import opened CompilerCorrectness
  import opened Jumps

  /** The number of consecutive pushes that end just before pc. */
  function PushRun(code: seq<Instr>, pc: nat): (n: nat)
    requires pc <= |code|
    ensures n <= pc
  {
    if pc == 0 || !code[pc - 1].op.Push? then 0 else PushRun(code, pc - 1) + 1
  }

  /** The machine's count is the number of pushes it stands behind. */
  ghost predicate Counted(code: seq<Instr>, m: Machine) {
    && m.pc <= |code|
    && var n := PushRun(code, m.pc);
       if n == 0 then m.firstPush.None? else m.firstPush == Some(m.pc - n) && m.pushCount == n
  }

  /** An instruction that is not a push clears the count, and is followed or jumps. */
  lemma NonPushStep(env: Env, code: seq<Instr>, m: Machine)
    requires m.pc < |code| && !code[m.pc].op.Push?
    ensures
      var m' := Step(env, code, m);
      var skip := code[m.pc].skip;
      m'.firstPush.None? && (m'.pc == m.pc + 1 || (skip.Some? && m'.pc == skip.value + 1))
  {
  }

  lemma StepCounted(env: Env, code: seq<Instr>, m: Machine)
    requires ForwardJumps(code) && BlockTargets(code) && m.pc < |code| && Counted(code, m)
    ensures Counted(code, Step(env, code, m))
  {
    var m' := Step(env, code, m);
    if code[m.pc].op.Push? {
      assert PushRun(code, m.pc + 1) == PushRun(code, m.pc) + 1;
    } else {
      NonPushStep(env, code, m);
      assert PushRun(code, m'.pc) == 0;
    }
  }

  lemma {:induction false} ReachedCounted(env: Env, code: seq<Instr>, m: Machine, m': Machine, steps: nat)
    requires ForwardJumps(code) && BlockTargets(code) && Counted(code, m) && ReachesIn(env, code, m, m', steps)
    ensures Counted(code, m')
    decreases steps
  {
    if steps > 0 {
      StepCounted(env, code, m);
      ReachedCounted(env, code, Step(env, code, m), m', steps - 1);
    }
  }

  // ----- the constructs of the source in the flat code -----

  predicate IsTaker(op: Op) {
    op.AssignOp? || op.FuncOp? || IsTest(op)
  }

  /** The operands of a construct: the arguments of a call, target and value, or those of a test. */
  function OperandsOf(s: Stmt): seq<Operand> {
    match s
    case Call(_, args) => args
    case Assign(target, value) => [target, value]
    case If(test, _) => Operands(test)
    case IfElse(test, _, _) => Operands(test)
  }

  /** The instruction that takes them. */
  function TakerOf(s: Stmt): Op {
    match s
    case Call(fn, _) => FuncOp(fn)
    case Assign(_, _) => AssignOp
    case If(test, _) => TestOpcode(test)
    case IfElse(test, _, _) => TestOpcode(test)
  }

  /** The construct whose taker stands at position i, when the code of s is placed at base. */
  function ConstructAt(s: Stmt, base: nat, i: nat): Option<Stmt>
    decreases s, 1
  {
    var taker := base + |OperandsOf(s)|;
    if i < taker then None
    else if i == taker then Some(s)
    else
      match s
      case If(_, body) => ConstructIn(body, taker + 2, i)
      case IfElse(_, thn, els) =>
        var second := taker + 2 + BlockSize(thn) + 2;
        if i < second then ConstructIn(thn, taker + 2, i) else ConstructIn(els, second, i)
      case _ => None
  }

  function ConstructIn(ss: seq<Stmt>, base: nat, i: nat): Option<Stmt>
    decreases ss, 0
  {
    if ss == [] || i < base then None
    else if i < base + Size(ss[0]) then ConstructAt(ss[0], base, i)
    else ConstructIn(ss[1..], base + Size(ss[0]), i)
  }

  /** The instruction is the taker of this construct, behind the pushes of its operands; or it takes none. */
  ghost predicate Fits(code: seq<Instr>, i: nat, construct: Option<Stmt>)
    requires i < |code|
  {
    match construct
    case None => !IsTaker(code[i].op)
    case Some(s) =>
      && IsTaker(code[i].op) && code[i].op == TakerOf(s)
      && PushRun(code, i) == |OperandsOf(s)|
      && OperandsBefore(code, i, |OperandsOf(s)|) == Some(OperandsOf(s))
  }

  /** No pushes stand right before this position. */
  ghost predicate Fresh(code: seq<Instr>, i: nat) {
    i <= |code| && PushRun(code, i) == 0
  }

  lemma {:induction false} PushesCount(code: seq<Instr>, operands: seq<Operand>, base: nat, depth: int)
    requires At(code, base, Pushes(operands, depth)) && Fresh(code, base)
    ensures PushRun(code, base + |operands|) == |operands|
    ensures OperandsBefore(code, base + |operands|, |operands|) == Some(operands)
  {
    if operands != [] {
      var last := |operands| - 1;
      var init := operands[..last];
      assert Pushes(operands, depth) == Pushes(init, depth) + [Instr(Push(operands[last]), depth, None)];
      AtSub(code, base, Pushes(init, depth), [Instr(Push(operands[last]), depth, None)]);
      PushesCount(code, init, base, depth);
      AtIndex(code, base, Pushes(operands, depth), last);
      assert operands == init + [operands[last]];
    }
  }

  /** The pushes of a construct, and its taker. */
  lemma HeadFits(code: seq<Instr>, s: Stmt, skip: Option<nat>, base: nat, depth: int, i: nat)
    requires At(code, base, Pushes(OperandsOf(s), depth) + [Instr(TakerOf(s), depth, skip)]) && Fresh(code, base)
    requires base <= i <= base + |OperandsOf(s)| < |code|
    ensures Fits(code, i, ConstructAt(s, base, i))
  {
    var operands := OperandsOf(s);
    AtSub(code, base, Pushes(operands, depth), [Instr(TakerOf(s), depth, skip)]);
    if i == base + |operands| {
      PushesCount(code, operands, base, depth);
      AtIndex(code, i, [Instr(TakerOf(s), depth, skip)], 0);
    } else {
      AtIndex(code, base, Pushes(operands, depth), i - base);
    }
  }

  /** The code of a statement ends with an instruction that is not a push. */
  lemma FreshAfter(code: seq<Instr>, s: Stmt, base: nat, depth: int)
    requires At(code, base, Code(s, base, depth))
    ensures base + Size(s) <= |code| && Fresh(code, base + Size(s))
  {
    AtIndex(code, base, Code(s, base, depth), Size(s) - 1);
  }

  lemma {:induction false} StmtFits(code: seq<Instr>, s: Stmt, base: nat, depth: int, i: nat)
    requires At(code, base, Code(s, base, depth)) && Fresh(code, base)
    requires base <= i < base + Size(s) <= |code|
    ensures Fits(code, i, ConstructAt(s, base, i))
    decreases s, 2
  {
    match s
    case Call(fn, args) => HeadFits(code, s, None, base, depth, i);
    case Assign(_, _) => HeadFits(code, s, None, base, depth, i);
    case If(_, _) =>
      IfCodeAt(code, s, base, depth);
      IfFits(code, s, base, depth + 1, i);
    case IfElse(_, _, _) =>
      IfElseCodeAt(code, s, base, depth);
      IfElseBlocks(code, s, base, depth + 1);
      IfElseFits(code, s, base, depth + 1, i);
  }

  lemma {:induction false} IfFits(code: seq<Instr>, s: Stmt, base: nat, depth: int, i: nat)
    requires s.If? && Fresh(code, base) && base <= i < base + Size(s) <= |code|
    requires IfPlaced(code, s, base, depth)
    ensures Fits(code, i, ConstructAt(s, base, i))
    decreases s, 1
  {
    hide At, BlockCode;
    var t := base + |Operands(s.test)|;
    var end := t + 2 + BlockSize(s.body);
    if i <= t {
      HeadFits(code, s, Some(end), base, depth, i);
    } else {
      BracedFits(code, s.body, t + 1, depth, i);
    }
  }

  lemma {:induction false} IfElseFits(code: seq<Instr>, s: Stmt, base: nat, depth: int, i: nat)
    requires s.IfElse? && Fresh(code, base) && base <= i < base + Size(s) <= |code|
    requires ThenPlaced(code, s, base, depth) && ElsePlaced(code, s, base, depth)
    ensures Fits(code, i, ConstructAt(s, base, i))
    decreases s, 1
  {
    hide At, BlockCode;
    var t := base + |Operands(s.test)|;
    var end := t + 2 + BlockSize(s.thn);
    if i <= t {
      HeadFits(code, s, Some(end + 1), base, depth, i);
    } else if i <= end {
      ThenFits(code, s, base, depth, i);
    } else {
      ElseFits(code, s, base, depth, i);
    }
  }

  lemma {:induction false} ThenFits(code: seq<Instr>, s: Stmt, base: nat, depth: int, i: nat)
    requires s.IfElse? && ThenPlaced(code, s, base, depth)
    requires base + |Operands(s.test)| < i <= base + |Operands(s.test)| + 2 + BlockSize(s.thn) < |code|
    ensures Fits(code, i, ConstructAt(s, base, i))
    decreases s, 0
  {
    hide At, BlockCode;
    var begin := base + |Operands(s.test)| + 1;
    ThenConstruct(s, base, i);
    BracedFits(code, s.thn, begin, depth, i);
  }

  lemma {:induction false} ElseFits(code: seq<Instr>, s: Stmt, base: nat, depth: int, i: nat)
    requires s.IfElse? && ElsePlaced(code, s, base, depth)
    requires base + |Operands(s.test)| + 2 + BlockSize(s.thn) < i < base + Size(s) <= |code|
    ensures Fits(code, i, ConstructAt(s, base, i))
    decreases s, 0
  {
    hide At, BlockCode;
    var begin := base + |Operands(s.test)| + 3 + BlockSize(s.thn);
    ElseConstruct(s, base, i);
    BracedFits(code, s.els, begin, depth, i);
  }

  lemma ThenConstruct(s: Stmt, base: nat, i: nat)
    requires s.IfElse?
    requires base + |Operands(s.test)| < i <= base + |Operands(s.test)| + 2 + BlockSize(s.thn)
    ensures ConstructAt(s, base, i) == ConstructIn(s.thn, base + |Operands(s.test)| + 2, i)
  {
  }

  lemma ElseConstruct(s: Stmt, base: nat, i: nat)
    requires s.IfElse? && base + |Operands(s.test)| + 2 + BlockSize(s.thn) < i
    ensures ConstructAt(s, base, i) == ConstructIn(s.els, base + |Operands(s.test)| + 4 + BlockSize(s.thn), i)
  {
    var first := base + |Operands(s.test)| + 2;
    var second := first + BlockSize(s.thn) + 2;
    if i < second {
      BeforeBlock(s.thn, first, i);
      BeforeBlock(s.els, second, i);
    }
  }

  /** Past the end of a block, and before its start, no construct of it is found. */
  lemma {:induction false} BeforeBlock(ss: seq<Stmt>, base: nat, i: nat)
    requires i < base || i >= base + BlockSize(ss)
    ensures ConstructIn(ss, base, i).None?
    decreases ss
  {
    if ss != [] {
      BeforeBlock(ss[1..], base + Size(ss[0]), i);
    }
  }

  /** A block from its BEGIN through its END. */
  lemma {:induction false} BracedFits(code: seq<Instr>, ss: seq<Stmt>, begin: nat, depth: int, i: nat)
    requires BlockPlaced(code, ss, begin, depth) && begin <= i <= begin + 1 + BlockSize(ss)
    ensures Fits(code, i, ConstructIn(ss, begin + 1, i))
    decreases ss, 1
  {
    hide At, BlockCode;
    if begin < i < begin + 1 + BlockSize(ss) {
      BlockFits(code, ss, begin + 1, depth, i);
    } else {
      BeforeBlock(ss, begin + 1, i);
    }
  }

  lemma {:induction false} BlockFits(code: seq<Instr>, ss: seq<Stmt>, base: nat, depth: int, i: nat)
    requires At(code, base, BlockCode(ss, base, depth)) && Fresh(code, base)
    requires base <= i < base + BlockSize(ss) <= |code|
    ensures Fits(code, i, ConstructIn(ss, base, i))
    decreases ss, 0
  {
    var next := base + Size(ss[0]);
    BlockAt(code, ss, base, depth);
    if i < next {
      StmtFits(code, ss[0], base, depth, i);
    } else {
      FreshAfter(code, ss[0], base, depth);
      BlockFits(code, ss[1..], next, depth, i);
    }
  }

  /** Every construct of a derivable program has operands. */
  lemma {:induction false} HasOperands(s: Stmt, base: nat, i: nat)
    requires Formed(s) && ConstructAt(s, base, i).Some?
    ensures OperandsOf(ConstructAt(s, base, i).value) != []
    decreases s, 1
  {
    var taker := base + |OperandsOf(s)|;
    if i > taker {
      if s.If? {
        BlockHasOperands(s.body, taker + 2, i);
      } else if s.IfElse? {
        var second := taker + 2 + BlockSize(s.thn) + 2;
        if i < second {
          BlockHasOperands(s.thn, taker + 2, i);
        } else {
          BlockHasOperands(s.els, second, i);
        }
      }
    }
  }

  lemma {:induction false} BlockHasOperands(ss: seq<Stmt>, base: nat, i: nat)
    requires AllFormed(ss) && ConstructIn(ss, base, i).Some?
    ensures OperandsOf(ConstructIn(ss, base, i).value) != []
    decreases ss, 0
  {
    if i < base + Size(ss[0]) {
      HasOperands(ss[0], base, i);
    } else {
      BlockHasOperands(ss[1..], base + Size(ss[0]), i);
    }
  }

  /**
   * Whichever path leads to an instruction: it takes operands exactly when it
   * is the taker of a construct of the program, and then the machine has
   * counted as many pushes as the construct has operands, and stepping back
   * finds those operands, in order.
   */
  lemma OperandsCounted(env: Env, program: seq<Stmt>, w: World, m: Machine)
    requires AllFormed(program) && Reaches(env, Compiled(program), Start(w), m) && m.pc < |Compiled(program)|
    ensures
      var code := Compiled(program);
      var construct := ConstructIn(program, 0, m.pc);
      && (IsTaker(code[m.pc].op) <==> construct.Some?)
      && (construct.Some? ==>
            var operands := OperandsOf(construct.value);
            && code[m.pc].op == TakerOf(construct.value)
            && m.pushCount == |operands|
            && OperandsBefore(code, m.pc, |operands|) == Some(operands))
  {
    var code := Compiled(program);
    var steps: nat :| ReachesIn(env, code, Start(w), m, steps);
    JumpsExact(program);
    ReachedCounted(env, code, Start(w), m, steps);
    AtSelf(code, 0);
    assert code[0..] == code;
    BlockFits(code, program, 0, 0, m.pc);
    if ConstructIn(program, 0, m.pc).Some? {
      BlockHasOperands(program, 0, m.pc);
    }
  }
}
