/**
 * The parser's side of p-code generation: the actions of the grammar, run in
 * the order in which its productions are reduced, append instructions and
 * patch jumps. Each one is proved to add exactly the code of its phrase.
 */
module Emitter {
  import opened Common
  import opened Script
  import opened Pcode

  class ParseCtrl {
    var code: seq<Instr>
    var ctrlStructRefCount: int

    constructor ()
      ensures code == [] && ctrlStructRefCount == 0
    {
      code, ctrlStructRefCount := [], 0;
    }

    method PcodeEmit(op: Op)
      modifies this`code
      ensures code == old(code) + [Instr(op, ctrlStructRefCount, None)]
    {
      code := code + [Instr(op, ctrlStructRefCount, None)];
    }

    /** The walk back of ParserSetJumps; p ends before the list when an assertion fires. */
    method WalkBack(start: int, depth: int, forEnd: bool) returns (p: int)
      requires start < |code|
      ensures -1 <= p < |code|
      ensures FindBack(code, start, depth, if forEnd then IsEndFn() else IsTestFn())
           == if p < 0 then None else Some(p)
    {
      p := start;
      while p >= 0
        invariant p < |code|
        invariant FindBack(code, start, depth, if forEnd then IsEndFn() else IsTestFn())
               == FindBack(code, p, depth, if forEnd then IsEndFn() else IsTestFn())
      {
        if code[p].depth < depth {
          return -1;
        }
        if code[p].depth == depth && (if forEnd then code[p].op.BlockEnd? else IsTest(code[p].op)) {
          return;
        }
        p := p - 1;
      }
      p := -1;
    }

    /** ok is false when an assertion of the original fires, which ends the program. */
    method SetJumps(token: ControlToken) returns (ok: bool)
      modifies this`code
      ensures ok <==> Patched(old(code), token).Some?
      ensures ok ==> code == Patched(old(code), token).value
    {
      var tail := |code| - 1;
      if tail < 0 || !code[tail].op.BlockEnd? {
        return false;
      }
      var depth := code[tail].depth;
      var p := tail;
      var elseBlock := tail;
      if token.TokElse? {
        p := WalkBack(tail - 1, depth, true);
        if p < 0 {
          return false;
        }
        code := code[p := code[p].(skip := Some(tail))];
        elseBlock := p + 1;
      }
      p := WalkBack(p, depth, false);
      if p < 0 {
        return false;
      }
      code := code[p := code[p].(skip := Some(if token.TokIf? then tail else elseBlock))];
      return true;
    }

    /** operand ::= hash or rvalue, once for every operand of a phrase. */
    method PushAll(operands: seq<Operand>)
      modifies this`code
      ensures code == old(code) + Pushes(operands, ctrlStructRefCount)
    {
      for i := 0 to |operands|
        invariant code == old(code) + Pushes(operands[..i], ctrlStructRefCount)
      {
        PcodeEmit(Push(operands[i]));
        assert Pushes(operands[..i + 1], ctrlStructRefCount)
            == Pushes(operands[..i], ctrlStructRefCount) + [Instr(Push(operands[i]), ctrlStructRefCount, None)];
      }
      assert operands[..|operands|] == operands;
    }

    /** iftest ::= IF ( test ) */
    method IfTest(test: Test)
      modifies this
      ensures ctrlStructRefCount == old(ctrlStructRefCount) + 1
      ensures code == old(code) + Pushes(Operands(test), ctrlStructRefCount)
                      + [Instr(TestOpcode(test), ctrlStructRefCount, None)]
    {
      ctrlStructRefCount := ctrlStructRefCount + 1;
      PushAll(Operands(test));
      PcodeEmit(TestOpcode(test));
    }

    /** block ::= { statementlist } */
    method Block(ss: seq<Stmt>)
      modifies this
      ensures ctrlStructRefCount == old(ctrlStructRefCount)
      ensures code == old(code) + [Instr(BlockBegin, ctrlStructRefCount, None)]
                      + BlockCode(ss, |old(code)| + 1, ctrlStructRefCount)
                      + [Instr(BlockEnd, ctrlStructRefCount, None)]
      decreases ss, 2
    {
      PcodeEmit(BlockBegin);
      StatementList(ss);
      PcodeEmit(BlockEnd);
    }

    /** iftest block: the common start of an if and an if-else, not yet patched */
    method TestedBlock(test: Test, ss: seq<Stmt>)
      modifies this
      ensures ctrlStructRefCount == old(ctrlStructRefCount) + 1
      ensures
        var body := BlockCode(ss, |old(code)| + |Operands(test)| + 2, ctrlStructRefCount);
        code == old(code) + EmittedIf(test, body, ctrlStructRefCount) && Nested(body, ctrlStructRefCount)
      decreases ss, 3
    {
      ghost var start := code;
      IfTest(test);
      ghost var base := |start| + |Operands(test)| + 2;
      assert |code| + 1 == base;
      ghost var body := BlockCode(ss, base, ctrlStructRefCount);
      Block(ss);
      BlockCodeNested(ss, base, ctrlStructRefCount);
      EmittedBlock(start, test, body, ctrlStructRefCount);
    }

    /** ifconst ::= iftest block */
    method IfConst(s: Stmt)
      requires s.If?
      modifies this
      ensures ctrlStructRefCount == old(ctrlStructRefCount)
      ensures code == old(code) + Code(s, |old(code)|, ctrlStructRefCount)
      decreases s, 0
    {
      ghost var start := code;
      TestedBlock(s.test, s.body);
      ghost var body := BlockCode(s.body, |start| + |Operands(s.test)| + 2, ctrlStructRefCount);
      PatchIf(start, s.test, body);
      IfCodeOf(s, |start|, ctrlStructRefCount - 1);
      ctrlStructRefCount := ctrlStructRefCount - 1;
    }

    method PatchIf(ghost start: seq<Instr>, ghost test: Test, ghost body: seq<Instr>)
      requires Nested(body, ctrlStructRefCount)
      requires code == start + EmittedIf(test, body, ctrlStructRefCount)
      modifies this`code
      ensures code == start + IfCode(test, body, |start|, ctrlStructRefCount)
    {
      IfPatching(start, test, body, ctrlStructRefCount);
      var ok := SetJumps(TokIf);
      assert ok;
    }

    /** ELSE block */
    method ElseBlock(ghost start: seq<Instr>, ghost test: Test, ghost thn: seq<Instr>, ss: seq<Stmt>)
      requires code == start + EmittedIf(test, thn, ctrlStructRefCount)
      modifies this
      ensures ctrlStructRefCount == old(ctrlStructRefCount)
      ensures
        var els := BlockCode(ss, |old(code)| + 1, ctrlStructRefCount);
        code == start + EmittedIfElse(test, thn, els, ctrlStructRefCount) && Nested(els, ctrlStructRefCount)
      decreases ss, 3
    {
      ghost var els := BlockCode(ss, |code| + 1, ctrlStructRefCount);
      BlockCodeNested(ss, |code| + 1, ctrlStructRefCount);
      Block(ss);
      EmittedElse(start, test, thn, els, ctrlStructRefCount);
    }

    method PatchIfElse(ghost start: seq<Instr>, ghost test: Test, ghost thn: seq<Instr>, ghost els: seq<Instr>)
      requires Nested(thn, ctrlStructRefCount) && Nested(els, ctrlStructRefCount)
      requires code == start + EmittedIfElse(test, thn, els, ctrlStructRefCount)
      modifies this`code
      ensures code == start + IfElseCode(test, thn, els, |start|, ctrlStructRefCount)
    {
      IfElsePatching(start, test, thn, els, ctrlStructRefCount);
      var ok := SetJumps(TokElse);
      assert ok;
    }

    /** ifelseconst ::= iftest block ELSE block */
    method IfElseConst(s: Stmt)
      requires s.IfElse?
      modifies this
      ensures ctrlStructRefCount == old(ctrlStructRefCount)
      ensures code == old(code) + Code(s, |old(code)|, ctrlStructRefCount)
      decreases s, 0
    {
      ghost var start := code;
      TestedBlock(s.test, s.thn);
      ghost var thn := BlockCode(s.thn, |start| + |Operands(s.test)| + 2, ctrlStructRefCount);
      ghost var els := BlockCode(s.els, |code| + 1, ctrlStructRefCount);
      ElseBlock(start, s.test, thn, s.els);
      PatchIfElse(start, s.test, thn, els);
      ctrlStructRefCount := ctrlStructRefCount - 1;
    }

    /**
     * One statement. No assertion of the back-patching fires, nothing already
     * in the list is changed, and the depth counter is balanced.
     */
    method Statement(s: Stmt)
      modifies this
      ensures ctrlStructRefCount == old(ctrlStructRefCount)
      ensures code == old(code) + Code(s, |old(code)|, ctrlStructRefCount)
      decreases s, 1
    {
      match s {
        case Call(fn, args) =>
          PushAll(args);
          PcodeEmit(FuncOp(fn));
        case Assign(target, value) =>
          PushAll([target, value]);
          PcodeEmit(AssignOp);
        case If(_, _) =>
          IfConst(s);
        case IfElse(_, _, _) =>
          IfElseConst(s);
      }
    }

    method StatementList(ss: seq<Stmt>)
      modifies this
      ensures ctrlStructRefCount == old(ctrlStructRefCount)
      ensures code == old(code) + BlockCode(ss, |old(code)|, ctrlStructRefCount)
      decreases ss, 0
    {
      if ss != [] {
        Statement(ss[0]);
        StatementList(ss[1..]);
      }
    }
  }
}
