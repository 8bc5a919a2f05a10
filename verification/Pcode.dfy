/**
 * P-code: the flat instruction list the grammar actions append to
 * (ParserPcodeEmit), and the back-patching of jumps (ParserSetJumps). The
 * list is a sequence; a skip pointer is the position of its target.
 */
module Pcode {
  import opened Common
  import opened Script

  datatype Op =
    | Push(operand: Operand)
    | AssignOp
    | FuncOp(fn: Function)
    | BlockBegin
    | BlockEnd
    | Test2Op(test: TestOp)
    | ExistsOp

  /** depth is the control structure count at the time of emission. */
  datatype Instr = Instr(op: Op, depth: int, skip: Option<nat>)

  predicate IsTest(op: Op) { op.Test2Op? || op.ExistsOp? }

  /** Every jump goes strictly forward, to an instruction of the list. */
  ghost predicate ForwardJumps(code: seq<Instr>) {
    forall i :: 0 <= i < |code| && code[i].skip.Some? ==> i < code[i].skip.value < |code|
  }

  // ----- back-patching -----

  datatype ControlToken = TokIf | TokElse

  /** Walks back from p to an instruction of the given depth that is wanted; None if an assertion fires. */
  function FindBack(code: seq<Instr>, p: int, depth: int, wanted: Op -> bool): (r: Option<nat>)
    requires p < |code|
    ensures r.Some? ==> r.value <= p && code[r.value].depth == depth && wanted(code[r.value].op)
  {
    if p < 0 || code[p].depth < depth then None
    else if code[p].depth == depth && wanted(code[p].op) then Some(p)
    else FindBack(code, p - 1, depth, wanted)
  }

  function IsTestFn(): Op -> bool { (op: Op) => IsTest(op) }
  function IsEndFn(): Op -> bool { (op: Op) => op.BlockEnd? }

  /** The list after ParserSetJumps, or None when one of its assertions fires. */
  function Patched(code: seq<Instr>, token: ControlToken): (r: Option<seq<Instr>>)
    ensures r.Some? ==> |r.value| == |code|
  {
    var tail := |code| - 1;
    if tail < 0 || !code[tail].op.BlockEnd? then None
    else
      var depth := code[tail].depth;
      match token
      case TokIf =>
        var test := FindBack(code, tail, depth, IsTestFn());
        if test.None? then None
        else Some(code[test.value := code[test.value].(skip := Some(tail))])
      case TokElse =>
        var end := FindBack(code, tail - 1, depth, IsEndFn());
        if end.None? then None
        else
          var code' := code[end.value := code[end.value].(skip := Some(tail))];
          var test := FindBack(code', end.value, depth, IsTestFn());
          if test.None? then None
          else Some(code'[test.value := code'[test.value].(skip := Some(end.value + 1))])
  }

  // ----- the code of a statement -----

  function Operands(t: Test): (r: seq<Operand>)
    ensures 1 <= |r| <= 2
  {
    match t
    case Compare(_, l, r) => [l, r]
    case Exists(h) => [h]
  }

  function TestOpcode(t: Test): (op: Op)
    ensures IsTest(op)
  {
    match t
    case Compare(op, _, _) => Test2Op(op)
    case Exists(_) => ExistsOp
  }

  function Pushes(operands: seq<Operand>, depth: int): (code: seq<Instr>)
    ensures |code| == |operands|
  {
    seq(|operands|, i requires 0 <= i < |operands| => Instr(Push(operands[i]), depth, None))
  }

  /** The number of instructions of a statement. */
  function Size(s: Stmt): nat
    decreases s, 1
  {
    match s
    case Call(_, args) => |args| + 1
    case Assign(_, _) => 3
    case If(test, body) => |Operands(test)| + 3 + BlockSize(body)
    case IfElse(test, thn, els) => |Operands(test)| + 5 + BlockSize(thn) + BlockSize(els)
  }

  function BlockSize(ss: seq<Stmt>): nat
    decreases ss, 0
  {
    if ss == [] then 0 else Size(ss[0]) + BlockSize(ss[1..])
  }

  /** An if around the code of its block: a failed test skips to the block's END. */
  function IfCode(test: Test, body: seq<Instr>, base: nat, depth: int): (code: seq<Instr>)
    ensures |code| == |Operands(test)| + 3 + |body|
  {
    var end := base + |Operands(test)| + 2 + |body|;
    (Pushes(Operands(test), depth) + [Instr(TestOpcode(test), depth, Some(end))])
    + ([Instr(BlockBegin, depth, None)] + (body + [Instr(BlockEnd, depth, None)]))
  }

  /** A failed test skips to the else BEGIN, the then END to the else END. */
  function IfElseCode(test: Test, thn: seq<Instr>, els: seq<Instr>, base: nat, depth: int): (code: seq<Instr>)
    ensures |code| == |Operands(test)| + 5 + |thn| + |els|
  {
    var end := base + |Operands(test)| + 2 + |thn|;
    var elseEnd := end + 2 + |els|;
    (Pushes(Operands(test), depth) + [Instr(TestOpcode(test), depth, Some(end + 1))])
    + ([Instr(BlockBegin, depth, None)]
       + (thn
          + ([Instr(BlockEnd, depth, Some(elseEnd)), Instr(BlockBegin, depth, None)]
             + (els + [Instr(BlockEnd, depth, None)]))))
  }

  /** The code of a statement placed at position base, with its jumps. */
  function Code(s: Stmt, base: nat, depth: int): (code: seq<Instr>)
    ensures |code| == Size(s)
    decreases s, 1
  {
    match s
    case Call(fn, args) => Pushes(args, depth) + [Instr(FuncOp(fn), depth, None)]
    case Assign(target, value) => Pushes([target, value], depth) + [Instr(AssignOp, depth, None)]
    case If(test, body) =>
      IfCode(test, BlockCode(body, base + |Operands(test)| + 2, depth + 1), base, depth + 1)
    case IfElse(test, thn, els) =>
      var first := base + |Operands(test)| + 2;
      IfElseCode(test, BlockCode(thn, first, depth + 1),
                 BlockCode(els, first + BlockSize(thn) + 2, depth + 1), base, depth + 1)
  }

  function BlockCode(ss: seq<Stmt>, base: nat, depth: int): (code: seq<Instr>)
    ensures |code| == BlockSize(ss)
    decreases ss, 0
  {
    if ss == [] then []
    else Code(ss[0], base, depth) + BlockCode(ss[1..], base + Size(ss[0]), depth)
  }

  lemma IfCodeOf(s: Stmt, base: nat, depth: int)
    requires s.If?
    ensures Code(s, base, depth)
         == IfCode(s.test, BlockCode(s.body, base + |Operands(s.test)| + 2, depth + 1), base, depth + 1)
  {
  }

  /** The p-code of a whole program. */
  function Compiled(program: seq<Stmt>): seq<Instr> {
    BlockCode(program, 0, 0)
  }

  // ----- what a walk back meets -----

  /** No instruction here is shallower than depth, and at that depth none is a test or ends a block. */
  ghost predicate Nested(code: seq<Instr>, depth: int) {
    forall i :: 0 <= i < |code| ==>
      code[i].depth >= depth && (code[i].depth == depth ==> !IsTest(code[i].op) && !code[i].op.BlockEnd?)
  }

  lemma NestedConcat(a: seq<Instr>, b: seq<Instr>, depth: int)
    requires Nested(a, depth) && Nested(b, depth)
    ensures Nested(a + b, depth)
  {
    forall i | 0 <= i < |a + b|
      ensures var x := (a + b)[i];
        x.depth >= depth && (x.depth == depth ==> !IsTest(x.op) && !x.op.BlockEnd?)
    {
      assert (a + b)[i] == if i < |a| then a[i] else b[i - |a|];
    }
  }

  lemma IfCodeNested(test: Test, body: seq<Instr>, base: nat, depth: int)
    requires Nested(body, depth)
    ensures Nested(IfCode(test, body, base, depth), depth - 1)
  {
    var code := IfCode(test, body, base, depth);
    var n := |Operands(test)|;
    assert code[n + 2..n + 2 + |body|] == body;
    forall i | 0 <= i < |code| ensures code[i].depth >= depth {
      assert n + 2 <= i < n + 2 + |body| ==> code[i] == body[i - n - 2];
    }
  }

  lemma IfElseCodeNested(test: Test, thn: seq<Instr>, els: seq<Instr>, base: nat, depth: int)
    requires Nested(thn, depth) && Nested(els, depth)
    ensures Nested(IfElseCode(test, thn, els, base, depth), depth - 1)
  {
    var code := IfElseCode(test, thn, els, base, depth);
    var n := |Operands(test)| + 2;
    var m := n + |thn| + 2;
    assert code[n..n + |thn|] == thn && code[m..m + |els|] == els;
    forall i | 0 <= i < |code| ensures code[i].depth >= depth {
      assert n <= i < n + |thn| ==> code[i] == thn[i - n];
      assert m <= i < m + |els| ==> code[i] == els[i - m];
    }
  }

  lemma LeafNested(s: Stmt, base: nat, depth: int)
    requires s.Call? || s.Assign?
    ensures Nested(Code(s, base, depth), depth)
  {
  }

  lemma {:induction false} CodeNested(s: Stmt, base: nat, depth: int)
    ensures Nested(Code(s, base, depth), depth)
    decreases s, 2
  {
    if s.If? {
      IfNested(s, base, depth);
    } else if s.IfElse? {
      IfElseNested(s, base, depth);
    } else {
      LeafNested(s, base, depth);
    }
  }

  lemma {:induction false} IfNested(s: Stmt, base: nat, depth: int)
    requires s.If?
    ensures Nested(Code(s, base, depth), depth)
    decreases s, 1
  {
    var first := base + |Operands(s.test)| + 2;
    BlockCodeNested(s.body, first, depth + 1);
    IfCodeNested(s.test, BlockCode(s.body, first, depth + 1), base, depth + 1);
  }

  lemma {:induction false} IfElseNested(s: Stmt, base: nat, depth: int)
    requires s.IfElse?
    ensures Nested(Code(s, base, depth), depth)
    decreases s, 1
  {
    var first := base + |Operands(s.test)| + 2;
    var second := first + BlockSize(s.thn) + 2;
    var thn, els := BlockCode(s.thn, first, depth + 1), BlockCode(s.els, second, depth + 1);
    BlockCodeNested(s.thn, first, depth + 1);
    BlockCodeNested(s.els, second, depth + 1);
    IfElseCodeNested(s.test, thn, els, base, depth + 1);
  }

  lemma {:induction false} BlockCodeNested(ss: seq<Stmt>, base: nat, depth: int)
    ensures Nested(BlockCode(ss, base, depth), depth)
    decreases ss, 0
  {
    if ss != [] {
      CodeNested(ss[0], base, depth);
      BlockCodeNested(ss[1..], base + Size(ss[0]), depth);
      NestedConcat(Code(ss[0], base, depth), BlockCode(ss[1..], base + Size(ss[0]), depth), depth);
    }
  }

  /** A walk back passes over nested code. */
  lemma {:induction false} FindBackOver(code: seq<Instr>, lo: nat, p: int, depth: int, wanted: Op -> bool)
    requires lo <= p + 1 <= |code|
    requires forall i :: lo <= i <= p ==> code[i].depth >= depth && !(code[i].depth == depth && wanted(code[i].op))
    ensures FindBack(code, p, depth, wanted) == FindBack(code, lo - 1, depth, wanted)
    decreases p
  {
    if lo <= p {
      FindBackOver(code, lo, p - 1, depth, wanted);
    }
  }

  lemma FoundAt(code: seq<Instr>, p: nat, depth: int, wanted: Op -> bool)
    requires p < |code| && code[p].depth == depth && wanted(code[p].op)
    ensures FindBack(code, p, depth, wanted) == Some(p)
  {
  }

  /**
   * Patching after an if: only its own test is changed, and it skips to its END.
   */
  lemma PatchedIf(before: seq<Instr>, test: Op, body: seq<Instr>, depth: int)
    requires IsTest(test) && Nested(body, depth)
    ensures
      var head := Instr(test, depth, None);
      var rest := [Instr(BlockBegin, depth, None)] + body + [Instr(BlockEnd, depth, None)];
      Patched(before + [head] + rest, TokIf)
        == Some(before + [head.(skip := Some(|before| + |rest|))] + rest)
  {
    var head := Instr(test, depth, None);
    var rest := [Instr(BlockBegin, depth, None)] + body + [Instr(BlockEnd, depth, None)];
    var code := before + [head] + rest;
    var t := |before|;
    forall i | t < i < |code| ensures code[i].depth >= depth && !(code[i].depth == depth && IsTest(code[i].op)) {
      assert code[i] == rest[i - t - 1];
    }
    FindBackOver(code, t + 1, |code| - 1, depth, IsTestFn());
    assert code[t] == head;
    assert code[t := head.(skip := Some(|code| - 1))] == before + [head.(skip := Some(|before| + |rest|))] + rest;
  }

  /**
   * Patching after an if-else: its test skips to its else BEGIN and its then
   * END to its else END.
   */
  lemma PatchedIfElse(before: seq<Instr>, test: Op, thn: seq<Instr>, els: seq<Instr>, depth: int)
    requires IsTest(test) && Nested(thn, depth) && Nested(els, depth)
    ensures
      var head := Instr(test, depth, None);
      var begin := Instr(BlockBegin, depth, None);
      var end := Instr(BlockEnd, depth, None);
      var e := |before| + 2 + |thn|;
      Patched(before + [head, begin] + thn + [end, begin] + els + [end], TokElse)
        == Some(before + [head.(skip := Some(e + 1)), begin] + thn
                + [end.(skip := Some(e + 2 + |els|)), begin] + els + [end])
  {
    hide FindBack;
    var head := Instr(test, depth, None);
    var begin := Instr(BlockBegin, depth, None);
    var end := Instr(BlockEnd, depth, None);
    var t := |before|;
    var e := t + 2 + |thn|;
    var code := before + [head, begin] + thn + [end, begin] + els + [end];
    var tail := |code| - 1;
    assert code[t] == head && code[t + 1] == begin && code[e] == end && code[e + 1] == begin;
    assert code[t + 2..e] == thn && code[e + 2..tail] == els;
    forall i | e < i < tail ensures code[i].depth >= depth && !(code[i].depth == depth && code[i].op.BlockEnd?) {
      assert i > e + 1 ==> code[i] == els[i - e - 2];
    }
    FindBackOver(code, e + 1, tail - 1, depth, IsEndFn());
    FoundAt(code, e, depth, IsEndFn());
    var code' := code[e := end.(skip := Some(tail))];
    forall i | t < i <= e ensures code'[i].depth >= depth && !(code'[i].depth == depth && IsTest(code'[i].op)) {
      assert t + 1 < i < e ==> code'[i] == thn[i - t - 2];
    }
    FindBackOver(code', t + 1, e, depth, IsTestFn());
    assert code'[t] == head;
    FoundAt(code', t, depth, IsTestFn());
    assert code'[t := head.(skip := Some(e + 1))]
        == before + [head.(skip := Some(e + 1)), begin] + thn + [end.(skip := Some(tail)), begin] + els + [end];
  }

  /** What the parser has emitted for an if when it comes to patch it. */
  function EmittedIf(test: Test, body: seq<Instr>, depth: int): (code: seq<Instr>)
    ensures |code| == |Operands(test)| + 3 + |body|
  {
    Pushes(Operands(test), depth) + [Instr(TestOpcode(test), depth, None)]
    + [Instr(BlockBegin, depth, None)] + body + [Instr(BlockEnd, depth, None)]
  }

  function EmittedIfElse(test: Test, thn: seq<Instr>, els: seq<Instr>, depth: int): seq<Instr> {
    EmittedIf(test, thn, depth) + [Instr(BlockBegin, depth, None)] + els + [Instr(BlockEnd, depth, None)]
  }

  lemma EmittedBlock(before: seq<Instr>, test: Test, body: seq<Instr>, depth: int)
    ensures before + Pushes(Operands(test), depth) + [Instr(TestOpcode(test), depth, None)]
            + [Instr(BlockBegin, depth, None)] + body + [Instr(BlockEnd, depth, None)]
         == before + EmittedIf(test, body, depth)
  {
  }

  lemma EmittedElse(before: seq<Instr>, test: Test, thn: seq<Instr>, els: seq<Instr>, depth: int)
    ensures before + EmittedIf(test, thn, depth) + [Instr(BlockBegin, depth, None)] + els
            + [Instr(BlockEnd, depth, None)]
         == before + EmittedIfElse(test, thn, els, depth)
  {
  }

  /** Patching completes an if, and changes nothing before it. */
  lemma IfPatching(before: seq<Instr>, test: Test, body: seq<Instr>, depth: int)
    requires Nested(body, depth)
    ensures Patched(before + EmittedIf(test, body, depth), TokIf)
         == Some(before + IfCode(test, body, |before|, depth))
  {
    var pushes := before + Pushes(Operands(test), depth);
    var op := TestOpcode(test);
    var rest := [Instr(BlockBegin, depth, None)] + body + [Instr(BlockEnd, depth, None)];
    PatchedIf(pushes, op, body, depth);
    assert before + EmittedIf(test, body, depth) == pushes + [Instr(op, depth, None)] + rest;
    assert before + IfCode(test, body, |before|, depth)
        == pushes + [Instr(op, depth, Some(|pushes| + |rest|))] + rest;
  }

  lemma PlacedIfElse(before: seq<Instr>, test: Test, thn: seq<Instr>, els: seq<Instr>, depth: int)
    ensures
      var pushes := before + Pushes(Operands(test), depth);
      var begin, end := Instr(BlockBegin, depth, None), Instr(BlockEnd, depth, None);
      var e := |pushes| + 2 + |thn|;
      before + IfElseCode(test, thn, els, |before|, depth)
        == pushes + [Instr(TestOpcode(test), depth, Some(e + 1)), begin] + thn
           + [end.(skip := Some(e + 2 + |els|)), begin] + els + [end]
  {
  }

  /** Patching completes an if-else, and changes nothing before it. */
  lemma IfElsePatching(before: seq<Instr>, test: Test, thn: seq<Instr>, els: seq<Instr>, depth: int)
    requires Nested(thn, depth) && Nested(els, depth)
    ensures Patched(before + EmittedIfElse(test, thn, els, depth), TokElse)
         == Some(before + IfElseCode(test, thn, els, |before|, depth))
  {
    var pushes := before + Pushes(Operands(test), depth);
    var op := TestOpcode(test);
    var begin, end := Instr(BlockBegin, depth, None), Instr(BlockEnd, depth, None);
    var e := |pushes| + 2 + |thn|;
    PatchedIfElse(pushes, op, thn, els, depth);
    assert before + EmittedIfElse(test, thn, els, depth)
        == pushes + [Instr(op, depth, None), begin] + thn + [end, begin] + els + [end];
    PlacedIfElse(before, test, thn, els, depth);
  }
}
