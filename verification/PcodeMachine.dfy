/**
 * The p-code machine (ParserExecPcode) as a function on machine states. A
 * failed assertion of the original, or a dereference of a missing operand, is
 * the outcome Aborted.
 */
module PcodeMachine {
  import opened Common
  import opened Script
  import opened Pcode

  /** pc is the position of the instruction to execute next. */
  datatype Machine = Machine(pc: nat, firstPush: Option<nat>, pushCount: nat, w: World, outcome: Outcome)

  function Start(w: World): Machine {
    Machine(0, None, 0, w, Done)
  }

  /** The operands of the n instructions before pc, if those are all pushes. */
  function OperandsBefore(code: seq<Instr>, pc: nat, n: nat): (r: Option<seq<Operand>>)
    requires pc <= |code|
    ensures r.Some? ==> |r.value| == n <= pc
  {
    if n == 0 then Some([])
    else if pc == 0 || !code[pc - 1].op.Push? then None
    else
      var rest := OperandsBefore(code, pc - 1, n - 1);
      if rest.None? then None else Some(rest.value + [code[pc - 1].op.operand])
  }

  lemma {:induction false} OperandsBeforeAt(code: seq<Instr>, pc: nat, n: nat)
    requires pc <= |code|
    ensures OperandsBefore(code, pc, n).Some? <==> n <= pc && forall i :: pc - n <= i < pc ==> code[i].op.Push?
    ensures OperandsBefore(code, pc, n).Some? ==>
      forall k :: 0 <= k < n ==> OperandsBefore(code, pc, n).value[k] == code[pc - n + k].op.operand
    decreases n
  {
    if n > 0 && pc > 0 {
      OperandsBeforeAt(code, pc - 1, n - 1);
    }
  }

  function Abort(m: Machine): Machine {
    m.(pc := m.pc + 1, outcome := Aborted)
  }

  /** Carries out an effect and moves on; a failure stops the machine before the next instruction. */
  function Effect(m: Machine, effect: (World, Outcome)): Machine {
    m.(pc := m.pc + 1, w := effect.0, outcome := effect.1)
  }

  /** A jump lands on its target, and the loop then advances past it. */
  function Skip(m: Machine, skip: Option<nat>): Machine {
    if skip.None? then Abort(m) else m.(pc := skip.value + 1)
  }

  function Branch(env: Env, m: Machine, skip: Option<nat>, verdict: Verdict): Machine {
    match verdict
    case Yes => m.(pc := m.pc + 1)
    case No => Skip(m, skip)
    case NotNumeric => Effect(m, (m.w, Failed(InvalidNumber)))
    case Unset(name) => Effect(m, (m.w, Undefined(env, name)))
  }

  function AssignEffect(env: Env, code: seq<Instr>, pc: nat, pushCount: nat, w: World): (World, Outcome)
    requires pc < |code|
  {
    var os := OperandsBefore(code, pc, 2);
    if pushCount != 2 || os.None? then (w, Aborted) else AssignTo(env, w, os.value[0], os.value[1])
  }

  function FuncEffect(env: Env, code: seq<Instr>, pc: nat, pushCount: nat, fn: Function, w: World): (World, Outcome)
    requires pc < |code|
  {
    if pushCount != ArgsNeeded(fn) then (w, Failed(WrongArgCount(fn, pushCount)))
    else
      var os := OperandsBefore(code, pc, pushCount);
      if os.None? then (w, Aborted) else Invoke(env, w, fn, os.value)
  }

  /** What a test says, or None when an operand is missing. */
  function TestVerdict(env: Env, code: seq<Instr>, pc: nat, pushCount: nat, op: Op, w: World): Option<Verdict>
    requires pc < |code| && IsTest(op)
  {
    var n := if op.Test2Op? then 2 else 1;
    var os := OperandsBefore(code, pc, n);
    if pushCount != n || os.None? then None
    else Some(Judge(env, w, if op.Test2Op? then Compare(op.test, os.value[0], os.value[1]) else Exists(os.value[0])))
  }

  function Step(env: Env, code: seq<Instr>, m: Machine): (m': Machine)
    requires m.pc < |code|
    ensures ForwardJumps(code) ==> m.pc < m'.pc <= |code|
  {
    var instr := code[m.pc];
    if instr.op.Push? then
      if m.firstPush.None? then m.(pc := m.pc + 1, firstPush := Some(m.pc), pushCount := 1)
      else m.(pc := m.pc + 1, pushCount := m.pushCount + 1)
    else
      var m := m.(firstPush := None);
      if instr.op.BlockBegin? then m.(pc := m.pc + 1)
      else if instr.op.BlockEnd? then
        if instr.skip.Some? then Skip(m, instr.skip) else m.(pc := m.pc + 1)
      else if instr.op.AssignOp? then Effect(m, AssignEffect(env, code, m.pc, m.pushCount, m.w))
      else if instr.op.FuncOp? then Effect(m, FuncEffect(env, code, m.pc, m.pushCount, instr.op.fn, m.w))
      else
        var verdict := TestVerdict(env, code, m.pc, m.pushCount, instr.op, m.w);
        if verdict.None? then Abort(m) else Branch(env, m, instr.skip, verdict.value)
  }

  /** Runs until the list ends, something fails, or an assertion fires. */
  function Run(env: Env, code: seq<Instr>, m: Machine): Machine
    requires ForwardJumps(code)
    decreases |code| - m.pc
  {
    if m.pc >= |code| || !m.outcome.Done? then m else Run(env, code, Step(env, code, m))
  }
}
