/**
 * The p-code header and its execution loop (parser.c), working on the symbol
 * table, and the execution of a whole script: parse, then run.
 */
module Interpreter {
  import opened Common
  import opened OrderedStore
  import opened SymbolTable
  import opened XplTag
  import opened Script
  import opened Pcode
  import opened PcodeMachine
  import opened CompilerCorrectness
  import opened Jumps
  import opened Emitter

  /** The compiled code of any program does what the program means. */
  lemma CompiledCorrect(env: Env, program: seq<Stmt>, w: World)
    requires AllFormed(program)
    ensures ForwardJumps(Compiled(program))
    ensures
      var end := Run(env, Compiled(program), Start(w));
      (end.w, end.outcome) == ExecBlock(env, program, w)
  {
    var code := Compiled(program);
    JumpsExact(program);
    AtSelf(code, 0);
    assert code[0..] == code;
    var m := BlockRuns(env, code, program, 0, 0, Start(w));
    var steps: nat :| ReachesIn(env, code, Start(w), m, steps);
    RunReached(env, code, Start(w), m, steps);
  }

  /**
   * A function call with derivable arguments aborts in one case only: an
   * xplcmd, otherwise in order, that names a hash never stored to.
   */
  lemma InvokeAborts(env: Env, w: World, fn: Function, args: seq<Operand>)
    requires forall i :: 0 <= i < |args| ==> IsArgument(args[i])
    ensures Invoke(env, w, fn, args).1.Aborted? <==>
      && fn == XplCmd && |args| == 4
      && Cut(NameOf(args[0])).Some? && LengthsAllowed(Cut(NameOf(args[0])).value)
      && NameOf(args[3]) !in w.store
  {
    assert forall i :: 0 <= i < |args| ==> Value(env, w, args[i]) == Some(NameOf(args[i]));
  }

  /** The value of the push this far before pc. */
  ghost function ArgumentAt(env: Env, code: seq<Instr>, pc: nat, back: nat, w: World): Option<string>
    requires pc < |code| && back >= 1
  {
    if back <= pc && code[pc - back].op.Push? then Value(env, w, code[pc - back].op.operand) else None
  }

  /** The arguments of xplcmd are fetched one by one, from the last to the first. */
  lemma XplCmdArguments(env: Env, code: seq<Instr>, pc: nat, w: World)
    requires pc < |code|
    ensures
      var tag, class_ := ArgumentAt(env, code, pc, 4, w), ArgumentAt(env, code, pc, 3, w);
      var type_, hash := ArgumentAt(env, code, pc, 2, w), ArgumentAt(env, code, pc, 1, w);
      FuncEffect(env, code, pc, 4, XplCmd, w) ==
        if tag.None? || class_.None? || type_.None? || hash.None? then (w, Aborted)
        else SendCommand(env, w, tag.value, class_.value, type_.value, hash.value)
  {
    OperandsBeforeAt(code, pc, 4);
    var os := OperandsBefore(code, pc, 4);
    if os.Some? {
      var args := os.value;
      assert forall k :: 0 <= k < 4 ==> args[k] == code[pc - 4 + k].op.operand;
      assert args[0] == code[pc - 4].op.operand && args[1] == code[pc - 3].op.operand;
      assert args[2] == code[pc - 2].op.operand && args[3] == code[pc - 1].op.operand;
    }
  }

  lemma AssignOperands(env: Env, code: seq<Instr>, pc: nat, w: World)
    requires pc < |code|
    ensures AssignEffect(env, code, pc, 2, w) ==
      if pc >= 2 && code[pc - 2].op.Push? && code[pc - 1].op.Push?
      then AssignTo(env, w, code[pc - 2].op.operand, code[pc - 1].op.operand)
      else (w, Aborted)
  {
    OperandsBeforeAt(code, pc, 2);
  }

  class PcodeHeader {
    const env: Env
    const table: Table
    var code: seq<Instr>
    var nv: map<string, string>
    var log: seq<Event>
    var calls: nat
    var firstPush: Option<nat>
    var pushCount: nat
    var failReason: Option<Reason>

    ghost predicate Valid()
      reads this, table
    {
      table.Valid()
    }

    ghost function CurrentWorld(): World
      reads this, table
    {
      World(table.Store(), nv, log, calls)
    }

    /** The machine state, when the instruction at pc is next. */
    ghost function State(pc: nat, aborted: bool): Machine
      reads this, table
    {
      Machine(pc, firstPush, pushCount, CurrentWorld(),
        if aborted then Aborted else if failReason.Some? then Failed(failReason.value) else Done)
    }

    constructor (env: Env)
      ensures Valid() && fresh(table) && this.env == env
      ensures CurrentWorld() == World(map[], map[], [], 0)
      ensures code == [] && firstPush.None? && pushCount == 0 && failReason.None?
    {
      this.env := env;
      table := new Table();
      code, nv, log, calls := [], map[], [], 0;
      firstPush, pushCount, failReason := None, 0, None;
    }

    method HashGetValue(name: string, key: string) returns (value: Option<string>)
      requires Valid()
      ensures value == Read(env, CurrentWorld(), name, key)
    {
      if env.hasDb && name == "nvstate" {
        value := if key in nv then Some(nv[key]) else None;
      } else {
        value := table.GetValue(name, key);
      }
    }

    method HashAddKeyValue(name: string, key: string, value: string) returns (ok: bool)
      requires Valid()
      modifies this`nv, this`calls, table
      ensures Valid() && (CurrentWorld(), ok) == Write(env, old(CurrentWorld()), name, key, value)
    {
      if env.hasDb && name == "nvstate" {
        ok := env.nvWriteOk(calls);
        calls := calls + 1;
        if ok {
          nv := nv[key := value];
        }
      } else {
        table.AddKeyValue(name, key, value);
        ok := true;
      }
    }

    method GetOperand(o: Operand) returns (value: Option<string>)
      requires Valid()
      ensures value == Value(env, CurrentWorld(), o)
    {
      match o {
        case HashKV(name, key) => value := HashGetValue(name, key);
        case HashRef(name) => value := Some(name);
        case StringLit(text) => value := Some(text);
        case IntLit(text) => value := Some(text);
        case FloatLit(text) => value := Some(text);
      }
    }

    method UndefVar(name: string)
      requires failReason.None?
      modifies this`failReason
      ensures failReason == if env.ignoreAssignErrors then None else Some(UndefinedVariable(name))
    {
      if !env.ignoreAssignErrors {
        failReason := Some(UndefinedVariable(name));
      }
    }

    /** The operand of the push this far before pc; None where the original has none to fetch. */
    method PrevOperand(pc: nat, back: nat) returns (o: Option<Operand>)
      requires pc < |code| && back >= 1
      ensures o == if back <= pc && code[pc - back].op.Push? then Some(code[pc - back].op.operand) else None
    {
      o := if back <= pc && code[pc - back].op.Push? then Some(code[pc - back].op.operand) else None;
    }

    /** The value of an argument; an assertion of the original fires when there is none. */
    method Argument(pc: nat, back: nat) returns (value: Option<string>)
      requires Valid() && pc < |code| && back >= 1
      ensures value == ArgumentAt(env, code, pc, back, CurrentWorld())
    {
      var o := PrevOperand(pc, back);
      if o.None? {
        return None;
      }
      value := GetOperand(o.value);
    }

    /** Stores the value of one operand in the variable that is the other. */
    method AssignOperand(left: Operand, right: Operand)
      requires Valid() && failReason.None?
      modifies this`nv, this`calls, this`failReason, table
      ensures Valid()
      ensures (CurrentWorld(), State(0, false).outcome) == AssignTo(env, old(CurrentWorld()), left, right)
    {
      var value := GetOperand(right);
      if value.None? {
        UndefVar(NameOf(right));
        return;
      }
      var ok := false;
      if left.HashKV? {
        ok := HashAddKeyValue(left.name, left.key, value.value);
      }
      if !ok {
        UndefVar(NameOf(left));
      }
    }

    method ExecAssign(pc: nat) returns (aborted: bool)
      requires Valid() && pc < |code| && failReason.None?
      modifies this`nv, this`calls, this`failReason, table
      ensures Valid()
      ensures
        var effect := AssignEffect(env, code, pc, pushCount, old(CurrentWorld()));
        CurrentWorld() == effect.0 && State(pc, aborted).outcome == effect.1
    {
      AssignOperands(env, code, pc, CurrentWorld());
      if pushCount != 2 {
        return true;
      }
      var right := PrevOperand(pc, 1);
      var left := PrevOperand(pc, 2);
      if right.None? || left.None? {
        return true;
      }
      AssignOperand(left.value, right.value);
      return false;
    }

    /** jump is true when the test fails, and false when it holds or is given up. */
    method ExecTest2(pc: nat, op: TestOp) returns (jump: bool, aborted: bool)
      requires Valid() && pc < |code| && failReason.None? && code[pc].op == Test2Op(op)
      modifies this`failReason
      ensures
        var verdict := TestVerdict(env, code, pc, pushCount, Test2Op(op), CurrentWorld());
        && aborted == verdict.None?
        && (verdict.Some? ==> jump == verdict.value.No?)
        && State(pc, aborted).outcome ==
             (if verdict.None? then Aborted
              else match verdict.value
                   case NotNumeric => Failed(InvalidNumber)
                   case Unset(name) => Undefined(env, name)
                   case _ => Done)
    {
      OperandsBeforeAt(code, pc, 2);
      if pushCount != 2 {
        return false, true;
      }
      var left := PrevOperand(pc, 2);
      var right := PrevOperand(pc, 1);
      if left.None? || right.None? {
        return false, true;
      }
      ghost var test := Compare(op, left.value, right.value);
      assert TestVerdict(env, code, pc, pushCount, Test2Op(op), CurrentWorld())
          == Some(Judge(env, CurrentWorld(), test));
      jump, aborted := false, false;
      var value := GetOperand(left.value);
      if value.None? {
        UndefVar(NameOf(left.value));
        return;
      }
      if op != StrEq && env.stod(value.value).None? {
        failReason := Some(InvalidNumber);
        return;
      }
      var rvalue := GetOperand(right.value);
      if rvalue.None? {
        UndefVar(NameOf(right.value));
        return;
      }
      if op != StrEq && env.stod(rvalue.value).None? {
        failReason := Some(InvalidNumber);
        return;
      }
      jump := !Holds(env, op, value.value, rvalue.value);
    }

    method ExecExists(pc: nat) returns (jump: bool, aborted: bool)
      requires Valid() && pc < |code|
      ensures
        var verdict := TestVerdict(env, code, pc, pushCount, ExistsOp, CurrentWorld());
        && aborted == verdict.None?
        && (verdict.Some? ==> verdict.value == if jump then No else Yes)
    {
      OperandsBeforeAt(code, pc, 1);
      if pushCount != 1 {
        return false, true;
      }
      var o := PrevOperand(pc, 1);
      if o.None? {
        return false, true;
      }
      var value := GetOperand(o.value);
      jump, aborted := value.None?, false;
    }

    method SpawnCommand(pc: nat) returns (aborted: bool)
      requires Valid() && pc < |code| && failReason.None?
      modifies this`log, this`calls, this`failReason
      ensures Valid()
      ensures
        var effect := FuncEffect(env, code, pc, pushCount, Spawn, old(CurrentWorld()));
        CurrentWorld() == effect.0 && State(pc, aborted).outcome == effect.1
    {
      OperandsBeforeAt(code, pc, 1);
      if pushCount != 1 {
        failReason := Some(WrongArgCount(Spawn, pushCount));
        return false;
      }
      var command := Argument(pc, 1);
      if command.None? {
        return true;
      }
      aborted := false;
      if env.spawnOk(calls) {
        log := log + [Spawned(command.value)];
      } else {
        failReason := Some(SpawnFailed(command.value));
      }
      calls := calls + 1;
    }

    /** Builds the name/value pairs of a command from the entries of a hash. */
    method CollectPairs(kvs: seq<KeyValue>) returns (pairs: seq<Pair>)
      ensures pairs == PairsOf(kvs)
    {
      pairs := [];
      for i := 0 to |kvs|
        invariant pairs == PairsOf(kvs[..i])
      {
        pairs := pairs + [Pair(kvs[i].key, kvs[i].value)];
      }
      assert kvs[..|kvs|] == kvs;
    }

    method SendHash(tag: string, class_: string, type_: string, hash: string) returns (aborted: bool)
      requires Valid() && failReason.None?
      modifies this`log, this`failReason, table
      ensures Valid()
      ensures
        var effect := SendCommand(env, old(CurrentWorld()), tag, class_, type_, hash);
        CurrentWorld() == effect.0 && State(0, aborted).outcome == effect.1
    {
      var target := ParserSplitXPLTag(tag);
      if target.None? {
        failReason := Some(BadTag(tag));
        return false;
      }
      var h := table.FindHash(hash);
      if h == |table.steHead| {
        return true;
      }
      var pairs := CollectPairs(table.steHead[h].head);
      if env.live {
        log := log + [Command(target.value, class_, type_, pairs)];
      }
      table.DeleteHashContents(h);
      return false;
    }

    method SendXPLCommand(pc: nat) returns (aborted: bool)
      requires Valid() && pc < |code| && failReason.None?
      modifies this`log, this`failReason, table
      ensures Valid()
      ensures
        var effect := FuncEffect(env, code, pc, pushCount, XplCmd, old(CurrentWorld()));
        CurrentWorld() == effect.0 && State(pc, aborted).outcome == effect.1
    {
      XplCmdArguments(env, code, pc, CurrentWorld());
      if pushCount != 4 {
        failReason := Some(WrongArgCount(XplCmd, pushCount));
        return false;
      }
      var hash := Argument(pc, 1);
      if hash.None? {
        return true;
      }
      var type_ := Argument(pc, 2);
      if type_.None? {
        return true;
      }
      var class_ := Argument(pc, 3);
      if class_.None? {
        return true;
      }
      var tag := Argument(pc, 4);
      if tag.None? {
        return true;
      }
      aborted := SendHash(tag.value, class_.value, type_.value, hash.value);
    }

    /** One turn of the execution loop; next is where the loop goes on. */
    method ExecInstr(pc: nat) returns (next: nat, aborted: bool)
      requires Valid() && pc < |code| && failReason.None?
      modifies this`nv, this`log, this`calls, this`firstPush, this`pushCount, this`failReason, table
      ensures Valid()
      ensures State(next, aborted) == Step(env, code, old(State(pc, false)))
    {
      var instr := code[pc];
      next, aborted := pc + 1, false;
      if !instr.op.Push? {
        firstPush := None;
      }
      match instr.op {
        case BlockBegin =>
        case BlockEnd =>
          if instr.skip.Some? {
            next := instr.skip.value + 1;
          }
        case Push(_) =>
          if firstPush.None? {
            pushCount := 0;
            firstPush := Some(pc);
          }
          pushCount := pushCount + 1;
        case AssignOp =>
          aborted := ExecAssign(pc);
        case FuncOp(fn) =>
          if fn.XplCmd? {
            aborted := SendXPLCommand(pc);
          } else {
            aborted := SpawnCommand(pc);
          }
        case Test2Op(op) =>
          var jump;
          jump, aborted := ExecTest2(pc, op);
          if jump && !aborted {
            next, aborted := SkipFrom(pc);
          }
        case ExistsOp =>
          var jump;
          jump, aborted := ExecExists(pc);
          if jump && !aborted {
            next, aborted := SkipFrom(pc);
          }
      }
    }

    method SkipFrom(pc: nat) returns (next: nat, aborted: bool)
      requires pc < |code|
      ensures aborted == code[pc].skip.None?
      ensures next == if aborted then pc + 1 else code[pc].skip.value + 1
    {
      aborted := code[pc].skip.None?;
      next := if aborted then pc + 1 else code[pc].skip.value + 1;
    }

    /**
     * The execution loop. What it leaves in the header is the result of the
     * machine; aborted tells that an assertion ended the program.
     */
    method ExecPcode() returns (aborted: bool)
      requires Valid() && ForwardJumps(code) && failReason.None?
      modifies this`nv, this`log, this`calls, this`firstPush, this`pushCount, this`failReason, table
      ensures Valid()
      ensures code == [] ==> aborted && CurrentWorld() == old(CurrentWorld())
      ensures
        var end := Run(env, code, old(State(0, false)));
        code != [] ==> CurrentWorld() == end.w && State(0, aborted).outcome == end.outcome
    {
      if code == [] {
        return true;
      }
      var pc := 0;
      aborted := false;
      while pc < |code| && failReason.None? && !aborted
        invariant Valid()
        invariant Run(env, code, State(pc, aborted)) == Run(env, code, old(State(0, false)))
        decreases |code| - pc
      {
        pc, aborted := ExecInstr(pc);
      }
    }
  }

  /**
   * Parses a program and executes it, from whatever the variables are at that
   * point. The result is that of the program itself: the same variables, the
   * same commands in order, and the same first failure.
   */
  method ParseAndExec(ph: PcodeHeader, program: seq<Stmt>) returns (aborted: bool)
    requires program != [] && AllFormed(program) && ph.Valid()
    requires ph.code == [] && ph.firstPush.None? && ph.pushCount == 0 && ph.failReason.None?
    modifies ph, ph.table
    ensures ph.Valid()
    ensures (ph.CurrentWorld(), ph.State(0, aborted).outcome)
         == ExecBlock(ph.env, program, old(ph.CurrentWorld()))
  {
    var parseCtrl := new ParseCtrl();
    parseCtrl.StatementList(program);
    assert [] + BlockCode(program, 0, 0) == Compiled(program);
    ph.code := parseCtrl.code;
    CompiledCorrect(ph.env, program, ph.CurrentWorld());
    aborted := ph.ExecPcode();
  }
}
