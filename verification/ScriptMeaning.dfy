/**
 * What compiled scripts do, in plain terms: which block a comparison lets run,
 * which command xplcmd sends, and what an assignment stores.
 */
module ScriptMeaning {
  import opened Common
  import opened OrderedStore
  import opened XplTag
  import opened Script
  import opened Pcode
  import opened PcodeMachine
  import opened Jumps
  import opened Interpreter
  import opened Aborts

  /** What is left when the code of a program has run. */
  ghost function RunOf(env: Env, program: seq<Stmt>, w: World): (World, Outcome) {
    JumpsExact(program);
    var end := Run(env, Compiled(program), Start(w));
    (end.w, end.outcome)
  }

  lemma RunOfBlock(env: Env, program: seq<Stmt>, w: World)
    requires AllFormed(program)
    ensures RunOf(env, program, w) == ExecBlock(env, program, w)
  {
    CompiledCorrect(env, program, w);
  }

  lemma RunOfOne(env: Env, s: Stmt, w: World)
    requires Formed(s)
    ensures RunOf(env, [s], w) == ExecStmt(env, s, w)
  {
    OneStatement(env, s, w, {});
    RunOfBlock(env, [s], w);
  }

  // ----- the text of an operand -----

  /** The operand has this text: its own, or the value of the variable it names. */
  ghost predicate HasText(env: Env, w: World, o: Operand, text: string) {
    match o
    case StringLit(t) => t == text
    case IntLit(t) => t == text
    case FloatLit(t) => t == text
    case HashRef(name) => name == text
    case HashKV(name, key) =>
      if env.hasDb && name == "nvstate" then key in w.nv && w.nv[key] == text
      else name in w.store && Find(w.store[name], key) == Some(text)
  }

  /** A variable that nothing is stored in. */
  ghost predicate HasNoText(env: Env, w: World, o: Operand) {
    && o.HashKV?
    && if env.hasDb && o.name == "nvstate" then o.key !in w.nv
       else o.name !in w.store || Find(w.store[o.name], o.key) == None
  }

  lemma TextIsValue(env: Env, w: World, o: Operand, text: string)
    ensures HasText(env, w, o, text) <==> Value(env, w, o) == Some(text)
    ensures HasNoText(env, w, o) <==> Value(env, w, o) == None
  {
  }

  // ----- comparisons -----

  function ThenOf(s: Stmt): seq<Stmt>
    requires s.If? || s.IfElse?
  {
    if s.If? then s.body else s.thn
  }

  function ElseOf(s: Stmt): seq<Stmt>
    requires s.If? || s.IfElse?
  {
    if s.If? then [] else s.els
  }

  /** An if or if-else on the comparison of two operands with these texts. */
  ghost predicate Compares(env: Env, w: World, s: Stmt, op: TestOp, l: string, r: string) {
    && Formed(s) && (s.If? || s.IfElse?) && s.test.Compare? && s.test.op == op
    && HasText(env, w, s.test.left, l) && HasText(env, w, s.test.right, r)
  }

  /** The statement does what this block of it does alone. */
  ghost predicate Takes(env: Env, s: Stmt, w: World, block: seq<Stmt>) {
    RunOf(env, [s], w) == RunOf(env, block, w)
  }

  ghost predicate Chooses(env: Env, s: Stmt, w: World, holds: bool)
    requires s.If? || s.IfElse?
  {
    Takes(env, s, w, if holds then ThenOf(s) else ElseOf(s))
  }

  lemma VerdictChooses(env: Env, s: Stmt, w: World)
    requires Formed(s) && (s.If? || s.IfElse?)
    ensures
      match Judge(env, w, s.test)
      case Yes => Chooses(env, s, w, true)
      case No => Chooses(env, s, w, false)
      case NotNumeric => RunOf(env, [s], w) == (w, Failed(InvalidNumber))
      case Unset(name) =>
        if env.ignoreAssignErrors then Chooses(env, s, w, true)
        else RunOf(env, [s], w) == (w, Failed(UndefinedVariable(name)))
  {
    RunOfOne(env, s, w);
    RunOfBlock(env, ThenOf(s), w);
    RunOfBlock(env, ElseOf(s), w);
  }

  lemma CompareVerdict(env: Env, w: World, s: Stmt, op: TestOp, l: string, r: string)
    requires Compares(env, w, s, op, l, r)
    requires op != StrEq ==> env.stod(l).Some? && env.stod(r).Some?
    ensures Judge(env, w, s.test) == if Holds(env, op, l, r) then Yes else No
  {
    TextIsValue(env, w, s.test.left, l);
    TextIsValue(env, w, s.test.right, r);
  }

  /** The six numeric operators, on numbers. */
  predicate TrueOf(op: TestOp, x: real, y: real) {
    match op
    case NumEq => x == y
    case NumNe => x != y
    case NumGt => x > y
    case NumLt => x < y
    case NumGe => x >= y
    case NumLe => x <= y
    case StrEq => false
  }

  /** Two finite numbers are compared as numbers. */
  lemma ComparesNumbers(env: Env, w: World, s: Stmt, op: TestOp, l: string, r: string, x: real, y: real)
    requires Compares(env, w, s, op, l, r) && op != StrEq
    requires env.stod(l) == Some(Finite(x)) && env.stod(r) == Some(Finite(y))
    ensures op == NumEq ==> Chooses(env, s, w, x == y)
    ensures op == NumNe ==> Chooses(env, s, w, x != y)
    ensures op == NumGt ==> Chooses(env, s, w, x > y)
    ensures op == NumLt ==> Chooses(env, s, w, x < y)
    ensures op == NumGe ==> Chooses(env, s, w, x >= y)
    ensures op == NumLe ==> Chooses(env, s, w, x <= y)
  {
    CompareVerdict(env, w, s, op, l, r);
    VerdictChooses(env, s, w);
  }

  /** Nothing but != is true of what is not a number. */
  lemma ComparesNaN(env: Env, w: World, s: Stmt, op: TestOp, l: string, r: string)
    requires Compares(env, w, s, op, l, r) && op != StrEq
    requires env.stod(l).Some? && env.stod(r).Some?
    requires env.stod(l) == Some(NaN) || env.stod(r) == Some(NaN)
    ensures Chooses(env, s, w, op == NumNe)
  {
    CompareVerdict(env, w, s, op, l, r);
    VerdictChooses(env, s, w);
  }

  /** The place of a number on a line with the infinities at its ends. */
  function Side(d: Double): int {
    if d.NegInfinity? then -1 else if d.PosInfinity? then 1 else 0
  }

  /** An infinity is below or above everything on another side, and equal to itself. */
  lemma ComparesInfinities(env: Env, w: World, s: Stmt, op: TestOp, l: string, r: string)
    requires Compares(env, w, s, op, l, r) && op != StrEq
    requires env.stod(l).Some? && env.stod(r).Some?
    requires !env.stod(l).value.NaN? && !env.stod(r).value.NaN?
    requires !env.stod(l).value.Finite? || !env.stod(r).value.Finite?
    ensures Chooses(env, s, w,
      TrueOf(op, Side(env.stod(l).value) as real, Side(env.stod(r).value) as real))
  {
    CompareVerdict(env, w, s, op, l, r);
    VerdictChooses(env, s, w);
  }

  /** Strings are equal when they are the same text. */
  lemma ComparesStrings(env: Env, w: World, s: Stmt, l: string, r: string)
    requires Compares(env, w, s, StrEq, l, r)
    ensures Chooses(env, s, w, l == r)
  {
    CompareVerdict(env, w, s, StrEq, l, r);
    VerdictChooses(env, s, w);
  }

  /** A text that is no number fails a numeric comparison, if nothing failed before it on the left. */
  lemma ComparesNoNumber(env: Env, w: World, s: Stmt, op: TestOp, l: string, r: string)
    requires Compares(env, w, s, op, l, r) && op != StrEq
    requires env.stod(l).None? || env.stod(r).None?
    ensures RunOf(env, [s], w) == (w, Failed(InvalidNumber))
  {
    TextIsValue(env, w, s.test.left, l);
    TextIsValue(env, w, s.test.right, r);
    VerdictChooses(env, s, w);
  }

  /** A comparison of an undefined variable fails with its name, or lets the block run if that is ignored. */
  ghost predicate StopsOrEnters(env: Env, s: Stmt, w: World, name: string)
    requires s.If? || s.IfElse?
  {
    if env.ignoreAssignErrors then Chooses(env, s, w, true)
    else RunOf(env, [s], w) == (w, Failed(UndefinedVariable(name)))
  }

  /** The left operand is looked at first, and its number, and then the right one. */
  lemma ComparesUndefined(env: Env, w: World, s: Stmt, l: string)
    requires Formed(s) && (s.If? || s.IfElse?) && s.test.Compare?
    ensures HasNoText(env, w, s.test.left) ==> StopsOrEnters(env, s, w, s.test.left.name)
    ensures HasText(env, w, s.test.left, l) && HasNoText(env, w, s.test.right) ==>
      if s.test.op != StrEq && env.stod(l).None? then RunOf(env, [s], w) == (w, Failed(InvalidNumber))
      else StopsOrEnters(env, s, w, s.test.right.name)
  {
    TextIsValue(env, w, s.test.left, l);
    TextIsValue(env, w, s.test.right, l);
    VerdictChooses(env, s, w);
  }

  /** An exists test is about the variable having a value. */
  lemma TestsExistence(env: Env, w: World, s: Stmt, text: string)
    requires Formed(s) && (s.If? || s.IfElse?) && s.test.Exists?
    ensures HasText(env, w, s.test.hash, text) ==> Chooses(env, s, w, true)
    ensures HasNoText(env, w, s.test.hash) ==> Chooses(env, s, w, false)
  {
    TextIsValue(env, w, s.test.hash, text);
    VerdictChooses(env, s, w);
  }

  // ----- calls -----

  /** The text of a literal, or the name of a hash reference. */
  function TextOf(o: Operand): string {
    match o
    case StringLit(t) => t
    case IntLit(t) => t
    case FloatLit(t) => t
    case HashRef(name) => name
    case HashKV(name, _) => name
  }

  lemma ArgumentIsValue(env: Env, w: World, o: Operand)
    requires IsArgument(o)
    ensures Value(env, w, o) == Some(TextOf(o)) && NameOf(o) == TextOf(o)
  {
    TextIsValue(env, w, o, TextOf(o));
  }

  lemma FourArguments(env: Env, w: World, args: seq<Operand>)
    requires |args| == 4 && forall i :: 0 <= i < |args| ==> IsArgument(args[i])
    ensures Invoke(env, w, XplCmd, args)
         == SendCommand(env, w, TextOf(args[0]), TextOf(args[1]), TextOf(args[2]), TextOf(args[3]))
    ensures NameOf(args[0]) == TextOf(args[0])
  {
    hide Value, NameOf, TextOf, SendCommand;
    ArgumentIsValue(env, w, args[0]);
    ArgumentIsValue(env, w, args[1]);
    ArgumentIsValue(env, w, args[2]);
    ArgumentIsValue(env, w, args[3]);
  }

  /**
   * xplcmd(tag, class, type, \%hash): a command to that tag with that class and
   * type and the pairs of the hash in order, after which the hash is empty.
   * Without a service nothing is sent, and all else is the same.
   */
  lemma SendsCommand(env: Env, w: World, args: seq<Operand>, t: Tag)
    requires |args| == 4 && forall i :: 0 <= i < 4 ==> IsArgument(args[i])
    requires TextOf(args[0]) == Join(t) && Separable(t)
    requires 1 <= |t.vendor| <= 9 && |t.device| <= 8 && |t.instance| <= 8
    requires TextOf(args[3]) in w.store
    ensures
      var hash := TextOf(args[3]);
      var command := Command(t, TextOf(args[1]), TextOf(args[2]), w.store[hash]);
      RunOf(env, [Call(XplCmd, args)], w)
        == (World(w.store[hash := []], w.nv, if env.live then w.log + [command] else w.log, w.calls), Done)
  {
    hide RunOf, Invoke, TextOf, Cut, Join;
    RunOfOne(env, Call(XplCmd, args), w);
    FourArguments(env, w, args);
    CutOfJoin(t);
    assert w.log + [] == w.log;
  }

  /** A tag that is not vendor-device.instance, or has a part of a forbidden length, is named in the failure. */
  lemma RefusesTag(env: Env, w: World, args: seq<Operand>)
    requires |args| == 4 && forall i :: 0 <= i < 4 ==> IsArgument(args[i])
    requires forall t :: Separable(t) && 1 <= |t.vendor| <= 9 && |t.device| <= 8 && |t.instance| <= 8 ==>
                           Join(t) != TextOf(args[0])
    ensures RunOf(env, [Call(XplCmd, args)], w) == (w, Failed(BadTag(TextOf(args[0]))))
  {
    RunOfOne(env, Call(XplCmd, args), w);
    FourArguments(env, w, args);
    assert Cut(TextOf(args[0])).Some? ==> !LengthsAllowed(Cut(TextOf(args[0])).value);
  }

  /** spawn(command): the command is spawned, or named in the failure. */
  lemma Spawns(env: Env, w: World, arg: Operand)
    requires IsArgument(arg)
    ensures RunOf(env, [Call(Spawn, [arg])], w)
         == if env.spawnOk(w.calls) then (w.(log := w.log + [Spawned(TextOf(arg))], calls := w.calls + 1), Done)
            else (w.(calls := w.calls + 1), Failed(SpawnFailed(TextOf(arg))))
  {
    RunOfOne(env, Call(Spawn, [arg]), w);
    ArgumentIsValue(env, w, arg);
  }

  /** xplcmd takes four arguments and spawn one. */
  lemma CountsArguments(env: Env, w: World, fn: Function, args: seq<Operand>)
    requires args != [] && forall i :: 0 <= i < |args| ==> IsArgument(args[i])
    requires |args| != if fn == XplCmd then 4 else 1
    ensures RunOf(env, [Call(fn, args)], w) == (w, Failed(WrongArgCount(fn, |args|)))
  {
    RunOfOne(env, Call(fn, args), w);
  }

  // ----- assignments -----

  /** An undefined variable fails the script with its name, or is passed over. */
  function Missing(env: Env, name: string): Outcome {
    if env.ignoreAssignErrors then Done else Failed(UndefinedVariable(name))
  }

  /** $hash{key} = value: the pair is stored in the hash, and nothing else changes. */
  lemma Stores(env: Env, w: World, name: string, key: string, value: Operand, text: string)
    requires IsRvalue(value) || IsHash(value)
    requires HasText(env, w, value, text) && !(env.hasDb && name == "nvstate")
    ensures
      var pairs := if name in w.store then w.store[name] else [];
      RunOf(env, [Assign(HashKV(name, key), value)], w)
        == (w.(store := w.store[name := Upsert(pairs, key, text)]), Done)
  {
    RunOfOne(env, Assign(HashKV(name, key), value), w);
    TextIsValue(env, w, value, text);
  }

  /** $nvstate{key} = value with a database: the pair is saved there, if the write succeeds. */
  lemma Saves(env: Env, w: World, key: string, value: Operand, text: string)
    requires IsRvalue(value) || IsHash(value)
    requires HasText(env, w, value, text) && env.hasDb
    ensures RunOf(env, [Assign(HashKV("nvstate", key), value)], w)
         == if env.nvWriteOk(w.calls) then (w.(nv := w.nv[key := text], calls := w.calls + 1), Done)
            else (w.(calls := w.calls + 1), Missing(env, "nvstate"))
  {
    RunOfOne(env, Assign(HashKV("nvstate", key), value), w);
    TextIsValue(env, w, value, text);
  }

  /** An undefined value is not stored. */
  lemma StoresNothing(env: Env, w: World, target: Operand, value: Operand)
    requires IsHash(target) && HasNoText(env, w, value)
    ensures RunOf(env, [Assign(target, value)], w) == (w, Missing(env, value.name))
  {
    RunOfOne(env, Assign(target, value), w);
    TextIsValue(env, w, value, "");
  }
}
