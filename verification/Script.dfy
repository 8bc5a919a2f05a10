/**
 * The script language: programs as the grammar builds them (grammar.y) and
 * their meaning, statement by statement, over the abstract store.
 */
module Script {
  import opened Common
  import opened OrderedStore
  import opened XplTag

  // ----- syntax -----

  datatype Operand =
    | StringLit(text: string)
    | IntLit(text: string)
    | FloatLit(text: string)
    | HashKV(name: string, key: string)
    | HashRef(name: string)

  datatype TestOp = NumEq | NumNe | NumGt | NumLt | NumGe | NumLe | StrEq

  datatype Test =
    | Compare(op: TestOp, left: Operand, right: Operand)
    | Exists(hash: Operand)

  datatype Function = XplCmd | Spawn

  datatype Stmt =
    | Call(fn: Function, args: seq<Operand>)
    | Assign(target: Operand, value: Operand)
    | If(test: Test, body: seq<Stmt>)
    | IfElse(test: Test, thn: seq<Stmt>, els: seq<Stmt>)

  predicate IsRvalue(o: Operand) { o.StringLit? || o.IntLit? || o.FloatLit? }
  predicate IsHash(o: Operand) { o.HashKV? }
  predicate IsArgument(o: Operand) { IsRvalue(o) || o.HashRef? }

  predicate TestFormed(t: Test) {
    match t
    case Compare(_, l, r) => (IsHash(l) || IsRvalue(l)) && (IsHash(r) || IsRvalue(r))
    case Exists(h) => IsHash(h)
  }

  /** The statement can be derived from the grammar. */
  predicate Formed(s: Stmt)
    decreases s, 1
  {
    match s
    case Call(_, args) => args != [] && forall i :: 0 <= i < |args| ==> IsArgument(args[i])
    case Assign(target, value) => IsHash(target) && (IsRvalue(value) || IsHash(value))
    case If(test, body) => TestFormed(test) && body != [] && AllFormed(body)
    case IfElse(test, thn, els) =>
      TestFormed(test) && thn != [] && els != [] && AllFormed(thn) && AllFormed(els)
  }

  predicate AllFormed(ss: seq<Stmt>)
    decreases ss, 0
  {
    ss == [] || (Formed(ss[0]) && AllFormed(ss[1..]))
  }

  // ----- the world a script acts on -----

  /** What strtod() can return; comparisons on it are those of IEEE doubles. */
  datatype Double = NaN | NegInfinity | Finite(value: real) | PosInfinity

  predicate Less(a: Double, b: Double) {
    && !a.NaN? && !b.NaN?
    && ( || (a.NegInfinity? && !b.NegInfinity?)
         || (b.PosInfinity? && !a.PosInfinity?)
         || (a.Finite? && b.Finite? && a.value < b.value))
  }

  predicate Equal(a: Double, b: Double) {
    !a.NaN? && a == b
  }

  datatype Event =
    | Command(target: Tag, class_: string, type_: string, pairs: seq<Pair>)
    | Spawned(command: string)

  /** calls counts the database writes and spawns attempted so far. */
  datatype World = World(store: Store, nv: map<string, string>, log: seq<Event>, calls: nat)

  /**
   * hasDb: a database is attached, so "nvstate" is kept there. live: an xPL
   * service is attached, otherwise commands are only checked. The outcomes of
   * database writes and spawns are given by the number of the attempt.
   */
  datatype Env = Env(
    hasDb: bool,
    live: bool,
    ignoreAssignErrors: bool,
    stod: string -> Option<Double>,
    nvWriteOk: nat -> bool,
    spawnOk: nat -> bool)

  datatype Reason =
    | UndefinedVariable(name: string)
    | InvalidNumber
    | WrongArgCount(fn: Function, given: nat)
    | BadTag(tag: string)
    | SpawnFailed(command: string)

  datatype Outcome = Done | Failed(reason: Reason) | Aborted

  // ----- meaning -----

  predicate IsNvState(env: Env, name: string) {
    env.hasDb && name == "nvstate"
  }

  function Read(env: Env, w: World, name: string, key: string): Option<string> {
    if IsNvState(env, name) then
      if key in w.nv then Some(w.nv[key]) else None
    else
      Lookup(w.store, name, key)
  }

  function Write(env: Env, w: World, name: string, key: string, value: string): (World, bool) {
    if IsNvState(env, name) then
      if env.nvWriteOk(w.calls) then (w.(nv := w.nv[key := value], calls := w.calls + 1), true)
      else (w.(calls := w.calls + 1), false)
    else
      (w.(store := Put(w.store, name, key, value)), true)
  }

  function Value(env: Env, w: World, o: Operand): Option<string> {
    match o
    case HashKV(name, key) => Read(env, w, name, key)
    case HashRef(name) => Some(name)
    case _ => Some(o.text)
  }

  function NameOf(o: Operand): string {
    if o.HashKV? || o.HashRef? then o.name else o.text
  }

  function Undefined(env: Env, name: string): Outcome {
    if env.ignoreAssignErrors then Done else Failed(UndefinedVariable(name))
  }

  predicate Holds(env: Env, op: TestOp, l: string, r: string)
    requires op != StrEq ==> env.stod(l).Some? && env.stod(r).Some?
  {
    if op == StrEq then l == r
    else
      var a, b := env.stod(l).value, env.stod(r).value;
      match op
      case NumEq => Equal(a, b)
      case NumNe => !Equal(a, b)
      case NumGt => Less(b, a)
      case NumLt => Less(a, b)
      case NumGe => Less(b, a) || Equal(a, b)
      case NumLe => Less(a, b) || Equal(a, b)
  }

  datatype Verdict = Yes | No | Unset(name: string) | NotNumeric

  function Judge(env: Env, w: World, t: Test): Verdict {
    match t
    case Exists(h) => if Value(env, w, h).Some? then Yes else No
    case Compare(op, left, right) =>
      var l, r := Value(env, w, left), Value(env, w, right);
      if l.None? then Unset(NameOf(left))
      else if op != StrEq && env.stod(l.value).None? then NotNumeric
      else if r.None? then Unset(NameOf(right))
      else if op != StrEq && env.stod(r.value).None? then NotNumeric
      else if Holds(env, op, l.value, r.value) then Yes else No
  }

  /** Sends the pairs of a hash as a command, and empties the hash. */
  function SendCommand(env: Env, w: World, tag: string, class_: string, type_: string, hash: string)
    : (World, Outcome)
  {
    var target := Cut(tag);
    if target.None? || !LengthsAllowed(target.value) then (w, Failed(BadTag(tag)))
    else if hash !in w.store then (w, Aborted)
    else
      var sent := if env.live then [Command(target.value, class_, type_, w.store[hash])] else [];
      (w.(store := Clear(w.store, hash), log := w.log + sent), Done)
  }

  function SpawnCommand(env: Env, w: World, command: string): (World, Outcome) {
    var w' := w.(calls := w.calls + 1);
    if env.spawnOk(w.calls) then (w'.(log := w.log + [Spawned(command)]), Done)
    else (w', Failed(SpawnFailed(command)))
  }

  function ArgsNeeded(fn: Function): nat {
    if fn == XplCmd then 4 else 1
  }

  /** Arguments are retrieved with an assertion that they have a value. */
  function Invoke(env: Env, w: World, fn: Function, args: seq<Operand>): (World, Outcome) {
    if |args| != ArgsNeeded(fn) then (w, Failed(WrongArgCount(fn, |args|)))
    else if exists i :: 0 <= i < |args| && Value(env, w, args[i]).None? then (w, Aborted)
    else
      var values := seq(|args|, i requires 0 <= i < |args| => Value(env, w, args[i]).value);
      if fn == XplCmd then SendCommand(env, w, values[0], values[1], values[2], values[3])
      else SpawnCommand(env, w, values[0])
  }

  function AssignTo(env: Env, w: World, target: Operand, value: Operand): (World, Outcome) {
    var v := Value(env, w, value);
    if v.None? then (w, Undefined(env, NameOf(value)))
    else if !target.HashKV? then (w, Undefined(env, NameOf(target)))
    else
      var (w', ok) := Write(env, w, target.name, target.key, v.value);
      (w', if ok then Done else Undefined(env, target.name))
  }

  function ExecStmt(env: Env, s: Stmt, w: World): (World, Outcome)
    decreases s, 1
  {
    match s
    case Call(fn, args) => Invoke(env, w, fn, args)
    case Assign(target, value) => AssignTo(env, w, target, value)
    case If(test, body) =>
      (match Judge(env, w, test)
       case Yes => ExecBlock(env, body, w)
       case No => (w, Done)
       case NotNumeric => (w, Failed(InvalidNumber))
       case Unset(name) => if env.ignoreAssignErrors then ExecBlock(env, body, w)
                           else (w, Failed(UndefinedVariable(name))))
    case IfElse(test, thn, els) =>
      (match Judge(env, w, test)
       case Yes => ExecBlock(env, thn, w)
       case No => ExecBlock(env, els, w)
       case NotNumeric => (w, Failed(InvalidNumber))
       case Unset(name) => if env.ignoreAssignErrors then ExecBlock(env, thn, w)
                           else (w, Failed(UndefinedVariable(name))))
  }

  function ExecBlock(env: Env, ss: seq<Stmt>, w: World): (World, Outcome)
    decreases ss, 0
  {
    if ss == [] then (w, Done)
    else
      var (w', outcome) := ExecStmt(env, ss[0], w);
      if outcome.Done? then ExecBlock(env, ss[1..], w') else (w', outcome)
  }
}
