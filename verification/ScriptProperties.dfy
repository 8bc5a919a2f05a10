/**
 * What holds of every run of every script: nothing happens after a failure,
 * what was sent stays sent, and how the two error modes compare. Since
 * compiled code does what the program means, all of it holds of the p-code.
 */
module ScriptProperties {
  import opened Script
  import opened Pcode
  import opened PcodeMachine
  import opened Interpreter

  /** A list of statements runs its first part, and the rest only if that ends without failure. */
  lemma {:induction false} RunsInOrder(env: Env, ss: seq<Stmt>, tt: seq<Stmt>, w: World)
    ensures
      var (w', outcome) := ExecBlock(env, ss, w);
      ExecBlock(env, ss + tt, w) == if outcome.Done? then ExecBlock(env, tt, w') else (w', outcome)
    decreases ss
  {
    if ss == [] {
      assert ss + tt == tt;
    } else {
      assert (ss + tt)[1..] == ss[1..] + tt;
      RunsInOrder(env, ss[1..], tt, ExecStmt(env, ss[0], w).0);
    }
  }

  lemma {:induction false} AllFormedAppend(ss: seq<Stmt>, tt: seq<Stmt>)
    ensures AllFormed(ss + tt) <==> AllFormed(ss) && AllFormed(tt)
    decreases ss
  {
    if ss == [] {
      assert ss + tt == tt;
    } else {
      assert (ss + tt)[1..] == ss[1..] + tt;
      AllFormedAppend(ss[1..], tt);
    }
  }

  /** Code that fails in its first part leaves the world as if the rest had not been there. */
  lemma FailStop(env: Env, ss: seq<Stmt>, tt: seq<Stmt>, w: World)
    requires AllFormed(ss) && AllFormed(tt) && !ExecBlock(env, ss, w).1.Done?
    ensures AllFormed(ss + tt) && ForwardJumps(Compiled(ss)) && ForwardJumps(Compiled(ss + tt))
    ensures
      var alone, longer := Run(env, Compiled(ss), Start(w)), Run(env, Compiled(ss + tt), Start(w));
      longer.w == alone.w && longer.outcome == alone.outcome
  {
    AllFormedAppend(ss, tt);
    CompiledCorrect(env, ss, w);
    CompiledCorrect(env, ss + tt, w);
    RunsInOrder(env, ss, tt, w);
  }

  // ----- what a run keeps -----

  /** Nothing sent or spawned is taken back, and a hash once stored to stays defined. */
  ghost predicate Extends(w: World, w': World) {
    w.log <= w'.log && w.store.Keys <= w'.store.Keys && w.nv.Keys <= w'.nv.Keys && w.calls <= w'.calls
  }

  lemma CallExtends(env: Env, fn: Function, args: seq<Operand>, w: World)
    ensures Extends(w, Invoke(env, w, fn, args).0)
  {
  }

  lemma {:induction false} StmtExtends(env: Env, s: Stmt, w: World)
    ensures Extends(w, ExecStmt(env, s, w).0)
    decreases s, 1
  {
    match s
    case Call(fn, args) => CallExtends(env, fn, args, w);
    case Assign(_, _) =>
    case If(_, body) => BlockExtends(env, body, w);
    case IfElse(_, thn, els) =>
      BlockExtends(env, thn, w);
      BlockExtends(env, els, w);
  }

  lemma {:induction false} BlockExtends(env: Env, ss: seq<Stmt>, w: World)
    ensures Extends(w, ExecBlock(env, ss, w).0)
    decreases ss, 0
  {
    if ss != [] {
      StmtExtends(env, ss[0], w);
      BlockExtends(env, ss[1..], ExecStmt(env, ss[0], w).0);
    }
  }

  // ----- the two error modes -----

  predicate Undef(o: Outcome) {
    o.Failed? && o.reason.UndefinedVariable?
  }

  function Strict(env: Env): Env {
    env.(ignoreAssignErrors := false)
  }

  function Lenient(env: Env): Env {
    env.(ignoreAssignErrors := true)
  }

  lemma CallModes(env: Env, fn: Function, args: seq<Operand>, w: World)
    ensures Invoke(Lenient(env), w, fn, args) == Invoke(Strict(env), w, fn, args)
    ensures !Undef(Invoke(Strict(env), w, fn, args).1)
  {
    var strict, lenient := Strict(env), Lenient(env);
    assert forall i :: 0 <= i < |args| ==> Value(strict, w, args[i]) == Value(lenient, w, args[i]);
    if !(exists i :: 0 <= i < |args| && Value(strict, w, args[i]).None?) {
      assert seq(|args|, i requires 0 <= i < |args| => Value(strict, w, args[i]).value)
          == seq(|args|, i requires 0 <= i < |args| => Value(lenient, w, args[i]).value);
    }
  }

  lemma AssignModes(env: Env, target: Operand, value: Operand, w: World)
    ensures
      var (w', outcome) := AssignTo(Strict(env), w, target, value);
      AssignTo(Lenient(env), w, target, value) == (w', if Undef(outcome) then Done else outcome)
  {
  }

  lemma JudgeModes(env: Env, w: World, t: Test)
    ensures Judge(Lenient(env), w, t) == Judge(Strict(env), w, t)
  {
  }

  lemma {:induction false} StmtModes(env: Env, s: Stmt, w: World)
    ensures !Undef(ExecStmt(Lenient(env), s, w).1)
    ensures !Undef(ExecStmt(Strict(env), s, w).1) ==> ExecStmt(Lenient(env), s, w) == ExecStmt(Strict(env), s, w)
    decreases s, 1
  {
    match s
    case Call(fn, args) => CallModes(env, fn, args, w);
    case Assign(target, value) => AssignModes(env, target, value, w);
    case If(test, body) =>
      JudgeModes(env, w, test);
      ModesAgree(env, body, w);
    case IfElse(test, thn, els) =>
      JudgeModes(env, w, test);
      ModesAgree(env, thn, w);
      ModesAgree(env, els, w);
  }

  /**
   * Ignoring assignment errors, no script fails for an undefined variable; and
   * a script that does not fail so in the normal mode runs exactly alike.
   */
  lemma {:induction false} ModesAgree(env: Env, ss: seq<Stmt>, w: World)
    ensures !Undef(ExecBlock(Lenient(env), ss, w).1)
    ensures !Undef(ExecBlock(Strict(env), ss, w).1) ==> ExecBlock(Lenient(env), ss, w) == ExecBlock(Strict(env), ss, w)
    decreases ss, 0
  {
    if ss != [] {
      StmtModes(env, ss[0], w);
      ModesAgree(env, ss[1..], ExecStmt(Lenient(env), ss[0], w).0);
    }
  }
}
