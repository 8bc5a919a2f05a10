/**
 * When a script trips the assertion of xplcmd on a hash that was never stored
 * to: a condition on the text of the script that excludes it, and the exact
 * condition on a run.
 */
module Aborts {
  import opened XplTag
  import opened Script
  import opened Interpreter

  /** An xplcmd that gets as far as looking its hash up. */
  predicate Sends(s: Stmt) {
    && s.Call? && s.fn == XplCmd && |s.args| == 4
    && Cut(NameOf(s.args[0])).Some? && LengthsAllowed(Cut(NameOf(s.args[0])).value)
  }

  function SentHash(s: Stmt): string
    requires Sends(s)
  {
    NameOf(s.args[3])
  }

  // ----- the hashes surely stored to -----

  /** The hash of a variable, unless it is kept in the database. */
  function HashOf(env: Env, o: Operand): set<string> {
    if o.HashKV? && !IsNvState(env, o.name) then {o.name} else {}
  }

  /** The hashes that must be there for a test to let its block run, or to pass over it. */
  function Established(env: Env, t: Test, holds: bool): set<string> {
    match t
    case Exists(h) => if holds then HashOf(env, h) else {}
    case Compare(_, l, r) =>
      // An ignored undefined operand lets the block run.
      if holds && env.ignoreAssignErrors then {} else HashOf(env, l) + HashOf(env, r)
  }

  /** The hashes surely there after a statement that did not fail. */
  function SurelyAfter(env: Env, s: Stmt, names: set<string>): set<string>
    decreases s, 1
  {
    match s
    case Call(_, _) => names
    case Assign(target, value) =>
      // An undefined value may be ignored, and then nothing is stored.
      if env.ignoreAssignErrors && value.HashKV? then names
      else names + HashOf(env, target) + HashOf(env, value)
    case If(t, body) =>
      SurelyAfterAll(env, body, names + Established(env, t, true)) * (names + Established(env, t, false))
    case IfElse(t, thn, els) =>
      SurelyAfterAll(env, thn, names + Established(env, t, true))
      * SurelyAfterAll(env, els, names + Established(env, t, false))
  }

  function SurelyAfterAll(env: Env, ss: seq<Stmt>, names: set<string>): set<string>
    decreases ss, 0
  {
    if ss == [] then names else SurelyAfterAll(env, ss[1..], SurelyAfter(env, ss[0], names))
  }

  /** Every xplcmd sends a hash that is surely there when it is reached. */
  predicate SendsStored(env: Env, s: Stmt, names: set<string>)
    decreases s, 1
  {
    match s
    case Call(_, _) => Sends(s) ==> SentHash(s) in names
    case Assign(_, _) => true
    case If(t, body) => AllSendStored(env, body, names + Established(env, t, true))
    case IfElse(t, thn, els) =>
      && AllSendStored(env, thn, names + Established(env, t, true))
      && AllSendStored(env, els, names + Established(env, t, false))
  }

  predicate AllSendStored(env: Env, ss: seq<Stmt>, names: set<string>)
    decreases ss, 0
  {
    ss == [] || (SendsStored(env, ss[0], names) && AllSendStored(env, ss[1..], SurelyAfter(env, ss[0], names)))
  }

  /** A variable with a value has its hash in the store. */
  lemma ValueStored(env: Env, w: World, o: Operand)
    requires Value(env, w, o).Some?
    ensures HashOf(env, o) <= w.store.Keys
  {
  }

  lemma TestEstablishes(env: Env, w: World, t: Test)
    ensures Judge(env, w, t).Yes? ==> Established(env, t, true) <= w.store.Keys
    ensures Judge(env, w, t).No? ==> Established(env, t, false) <= w.store.Keys
    ensures Judge(env, w, t).Unset? && env.ignoreAssignErrors ==> Established(env, t, true) == {}
  {
    if t.Compare? {
      if Value(env, w, t.left).Some? {
        ValueStored(env, w, t.left);
      }
      if Value(env, w, t.right).Some? {
        ValueStored(env, w, t.right);
      }
    } else if Value(env, w, t.hash).Some? {
      ValueStored(env, w, t.hash);
    }
  }

  lemma AssignStores(env: Env, w: World, target: Operand, value: Operand, names: set<string>)
    requires IsHash(target) && names <= w.store.Keys
    ensures
      var (w', outcome) := AssignTo(env, w, target, value);
      !outcome.Aborted? && (outcome.Done? ==> SurelyAfter(env, Assign(target, value), names) <= w'.store.Keys)
  {
    if Value(env, w, value).Some? {
      ValueStored(env, w, value);
    }
  }

  lemma {:induction false} StmtNeverAborts(env: Env, s: Stmt, w: World, names: set<string>)
    requires Formed(s) && SendsStored(env, s, names) && names <= w.store.Keys
    ensures
      var (w', outcome) := ExecStmt(env, s, w);
      !outcome.Aborted? && (outcome.Done? ==> SurelyAfter(env, s, names) <= w'.store.Keys)
    decreases s, 1
  {
    match s
    case Call(fn, args) =>
      InvokeAborts(env, w, fn, args);
      CallKeeps(env, w, fn, args);
    case Assign(target, value) => AssignStores(env, w, target, value, names);
    case If(t, body) =>
      TestEstablishes(env, w, t);
      var verdict := Judge(env, w, t);
      if verdict.Yes? || (verdict.Unset? && env.ignoreAssignErrors) {
        NeverAborts(env, body, w, names + Established(env, t, true));
      }
    case IfElse(t, thn, els) =>
      TestEstablishes(env, w, t);
      var verdict := Judge(env, w, t);
      if verdict.Yes? || (verdict.Unset? && env.ignoreAssignErrors) {
        NeverAborts(env, thn, w, names + Established(env, t, true));
      } else if verdict.No? {
        NeverAborts(env, els, w, names + Established(env, t, false));
      }
  }

  lemma CallKeeps(env: Env, w: World, fn: Function, args: seq<Operand>)
    ensures Invoke(env, w, fn, args).0.store.Keys == w.store.Keys
  {
  }

  /**
   * A script whose every xplcmd sends a hash that is surely there by then, from
   * before the script or from the statements passed on the way, never trips
   * the assertion. This holds in both error modes, each with what it ensures.
   */
  lemma {:induction false} NeverAborts(env: Env, ss: seq<Stmt>, w: World, names: set<string>)
    requires AllFormed(ss) && AllSendStored(env, ss, names) && names <= w.store.Keys
    ensures
      var (w', outcome) := ExecBlock(env, ss, w);
      !outcome.Aborted? && (outcome.Done? ==> SurelyAfterAll(env, ss, names) <= w'.store.Keys)
    decreases ss, 0
  {
    if ss != [] {
      StmtNeverAborts(env, ss[0], w, names);
      var (w1, outcome) := ExecStmt(env, ss[0], w);
      if outcome.Done? {
        NeverAborts(env, ss[1..], w1, SurelyAfter(env, ss[0], names));
      }
    }
  }

  // ----- the calls and assignments of a run -----

  /** A call or assignment that a run comes to, and the world it finds. */
  datatype Visit = Visit(s: Stmt, before: World)

  function Trace(env: Env, s: Stmt, w: World): seq<Visit>
    decreases s, 1
  {
    match s
    case Call(_, _) => [Visit(s, w)]
    case Assign(_, _) => [Visit(s, w)]
    case If(t, body) =>
      (match Judge(env, w, t)
       case Yes => TraceAll(env, body, w)
       case Unset(_) => if env.ignoreAssignErrors then TraceAll(env, body, w) else []
       case _ => [])
    case IfElse(t, thn, els) =>
      (match Judge(env, w, t)
       case Yes => TraceAll(env, thn, w)
       case Unset(_) => if env.ignoreAssignErrors then TraceAll(env, thn, w) else []
       case No => TraceAll(env, els, w)
       case NotNumeric => [])
  }

  function TraceAll(env: Env, ss: seq<Stmt>, w: World): seq<Visit>
    decreases ss, 0
  {
    if ss == [] then []
    else
      var (w', outcome) := ExecStmt(env, ss[0], w);
      Trace(env, ss[0], w) + if outcome.Done? then TraceAll(env, ss[1..], w') else []
  }

  /** The world behind the first k visits. */
  function WorldAfter(env: Env, trace: seq<Visit>, w: World, k: nat): World
    requires k <= |trace|
  {
    if k == 0 then w else ExecStmt(env, trace[k - 1].s, trace[k - 1].before).0
  }

  ghost predicate Linked(env: Env, trace: seq<Visit>, w: World, k: nat)
    requires k < |trace|
  {
    trace[k].before == WorldAfter(env, trace, w, k)
  }

  /** Each visit finds the world that the one before it left, and the last leaves w'. */
  ghost predicate Chained(env: Env, trace: seq<Visit>, w: World, w': World) {
    (forall k: nat :: k < |trace| ==> Linked(env, trace, w, k)) && WorldAfter(env, trace, w, |trace|) == w'
  }

  ghost predicate AbortsAt(env: Env, trace: seq<Visit>, k: nat) {
    k < |trace| && ExecStmt(env, trace[k].s, trace[k].before).1.Aborted?
  }

  ghost predicate HasAbort(env: Env, trace: seq<Visit>) {
    exists k: nat :: AbortsAt(env, trace, k)
  }

  predicate AllFormedVisits(trace: seq<Visit>) {
    forall k :: 0 <= k < |trace| ==> Formed(trace[k].s) && (trace[k].s.Call? || trace[k].s.Assign?)
  }

  lemma ChainedJoin(env: Env, a: seq<Visit>, b: seq<Visit>, w: World, w1: World, w2: World)
    requires Chained(env, a, w, w1) && Chained(env, b, w1, w2)
    ensures Chained(env, a + b, w, w2)
    ensures HasAbort(env, a + b) <==> HasAbort(env, a) || HasAbort(env, b)
  {
    var ab := a + b;
    forall k: nat | k < |ab| ensures Linked(env, ab, w, k) {
      if k < |a| {
        assert Linked(env, a, w, k);
      } else {
        assert Linked(env, b, w1, k - |a|);
        assert ab[k] == b[k - |a|];
      }
    }
    forall k: nat ensures AbortsAt(env, ab, k) <==> AbortsAt(env, a, k) || (k >= |a| && AbortsAt(env, b, k - |a|)) {
    }
    if HasAbort(env, b) {
      var k: nat :| AbortsAt(env, b, k);
      assert AbortsAt(env, ab, |a| + k);
    }
  }

  lemma {:induction false} StmtTraced(env: Env, s: Stmt, w: World)
    requires Formed(s)
    ensures Chained(env, Trace(env, s, w), w, ExecStmt(env, s, w).0)
    ensures ExecStmt(env, s, w).1.Aborted? <==> HasAbort(env, Trace(env, s, w))
    ensures AllFormedVisits(Trace(env, s, w))
    decreases s, 1
  {
    var verdict := if s.If? || s.IfElse? then Judge(env, w, s.test) else No;
    if s.Call? || s.Assign? {
      LeafTraced(env, s, w);
    } else if verdict.Yes? || (verdict.Unset? && env.ignoreAssignErrors) {
      BlockTraced(env, if s.If? then s.body else s.thn, w);
    } else if verdict.No? && s.IfElse? {
      BlockTraced(env, s.els, w);
    }
  }

  lemma LeafTraced(env: Env, s: Stmt, w: World)
    requires s.Call? || s.Assign?
    ensures Chained(env, [Visit(s, w)], w, ExecStmt(env, s, w).0)
    ensures ExecStmt(env, s, w).1.Aborted? <==> HasAbort(env, [Visit(s, w)])
  {
    var trace := [Visit(s, w)];
    assert AbortsAt(env, trace, 0) <==> ExecStmt(env, s, w).1.Aborted?;
  }

  lemma {:induction false} BlockTraced(env: Env, ss: seq<Stmt>, w: World)
    requires AllFormed(ss)
    ensures Chained(env, TraceAll(env, ss, w), w, ExecBlock(env, ss, w).0)
    ensures ExecBlock(env, ss, w).1.Aborted? <==> HasAbort(env, TraceAll(env, ss, w))
    ensures AllFormedVisits(TraceAll(env, ss, w))
    decreases ss, 0
  {
    if ss != [] {
      var (w1, outcome) := ExecStmt(env, ss[0], w);
      var first := Trace(env, ss[0], w);
      StmtTraced(env, ss[0], w);
      if outcome.Done? {
        var rest := TraceAll(env, ss[1..], w1);
        BlockTraced(env, ss[1..], w1);
        ChainedJoin(env, first, rest, w, w1, ExecBlock(env, ss, w).0);
      } else {
        assert TraceAll(env, ss, w) == first + [] == first;
      }
    }
  }

  /** The visit stores a value in the hash. */
  predicate StoresTo(env: Env, v: Visit, name: string) {
    v.s.Assign? && HashOf(env, v.s.target) == {name} && Value(env, v.before, v.s.value).Some?
  }

  ghost predicate StoredBefore(env: Env, trace: seq<Visit>, k: nat, name: string) {
    exists j: nat :: j < k && j < |trace| && StoresTo(env, trace[j], name)
  }

  /** Calls neither define nor undefine a hash; an assignment defines the one it stores to. */
  lemma VisitKeys(env: Env, v: Visit, name: string)
    requires Formed(v.s) && (v.s.Call? || v.s.Assign?)
    ensures name in ExecStmt(env, v.s, v.before).0.store <==> name in v.before.store || StoresTo(env, v, name)
  {
    if v.s.Call? {
      CallKeeps(env, v.before, v.s.fn, v.s.args);
    }
  }

  lemma {:induction false} KeysAlong(env: Env, trace: seq<Visit>, w: World, w': World, k: nat, name: string)
    requires Chained(env, trace, w, w') && AllFormedVisits(trace) && k < |trace|
    ensures name in trace[k].before.store <==> name in w.store || StoredBefore(env, trace, k, name)
    decreases k
  {
    assert Linked(env, trace, w, k);
    if k > 0 {
      KeysAlong(env, trace, w, w', k - 1, name);
      VisitKeys(env, trace[k - 1], name);
    }
  }

  /** The run comes to an xplcmd whose hash is neither there from the start nor stored to on the way. */
  ghost predicate SendsUnstored(env: Env, trace: seq<Visit>, w: World, k: nat) {
    && k < |trace| && Sends(trace[k].s)
    && SentHash(trace[k].s) !in w.store && !StoredBefore(env, trace, k, SentHash(trace[k].s))
  }

  /** A run trips the assertion if and only if it comes to such an xplcmd. */
  lemma AbortsExactly(env: Env, ss: seq<Stmt>, w: World)
    requires AllFormed(ss)
    ensures ExecBlock(env, ss, w).1.Aborted?
       <==> exists k: nat :: SendsUnstored(env, TraceAll(env, ss, w), w, k)
  {
    var trace := TraceAll(env, ss, w);
    BlockTraced(env, ss, w);
    forall k: nat ensures AbortsAt(env, trace, k) <==> SendsUnstored(env, trace, w, k) {
      if k < |trace| {
        VisitAborts(env, trace[k]);
        if Sends(trace[k].s) {
          KeysAlong(env, trace, w, ExecBlock(env, ss, w).0, k, SentHash(trace[k].s));
        }
      }
    }
  }

  lemma VisitAborts(env: Env, v: Visit)
    requires Formed(v.s) && (v.s.Call? || v.s.Assign?)
    ensures ExecStmt(env, v.s, v.before).1.Aborted? <==> Sends(v.s) && SentHash(v.s) !in v.before.store
  {
    if v.s.Call? {
      InvokeAborts(env, v.before, v.s.fn, v.s.args);
    }
  }

  // ----- examples -----

  function SendCommandOf(tag: Tag, hash: string): Stmt {
    Call(XplCmd, [StringLit(Join(tag)), StringLit("control"), StringLit("basic"), HashRef(hash)])
  }

  lemma SendAborts(env: Env, w: World, tag: Tag, hash: string)
    requires Separable(tag) && LengthsAllowed(tag)
    ensures Formed(SendCommandOf(tag, hash))
    ensures ExecStmt(env, SendCommandOf(tag, hash), w).1.Aborted? <==> hash !in w.store
  {
    CutOfJoin(tag);
    VisitAborts(env, Visit(SendCommandOf(tag, hash), w));
  }

  /** Sending a hash that nothing was stored in trips the assertion, in either mode. */
  lemma UnstoredSendAborts(env: Env, w: World, tag: Tag, hash: string)
    requires Separable(tag) && LengthsAllowed(tag) && hash !in w.store
    ensures Formed(SendCommandOf(tag, hash)) && ExecBlock(env, [SendCommandOf(tag, hash)], w).1.Aborted?
  {
    SendAborts(env, w, tag, hash);
  }

  lemma OneStatement(env: Env, a: Stmt, w: World, names: set<string>)
    ensures ExecBlock(env, [a], w) == ExecStmt(env, a, w)
    ensures AllFormed([a]) <==> Formed(a)
    ensures AllSendStored(env, [a], names) <==> SendsStored(env, a, names)
  {
    assert [a][1..] == [];
  }

  lemma TwoStatements(env: Env, a: Stmt, b: Stmt, w: World, names: set<string>)
    ensures
      var (w1, outcome) := ExecStmt(env, a, w);
      ExecBlock(env, [a, b], w) == if outcome.Done? then ExecStmt(env, b, w1) else (w1, outcome)
    ensures AllFormed([a, b]) <==> Formed(a) && Formed(b)
    ensures AllSendStored(env, [a, b], names)
       <==> SendsStored(env, a, names) && SendsStored(env, b, SurelyAfter(env, a, names))
  {
    assert [a, b][1..] == [b];
    OneStatement(env, b, ExecStmt(env, a, w).0, SurelyAfter(env, a, names));
  }

  /** Filling a hash from a literal and sending it does not, from any variables. */
  lemma FillThenSend(env: Env, w: World, tag: Tag, hash: string, key: string, value: string)
    requires hash != "nvstate"
    ensures !ExecBlock(env, [Assign(HashKV(hash, key), StringLit(value)), SendCommandOf(tag, hash)], w).1.Aborted?
  {
    var fill, send := Assign(HashKV(hash, key), StringLit(value)), SendCommandOf(tag, hash);
    TwoStatements(env, fill, send, w, {});
    assert hash in SurelyAfter(env, fill, {});
    NeverAborts(env, [fill, send], w, {});
  }

  /**
   * Filling it from a variable does not in the normal mode; with errors ignored
   * it does, if the variable is not set.
   */
  lemma FillFromVariable(env: Env, w: World, tag: Tag, hash: string, key: string, source: Operand)
    requires Separable(tag) && LengthsAllowed(tag) && IsHash(source) && hash != "nvstate" && hash !in w.store
    ensures
      var program := [Assign(HashKV(hash, key), source), SendCommandOf(tag, hash)];
      ExecBlock(env, program, w).1.Aborted? <==> env.ignoreAssignErrors && Value(env, w, source).None?
  {
    var fill, send := Assign(HashKV(hash, key), source), SendCommandOf(tag, hash);
    var w1 := ExecStmt(env, fill, w).0;
    TwoStatements(env, fill, send, w, {});
    VisitKeys(env, Visit(fill, w), hash);
    VisitAborts(env, Visit(fill, w));
    SendAborts(env, w1, tag, hash);
  }
}
