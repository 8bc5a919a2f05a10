/**
 * The whole effect of a run of a compiled script, as a record read off the
 * calls and assignments that the run comes to.
 */
module ScriptRecord {
  import opened Common
  import opened OrderedStore
  import opened XplTag
  import opened Script
  import opened Aborts
  import opened ScriptMeaning

  /**
   * What the calls and assignments of a run did: updates of hashes, pairs saved
   * in the database, the number of attempted writes and spawns, and what went
   * out, each in order.
   */
  datatype Record = Record(updates: seq<Update>, saved: seq<Pair>, attempts: nat, sent: seq<Event>)

  const NOTHING := Record([], [], 0, [])

  /** The last pair saved under the key, or what was there at the start. */
  function LastSaved(start: map<string, string>, saved: seq<Pair>, key: string): Option<string>
    decreases |saved|
  {
    if saved == [] then if key in start then Some(start[key]) else None
    else
      var last := saved[|saved| - 1];
      if last.key == key then Some(last.value) else LastSaved(start, saved[..|saved| - 1], key)
  }

  /** The database with the pairs saved in it. */
  function SavedIn(start: map<string, string>, saved: seq<Pair>): map<string, string>
    decreases |saved|
  {
    if saved == [] then start
    else
      var last := saved[|saved| - 1];
      SavedIn(start, saved[..|saved| - 1])[last.key := last.value]
  }

  /** The text of an operand after what is recorded. */
  function TextAfter(env: Env, start: World, r: Record, o: Operand): Option<string> {
    match o
    case HashKV(name, key) =>
      if env.hasDb && name == "nvstate" then LastSaved(start.nv, r.saved, key)
      else LastStored(start.store, r.updates, name, key)
    case _ => Some(TextOf(o))
  }

  function RecordAssign(env: Env, start: World, r: Record, name: string, key: string, text: string): Record {
    if env.hasDb && name == "nvstate" then
      if env.nvWriteOk(start.calls + r.attempts)
      then r.(saved := r.saved + [Pair(key, text)], attempts := r.attempts + 1)
      else r.(attempts := r.attempts + 1)
    else r.(updates := r.updates + [PutUpdate(name, key, text)])
  }

  function RecordSpawn(env: Env, start: World, r: Record, command: string): Record {
    if env.spawnOk(start.calls + r.attempts)
    then r.(sent := r.sent + [Spawned(command)], attempts := r.attempts + 1)
    else r.(attempts := r.attempts + 1)
  }

  /** A command carries what the hash holds by then. */
  function RecordSend(env: Env, start: World, r: Record, t: Tag, class_: string, type_: string, hash: string): Record {
    if !EverStored(start.store, r.updates, hash) then r
    else
      var command := Command(t, class_, type_, Contents(Replay(start.store, r.updates), hash));
      r.(updates := r.updates + [ClearUpdate(hash)], sent := if env.live then r.sent + [command] else r.sent)
  }

  function RecordLeaf(env: Env, start: World, r: Record, s: Stmt): Record {
    match s
    case Assign(HashKV(name, key), value) =>
      var text := TextAfter(env, start, r, value);
      if text.None? then r else RecordAssign(env, start, r, name, key, text.value)
    case Call(fn, args) =>
      if fn == Spawn then if |args| == 1 then RecordSpawn(env, start, r, TextOf(args[0])) else r
      else if Sends(s) then
        RecordSend(env, start, r, Cut(TextOf(args[0])).value, TextOf(args[1]), TextOf(args[2]), TextOf(args[3]))
      else r
    case _ => r
  }

  /** The record of the calls and assignments that a run comes to. */
  function Recorded(env: Env, start: World, trace: seq<Visit>): Record
    decreases |trace|
  {
    if trace == [] then NOTHING
    else RecordLeaf(env, start, Recorded(env, start, trace[..|trace| - 1]), trace[|trace| - 1].s)
  }

  /** The start, with everything that is recorded done to it. */
  function WorldOf(start: World, r: Record): World {
    World(Replay(start.store, r.updates), SavedIn(start.nv, r.saved), start.log + r.sent, start.calls + r.attempts)
  }

  lemma {:induction false} SavedLookup(start: map<string, string>, saved: seq<Pair>, key: string)
    ensures LastSaved(start, saved, key)
         == if key in SavedIn(start, saved) then Some(SavedIn(start, saved)[key]) else None
    decreases |saved|
  {
    if saved != [] {
      SavedLookup(start, saved[..|saved| - 1], key);
    }
  }

  lemma TextAfterValue(env: Env, start: World, r: Record, o: Operand)
    ensures TextAfter(env, start, r, o) == Value(env, WorldOf(start, r), o)
  {
    if o.HashKV? {
      SavedLookup(start.nv, r.saved, o.key);
      ReplayLookup(start.store, r.updates, o.name, o.key);
    }
  }

  lemma UpdateRecorded(start: World, r: Record, name: string, key: string, text: string)
    ensures
      var w := WorldOf(start, r);
      WorldOf(start, r.(updates := r.updates + [PutUpdate(name, key, text)]))
        == w.(store := Put(w.store, name, key, text))
  {
    var updates := r.updates + [PutUpdate(name, key, text)];
    assert updates[..|updates| - 1] == r.updates;
  }

  lemma SaveRecorded(start: World, r: Record, key: string, text: string)
    ensures SavedIn(start.nv, r.saved + [Pair(key, text)]) == SavedIn(start.nv, r.saved)[key := text]
  {
    var saved := r.saved + [Pair(key, text)];
    assert saved[..|saved| - 1] == r.saved;
  }

  lemma WriteRecorded(env: Env, start: World, r: Record, name: string, key: string, text: string)
    ensures Write(env, WorldOf(start, r), name, key, text).0
         == WorldOf(start, RecordAssign(env, start, r, name, key, text))
  {
    hide Put, Replay, SavedIn;
    if env.hasDb && name == "nvstate" {
      SaveRecorded(start, r, key, text);
    } else {
      UpdateRecorded(start, r, name, key, text);
    }
  }

  lemma AssignRecorded(env: Env, start: World, r: Record, target: Operand, value: Operand)
    requires IsHash(target)
    ensures AssignTo(env, WorldOf(start, r), target, value).0
         == WorldOf(start, RecordLeaf(env, start, r, Assign(target, value)))
  {
    hide Value, TextAfter, Write, WorldOf, RecordAssign;
    TextAfterValue(env, start, r, value);
    var text := TextAfter(env, start, r, value);
    if text.Some? {
      WriteRecorded(env, start, r, target.name, target.key, text.value);
    }
  }

  lemma SpawnRecorded(env: Env, start: World, r: Record, command: string)
    ensures SpawnCommand(env, WorldOf(start, r), command).0 == WorldOf(start, RecordSpawn(env, start, r, command))
  {
    AppendAssociates(start.log, r.sent, [Spawned(command)]);
  }

  lemma SendRecorded(env: Env, start: World, r: Record, tag: string, class_: string, type_: string, hash: string)
    requires Cut(tag).Some? && LengthsAllowed(Cut(tag).value)
    ensures SendCommand(env, WorldOf(start, r), tag, class_, type_, hash).0
         == WorldOf(start, RecordSend(env, start, r, Cut(tag).value, class_, type_, hash))
  {
    hide Cut, LengthsAllowed, EverStored;
    ReplayDefined(start.store, r.updates, hash);
    var updates := r.updates + [ClearUpdate(hash)];
    assert updates[..|updates| - 1] == r.updates;
    var command := Command(Cut(tag).value, class_, type_, Contents(Replay(start.store, r.updates), hash));
    AppendAssociates(start.log, r.sent, [command]);
    assert start.log + r.sent + [] == start.log + r.sent;
  }

  lemma BadTagKeeps(env: Env, w: World, tag: string, class_: string, type_: string, hash: string)
    requires Cut(tag).None? || !LengthsAllowed(Cut(tag).value)
    ensures SendCommand(env, w, tag, class_, type_, hash).0 == w
  {
  }

  lemma XplCmdRecorded(env: Env, start: World, r: Record, args: seq<Operand>)
    requires |args| == 4 && forall i :: 0 <= i < |args| ==> IsArgument(args[i])
    ensures Invoke(env, WorldOf(start, r), XplCmd, args).0
         == WorldOf(start, RecordLeaf(env, start, r, Call(XplCmd, args)))
  {
    hide Invoke, Value, NameOf, TextOf, WorldOf, RecordSend, SendCommand;
    var w := WorldOf(start, r);
    FourArguments(env, w, args);
    if Sends(Call(XplCmd, args)) {
      SendRecorded(env, start, r, TextOf(args[0]), TextOf(args[1]), TextOf(args[2]), TextOf(args[3]));
    } else {
      BadTagKeeps(env, w, TextOf(args[0]), TextOf(args[1]), TextOf(args[2]), TextOf(args[3]));
    }
  }

  lemma CallRecorded(env: Env, start: World, r: Record, fn: Function, args: seq<Operand>)
    requires forall i :: 0 <= i < |args| ==> IsArgument(args[i])
    ensures Invoke(env, WorldOf(start, r), fn, args).0 == WorldOf(start, RecordLeaf(env, start, r, Call(fn, args)))
  {
    hide Value, NameOf, TextOf, WorldOf, SendCommand, SpawnCommand;
    if fn == Spawn && |args| == 1 {
      ArgumentIsValue(env, WorldOf(start, r), args[0]);
      SpawnRecorded(env, start, r, TextOf(args[0]));
    } else if fn == XplCmd && |args| == 4 {
      XplCmdRecorded(env, start, r, args);
    }
  }

  lemma {:induction false} TraceRecorded(env: Env, trace: seq<Visit>, w: World, w': World, k: nat)
    requires Chained(env, trace, w, w') && AllFormedVisits(trace) && k <= |trace|
    ensures WorldAfter(env, trace, w, k) == WorldOf(w, Recorded(env, w, trace[..k]))
    decreases k
  {
    if k == 0 {
      assert w.log + [] == w.log;
    } else {
      hide RecordLeaf, WorldOf, AssignTo, Invoke;
      TraceRecorded(env, trace, w, w', k - 1);
      assert Linked(env, trace, w, k - 1);
      var r, s := Recorded(env, w, trace[..k - 1]), trace[k - 1].s;
      assert trace[..k][..k - 1] == trace[..k - 1];
      if s.Assign? {
        AssignRecorded(env, w, r, s.target, s.value);
      } else {
        CallRecorded(env, w, r, s.fn, s.args);
      }
    }
  }

  /**
   * The whole effect of a run, from any world: the store is the one at the
   * start with the recorded updates made, the database has the pairs saved,
   * and the commands and spawns recorded have gone out, all in order. What a
   * lookup then gives is said by ReplayMeaning and SavedLookup.
   */
  lemma RunIsRecorded(env: Env, program: seq<Stmt>, w: World)
    requires AllFormed(program)
    ensures RunOf(env, program, w).0 == WorldOf(w, Recorded(env, w, TraceAll(env, program, w)))
  {
    var trace := TraceAll(env, program, w);
    RunOfBlock(env, program, w);
    BlockTraced(env, program, w);
    TraceRecorded(env, trace, w, ExecBlock(env, program, w).0, |trace|);
    assert trace[..|trace|] == trace;
  }
}
