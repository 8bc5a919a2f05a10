/**
 * The two threads around the receive queue: the receiver queues a packet and
 * then writes the event counter, holding the lock; the main thread wakes when
 * the counter is positive, reads it back to zero, and takes packets until the
 * queue is empty (xplrx.c, xplcore.c). Every interleaving is a list of steps.
 */
module RxProtocol {
  import opened Common

  /** Where the receiver is: not in its critical section, or between its actions there. */
  datatype Receiver = Outside | Locked(packet: string) | Queued | Signalled

  datatype Main = Waiting | Draining

  /** lastWriteOk tells how the latest write of the event counter went. */
  datatype System = System(
    receiver: Receiver, main: Main, counter: nat, queue: seq<string>,
    received: seq<string>, delivered: seq<string>, lastWriteOk: bool)

  const INITIAL := System(Outside, Waiting, 0, [], [], [], true)

  datatype Step =
    | Lock(packet: string)
    | Enqueue
    | Signal(ok: bool)
    | Unlock
    | Wake
    | Dequeue

  /** The system after a step, or None when the step is not possible. */
  function After(s: System, step: Step): Option<System> {
    match step
    case Lock(packet) => if s.receiver.Outside? then Some(s.(receiver := Locked(packet))) else None
    case Enqueue =>
      if s.receiver.Locked? then
        var packet := s.receiver.packet;
        Some(s.(receiver := Queued, queue := s.queue + [packet], received := s.received + [packet]))
      else None
    case Signal(ok) =>
      if s.receiver.Queued? then
        Some(s.(receiver := Signalled, counter := if ok then s.counter + 1 else s.counter, lastWriteOk := ok))
      else None
    case Unlock => if s.receiver.Signalled? then Some(s.(receiver := Outside)) else None
    case Wake =>
      if s.main.Waiting? && s.counter > 0 then Some(s.(main := Draining, counter := 0)) else None
    case Dequeue =>
      // Taking a packet needs the lock.
      if !s.main.Draining? || !s.receiver.Outside? then None
      else if s.queue == [] then Some(s.(main := Waiting))
      else Some(s.(queue := s.queue[1..], delivered := s.delivered + [s.queue[0]]))
  }

  /** The system after a run, or None when some step of it is not possible. */
  function Run(steps: seq<Step>): Option<System> {
    if steps == [] then Some(INITIAL)
    else
      var before := Run(steps[..|steps| - 1]);
      if before.None? then None else After(before.value, steps[|steps| - 1])
  }

  /** The packets that the receiver took the lock for, in order. */
  function Packets(steps: seq<Step>): seq<string> {
    if steps == [] then []
    else
      var last := steps[|steps| - 1];
      Packets(steps[..|steps| - 1]) + if last.Lock? then [last.packet] else []
  }

  /** The packet that the receiver holds and has not yet queued. */
  function Held(s: System): seq<string> {
    if s.receiver.Locked? then [s.receiver.packet] else []
  }

  /** Packets are waiting, and nothing is under way that makes the main thread look. */
  predicate Forgotten(s: System) {
    s.queue != [] && s.counter == 0 && s.main.Waiting? && !s.receiver.Queued?
  }

  /**
   * No lost wake-up, over every interleaving: packets wait without a wake-up
   * under way only when the latest event write failed. And nothing is lost,
   * duplicated or reordered: delivered, queued, and held by the receiver are
   * the packets that came in.
   */
  lemma {:induction false} NoLostWakeup(steps: seq<Step>)
    requires Run(steps).Some?
    ensures
      var s := Run(steps).value;
      && (Forgotten(s) ==> !s.lastWriteOk)
      && s.delivered + s.queue == s.received
      && Packets(steps) == s.received + Held(s)
  {
    hide Held;
    NothingHeld();
    if steps != [] {
      var init := steps[..|steps| - 1];
      NoLostWakeup(init);
      NothingLost(Run(init).value, steps[|steps| - 1]);
      PacketKept(Run(init).value, steps[|steps| - 1]);
    }
  }

  lemma NothingHeld()
    ensures INITIAL.received + Held(INITIAL) == []
  {
  }

  /** Each packet that came in is queued before the next. */
  lemma PacketKept(s: System, step: Step)
    requires After(s, step).Some?
    ensures
      var s' := After(s, step).value;
      s'.received + Held(s') == s.received + Held(s) + if step.Lock? then [step.packet] else []
  {
    assert s.received + Held(s) == if s.receiver.Locked? then s.received + [s.receiver.packet] else s.received;
  }

  /** One step neither loses, duplicates nor reorders a packet. */
  lemma NothingLost(s: System, step: Step)
    requires After(s, step).Some? && s.delivered + s.queue == s.received
    ensures
      var s' := After(s, step).value;
      s'.delivered + s'.queue == s'.received
  {
    if step.Enqueue? {
      AppendAssociates(s.delivered, s.queue, [s.receiver.packet]);
    } else if step.Dequeue? && s.queue != [] {
      assert s.queue == [s.queue[0]] + s.queue[1..];
      AppendAssociates(s.delivered, [s.queue[0]], s.queue[1..]);
    }
  }

  /** Only a run with a failed write can end with packets forgotten. */
  lemma {:induction false} ForgottenNeedsFailure(steps: seq<Step>)
    requires Run(steps).Some? && forall i :: 0 <= i < |steps| ==> steps[i] != Signal(false)
    ensures !Forgotten(Run(steps).value)
  {
    NoLostWakeup(steps);
    WritesOk(steps);
  }

  lemma {:induction false} WritesOk(steps: seq<Step>)
    requires Run(steps).Some? && forall i :: 0 <= i < |steps| ==> steps[i] != Signal(false)
    ensures Run(steps).value.lastWriteOk
  {
    if steps != [] {
      WritesOk(steps[..|steps| - 1]);
    }
  }

  /**
   * At step k the event write failed while the main thread slept with the
   * counter at zero, and none has succeeded since.
   */
  ghost predicate LostAt(steps: seq<Step>, k: nat) {
    && k < |steps| && steps[k] == Signal(false)
    && (var s := Run(steps[..k]); s.Some? && s.value.main.Waiting? && s.value.counter == 0)
    && forall j :: k < j < |steps| ==> steps[j] != Signal(true)
  }

  ghost predicate Lost(steps: seq<Step>) {
    exists k: nat :: LostAt(steps, k)
  }

  lemma LostStep(steps: seq<Step>)
    requires steps != []
    ensures
      var init, last := steps[..|steps| - 1], steps[|steps| - 1];
      Lost(steps) <==> LostAt(steps, |init|) || (Lost(init) && last != Signal(true))
  {
    var init, n := steps[..|steps| - 1], |steps| - 1;
    forall k: nat | k < n ensures LostAt(steps, k) <==> LostAt(init, k) && steps[n] != Signal(true) {
      assert init[..k] == steps[..k];
      assert LostAt(init, k) && steps[n] != Signal(true) ==> forall j :: k < j < |steps| ==> steps[j] != Signal(true);
      assert LostAt(steps, k) ==> steps[n] != Signal(true) && forall j :: k < j < |init| ==> init[j] == steps[j];
    }
    if Lost(steps) {
      var k: nat :| LostAt(steps, k);
      assert k == n || LostAt(init, k);
    }
    if Lost(init) && steps[n] != Signal(true) {
      var k: nat :| LostAt(init, k);
      assert LostAt(steps, k);
    }
  }

  /**
   * Exactly when a wake-up is lost: an event write failed while the main
   * thread slept with the counter at zero, and no write has succeeded since.
   */
  lemma {:induction false} ForgottenExactly(steps: seq<Step>)
    requires Run(steps).Some?
    ensures
      var s := Run(steps).value;
      && (Forgotten(s) <==> Lost(steps) && !s.receiver.Queued?)
      && (Lost(steps) ==> s.queue != [] && s.counter == 0 && s.main.Waiting?)
      && (s.receiver.Queued? ==> s.queue != [] || s.main.Draining? || s.counter > 0)
  {
    if steps != [] {
      var init := steps[..|steps| - 1];
      ForgottenExactly(init);
      NoLostWakeup(init);
      LostStep(steps);
      assert steps[..|init|] == init;
    }
  }

  /** A failed write does lose a wake-up: the write's result is ignored. */
  lemma FailedWriteForgets(packet: string)
    ensures
      var run := Run([Lock(packet), Enqueue, Signal(false), Unlock]);
      run.Some? && Forgotten(run.value) && run.value.receiver.Outside?
  {
    var steps := [Lock(packet), Enqueue, Signal(false), Unlock];
    assert steps[..3] == [Lock(packet), Enqueue, Signal(false)];
    assert steps[..3][..2] == [Lock(packet), Enqueue];
    assert [Lock(packet), Enqueue][..1] == [Lock(packet)];
    assert [Lock(packet)][..0] == [];
    assert Run([Lock(packet)]) == Some(INITIAL.(receiver := Locked(packet)));
    assert Run([Lock(packet), Enqueue]).Some?;
    assert Run(steps[..3]).Some?;
  }

  /** What the main thread does next when it runs alone. */
  function MainStep(s: System): Step {
    if s.main.Waiting? then Wake else Dequeue
  }

  /** The main thread runs alone for as long as it can, up to n steps. */
  function MainRuns(s: System, n: nat): System
    decreases n
  {
    if n == 0 || After(s, MainStep(s)).None? then s else MainRuns(After(s, MainStep(s)).value, n - 1)
  }

  lemma {:induction false} DrainRuns(s: System, n: nat)
    requires s.main.Draining? && s.receiver.Outside? && n > |s.queue|
    ensures
      var s' := MainRuns(s, |s.queue| + 1);
      && s'.queue == [] && s'.delivered == s.delivered + s.queue && s'.received == s.received
      && s'.main.Waiting?
    decreases |s.queue|
  {
    var s1 := After(s, Dequeue).value;
    if s.queue != [] {
      DrainRuns(s1, n - 1);
      assert s.delivered + s.queue == s1.delivered + s1.queue;
    } else {
      assert MainRuns(s1, 0) == s1;
    }
  }

  /**
   * Whatever happened before, once the receiver is out of its critical section
   * and its latest write succeeded, the main thread alone delivers everything
   * that came in, in order.
   */
  lemma EverythingIsDelivered(steps: seq<Step>)
    requires Run(steps).Some? && Run(steps).value.receiver.Outside? && Run(steps).value.lastWriteOk
    ensures
      var s := Run(steps).value;
      var s' := MainRuns(s, |s.queue| + 2);
      s'.queue == [] && s'.delivered == Packets(steps)
  {
    var s := Run(steps).value;
    NoLostWakeup(steps);
    if s.main.Draining? {
      DrainRuns(s, |s.queue| + 1);
      MoreRuns(s, |s.queue| + 1);
      var s' := MainRuns(s, |s.queue| + 1);
      if After(s', Wake).Some? {
        assert MainRuns(s, |s.queue| + 2) == After(s', Wake).value;
      }
    } else if s.counter > 0 {
      DrainRuns(After(s, Wake).value, |s.queue| + 1);
    }
  }

  lemma {:induction false} MoreRuns(s: System, n: nat)
    ensures
      var s' := MainRuns(s, n);
      var next := After(s', MainStep(s'));
      MainRuns(s, n + 1) == if next.None? then s' else next.value
    decreases n
  {
    if n > 0 && After(s, MainStep(s)).Some? {
      MoreRuns(After(s, MainStep(s)).value, n - 1);
    }
  }
}
