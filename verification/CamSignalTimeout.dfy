/** The writer's wait for the mutex times out: WriteNextImage returns with all ten permits and the first door open.
    Everything stops until the next call gives up on its permits; then the permits are back, and only the first door
    is still open, until a write is completed. */
module CamSignalTimeout {
  import opened CamProtocol
  import opened CamRuns
  import opened CamTimeout

  // ---------- until the next call gives up ----------

  predicate DoorShut(x: XState) {
    && Base(x.core) && Total(x.core) == 0 && |x.core.history| >= 2 && x.core.owner != ByWriter
    && (x.core.writer == Idle || x.core.writer == Acquiring(0)) && (x.phase != Normal ==> x.core.writer == Acquiring(0)) && x.phase != Again
  }

  /** The frames and everything the readers have been given. */
  predicate SameTraffic(s: State, t: State) {
    && t.history == s.history && t.buf == s.buf && |t.readers| == |s.readers|
    && forall i :: 0 <= i < |s.readers| ==> t.readers[i].log == s.readers[i].log
  }

  lemma SignalTimeoutShuts(x: XState)
    requires XInv(x) && XEnabled(x, SignalTimeout)
    ensures DoorShut(XNext(x, SignalTimeout)) && SameTraffic(x.core, XNext(x, SignalTimeout).core)
  {
    var s, t := x.core, XNext(x, SignalTimeout).core;
    hide Rising, Untorn, LastBelow;
    forall i | 0 <= i < |t.readers| ensures ReaderBase(t, t.readers[i]) { assert ReaderBase(s, s.readers[i]); }
  }

  lemma ShutStep(x: XState, e: XStep)
    requires DoorShut(x) && XEnabled(x, e) && !e.Release?
    ensures DoorShut(XNext(x, e)) && SameTraffic(x.core, XNext(x, e).core)
  {
    if e.Core? {
      StepBase(x.core, e.step);
      hide Base;
      if !IsWriterStep(e.step) { HeldAtMost(x.core.readers, e.step.i); }
    }
  }

  predicate NoRelease(es: seq<XStep>) { forall i :: 0 <= i < |es| ==> !es[i].Release? }

  lemma {:induction false} ShutRun(x: XState, es: seq<XStep>)
    requires DoorShut(x) && XRun(x, es) && NoRelease(es)
    ensures DoorShut(XAfter(x, es)) && SameTraffic(x.core, XAfter(x, es).core)
    decreases |es|
  {
    hide DoorShut, XEnabled, XNext;
    if es != [] {
      ShutStep(x, es[0]);
      assert NoRelease(es[1..]);
      ShutRun(XNext(x, es[0]), es[1..]);
    }
  }

  /** No frame is written and none returned, by any thread in any run, until a call of the writer gives up on its permits. */
  lemma SignalTimeoutStops(x: XState, es: seq<XStep>)
    requires XInv(x) && XEnabled(x, SignalTimeout) && XRun(XNext(x, SignalTimeout), es) && NoRelease(es)
    ensures SameTraffic(x.core, XAfter(XNext(x, SignalTimeout), es).core)
  {
    hide XInv, XEnabled, XNext;
    SignalTimeoutShuts(x);
    ShutRun(XNext(x, SignalTimeout), es);
  }

  // ---------- when it gives up ----------

  /** All permits are back; the writer does not own the mutex. */
  predicate Recovered(s: State) {
    Base(s) && s.avail == MAX_SEM_COUNT && s.writer == Idle && |s.history| >= 2 && s.owner != ByWriter
  }

  /** Whatever has happened in between, that call restores the permits, and only those: the first door stays open, so the invariant is not back. */
  lemma SignalTimeoutRecovers(x: XState, es: seq<XStep>)
    requires XInv(x) && XEnabled(x, SignalTimeout) && XRun(XNext(x, SignalTimeout), es) && NoRelease(es)
    requires XAfter(XNext(x, SignalTimeout), es).phase == GivenUp
    ensures var t := Ended(XAfter(XNext(x, SignalTimeout), es), Release);
      Recovered(t) && Conserved(t) && SameTraffic(x.core, t) && !Inv(t)
  {
    hide XInv, XEnabled;
    SignalTimeoutShuts(x);
    ShutRun(XNext(x, SignalTimeout), es);
    ShutReleased(XAfter(XNext(x, SignalTimeout), es));
  }

  lemma ShutReleased(x: XState)
    requires DoorShut(x) && x.phase == GivenUp
    ensures var t := Ended(x, Release); Recovered(t) && Conserved(t) && SameTraffic(x.core, t) && !Inv(t)
  {
    var s, t := x.core, Ended(x, Release);
    hide Rising, Untorn, LastBelow;
    forall i | 0 <= i < |t.readers| ensures ReaderBase(t, t.readers[i]) { assert ReaderBase(s, s.readers[i]); }
  }

  /** The call that gives up is always possible. */
  lemma NextCallGivesUp(x: XState, frame: seq<int>)
    requires DoorShut(x) && x.core.writer == Idle && x.phase == Normal && |frame| == Size(x.core)
    ensures XRun(x, [Core(StartWrite(frame)), PermitTimeout])
    ensures XAfter(x, [Core(StartWrite(frame)), PermitTimeout]).phase == GivenUp
  {
    var y := XNext(x, Core(StartWrite(frame)));
    var first := [Core(StartWrite(frame))];
    assert first[1..] == [] && XAfter(x, first) == y && XEnabled(y, PermitTimeout);
    XRunSnoc(x, first, PermitTimeout);
    assert first + [PermitTimeout] == [Core(StartWrite(frame)), PermitTimeout];
  }

  /** From then on frames are written again. */
  lemma RecoveredWrites(s: State, frame: seq<int>) returns (steps: seq<Step>)
    requires Recovered(s) && |frame| == Size(s)
    ensures IsRun(s, steps)
    ensures After(s, steps).buf == frame && After(s, steps).history == s.history + [frame] && After(s, steps).writer == Idle
  {
    var first := FreeMutex(s);
    hide IsRun, After;
    WriteCallWrites(After(s, first), frame);
    RunConcat(s, first, WriteCall(frame));
    steps := first + WriteCall(frame);
  }

  /** And none is torn, and no reader goes back, unless a wait of the writer times out again. */
  lemma RecoveredStaysUntorn(s: State, steps: seq<Step>, i: nat)
    requires Recovered(s) && IsRun(s, steps) && i < |After(s, steps).readers|
    ensures var t := After(s, steps); Untorn(t.readers[i].log, t.history) && Rising(t.readers[i].log)
  {
    RunBase(s, steps);
    var t := After(s, steps);
    assert ReaderBase(t, t.readers[i]);
  }

  // ---------- what stays broken ----------

  /** The reader ends with the newest frame returned to it twice in a row. */
  predicate Repeats(s: State, steps: seq<Step>, i: nat) {
    && IsRun(s, steps) && i < |After(s, steps).readers|
    && var log := After(s, steps).readers[i].log; var n := |log|;
       n >= 2 && log[n - 2].frame == log[n - 1].frame == |s.history| - 1 && log[n - 2].data == log[n - 1].data
  }

  /** Any reader can be given the same frame twice before the next write. */
  lemma RecoveredRepeats(s: State, i: nat) returns (steps: seq<Step>)
    requires Recovered(s) && i < |s.readers|
    ensures Repeats(s, steps, i)
  {
    var first := ReachDoor1(s, i);
    hide Enabled, Next, IsRun, After, Recovered;
    var t := After(s, first);
    var once := ReadCall(i, Size(t));
    ReadCallReads(t, i);
    ReadCallReads(After(t, once), i);
    RunConcat(t, once, once);
    RunConcat(s, first, once + once);
    steps := first + (once + once);
  }

  lemma ReachDoor1(s: State, i: nat) returns (steps: seq<Step>)
    requires Recovered(s) && i < |s.readers|
    ensures IsRun(s, steps)
    ensures var t := After(s, steps);
      ReaderAt(t, i, Door1) && t.owner == Nobody && t.avail == MAX_SEM_COUNT && t.history == s.history
  {
    HeldAtMost(s.readers, i);
    assert s.readers[i].pc != Copying;
    if s.readers[i].pc == Door2 || s.readers[i].pc == HoldSignal {
      var first := Unsignal(s, i);
      hide IsRun, After, Enabled, Next, Base;
      var t := After(s, first);
      TakesPermit(t, i);
      RunSnoc(s, first, TakePermit(i));
      ReadRunReturns(Entered(t, i), i);
      RunConcat(s, first + [TakePermit(i)], ReadRun(i, Size(t)));
      steps := first + [TakePermit(i)] + ReadRun(i, Size(t));
    } else {
      steps := FreeMutex(s);
    }
  }

  lemma TakesPermit(s: State, i: nat)
    requires ReaderAt(s, i, Door2) && s.avail > 0
    ensures Enabled(s, TakePermit(i)) && Next(s, TakePermit(i)) == Entered(s, i)
  {
  }

  lemma Unsignal(s: State, i: nat) returns (steps: seq<Step>)
    requires Recovered(s) && i < |s.readers| && (s.readers[i].pc == Door2 || s.readers[i].pc == HoldSignal)
    ensures IsRun(s, steps)
    ensures var t := After(s, steps);
      ReaderAt(t, i, Door2) && t == s.(owner := Nobody, readers := t.readers)
  {
    if s.owner.ByReader? {
      steps := [ReadUnsignal(s.owner.id)];
      assert steps[1..] == [];
    } else {
      steps := [];
    }
  }

  // ---------- until a write is completed ----------

  /** The state without what the readers were given so far. */
  function Forget(s: State): State {
    s.(readers := seq(|s.readers|, i requires 0 <= i < |s.readers| => s.readers[i].(log := [])))
  }

  /** At the end of a write the whole invariant holds again, old results apart. */
  lemma WriteRestores(s: State)
    requires Base(s) && Conserved(s) && s.writer == Reopen && s.owner == ByWriter
    ensures Inv(Forget(s))
  {
    var t := Forget(s);
    SameHeld(s.readers, t.readers);
    hide Rising, Untorn, LastBelow, Increasing;
    forall i | 0 <= i < |t.readers| ensures ReaderBase(t, t.readers[i]) && ReaderOrder(t, t.readers[i]) {
      assert ReaderBase(s, s.readers[i]);
      EmptyLog(s.history, Current(s));
    }
  }

  lemma EmptyLog(history: seq<seq<int>>, frame: nat)
    ensures Rising([]) && Untorn([], history) && LastBelow([], frame) && Increasing([])
  {
  }

  lemma {:induction false} SameHeld(a: seq<Reader>, b: seq<Reader>)
    requires |a| == |b| && forall i :: 0 <= i < |a| ==> a[i].pc == b[i].pc
    ensures HeldByReaders(a) == HeldByReaders(b)
  {
    if a != [] { SameHeld(a[..|a| - 1], b[..|b| - 1]); }
  }

  predicate ReopenOwned(s: State) { s.writer == Reopen ==> s.owner == ByWriter }

  lemma {:induction false} ReopenOwnedRun(s: State, steps: seq<Step>)
    requires Base(s) && ReopenOwned(s) && IsRun(s, steps)
    ensures ReopenOwned(After(s, steps))
    decreases |steps|
  {
    if steps != [] {
      StepBase(s, steps[0]);
      ReopenOwnedStep(s, steps[0]);
      hide Base, Enabled, Next;
      ReopenOwnedRun(Next(s, steps[0]), steps[1..]);
    }
  }

  lemma ReopenOwnedStep(s: State, step: Step)
    requires Base(s) && ReopenOwned(s) && Enabled(s, step)
    ensures ReopenOwned(Next(s, step))
  {
  }

  /** The state with earlier results in front. */
  function WithLogs(t: State, logs: seq<seq<Result>>): State
    requires |logs| == |t.readers|
  {
    t.(readers := seq(|t.readers|, i requires 0 <= i < |t.readers| => t.readers[i].(log := logs[i] + t.readers[i].log)))
  }

  /** No step depends on the results. */
  lemma StepWithLogs(t: State, logs: seq<seq<Result>>, step: Step)
    requires |logs| == |t.readers| && Enabled(WithLogs(t, logs), step)
    ensures Enabled(t, step) && |Next(t, step).readers| == |logs|
    ensures Next(WithLogs(t, logs), step) == WithLogs(Next(t, step), logs)
  {
    var a, b := Next(WithLogs(t, logs), step), WithLogs(Next(t, step), logs);
    if step.Finish? {
      var r := t.readers[step.i];
      assert (logs[step.i] + r.log) + [Result(Current(t), r.dest)] == logs[step.i] + (r.log + [Result(Current(t), r.dest)]);
    }
    assert a.readers == b.readers;
  }

  lemma {:induction false} RunWithLogs(t: State, logs: seq<seq<Result>>, steps: seq<Step>)
    requires |logs| == |t.readers| && IsRun(WithLogs(t, logs), steps)
    ensures IsRun(t, steps) && |After(t, steps).readers| == |logs|
    ensures After(WithLogs(t, logs), steps) == WithLogs(After(t, steps), logs)
    decreases |steps|
  {
    hide Enabled, Next, WithLogs;
    if steps != [] {
      StepWithLogs(t, logs, steps[0]);
      RunWithLogs(Next(t, steps[0]), logs, steps[1..]);
    }
  }

  function Logs(s: State): seq<seq<Result>> {
    seq(|s.readers|, i requires 0 <= i < |s.readers| => s.readers[i].log)
  }

  lemma Recall(s: State)
    ensures |Logs(s)| == |Forget(s).readers| && WithLogs(Forget(s), Logs(s)) == s
  {
    var t := WithLogs(Forget(s), Logs(s));
    forall i | 0 <= i < |s.readers| ensures t.readers[i] == s.readers[i] { assert s.readers[i].log + [] == s.readers[i].log; }
    assert t.readers == s.readers;
  }

  lemma OrderAfterWrite(u: State, more: seq<Step>, i: nat, j: nat, k: nat)
    requires Base(u) && Conserved(u) && u.writer == Reopen && u.owner == ByWriter
    requires IsRun(u, more) && i < |After(u, more).readers| == |u.readers|
    requires |u.readers[i].log| <= j < k < |After(u, more).readers[i].log|
    ensures var log := After(u, more).readers[i].log; log[j].frame >= 1 ==> log[j].frame < log[k].frame
  {
    hide IsRun, After, Base, Conserved;
    WriteRestores(u);
    Recall(u);
    RunWithLogs(Forget(u), Logs(u), more);
    RunInv(Forget(u), more);
    var t, n := After(Forget(u), more), |u.readers[i].log|;
    InvOrder(t, i);
    var log := After(u, more).readers[i].log;
    assert log == u.readers[i].log + t.readers[i].log;
    assert t.readers[i].log[j - n] == log[j] && t.readers[i].log[k - n] == log[k];
  }

  lemma InvOrder(s: State, i: nat)
    requires Inv(s) && i < |s.readers|
    ensures Increasing(s.readers[i].log)
  {
    assert ReaderOrder(s, s.readers[i]);
  }

  lemma {:induction false} SameReaders(s: State, steps: seq<Step>)
    requires IsRun(s, steps)
    ensures |After(s, steps).readers| == |s.readers|
    decreases |steps|
  {
    if steps != [] { SameReaders(Next(s, steps[0]), steps[1..]); }
  }

  function LogOf(s: State, i: nat): seq<Result> { if i < |s.readers| then s.readers[i].log else [] }

  /** From the end of the first write after the recovery on, no reader is given a frame twice. */
  lemma OrderReturns(s: State, steps: seq<Step>, more: seq<Step>, i: nat, j: nat, k: nat)
    requires Recovered(s) && IsRun(s, steps) && After(s, steps).writer == Reopen && IsRun(After(s, steps), more)
    requires |LogOf(After(s, steps), i)| <= j < k < |LogOf(After(After(s, steps), more), i)|
    ensures var log := LogOf(After(After(s, steps), more), i); log[j].frame >= 1 ==> log[j].frame < log[k].frame
  {
    RecoveredTotal(s);
    hide IsRun, After, Base;
    RunBase(s, steps);
    ReopenOwnedRun(s, steps);
    SameReaders(After(s, steps), more);
    OrderAfterWrite(After(s, steps), more, i, j, k);
  }

  lemma RecoveredTotal(s: State)
    requires Recovered(s)
    ensures Total(s) == MAX_SEM_COUNT
  {
  }
}
