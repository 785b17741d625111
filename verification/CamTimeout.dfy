/** What the writer's timeouts do to the protocol.  A permit wait that times out and the release of ten permits that
    follows are two steps, and readers move in between; a wait for the mutex that times out is one. */
module CamTimeout {
  import opened CamProtocol
  import opened CamRuns

  /** GivenUp: a wait for a permit has timed out and ten are about to be released.  Again: that release has failed and is
      about to be attempted once more. */
  datatype Phase = Normal | GivenUp | Again

  datatype XState = XState(core: State, phase: Phase)

  datatype XStep =
    | Core(step: Step)
    | PermitTimeout
    | Release
    | Retry(count: int)
    | SignalTimeout

  predicate XEnabled(x: XState, e: XStep) {
    match e
    case Core(step) => Enabled(x.core, step) && (x.phase != Normal ==> !IsWriterStep(step))
    case PermitTimeout => x.phase == Normal && x.core.writer.Acquiring? && x.core.avail == 0
    case Release => x.phase == GivenUp
    case Retry(_) => x.phase == Again
    case SignalTimeout => x.phase == Normal && x.core.writer == CloseDoor && x.core.owner.ByReader?
  }

  function XNext(x: XState, e: XStep): XState
    requires XEnabled(x, e)
  {
    match e
    case Core(step) => x.(core := Next(x.core, step))
    case PermitTimeout => x.(phase := GivenUp)
    case Release =>
      if x.core.avail == 0 then XState(x.core.(avail := MAX_SEM_COUNT, writer := Idle), Normal) else x.(phase := Again)
    case Retry(count) => XState(x.core.(avail := x.core.avail + Retried(x.core.avail, count), writer := Idle), Normal)
    case SignalTimeout => x.(core := x.core.(writer := Idle))
  }

  predicate XRun(x: XState, es: seq<XStep>)
    decreases |es|
  {
    es == [] || (XEnabled(x, es[0]) && XRun(XNext(x, es[0]), es[1..]))
  }

  function XAfter(x: XState, es: seq<XStep>): XState
    requires XRun(x, es)
    decreases |es|
  {
    if es == [] then x else XAfter(XNext(x, es[0]), es[1..])
  }

  function XInit(contents: seq<int>, readers: nat): XState { XState(Init(contents, readers), Normal) }

  lemma {:induction false} XRunConcat(x: XState, a: seq<XStep>, b: seq<XStep>)
    requires XRun(x, a) && XRun(XAfter(x, a), b)
    ensures XRun(x, a + b) && XAfter(x, a + b) == XAfter(XAfter(x, a), b)
    decreases |a|
  {
    hide XEnabled, XNext;
    if a == [] {
      assert a + b == b;
    } else {
      assert (a + b)[0] == a[0] && (a + b)[1..] == a[1..] + b;
      XRunConcat(XNext(x, a[0]), a[1..], b);
    }
  }

  lemma XRunSnoc(x: XState, a: seq<XStep>, e: XStep)
    requires XRun(x, a) && XEnabled(XAfter(x, a), e)
    ensures XRun(x, a + [e]) && XAfter(x, a + [e]) == XNext(XAfter(x, a), e)
  {
    hide XEnabled, XNext;
    assert [e][1..] == [];
    XRunConcat(x, a, [e]);
  }

  function Cores(steps: seq<Step>): seq<XStep> {
    if steps == [] then [] else [Core(steps[0])] + Cores(steps[1..])
  }

  predicate ReadersOnly(steps: seq<Step>) { forall i :: 0 <= i < |steps| ==> !IsWriterStep(steps[i]) }

  /** A run of the step system is a run here; while the writer is about to release, readers alone go on. */
  lemma {:induction false} CoresRun(x: XState, steps: seq<Step>)
    requires IsRun(x.core, steps) && (x.phase != Normal ==> ReadersOnly(steps))
    ensures XRun(x, Cores(steps)) && XAfter(x, Cores(steps)) == x.(core := After(x.core, steps))
    decreases |steps|
  {
    hide Enabled, Next, IsWriterStep;
    if steps != [] {
      assert x.phase != Normal ==> !IsWriterStep(steps[0]) && ReadersOnly(steps[1..]);
      CoresRun(XNext(x, Core(steps[0])), steps[1..]);
    }
  }

  // ---------- up to the end of the failed call ----------

  /** Giving up on a permit breaks nothing yet. */
  predicate XInv(x: XState) { Inv(x.core) && (x.phase != Normal ==> x.core.writer.Acquiring?) }

  /** The step with which the failed call returns: the release succeeds, or it is attempted once more. */
  predicate EndsCall(x: XState, e: XStep) { (e.Release? && x.core.avail == 0) || e.Retry? }

  lemma StepXInv(x: XState, e: XStep)
    requires XInv(x) && XEnabled(x, e) && !EndsCall(x, e) && !e.SignalTimeout?
    ensures XInv(XNext(x, e))
  {
    hide Inv;
    if e.Core? {
      StepInv(x.core, e.step);
      if x.phase != Normal { ReaderKeepsOthers(x.core, e.step, e.step.i); }
    }
  }

  /** A run in which no timeout of the writer has had an effect yet. */
  predicate QuietRun(x: XState, es: seq<XStep>)
    decreases |es|
  {
    es == [] || (XEnabled(x, es[0]) && !EndsCall(x, es[0]) && !es[0].SignalTimeout? && QuietRun(XNext(x, es[0]), es[1..]))
  }

  lemma {:induction false} RunXInv(x: XState, es: seq<XStep>)
    requires XInv(x) && QuietRun(x, es)
    ensures XRun(x, es) && XInv(XAfter(x, es))
    decreases |es|
  {
    hide XInv, XEnabled, XNext, EndsCall;
    if es != [] {
      StepXInv(x, es[0]);
      RunXInv(XNext(x, es[0]), es[1..]);
    }
  }

  // ---------- the permits after the failed call ----------

  function Ended(x: XState, e: XStep): State
    requires XEnabled(x, e)
  {
    XNext(x, e).core
  }

  /** How many permits the call hands back: all ten if none is available at the release, and otherwise an accidental
      number or none. */
  function Given(x: XState, e: XStep): nat { if e.Retry? then Retried(x.core.avail, e.count) else MAX_SEM_COUNT }

  /** The call has taken k permits. */
  lemma EndedTotal(x: XState, e: XStep)
    requires XEnabled(x, e) && EndsCall(x, e) && x.core.writer.Acquiring?
    ensures Total(Ended(x, e)) == Total(x.core) - x.core.writer.k + Given(x, e)
  {
  }

  /** What the second door guarantees, with whatever permits earlier timeouts have left. */
  predicate XBase(x: XState) { Base(x.core) && (x.phase != Normal ==> x.core.writer.Acquiring?) }

  /** The state afterwards is as if the writer had never called, permits apart. */
  lemma EndedBase(x: XState, e: XStep)
    requires XBase(x) && XEnabled(x, e) && EndsCall(x, e)
    ensures var t := Ended(x, e);
      && Shape(t) && Holder(t) && Mapping(t) && t.writer == Idle && t.avail <= MAX_SEM_COUNT
      && (forall i :: 0 <= i < |t.readers| ==> ReaderBase(t, t.readers[i]))
      && t.readers == x.core.readers && t.history == x.core.history && t.buf == x.core.buf
  {
    var s, t := x.core, Ended(x, e);
    hide Rising, Untorn, LastBelow;
    forall i | 0 <= i < |t.readers| ensures ReaderBase(t, t.readers[i]) { assert ReaderBase(s, s.readers[i]); }
  }

  lemma EndedOrder(x: XState, e: XStep)
    requires XInv(x) && XEnabled(x, e) && EndsCall(x, e)
    ensures Ended(x, e).history != [] && Order(Ended(x, e))
  {
    var s, t := x.core, Ended(x, e);
    hide ReaderBase, Increasing, LastBelow;
    forall i | 0 <= i < |t.readers| ensures ReaderOrder(t, t.readers[i]) { assert ReaderOrder(s, s.readers[i]); }
  }

  /** A step keeps what the second door guarantees unless it leaves more than ten permits. */
  lemma StepXBase(x: XState, e: XStep)
    requires XBase(x) && XEnabled(x, e) && Total(Ended(x, e)) <= MAX_SEM_COUNT
    ensures XBase(XNext(x, e)) && Size(Ended(x, e)) == Size(x.core)
  {
    if e.Core? {
      hide Base;
      StepBase(x.core, e.step);
      SizeStays(x.core, e.step);
      if x.phase != Normal { ReaderKeepsOthers(x.core, e.step, e.step.i); }
    } else if EndsCall(x, e) {
      EndedBase(x, e);
    } else if e.SignalTimeout? {
      SignalTimeoutBase(x);
    }
  }

  lemma SizeStays(s: State, step: Step)
    requires Enabled(s, step)
    ensures Size(Next(s, step)) == Size(s)
  {
  }

  lemma SignalTimeoutBase(x: XState)
    requires XBase(x) && XEnabled(x, SignalTimeout)
    ensures Base(Ended(x, SignalTimeout)) && Total(Ended(x, SignalTimeout)) < MAX_SEM_COUNT
  {
    var s, t := x.core, Ended(x, SignalTimeout);
    hide Rising, Untorn, LastBelow;
    forall i | 0 <= i < |t.readers| ensures ReaderBase(t, t.readers[i]) { assert ReaderBase(s, s.readers[i]); }
  }

  /** Only the end of a failed call can leave more permits than before. */
  lemma ExcessEndsCall(x: XState, e: XStep)
    requires XBase(x) && XEnabled(x, e) && Total(Ended(x, e)) > MAX_SEM_COUNT
    ensures EndsCall(x, e)
  {
    hide Shape, Holder, Mapping, ReaderBase;
    if e.Core? { StepBase(x.core, e.step); } else if e.SignalTimeout? { SignalTimeoutBase(x); }
  }

  /** The timeout does no harm exactly if the call hands back what it has taken. */
  lemma HarmlessIff(x: XState, e: XStep)
    requires XInv(x) && XEnabled(x, e) && EndsCall(x, e)
    ensures Inv(Ended(x, e)) <==> Given(x, e) == x.core.writer.k
  {
    assert x.core.writer.Acquiring?;
    hide Order, Shape, Holder, Mapping, ReaderBase, Ended, XEnabled;
    EndedTotal(x, e);
    EndedBase(x, e);
    EndedOrder(x, e);
  }

  // ---------- too many permits: torn images ----------

  /** The run ends with reader i returning an image that is none of the frames. */
  predicate Tears(s: State, steps: seq<Step>, i: nat) {
    && IsRun(s, steps) && i < |After(s, steps).readers|
    && var log := After(s, steps).readers[i].log; log != [] && log[|log| - 1].data !in After(s, steps).history
  }

  predicate CopiesFit(s: State) {
    forall j :: 0 <= j < |s.readers| && s.readers[j].pc == Copying ==> |s.readers[j].dest| <= |s.buf|
  }

  lemma {:induction false} SomeOther(rs: seq<Reader>, i: int) returns (j: nat)
    requires HeldByReaders(rs) > if 0 <= i < |rs| then Held(rs[i]) else 0
    ensures j < |rs| && j != i && rs[j].pc == Copying
  {
    var n := |rs| - 1;
    if n != i && rs[n].pc == Copying { j := n; } else { j := SomeOther(rs[..n], i); }
  }

  function Kept(rs: seq<Reader>, i: int): nat { if 0 <= i < |rs| then Held(rs[i]) else 0 }

  /** Readers other than the i-th finish until all ten permits are available. */
  lemma {:induction false} Drain(s: State, i: int) returns (steps: seq<Step>)
    requires s.writer == Idle && s.history != [] && CopiesFit(s) && s.avail <= MAX_SEM_COUNT
    requires s.avail + HeldByReaders(s.readers) >= MAX_SEM_COUNT + Kept(s.readers, i)
    ensures IsRun(s, steps)
    ensures var t := After(s, steps);
      && t.avail == MAX_SEM_COUNT && |t.readers| == |s.readers|
      && t == s.(avail := MAX_SEM_COUNT, readers := t.readers)
      && (0 <= i < |s.readers| ==> t.readers[i] == s.readers[i])
    decreases MAX_SEM_COUNT - s.avail
  {
    hide Enabled, Next, IsRun, After;
    if s.avail == MAX_SEM_COUNT {
      steps := [];
      EmptyRun(s);
    } else {
      var j := SomeOther(s.readers, i);
      var data := s.readers[j].dest + s.buf[|s.readers[j].dest|..];
      var u := Returned(s, j, data);
      ReadRunReturns(s, j);
      HeldUpdate(s.readers, j, u.readers[j]);
      var more := Drain(u, i);
      steps := ReadRun(j, |s.buf| - |s.readers[j].dest|) + more;
      RunConcat(s, ReadRun(j, |s.buf| - |s.readers[j].dest|), more);
    }
  }

  lemma EmptyRun(s: State)
    ensures IsRun(s, []) && After(s, []) == s
  {
  }

  /** A number above every cell of the frames. */
  function Top(frame: seq<int>): (v: int)
    ensures forall n :: 0 <= n < |frame| ==> frame[n] < v
  {
    if frame == [] then 0
    else
      var m := Top(frame[..|frame| - 1]);
      if m > frame[|frame| - 1] then m else frame[|frame| - 1] + 1
  }

  function TopOf(frames: seq<seq<int>>): (v: int)
    ensures forall f, n :: 0 <= f < |frames| && 0 <= n < |frames[f]| ==> frames[f][n] < v
  {
    if frames == [] then 0
    else
      var m, l := TopOf(frames[..|frames| - 1]), Top(frames[|frames| - 1]);
      if m > l then m else l
  }

  /** The writer is free, all permits are available, and reader i is copying all the same. */
  predicate Overfull(s: State, i: nat) {
    && s.writer == Idle && s.avail == MAX_SEM_COUNT && s.history != [] && |s.buf| >= 2 && !s.owner.ByReader?
    && ReaderAt(s, i, Copying) && |s.readers[i].dest| <= |s.buf|
  }

  /** The next write gets all its permits and opens the first door; reader i returns, comes in again, and copies the
      first cell before the writer does. */
  lemma ReaderSlipsIn(s: State, frame: seq<int>, i: nat) returns (steps: seq<Step>)
    requires Overfull(s, i) && |frame| == Size(s)
    ensures IsRun(s, steps)
    ensures var t := After(s, steps);
      && t.buf == s.buf && t.src == frame && t.writer == Writing(0) && t.history == s.history + [frame]
      && ReaderAt(t, i, Copying) && t.readers[i].dest == s.buf[..1]
  {
    hide Enabled, Next, IsRun, After;
    OpenRun(s, frame);
    var open := [StartWrite(frame)] + Repeat(AcquirePermit, MAX_SEM_COUNT) + [ReleaseSignal];
    var u := After(s, open);
    var rest := ReadRun(i, |u.buf| - |u.readers[i].dest|);
    ReadRunReturns(u, i);
    RunConcat(s, open, rest);
    var v := After(u, rest);
    EnterRunEnters(v, i);
    RunConcat(s, open + rest, EnterRun(i));
    FirstCell(Entered(v, i), i);
    RunSnoc(s, open + rest + EnterRun(i), ReadCell(i));
    steps := open + rest + EnterRun(i) + [ReadCell(i)];
  }

  lemma FirstCell(s: State, i: nat)
    requires ReaderAt(s, i, Copying) && s.readers[i].dest == [] && s.buf != []
    ensures Enabled(s, ReadCell(i))
    ensures var t := Next(s, ReadCell(i));
      t == s.(readers := t.readers) && ReaderAt(t, i, Copying) && t.readers[i].dest == s.buf[..1]
  {
  }

  lemma OverfullTears(s: State, i: nat) returns (steps: seq<Step>)
    requires Overfull(s, i)
    ensures Tears(s, steps, i)
  {
    hide Enabled, Next, IsRun, After;
    var top := TopOf(s.history + [s.buf]);
    var frame := seq(|s.buf|, _ => top);
    var first := ReaderSlipsIn(s, frame, i);
    var u := After(s, first);
    var cells := Repeat(WriteCell, |frame|);
    WriteAll(u, 0);
    var v := After(u, cells);
    assert u.buf[..0] + u.src[0..] == frame;
    RunConcat(s, first, cells);
    var rest := ReadRun(i, |v.buf| - 1);
    ReadRunReturns(v, i);
    RunConcat(s, first + cells, rest);
    steps := first + cells + rest;
    var data := s.buf[..1] + frame[1..];
    assert data[0] == s.buf[0] && data[1] == top;
    Mixed(s.history, s.buf, frame, data);
  }

  /** The first cell of the old contents and the rest of a frame with new cells: equal to none of the frames. */
  lemma Mixed(history: seq<seq<int>>, old0: seq<int>, frame: seq<int>, data: seq<int>)
    requires |old0| >= 2 && |frame| >= 2 && |data| >= 2
    requires data[0] == old0[0] && data[1] == TopOf(history + [old0]) && frame[0] == TopOf(history + [old0])
    ensures data !in history + [frame]
  {
    var all := history + [old0];
    assert all[|history|] == old0;
    forall f | 0 <= f < |history| ensures history[f] != data { assert all[f] == history[f]; }
  }

  /** A state with more than ten permits in it leads to one. */
  lemma OverfullSoon(s: State) returns (steps: seq<Step>, i: nat)
    requires s.writer == Idle && s.history != [] && CopiesFit(s) && |s.buf| >= 2 && Holder(s)
    requires s.avail <= MAX_SEM_COUNT && Total(s) > MAX_SEM_COUNT
    ensures IsRun(s, steps) && Overfull(After(s, steps), i)
  {
    hide Enabled, Next, IsRun, After, Holder;
    var first := FreeMutex(s);
    var u := After(s, first);
    i := SomeHolder(u.readers);
    var more := Drain(u, i);
    RunConcat(s, first, more);
    steps := first + more;
  }

  /** A reader between its wait for the mutex and the release goes on. */
  lemma FreeMutex(s: State) returns (steps: seq<Step>)
    requires Holder(s)
    ensures IsRun(s, steps)
    ensures var t := After(s, steps);
      && t == s.(owner := t.owner, readers := t.readers) && !t.owner.ByReader? && |t.readers| == |s.readers|
      && t.owner == (if s.owner.ByReader? then Nobody else s.owner)
      && HeldByReaders(t.readers) == HeldByReaders(s.readers)
      && (forall j :: 0 <= j < |s.readers| && s.readers[j].pc != HoldSignal ==> t.readers[j] == s.readers[j])
      && (CopiesFit(s) ==> CopiesFit(t))
  {
    if s.owner.ByReader? {
      steps := [ReadUnsignal(s.owner.id)];
      assert steps[1..] == [];
      HeldUpdate(s.readers, s.owner.id, s.readers[s.owner.id].(pc := Door2));
    } else {
      steps := [];
    }
  }

  ghost predicate CanTear(s: State) { exists steps, i :: Tears(s, steps, i) }

  lemma TenPermitsNeverTear(s: State, steps: seq<Step>, i: nat)
    requires Base(s) && IsRun(s, steps)
    ensures !Tears(s, steps, i)
  {
    RunBase(s, steps);
    var t := After(s, steps);
    if i < |t.readers| && t.readers[i].log != [] {
      assert ReaderBase(t, t.readers[i]);
      assert t.history[t.readers[i].log[|t.readers[i].log| - 1].frame] in t.history;
    }
  }

  /** However many waits have timed out before: a torn image can follow exactly if more than ten permits are left. */
  lemma TearsIffExcess(x: XState, e: XStep)
    requires XBase(x) && XEnabled(x, e) && |x.core.buf| >= 2
    ensures CanTear(Ended(x, e)) <==> Total(Ended(x, e)) > MAX_SEM_COUNT
  {
    var t := Ended(x, e);
    if Total(t) <= MAX_SEM_COUNT {
      StepXBase(x, e);
      hide Ended, IsRun, After, XEnabled, Tears, Base;
      forall steps, i | Tears(t, steps, i) ensures false { TenPermitsNeverTear(t, steps, i); }
    } else {
      ExcessEndsCall(x, e);
      EndedBase(x, e);
      FitsOfBase(t);
      hide Ended, Order, IsRun, After, XEnabled;
      var first, i := OverfullSoon(t);
      var more := OverfullTears(After(t, first), i);
      RunConcat(t, first, more);
      assert Tears(t, first + more, i);
    }
  }

  /** After the first failed call that is: exactly if the call has handed back more than it had taken. */
  lemma TearsIff(x: XState, e: XStep)
    requires XInv(x) && XEnabled(x, e) && EndsCall(x, e) && |x.core.buf| >= 2
    ensures CanTear(Ended(x, e)) <==> Given(x, e) > x.core.writer.k
  {
    assert x.core.writer.Acquiring?;
    hide Ended, Order, XEnabled, CanTear;
    EndedTotal(x, e);
    TearsIffExcess(x, e);
  }

  lemma FitsOfBase(s: State)
    requires Shape(s) && forall i :: 0 <= i < |s.readers| ==> ReaderBase(s, s.readers[i])
    ensures CopiesFit(s)
  {
    forall i | 0 <= i < |s.readers| && s.readers[i].pc == Copying ensures |s.readers[i].dest| <= |s.buf| {
      assert ReaderBase(s, s.readers[i]);
    }
  }

  // ---------- too few permits: no more frames ----------

  /** During the run the copy of a further frame begins. */
  predicate Writes(s: State, steps: seq<Step>) {
    IsRun(s, steps) && |After(s, steps).history| > |s.history|
  }

  ghost predicate CanWrite(s: State) { exists steps :: Writes(s, steps) }

  predicate Starved(s: State) {
    Base(s) && Total(s) < MAX_SEM_COUNT && (s.writer == Idle || s.writer.Acquiring?)
  }

  lemma StarvedStep(s: State, step: Step)
    requires Starved(s) && Enabled(s, step)
    ensures Starved(Next(s, step)) && Next(s, step).history == s.history
  {
    StepBase(s, step);
  }

  lemma {:induction false} StarvedRun(s: State, steps: seq<Step>)
    requires Starved(s) && IsRun(s, steps)
    ensures After(s, steps).history == s.history
    decreases |steps|
  {
    hide Starved, Enabled, Next;
    if steps != [] {
      StarvedStep(s, steps[0]);
      StarvedRun(Next(s, steps[0]), steps[1..]);
    }
  }

  lemma EnoughWrites(s: State) returns (steps: seq<Step>)
    requires s.writer == Idle && s.history != [] && CopiesFit(s) && s.buf != []
    requires s.avail <= MAX_SEM_COUNT && Total(s) >= MAX_SEM_COUNT
    ensures Writes(s, steps)
  {
    hide Enabled, Next, IsRun, After;
    var first := Drain(s, -1);
    WriteRunCopies(After(s, first), s.buf);
    RunConcat(s, first, WriteRun(s.buf));
    steps := first + WriteRun(s.buf);
  }

  /** However many waits have timed out before: a further frame can be written exactly if no permit is missing. */
  lemma WritesIffEnough(x: XState, e: XStep)
    requires XBase(x) && XEnabled(x, e) && EndsCall(x, e)
    ensures CanWrite(Ended(x, e)) <==> Total(Ended(x, e)) >= MAX_SEM_COUNT
  {
    var t := Ended(x, e);
    EndedBase(x, e);
    hide Ended, IsRun, After, XEnabled;
    if Total(t) < MAX_SEM_COUNT {
      assert Starved(t);
      forall steps | Writes(t, steps) ensures false { StarvedRun(t, steps); }
    } else {
      FitsOfBase(t);
      var steps := EnoughWrites(t);
      assert Writes(t, steps);
    }
  }

  /** After the first failed call that is: exactly if the call has handed back no less than it had taken. */
  lemma WritesIff(x: XState, e: XStep)
    requires XInv(x) && XEnabled(x, e) && EndsCall(x, e)
    ensures CanWrite(Ended(x, e)) <==> Given(x, e) >= x.core.writer.k
  {
    assert x.core.writer.Acquiring?;
    hide Ended, Order, XEnabled, CanWrite;
    EndedTotal(x, e);
    WritesIffEnough(x, e);
  }

  // ---------- runs with any number of timeouts ----------

  /** No state of the run has more than ten permits. */
  predicate WithinTen(x: XState, es: seq<XStep>)
    requires XRun(x, es)
    decreases |es|
  {
    Total(x.core) <= MAX_SEM_COUNT && (es == [] || WithinTen(XNext(x, es[0]), es[1..]))
  }

  lemma {:induction false} RunXBase(x: XState, es: seq<XStep>)
    requires XBase(x) && XRun(x, es) && WithinTen(x, es)
    ensures XBase(XAfter(x, es)) && Size(XAfter(x, es).core) == Size(x.core)
    decreases |es|
  {
    hide XBase, XEnabled, XNext, Total;
    if es != [] {
      StepXBase(x, es[0]);
      RunXBase(XNext(x, es[0]), es[1..]);
    }
  }

  lemma StartXBase(contents: seq<int>, readers: nat)
    requires contents != []
    ensures XBase(XInit(contents, readers))
  {
    InitInv(contents, readers);
  }

  /** Whatever waits of the writer time out, and however often: as long as there are no more than ten permits, every
      image is one of the frames and no reader goes back. */
  lemma UntornWithinTen(contents: seq<int>, readers: nat, es: seq<XStep>, i: nat)
    requires contents != [] && XRun(XInit(contents, readers), es) && WithinTen(XInit(contents, readers), es)
    requires i < |XAfter(XInit(contents, readers), es).core.readers|
    ensures var t := XAfter(XInit(contents, readers), es).core; Untorn(t.readers[i].log, t.history) && Rising(t.readers[i].log)
  {
    StartXBase(contents, readers);
    hide XRun, XAfter;
    RunXBase(XInit(contents, readers), es);
    var t := XAfter(XInit(contents, readers), es).core;
    assert ReaderBase(t, t.readers[i]);
  }

  /** The step that first leaves more than ten permits is the first after which a torn image can follow. */
  lemma FirstExcessTears(contents: seq<int>, readers: nat, es: seq<XStep>, e: XStep)
    requires |contents| >= 2 && XRun(XInit(contents, readers), es) && WithinTen(XInit(contents, readers), es)
    requires XEnabled(XAfter(XInit(contents, readers), es), e)
    ensures var t := Ended(XAfter(XInit(contents, readers), es), e); CanTear(t) <==> Total(t) > MAX_SEM_COUNT
  {
    StartXBase(contents, readers);
    hide XRun, XAfter, XBase, XEnabled, CanTear, Total;
    RunXBase(XInit(contents, readers), es);
    TearsIffExcess(XAfter(XInit(contents, readers), es), e);
  }

  // ---------- both happen ----------

  lemma {:induction false} AcquireSome(s: State, k: nat, n: nat)
    requires s.writer == Acquiring(k) && k + n < MAX_SEM_COUNT && s.avail >= n
    ensures var steps := Repeat(AcquirePermit, n);
      IsRun(s, steps) && After(s, steps) == s.(writer := Acquiring(k + n), avail := s.avail - n)
    decreases n
  {
    if n > 0 { AcquireSome(Next(s, AcquirePermit), k + 1, n - 1); }
  }

  /** A reader holds one permit, the writer takes the other nine and waits. */
  function NineTaken(contents: seq<int>): seq<Step> {
    EnterRun(0) + [StartWrite(contents)] + Repeat(AcquirePermit, 9)
  }

  function UpToTimeout(contents: seq<int>): seq<XStep> { Cores(NineTaken(contents)) + [PermitTimeout] }

  lemma TimeoutReached(contents: seq<int>, readers: nat)
    requires contents != [] && readers >= 1
    ensures XRun(XInit(contents, readers), UpToTimeout(contents))
    ensures var x := XAfter(XInit(contents, readers), UpToTimeout(contents));
      && XInv(x) && x.phase == GivenUp && x.core.avail == 0 && x.core.writer == Acquiring(9)
      && x.core.buf == contents && ReaderAt(x.core, 0, Copying) && x.core.readers[0].dest == []
  {
    var s := Init(contents, readers);
    InitInv(contents, readers);
    EnterRunEnters(s, 0);
    RunSnoc(s, EnterRun(0), StartWrite(contents));
    AcquireSome(After(s, EnterRun(0) + [StartWrite(contents)]), 0, 9);
    RunConcat(s, EnterRun(0) + [StartWrite(contents)], Repeat(AcquirePermit, 9));
    hide IsRun, After, Inv, Enabled, Next;
    RunInv(s, NineTaken(contents));
    CoresRun(XInit(contents, readers), NineTaken(contents));
    XRunSnoc(XInit(contents, readers), Cores(NineTaken(contents)), PermitTimeout);
  }

  /** From the start, with one reader: a timeout while the reader copies, and a torn image can follow. */
  lemma TornRun(contents: seq<int>, readers: nat)
    requires |contents| >= 2 && readers >= 1
    ensures var es := UpToTimeout(contents) + [Release];
      XRun(XInit(contents, readers), es) && CanTear(XAfter(XInit(contents, readers), es).core)
  {
    hide XRun, XAfter, XInv, CanTear;
    TimeoutReached(contents, readers);
    var x := XAfter(XInit(contents, readers), UpToTimeout(contents));
    XRunSnoc(XInit(contents, readers), UpToTimeout(contents), Release);
    TearsIff(x, Release);
  }

  /** The same, but the reader finishes before the release: nine permits are lost, and no further frame is written. */
  lemma LostRun(contents: seq<int>, readers: nat)
    requires contents != [] && readers >= 1
    ensures var es := UpToTimeout(contents) + Cores(ReadRun(0, |contents|)) + [Release] + [Retry(0)];
      && XRun(XInit(contents, readers), es)
      && Total(XAfter(XInit(contents, readers), es).core) == 1 && !CanWrite(XAfter(XInit(contents, readers), es).core)
  {
    var x0 := XInit(contents, readers);
    TimeoutReached(contents, readers);
    var x := XAfter(x0, UpToTimeout(contents));
    ReadRunReturns(x.core, 0);
    ReadRunReaders(0, |contents|);
    hide XRun, XAfter, XInv, CanWrite, IsRun, After;
    CoresRun(x, ReadRun(0, |contents|));
    var y := XAfter(x, Cores(ReadRun(0, |contents|)));
    CoresInv(x, ReadRun(0, |contents|));
    XRunConcat(x0, UpToTimeout(contents), Cores(ReadRun(0, |contents|)));
    var es := UpToTimeout(contents) + Cores(ReadRun(0, |contents|));
    XRunSnoc(x0, es, Release);
    StepXInv(y, Release);
    var z := XNext(y, Release);
    XRunSnoc(x0, es + [Release], Retry(0));
    XInvConserved(z);
    EndedTotal(z, Retry(0));
    WritesIff(z, Retry(0));
  }

  lemma XInvConserved(x: XState)
    requires XInv(x)
    ensures Conserved(x.core)
  {
  }

  lemma {:induction false} ReadRunReaders(i: nat, n: nat)
    ensures ReadersOnly(ReadRun(i, n))
  {
    RepeatReaders(ReadCell(i), n);
  }

  lemma {:induction false} RepeatReaders(step: Step, n: nat)
    requires !IsWriterStep(step)
    ensures ReadersOnly(Repeat(step, n))
  {
    if n > 0 { RepeatReaders(step, n - 1); }
  }

  lemma CoresInv(x: XState, steps: seq<Step>)
    requires XInv(x) && IsRun(x.core, steps) && ReadersOnly(steps)
    ensures XInv(x.(core := After(x.core, steps)))
  {
    hide Base, Order, Conserved;
    RunInv(x.core, steps);
    ReadersKeepWriter(x.core, steps);
  }

  lemma {:induction false} ReadersKeepWriter(s: State, steps: seq<Step>)
    requires IsRun(s, steps) && ReadersOnly(steps)
    ensures After(s, steps).writer == s.writer
    decreases |steps|
  {
    hide Enabled, Next, IsWriterStep;
    if steps != [] {
      assert !IsWriterStep(steps[0]) && ReadersOnly(steps[1..]);
      ReaderKeepsOthersToo(s, steps[0]);
      ReadersKeepWriter(Next(s, steps[0]), steps[1..]);
    }
  }

  lemma ReaderKeepsOthersToo(s: State, step: Step)
    requires Enabled(s, step) && !IsWriterStep(step)
    ensures Next(s, step).writer == s.writer
  {
    ReaderKeepsOthers(s, step, step.i);
  }
}
