/** The two-door protocol of CamDataWriter / CamDataReader as an interleaved step system: one writer,
    any number of readers, one step per wait, release and copied cell.  The first door is the signal
    mutex, the second the access semaphore.  A cell is one byte of the shared mapping, which holds the
    image followed by its timestamp; `size` is the number of cells. */
module CamProtocol {
  import opened Prelude

  const MAX_SEM_COUNT: nat := 10

  datatype Owner = Nobody | ByWriter | ByReader(id: nat)

  /** What one successful ReadNextImage returned; `frame` is the number of the write it saw. */
  datatype Result = Result(frame: nat, data: seq<int>)

  datatype ReaderPc =
    | Door1                  // about to wait for the signal mutex
    | HoldSignal             // about to release it again
    | Door2                  // about to wait for a permit
    | Copying                // holds a permit; copies cells, then releases

  datatype Reader = Reader(pc: ReaderPc, dest: seq<int>, log: seq<Result>)

  datatype WriterPc =
    | Idle                   // outside WriteNextImage
    | Acquiring(k: nat)      // holds k permits
    | OpenDoor               // holds all permits, about to release the mutex
    | Writing(n: nat)        // n cells copied
    | CloseDoor              // about to wait for the mutex
    | Reopen                 // about to release all permits
    | Retrying               // that release failed; about to attempt it once more

  /** `history` lists the contents of the mapping before the first write, then every frame whose copy
      has begun; it is bookkeeping for the statements and no step depends on it. */
  datatype State = State(
    avail: nat, owner: Owner, buf: seq<int>,
    writer: WriterPc, src: seq<int>, history: seq<seq<int>>, readers: seq<Reader>)

  datatype Step =
    | StartWrite(frame: seq<int>)
    | AcquirePermit | ReleaseSignal | WriteCell | WaitSignal
    | ReleasePermits | RetryRelease(count: int)
    | ReadSignal(i: nat) | ReadUnsignal(i: nat) | TakePermit(i: nat) | ReadCell(i: nat) | Finish(i: nat)
    | GiveUp(i: nat)         // the reader's wait for a permit times out

  function Init(contents: seq<int>, readers: nat): State {
    State(MAX_SEM_COUNT, Nobody, contents, Idle, contents, [contents],
          seq(readers, _ => Reader(Door1, [], [])))
  }

  function Size(s: State): nat { |s.buf| }

  function Current(s: State): nat
    requires s.history != []
  {
    |s.history| - 1
  }

  predicate ReaderAt(s: State, i: nat, pc: ReaderPc) {
    i < |s.readers| && s.readers[i].pc == pc
  }

  /** The step can be taken now: its wait is satisfied and its thread is at that line. */
  predicate Enabled(s: State, step: Step) {
    match step
    case StartWrite(frame) => s.writer == Idle && |frame| == Size(s)
    case AcquirePermit => s.writer.Acquiring? && s.avail > 0
    case ReleaseSignal => s.writer == OpenDoor
    case WriteCell => s.writer.Writing? && s.writer.n < |s.buf| && s.writer.n < |s.src|
    case WaitSignal => s.writer == CloseDoor && (s.owner == Nobody || s.owner == ByWriter)
    case ReleasePermits => s.writer == Reopen
    case RetryRelease(_) => s.writer == Retrying
    case ReadSignal(i) => ReaderAt(s, i, Door1) && (s.owner == Nobody || s.owner == ByReader(i))
    case ReadUnsignal(i) => ReaderAt(s, i, HoldSignal)
    case TakePermit(i) => ReaderAt(s, i, Door2) && s.avail > 0
    case ReadCell(i) => ReaderAt(s, i, Copying) && |s.readers[i].dest| < |s.buf|
    case Finish(i) => ReaderAt(s, i, Copying) && |s.readers[i].dest| == |s.buf| && s.history != []
    case GiveUp(i) => ReaderAt(s, i, Door2) && s.avail == 0
  }

  function SetReader(s: State, i: nat, r: Reader): State
    requires i < |s.readers|
  {
    s.(readers := s.readers[i := r])
  }

  /** What the second attempt of ReleaseSemaphores adds; its count is a variable that was never set. */
  function Retried(avail: nat, count: int): nat {
    if count > 0 && avail + count <= MAX_SEM_COUNT then count else 0
  }

  function Next(s: State, step: Step): State
    requires Enabled(s, step)
  {
    match step
    case StartWrite(frame) => s.(writer := Acquiring(0), src := frame)
    case AcquirePermit =>
      s.(avail := s.avail - 1,
         writer := if s.writer.k + 1 < MAX_SEM_COUNT then Acquiring(s.writer.k + 1) else OpenDoor)
    case ReleaseSignal =>          // fails without effect when the writer does not own the mutex
      s.(owner := if s.owner == ByWriter then Nobody else s.owner,
         writer := Writing(0), history := s.history + [s.src])
    case WriteCell =>
      var n := s.writer.n;
      s.(buf := s.buf[n := s.src[n]], writer := if n + 1 < |s.buf| then Writing(n + 1) else CloseDoor)
    case WaitSignal => s.(owner := ByWriter, writer := Reopen)
    case ReleasePermits =>         // a release beyond the maximum fails
      if s.avail == 0 then s.(avail := MAX_SEM_COUNT, writer := Idle) else s.(writer := Retrying)
    case RetryRelease(count) => s.(avail := s.avail + Retried(s.avail, count), writer := Idle)
    case ReadSignal(i) => SetReader(s, i, s.readers[i].(pc := HoldSignal)).(owner := ByReader(i))
    case ReadUnsignal(i) =>
      SetReader(s, i, s.readers[i].(pc := Door2)).(owner := if s.owner == ByReader(i) then Nobody else s.owner)
    case TakePermit(i) => SetReader(s, i, s.readers[i].(pc := Copying, dest := [])).(avail := s.avail - 1)
    case ReadCell(i) =>
      var r := s.readers[i];
      SetReader(s, i, r.(dest := r.dest + [s.buf[|r.dest|]]))
    case Finish(i) =>
      var r := s.readers[i];
      SetReader(s, i, r.(pc := Door1, log := r.log + [Result(Current(s), r.dest)]))
        .(avail := if s.avail + 1 <= MAX_SEM_COUNT then s.avail + 1 else s.avail)
    case GiveUp(i) => SetReader(s, i, s.readers[i].(pc := Door1))
  }

  // ---------- permits ----------

  function Held(r: Reader): nat { if r.pc == Copying then 1 else 0 }

  function HeldByReaders(rs: seq<Reader>): nat {
    if rs == [] then 0 else HeldByReaders(rs[..|rs| - 1]) + Held(rs[|rs| - 1])
  }

  function HeldByWriter(w: WriterPc): nat {
    match w
    case Idle => 0
    case Acquiring(k) => k
    case _ => MAX_SEM_COUNT
  }

  /** Available, writer-held and reader-held permits together. */
  function Total(s: State): nat { s.avail + HeldByWriter(s.writer) + HeldByReaders(s.readers) }

  predicate Conserved(s: State) { Total(s) == MAX_SEM_COUNT }

  lemma {:induction false} HeldUpdate(rs: seq<Reader>, i: nat, r: Reader)
    requires i < |rs|
    ensures HeldByReaders(rs[i := r]) + Held(rs[i]) == HeldByReaders(rs) + Held(r)
  {
    var n := |rs| - 1;
    if i == n {
      assert rs[i := r][..n] == rs[..n];
    } else {
      HeldUpdate(rs[..n], i, r);
      assert rs[i := r][..n] == rs[..n][i := r];
    }
  }

  lemma {:induction false} HeldAtMost(rs: seq<Reader>, i: nat)
    requires i < |rs|
    ensures Held(rs[i]) <= HeldByReaders(rs)
  {
    var n := |rs| - 1;
    if i < n { HeldAtMost(rs[..n], i); }
  }

  lemma {:induction false} SomeHolder(rs: seq<Reader>) returns (i: nat)
    requires HeldByReaders(rs) > 0
    ensures i < |rs| && rs[i].pc == Copying
  {
    var n := |rs| - 1;
    if rs[n].pc == Copying { i := n; } else { i := SomeHolder(rs[..n]); }
  }

  // ---------- the invariant ----------

  predicate Shape(s: State) {
    && s.buf != [] && |s.src| == Size(s) && s.history != [] && s.writer != Retrying
    && (forall f :: 0 <= f < |s.history| ==> |s.history[f]| == Size(s))
    && (s.writer.Acquiring? ==> s.writer.k < MAX_SEM_COUNT)
    && (s.writer.Writing? ==> s.writer.n < Size(s) && |s.history| >= 2)
    && (s.writer == CloseDoor || s.writer == Reopen ==> |s.history| >= 2)
  }

  /** The first door is open while a frame is being written; before the first frame it always is. */
  predicate FirstDoorOpen(s: State) {
    |s.history| == 1 || s.writer.Writing? || s.writer == CloseDoor
  }

  predicate DoorRule(s: State) { s.owner == ByWriter <==> !FirstDoorOpen(s) }

  /** A reader owns the mutex exactly while it stands between its wait and its release. */
  predicate Holder(s: State) {
    && (forall i :: 0 <= i < |s.readers| ==> (s.owner == ByReader(i) <==> s.readers[i].pc == HoldSignal))
    && (s.owner.ByReader? ==> s.owner.id < |s.readers|)
  }

  /** The mapping holds the newest frame, or while it is written a prefix of it over the previous one. */
  predicate Mapping(s: State)
    requires Shape(s)
  {
    var newest := s.history[|s.history| - 1];
    if s.writer.Writing? then
      var n := s.writer.n;
      && s.src == newest
      && s.buf[..n] == newest[..n] && s.buf[n..] == s.history[|s.history| - 2][n..]
    else s.buf == newest
  }

  /** Frame numbers never go back. */
  predicate Rising(log: seq<Result>) {
    forall j, k :: 0 <= j < k < |log| ==> log[j].frame <= log[k].frame
  }

  /** From frame 1 on no frame is returned twice. */
  predicate Increasing(log: seq<Result>) {
    forall j, k :: 0 <= j < k < |log| && log[j].frame >= 1 ==> log[j].frame < log[k].frame
  }

  /** Every image returned is exactly one of the frames. */
  predicate Untorn(log: seq<Result>, history: seq<seq<int>>) {
    forall j :: 0 <= j < |log| ==> log[j].frame < |history| && log[j].data == history[log[j].frame]
  }

  predicate LastBelow(log: seq<Result>, frame: nat) {
    log != [] && log[|log| - 1].frame >= 1 ==> log[|log| - 1].frame < frame
  }

  predicate InsideWrite(s: State) { s.writer.Writing? || s.writer == CloseDoor || s.writer == Reopen }

  /** During a write no reader has seen the newest frame. */
  predicate ReaderBase(s: State, r: Reader)
    requires Shape(s)
  {
    && Rising(r.log) && Untorn(r.log, s.history)
    && (r.pc == Copying ==> |r.dest| <= Size(s) && r.dest == s.buf[..|r.dest|])
    && (InsideWrite(s) ==> LastBelow(r.log, Current(s)))
  }

  /** What the second door alone guarantees, as long as there are no more permits than ten. */
  predicate Base(s: State) {
    && Shape(s) && Total(s) <= MAX_SEM_COUNT && Holder(s) && Mapping(s)
    && forall i :: 0 <= i < |s.readers| ==> ReaderBase(s, s.readers[i])
  }

  /** A reader that is past the first door has not seen the newest frame. */
  predicate ReaderOrder(s: State, r: Reader)
    requires s.history != []
  {
    Increasing(r.log) && (r.pc != Door1 ==> LastBelow(r.log, Current(s)))
  }

  /** What the first door adds. */
  predicate Order(s: State)
    requires s.history != []
  {
    DoorRule(s) && forall i :: 0 <= i < |s.readers| ==> ReaderOrder(s, s.readers[i])
  }

  predicate Inv(s: State) { Base(s) && Order(s) && Conserved(s) }

  lemma {:induction false} NobodyHolds(rs: seq<Reader>)
    requires forall i :: 0 <= i < |rs| ==> rs[i].pc != Copying
    ensures HeldByReaders(rs) == 0
  {
    if rs != [] { NobodyHolds(rs[..|rs| - 1]); }
  }

  lemma InitInv(contents: seq<int>, readers: nat)
    requires contents != []
    ensures Inv(Init(contents, readers))
  {
    NobodyHolds(Init(contents, readers).readers);
  }

  /** Mutual exclusion: while the writer is inside the second door no reader holds a permit. */
  lemma WriterExcludesReaders(s: State, i: nat)
    requires Total(s) <= MAX_SEM_COUNT && i < |s.readers|
    requires HeldByWriter(s.writer) == MAX_SEM_COUNT
    ensures s.readers[i].pc != Copying
  {
    HeldAtMost(s.readers, i);
  }

  predicate IsWriterStep(step: Step) {
    step.StartWrite? || step.AcquirePermit? || step.ReleaseSignal? || step.WriteCell? || step.WaitSignal? || step.ReleasePermits?
    || step.RetryRelease?
  }

  predicate IsReaderStep(step: Step, i: nat) {
    step in {ReadSignal(i), ReadUnsignal(i), TakePermit(i), ReadCell(i), Finish(i), GiveUp(i)}
  }

  // ---------- each step keeps what the second door guarantees ----------

  lemma WriterStepState(s: State, step: Step)
    requires Base(s) && Enabled(s, step) && IsWriterStep(step)
    ensures var t := Next(s, step); Shape(t) && Total(t) == Total(s) && Holder(t) && Mapping(t)
  {
  }

  lemma WriterStepReader(s: State, step: Step, i: nat)
    requires Base(s) && Enabled(s, step) && IsWriterStep(step) && i < |s.readers|
    requires Shape(Next(s, step))
    ensures ReaderBase(Next(s, step), s.readers[i])
  {
    assert ReaderBase(s, s.readers[i]);
    if HeldByWriter(s.writer) == MAX_SEM_COUNT { WriterExcludesReaders(s, i); }
  }

  lemma ReaderStepState(s: State, step: Step, i: nat)
    requires Base(s) && Enabled(s, step) && IsReaderStep(step, i)
    ensures Shape(Next(s, step)) && Holder(Next(s, step)) && Mapping(Next(s, step))
  {
  }

  lemma ReaderStepPermits(s: State, step: Step, i: nat)
    requires Total(s) <= MAX_SEM_COUNT && Enabled(s, step) && IsReaderStep(step, i)
    ensures Total(Next(s, step)) == Total(s)
  {
    HeldUpdate(s.readers, i, Next(s, step).readers[i]);
    HeldAtMost(s.readers, i);
  }

  lemma ReaderStepMover(s: State, step: Step, i: nat)
    requires Base(s) && Enabled(s, step) && IsReaderStep(step, i)
    requires Shape(Next(s, step)) && !step.Finish?
    ensures ReaderBase(Next(s, step), Next(s, step).readers[i])
  {
    assert ReaderBase(s, s.readers[i]);
  }

  /** A finished copy becomes a result: it is the newest frame. */
  lemma FinishMover(s: State, i: nat)
    requires Base(s) && Enabled(s, Finish(i))
    requires Shape(Next(s, Finish(i)))
    ensures ReaderBase(Next(s, Finish(i)), Next(s, Finish(i)).readers[i])
  {
    assert ReaderBase(s, s.readers[i]);
    HeldAtMost(s.readers, i);
    assert s.readers[i].dest == s.buf;
  }

  lemma ReaderStepOthers(s: State, step: Step, i: nat, j: nat)
    requires Base(s) && Enabled(s, step) && IsReaderStep(step, i)
    requires Shape(Next(s, step)) && j < |s.readers| && j != i
    ensures ReaderBase(Next(s, step), Next(s, step).readers[j])
  {
    assert ReaderBase(s, s.readers[j]);
  }

  lemma StepBase(s: State, step: Step)
    requires Base(s) && Enabled(s, step)
    ensures Base(Next(s, step)) && Total(Next(s, step)) == Total(s)
  {
    hide Shape, Holder, Mapping, ReaderBase, Next, Total, Enabled;
    var t := Next(s, step);
    if IsWriterStep(step) {
      WriterStepState(s, step);
      WriterKeepsReaders(s, step);
      forall i | 0 <= i < |t.readers| ensures ReaderBase(t, t.readers[i]) { WriterStepReader(s, step, i); }
    } else {
      var i := step.i;
      ReaderKeepsOthers(s, step, i);
      ReaderStepState(s, step, i);
      ReaderStepPermits(s, step, i);
      forall j | 0 <= j < |t.readers| ensures ReaderBase(t, t.readers[j]) {
        if j != i {
          ReaderStepOthers(s, step, i, j);
        } else if step == Finish(i) {
          FinishMover(s, i);
        } else {
          ReaderStepMover(s, step, i);
        }
      }
    }
  }

  lemma WriterKeepsReaders(s: State, step: Step)
    requires Enabled(s, step) && IsWriterStep(step)
    ensures Next(s, step).readers == s.readers
  {
  }

  lemma ReaderKeepsOthers(s: State, step: Step, i: nat)
    requires Enabled(s, step) && IsReaderStep(step, i)
    ensures i < |s.readers| == |Next(s, step).readers|
    ensures forall j :: 0 <= j < |s.readers| && j != i ==> Next(s, step).readers[j] == s.readers[j]
    ensures var t := Next(s, step);
      t.buf == s.buf && t.writer == s.writer && t.src == s.src && t.history == s.history
  {
  }

  // ---------- and what the first door adds ----------

  lemma WriterStepOrder(s: State, step: Step, i: nat)
    requires Base(s) && Order(s) && Enabled(s, step) && IsWriterStep(step)
    ensures Next(s, step).history != [] && DoorRule(Next(s, step))
    ensures i < |s.readers| ==> ReaderOrder(Next(s, step), s.readers[i])
  {
    if i < |s.readers| {
      assert ReaderBase(s, s.readers[i]) && ReaderOrder(s, s.readers[i]);
      if HeldByWriter(s.writer) == MAX_SEM_COUNT { WriterExcludesReaders(s, i); }
    }
  }

  lemma ReaderStepDoor(s: State, step: Step, i: nat)
    requires Base(s) && Order(s) && Enabled(s, step) && IsReaderStep(step, i)
    ensures Next(s, step).history != [] && DoorRule(Next(s, step))
  {
    hide ReaderBase, ReaderOrder, Mapping;
  }

  lemma ReaderStepOrder(s: State, step: Step, i: nat)
    requires Base(s) && Order(s) && Enabled(s, step) && IsReaderStep(step, i)
    requires Next(s, step).history != []
    ensures ReaderOrder(Next(s, step), Next(s, step).readers[i])
  {
    assert ReaderBase(s, s.readers[i]) && ReaderOrder(s, s.readers[i]);
    if step.Finish? {
      hide Mapping, Total, Untorn, Rising, Increasing, LastBelow;
      IncreasingMore(s.readers[i].log, Result(Current(s), s.readers[i].dest));
    } else {
      hide Mapping, Total, Rising, Increasing;
    }
  }

  lemma IncreasingMore(log: seq<Result>, r: Result)
    requires Rising(log) && Increasing(log) && LastBelow(log, r.frame)
    ensures Increasing(log + [r])
  {
  }

  lemma StepOrder(s: State, step: Step)
    requires Base(s) && Order(s) && Enabled(s, step)
    ensures Next(s, step).history != [] && Order(Next(s, step))
  {
    hide Base, DoorRule, ReaderOrder, Next, Enabled;
    var t := Next(s, step);
    if IsWriterStep(step) {
      WriterKeepsReaders(s, step);
      WriterStepOrder(s, step, 0);
      forall i | 0 <= i < |t.readers| ensures ReaderOrder(t, t.readers[i]) { WriterStepOrder(s, step, i); }
    } else {
      ReaderKeepsOthers(s, step, step.i);
      ReaderStepDoor(s, step, step.i);
      ReaderStepOrder(s, step, step.i);
      forall j | 0 <= j < |t.readers| && j != step.i ensures ReaderOrder(t, t.readers[j]) { SameOrder(s, t, s.readers[j]); }
    }
  }

  lemma SameOrder(s: State, t: State, r: Reader)
    requires s.history != [] && t.history == s.history && ReaderOrder(s, r)
    ensures ReaderOrder(t, r)
  {
  }

  /** Every step of every thread keeps the invariant. */
  lemma StepInv(s: State, step: Step)
    requires Inv(s) && Enabled(s, step)
    ensures Inv(Next(s, step))
  {
    hide Base, Order, Enabled, Next, Total;
    StepBase(s, step);
    StepOrder(s, step);
  }

  // ---------- whole runs ----------

  predicate IsRun(s: State, steps: seq<Step>)
    decreases |steps|
  {
    steps == [] || (Enabled(s, steps[0]) && IsRun(Next(s, steps[0]), steps[1..]))
  }

  function After(s: State, steps: seq<Step>): State
    requires IsRun(s, steps)
    decreases |steps|
  {
    if steps == [] then s else After(Next(s, steps[0]), steps[1..])
  }

  lemma {:induction false} RunInv(s: State, steps: seq<Step>)
    requires Inv(s) && IsRun(s, steps)
    ensures Inv(After(s, steps))
    decreases |steps|
  {
    if steps != [] {
      StepInv(s, steps[0]);
      RunInv(Next(s, steps[0]), steps[1..]);
    }
  }

  lemma {:induction false} RunBase(s: State, steps: seq<Step>)
    requires Base(s) && IsRun(s, steps)
    ensures Base(After(s, steps)) && Total(After(s, steps)) == Total(s)
    decreases |steps|
  {
    hide Base, Enabled, Next, Total;
    if steps != [] {
      StepBase(s, steps[0]);
      RunBase(Next(s, steps[0]), steps[1..]);
    }
  }

  function FrameOf(step: Step): seq<seq<int>> {
    if step.StartWrite? then [step.frame] else []
  }

  /** The frames handed to WriteNextImage during a run, in order. */
  function Frames(steps: seq<Step>): seq<seq<int>> {
    if steps == [] then [] else FrameOf(steps[0]) + Frames(steps[1..])
  }

  /** Every frame so far: those whose copy has begun, then the one accepted but not yet begun. */
  function Accepted(s: State): seq<seq<int>> {
    s.history + if s.writer.Acquiring? || s.writer == OpenDoor then [s.src] else []
  }

  lemma StepHistory(s: State, step: Step)
    requires Enabled(s, step)
    ensures Accepted(Next(s, step)) == Accepted(s) + FrameOf(step)
  {
  }

  lemma {:induction false} RunHistory(s: State, steps: seq<Step>)
    requires IsRun(s, steps)
    ensures Accepted(After(s, steps)) == Accepted(s) + Frames(steps)
    decreases |steps|
  {
    if steps != [] {
      RunHistory(Next(s, steps[0]), steps[1..]);
      StepHistory(s, steps[0]);
      Assoc(Accepted(s), FrameOf(steps[0]), Frames(steps[1..]));
    }
  }

  /** No tearing: in every run without a timeout of the writer, each image any reader has returned, timestamp
      included, is cell for cell one frame given to WriteNextImage (or the initial contents). */
  lemma NoTearing(contents: seq<int>, readers: nat, steps: seq<Step>, i: nat, j: nat)
    requires contents != [] && IsRun(Init(contents, readers), steps)
    requires i < |After(Init(contents, readers), steps).readers|
    requires j < |After(Init(contents, readers), steps).readers[i].log|
    ensures var r := After(Init(contents, readers), steps).readers[i].log[j];
      var frames := [contents] + Frames(steps);
      r.frame < |frames| && r.data == frames[r.frame]
  {
    var s := Init(contents, readers);
    var t := After(s, steps);
    InitInv(contents, readers);
    RunInv(s, steps);
    RunHistory(s, steps);
    assert ReaderBase(t, t.readers[i]);
    assert Accepted(s) == [contents];
    assert Accepted(t)[t.readers[i].log[j].frame] == t.history[t.readers[i].log[j].frame];
  }

  /** Each reader sees every frame from frame 1 on at most once and never goes back, in every
      interleaving, including readers that passed the first door several writes before the second. */
  lemma FramesIncrease(contents: seq<int>, readers: nat, steps: seq<Step>, i: nat, j: nat, k: nat)
    requires contents != [] && IsRun(Init(contents, readers), steps)
    requires i < |After(Init(contents, readers), steps).readers|
    requires j < k < |After(Init(contents, readers), steps).readers[i].log|
    ensures var log := After(Init(contents, readers), steps).readers[i].log;
      log[j].frame <= log[k].frame && (log[j].frame >= 1 ==> log[j].frame < log[k].frame)
  {
    var s := Init(contents, readers);
    InitInv(contents, readers);
    RunInv(s, steps);
    var t := After(s, steps);
    assert ReaderBase(t, t.readers[i]) && ReaderOrder(t, t.readers[i]);
  }

  /** Permits are conserved, and no reader copies while the writer does. */
  lemma PermitsConserved(contents: seq<int>, readers: nat, steps: seq<Step>)
    requires contents != [] && IsRun(Init(contents, readers), steps)
    ensures var t := After(Init(contents, readers), steps);
      && Conserved(t)
      && (t.writer.Writing? ==> forall i :: 0 <= i < |t.readers| ==> t.readers[i].pc != Copying)
  {
    var s := Init(contents, readers);
    InitInv(contents, readers);
    RunInv(s, steps);
    var t := After(s, steps);
    if t.writer.Writing? {
      forall i | 0 <= i < |t.readers| ensures t.readers[i].pc != Copying {
        WriterExcludesReaders(t, i);
      }
    }
  }

  // ---------- progress ----------

  /** No reachable state is stuck: some thread can move without a wait timing out, and while a write
      is under way that step belongs to the write or to a reader. */
  lemma NotStuck(s: State) returns (step: Step)
    requires Inv(s)
    ensures Enabled(s, step) && !step.GiveUp? && (s.writer != Idle ==> !step.StartWrite?)
  {
    match s.writer {
      case Idle => step := StartWrite(s.buf);
      case Acquiring(k) =>
        if s.avail > 0 {
          step := AcquirePermit;
        } else {
          var i := SomeHolder(s.readers);
          assert ReaderBase(s, s.readers[i]) && ReaderOrder(s, s.readers[i]);
          step := if |s.readers[i].dest| < |s.buf| then ReadCell(i) else Finish(i);
        }
      case OpenDoor => step := ReleaseSignal;
      case Writing(n) => step := WriteCell;
      case CloseDoor => step := if s.owner == Nobody then WaitSignal else ReadUnsignal(s.owner.id);
      case Reopen => step := ReleasePermits;
    }
  }

  /** How many steps a reader can still take before the write under way ends. */
  function ReaderRank(size: nat, doorOpen: bool, r: Reader): nat {
    match r.pc
    case Door1 => 2
    case HoldSignal => 1
    case Door2 => if doorOpen then 0 else size + 4
    case Copying => if |r.dest| <= size then size - |r.dest| + 3 else 3
  }

  function ReaderRanks(size: nat, doorOpen: bool, rs: seq<Reader>): nat {
    if rs == [] then 0
    else ReaderRanks(size, doorOpen, rs[..|rs| - 1]) + ReaderRank(size, doorOpen, rs[|rs| - 1])
  }

  function WriterRank(size: nat, w: WriterPc): nat {
    match w
    case Idle => 0
    case Acquiring(k) => if k <= MAX_SEM_COUNT then (MAX_SEM_COUNT - k) + size + 3 else size + 3
    case OpenDoor => size + 3
    case Writing(n) => if n <= size then size - n + 2 else 2
    case CloseDoor => 2
    case Reopen => 1
    case Retrying => 1
  }

  /** The write has got past the point where it opens the first door. */
  predicate DoorOpen(s: State) {
    !s.writer.Acquiring? && s.writer != OpenDoor
  }

  function Rank(s: State): nat {
    WriterRank(Size(s), s.writer) + ReaderRanks(Size(s), DoorOpen(s), s.readers)
  }

  lemma {:induction false} RanksUpdate(size: nat, open: bool, rs: seq<Reader>, i: nat, r: Reader)
    requires i < |rs|
    ensures ReaderRanks(size, open, rs[i := r]) + ReaderRank(size, open, rs[i])
         == ReaderRanks(size, open, rs) + ReaderRank(size, open, r)
  {
    var n := |rs| - 1;
    if i == n {
      assert rs[i := r][..n] == rs[..n];
    } else {
      RanksUpdate(size, open, rs[..n], i, r);
      assert rs[i := r][..n] == rs[..n][i := r];
    }
  }

  lemma {:induction false} RanksDrop(size: nat, rs: seq<Reader>)
    ensures ReaderRanks(size, true, rs) <= ReaderRanks(size, false, rs)
  {
    if rs != [] { RanksDrop(size, rs[..|rs| - 1]); }
  }

  lemma WriterRankDecreases(s: State, step: Step)
    requires Inv(s) && Enabled(s, step) && IsWriterStep(step) && s.writer != Idle
    ensures Rank(Next(s, step)) < Rank(s)
  {
    RanksDrop(Size(s), s.readers);
  }

  lemma ReaderRankDecreases(s: State, step: Step, i: nat)
    requires Inv(s) && Enabled(s, step) && IsReaderStep(step, i) && !step.GiveUp?
    requires s.writer != Idle && |s.history| >= 2
    ensures ReaderRank(Size(s), DoorOpen(s), Next(s, step).readers[i]) < ReaderRank(Size(s), DoorOpen(s), s.readers[i])
  {
    assert ReaderBase(s, s.readers[i]) && ReaderOrder(s, s.readers[i]);
    HeldAtMost(s.readers, i);
  }

  /** A reader that gives up on a permit has at most to pass the first door again. */
  lemma GiveUpRank(s: State, i: nat)
    requires Enabled(s, GiveUp(i))
    ensures Rank(Next(s, GiveUp(i))) <= Rank(s) + 2
  {
    RanksUpdate(Size(s), DoorOpen(s), s.readers, i, Next(s, GiveUp(i)).readers[i]);
  }

  /** With the first door closed behind the previous frame, every other step brings the write nearer its end. */
  lemma RankDecreases(s: State, step: Step)
    requires Inv(s) && Enabled(s, step) && s.writer != Idle && |s.history| >= 2 && !step.GiveUp?
    ensures Rank(Next(s, step)) < Rank(s)
  {
    if IsWriterStep(step) {
      WriterRankDecreases(s, step);
    } else {
      var i, t := step.i, Next(s, step);
      ReaderRankDecreases(s, step, i);
      RanksUpdate(Size(s), DoorOpen(s), s.readers, i, t.readers[i]);
      assert t.readers == s.readers[i := t.readers[i]];
    }
  }

  /** A run during which the write that is under way does not end. */
  predicate StillWriting(s: State, steps: seq<Step>)
    decreases |steps|
  {
    s.writer != Idle && (steps == [] || (Enabled(s, steps[0]) && StillWriting(Next(s, steps[0]), steps[1..])))
  }

  function GiveUps(steps: seq<Step>): nat {
    if steps == [] then 0 else (if steps[0].GiveUp? then 1 else 0) + GiveUps(steps[1..])
  }

  lemma {:induction false} RanksBound(size: nat, open: bool, rs: seq<Reader>)
    ensures ReaderRanks(size, open, rs) <= |rs| * (size + 4)
  {
    if rs != [] {
      var n := |rs| - 1;
      RanksBound(size, open, rs[..n]);
      assert |rs| * (size + 4) == n * (size + 4) + (size + 4);
    }
  }

  lemma HistoryGrows(s: State, step: Step)
    requires Enabled(s, step)
    ensures |Next(s, step).history| >= |s.history|
  {
  }

  lemma {:induction false} StillWritingRank(s: State, steps: seq<Step>)
    requires Inv(s) && |s.history| >= 2 && StillWriting(s, steps)
    ensures |steps| <= Rank(s) + 3 * GiveUps(steps)
    decreases |steps|
  {
    hide Inv, Rank, Next, Enabled;
    if steps != [] {
      StepInv(s, steps[0]);
      HistoryGrows(s, steps[0]);
      if steps[0].GiveUp? { GiveUpRank(s, steps[0].i); } else { RankDecreases(s, steps[0]); }
      StillWritingRank(Next(s, steps[0]), steps[1..]);
    }
  }

  /** Bounded waiting: once frame 1 exists, a write under way ends within this many steps of all threads together,
      whatever the scheduler does; each time a reader gives up on a permit costs three more. */
  lemma WriteEnds(s: State, steps: seq<Step>)
    requires Inv(s) && |s.history| >= 2 && StillWriting(s, steps)
    ensures |steps| <= Size(s) + 13 + |s.readers| * (Size(s) + 4) + 3 * GiveUps(steps)
  {
    StillWritingRank(s, steps);
    RanksBound(Size(s), DoorOpen(s), s.readers);
  }
}
