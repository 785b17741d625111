/** WriteNextImage and ReadNextImage as the code runs them, among other threads: before every wait, release and cell copy
    any number of steps of the others may happen.  `trace` records all steps; each call is shown to take exactly the
    steps of its thread's program, whatever the others do, so that the statements about runs are about these methods. */
module CamDataInterface {
  import opened Prelude
  import opened CamProtocol
  import opened CamTimeout

  datatype Thread = WriterThread | ReaderThread(id: nat)

  function ThreadOf(e: XStep): Thread {
    if e.Core? && !IsWriterStep(e.step) then ReaderThread(e.step.i) else WriterThread
  }

  /** The steps of one thread. */
  function Mine(es: seq<XStep>, me: Thread): seq<XStep> {
    if es == [] then []
    else
      var n := |es| - 1;
      Mine(es[..n], me) + if ThreadOf(es[n]) == me then [es[n]] else []
  }

  lemma MineSnoc(es: seq<XStep>, e: XStep, me: Thread)
    ensures Mine(es + [e], me) == Mine(es, me) + if ThreadOf(e) == me then [e] else []
  {
    assert (es + [e])[..|es|] == es;
  }

  /** What the steps of the other threads leave alone. */
  predicate Undisturbed(x: XState, y: XState, me: Thread) {
    && |y.core.readers| == |x.core.readers|
    && match me
       case WriterThread =>
         && y.phase == x.phase && y.core.writer == x.core.writer && y.core.src == x.core.src
         && y.core.history == x.core.history && y.core.buf == x.core.buf
       case ReaderThread(i) =>
         && (i < |x.core.readers| ==> y.core.readers[i] == x.core.readers[i])
         && |y.core.buf| == |x.core.buf| && |y.core.history| >= |x.core.history|
  }

  lemma OtherStep(x: XState, e: XStep, me: Thread)
    requires XEnabled(x, e) && ThreadOf(e) != me
    ensures Undisturbed(x, XNext(x, e), me)
  {
    if e.Core? {
      if IsWriterStep(e.step) { WriterKeepsReaders(x.core, e.step); } else { ReaderKeepsOthers(x.core, e.step, e.step.i); }
    }
  }

  lemma SameBuf(x: XState, e: XStep)
    requires XEnabled(x, e) && !(e.Core? && e.step.WriteCell?)
    ensures XNext(x, e).core.buf == x.core.buf
  {
  }

  // ---------- programs ----------

  function XRepeat(e: XStep, n: nat): seq<XStep> { if n == 0 then [] else XRepeat(e, n - 1) + [e] }

  /** A write up to the last cell. */
  function Copied(frame: seq<int>): seq<XStep> {
    [Core(StartWrite(frame))] + XRepeat(Core(AcquirePermit), MAX_SEM_COUNT) + [Core(ReleaseSignal)]
    + XRepeat(Core(WriteCell), |frame|)
  }

  function Completed(frame: seq<int>): seq<XStep> { Copied(frame) + [Core(WaitSignal)] + [Core(ReleasePermits)] }

  /** The wait for the mutex timed out; the call returns true and keeps its permits. */
  function SignalLost(frame: seq<int>): seq<XStep> { Copied(frame) + [SignalTimeout] }

  /** The wait for a permit timed out after k of them. */
  function GaveUp(frame: seq<int>, k: nat): seq<XStep> {
    [Core(StartWrite(frame))] + XRepeat(Core(AcquirePermit), k) + [PermitTimeout] + [Release]
  }

  /** A call of WriteNextImage; a release that fails is attempted once more. */
  ghost predicate WriteProgram(frame: seq<int>, ok: bool, es: seq<XStep>) {
    if ok then
      es == SignalLost(frame) || es == Completed(frame) || exists n: int :: es == Completed(frame) + [Core(RetryRelease(n))]
    else
      exists k: nat :: k < MAX_SEM_COUNT && (es == GaveUp(frame, k) || exists n: int :: es == GaveUp(frame, k) + [Retry(n)])
  }

  lemma ProgramOk(frame: seq<int>, last: seq<XStep>)
    requires last == [SignalTimeout] || last == [Core(WaitSignal)] + [Core(ReleasePermits)]
      || exists n: int :: last == [Core(WaitSignal)] + [Core(ReleasePermits)] + [Core(RetryRelease(n))]
    ensures WriteProgram(frame, true, Copied(frame) + last)
  {
    hide Copied;
    var c, w := Copied(frame), [Core(WaitSignal)];
    Assoc(c, w, [Core(ReleasePermits)]);
    forall n: int { Assoc(c, w + [Core(ReleasePermits)], [Core(RetryRelease(n))]); }
  }

  lemma ProgramGaveUp(frame: seq<int>, k: nat, last: seq<XStep>)
    requires k < MAX_SEM_COUNT && (last == [Release] || exists n: int :: last == [Release] + [Retry(n)])
    ensures WriteProgram(frame, false, [Core(StartWrite(frame))] + XRepeat(Core(AcquirePermit), k) + [PermitTimeout] + last)
  {
    hide XRepeat;
    var c := [Core(StartWrite(frame))] + XRepeat(Core(AcquirePermit), k) + [PermitTimeout];
    assert GaveUp(frame, k) == c + [Release];
    if last != [Release] {
      var n: int :| last == [Release] + [Retry(n)];
      assert c + last == GaveUp(frame, k) + [Retry(n)];
    }
  }

  function Entering(i: nat): seq<XStep> { [Core(ReadSignal(i))] + [Core(ReadUnsignal(i))] }

  /** A failed call has stopped at one of the doors. */
  predicate ReadProgram(i: nat, size: nat, ok: bool, es: seq<XStep>) {
    if ok then es == Entering(i) + [Core(TakePermit(i))] + XRepeat(Core(ReadCell(i)), size) + [Core(Finish(i))]
    else es == [] || es == Entering(i) + [Core(GiveUp(i))]
  }

  /** As long as no timeout of the writer has had an effect, what a reader has been given is one of the frames. */
  lemma QuietDelivers(contents: seq<int>, readers: nat, es: seq<XStep>, i: nat)
    requires contents != [] && QuietRun(XInit(contents, readers), es) && XRun(XInit(contents, readers), es)
    requires var s := XAfter(XInit(contents, readers), es).core; i < |s.readers| && s.readers[i].log != []
    ensures var s := XAfter(XInit(contents, readers), es).core; s.readers[i].log[|s.readers[i].log| - 1].data in s.history
  {
    InitInv(contents, readers);
    RunXInv(XInit(contents, readers), es);
    var s := XAfter(XInit(contents, readers), es).core;
    assert ReaderBase(s, s.readers[i]);
    assert s.history[s.readers[i].log[|s.readers[i].log| - 1].frame] in s.history;
  }

  class Shared {
    var avail: nat               // count of the access semaphore
    var owner: Owner             // owner of the signal mutex
    const buf: array<int>        // the file mapping
    var writer: WriterPc
    var phase: Phase             // where a failed WriteNextImage stands
    var src: seq<int>
    var history: seq<seq<int>>
    var readers: seq<Reader>
    ghost var start: XState
    ghost var trace: seq<XStep>

    function View(): XState
      reads this, buf
    {
      XState(State(avail, owner, buf[..], writer, src, history, readers), phase)
    }

    /** The state is the result of the recorded steps. */
    ghost predicate Valid()
      reads this, buf
    {
      XRun(start, trace) && XAfter(start, trace) == View()
    }

    constructor (size: nat, numReaders: nat)
      ensures Valid() && fresh(buf) && buf.Length == size && trace == []
      ensures start == XInit(buf[..], numReaders)
    {
      avail, owner, writer, phase := MAX_SEM_COUNT, Nobody, Idle, Normal;
      buf := new int[size];
      readers := seq(numReaders, _ => Reader(Door1, [], []));
      new;
      src, history := buf[..], [buf[..]];
      start, trace := View(), [];
    }

    /** The fields have taken the step. */
    ghost method Record(e: XStep, before: XState)
      requires XRun(start, trace) && XAfter(start, trace) == before && XEnabled(before, e) && View() == XNext(before, e)
      modifies this`trace
      ensures Valid() && trace == old(trace) + [e]
      ensures forall me :: Mine(trace, me) == old(Mine(trace, me)) + if ThreadOf(e) == me then [e] else []
    {
      hide XEnabled, XNext;
      XRunSnoc(start, trace, e);
      forall me { MineSnoc(trace, e, me); }
      trace := trace + [e];
    }

    /** One step of any thread, not recorded yet. */
    method Move(e: XStep)
      requires XEnabled(View(), e)
      modifies this`avail, this`owner, this`writer, this`phase, this`src, this`history, this`readers, buf
      ensures View() == XNext(old(View()), e)
    {
      var x := XNext(View(), e);
      if e.Core? && e.step.WriteCell? {
        hide HeldByReaders;
        buf[writer.n] := src[writer.n];
        writer := x.core.writer;
      } else {
        hide Next;
        SameBuf(View(), e);
        avail, owner, writer, phase := x.core.avail, x.core.owner, x.core.writer, x.phase;
        src, history, readers := x.core.src, x.core.history, x.core.readers;
      }
    }

    method Take(e: XStep)
      requires Valid() && XEnabled(View(), e)
      modifies this, buf
      ensures Valid() && start == old(start) && trace == old(trace) + [e] && View() == XNext(old(View()), e)
      ensures forall me :: Mine(trace, me) == old(Mine(trace, me)) + if ThreadOf(e) == me then [e] else []
    {
      hide XEnabled, XNext, XRun, XAfter;
      ghost var before := View();
      Move(e);
      Record(e, before);
    }

    /** Any number of steps of the other threads. */
    method Others(me: Thread)
      requires Valid()
      modifies this, buf
      ensures Valid() && start == old(start) && old(trace) <= trace
      ensures Mine(trace, me) == old(Mine(trace, me)) && Undisturbed(old(View()), View(), me)
    {
      hide XRun, XAfter, XEnabled, XNext;
      var n: nat := *;
      while n > 0
        invariant Valid() && start == old(start) && old(trace) <= trace
        invariant Mine(trace, me) == old(Mine(trace, me)) && Undisturbed(old(View()), View(), me)
      {
        var e: XStep := *;
        if XEnabled(View(), e) && ThreadOf(e) != me {
          OtherStep(View(), e, me);
          Take(e);
        }
        n := n - 1;
      }
    }

    /** Since the beginning of the method this thread has taken exactly these steps. */
    twostate predicate Ran(me: Thread, es: seq<XStep>)
      reads this, buf
    {
      Valid() && start == old(start) && old(trace) <= trace && Mine(trace, me) == old(Mine(trace, me)) + es
    }

    // ---------- WriteNextImage ----------

    method Begin(frame: seq<int>)
      requires Valid() && writer == Idle && phase == Normal && |frame| == buf.Length
      modifies this`writer, this`src, this`trace
      ensures Ran(WriterThread, [Core(StartWrite(frame))]) && writer == Acquiring(0) && src == frame
    {
      ghost var before := View();
      writer, src := Acquiring(0), frame;
      Record(Core(StartWrite(frame)), before);
    }

    /** WaitForSingleObject on the semaphore. */
    method WaitPermit() returns (ok: bool)
      requires Valid() && writer.Acquiring? && phase == Normal
      modifies this, buf
      ensures Ran(WriterThread, [if ok then Core(AcquirePermit) else PermitTimeout]) && src == old(src)
      ensures ok ==> phase == Normal && writer == if old(writer).k + 1 < MAX_SEM_COUNT then Acquiring(old(writer).k + 1) else OpenDoor
      ensures !ok ==> phase == GivenUp && writer == old(writer)
    {
      Others(WriterThread);
      ghost var before := View();
      ok := avail > 0;
      if ok {
        avail := avail - 1;
        writer := if writer.k + 1 < MAX_SEM_COUNT then Acquiring(writer.k + 1) else OpenDoor;
        Record(Core(AcquirePermit), before);
      } else {
        phase := GivenUp;
        Record(PermitTimeout, before);
      }
    }

    /** AcquireSemaphores: gives up at the first timeout and keeps what it has acquired. */
    method AcquireSemaphores() returns (ok: bool, ghost k: nat)
      requires Valid() && writer == Acquiring(0) && phase == Normal
      modifies this, buf
      ensures Ran(WriterThread, XRepeat(Core(AcquirePermit), k) + if ok then [] else [PermitTimeout]) && src == old(src)
      ensures ok ==> k == MAX_SEM_COUNT && writer == OpenDoor && phase == Normal
      ensures !ok ==> k < MAX_SEM_COUNT && writer == Acquiring(k) && phase == GivenUp
    {
      hide XRun, XAfter;
      var i := 0;
      while i < MAX_SEM_COUNT
        invariant i <= MAX_SEM_COUNT && src == old(src) && phase == Normal
        invariant writer == if i < MAX_SEM_COUNT then Acquiring(i) else OpenDoor
        invariant Ran(WriterThread, XRepeat(Core(AcquirePermit), i))
      {
        var result := WaitPermit();
        if !result {
          return false, i;
        }
        i := i + 1;
      }
      return true, i;
    }

    /** ReleaseSemaphore; it fails beyond the maximum, and for a count that is not positive. */
    method ReleaseSemaphore(count: int) returns (ok: bool)
      modifies this`avail
      ensures ok <==> count > 0 && old(avail) + count <= MAX_SEM_COUNT
      ensures avail == if ok then old(avail) + count else old(avail)
    {
      ok := count > 0 && avail + count <= MAX_SEM_COUNT;
      if ok {
        avail := avail + count;
      }
    }

    /** ReleaseSemaphores after a timeout. */
    method ReleaseAfterTimeout() returns (ghost es: seq<XStep>)
      requires Valid() && writer.Acquiring? && phase == GivenUp
      modifies this, buf
      ensures Ran(WriterThread, es) && (es == [Release] || exists n: int :: es == [Release] + [Retry(n)])
      ensures writer == Idle && phase == Normal
    {
      hide XRun, XAfter;
      var released := ReleaseTen();
      es := [Release];
      if !released {
        ghost var n := ReleaseOnceMore();
        es := [Release] + [Retry(n)];
      }
    }

    method ReleaseTen() returns (ok: bool)
      requires Valid() && writer.Acquiring? && phase == GivenUp
      modifies this, buf
      ensures Ran(WriterThread, [Release])
      ensures if ok then writer == Idle && phase == Normal else writer == old(writer) && phase == Again
    {
      hide XRun, XAfter;
      Others(WriterThread);
      ghost var before := View();
      ok := ReleaseSemaphore(MAX_SEM_COUNT);
      writer, phase := if ok then Idle else writer, if ok then Normal else Again;
      Record(Release, before);
    }

    /** The count of the second attempt has never been set. */
    method ReleaseOnceMore() returns (ghost count: int)
      requires Valid() && writer.Acquiring? && phase == Again
      modifies this, buf
      ensures Ran(WriterThread, [Retry(count)]) && writer == Idle && phase == Normal
    {
      hide XRun, XAfter;
      Others(WriterThread);
      ghost var before := View();
      var prevCount: int := *;
      var released := ReleaseSemaphore(prevCount);
      writer, phase, count := Idle, Normal, prevCount;
      Record(Retry(prevCount), before);
    }

    /** ReleaseSemaphores at the end of a write. */
    method ReleaseAfterWrite() returns (ghost es: seq<XStep>)
      requires Valid() && writer == Reopen && phase == Normal
      modifies this, buf
      ensures Ran(WriterThread, es)
      ensures es == [Core(ReleasePermits)] || exists n: int :: es == [Core(ReleasePermits)] + [Core(RetryRelease(n))]
      ensures writer == Idle && phase == Normal
    {
      hide XRun, XAfter;
      Others(WriterThread);
      ghost var before := View();
      var released := ReleaseSemaphore(MAX_SEM_COUNT);
      writer := if released then Idle else Retrying;
      Record(Core(ReleasePermits), before);
      es := [Core(ReleasePermits)];
      if !released {
        ghost var n := RetryAfterWrite();
        es := [Core(ReleasePermits)] + [Core(RetryRelease(n))];
      }
    }

    method RetryAfterWrite() returns (ghost count: int)
      requires Valid() && writer == Retrying && phase == Normal
      modifies this, buf
      ensures Ran(WriterThread, [Core(RetryRelease(count))]) && writer == Idle && phase == Normal
    {
      hide XRun, XAfter;
      Others(WriterThread);
      ghost var before := View();
      var prevCount: int := *;
      var released := ReleaseSemaphore(prevCount);
      writer, count := Idle, prevCount;
      Record(Core(RetryRelease(prevCount)), before);
    }

    /** ReleaseMutex by the writer, which fails when it is not the owner. */
    method OpenFirstDoor()
      requires Valid() && writer == OpenDoor && phase == Normal
      modifies this, buf
      ensures Ran(WriterThread, [Core(ReleaseSignal)]) && writer == Writing(0) && src == old(src) && phase == Normal
    {
      Others(WriterThread);
      ghost var before := View();
      if owner == ByWriter {
        owner := Nobody;
      }
      writer, history := Writing(0), history + [src];
      Record(Core(ReleaseSignal), before);
    }

    /** CopyMemory of the frame, image and timestamp. */
    method CopyFrame()
      requires Valid() && writer == Writing(0) && phase == Normal && |src| == buf.Length > 0
      modifies this, buf
      ensures Ran(WriterThread, XRepeat(Core(WriteCell), buf.Length)) && writer == CloseDoor && phase == Normal
      ensures src == old(src) && buf[..] == src
    {
      hide XRun, XAfter;
      var n := 0;
      while n < buf.Length
        invariant 0 <= n <= buf.Length && src == old(src) && phase == Normal && buf[..n] == src[..n]
        invariant writer == if n < buf.Length then Writing(n) else CloseDoor
        invariant Ran(WriterThread, XRepeat(Core(WriteCell), n))
      {
        CopyCell(n);
        n := n + 1;
      }
    }

    method CopyCell(n: nat)
      requires Valid() && writer == Writing(n) && phase == Normal && |src| == buf.Length && n < buf.Length
      modifies this, buf
      ensures Ran(WriterThread, [Core(WriteCell)]) && src == old(src) && phase == Normal
      ensures writer == (if n + 1 < buf.Length then Writing(n + 1) else CloseDoor) && buf[..] == old(buf[..])[n := src[n]]
    {
      Others(WriterThread);
      ghost var before := View();
      buf[n] := src[n];
      writer := if n + 1 < buf.Length then Writing(n + 1) else CloseDoor;
      Record(Core(WriteCell), before);
    }

    /** WaitForSingleObject on the mutex, by the writer. */
    method CloseFirstDoor() returns (ok: bool)
      requires Valid() && writer == CloseDoor && phase == Normal
      modifies this, buf
      ensures Ran(WriterThread, [if ok then Core(WaitSignal) else SignalTimeout]) && phase == Normal
      ensures writer == if ok then Reopen else Idle
    {
      Others(WriterThread);
      ghost var before := View();
      ok := owner == Nobody || owner == ByWriter;
      if ok {
        owner, writer := ByWriter, Reopen;
        Record(Core(WaitSignal), before);
      } else {
        writer := Idle;
        Record(SignalTimeout, before);
      }
    }

    /** Both doors are the writer's: the frame is copied, and the doors are set for the readers. */
    method Publish() returns (ghost es: seq<XStep>)
      requires Valid() && writer == OpenDoor && phase == Normal && |src| == buf.Length > 0
      modifies this, buf
      ensures Ran(WriterThread, [Core(ReleaseSignal)] + XRepeat(Core(WriteCell), buf.Length) + es) && writer == Idle && phase == Normal
      ensures es == [SignalTimeout] || es == [Core(WaitSignal)] + [Core(ReleasePermits)]
        || exists n: int :: es == [Core(WaitSignal)] + [Core(ReleasePermits)] + [Core(RetryRelease(n))]
    {
      hide XRun, XAfter, XRepeat;
      OpenFirstDoor();
      CopyFrame();
      var closed := CloseFirstDoor();
      es := [if closed then Core(WaitSignal) else SignalTimeout];
      if closed {
        ghost var last := ReleaseAfterWrite();
        es := es + last;
      }
    }

    /** The call up to the permits. */
    method CloseSecondDoor(frame: seq<int>) returns (ok: bool, ghost k: nat)
      requires Valid() && writer == Idle && phase == Normal && |frame| == buf.Length
      modifies this, buf
      ensures Ran(WriterThread,
        [Core(StartWrite(frame))] + XRepeat(Core(AcquirePermit), k) + if ok then [] else [PermitTimeout])
      ensures ok ==> k == MAX_SEM_COUNT && writer == OpenDoor && phase == Normal && src == frame
      ensures !ok ==> k < MAX_SEM_COUNT && writer == Acquiring(k) && phase == GivenUp
    {
      hide XRun, XAfter, XRepeat;
      Begin(frame);
      ok, k := AcquireSemaphores();
    }

    /** Whatever the other threads do, the call takes the steps of its program, and no others. */
    method WriteNextImage(frame: seq<int>) returns (ok: bool, ghost es: seq<XStep>)
      requires Valid() && writer == Idle && phase == Normal && |frame| == buf.Length > 0
      modifies this, buf
      ensures Ran(WriterThread, es) && WriteProgram(frame, ok, es) && writer == Idle && phase == Normal
    {
      hide XRun, XAfter, XRepeat;
      ghost var k, last;
      ok, k := CloseSecondDoor(frame);
      if ok {
        last := Publish();
        es := Copied(frame) + last;
        ProgramOk(frame, last);
      } else {
        last := ReleaseAfterTimeout();
        es := [Core(StartWrite(frame))] + XRepeat(Core(AcquirePermit), k) + [PermitTimeout] + last;
        ProgramGaveUp(frame, k, last);
      }
    }

    // ---------- ReadNextImage ----------

    /** The two waits of reader i; false at the first one that times out. */
    method Enter(i: nat) returns (ok: bool, ghost es: seq<XStep>)
      requires Valid() && i < |readers| && readers[i].pc == Door1
      modifies this, buf
      ensures Ran(ReaderThread(i), es) && |readers| == old(|readers|) && |history| >= old(|history|)
      ensures if ok then es == Entering(i) + [Core(TakePermit(i))] && readers[i] == old(readers[i]).(pc := Copying, dest := [])
        else (es == [] || es == Entering(i) + [Core(GiveUp(i))]) && readers[i] == old(readers[i])
    {
      hide XRun, XAfter;
      es := [];
      ok := TakeSignal(i);
      if ok {
        FreeSignal(i);
        ok := SecondDoor(i);
        es := Entering(i) + [if ok then Core(TakePermit(i)) else Core(GiveUp(i))];
      }
    }

    /** WaitForSingleObject on the mutex, by a reader; a timeout leaves no trace. */
    method TakeSignal(i: nat) returns (ok: bool)
      requires Valid() && i < |readers| && readers[i].pc == Door1
      modifies this, buf
      ensures Ran(ReaderThread(i), if ok then [Core(ReadSignal(i))] else [])
      ensures |readers| == old(|readers|) && |history| >= old(|history|)
      ensures readers[i] == old(readers[i]).(pc := if ok then HoldSignal else Door1)
    {
      hide XRun, XAfter;
      Others(ReaderThread(i));
      ok := owner == Nobody || owner == ByReader(i);
      if ok {
        ghost var before := View();
        owner, readers := ByReader(i), readers[i := readers[i].(pc := HoldSignal)];
        Record(Core(ReadSignal(i)), before);
      }
    }

    method FreeSignal(i: nat)
      requires Valid() && i < |readers| && readers[i].pc == HoldSignal
      modifies this, buf
      ensures Ran(ReaderThread(i), [Core(ReadUnsignal(i))]) && |readers| == old(|readers|) && |history| >= old(|history|)
      ensures readers[i] == old(readers[i]).(pc := Door2)
    {
      hide XRun, XAfter;
      Others(ReaderThread(i));
      ghost var before := View();
      if owner == ByReader(i) {
        owner := Nobody;
      }
      readers := readers[i := readers[i].(pc := Door2)];
      Record(Core(ReadUnsignal(i)), before);
    }

    method SecondDoor(i: nat) returns (ok: bool)
      requires Valid() && i < |readers| && readers[i].pc == Door2
      modifies this, buf
      ensures Ran(ReaderThread(i), [if ok then Core(TakePermit(i)) else Core(GiveUp(i))])
      ensures |readers| == old(|readers|) && |history| >= old(|history|)
      ensures readers[i] == if ok then old(readers[i]).(pc := Copying, dest := []) else old(readers[i]).(pc := Door1)
    {
      hide XRun, XAfter;
      Others(ReaderThread(i));
      ghost var before := View();
      ok := avail > 0;
      if ok {
        avail := avail - 1;
        readers := readers[i := readers[i].(pc := Copying, dest := [])];
        Record(Core(TakePermit(i)), before);
      } else {
        readers := readers[i := readers[i].(pc := Door1)];
        Record(Core(GiveUp(i)), before);
      }
    }

    method ReadOneCell(i: nat)
      requires Valid() && i < |readers| && readers[i].pc == Copying && |readers[i].dest| < buf.Length
      modifies this, buf
      ensures Ran(ReaderThread(i), [Core(ReadCell(i))]) && |readers| == old(|readers|) && |history| >= old(|history|)
      ensures var r := old(readers[i]); readers[i] == r.(dest := readers[i].dest) && |readers[i].dest| == |r.dest| + 1
    {
      hide XRun, XAfter;
      Others(ReaderThread(i));
      ghost var before := View();
      readers := readers[i := readers[i].(dest := readers[i].dest + [buf[|readers[i].dest|]])];
      Record(Core(ReadCell(i)), before);
    }

    /** ReleaseSemaphore(1) and the return to the caller. */
    method Leave(i: nat) returns (dest: seq<int>)
      requires Valid() && i < |readers| && readers[i].pc == Copying && |readers[i].dest| == buf.Length && history != []
      modifies this, buf
      ensures Ran(ReaderThread(i), [Core(Finish(i))]) && |readers| == old(|readers|) && readers[i].pc == Door1
      ensures readers[i].log != [] && dest == readers[i].log[|readers[i].log| - 1].data
    {
      hide XRun, XAfter;
      Others(ReaderThread(i));
      ghost var before := View();
      dest := readers[i].dest;
      var released := ReleaseSemaphore(1);
      readers := readers[i := readers[i].(pc := Door1, log := readers[i].log + [Result(|history| - 1, dest)])];
      Record(Core(Finish(i)), before);
    }

    /** Whatever the other threads do, the call takes the steps of its program; and as long as no timeout of the writer
        has had an effect, what it delivers is one of the frames. */
    method ReadNextImage(i: nat) returns (ok: bool, dest: seq<int>, ghost es: seq<XStep>)
      requires Valid() && i < |readers| && readers[i].pc == Door1 && history != []
      modifies this, buf
      ensures Ran(ReaderThread(i), es) && ReadProgram(i, buf.Length, ok, es)
      ensures i < |readers| && readers[i].pc == Door1
      ensures forall contents, n :: ok && contents != [] && start == XInit(contents, n) && QuietRun(start, trace) ==> dest in history
    {
      hide XRun, XAfter, QuietRun;
      ok, es := Enter(i);
      if !ok {
        return false, [], es;
      }
      var n := 0;
      while n < buf.Length
        invariant 0 <= n <= buf.Length && i < |readers| && readers[i].pc == Copying && |readers[i].dest| == n && history != []
        invariant Ran(ReaderThread(i), es + XRepeat(Core(ReadCell(i)), n))
      {
        ReadOneCell(i);
        n := n + 1;
      }
      dest := Leave(i);
      es := es + XRepeat(Core(ReadCell(i)), n) + [Core(Finish(i))];
      forall contents, m | contents != [] && start == XInit(contents, m) && QuietRun(start, trace) ensures dest in history {
        QuietDelivers(contents, m, trace, i);
      }
    }
  }
}
