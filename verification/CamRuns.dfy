/** Concrete runs of the step system: what one thread does when no other thread moves. */
module CamRuns {
  import opened CamProtocol

  function Repeat(step: Step, n: nat): (r: seq<Step>)
    ensures |r| == n
  {
    if n == 0 then [] else [step] + Repeat(step, n - 1)
  }

  lemma {:induction false} RunConcat(s: State, a: seq<Step>, b: seq<Step>)
    requires IsRun(s, a) && IsRun(After(s, a), b)
    ensures IsRun(s, a + b) && After(s, a + b) == After(After(s, a), b)
    decreases |a|
  {
    if a == [] {
      assert a + b == b;
    } else {
      assert (a + b)[0] == a[0] && (a + b)[1..] == a[1..] + b;
      RunConcat(Next(s, a[0]), a[1..], b);
    }
  }

  lemma RunSnoc(s: State, a: seq<Step>, step: Step)
    requires IsRun(s, a) && Enabled(After(s, a), step)
    ensures IsRun(s, a + [step]) && After(s, a + [step]) == Next(After(s, a), step)
  {
    assert [step][1..] == [];
    RunConcat(s, a, [step]);
  }

  lemma {:induction false} AcquireAll(s: State, k: nat)
    requires s.writer == Acquiring(k) && k < MAX_SEM_COUNT && s.avail >= MAX_SEM_COUNT - k
    ensures var steps := Repeat(AcquirePermit, MAX_SEM_COUNT - k);
      IsRun(s, steps) && After(s, steps) == s.(writer := OpenDoor, avail := s.avail - (MAX_SEM_COUNT - k))
    decreases MAX_SEM_COUNT - k
  {
    var t := Next(s, AcquirePermit);
    if k + 1 < MAX_SEM_COUNT {
      AcquireAll(t, k + 1);
    } else {
      assert Repeat(AcquirePermit, 1)[1..] == [];
    }
  }

  lemma {:induction false} WriteAll(s: State, n: nat)
    requires s.writer == Writing(n) && n < |s.buf| == |s.src|
    ensures var steps := Repeat(WriteCell, |s.buf| - n);
      IsRun(s, steps) && After(s, steps) == s.(writer := CloseDoor, buf := s.buf[..n] + s.src[n..])
    decreases |s.buf| - n
  {
    var t := Next(s, WriteCell);
    if n + 1 < |s.buf| {
      WriteAll(t, n + 1);
      assert t.buf[..n + 1] + s.src[n + 1..] == s.buf[..n] + s.src[n..];
    } else {
      assert Repeat(WriteCell, 1)[1..] == [];
      assert t.buf == s.buf[..n] + s.src[n..];
    }
  }

  lemma {:induction false} ReadRest(s: State, i: nat)
    requires ReaderAt(s, i, Copying) && |s.readers[i].dest| <= |s.buf|
    ensures var r := s.readers[i]; var steps := Repeat(ReadCell(i), |s.buf| - |r.dest|);
      IsRun(s, steps) && After(s, steps) == SetReader(s, i, r.(dest := r.dest + s.buf[|r.dest|..]))
    decreases |s.buf| - |s.readers[i].dest|
  {
    var r := s.readers[i];
    var m := |r.dest|;
    if m == |s.buf| {
      assert r.dest + s.buf[m..] == r.dest;
      assert s.readers[i := r] == s.readers;
    } else {
      var t := Next(s, ReadCell(i));
      ReadRest(t, i);
      assert t.readers[i].dest + s.buf[m + 1..] == r.dest + s.buf[m..];
    }
  }

  /** An uncontended WriteNextImage up to the end of the copy. */
  function WriteRun(frame: seq<int>): seq<Step> {
    ([StartWrite(frame)] + Repeat(AcquirePermit, MAX_SEM_COUNT) + [ReleaseSignal]) + Repeat(WriteCell, |frame|)
  }

  lemma OpenRun(s: State, frame: seq<int>)
    requires s.writer == Idle && s.avail == MAX_SEM_COUNT && |frame| == Size(s)
    ensures var steps := [StartWrite(frame)] + Repeat(AcquirePermit, MAX_SEM_COUNT) + [ReleaseSignal];
      && IsRun(s, steps)
      && After(s, steps) == s.(avail := 0, writer := Writing(0), src := frame, history := s.history + [frame],
                               owner := if s.owner == ByWriter then Nobody else s.owner)
  {
    var start, all := [StartWrite(frame)], Repeat(AcquirePermit, MAX_SEM_COUNT);
    assert start[1..] == [];
    AcquireAll(Next(s, StartWrite(frame)), 0);
    RunConcat(s, start, all);
    RunSnoc(s, start + all, ReleaseSignal);
  }

  lemma WriteRunCopies(s: State, frame: seq<int>)
    requires s.writer == Idle && s.avail == MAX_SEM_COUNT && |frame| == Size(s) > 0
    ensures IsRun(s, WriteRun(frame))
    ensures After(s, WriteRun(frame)) ==
      s.(avail := 0, writer := CloseDoor, src := frame, buf := frame, history := s.history + [frame],
         owner := if s.owner == ByWriter then Nobody else s.owner)
  {
    var open := [StartWrite(frame)] + Repeat(AcquirePermit, MAX_SEM_COUNT) + [ReleaseSignal];
    OpenRun(s, frame);
    var t := After(s, open);
    WriteAll(t, 0);
    assert t.buf[..0] + t.src[0..] == frame;
    RunConcat(s, open, Repeat(WriteCell, |frame|));
  }

  function ReadRun(i: nat, n: nat): seq<Step> {
    Repeat(ReadCell(i), n) + [Finish(i)]
  }

  lemma SetReaderTwice(s: State, i: nat, a: Reader, b: Reader)
    requires i < |s.readers|
    ensures SetReader(SetReader(s, i, a), i, b) == SetReader(s, i, b)
  {
    assert s.readers[i := a][i := b] == s.readers[i := b];
  }

  /** The state after reader `i` has returned `data` and handed its permit back. */
  function Returned(s: State, i: nat, data: seq<int>): State
    requires i < |s.readers| && s.history != []
  {
    SetReader(s, i, Reader(Door1, data, s.readers[i].log + [Result(Current(s), data)]))
      .(avail := if s.avail + 1 <= MAX_SEM_COUNT then s.avail + 1 else s.avail)
  }

  lemma ReadRunReturns(s: State, i: nat)
    requires ReaderAt(s, i, Copying) && |s.readers[i].dest| <= |s.buf| && s.history != []
    ensures var r := s.readers[i]; var steps := ReadRun(i, |s.buf| - |r.dest|);
      IsRun(s, steps) && After(s, steps) == Returned(s, i, r.dest + s.buf[|r.dest|..])
  {
    ReadRest(s, i);
    var r, cells := s.readers[i], Repeat(ReadCell(i), |s.buf| - |s.readers[i].dest|);
    var r' := r.(dest := r.dest + s.buf[|r.dest|..]);
    var u := After(s, cells);
    assert u == SetReader(s, i, r') && u.readers[i] == r';
    RunSnoc(s, cells, Finish(i));
    SetReaderTwice(s, i, r', Reader(Door1, r'.dest, r.log + [Result(Current(s), r'.dest)]));
  }

  /** WriteNextImage without interference, in program order. */
  function WriteCall(frame: seq<int>): seq<Step> {
    (WriteRun(frame) + [WaitSignal]) + [ReleasePermits]
  }

  lemma WriteCallWrites(s: State, frame: seq<int>)
    requires s.writer == Idle && s.avail == MAX_SEM_COUNT && !s.owner.ByReader? && |frame| == Size(s) > 0
    ensures IsRun(s, WriteCall(frame))
    ensures After(s, WriteCall(frame)) ==
      s.(owner := ByWriter, src := frame, buf := frame, history := s.history + [frame])
  {
    WriteRunCopies(s, frame);
    RunSnoc(s, WriteRun(frame), WaitSignal);
    RunSnoc(s, WriteRun(frame) + [WaitSignal], ReleasePermits);
  }

  function EnterRun(i: nat): seq<Step> {
    ([ReadSignal(i)] + [ReadUnsignal(i)]) + [TakePermit(i)]
  }

  function Entered(s: State, i: nat): State
    requires i < |s.readers| && s.avail > 0
  {
    SetReader(s, i, s.readers[i].(pc := Copying, dest := [])).(avail := s.avail - 1)
  }

  lemma EnterRunEnters(s: State, i: nat)
    requires ReaderAt(s, i, Door1) && s.owner == Nobody && s.avail > 0
    ensures IsRun(s, EnterRun(i)) && After(s, EnterRun(i)) == Entered(s, i)
  {
    assert [ReadSignal(i)][1..] == [];
    RunSnoc(s, [ReadSignal(i)], ReadUnsignal(i));
    RunSnoc(s, [ReadSignal(i)] + [ReadUnsignal(i)], TakePermit(i));
  }

  /** ReadNextImage of reader `i` without interference, in program order. */
  function ReadCall(i: nat, size: nat): seq<Step> {
    EnterRun(i) + ReadRun(i, size)
  }

  lemma EnteredReturned(s: State, i: nat)
    requires i < |s.readers| && 0 < s.avail <= MAX_SEM_COUNT && s.history != []
    ensures Returned(Entered(s, i), i, s.buf) ==
      SetReader(s, i, Reader(Door1, s.buf, s.readers[i].log + [Result(Current(s), s.buf)]))
  {
    var r := s.readers[i].(pc := Copying, dest := []);
    SetReaderTwice(s, i, r, Reader(Door1, s.buf, s.readers[i].log + [Result(Current(s), s.buf)]));
  }

  lemma ReadCallReads(s: State, i: nat)
    requires ReaderAt(s, i, Door1) && s.owner == Nobody && 0 < s.avail <= MAX_SEM_COUNT && s.history != []
    ensures IsRun(s, ReadCall(i, Size(s)))
    ensures After(s, ReadCall(i, Size(s))) ==
      SetReader(s, i, Reader(Door1, s.buf, s.readers[i].log + [Result(Current(s), s.buf)]))
  {
    EnterRunEnters(s, i);
    var t := Entered(s, i);
    ReadRunReturns(t, i);
    assert t.readers[i].dest + t.buf[0..] == s.buf;
    RunConcat(s, EnterRun(i), ReadRun(i, Size(s)));
    EnteredReturned(s, i);
  }
}
