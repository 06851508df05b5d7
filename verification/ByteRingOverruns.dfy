/** When exactly the interleaved byte ring delivers first in, first out (buffer_read_write_fun.cxx,
    CharBufferWrite and CharBufferRead, no lock). A wrong test need not do harm: the other side may
    move on before the byte is published or delivered. What does harm are three statements. */
module ByteRingOverruns {
  import opened Bytes
  import opened ByteRing
  import opened ByteRingThreads

  /** Accepted is delivered followed by queued. */
  predicate Lawful(s: State)
    requires InRange(s)
  {
    s.accepted == s.delivered + Settled(s).Queue()
  }

  /** The same law, of numbers of bytes only. */
  predicate Counted(s: State)
    requires InRange(s)
  {
    |s.accepted| == |s.delivered| + |Settled(s).Queue()|
  }

  /** The writer moves its offset although the ring is full. */
  predicate Overruns(s: State, step: Step)
    requires InRange(s)
  {
    step == WriterNext && s.w.WStored? && ReallyFull(s)
  }

  /** The reader moves its offset although the ring is empty. */
  predicate Underruns(s: State, step: Step)
    requires InRange(s)
  {
    step == ReaderNext && s.r.RLoaded? && ReallyEmpty(s)
  }

  /** The reader delivers a byte that its cell no longer holds. */
  predicate Stale(s: State, step: Step)
    requires InRange(s)
  {
    step == ReaderNext && s.r.RLoaded? && s.mem[s.rd] != s.r.b
  }

  /** A byte the writer has stored stays in its cell until it is published. */
  predicate StoredHolds(s: State)
    requires InRange(s)
  {
    s.w.WStored? ==> s.mem[s.wr] == s.w.b
  }

  // ---------- One statement ----------

  /** Every statement but a publishing and a delivering one leaves the queue and both records alone. */
  lemma OtherStepsKeepQueue(s: State, step: Step)
    requires InRange(s)
    requires step == WriterNext ==> !s.w.WStored?
    requires step == ReaderNext ==> !s.r.RLoaded?
    ensures var s' := Do(s, step);
            && Settled(s').Queue() == Settled(s).Queue()
            && s'.accepted == s.accepted && s'.delivered == s.delivered
  {
    hide Ring.Queue;
    if step == WriterNext && s.w.WTested? {
      WriteCellIsFree(Settled(s), s.w.b);
      assert Settled(Do(s, step)) == Settled(s).(mem := s.mem[s.wr := s.w.b]);
    } else {
      assert Settled(Do(s, step)) == Settled(s);
    }
  }

  /** Publishing appends the byte, or empties a full ring. */
  lemma PublishingQueue(s: State)
    requires InRange(s) && StoredHolds(s) && s.w.WStored?
    ensures var q, q' := Settled(s).Queue(), Settled(Do(s, WriterNext)).Queue();
            if ReallyFull(s) then q' == [] && |q| == |s.mem| - 1 else q' == q + [s.w.b]
  {
    var r := Settled(s);
    assert r.Free() == |r.mem| - 1 - |r.Queue()|;
    hide Ring.Queue, Ring.Free;
    var r' := Settled(Do(s, WriterNext));
    FullIff(r);
    EmptyIff(r');
    assert r.mem[r.wr := s.w.b] == r.mem;
    assert r' == PutByte(r, s.w.b);
    if !ReallyFull(s) {
      PutByteAppends(r, s.w.b);
    }
  }

  /** Delivering drops the oldest byte, or fills an empty ring with whatever its cells hold. */
  lemma DeliveringQueue(s: State)
    requires InRange(s) && s.r.RLoaded?
    ensures var q, q' := Settled(s).Queue(), Settled(Do(s, ReaderNext)).Queue();
            if ReallyEmpty(s) then |q'| == |s.mem| - 1 else q == [s.mem[s.rd]] + q'
  {
    var r, r' := Settled(s), Settled(Do(s, ReaderNext));
    assert r'.Free() == |r'.mem| - 1 - |r'.Queue()|;
    hide Ring.Queue, Ring.Free;
    EmptyIff(r);
    FullIff(r');
    assert r' == r.(rd := Forward(|r.mem|, r.rd, 1));
    if !ReallyEmpty(s) {
      TakeOne(r);
      assert r' == Take(r, 1);
    }
  }

  lemma StepKeepsStored(s: State, step: Step)
    requires InRange(s) && StoredHolds(s)
    ensures StoredHolds(Do(s, step))
  {
  }

  lemma StepCountsIff(s: State, step: Step)
    requires InRange(s) && StoredHolds(s) && Counted(s)
    ensures Counted(Do(s, step)) <==> !Overruns(s, step) && !Underruns(s, step)
  {
    hide Ring.Queue, Ring.Free, Settled;
    if step == WriterNext && s.w.WStored? {
      PublishingQueue(s);
    } else if step == ReaderNext && s.r.RLoaded? {
      DeliveringQueue(s);
    } else {
      OtherStepsKeepQueue(s, step);
    }
  }

  lemma StepIsLawfulIff(s: State, step: Step)
    requires InRange(s) && StoredHolds(s) && Lawful(s)
    ensures Lawful(Do(s, step)) <==> !Overruns(s, step) && !Underruns(s, step) && !Stale(s, step)
  {
    hide Ring.Queue, Ring.Free, Settled;
    if step == WriterNext && s.w.WStored? {
      PublishingQueue(s);
      var q := Settled(s).Queue();
      assert s.delivered + (q + [s.w.b]) == s.delivered + q + [s.w.b];
    } else if step == ReaderNext && s.r.RLoaded? {
      DeliveringQueue(s);
      var q' := Settled(Do(s, ReaderNext)).Queue();
      if !ReallyEmpty(s) {
        assert s.accepted == s.delivered + [s.mem[s.rd]] + q';
        assert (s.delivered + [s.mem[s.rd]] + q')[|s.delivered|] == s.mem[s.rd];
        assert (s.delivered + [s.r.b] + q')[|s.delivered|] == s.r.b;
      }
    } else {
      OtherStepsKeepQueue(s, step);
    }
  }

  // ---------- Whole runs ----------

  predicate LawfulThroughout(s0: State, run: Trace<Step>)
    requires InRange(s0)
  {
    Lawful(Exec(s0, run)) && (run.After? ==> LawfulThroughout(s0, run.past))
  }

  predicate CountedThroughout(s0: State, run: Trace<Step>)
    requires InRange(s0)
  {
    Counted(Exec(s0, run)) && (run.After? ==> CountedThroughout(s0, run.past))
  }

  /** No statement of the run publishes into a full ring or delivers out of an empty one. */
  predicate NeverRunsOver(s0: State, run: Trace<Step>)
    requires InRange(s0)
  {
    run.After? ==>
      && !Overruns(Exec(s0, run.past), run.step) && !Underruns(Exec(s0, run.past), run.step)
      && NeverRunsOver(s0, run.past)
  }

  predicate NeverStale(s0: State, run: Trace<Step>)
    requires InRange(s0)
  {
    run.After? ==> !Stale(Exec(s0, run.past), run.step) && NeverStale(s0, run.past)
  }

  lemma {:induction false} RunKeepsStored(mem: seq<byte>, run: Trace<Step>)
    requires mem != []
    ensures StoredHolds(Exec(Initial(mem), run))
  {
    if run.After? {
      RunKeepsStored(mem, run.past);
      StepKeepsStored(Exec(Initial(mem), run.past), run.step);
    }
  }

  /** The number of bytes waiting is right throughout a run if and only if no statement publishes into
      a full ring or delivers out of an empty one; the first that does breaks it. */
  lemma {:induction false} CountedIffNeverRunsOver(mem: seq<byte>, run: Trace<Step>)
    requires mem != []
    ensures CountedThroughout(Initial(mem), run) <==> NeverRunsOver(Initial(mem), run)
  {
    hide Counted, Overruns, Underruns, Do;
    match run
    case Begin =>
      StartIsLawful(mem);
    case After(past, step) =>
      CountedIffNeverRunsOver(mem, past);
      if CountedThroughout(Initial(mem), past) {
        RunKeepsStored(mem, past);
        StepCountsIff(Exec(Initial(mem), past), step);
      }
  }

  /** Delivery is first in, first out throughout a run if and only if, besides, no byte is delivered
      that its cell no longer holds. */
  lemma {:induction false} FifoIffNeverRunsOverOrStale(mem: seq<byte>, run: Trace<Step>)
    requires mem != []
    ensures LawfulThroughout(Initial(mem), run) <==>
              NeverRunsOver(Initial(mem), run) && NeverStale(Initial(mem), run)
  {
    hide Lawful, Overruns, Underruns, Stale, Do;
    match run
    case Begin =>
      StartIsLawful(mem);
    case After(past, step) =>
      FifoIffNeverRunsOverOrStale(mem, past);
      if LawfulThroughout(Initial(mem), past) {
        RunKeepsStored(mem, past);
        StepIsLawfulIff(Exec(Initial(mem), past), step);
      }
  }

  lemma StartIsLawful(mem: seq<byte>)
    requires mem != []
    ensures Lawful(Initial(mem)) && Counted(Initial(mem))
  {
  }

  /** A byte goes stale only if it was loaded from an empty ring: a run in which nothing is published
      into a full ring, and nothing loaded or delivered out of an empty one, is first in, first out. */
  predicate NeverLoadsEarly(s0: State, run: Trace<Step>)
    requires InRange(s0)
  {
    run.After? ==>
      var s := Exec(s0, run.past);
      !(run.step == ReaderNext && s.r.RTested? && ReallyEmpty(s)) && NeverLoadsEarly(s0, run.past)
  }

  predicate LoadedHolds(s: State)
    requires InRange(s)
  {
    s.r.RLoaded? ==> !ReallyEmpty(s) && s.mem[s.rd] == s.r.b
  }

  lemma StepKeepsLoaded(s: State, step: Step)
    requires InRange(s) && LoadedHolds(s) && !Overruns(s, step)
    requires !(step == ReaderNext && s.r.RTested? && ReallyEmpty(s))
    ensures LoadedHolds(Do(s, step))
  {
    hide Ring.Queue, Ring.Free;
    EmptyIff(Settled(s));
    EmptyIff(Settled(Do(s, step)));
    FullIff(Settled(s));
  }

  lemma {:induction false} RunKeepsLoaded(mem: seq<byte>, run: Trace<Step>)
    requires mem != [] && NeverRunsOver(Initial(mem), run) && NeverLoadsEarly(Initial(mem), run)
    ensures LoadedHolds(Exec(Initial(mem), run)) && NeverStale(Initial(mem), run)
  {
    if run.After? {
      RunKeepsLoaded(mem, run.past);
      StepKeepsLoaded(Exec(Initial(mem), run.past), run.step);
      hide Do;
    }
  }

  lemma LoadingInTimeIsFifo(mem: seq<byte>, run: Trace<Step>)
    requires mem != [] && NeverRunsOver(Initial(mem), run) && NeverLoadsEarly(Initial(mem), run)
    ensures LawfulThroughout(Initial(mem), run)
  {
    RunKeepsLoaded(mem, run);
    FifoIffNeverRunsOverOrStale(mem, run);
  }

  /** After a blind test of the writer and the wrap of the reader: a full ring that starts at its head. */
  lemma BlindWriteWraps(s: State, b: byte)
    requires Inv(s) && Blind(s, WriterTest(b))
    ensures Do(Do(s, WriterTest(b)), ReaderNext) == s.(rd := 0, w := WTested(b), r := RIdle)
    ensures s.wr == |s.mem| - 1 && Settled(s) == Ring(s.mem, s.wr, 0)
    ensures s.accepted == s.delivered + s.mem[..s.wr]
  {
    assert Settled(s).Queue() == s.mem[0..s.wr];
  }

  /** A blind test need not do harm: on three cells or more, if the reader wraps and takes a byte before
      the writer stores and publishes, the law still holds. */
  lemma BlindWriteCanSurvive(s: State, b: byte)
    requires Inv(s) && Blind(s, WriterTest(b)) && |s.mem| >= 3
    ensures var read := Do(Do(Do(Do(Do(s, WriterTest(b)), ReaderNext), ReaderTest), ReaderNext), ReaderNext);
            Lawful(Do(Do(read, WriterNext), WriterNext))
  {
    hide Inv, Ring.Queue, Settled, Do;
    BlindWriteWraps(s, b);
    var s1 := s.(rd := 0, w := WTested(b), r := RIdle);
    ReaderTakesFirst(s1);
    var read := s1.(rd := 1, r := RMoved, delivered := s.delivered + [s.mem[0]]);
    WriterPublishes(read);
    QueueBehindFirst(Do(Do(read, WriterNext), WriterNext), s.mem, b);
    assert s.mem[..s.wr] == [s.mem[0]] + s.mem[1..s.wr];
    assert s.delivered + ([s.mem[0]] + s.mem[1..s.wr]) + [b] == s.delivered + [s.mem[0]] + (s.mem[1..s.wr] + [b]);
  }

  lemma ReaderTakesFirst(s: State)
    requires InRange(s) && s.rd == 0 && s.wr > 0 && s.r == RIdle
    ensures Do(Do(Do(s, ReaderTest), ReaderNext), ReaderNext)
            == s.(rd := 1, r := RMoved, delivered := s.delivered + [s.mem[0]])
  {
  }

  lemma WriterPublishes(s: State)
    requires InRange(s) && s.w.WTested?
    ensures Do(Do(s, WriterNext), WriterNext)
            == s.(mem := s.mem[s.wr := s.w.b], wr := s.wr + 1, w := WMoved, accepted := s.accepted + [s.w.b])
  {
  }

  lemma QueueBehindFirst(s: State, mem: seq<byte>, b: byte)
    requires InRange(s) && |mem| >= 3 && s.mem == mem[|mem| - 1 := b] && s.wr == |mem| && s.rd == 1
    ensures Settled(s).Queue() == mem[1..|mem| - 1] + [b]
  {
  }
}
