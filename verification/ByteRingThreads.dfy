/** One producer and one consumer on the byte ring, interleaved statement by statement
    (buffer_read_write_fun.cxx, CharBufferWrite and CharBufferRead, no lock).

    A pass through either loop is four statements: test, copy the byte, move the offset, wrap the
    offset. Between the last two the offset may stand at the tail, where the other side can see it.
    A test made then can be wrong. The module finds exactly when, shows what can be lost, and proves
    first-in-first-out delivery for every interleaving that avoids it; ByteRingOverruns finds when
    exactly delivery goes wrong. */
module ByteRingThreads {
  import opened Bytes
  import opened ByteRing

  datatype Writer = WIdle | WTested(b: byte) | WStored(b: byte) | WMoved
  datatype Reader = RIdle | RTested | RLoaded(b: byte) | RMoved

  datatype State = State(
    mem: seq<byte>, wr: nat, rd: nat,
    w: Writer, r: Reader,
    accepted: seq<byte>, delivered: seq<byte>)

  /** A test starts a pass of a loop; a continuation executes the next statement of that pass. */
  datatype Step = WriterTest(b: byte) | WriterNext | ReaderTest | ReaderNext

  function Initial(mem: seq<byte>): State {
    State(mem, 0, 0, WIdle, RIdle, [], [])
  }

  predicate InRange(s: State) {
    && 0 < |s.mem| && s.wr <= |s.mem| && s.rd <= |s.mem|
    && (s.wr == |s.mem| ==> s.w == WMoved)
    && (s.rd == |s.mem| ==> s.r == RMoved)
  }

  /** What the test `pwriteto_test == pb_readfrom` answers. */
  predicate SeesFull(s: State) {
    (if s.wr + 1 >= |s.mem| then 0 else s.wr + 1) == s.rd
  }

  /** What the test `pb_writeto == pb_readfrom` answers. */
  predicate SeesEmpty(s: State) {
    s.wr == s.rd
  }

  function Do(s: State, step: Step): (s': State)
    requires InRange(s)
    ensures InRange(s')
  {
    match step
    case WriterTest(b) =>
      if s.w != WIdle || SeesFull(s) then s else s.(w := WTested(b))
    case WriterNext => (
      match s.w
      case WIdle => s
      case WTested(b) => s.(mem := s.mem[s.wr := b], w := WStored(b))
      case WStored(b) => s.(wr := s.wr + 1, accepted := s.accepted + [b], w := WMoved)
      case WMoved => s.(wr := Wrap(|s.mem|, s.wr), w := WIdle))
    case ReaderTest =>
      if s.r != RIdle || SeesEmpty(s) then s else s.(r := RTested)
    case ReaderNext => (
      match s.r
      case RIdle => s
      case RTested => s.(r := RLoaded(s.mem[s.rd]))
      case RLoaded(b) => s.(rd := s.rd + 1, delivered := s.delivered + [b], r := RMoved)
      case RMoved => s.(rd := Wrap(|s.mem|, s.rd), r := RIdle))
  }

  /** The ring the offsets stand for once both pending wraps are done. */
  function Settled(s: State): (r: Ring)
    requires InRange(s)
    ensures r.Ok()
  {
    Ring(s.mem, Wrap(|s.mem|, s.wr), Wrap(|s.mem|, s.rd))
  }

  predicate ReallyFull(s: State)
    requires InRange(s)
  {
    Settled(s).Free() == 0
  }

  predicate ReallyEmpty(s: State)
    requires InRange(s)
  {
    Settled(s).Queue() == []
  }

  /** A test is blind when the other offset stands at the tail and, once wrapped, would decide it. */
  predicate Blind(s: State, step: Step) {
    || (step.WriterTest? && s.w == WIdle && s.rd == |s.mem| && s.wr + 1 == |s.mem|)
    || (step.ReaderTest? && s.r == RIdle && s.wr == |s.mem| && s.rd == 0)
  }

  /** Blindness is the exact condition: a test answers wrongly if and only if it is blind. */
  lemma TestIsRightUnlessBlind(s: State, b: byte)
    requires InRange(s)
    ensures s.w == WIdle ==> ((SeesFull(s) <==> ReallyFull(s)) <==> !Blind(s, WriterTest(b)))
    ensures s.r == RIdle ==> ((SeesEmpty(s) <==> ReallyEmpty(s)) <==> !Blind(s, ReaderTest))
  {
  }

  /** Nothing lost, nothing repeated, nothing reordered: the bytes accepted are the bytes
      delivered followed by the bytes still queued. */
  ghost predicate Inv(s: State) {
    && InRange(s)
    && s.accepted == s.delivered + Settled(s).Queue()
    && (s.w.WTested? || s.w.WStored? ==> !ReallyFull(s))
    && (s.w.WStored? ==> s.mem[s.wr] == s.w.b)
    && (s.r.RTested? || s.r.RLoaded? ==> !ReallyEmpty(s))
    && (s.r.RLoaded? ==> s.mem[s.rd] == s.r.b)
  }

  lemma TestKeepsInv(s: State, step: Step)
    requires Inv(s) && !Blind(s, step) && (step.WriterTest? || step.ReaderTest?)
    ensures Inv(Do(s, step))
  {
    TestIsRightUnlessBlind(s, if step.WriterTest? then step.b else 0);
    hide Ring.Queue, Ring.Free;
  }

  lemma WriterNextKeepsInv(s: State)
    requires Inv(s)
    ensures Inv(Do(s, WriterNext))
  {
    hide Ring.Queue, Ring.Free;
    var r := Settled(s);
    EmptyIff(r);
    if s.w.WTested? {
      WriteCellIsFree(r, s.w.b);
      EmptyIff(Settled(Do(s, WriterNext)));
      FullIff(r);
      FullIff(Settled(Do(s, WriterNext)));
    } else if s.w.WStored? {
      PublishingKeepsInv(s);
    } else {
      assert Settled(Do(s, WriterNext)) == r;
    }
  }

  lemma PublishingKeepsInv(s: State)
    requires Inv(s) && s.w.WStored?
    ensures Inv(Do(s, WriterNext))
  {
    hide Ring.Queue, Ring.Free;
    var r, b := Settled(s), s.w.b;
    FullIff(r);
    PutByteAppends(r, b);
    assert r.mem[r.wr := b] == r.mem;
    assert Settled(Do(s, WriterNext)) == PutByte(r, b);
    assert s.delivered + (r.Queue() + [b]) == s.delivered + r.Queue() + [b];
  }

  lemma ReaderNextKeepsInv(s: State)
    requires Inv(s)
    ensures Inv(Do(s, ReaderNext))
  {
    hide Ring.Queue, Ring.Free;
    var r := Settled(s);
    if s.r.RLoaded? {
      DeliveringKeepsInv(s);
    } else {
      assert Settled(Do(s, ReaderNext)) == r;
    }
  }

  lemma DeliveringKeepsInv(s: State)
    requires Inv(s) && s.r.RLoaded?
    ensures Inv(Do(s, ReaderNext))
  {
    hide Ring.Queue, Ring.Free;
    var r := Settled(s);
    var next := Take(r, 1);
    TakeOne(r);
    FullIff(r);
    assert Settled(Do(s, ReaderNext)) == next;
    assert s.delivered + ([s.r.b] + next.Queue()) == s.delivered + [s.r.b] + next.Queue();
  }

  function Exec(s: State, run: Trace<Step>): (s': State)
    requires InRange(s)
    ensures InRange(s') && |s'.mem| == |s.mem|
  {
    match run
    case Begin => s
    case After(past, step) => Do(Exec(s, past), step)
  }

  predicate NeverBlind(s: State, run: Trace<Step>)
    requires InRange(s)
  {
    run.After? ==> NeverBlind(s, run.past) && !Blind(Exec(s, run.past), run.step)
  }

  lemma {:induction false} RunKeepsInv(s: State, run: Trace<Step>)
    requires Inv(s) && NeverBlind(s, run)
    ensures Inv(Exec(s, run))
  {
    hide Ring.Queue, Ring.Free, Settled, Do;
    match run
    case Begin =>
    case After(past, step) =>
      RunKeepsInv(s, past);
      match step {
        case WriterNext => WriterNextKeepsInv(Exec(s, past));
        case ReaderNext => ReaderNextKeepsInv(Exec(s, past));
        case _ => TestKeepsInv(Exec(s, past), step);
      }
  }

  /** For every interleaving without a blind test, what was accepted is what was delivered followed
      by what still waits, in order, and at most size - 1 bytes wait. */
  lemma InterleavedDeliveryIsFifo(mem: seq<byte>, run: Trace<Step>)
    requires mem != [] && NeverBlind(Initial(mem), run)
    ensures var s := Exec(Initial(mem), run);
            && s.accepted == s.delivered + Settled(s).Queue()
            && |s.accepted| - |s.delivered| < |mem|
  {
    hide Ring.Queue, Ring.Free, Exec, NeverBlind;
    StartKeepsInv(mem);
    RunKeepsInv(Initial(mem), run);
    FullIff(Settled(Exec(Initial(mem), run)));
  }

  /** The bytes of the passes the writer has begun: those of the tests that did not refuse. */
  function Begun(s: State, run: Trace<Step>): seq<byte>
    requires InRange(s)
  {
    match run
    case Begin => []
    case After(past, step) =>
      if step.WriterTest? && Exec(s, past).w == WIdle && Exec(s, run).w != WIdle then Begun(s, past) + [step.b]
      else Begun(s, past)
  }

  /** In every interleaving, blind tests or not, the bytes accepted are those that the passes were given,
      in order, up to the one whose pass has not yet moved the offset. */
  lemma {:induction false} AcceptedIsWhatPassesWereGiven(mem: seq<byte>, run: Trace<Step>)
    requires mem != []
    ensures var s, begun := Exec(Initial(mem), run), Begun(Initial(mem), run);
            if s.w.WTested? || s.w.WStored? then begun == s.accepted + [s.w.b] else begun == s.accepted
  {
    if run.After? {
      AcceptedIsWhatPassesWereGiven(mem, run.past);
    }
  }

  lemma StartKeepsInv(mem: seq<byte>)
    requires mem != []
    ensures Inv(Initial(mem))
  {
  }

  /** Passes of the two loops that are not interrupted: what an interleaving byte by byte comes to. */
  datatype Pass = WritePass(b: byte) | ReadPass

  function Steps(passes: Trace<Pass>): Trace<Step> {
    match passes
    case Begin => Begin
    case After(past, WritePass(b)) =>
      After(After(After(After(Steps(past), WriterTest(b)), WriterNext), WriterNext), WriterNext)
    case After(past, ReadPass) =>
      After(After(After(After(Steps(past), ReaderTest), ReaderNext), ReaderNext), ReaderNext)
  }

  /** Interleaved byte by byte there are no blind tests, so delivery is always first in, first out. */
  lemma {:induction false} WholePassesAreNeverBlind(mem: seq<byte>, passes: Trace<Pass>)
    requires mem != []
    ensures var s := Exec(Initial(mem), Steps(passes));
            && NeverBlind(Initial(mem), Steps(passes)) && s.w == WIdle && s.r == RIdle
            && s.accepted == s.delivered + Settled(s).Queue()
  {
    match passes
    case Begin =>
    case After(past, pass) =>
      WholePassesAreNeverBlind(mem, past);
      PassEndsIdle(mem, past, pass);
      InterleavedDeliveryIsFifo(mem, Steps(passes));
  }

  function FourSteps(s: State, test: Step, next: Step): State
    requires InRange(s)
  {
    Do(Do(Do(Do(s, test), next), next), next)
  }

  lemma WritePassEndsIdle(s: State, b: byte)
    requires InRange(s) && s.w == WIdle && s.r == RIdle
    ensures !Blind(s, WriterTest(b))
    ensures var s' := FourSteps(s, WriterTest(b), WriterNext); s'.w == WIdle && s'.r == RIdle
  {
  }

  lemma ReadPassEndsIdle(s: State)
    requires InRange(s) && s.w == WIdle && s.r == RIdle
    ensures !Blind(s, ReaderTest)
    ensures var s' := FourSteps(s, ReaderTest, ReaderNext); s'.w == WIdle && s'.r == RIdle
  {
  }

  lemma FourStepsRun(s0: State, run: Trace<Step>, test: Step, next: Step)
    requires InRange(s0) && NeverBlind(s0, run) && !Blind(Exec(s0, run), test)
    requires next == WriterNext || next == ReaderNext
    ensures var run' := After(After(After(After(run, test), next), next), next);
            NeverBlind(s0, run') && Exec(s0, run') == FourSteps(Exec(s0, run), test, next)
  {
    var run1 := After(run, test);
    var run2 := After(run1, next);
    var run3 := After(run2, next);
    assert NeverBlind(s0, run1) && NeverBlind(s0, run2) && NeverBlind(s0, run3);
    hide Do;
  }

  lemma PassEndsIdle(mem: seq<byte>, past: Trace<Pass>, pass: Pass)
    requires mem != [] && NeverBlind(Initial(mem), Steps(past))
    requires var s := Exec(Initial(mem), Steps(past)); s.w == WIdle && s.r == RIdle
    ensures var s := Exec(Initial(mem), Steps(After(past, pass)));
            NeverBlind(Initial(mem), Steps(After(past, pass))) && s.w == WIdle && s.r == RIdle
  {
    var s0, run := Initial(mem), Steps(past);
    match pass
    case WritePass(b) =>
      WritePassEndsIdle(Exec(s0, run), b);
      FourStepsRun(s0, run, WriterTest(b), WriterNext);
      hide Do, Exec, NeverBlind, FourSteps;
    case ReadPass =>
      ReadPassEndsIdle(Exec(s0, run));
      FourStepsRun(s0, run, ReaderTest, ReaderNext);
      hide Do, Exec, NeverBlind, FourSteps;
  }

  /** A blind write overruns the reader: everything accepted and not yet delivered, the whole ring
      plus the new byte, is gone from the queue. */
  lemma BlindWriteLosesTheQueue(s: State, b: byte)
    requires Inv(s) && Blind(s, WriterTest(b))
    ensures var s' := Do(Do(Do(s, WriterTest(b)), WriterNext), WriterNext);
            Settled(s').Queue() == [] && |s'.accepted| - |s'.delivered| == |s.mem|
  {
    assert |s.accepted| - |s.delivered| == |s.mem| - 1;
  }

  /** A blind read delivers a byte nobody sent. */
  lemma BlindReadInventsAByte(s: State)
    requires Inv(s) && Blind(s, ReaderTest)
    ensures var s' := Do(Do(Do(s, ReaderTest), ReaderNext), ReaderNext);
            |s'.delivered| == |s'.accepted| + 1
  {
  }

  function WriteUpToWrap(run: Trace<Step>, b: byte): Trace<Step> {
    After(After(After(run, WriterTest(b)), WriterNext), WriterNext)
  }

  function ReadUpToWrap(run: Trace<Step>): Trace<Step> {
    After(After(After(run, ReaderTest), ReaderNext), ReaderNext)
  }

  function Write(run: Trace<Step>, b: byte): Trace<Step> {
    After(WriteUpToWrap(run, b), WriterNext)
  }

  function Read(run: Trace<Step>): Trace<Step> {
    After(ReadUpToWrap(run), ReaderNext)
  }

  /** A step that is no test is never blind. */
  lemma OneMore(s0: State, run: Trace<Step>, step: Step)
    requires InRange(s0) && NeverBlind(s0, run) && !Blind(Exec(s0, run), step)
    ensures NeverBlind(s0, After(run, step)) && Exec(s0, After(run, step)) == Do(Exec(s0, run), step)
  {
  }

  lemma WriteRuns(s0: State, run: Trace<Step>, b: byte)
    requires InRange(s0) && NeverBlind(s0, run)
    requires var s := Exec(s0, run); s.w == WIdle && !SeesFull(s) && !Blind(s, WriterTest(b))
    ensures var s := Exec(s0, run);
            && Exec(s0, WriteUpToWrap(run, b))
               == s.(mem := s.mem[s.wr := b], wr := s.wr + 1, w := WMoved, accepted := s.accepted + [b])
            && Exec(s0, Write(run, b))
               == s.(mem := s.mem[s.wr := b], wr := Wrap(|s.mem|, s.wr + 1), accepted := s.accepted + [b])
    ensures NeverBlind(s0, WriteUpToWrap(run, b)) && NeverBlind(s0, Write(run, b))
  {
    hide Exec, NeverBlind, SeesEmpty;
    var run1 := After(run, WriterTest(b));
    var run2 := After(run1, WriterNext);
    var run3 := After(run2, WriterNext);
    OneMore(s0, run, WriterTest(b));
    OneMore(s0, run1, WriterNext);
    OneMore(s0, run2, WriterNext);
    OneMore(s0, run3, WriterNext);
  }

  lemma ReadRuns(s0: State, run: Trace<Step>)
    requires InRange(s0) && NeverBlind(s0, run)
    requires var s := Exec(s0, run); s.r == RIdle && !SeesEmpty(s) && !Blind(s, ReaderTest)
    ensures var s := Exec(s0, run);
            && Exec(s0, ReadUpToWrap(run))
               == s.(rd := s.rd + 1, r := RMoved, delivered := s.delivered + [s.mem[s.rd]])
            && Exec(s0, Read(run)) == s.(rd := Wrap(|s.mem|, s.rd + 1), delivered := s.delivered + [s.mem[s.rd]])
    ensures NeverBlind(s0, ReadUpToWrap(run)) && NeverBlind(s0, Read(run))
  {
    hide Exec, NeverBlind, SeesFull;
    var run1 := After(run, ReaderTest);
    var run2 := After(run1, ReaderNext);
    var run3 := After(run2, ReaderNext);
    OneMore(s0, run, ReaderTest);
    OneMore(s0, run1, ReaderNext);
    OneMore(s0, run2, ReaderNext);
    OneMore(s0, run3, ReaderNext);
  }

  /** Blind writer tests do happen: two cells, and a reader stopped just before it wraps its offset. */
  lemma BlindWriteIsReachable(b: byte)
    ensures exists run ::
              NeverBlind(Initial([0, 0]), run) && Blind(Exec(Initial([0, 0]), run), WriterTest(b))
  {
    hide Exec, NeverBlind, Do;
    var s0 := Initial([0, 0]);
    StartsFresh(s0);
    var run1 := Read(Write(Begin, b));
    var run2 := ReadUpToWrap(Write(run1, b));
    WriteRuns(s0, Begin, b);
    ReadRuns(s0, Write(Begin, b));
    WriteRuns(s0, run1, b);
    ReadRuns(s0, Write(run1, b));
    WriteRuns(s0, run2, b);
    assert NeverBlind(s0, Write(run2, b));
  }

  /** And so do blind reader tests: here it is the writer that stopped before its wrap. */
  lemma BlindReadIsReachable(b: byte)
    ensures exists run :: NeverBlind(Initial([0, 0]), run) && Blind(Exec(Initial([0, 0]), run), ReaderTest)
  {
    hide Exec, NeverBlind, Do;
    var s0 := Initial([0, 0]);
    StartsFresh(s0);
    var run1 := Read(Write(Begin, b));
    var run2 := WriteUpToWrap(run1, b);
    WriteRuns(s0, Begin, b);
    ReadRuns(s0, Write(Begin, b));
    WriteRuns(s0, run1, b);
    ReadRuns(s0, run2);
    assert NeverBlind(s0, Read(run2));
  }

  lemma StartsFresh(s0: State)
    requires InRange(s0)
    ensures Exec(s0, Begin) == s0 && NeverBlind(s0, Begin)
  {
  }
}
