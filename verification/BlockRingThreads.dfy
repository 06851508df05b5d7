/** One writer and one reader on the unlocked block ring, interleaved statement by statement, with
    the copies of a block's bytes interleaved byte by byte
    (buffer_read_write_fun.cxx, prvCopyQueueData, BlockBufferWrite, BlockBufferRead). */
module BlockRingThreads {
  import opened Bytes
  import opened BlockRing

  /** One item: a length word and a payload area whose tail keeps whatever was there before. */
  datatype Slot = Slot(len: nat, bytes: seq<byte>)

  type Block = seq<byte>

  /** Where the writer stands. Results are those of its last call. `since` and `until` in the two
      look states record how many blocks had been taken, or published, at the snapshot. */
  datatype Writer =
    | WIdle(result: int)
    | WSawRead(src: Block, rd0: nat, since: nat)
    | WLook(src: Block, rd0: nat, wr0: nat, since: nat)
    | WLength(block: Block)
    | WCopy(block: Block, done: nat)
    | WMoved(result: int)

  datatype Reader =
    | RIdle(result: int)
    | RSawOwn(size: nat, rd0: nat)
    | RLook(size: nat, rd0: nat, wr0: nat, until: nat)
    | RMove(size: nat)
    | RMoved(size: nat)
    | RLength(size: nat)
    | RCopy(size: nat, want: nat, got: Block)

  datatype State = State(
    cap: nat, mem: seq<Slot>, wr: nat, rd: nat,
    w: Writer, r: Reader,
    accepted: seq<Block>, delivered: seq<Block>, sizes: seq<nat>)

  datatype Step = CallWrite(src: Block) | CallRead(size: nat) | WriterNext | ReaderNext

  /** BlockBufferCreate: the reader starts on the last slot, as if it had just been read. */
  predicate Initial(s: State) {
    && |s.mem| >= 2 && s.wr == 0 && s.rd == |s.mem| - 1
    && (forall i | 0 <= i < |s.mem| :: |s.mem[i].bytes| == s.cap)
    && s.w == WIdle(0) && s.r == RIdle(0)
    && s.accepted == [] && s.delivered == [] && s.sizes == []
  }

  predicate InRange(s: State) {
    && |s.mem| >= 2 && s.wr <= |s.mem| && s.rd <= |s.mem|
    && (s.wr == |s.mem| ==> s.w.WMoved?)
    && (s.rd == |s.mem| ==> s.r.RMoved?)
    && (forall i | 0 <= i < |s.mem| :: |s.mem[i].bytes| == s.cap)
    && (s.w.WLength? ==> |s.w.block| <= s.cap)
    && (s.w.WCopy? ==> s.w.done <= |s.w.block| <= s.cap)
  }

  /** Blocks the reader has claimed: those delivered, and the one it is copying. */
  function Taken(s: State): nat {
    |s.delivered| + if s.r.RMoved? || s.r.RLength? || s.r.RCopy? then 1 else 0
  }

  /** A copy that leaves the payload area would read this; by DeliveryIsFifo none does. */
  function ByteAt(slot: Slot, i: nat): byte {
    if i < |slot.bytes| then slot.bytes[i] else 0
  }

  function WriterDo(s: State): State
    requires InRange(s)
  {
    match s.w
    case WIdle(_) => s
    case WSawRead(src, rd0, since) => s.(w := WLook(src, rd0, s.wr, since))
    case WLook(src, rd0, wr0, _) => (
      match LookAt(|s.mem|, rd0, wr0)
      case Busy => s.(w := WIdle(ERR_BUSY))
      case Waiting(k) =>
        if k < |s.mem| - 1 then s.(w := WLength(Prefix(src, s.cap))) else s.(w := WIdle(ERR_FULL)))
    case WLength(block) =>
      s.(mem := s.mem[s.wr := s.mem[s.wr].(len := |block|)], w := WCopy(block, 0))
    case WCopy(block, done) =>
      if done < |block| then
        var slot := s.mem[s.wr];
        s.(mem := s.mem[s.wr := slot.(bytes := slot.bytes[done := block[done]])], w := WCopy(block, done + 1))
      else
        s.(wr := s.wr + 1, accepted := s.accepted + [block], w := WMoved(|block|))
    case WMoved(result) => s.(wr := Wrap(|s.mem|, s.wr), w := WIdle(result))
  }

  function ReaderDo(s: State): State
    requires InRange(s)
  {
    match s.r
    case RIdle(_) => s
    case RSawOwn(size, rd0) => s.(r := RLook(size, rd0, s.wr, |s.accepted|))
    case RLook(size, rd0, wr0, _) => (
      match LookAt(|s.mem|, rd0, wr0)
      case Busy => s.(r := RIdle(ERR_BUSY))
      case Waiting(k) => if k > 0 then s.(r := RMove(size)) else s.(r := RIdle(ERR_EMPTY)))
    case RMove(size) => s.(rd := s.rd + 1, r := RMoved(size))
    case RMoved(size) => s.(rd := Wrap(|s.mem|, s.rd), r := RLength(size))
    case RLength(size) => s.(r := RCopy(size, Min(size, s.mem[s.rd].len), []))
    case RCopy(size, want, got) =>
      if |got| < want then
        s.(r := RCopy(size, want, got + [ByteAt(s.mem[s.rd], |got|)]))
      else
        s.(delivered := s.delivered + [got], sizes := s.sizes + [size], r := RIdle(want))
  }

  function Do(s: State, step: Step): (s': State)
    requires InRange(s)
    ensures InRange(s')
  {
    match step
    case CallWrite(src) => if s.w.WIdle? then s.(w := WSawRead(src, s.rd, Taken(s))) else s
    case CallRead(size) => if s.r.RIdle? then s.(r := RSawOwn(size, s.rd)) else s
    case WriterNext => WriterDo(s)
    case ReaderNext => ReaderDo(s)
  }

  // ---------- The invariant ----------

  /** The slot that block number `k` of the stream lives in. */
  function SlotOf(s: State, k: nat): nat
    requires |s.mem| >= 2
  {
    Place(|s.mem|, k)
  }

  predicate Holds(slot: Slot, block: Block) {
    slot.len == |block| && block <= slot.bytes
  }

  /** Pointers are the running counts of published and taken blocks. */
  ghost predicate PointersInv(s: State) {
    && InRange(s)
    && Wrap(|s.mem|, s.wr) == SlotOf(s, |s.accepted|)
    && Wrap(|s.mem|, s.rd) == SlotOf(s, Taken(s) + |s.mem| - 1)
    && Taken(s) <= |s.accepted| <= Taken(s) + |s.mem| - 1
    && |s.sizes| == |s.delivered|
  }

  /** Every published block that is not yet delivered sits whole in its slot. */
  ghost predicate SlotsInv(s: State)
    requires PointersInv(s)
  {
    && (forall k | 0 <= k < |s.accepted| :: |s.accepted[k]| <= s.cap)
    && (forall k | |s.delivered| <= k < |s.accepted| :: Holds(s.mem[SlotOf(s, k)], s.accepted[k]))
  }

  /** A block has been delivered when as much of it as the caller asked for has been copied. */
  ghost predicate DeliveredInv(s: State)
    requires PointersInv(s)
  {
    forall k | 0 <= k < |s.delivered| :: s.delivered[k] == Prefix(s.accepted[k], s.sizes[k])
  }

  /** The writer's snapshot can only be older than the truth, and leaves room if it says so. */
  ghost predicate WriterInv(s: State)
    requires PointersInv(s)
  {
    match s.w
    case WIdle(_) => true
    case WSawRead(_, rd0, since) => SnapshotOfRead(s, rd0, since)
    case WLook(_, rd0, wr0, since) => wr0 == s.wr && SnapshotOfRead(s, rd0, since)
    case WLength(block) => HasRoom(s)
    case WCopy(block, done) =>
      HasRoom(s) && s.mem[s.wr].len == |block| && block[..done] == s.mem[s.wr].bytes[..done]
    case WMoved(_) => true
  }

  ghost predicate SnapshotOfRead(s: State, rd0: nat, since: nat)
    requires PointersInv(s)
  {
    && rd0 <= |s.mem| && since <= Taken(s) && |s.accepted| <= since + |s.mem| - 1
    && (rd0 == |s.mem| || rd0 == SlotOf(s, since + |s.mem| - 1))
  }

  ghost predicate HasRoom(s: State)
    requires PointersInv(s)
  {
    |s.accepted| - Taken(s) <= |s.mem| - 2
  }

  ghost predicate ReaderInv(s: State)
    requires PointersInv(s)
  {
    match s.r
    case RIdle(_) => true
    case RSawOwn(_, rd0) => rd0 == s.rd
    case RLook(_, rd0, wr0, until) =>
      && rd0 == s.rd && wr0 <= |s.mem| && Taken(s) <= until <= |s.accepted|
      && (wr0 == |s.mem| || wr0 == SlotOf(s, until))
    case RMove(_) => Taken(s) < |s.accepted|
    case RMoved(_) => true
    case RLength(_) => true
    case RCopy(size, want, got) =>
      && want == Min(size, |s.accepted[|s.delivered|]|)
      && |got| <= want && got <= s.accepted[|s.delivered|]
  }

  ghost predicate Inv(s: State) {
    PointersInv(s) && SlotsInv(s) && DeliveredInv(s) && WriterInv(s) && ReaderInv(s)
  }

  // ---------- Every step keeps it ----------

  /** The slot being filled is none of those still to be read or being read. */
  lemma FillingIsApart(s: State)
    requires PointersInv(s) && HasRoom(s)
    ensures forall k | |s.delivered| <= k < |s.accepted| :: SlotOf(s, k) != SlotOf(s, |s.accepted|)
  {
    hide Place;
    forall k | |s.delivered| <= k < |s.accepted|
      ensures SlotOf(s, k) != SlotOf(s, |s.accepted|)
    {
      PlacesDiffer(|s.mem|, k, |s.accepted|);
    }
  }

  ghost predicate SharedInv(s: State) {
    PointersInv(s) && SlotsInv(s) && DeliveredInv(s)
  }

  /** A step that moves only its own program counter leaves the shared facts, and those about the
      other side, alone. */
  lemma PrivateStep(s: State, s': State)
    requires SharedInv(s) && InRange(s') && s' == s.(w := s'.w, r := s'.r) && Taken(s') == Taken(s)
    ensures SharedInv(s')
    ensures WriterInv(s) && s'.w == s.w ==> WriterInv(s')
    ensures ReaderInv(s) && s'.r == s.r ==> ReaderInv(s')
  {
    hide Place, LookAt;
  }

  /** A look that does not end in BUSY counts what was published and not taken at its snapshot. */
  lemma WriterLookCounts(s: State)
    requires PointersInv(s) && WriterInv(s) && s.w.WLook?
    ensures var look := LookAt(|s.mem|, s.w.rd0, s.w.wr0);
            look.Waiting? ==> look.blocks == |s.accepted| - s.w.since
  {
    hide Place;
    if s.w.rd0 < |s.mem| {
      DistanceCounts(|s.mem|, s.w.since, |s.accepted|);
    }
  }

  lemma ReaderLookCounts(s: State)
    requires PointersInv(s) && ReaderInv(s) && s.r.RLook?
    ensures var look := LookAt(|s.mem|, s.r.rd0, s.r.wr0);
            look.Waiting? ==> look.blocks == s.r.until - Taken(s)
  {
    hide Place;
    if s.r.wr0 < |s.mem| {
      DistanceCounts(|s.mem|, Taken(s), s.r.until);
    }
  }

  lemma WriterLookKeepsInv(s: State)
    requires Inv(s) && s.w.WLook?
    ensures Inv(WriterDo(s))
  {
    hide Place, LookAt;
    WriterLookCounts(s);
    PrivateStep(s, WriterDo(s));
  }

  lemma WriterFillKeepsInv(s: State)
    requires Inv(s) && (s.w.WLength? || (s.w.WCopy? && s.w.done < |s.w.block|))
    ensures Inv(WriterDo(s))
  {
    hide Place, LookAt;
    FillingIsApart(s);
  }

  lemma WriterPublishKeepsInv(s: State)
    requires Inv(s) && s.w.WCopy? && s.w.done == |s.w.block|
    ensures Inv(WriterDo(s))
  {
    hide Place, LookAt;
    var s' := WriterDo(s);
    NextPlace(|s.mem|, |s.accepted|);
    assert s.w.block <= s.mem[s.wr].bytes;
    assert PointersInv(s');
    assert SlotsInv(s');
  }

  lemma WriterWrapKeepsInv(s: State)
    requires Inv(s) && s.w.WMoved?
    ensures Inv(WriterDo(s))
  {
    hide Place, LookAt;
    var s' := WriterDo(s);
    assert PointersInv(s');
  }

  lemma WriterKeepsInv(s: State)
    requires Inv(s)
    ensures Inv(WriterDo(s))
  {
    hide Place, LookAt, SlotsInv, DeliveredInv;
    match s.w
    case WLook(_, _, _, _) => WriterLookKeepsInv(s);
    case WLength(_) => WriterFillKeepsInv(s);
    case WCopy(block, done) =>
      if done < |block| { WriterFillKeepsInv(s); } else { WriterPublishKeepsInv(s); }
    case WMoved(_) => WriterWrapKeepsInv(s);
    case _ => PrivateStep(s, WriterDo(s));
  }

  /** The block the reader has claimed lies whole where its pointer is. */
  lemma ClaimedBlock(s: State)
    requires PointersInv(s) && SlotsInv(s) && Taken(s) == |s.delivered| + 1 && s.rd < |s.mem|
    ensures Holds(s.mem[s.rd], s.accepted[|s.delivered|])
  {
    hide Place;
    PlaceAhead(|s.mem|, |s.delivered|, |s.mem|);
  }

  lemma ReaderLookKeepsInv(s: State)
    requires Inv(s) && s.r.RLook?
    ensures Inv(ReaderDo(s))
  {
    hide Place, LookAt;
    ReaderLookCounts(s);
    var s' := ReaderDo(s);
    PrivateStep(s, s');
    assert ReaderInv(s');
  }

  lemma ReaderMoveKeepsInv(s: State)
    requires Inv(s) && s.r.RMove?
    ensures Inv(ReaderDo(s))
  {
    hide Place, LookAt;
    var s' := ReaderDo(s);
    NextPlace(|s.mem|, Taken(s) + |s.mem| - 1);
    assert PointersInv(s');
  }

  lemma ReaderCopyKeepsInv(s: State)
    requires Inv(s) && s.r.RCopy? && |s.r.got| < s.r.want
    ensures Inv(ReaderDo(s))
  {
    hide Place, LookAt;
    ClaimedBlock(s);
    PrivateStep(s, ReaderDo(s));
  }

  lemma ReaderFinishKeepsInv(s: State)
    requires Inv(s) && s.r.RCopy? && |s.r.got| == s.r.want
    ensures Inv(ReaderDo(s))
  {
    hide Place, LookAt;
    var s' := ReaderDo(s);
    assert PointersInv(s');
    assert s.r.got == Prefix(s.accepted[|s.delivered|], s.r.size);
  }

  lemma ReaderWrapKeepsInv(s: State)
    requires Inv(s) && s.r.RMoved?
    ensures Inv(ReaderDo(s))
  {
    hide Place, LookAt;
    var s' := ReaderDo(s);
    assert PointersInv(s');
  }

  lemma ReaderKeepsInv(s: State)
    requires Inv(s)
    ensures Inv(ReaderDo(s))
  {
    hide Place, LookAt, DeliveredInv;
    match s.r
    case RLook(_, _, _, _) => ReaderLookKeepsInv(s);
    case RMove(_) => ReaderMoveKeepsInv(s);
    case RMoved(_) => ReaderWrapKeepsInv(s);
    case RLength(_) => ClaimedBlock(s); PrivateStep(s, ReaderDo(s));
    case RCopy(_, want, got) =>
      if |got| < want { ReaderCopyKeepsInv(s); } else { ReaderFinishKeepsInv(s); }
    case _ => PrivateStep(s, ReaderDo(s));
  }

  lemma StepKeepsInv(s: State, step: Step)
    requires Inv(s)
    ensures Inv(Do(s, step))
  {
    hide Place, LookAt, SlotsInv, DeliveredInv, WriterDo, ReaderDo;
    match step
    case WriterNext => WriterKeepsInv(s);
    case ReaderNext => ReaderKeepsInv(s);
    case _ => PrivateStep(s, Do(s, step));
  }

  function Exec(s: State, run: Trace<Step>): (s': State)
    requires InRange(s)
    ensures InRange(s') && |s'.mem| == |s.mem|
  {
    match run
    case Begin => s
    case After(past, step) => Do(Exec(s, past), step)
  }

  lemma {:induction false} RunKeepsInv(s: State, run: Trace<Step>)
    requires Initial(s)
    ensures Inv(Exec(s, run))
  {
    match run
    case Begin => PlaceAhead(|s.mem|, 0, |s.mem| - 1);
    case After(past, step) =>
      RunKeepsInv(s, past);
      StepKeepsInv(Exec(s, past), step);
  }

  // ---------- What the protocol promises ----------

  /** In every interleaving the blocks delivered are the blocks accepted, in order, once each, cut
      only to the size each read asked for; at most one block fewer than the ring has slots is
      outstanding, counting the one being copied out; and no copy leaves its slot. */
  lemma DeliveryIsFifo(s0: State, run: Trace<Step>)
    requires Initial(s0)
    ensures var s := Exec(s0, run);
            && |s.delivered| <= |s.accepted| <= Taken(s) + |s.mem| - 1
            && |s.sizes| == |s.delivered|
            && (forall k | 0 <= k < |s.delivered| :: s.delivered[k] == Prefix(s.accepted[k], s.sizes[k]))
            && (s.r.RCopy? ==> s.r.want <= s.cap)
  {
    RunKeepsInv(s0, run);
  }

  predicate Filling(s: State) {
    s.w.WLength? || s.w.WCopy?
  }

  predicate CopyingOut(s: State) {
    s.r.RMoved? || s.r.RLength? || s.r.RCopy?
  }

  /** The writer never fills the slot the reader is copying, although the reader moves its pointer
      onto that slot before it starts to copy. */
  lemma WriterAvoidsReadersSlot(s0: State, run: Trace<Step>)
    requires Initial(s0)
    ensures var s := Exec(s0, run);
            Filling(s) && CopyingOut(s) ==> s.wr != Wrap(|s.mem|, s.rd)
  {
    hide Place, Exec, Do;
    var s := Exec(s0, run);
    RunKeepsInv(s0, run);
    if Filling(s) && CopyingOut(s) {
      PlaceAhead(|s.mem|, |s.delivered|, |s.mem|);
      PlacesDiffer(|s.mem|, |s.delivered|, |s.accepted|);
    }
  }

  /** A side whose snapshot caught the other pointer at the tail returns RW_BUSY and changes nothing;
      on a ring of at most 256 slots that is the only way to be refused as busy. */
  lemma BusyIffCaughtAtTail(s0: State, run: Trace<Step>)
    requires Initial(s0) && |s0.mem| <= 256
    ensures var s := Exec(s0, run);
            && (s.w.WLook? ==> (s.w.rd0 == |s.mem| <==> Do(s, WriterNext).w == WIdle(ERR_BUSY)))
            && (s.w.WLook? && s.w.rd0 == |s.mem| ==> Do(s, WriterNext) == s.(w := WIdle(ERR_BUSY)))
            && (s.r.RLook? ==> (s.r.wr0 == |s.mem| <==> Do(s, ReaderNext).r == RIdle(ERR_BUSY)))
            && (s.r.RLook? && s.r.wr0 == |s.mem| ==> Do(s, ReaderNext) == s.(r := RIdle(ERR_BUSY)))
  {
    RunKeepsInv(s0, run);
    BusyMeansTail(|s0.mem|);
  }

  /** A writer is told FULL only if, when it looked, all but one of the slots held blocks not yet
      claimed; a reader is told EMPTY only if, when it looked, every block was claimed. */
  lemma RefusalsAreJustified(s0: State, run: Trace<Step>)
    requires Initial(s0)
    ensures var s := Exec(s0, run);
            && (s.w.WLook? && Do(s, WriterNext).w == WIdle(ERR_FULL)
                ==> |s.accepted| == s.w.since + |s.mem| - 1)
            && (s.r.RLook? && Do(s, ReaderNext).r == RIdle(ERR_EMPTY) ==> s.r.until == Taken(s))
  {
    var s := Exec(s0, run);
    RunKeepsInv(s0, run);
    if s.w.WLook? {
      WriterLookCounts(s);
    }
    if s.r.RLook? {
      ReaderLookCounts(s);
    }
  }

  // ---------- What the calls were given and what they answered ----------

  /** A call that has ended, with its argument and what it returned. */
  datatype Call<A> = Call(given: A, result: int)

  /** The calls that did not end in an error. */
  function Done<A>(calls: seq<Call<A>>): (done: seq<Call<A>>)
    ensures |done| <= |calls|
  {
    if calls == [] then []
    else
      var last := calls[|calls| - 1];
      Done(calls[..|calls| - 1]) + if last.result >= 0 then [last] else []
  }

  lemma DoneStep<A>(calls: seq<Call<A>>, last: Call<A>)
    ensures Done(calls + [last]) == Done(calls) + if last.result >= 0 then [last] else []
  {
    assert (calls + [last])[..|calls|] == calls;
  }

  /** The source of the last write that was begun: a call made while another runs is none. */
  function Source(s0: State, run: Trace<Step>): Block
    requires InRange(s0)
  {
    match run
    case Begin => []
    case After(past, step) => if step.CallWrite? && Exec(s0, past).w.WIdle? then step.src else Source(s0, past)
  }

  function Asked(s0: State, run: Trace<Step>): nat
    requires InRange(s0)
  {
    match run
    case Begin => 0
    case After(past, step) => if step.CallRead? && Exec(s0, past).r.RIdle? then step.size else Asked(s0, past)
  }

  /** The writes that have ended, in order. */
  function Writes(s0: State, run: Trace<Step>): seq<Call<Block>>
    requires InRange(s0)
  {
    match run
    case Begin => []
    case After(past, step) =>
      var w := Exec(s0, run).w;
      if w.WIdle? && !Exec(s0, past).w.WIdle? then Writes(s0, past) + [Call(Source(s0, past), w.result)]
      else Writes(s0, past)
  }

  function Reads(s0: State, run: Trace<Step>): seq<Call<nat>>
    requires InRange(s0)
  {
    match run
    case Begin => []
    case After(past, step) =>
      var r := Exec(s0, run).r;
      if r.RIdle? && !Exec(s0, past).r.RIdle? then Reads(s0, past) + [Call(Asked(s0, past), r.result)]
      else Reads(s0, past)
  }

  /** The first bytes of `src`, as many as an item has room for. */
  predicate CutOf(block: Block, src: Block, cap: nat) {
    block <= src && |block| == Min(|src|, cap)
  }

  /** The writer carries the source of its call until it is cut, and then the cut. */
  predicate Carries(w: Writer, src: Block, cap: nat) {
    match w
    case WIdle(_) => true
    case WSawRead(carried, _, _) => carried == src
    case WLook(carried, _, _, _) => carried == src
    case WLength(block) => CutOf(block, src, cap)
    case WCopy(block, _) => CutOf(block, src, cap)
    case WMoved(_) => true
  }

  /** The blocks accepted are the sources of the writes that returned without an error, each cut to what
      an item holds, in order, and each such write returned the length of its block. The write that has
      published its block and not yet returned is one more. */
  predicate StoresWhatIsWritten(s: State, writes: seq<Call<Block>>, src: Block) {
    var done := Done(writes);
    && |s.accepted| == |done| + (if s.w.WMoved? then 1 else 0)
    && (forall k | 0 <= k < |done| ::
          CutOf(s.accepted[k], done[k].given, s.cap) && done[k].result == |s.accepted[k]|)
    && (s.w.WMoved? ==> CutOf(s.accepted[|done|], src, s.cap) && s.w.result == |s.accepted[|done|]|)
    && Carries(s.w, src, s.cap)
  }

  lemma WriteStep(s: State, step: Step, writes: seq<Call<Block>>, src: Block)
    requires InRange(s) && StoresWhatIsWritten(s, writes, src)
    ensures var s' := Do(s, step);
            var src' := if step.CallWrite? && s.w.WIdle? then step.src else src;
            var writes' := if s'.w.WIdle? && !s.w.WIdle? then writes + [Call(src, s'.w.result)] else writes;
            s'.cap == s.cap && StoresWhatIsWritten(s', writes', src')
  {
    hide LookAt, Done;
    var s' := Do(s, step);
    if s'.w.WIdle? && !s.w.WIdle? {
      DoneStep(writes, Call(src, s'.w.result));
    }
  }

  lemma {:induction false} AcceptedIsWhatWasWritten(s0: State, run: Trace<Step>)
    requires Initial(s0)
    ensures StoresWhatIsWritten(Exec(s0, run), Writes(s0, run), Source(s0, run)) && Exec(s0, run).cap == s0.cap
  {
    if run.After? {
      AcceptedIsWhatWasWritten(s0, run.past);
      WriteStep(Exec(s0, run.past), run.step, Writes(s0, run.past), Source(s0, run.past));
    }
    hide StoresWhatIsWritten, Do;
  }

  /** Each block delivered went to one read that returned without an error, which asked for its size and
      returned its length. */
  predicate ReadsReturnLengths(s: State, ended: seq<Call<nat>>, size: nat) {
    var done := Done(ended);
    && |s.delivered| == |s.sizes| == |done|
    && (forall k | 0 <= k < |done| :: done[k].given == s.sizes[k] && done[k].result == |s.delivered[k]|)
    && (match s.r
        case RIdle(_) => true
        case RSawOwn(asked, _) => asked == size
        case RLook(asked, _, _, _) => asked == size
        case RMove(asked) => asked == size
        case RMoved(asked) => asked == size
        case RLength(asked) => asked == size
        case RCopy(asked, want, got) => asked == size && |got| <= want)
  }

  lemma ReadStep(s: State, step: Step, ended: seq<Call<nat>>, size: nat)
    requires InRange(s) && ReadsReturnLengths(s, ended, size)
    ensures var s' := Do(s, step);
            var size' := if step.CallRead? && s.r.RIdle? then step.size else size;
            var ended' := if s'.r.RIdle? && !s.r.RIdle? then ended + [Call(size, s'.r.result)] else ended;
            ReadsReturnLengths(s', ended', size')
  {
    hide LookAt, Done;
    var s' := Do(s, step);
    if s'.r.RIdle? && !s.r.RIdle? {
      DoneStep(ended, Call(size, s'.r.result));
    }
  }

  lemma {:induction false} DeliveredIsWhatReadsReturned(s0: State, run: Trace<Step>)
    requires Initial(s0)
    ensures ReadsReturnLengths(Exec(s0, run), Reads(s0, run), Asked(s0, run))
  {
    if run.After? {
      DeliveredIsWhatReadsReturned(s0, run.past);
      ReadStep(Exec(s0, run.past), run.step, Reads(s0, run.past), Asked(s0, run.past));
    }
    hide ReadsReturnLengths, Do;
  }

  /** From call to call: in every interleaving the k-th read that succeeds gets the first bytes of what
      the k-th write that succeeds was given, as many as it asked for, an item holds and there are, and
      returns their number. The write may not have returned yet. */
  lemma ReadsGetWhatWasWritten(s0: State, run: Trace<Step>, k: nat)
    requires Initial(s0) && k < |Done(Reads(s0, run))|
    ensures var writes, read := Done(Writes(s0, run)), Done(Reads(s0, run))[k];
            && k <= |writes| && k < |Exec(s0, run).delivered|
            && (k == |writes| ==> Exec(s0, run).w.WMoved?)
            && var src := if k < |writes| then writes[k].given else Source(s0, run);
               var block := Exec(s0, run).delivered[k];
               block <= src && |block| == read.result == Min(read.given, Min(s0.cap, |src|))
  {
    hide Exec, Writes, Reads, Source, Asked, Done;
    AcceptedIsWhatWasWritten(s0, run);
    DeliveredIsWhatReadsReturned(s0, run);
    DeliveryIsFifo(s0, run);
  }
}
