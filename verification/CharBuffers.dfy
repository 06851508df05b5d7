/** The CharBuffer functions as one class, each proved against the ring it leaves behind,
    and the replay property of CharBufferBrush over whole histories. */
module CharBuffers {
  import opened Bytes
  import opened ByteRing

  const ERR_FULL := -1
  const ERR_EMPTY := -2

  lemma OverlayStep(dst: seq<byte>, at: nat, src: seq<byte>, i: nat)
    requires i < |src| && at + i < |dst|
    ensures Overlay(dst, at, src[..i + 1]) == Overlay(dst, at, src[..i])[at + i := src[i]]
  {
  }

  /** A write finds the ring full exactly when the cell after the write offset is the read offset. */
  lemma FreeAfterPut(r: Ring, s: seq<byte>)
    requires r.Ok() && |s| <= r.Free()
    ensures PutAll(r, s).rd == r.rd
    ensures Forward(|r.mem|, PutAll(r, s).wr, 1) == r.rd <==> |s| == r.Free()
  {
    PutAllAppends(r, s);
    FullIff(PutAll(r, s));
    hide Ring.Queue, Ring.Free, PutAll;
  }

  lemma NothingPut(r: Ring)
    requires r.Ok()
    ensures PutAll(r, []) == r && r.Free() >= 0
  {
  }

  lemma PutAllStep(r: Ring, s: seq<byte>, i: nat)
    requires r.Ok() && i < |s|
    ensures PutAll(r, s[..i + 1]) == PutByte(PutAll(r, s[..i]), s[i])
  {
    assert s[..i + 1][..i] == s[..i];
  }

  /** After `k` bytes are read the read offset holds byte `k` of the queue, and has met the
      write offset only when nothing else is left. */
  lemma OldestAfterTake(r: Ring, k: nat)
    requires r.Ok() && k <= |r.Queue()|
    ensures Take(r, k) == r.(rd := Take(r, k).rd) && Take(r, 0) == r
    ensures Take(r, k).rd == r.wr <==> k == |r.Queue()|
    ensures k < |r.Queue()| ==>
      && r.mem[Take(r, k).rd] == r.Queue()[k]
      && Take(r, k + 1).rd == Forward(|r.mem|, Take(r, k).rd, 1)
  {
  }

  /** Reading byte `k` on: where it lies, the ring behind it, and the destination with it. */
  lemma NextByte(r: Ring, was: seq<byte>, at: nat, k: nat)
    requires r.Ok() && k < |r.Queue()| && at + k < |was|
    ensures Take(r, k).rd < |r.mem| && Take(r, k).mem == r.mem && r.mem[Take(r, k).rd] == r.Queue()[k]
    ensures Take(r, k + 1) == Take(r, k).(rd := Forward(|r.mem|, Take(r, k).rd, 1))
    ensures Overlay(was, at, r.Queue()[..k + 1]) == Overlay(was, at, r.Queue()[..k])[at + k := r.Queue()[k]]
  {
    OldestAfterTake(r, k);
    OverlayStep(was, at, r.Queue(), k);
  }

  class CharBuffer {
    const data: array<byte>
    var wr: nat
    var rd: nat
    var clearCount: nat

    ghost predicate Valid()
      reads this
    {
      wr < data.Length && rd < data.Length && clearCount < 256
    }

    ghost function Value(): (r: Ring)
      requires Valid()
      reads this, data
      ensures r.Ok() && |r.mem| == data.Length
    {
      Ring(data[..], wr, rd)
    }

    ghost function Queue(): seq<byte>
      requires Valid()
      reads this, data
    {
      Value().Queue()
    }

    /** One cell is never used. */
    ghost function Capacity(): int
      reads this
    {
      data.Length - 1
    }

    constructor (size: nat)
      requires size > 0
      ensures Valid() && fresh(data)
      ensures Queue() == [] && Capacity() == size - 1 && clearCount == 0
    {
      data := new byte[size];
      wr, rd, clearCount := 0, 0, 0;
    }

    /** One byte of CharBufferWrite, into a ring that is not full. */
    method PutOne(b: byte)
      requires Valid()
      modifies this`wr, data
      ensures Valid() && Value() == PutByte(old(Value()), b)
    {
      ghost var was := data[..];
      data[wr] := b;
      assert data[..] == was[wr := b];
      wr := wr + 1;
      if wr >= data.Length {
        wr := 0;
      }
    }

    /** CharBufferWrite: accepts exactly as many leading bytes as fit. */
    method Write(src: seq<byte>) returns (ret: int)
      requires Valid()
      modifies this`wr, data
      ensures Valid()
      ensures var n := Min(|src|, old(Value().Free()));
              && Value() == PutAll(old(Value()), src[..n])
              && Queue() == old(Queue()) + src[..n]
              && ret == if src == [] then 0 else if n == 0 then ERR_FULL else n
    {
      hide Ring.Queue, Ring.Free, Ring.Ok, PutAll, PutByte;
      ghost var start := Value();
      NothingPut(start);
      ret := 0;
      var copied := 0;
      while copied < |src|
        invariant copied <= Min(|src|, start.Free())
        invariant Valid() && Value() == PutAll(start, src[..copied])
        invariant ret == copied
      {
        FreeAfterPut(start, src[..copied]);
        PutAllStep(start, src, copied);
        var test := wr + 1;
        if test >= data.Length {
          test := 0;
        }
        if test == rd {
          if copied == 0 {
            ret := ERR_FULL;
          }
          break;
        }
        PutOne(src[copied]);
        copied := copied + 1;
        ret := copied;
      }
      PutAllAppends(start, src[..copied]);
    }

    /** `copied` bytes of the ring `start` have gone into `dest`, which was `was`. */
    ghost predicate Copied(start: Ring, was: seq<byte>, dest: array<byte>, at: nat, copied: nat)
      reads this, data, dest
    {
      && Valid() && start.Ok() && copied <= |start.Queue()| && at + copied <= |was| && dest != data
      && Value() == Take(start, copied)
      && dest[..] == Overlay(was, at, start.Queue()[..copied])
    }

    lemma CopiedFacts(start: Ring, was: seq<byte>, dest: array<byte>, at: nat, copied: nat)
      requires Copied(start, was, dest, at, copied)
      ensures Valid() && dest.Length == |was| && dest != data
      ensures wr == rd <==> copied == |start.Queue()|
      ensures Value() == Take(start, copied) && Queue() == start.Queue()[copied..]
      ensures dest[..] == Overlay(was, at, start.Queue()[..copied])
    {
      OldestAfterTake(start, copied);
      TakeDrops(start, copied);
    }

    method StoreByte(dest: array<byte>, i: nat, b: byte)
      requires i < dest.Length && dest != data
      modifies dest
      ensures dest[..] == old(dest[..])[i := b] && data[..] == old(data[..])
    {
      dest[i] := b;
    }

    /** One byte of CharBufferRead. */
    method CopyByte(dest: array<byte>, i: nat, ghost start: Ring, ghost was: seq<byte>, ghost at: nat)
      requires at <= i && Copied(start, was, dest, at, i - at) && i - at < |start.Queue()| && i < |was|
      modifies this`rd, dest
      ensures Copied(start, was, dest, at, i + 1 - at)
    {
      hide Ring.Queue, Take, Overlay, Ring.Ok;
      NextByte(start, was, at, i - at);
      StoreByte(dest, i, data[rd]);
      rd := rd + 1;
      if rd >= data.Length {
        rd := 0;
      }
    }

    /** The loop of CharBufferRead. */
    method CopyBytes(dest: array<byte>, at: nat, size: nat, ghost start: Ring, ghost was: seq<byte>)
      returns (ret: int)
      requires start.Ok() && Copied(start, was, dest, at, 0) && at + size <= |was|
      modifies this`rd, dest
      ensures Copied(start, was, dest, at, Min(size, |start.Queue()|))
      ensures ret == if start.Queue() == [] then ERR_EMPTY else Min(size, |start.Queue()|)
    {
      hide CharBuffer.Copied, Ring.Queue, Take, Overlay;
      ret := 0;
      var copied: nat := 0;
      while true
        invariant copied <= Min(size, |start.Queue()|)
        invariant Copied(start, was, dest, at, copied)
        invariant ret == copied
        decreases size - copied
      {
        CopiedFacts(start, was, dest, at, copied);
        if wr == rd {
          if copied == 0 {
            ret := ERR_EMPTY;
          }
          break;
        }
        if copied >= size {
          break;
        }
        CopyByte(dest, at + copied, start, was, at);
        copied := copied + 1;
        ret := copied;
      }
    }

    /** CharBufferRead into `dest[at..at+size]`: delivers the oldest bytes, as many as exist and fit. */
    method Read(dest: array<byte>, at: nat, size: nat) returns (ret: int)
      requires Valid() && at + size <= dest.Length && dest != data
      modifies this`rd, dest
      ensures Valid()
      ensures var n := Min(size, old(|Queue()|));
              && Value() == Take(old(Value()), n)
              && Queue() == old(Queue())[n..]
              && dest[..] == Overlay(old(dest[..]), at, old(Queue())[..n])
              && ret == if old(Queue()) == [] then ERR_EMPTY else n
    {
      ghost var start, was := Value(), dest[..];
      OldestAfterTake(start, 0);
      assert Copied(start, was, dest, at, 0);
      hide CharBuffer.Copied, Ring.Queue, Take, Overlay;
      ret := CopyBytes(dest, at, size, start, was);
      CopiedFacts(start, was, dest, at, Min(size, |start.Queue()|));
    }

    /** CharBufferIsFull: the number of bytes a write would accept, or ERR_FULL for none. */
    method FreeBytes() returns (ret: int)
      requires Valid()
      ensures ret == if |Queue()| == Capacity() then ERR_FULL else Capacity() - |Queue()|
    {
      var test := wr + 1;
      if test >= data.Length {
        test := 0;
      }
      if test == rd {
        return ERR_FULL;
      }
      ret := if rd <= wr then data.Length - (wr - rd) - 1 else rd - wr - 1;
    }

    /** CharBufferCurrentReadPointer: how many bytes wait, and how many of them lie contiguously
        from the read offset. */
    method ReadPointer() returns (start: nat, total: nat, right: nat)
      requires Valid()
      ensures total == |Queue()| && right <= total && start + right <= data.Length
      ensures data[start..start + right] == Queue()[..right]
      ensures right == total || start + right == data.Length
    {
      start := rd;
      if rd <= wr {
        total := wr - rd;
        right := total;
      } else {
        total := (data.Length - rd) + wr;
        right := data.Length - rd;
      }
    }

    /** CharBufferUpdateCurrentReadPointer: of `origin` bytes offered, `left` were not used. With more
        left than offered the unsigned difference wraps, and so does the pointer: it moves back. */
    method Advance(origin: nat, left: nat)
      requires Valid() && left <= origin + rd
      modifies this`rd
      ensures Valid()
      ensures left <= origin ==> Value() == Take(old(Value()), Min(origin - left, old(|Queue()|)))
      ensures left <= origin ==> Queue() == Suffix(old(Queue()), origin - left)
      ensures left > origin ==> rd == if old(rd) == wr then wr else old(rd) - (left - origin)
    {
      var step := origin - left;
      if step >= 0 {
        TakeDrops(Value(), Min(step, |Queue()|));
      }
      var tmp := rd + step;
      if rd == wr {
        return;
      } else if rd < wr {
        rd := if tmp >= wr then wr else tmp;
      } else if tmp >= data.Length {
        var delta1 := data.Length - rd;
        var delta2 := wr;
        var delta3 := step - delta1;
        rd := if delta3 >= delta2 then delta2 else delta3;
      } else {
        rd := tmp;
      }
    }

    /** CharBufferUpdateCurrentReadPointer2: the same, undone when the clear counter has moved on
        since the caller took `lastClear`. Another thread may clear the ring once the offsets are
        saved (`early`) or just before the counter is compared (`late`): the first clear stands, the
        second is undone with the rest. */
    method AdvanceUnlessCleared(origin: nat, left: nat, lastClear: nat, early: bool, late: bool)
      requires Valid() && left <= origin + rd
      modifies this
      ensures Valid() && data[..] == old(data[..])
      ensures early ==> Queue() == [] && clearCount == (old(clearCount) + 1) % 256
      ensures !early && old(Queue()) == [] ==> Value() == old(Value()) && clearCount == old(clearCount)
      ensures !early && old(Queue()) != [] ==>
                && clearCount == (old(clearCount) + if late then 1 else 0) % 256
                && (lastClear != clearCount ==> Value() == old(Value()))
                && (lastClear == clearCount && late ==> Queue() == [])
                && (lastClear == clearCount && !late && left <= origin ==>
                      Queue() == Suffix(old(Queue()), origin - left))
    {
      var rdCopy, wrCopy := rd, wr;
      if early {
        Clear();
      }
      if rd == wr {
        return;
      }
      Advance(origin, left);
      if late {
        Clear();
      }
      if lastClear != clearCount {
        rd, wr := rdCopy, wrCopy;
      }
    }

    /** SingleThreadCharBufferBackWrite: hands the last `k` bytes read back to the queue. */
    method BackWrite(k: nat) returns (ret: int)
      requires Valid()
      modifies this`rd
      ensures Valid() && ret == 0
      ensures k > old(Value().Free()) ==> rd == old(rd)
      ensures k <= old(Value().Free()) ==> Backward(old(Value()), k) == At(rd)
    {
      BackOffFitsIffFree(Value(), k);
      ret := 0;
      if rd <= wr {
        if rd >= k {
          rd := rd - k;
        } else if rd + (data.Length - wr - 1) >= k {
          rd := data.Length - (k - rd);
        }
      } else {
        if rd - wr - 1 >= k {
          rd := rd - k;
        }
      }
    }

    /** CharBufferClear. The counter is an unsigned char. */
    method Clear()
      requires Valid()
      modifies this
      ensures Valid() && Queue() == [] && wr == 0 && rd == 0
      ensures data[..] == old(data[..]) && clearCount == (old(clearCount) + 1) % 256
    {
      wr, rd := 0, 0;
      clearCount := (clearCount + 1) % 256;
    }

    /** CharBufferBrush: rewinds the read offset to the head of the storage. */
    method Brush()
      requires Valid()
      modifies this`rd
      ensures Valid() && Value() == Rewound(old(Value()))
    {
      rd := 0;
    }
  }

  function Rewound(r: Ring): Ring {
    r.(rd := 0)
  }

  /** Everything a thread can do to the ring between two clears. */
  datatype Op = Write(src: seq<byte>) | Read(n: nat) | BackWrite(k: nat) | Brush

  function Accepted(r: Ring, op: Op): seq<byte>
    requires r.Ok()
  {
    if op.Write? then Prefix(op.src, r.Free()) else []
  }

  function Apply(r: Ring, op: Op): (r': Ring)
    requires r.Ok()
    ensures r'.Ok() && |r'.mem| == |r.mem|
  {
    match op
    case Write(_) => PutAll(r, Accepted(r, op))
    case Read(n) => Take(r, Min(n, |r.Queue()|))
    case BackWrite(k) => (match Backward(r, k) case NoRoom => r case At(p) => r.(rd := p))
    case Brush => Rewound(r)
  }

  /** The ring after a history of operations. */
  function Run(r: Ring, ops: Trace<Op>): (r': Ring)
    requires r.Ok()
    ensures r'.Ok() && |r'.mem| == |r.mem|
  {
    match ops
    case Begin => r
    case After(past, op) => Apply(Run(r, past), op)
  }

  /** Every byte accepted during a history. */
  function WrittenIn(r: Ring, ops: Trace<Op>): seq<byte>
    requires r.Ok()
  {
    match ops
    case Begin => []
    case After(past, op) => WrittenIn(r, past) + Accepted(Run(r, past), op)
  }

  lemma {:induction false} PutAllBelowTheTail(r: Ring, s: seq<byte>)
    requires r.Ok() && r.wr + |s| < |r.mem|
    ensures var r' := PutAll(r, s);
            r'.wr == r.wr + |s| && r'.mem[..r'.wr] == r.mem[..r.wr] + s
    decreases |s|
  {
    if s != [] {
      PutAllBelowTheTail(r, s[..|s| - 1]);
    }
  }

  /** While no write has reached the tail, the storage in front of the write offset is the whole
      history since the clear. */
  lemma {:induction false} HistoryLiesBelowWriteOffset(r: Ring, ops: Trace<Op>)
    requires r.Ok() && r.wr == 0 && |WrittenIn(r, ops)| < |r.mem|
    ensures Run(r, ops).wr == |WrittenIn(r, ops)|
    ensures Run(r, ops).mem[..Run(r, ops).wr] == WrittenIn(r, ops)
  {
    match ops
    case Begin =>
    case After(past, op) =>
      HistoryLiesBelowWriteOffset(r, past);
      PutAllBelowTheTail(Run(r, past), Accepted(Run(r, past), op));
  }

  /** Brush replays everything written since the clear, however much was read, handed back or
      brushed in between, exactly when fewer bytes than the storage holds were accepted. */
  lemma BrushReplaysSinceClear(r: Ring, ops: Trace<Op>)
    requires r.Ok() && r.wr == 0 && r.rd == 0
    ensures Rewound(Run(r, ops)).Queue() == WrittenIn(r, ops) <==> |WrittenIn(r, ops)| < |r.mem|
  {
    if |WrittenIn(r, ops)| < |r.mem| {
      HistoryLiesBelowWriteOffset(r, ops);
    }
  }
}
