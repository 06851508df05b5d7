/** The byte ring shared without a lock by one producer and one consumer thread
    (buffer_read_write_fun.cxx, the CharBuffer functions).

    Pointers are modelled as offsets from `pb_head`, so `pb_tail` is the length of
    the storage. One cell always stays unused, which is how "full" and "empty" differ. */
module ByteRing {
  import opened Bytes

  /** The three things a CharBuffer function can see: the storage and the two offsets. */
  datatype Ring = Ring(mem: seq<byte>, wr: nat, rd: nat) {

    predicate Ok() {
      wr < |mem| && rd < |mem|
    }

    /** The bytes waiting to be read, oldest first. */
    function Queue(): (q: seq<byte>)
      requires Ok()
    {
      if rd <= wr then mem[rd..wr] else mem[rd..] + mem[..wr]
    }

    function Free(): nat
      requires Ok()
    {
      |mem| - 1 - |Queue()|
    }
  }

  /** The offset `k` cells after `p`, wrapping at most once. */
  function Forward(size: nat, p: nat, k: nat): nat
    requires p < size && k <= size
  {
    if p + k < size then p + k else p + k - size
  }

  function PutByte(r: Ring, b: byte): Ring
    requires r.Ok()
  {
    Ring(r.mem[r.wr := b], Forward(|r.mem|, r.wr, 1), r.rd)
  }

  function PutAll(r: Ring, s: seq<byte>): (r': Ring)
    requires r.Ok()
    ensures r'.Ok() && |r'.mem| == |r.mem|
  {
    if s == [] then r else PutByte(PutAll(r, s[..|s| - 1]), s[|s| - 1])
  }

  function Take(r: Ring, k: nat): Ring
    requires r.Ok() && k <= |r.Queue()|
  {
    r.(rd := Forward(|r.mem|, r.rd, k))
  }

  lemma EmptyIff(r: Ring)
    requires r.Ok()
    ensures r.Queue() == [] <==> r.wr == r.rd
  {
  }

  lemma FullIff(r: Ring)
    requires r.Ok()
    ensures r.Free() == 0 <==> Forward(|r.mem|, r.wr, 1) == r.rd
    ensures |r.Queue()| < |r.mem|
  {
  }

  /** The cell at the write offset is never part of the queue. */
  lemma WriteCellIsFree(r: Ring, b: byte)
    requires r.Ok()
    ensures r.(mem := r.mem[r.wr := b]).Queue() == r.Queue()
  {
  }

  lemma PutByteAppends(r: Ring, b: byte)
    requires r.Ok() && r.Free() > 0
    ensures PutByte(r, b).Ok() && PutByte(r, b).Free() == r.Free() - 1
    ensures PutByte(r, b).Queue() == r.Queue() + [b]
  {
  }

  /** Writing a run of bytes that fits appends exactly that run to the queue. */
  lemma {:induction false} PutAllAppends(r: Ring, s: seq<byte>)
    requires r.Ok() && |s| <= r.Free()
    ensures PutAll(r, s).Queue() == r.Queue() + s
    ensures PutAll(r, s).rd == r.rd && PutAll(r, s).Free() == r.Free() - |s|
    decreases |s|
  {
    hide Ring.Queue, Ring.Free, Ring.Ok;
    if s == [] {
      assert r.Queue() + [] == r.Queue();
    } else {
      var init, last := s[..|s| - 1], s[|s| - 1];
      PutAllAppends(r, init);
      PutByteAppends(PutAll(r, init), last);
      assert init + [last] == s;
      assert r.Queue() + (init + [last]) == r.Queue() + init + [last];
    }
  }

  lemma TakeOneOfRun(r: Ring)
    requires r.Ok() && r.rd < r.wr
    ensures r.Queue() == [r.mem[r.rd]] + Take(r, 1).Queue()
  {
    FirstAndRest(r.mem, r.rd, r.wr);
  }

  lemma TakeOneAtEnd(r: Ring)
    requires r.Ok() && r.wr < r.rd == |r.mem| - 1
    ensures r.Queue() == [r.mem[r.rd]] + Take(r, 1).Queue()
  {
    assert r.mem[r.rd..] == [r.mem[r.rd]];
    assert Take(r, 1).Queue() == r.mem[..r.wr];
  }

  lemma TakeOneOfTwoRuns(r: Ring)
    requires r.Ok() && r.wr < r.rd < |r.mem| - 1
    ensures r.Queue() == [r.mem[r.rd]] + Take(r, 1).Queue()
  {
    assert r.mem[r.rd..] == [r.mem[r.rd]] + r.mem[r.rd + 1..];
    Associate([r.mem[r.rd]], r.mem[r.rd + 1..], r.mem[..r.wr]);
  }

  /** The oldest byte lies at the read offset; taking it leaves the rest. */
  lemma TakeOne(r: Ring)
    requires r.Ok() && r.Queue() != []
    ensures Take(r, 1).Ok() && Take(r, 1).Free() == r.Free() + 1 > 0
    ensures r.Queue() == [r.mem[r.rd]] + Take(r, 1).Queue()
  {
    if r.rd < r.wr {
      TakeOneOfRun(r);
    } else if r.rd + 1 == |r.mem| {
      TakeOneAtEnd(r);
    } else {
      TakeOneOfTwoRuns(r);
    }
  }

  /** Moving the read offset over `k` waiting bytes, across the wrap or not, drops the oldest `k`. */
  lemma TakeDrops(r: Ring, k: nat)
    requires r.Ok() && k <= |r.Queue()|
    ensures Take(r, k).Ok() && Take(r, k).Queue() == r.Queue()[k..]
  {
    var q := Take(r, k).Queue();
    assert |q| == |r.Queue()| - k;
    forall i | 0 <= i < |q|
      ensures q[i] == r.Queue()[k + i]
    {
    }
  }

  /** Where SingleThreadCharBufferBackWrite leaves the read offset; NoRoom stands for its two error branches. */
  datatype BackOff = NoRoom | At(rd: nat)

  function Backward(r: Ring, k: nat): BackOff
    requires r.Ok()
  {
    if r.rd <= r.wr then
      if k <= r.rd then At(r.rd - k)
      else if k <= r.rd + (|r.mem| - r.wr - 1) then At(|r.mem| - (k - r.rd))
      else NoRoom
    else
      if k <= r.rd - r.wr - 1 then At(r.rd - k) else NoRoom
  }

  /** The error branch is taken exactly when more bytes are handed back than the ring has free cells. */
  lemma BackOffFitsIffFree(r: Ring, k: nat)
    requires r.Ok()
    ensures Backward(r, k) == NoRoom <==> k > r.Free()
  {
  }

  /** Reading `k` bytes and backing off `k` restores the ring, wherever the wrap falls. */
  lemma BackOffUndoesRead(r: Ring, k: nat)
    requires r.Ok() && k <= |r.Queue()|
    ensures Backward(Take(r, k), k) == At(r.rd)
    ensures Take(r, k).(rd := r.rd) == r
  {
  }

  /** Backing off `k` puts the `k` cells just before the read offset back in front of the queue. */
  lemma BackOffPrepends(r: Ring, k: nat)
    requires r.Ok() && Backward(r, k).At?
    ensures var r' := r.(rd := Backward(r, k).rd);
            r'.Ok() && |r'.Queue()| == k + |r.Queue()| && r'.Queue()[k..] == r.Queue()
  {
    var r' := r.(rd := Backward(r, k).rd);
    assert |r'.Queue()| == k + |r.Queue()| && Take(r', k) == r;
    hide Ring.Queue, Backward;
    TakeDrops(r', k);
  }
}
