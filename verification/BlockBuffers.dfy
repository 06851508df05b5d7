/** The BlockBuffer functions called without interference, as one class. */
module BlockBuffers {
  import opened Bytes
  import opened BlockRing

  type Block = seq<byte>

  /** The blocks after slot `rd`, up to but not including slot `wr`, round the ring. */
  function Between(slots: seq<Block>, rd: nat, wr: nat): (q: seq<Block>)
    requires rd < |slots| && wr < |slots|
    ensures |q| == Distance(|slots|, rd, wr)
  {
    if rd < wr then slots[rd + 1..wr] else slots[rd + 1..] + slots[..wr]
  }

  function NextSlot(n: nat, p: nat): nat {
    if p + 1 >= n then 0 else p + 1
  }

  /** Filling the write slot and stepping on appends; the slot last read stays out of the queue. */
  lemma PublishAppends(slots: seq<Block>, rd: nat, wr: nat, block: Block)
    requires 2 <= |slots| && rd < |slots| && wr < |slots|
    requires |Between(slots, rd, wr)| < |slots| - 1
    ensures Between(slots[wr := block], rd, NextSlot(|slots|, wr)) == Between(slots, rd, wr) + [block]
  {
  }

  lemma ClaimFromRun(slots: seq<Block>, rd: nat, wr: nat)
    requires rd + 1 < wr < |slots|
    ensures Between(slots, rd, wr) == [slots[rd + 1]] + Between(slots, rd + 1, wr)
  {
    FirstAndRest(slots, rd + 1, wr);
  }

  lemma ClaimAtEnd(slots: seq<Block>, rd: nat, wr: nat)
    requires 0 < wr <= rd == |slots| - 1
    ensures Between(slots, rd, wr) == [slots[0]] + Between(slots, 0, wr)
  {
    FirstAndRest(slots, 0, wr);
    assert slots[|slots|..] + slots[..wr] == slots[0..wr];
  }

  lemma ClaimFromTwoRuns(slots: seq<Block>, rd: nat, wr: nat)
    requires wr <= rd < |slots| - 1
    ensures Between(slots, rd, wr) == [slots[rd + 1]] + Between(slots, rd + 1, wr)
  {
    assert slots[rd + 1..] == [slots[rd + 1]] + slots[rd + 2..];
    Associate([slots[rd + 1]], slots[rd + 2..], slots[..wr]);
  }

  /** Stepping the read pointer on claims the oldest block. */
  lemma ClaimDrops(slots: seq<Block>, rd: nat, wr: nat)
    requires 2 <= |slots| && rd < |slots| && wr < |slots| && Between(slots, rd, wr) != []
    ensures Between(slots, rd, wr)
            == [slots[NextSlot(|slots|, rd)]] + Between(slots, NextSlot(|slots|, rd), wr)
  {
    if rd < wr {
      ClaimFromRun(slots, rd, wr);
    } else if rd + 1 == |slots| {
      ClaimAtEnd(slots, rd, wr);
    } else {
      ClaimFromTwoRuns(slots, rd, wr);
    }
  }

  /** memcpy to the front of `dest`. */
  method CopyOut(dest: array<byte>, src: seq<byte>)
    requires |src| <= dest.Length
    modifies dest
    ensures dest[..] == Overlay(old(dest[..]), 0, src)
  {
    forall i | 0 <= i < |src| {
      dest[i] := src[i];
    }
  }

  class BlockBuffer {
    const slots: array<Block>
    const payload: nat
    var wr: nat
    var rd: nat

    ghost predicate Valid()
      reads this
    {
      2 <= slots.Length && wr < slots.Length && rd < slots.Length
    }

    ghost function Queue(): seq<Block>
      requires Valid()
      reads this, slots
    {
      Between(slots[..], rd, wr)
    }

    /** Neither counting loop nor pointer search gives up. */
    ghost predicate Countable()
      requires Valid()
      reads this, slots
    {
      |Queue()| <= LAST_COUNT && wr <= LAST_FINDABLE && rd <= LAST_FINDABLE
    }

    /** BlockBufferCreate: a request for one item gets two. */
    constructor (items: nat, itemSize: nat)
      requires items > 0
      ensures Valid() && fresh(slots) && Queue() == [] && payload == itemSize
      ensures slots.Length == if items == 1 then 2 else items
    {
      var n := if items == 1 then 2 else items;
      slots := new Block[n](_ => []);
      payload := itemSize;
      wr, rd := 0, n - 1;
    }

    /** prvCopyQueueData. */
    method CopyIn(src: seq<byte>) returns (len: nat)
      requires Valid() && |Queue()| < slots.Length - 1
      modifies this`wr, slots
      ensures Valid() && Queue() == old(Queue()) + [Prefix(src, payload)]
      ensures len == Min(|src|, payload)
    {
      len := if |src| <= payload then |src| else payload;
      assert src[..len] == Prefix(src, payload);
      ghost var before := slots[..];
      PublishAppends(before, rd, wr, src[..len]);
      slots[wr] := src[..len];
      assert slots[..] == before[wr := src[..len]];
      wr := wr + 1;
      if wr >= slots.Length {
        wr := 0;
      }
    }

    /** BlockBufferWrite. */
    method Write(src: seq<byte>) returns (ret: int)
      requires Valid()
      modifies this`wr, slots
      ensures Valid()
      ensures old(Countable()) && old(|Queue()|) < slots.Length - 1 ==>
                Queue() == old(Queue()) + [Prefix(src, payload)] && ret == Min(|src|, payload)
      ensures old(Countable()) && old(|Queue()|) == slots.Length - 1 ==>
                Queue() == old(Queue()) && ret == ERR_FULL
      ensures !old(Countable()) ==> Queue() == old(Queue()) && ret == ERR_BUSY
    {
      var look := TakeLook(slots.Length, rd, wr);
      match look
      case Busy => ret := ERR_BUSY;
      case Waiting(k) =>
        if k < slots.Length - 1 {
          ret := CopyIn(src);
        } else {
          ret := ERR_FULL;
        }
    }

    /** BlockBufferRead into the front of `dest`, of which the caller owns `size` bytes. */
    method Read(dest: array<byte>, size: nat) returns (ret: int)
      requires Valid() && size <= dest.Length && dest as object != slots as object
      modifies this`rd, dest
      ensures Valid() && slots[..] == old(slots[..]) && wr == old(wr)
      ensures old(Countable()) && old(Queue()) != [] ==>
                && Queue() == old(Queue())[1..]
                && dest[..] == Overlay(old(dest[..]), 0, Prefix(old(Queue())[0], size))
                && ret == Min(size, |old(Queue())[0]|)
      ensures old(Countable()) && old(Queue()) == [] ==>
                rd == old(rd) && dest[..] == old(dest[..]) && ret == ERR_EMPTY
      ensures !old(Countable()) ==> rd == old(rd) && dest[..] == old(dest[..]) && ret == ERR_BUSY
    {
      hide Between, Overlay;
      var look := TakeLook(slots.Length, rd, wr);
      match look
      case Busy => ret := ERR_BUSY;
      case Waiting(k) =>
        if k == 0 {
          ret := ERR_EMPTY;
        } else {
          ghost var waiting := Queue();
          ClaimDrops(slots[..], rd, wr);
          rd := rd + 1;
          if rd >= slots.Length {
            rd := 0;
          }
          assert waiting == [slots[rd]] + Queue();
          var block := slots[rd];
          assert block == waiting[0];
          var want := if size <= |block| then size else |block|;
          assert block[..want] == Prefix(block, size);
          assert dest[..] == old(dest[..]);
          CopyOut(dest, block[..want]);
          ret := want;
        }
    }

    /** BlockBufferCnt. */
    method Cnt() returns (count: nat)
      requires Valid()
      ensures count == |Queue()|
    {
      count := Count(slots.Length, rd, wr);
    }

    /** BlockBufferClear. */
    method Clear()
      requires Valid()
      modifies this
      ensures Valid() && Queue() == []
    {
      wr, rd := 0, slots.Length - 1;
    }
  }
}
