/** What either side of the block ring works out from one look at the two pointers
    (buffer_read_write_fun.cxx, BlockBufferPtrIsValid and the counting loops of
    BlockBufferWrite and BlockBufferRead, built without the mutex).

    Pointers are counted in slots from `pb_head`; a pointer that was advanced but not yet
    wrapped stands at `pb_tail`, which is slot number `total_items`. */
module BlockRing {
  const ERR_FULL := -1
  const ERR_EMPTY := -2
  const ERR_BUSY := -4

  /** BlockBufferPtrIsValid gives up after this slot. */
  const LAST_FINDABLE := 256

  /** The counting loops give up at this count. */
  const LAST_COUNT := 255

  datatype Look = Busy | Waiting(blocks: nat)

  /** How many blocks lie after the last one read and before the next one to write. */
  function Distance(n: nat, rd: nat, wr: nat): nat
    requires rd < n && wr < n
  {
    if rd < wr then wr - rd - 1 else n + wr - rd - 1
  }

  function LookAt(n: nat, rd: nat, wr: nat): Look {
    if rd < n && wr < n && rd <= LAST_FINDABLE && wr <= LAST_FINDABLE && Distance(n, rd, wr) <= LAST_COUNT
    then Waiting(Distance(n, rd, wr))
    else Busy
  }

  /** With at most 256 slots a look fails only on a pointer caught at the tail; from 257 slots on
      there are looks that fail although both pointers are wrapped. */
  lemma BusyMeansTail(n: nat)
    requires n >= 2
    ensures n <= 256 <==> forall rd: nat, wr: nat | rd < n && wr < n :: LookAt(n, rd, wr) != Busy
  {
    if n > 256 {
      assert LookAt(n, 0, 0) == Busy;
    }
  }

  /** BlockBufferPtrIsValid. */
  method PtrIsValid(n: nat, rd: nat, wr: nat) returns (ok: bool)
    requires rd <= n && wr <= n
    ensures ok <==> rd < n && wr < n && rd <= LAST_FINDABLE && wr <= LAST_FINDABLE
  {
    var rdFound := Find(n, rd);
    var wrFound := Find(n, wr);
    ok := rdFound && wrFound;
  }

  /** One of the two search loops of BlockBufferPtrIsValid. */
  method Find(n: nat, p: nat) returns (found: bool)
    requires p <= n
    ensures found <==> p < n && p <= LAST_FINDABLE
  {
    var tmp := 0;
    var i := 0;
    while i < n
      invariant 0 <= i <= n && tmp == i && i <= p && i <= LAST_FINDABLE
    {
      if p != tmp {
        tmp := tmp + 1;
      } else {
        return true;
      }
      if i >= LAST_FINDABLE {
        return false;
      }
      i := i + 1;
    }
    found := false;
  }

  /** The look as both BlockBufferWrite and BlockBufferRead perform it on their snapshots. */
  method TakeLook(n: nat, rd: nat, wr: nat) returns (look: Look)
    requires n >= 2 && rd <= n && wr <= n
    ensures look == LookAt(n, rd, wr)
  {
    var valid := PtrIsValid(n, rd, wr);
    if !valid {
      return Busy;
    }
    var tmp, count, i := rd, 0, 0;
    while i < n
      invariant 0 <= i <= n && count == i <= Distance(n, rd, wr) && i <= LAST_COUNT
      invariant tmp == (if rd + i < n then rd + i else rd + i - n)
      decreases n - i
    {
      tmp := tmp + 1;
      if tmp >= n {
        tmp := 0;
      }
      if tmp != wr {
        count := count + 1;
      } else {
        break;
      }
      if i >= LAST_COUNT {
        i := n;
        break;
      }
      i := i + 1;
    }
    if i == n {
      return Busy;
    }
    look := Waiting(count);
  }

  /** The counting loop of BlockBufferCnt and BlockBufferEmpty, which has no limit. */
  method Count(n: nat, rd: nat, wr: nat) returns (count: nat)
    requires n >= 2 && rd < n && wr < n
    ensures count == Distance(n, rd, wr)
  {
    var tmp := rd;
    count := 0;
    while true
      invariant count <= Distance(n, rd, wr)
      invariant tmp == (if rd + count < n then rd + count else rd + count - n)
      decreases Distance(n, rd, wr) - count
    {
      tmp := tmp + 1;
      if tmp >= n {
        tmp := 0;
      }
      if tmp != wr {
        count := count + 1;
      } else {
        break;
      }
    }
  }

  /** Where item number `k` of an endless stream falls on a ring of `n` places. */
  function Place(n: nat, k: nat): (p: nat)
    requires n >= 2
    ensures p < n
  {
    if k == 0 then 0 else
      var p := Place(n, k - 1);
      if p + 1 == n then 0 else p + 1
  }

  lemma NextPlace(n: nat, k: nat)
    requires n >= 2
    ensures Place(n, k + 1) == if Place(n, k) + 1 == n then 0 else Place(n, k) + 1
  {
  }

  /** Walking `d` places on, at most once round. */
  lemma {:induction false} PlaceAhead(n: nat, t: nat, d: nat)
    requires n >= 2 && d <= n
    ensures Place(n, t + d) == if Place(n, t) + d < n then Place(n, t) + d else Place(n, t) + d - n
    decreases d
  {
    if d > 0 {
      PlaceAhead(n, t, d - 1);
    }
  }

  /** Items less than one round apart never share a place. */
  lemma PlacesDiffer(n: nat, a: nat, b: nat)
    requires n >= 2 && a < b < a + n
    ensures Place(n, a) != Place(n, b)
  {
    PlaceAhead(n, a, b - a);
  }

  /** The distance between the last block taken and the next to publish counts what lies between. */
  lemma DistanceCounts(n: nat, taken: nat, published: nat)
    requires n >= 2 && taken <= published <= taken + n - 1
    ensures Distance(n, Place(n, taken + n - 1), Place(n, published)) == published - taken
  {
    PlaceAhead(n, taken, n - 1);
    PlaceAhead(n, taken, published - taken);
  }
}
