/** The receive cache of network/udp_recv_fun.cxx in its counter and push-flag version
    (DataRecvAndHandle and the functions below it): six packet slots handed round through an array
    of pointers, with packets passed on to the application ring once enough are queued. */
module ReceiveCache {
  import opened Bytes

  const SLOTS := 6        // Cache_PACK_NUM
  const CRITICAL := 3     // kCacheCriticalValue

  datatype Packet = Packet(end: bool, number: int, payload: seq<byte>)

  // ---------- What the machine does, on values ----------

  /** The packets queued, oldest first, and the flag that makes a receive also pass one on. */
  datatype Cache = Cache(queue: seq<Packet>, push: bool)

  predicate Follows(q: seq<Packet>, n: int)
    requires q != []
  {
    q[|q| - 1].number < n < q[|q| - 1].number + 3 * CRITICAL
  }

  predicate Late(q: seq<Packet>, n: int)
    requires q != []
  {
    n < q[|q| - 1].number && (n > q[0].number || n < 4 * CRITICAL)
  }

  /** Which packets enter the queue. */
  predicate Accepts(q: seq<Packet>, n: int) {
    || q == []
    || Late(q, n)
    || (n > q[0].number && (Follows(q, n) || |q| < CRITICAL))
  }

  /** A number out of range makes a short queue pass a packet on at once. */
  predicate Startles(q: seq<Packet>, n: int) {
    q != [] && |q| < CRITICAL && !Follows(q, n) && !Late(q, n)
  }

  function Enqueue(q: seq<Packet>, p: Packet): seq<Packet> {
    if Accepts(q, p.number) then q + [p] else q
  }

  /** How many packets a receive passes on. */
  function Passed(c: Cache, p: Packet): nat {
    if p.end then |Enqueue(c.queue, p)|
    else if c.push || |c.queue| >= CRITICAL || Startles(c.queue, p.number) then 1
    else 0
  }

  function Received(c: Cache, p: Packet): Cache
    requires Bounded(c)
  {
    var q := Enqueue(c.queue, p);
    var n := Passed(c, p);
    Cache(q[n..], |q| - n == CRITICAL && n == 1)
  }

  /** Between packets: at most three queued, and the flag only with a full three. */
  predicate Bounded(c: Cache) {
    |c.queue| <= CRITICAL && (c.push ==> |c.queue| == CRITICAL)
  }

  lemma ReceiveKeepsBounded(c: Cache, p: Packet)
    requires Bounded(c)
    ensures Bounded(Received(c, p)) && |Enqueue(c.queue, p)| <= CRITICAL + 1
  {
  }

  // ---------- Histories ----------

  datatype Event = Arrive(p: Packet) | ForceClear | ForcePush

  function Step(c: Cache, e: Event): (c': Cache)
    requires Bounded(c)
    ensures Bounded(c')
  {
    match e
    case Arrive(p) => ReceiveKeepsBounded(c, p); Received(c, p)
    case ForceClear => Cache([], false)
    case ForcePush => Cache([], false)
  }

  function Emits(c: Cache, e: Event): seq<Packet>
    requires Bounded(c)
  {
    match e
    case Arrive(p) => Enqueue(c.queue, p)[..Passed(c, p)]
    case ForceClear => []
    case ForcePush => c.queue
  }

  function Run(events: Trace<Event>): (c: Cache)
    ensures Bounded(c)
  {
    match events
    case Begin => Cache([], false)
    case After(past, e) => Step(Run(past), e)
  }

  function Emitted(events: Trace<Event>): seq<Packet> {
    match events
    case Begin => []
    case After(past, e) => Emitted(past) + Emits(Run(past), e)
  }

  /** The packets accepted and not dropped by a later forced clear: a clear drops just those that
      have not been emitted. */
  function Kept(events: Trace<Event>): seq<Packet> {
    match events
    case Begin => []
    case After(past, Arrive(p)) => Kept(past) + if Accepts(Run(past).queue, p.number) then [p] else []
    case After(past, ForceClear) => Emitted(past)
    case After(past, ForcePush) => Kept(past)
  }

  lemma ReceiveConserves(c: Cache, p: Packet)
    requires Bounded(c)
    ensures Enqueue(c.queue, p) == Emits(c, Arrive(p)) + Received(c, p).queue
  {
    var q, n := Enqueue(c.queue, p), Passed(c, p);
    assert q == q[..n] + q[n..];
  }

  lemma Join(k: seq<Packet>, e: seq<Packet>, q: seq<Packet>, x: seq<Packet>, out: seq<Packet>, q': seq<Packet>)
    requires k == e + q && q + x == out + q'
    ensures k + x == (e + out) + q'
  {
    assert k + x == e + (q + x);
    assert (e + out) + q' == e + (out + q');
  }

  /** Over every history each accepted packet that no forced clear drops is emitted exactly once, in
      acceptance order, and at most three wait. */
  lemma {:induction false} EmittedOnceInOrder(events: Trace<Event>)
    ensures Kept(events) == Emitted(events) + Run(events).queue
    ensures |Kept(events)| - |Emitted(events)| <= CRITICAL
  {
    match events
    case Begin =>
    case After(past, Arrive(p)) =>
      EmittedOnceInOrder(past);
      var c := Run(past);
      ReceiveConserves(c, p);
      Join(Kept(past), Emitted(past), c.queue, if Accepts(c.queue, p.number) then [p] else [],
           Emits(c, Arrive(p)), Received(c, p).queue);
    case After(past, ForceClear) =>
    case After(past, ForcePush) =>
      EmittedOnceInOrder(past);
  }

  /** The order is that of acceptance, not of the packet numbers: a packet that arrives one place
      late is passed on one place late. */
  lemma LatePacketsStayLate(n: int, a: seq<byte>, b: seq<byte>, c: seq<byte>)
    ensures var first, third, second := Packet(false, n, a), Packet(false, n + 2, b), Packet(true, n + 1, c);
            Emitted(After(After(After(Begin, Arrive(first)), Arrive(third)), Arrive(second)))
            == [first, third, second]
  {
    var first, third, second := Packet(false, n, a), Packet(false, n + 2, b), Packet(true, n + 1, c);
    var run1: Trace<Event> := After(Begin, Arrive(first));
    assert Run(Begin) == Cache([], false) && Emitted(Begin) == [];
    assert Run(run1).queue == [first] && !Run(run1).push && Emitted(run1) == [];
    var run2 := After(run1, Arrive(third));
    assert Run(run2) == Cache([first, third], false) && Emitted(run2) == [];
  }

  /** Whether a packet numbered `n` is queued behind `q`, by where `n` stands. */
  predicate Wanted(q: seq<Packet>, n: int) {
    if q == [] then true
    else
      var oldest, newest := q[0].number, q[|q| - 1].number;
      if n < newest then n > oldest || n < 12
      else if n == newest then n > oldest && |q| < 3
      else if n < newest + 9 then n > oldest
      else n > oldest && |q| < 3
  }

  /** Whether it makes the oldest packet of `q` go out. */
  predicate Displaces(q: seq<Packet>, n: int) {
    && q != []
    && var oldest, newest := q[0].number, q[|q| - 1].number;
       |q| == 3 || n == newest || n >= newest + 9 || (n < newest && n <= oldest && n >= 12)
  }

  /** One receive, in every run: a packet with the end flag empties the cache; any other passes at most
      one packet on, the oldest. The push flag never decides anything: between packets it is set only
      with three queued, when one goes out anyway. */
  lemma ReceiveByNumber(events: Trace<Event>, p: Packet)
    ensures var q, after := Run(events).queue, After(events, Arrive(p));
            var all := if Wanted(q, p.number) then q + [p] else q;
            var out := if p.end then all else if Displaces(q, p.number) then [all[0]] else [];
            && out <= all && Emitted(after) == Emitted(events) + out && Run(after).queue == all[|out|..]
  {
    hide Run, Emitted, Enqueue, Passed, Wanted, Displaces;
    var c := Run(events);
    ReceiveIsStep(events, p);
    PassedByNumber(c, p);
    var all := Enqueue(c.queue, p);
    assert all != [] && all[..1] == [all[0]] && all[..|all|] == all && all[..0] == [];
  }

  lemma PassedByNumber(c: Cache, p: Packet)
    requires Bounded(c)
    ensures Enqueue(c.queue, p) == (if Wanted(c.queue, p.number) then c.queue + [p] else c.queue) != []
    ensures Passed(c, p) ==
            if p.end then |Enqueue(c.queue, p)| else if Displaces(c.queue, p.number) then 1 else 0
  {
  }

  lemma ReceiveIsStep(events: Trace<Event>, p: Packet)
    ensures Run(After(events, Arrive(p))) == Received(Run(events), p)
    ensures Emitted(After(events, Arrive(p))) == Emitted(events) + Emits(Run(events), Arrive(p))
  {
  }

  function Arriving(ps: seq<Packet>): Trace<Event>
    decreases |ps|
  {
    if ps == [] then Begin else After(Arriving(ps[..|ps| - 1]), Arrive(ps[|ps| - 1]))
  }

  predicate Consecutive(ps: seq<Packet>, n: int) {
    forall i :: 0 <= i < |ps| ==> ps[i].number == n + i
  }

  /** Packets that arrive in order, without an end flag, all go out in order, three packets late. */
  lemma {:induction false} OrderlyStreamIsDelayedByThree(ps: seq<Packet>, n: int)
    requires Consecutive(ps, n) && forall i :: 0 <= i < |ps| ==> !ps[i].end
    ensures var k := if |ps| < 3 then 0 else |ps| - 3;
            Emitted(Arriving(ps)) == ps[..k] && Run(Arriving(ps)).queue == ps[k..]
    decreases |ps|
  {
    if ps != [] {
      hide Run, Emitted, Wanted, Displaces;
      var init, p := ps[..|ps| - 1], ps[|ps| - 1];
      OrderlyStreamIsDelayedByThree(init, n);
      ReceiveByNumber(Arriving(init), p);
      var k := if |init| < 3 then 0 else |init| - 3;
      NextInOrder(init[k..], p);
      MoveOn(ps, k);
    }
  }

  lemma MoveOn(ps: seq<Packet>, k: nat)
    requires k < |ps|
    ensures var init := ps[..|ps| - 1];
            && init[k..] + [ps[|ps| - 1]] == ps[k..] && ps[k..][1..] == ps[k + 1..] && init[..k] == ps[..k]
            && ps[..k] + [ps[k..][0]] == ps[..k + 1] && ps[..k] + [] == ps[..k]
  {
  }

  lemma NextInOrder(q: seq<Packet>, p: Packet)
    requires |q| <= 3 && forall i :: 0 <= i < |q| ==> q[i].number == p.number - |q| + i
    ensures Wanted(q, p.number) && (Displaces(q, p.number) <==> |q| == 3)
  {
  }

  /** And the end flag brings out the rest. */
  lemma EndOfStreamBringsOutAll(ps: seq<Packet>, last: Packet, n: int)
    requires Consecutive(ps + [last], n) && last.end && forall i :: 0 <= i < |ps| ==> !ps[i].end
    ensures Emitted(After(Arriving(ps), Arrive(last))) == ps + [last]
    ensures Run(After(Arriving(ps), Arrive(last))).queue == []
  {
    hide Run, Emitted, Wanted, Displaces;
    var all := ps + [last];
    assert all[|ps|] == last && forall i :: 0 <= i < |ps| ==> all[i] == ps[i];
    OrderlyStreamIsDelayedByThree(ps, n);
    ReceiveByNumber(Arriving(ps), last);
    var k := if |ps| < 3 then 0 else |ps| - 3;
    NextInOrder(ps[k..], last);
    Rejoin(ps, k, last);
  }

  lemma Rejoin(ps: seq<Packet>, k: nat, last: Packet)
    requires k <= |ps|
    ensures ps[..k] + (ps[k..] + [last]) == ps + [last]
    ensures (ps[k..] + [last])[|ps[k..] + [last]|..] == []
  {
  }

  // ---------- The machine itself ----------

  /** The packets in the first `n` places of the pointer array. */
  function Queued(store: seq<Packet>, ptr: seq<int>, n: nat): (q: seq<Packet>)
    requires n <= SLOTS && Placed(store, ptr)
    ensures |q| == n
  {
    seq(n, i requires 0 <= i < n => store[ptr[i]])
  }

  /** The first six pointers are a permutation of the six slots; the last two are spare. */
  predicate Placed(store: seq<Packet>, ptr: seq<int>) {
    && |store| == SLOTS && |ptr| == 8
    && (forall i | 0 <= i < SLOTS :: 0 <= ptr[i] < SLOTS)
    && (forall i, j | 0 <= i < j < SLOTS :: ptr[i] != ptr[j])
  }

  /** The packet in slot `x` is not numbered above the one at place `i`. */
  predicate NotAbove(store: seq<Packet>, ptr: seq<int>, x: nat, i: nat)
    requires Placed(store, ptr) && x < SLOTS && i < SLOTS
  {
    store[x].number <= store[ptr[i]].number
  }

  class Receiver {
    const store: array<Packet>
    const ptr: array<int>       // ArrayToHandle; -1 stands for NULL
    var toData: nat             // *pToData
    var counter: nat
    var push: bool
    var forced: bool            // clean_force_len
    var sink: seq<Packet>       // what has been handed to CharBufferWrite

    /** Holds at every point inside a receive: the slot the next packet goes to is place `counter`. */
    ghost predicate Mid()
      reads this`counter, this`toData, store, ptr
    {
      && (store as object) != ptr && Placed(store[..], ptr[..])
      && counter <= CRITICAL + 1 && toData == ptr[counter]
    }

    /** Holds between calls. After a forced clear, and until the next receive, the old counter is
        still there but the incoming slot is place 0. */
    ghost predicate Valid()
      reads this, store, ptr
    {
      && (store as object) != ptr && Placed(store[..], ptr[..])
      && counter <= CRITICAL && (push ==> counter == CRITICAL)
      && toData == ptr[if forced then 0 else counter]
    }

    ghost function Queue(): (q: seq<Packet>)
      requires Mid()
      reads this`counter, this`toData, store, ptr
      ensures |q| == counter
    {
      Queued(store[..], ptr[..], counter)
    }

    ghost function Value(): (c: Cache)
      requires Valid()
      reads this, store, ptr
      ensures Bounded(c)
    {
      if forced then Cache([], false) else Cache(Queued(store[..], ptr[..], counter), push)
    }

    /** CacheCreate. */
    constructor ()
      ensures Valid() && Value() == Cache([], false) && sink == []
      ensures fresh(store) && fresh(ptr)
    {
      store := new Packet[SLOTS](_ => Packet(false, 0, []));
      ptr := new int[8](i => if i < SLOTS then i else -1);
      toData, counter, push, forced, sink := 0, 0, false, false, [];
    }

    /** ForceClearDataCache. */
    method ForceClear()
      requires Valid()
      modifies this
      ensures Valid() && Value() == Step(old(Value()), Event.ForceClear)
      ensures sink == old(sink) + Emits(old(Value()), Event.ForceClear)
    {
      toData := ptr[0];
      forced := true;
    }

    /** ArraySort: turns the first six places of the pointer array by one. */
    method ArraySort()
      requires Placed(store[..], ptr[..])
      modifies ptr
      ensures ptr[..] == Turned(old(ptr[..]))
    {
      var first := ptr[0];
      var i := 0;
      while i < SLOTS
        invariant 0 <= i <= SLOTS
        invariant forall k | 0 <= k < i :: ptr[k] == old(ptr[k + 1])
        invariant forall k | i <= k < 8 :: ptr[k] == old(ptr[k])
      {
        ptr[i] := ptr[i + 1];
        i := i + 1;
      }
      ptr[SLOTS - 1] := first;
    }

    /** WriteTobuffer: hands on the oldest packet. */
    method WriteToBuffer()
      requires Mid() && counter > 0
      modifies this`counter, this`push, this`sink, ptr
      ensures Mid() && counter == old(counter) - 1 && Queue() == old(Queue())[1..]
      ensures sink == old(sink) + [old(Queue())[0]]
      ensures push == (old(push) && counter != 0)
    {
      sink := sink + [store[ptr[0]]];
      counter := counter - 1;
      TurnDropsOldest(store[..], ptr[..], counter);
      ArraySort();
      if counter == 0 {
        push := false;
      }
    }

    /** AddPakageToCache: queues the incoming packet unless its number is not above the oldest one. */
    method AddPackage() returns (ok: bool)
      requires Mid() && counter <= CRITICAL
      modifies this`counter, this`toData, ptr
      ensures Mid() && ptr[..] == old(ptr[..])
      ensures ok == (old(counter) == 0 || store[old(toData)].number > old(Queue())[0].number)
      ensures ok ==> Queue() == old(Queue()) + [store[old(toData)]]
      ensures !ok ==> counter == old(counter) && toData == old(toData) && Queue() == old(Queue())
    {
      if store[toData].number <= store[ptr[0]].number && counter != 0 {
        return false;
      }
      ptr[counter] := toData;
      counter := counter + 1;
      toData := ptr[counter];
      ok := true;
    }

    /** Both arrays, with the pointers from place `at` on moved up to make room. */
    ghost predicate Opened(p0: seq<int>, packets: seq<Packet>, at: nat, n: nat)
      reads store, ptr
    {
      && (store as object) != ptr && store[..] == packets && Placed(packets, p0)
      && at <= n <= CRITICAL + 1 && ptr[..] == Gap(p0, at, n)
    }

    /** One pass of the loop of ArrayMoveSort: move the pointer below up, or put the incoming one in. */
    method MoveUpOrPut(local: nat, ghost n: nat, x: nat, ghost p0: seq<int>, ghost packets: seq<Packet>)
      returns (put: bool)
      requires Opened(p0, packets, local, n) && 0 < local <= n && x < SLOTS
      modifies ptr
      ensures Placed(packets, p0) && n <= CRITICAL + 1
      ensures put <==> NotAbove(packets, p0, x, local - 1)
      ensures put ==> store[..] == packets && ptr[..] == Inserted(p0, local, n, x)
      ensures !put ==> Opened(p0, packets, local - 1, n)
    {
      GapFacts(p0, local, n, x);
      assert ptr[..][local - 1] == p0[local - 1];
      hide Gap, Inserted;
      put := store[x].number <= store[ptr[local - 1]].number;
      ptr[local] := if put then x else ptr[local - 1];
      assert store[..] == packets;
    }

    /** ArrayMoveSort: the incoming packet goes behind the newest queued one that is not numbered
        below it; there is one, at place `k`, so the loop ends before its guard can fail. Its caller
        has a packet numbered below the newest of all, for which that is the end of the queue:
        nothing is ever shifted, and nothing sorted. */
    method ArrayMoveSort(ghost p0: seq<int>, ghost packets: seq<Packet>, ghost k: nat) returns (ghost at: nat)
      requires Placed(packets, p0) && k < counter <= CRITICAL + 1 && toData < SLOTS
      requires Opened(p0, packets, counter, counter) && NotAbove(packets, p0, toData, k)
      modifies ptr
      ensures 0 < at <= counter && ptr[..] == Inserted(p0, at, counter, toData) && store[..] == packets
      ensures NotAbove(packets, p0, toData, at - 1)
      ensures at < counter ==> !NotAbove(packets, p0, toData, counter - 1)
    {
      hide Gap, Inserted, NotAbove, Placed, Receiver.Opened;
      var local, n, x := counter, counter, toData;
      while true
        invariant k < local <= n && Opened(p0, packets, local, n)
        invariant local < n ==> !NotAbove(packets, p0, x, n - 1)
        decreases local
      {
        var put := MoveUpOrPut(local, n, x, p0, packets);
        if put {
          break;
        }
        local := local - 1;
      }
      at := local;
    }

    /** For a packet numbered below the newest, ArrayMoveSort leaves the pointers as they are. */
    method PutLate()
      requires Mid() && 0 < counter <= CRITICAL && store[toData].number < store[ptr[counter - 1]].number
      modifies ptr
      ensures Mid() && ptr[..] == old(ptr[..]) && store[..] == old(store[..])
    {
      ghost var p0, packets, n, x := ptr[..], store[..], counter, toData;
      NoGapYet(p0, n, x);
      assert NotAbove(packets, p0, x, n - 1);
      assert Opened(p0, packets, n, n);
      hide Gap, Inserted, Receiver.Opened;
      ghost var at := ArrayMoveSort(p0, packets, n - 1);
      assert at == n;
    }

    /** The branch of AddOrAbandonFun for a late packet. */
    method Append()
      requires Mid() && 0 < counter <= CRITICAL && store[toData].number < store[ptr[counter - 1]].number
      modifies this`counter, this`toData, ptr
      ensures Mid() && ptr[..] == old(ptr[..])
      ensures Queue() == old(Queue()) + [store[old(toData)]]
    {
      PutLate();
      counter := counter + 1;
      toData := ptr[counter];
    }

    /** AddOrAbandonFun, on a queue that is not empty. */
    method AddOrAbandon()
      requires Mid() && 0 < counter <= CRITICAL
      modifies this`counter, this`toData, this`push, ptr
      ensures Mid() && ptr[..] == old(ptr[..])
      ensures Queue() == Enqueue(old(Queue()), store[old(toData)])
      ensures push == (old(push) || Startles(old(Queue()), store[old(toData)].number))
    {
      hide Placed, Queued, Receiver.Mid, Receiver.Queue;
      EndsOfQueue();
      var number, newest := store[toData].number, store[ptr[counter - 1]].number;
      if number == newest + 1 {
        var _ := AddPackage();
      } else if number < newest + CRITICAL * 3 && number > newest {
        var _ := AddPackage();
      } else if number < newest && (number > store[ptr[0]].number || number < CRITICAL * 4) {
        Append();
      } else if counter < CRITICAL {
        var _ := AddPackage();
        push := true;
      }
    }

    /** The oldest and the newest packet, as the code finds them. */
    lemma EndsOfQueue()
      requires Mid() && 0 < counter
      ensures store.Length == SLOTS && ptr.Length == 8 && counter <= CRITICAL + 1 && toData < SLOTS
      ensures 0 <= ptr[0] < SLOTS && store[ptr[0]] == Queue()[0]
      ensures 0 <= ptr[counter - 1] < SLOTS && store[ptr[counter - 1]] == Queue()[counter - 1]
      ensures |Queue()| == counter
    {
    }

    /** SortAlgorithm. */
    method Sort()
      requires Mid() && counter <= CRITICAL
      modifies this`counter, this`toData, this`push, ptr
      ensures Mid() && ptr[..] == old(ptr[..])
      ensures Queue() == Enqueue(old(Queue()), store[old(toData)])
      ensures push == (old(push) || old(counter) >= CRITICAL || Startles(old(Queue()), store[old(toData)].number))
    {
      if counter != 0 && counter < CRITICAL {
        AddOrAbandon();
      } else if counter != 0 {
        push := true;
        AddOrAbandon();
      } else {
        var _ := AddPackage();
      }
    }

    /** The packet goes into the incoming slot; the first one after a forced clear resets the counter. */
    method Take(p: Packet)
      requires Valid()
      modifies this`counter, this`push, this`forced, store
      ensures Mid() && counter <= CRITICAL && !forced && store[toData] == p
      ensures Cache(Queue(), push) == old(Value())
    {
      ghost var before := Value();
      if toData == ptr[0] && forced {
        counter, push, forced := 0, false, false;
      }
      store[toData] := p;
      assert Queue() == before.queue;
    }

    /** DataRecvAndHandle, given the packet that recvfrom delivers. */
    method Receive(p: Packet)
      requires Valid()
      modifies this, store, ptr
      ensures Valid() && Value() == Step(old(Value()), Arrive(p))
      ensures sink == old(sink) + Emits(old(Value()), Arrive(p))
    {
      hide Placed, Queued, Receiver.Queue, Receiver.Valid, Receiver.Value, Enqueue, Startles, Emits, Received;
      ghost var before := Value();
      Take(p);
      Sort();
      PassOn(p.end, before, p);
    }

    /** Hands on the whole queue, at the end flag. */
    method PassAll()
      requires Mid() && !forced
      modifies this`counter, this`push, this`sink, ptr
      ensures Mid() && counter == 0 && sink == old(sink) + old(Queue())
      ensures old(counter) > 0 ==> !push
      ensures old(counter) == 0 ==> push == old(push)
    {
      hide Receiver.Queue;
      ghost var q := Queue();
      while counter > 0
        invariant Mid() && counter <= |q| && Queue() == q[|q| - counter..]
        invariant sink == old(sink) + q[..|q| - counter]
        invariant counter == |q| ==> push == old(push)
        invariant counter == 0 && |q| > 0 ==> !push
        decreases counter
      {
        ghost var k := |q| - counter;
        assert q[k..][1..] == q[k + 1..] && q[..k] + [q[k]] == q[..k + 1];
        WriteToBuffer();
      }
    }

    /** The end of DataRecvAndHandle. */
    method PassOn(end: bool, ghost before: Cache, ghost p: Packet)
      requires Mid() && !forced && Bounded(before) && end == p.end
      requires Queue() == Enqueue(before.queue, p)
      requires push == (before.push || |before.queue| >= CRITICAL || Startles(before.queue, p.number))
      modifies this`counter, this`push, this`sink, ptr
      ensures Valid() && Value() == Received(before, p)
      ensures sink == old(sink) + Emits(before, Arrive(p))
    {
      ghost var q := Queue();
      if end {
        PassAll();
      } else if push {
        if counter <= CRITICAL {
          push := false;
        }
        WriteToBuffer();
      }
    }

    /** ForcePushDataCacheToBuffer: hands on every place before the incoming slot. */
    method ForcePush()
      requires Valid()
      modifies this
      ensures Valid() && Value() == Step(old(Value()), Event.ForcePush)
      ensures sink == old(sink) + Emits(old(Value()), Event.ForcePush)
    {
      ghost var all := Queued(store[..], ptr[..], SLOTS);
      ghost var place := if forced then 0 else counter;
      var i := 0;
      while i < SLOTS
        invariant 0 <= i <= place && toData == ptr[place]
        invariant sink == old(sink) + all[..i]
        invariant forced == old(forced) && counter == old(counter) && push == old(push)
        decreases SLOTS - i
      {
        if toData != ptr[i] {
          sink := sink + [store[ptr[i]]];
        } else {
          toData := ptr[0];
          forced := true;
          break;
        }
        i := i + 1;
      }
    }
  }

  /** The pointers once places `at` to `n - 1` have been copied one place up. */
  function Gap(ptr: seq<int>, at: nat, n: nat): seq<int>
    requires at <= n < |ptr|
  {
    ptr[..at + 1] + ptr[at..n] + ptr[n + 1..]
  }

  /** The pointers once place `n` has been moved down to place `at`. */
  function Inserted(ptr: seq<int>, at: nat, n: nat, x: int): seq<int>
    requires at <= n < |ptr|
  {
    ptr[..at] + [x] + ptr[at..n] + ptr[n + 1..]
  }

  lemma NoGapYet(ptr: seq<int>, n: nat, x: int)
    requires n < |ptr|
    ensures Gap(ptr, n, n) == ptr
    ensures ptr[n] == x ==> Inserted(ptr, n, n, x) == ptr
  {
  }

  lemma GapFacts(ptr: seq<int>, at: nat, n: nat, x: int)
    requires 0 < at <= n < |ptr|
    ensures |Gap(ptr, at, n)| == |ptr| && Gap(ptr, at, n)[at - 1] == ptr[at - 1]
    ensures Gap(ptr, at, n)[at := ptr[at - 1]] == Gap(ptr, at - 1, n)
    ensures Gap(ptr, at, n)[at := x] == Inserted(ptr, at, n, x)
  {
  }

  function Turned(ptr: seq<int>): seq<int>
    requires |ptr| == 8
  {
    ptr[1..SLOTS] + [ptr[0]] + ptr[SLOTS..]
  }

  /** Turning the pointers keeps them a permutation and drops the oldest packet from the queue. */
  lemma TurnDropsOldest(store: seq<Packet>, ptr: seq<int>, n: nat)
    requires Placed(store, ptr) && n < SLOTS
    ensures Placed(store, Turned(ptr)) && Turned(ptr)[n] == ptr[if n == SLOTS - 1 then 0 else n + 1]
    ensures Queued(store, Turned(ptr), n) == Queued(store, ptr, n + 1)[1..]
  {
    var t := Turned(ptr);
    assert forall i | 0 <= i < SLOTS - 1 :: t[i] == ptr[i + 1];
    assert t[SLOTS - 1] == ptr[0];
  }
}
