/** Audio over the network: the packetiser (network/udp_send_fun.cxx, UdpSendBuffer and
    InitSendPackage) and the live receive path (network/udp_recv_fun.cxx, DataRecvAndHandle2,
    SortAlgorithm2, PushToDataBuffer2 and PushToBuffer2). */
module AudioTransport {
  import opened Bytes
  import opened ByteRing
  import opened CharBuffers
  import opened ReceiveCache

  const SIZE_LEN := 1024

  const INT_MIN := -0x8000_0000
  const INT_MAX := 0x7FFF_FFFF

  // ---------- Sending ----------

  /** The counter after `n`: an int that wraps. */
  function Succ(n: int): int {
    if n == INT_MAX then INT_MIN else n + 1
  }

  /** The number of the packet sent after `k` others. */
  function Number(k: nat): int {
    if k == 0 then 0 else Succ(Number(k - 1))
  }

  /** Numbers are consecutive over the first 2^31 packets, and repeat only after 2^32. */
  lemma {:induction false} NumbersWrap(k: nat)
    ensures Number(k) == (k + 0x8000_0000) % 0x1_0000_0000 - 0x8000_0000
  {
    if k > 0 {
      NumbersWrap(k - 1);
    }
  }

  /** A buffer cut into packets numbered from `n` on. */
  function Packets(buffer: seq<byte>, n: int): (ps: seq<Packet>)
    decreases |buffer|
  {
    if buffer == [] then []
    else [Packet(false, n, Prefix(buffer, SIZE_LEN))] + Packets(Suffix(buffer, SIZE_LEN), Succ(n))
  }

  /** The bytes a list of packets carries. */
  function Payloads(ps: seq<Packet>): seq<byte>
    decreases |ps|
  {
    if ps == [] then [] else Payloads(ps[..|ps| - 1]) + ps[|ps| - 1].payload
  }

  lemma {:induction false} PayloadsJoin(x: seq<Packet>, y: seq<Packet>)
    ensures Payloads(x + y) == Payloads(x) + Payloads(y)
    decreases |y|
  {
    if y == [] {
      assert x + y == x;
    } else {
      var init, last := y[..|y| - 1], y[|y| - 1];
      var all := x + y;
      assert all[..|all| - 1] == x + init && all[|all| - 1] == last;
      PayloadsJoin(x, init);
      assert Payloads(all) == Payloads(x) + Payloads(init) + last.payload;
    }
  }

  /** Cutting loses nothing, makes no packet empty or longer than 1024 bytes, fills every packet but
      the last, and numbers the packets consecutively. */
  lemma {:induction false} PacketsAreFaithful(buffer: seq<byte>, k: nat)
    ensures var ps := Packets(buffer, Number(k));
            && Payloads(ps) == buffer
            && (forall i | 0 <= i < |ps| :: 1 <= |ps[i].payload| <= SIZE_LEN && ps[i].number == Number(k + i))
            && (forall i | 0 <= i < |ps| :: !ps[i].end)
            && (forall i | 0 <= i < |ps| - 1 :: |ps[i].payload| == SIZE_LEN)
    decreases |buffer|
  {
    hide Packets, Payloads, Number, Prefix, Suffix;
    if buffer == [] {
      NoPackets(k);
    } else {
      var head, rest := Prefix(buffer, SIZE_LEN), Suffix(buffer, SIZE_LEN);
      var first, ps := [Packet(false, Number(k), head)], Packets(rest, Number(k + 1));
      FirstPacket(buffer, k);
      PacketsAreFaithful(rest, k + 1);
      PayloadsJoin(first, ps);
      if rest == [] {
        NoPackets(k + 1);
      }
      forall i | 0 <= i < 1 + |ps|
        ensures 1 <= |(first + ps)[i].payload| <= SIZE_LEN && (first + ps)[i].number == Number(k + i)
        ensures !(first + ps)[i].end
      {
        if i > 0 {
          assert (first + ps)[i] == ps[i - 1];
        }
      }
    }
  }

  lemma NoPackets(k: nat)
    ensures Packets([], Number(k)) == [] && Payloads([]) == []
  {
  }

  lemma FirstPacket(buffer: seq<byte>, k: nat)
    requires buffer != []
    ensures var head, rest := Prefix(buffer, SIZE_LEN), Suffix(buffer, SIZE_LEN);
            var first := [Packet(false, Number(k), head)];
            && Packets(buffer, Number(k)) == first + Packets(rest, Number(k + 1))
            && head + rest == buffer && |rest| < |buffer| && Payloads(first) == head
            && 1 <= |head| <= SIZE_LEN && (rest != [] ==> |head| == SIZE_LEN)
  {
    var head := Prefix(buffer, SIZE_LEN);
    assert Payloads([Packet(false, Number(k), head)]) == Payloads([]) + head == head;
  }

  /** The packets of a list of buffers, numbered on from one buffer to the next. */
  function AllPackets(buffers: Trace<seq<byte>>): seq<Packet> {
    match buffers
    case Begin => []
    case After(past, b) => AllPackets(past) + Packets(b, Number(|AllPackets(past)|))
  }

  function AllBytes(buffers: Trace<seq<byte>>): seq<byte> {
    match buffers
    case Begin => []
    case After(past, b) => AllBytes(past) + b
  }

  /** Over any number of calls the packets carry just the bytes given, and the numbering runs on. */
  lemma {:induction false} AllPacketsAreFaithful(buffers: Trace<seq<byte>>)
    ensures Payloads(AllPackets(buffers)) == AllBytes(buffers)
    ensures forall i | 0 <= i < |AllPackets(buffers)| ::
              AllPackets(buffers)[i].number == Number(i) && |AllPackets(buffers)[i].payload| <= SIZE_LEN
  {
    hide Packets, Payloads, Number, Prefix;
    match buffers
    case Begin =>
      NoPayloads();
    case After(past, b) =>
      var all, n := AllPackets(past), |AllPackets(past)|;
      var more := Packets(b, Number(n));
      AllPacketsAreFaithful(past);
      PacketsAreFaithful(b, n);
      PayloadsJoin(all, more);
      forall i | 0 <= i < n + |more|
        ensures (all + more)[i].number == Number(i) && |(all + more)[i].payload| <= SIZE_LEN
      {
        assert (all + more)[i] == if i < n then all[i] else more[i - n];
      }
  }

  lemma NoPayloads()
    ensures Payloads([]) == []
  {
  }

  class Sender {
    var counter: int          // the static counter of InitSendPackage
    ghost var used: nat       // how many numbers it has given out
    var wire: seq<Packet>     // what sendto has been given, and taken

    ghost predicate Valid()
      reads this
    {
      counter == Number(used)
    }

    constructor ()
      ensures Valid() && used == 0 && wire == []
    {
      counter, used, wire := 0, 0, [];
    }

    /** UdpSendBuffer. `accepts` is how many packets sendto takes before it fails. */
    method SendBuffer(buffer: seq<byte>, accepts: nat) returns (ok: bool)
      requires Valid()
      modifies this
      ensures var ps := Packets(buffer, Number(old(used)));
              && Valid() && ok == (|ps| <= accepts)
              && wire == old(wire) + Prefix(ps, accepts)
              && used == old(used) + if ok then |ps| else accepts + 1
    {
      ghost var ps := Packets(buffer, counter);
      ghost var sent: nat := 0;
      var rest := buffer;
      var room := accepts;
      while rest != []
        invariant sent <= |ps| && ps[sent..] == Packets(rest, counter)
        invariant Valid() && used == old(used) + sent && room == accepts - sent
        invariant wire == old(wire) + ps[..sent]
        decreases |rest|
      {
        var packet;
        if |rest| >= SIZE_LEN {
          packet := Packet(false, counter, rest[..SIZE_LEN]);
          rest := rest[SIZE_LEN..];
        } else {
          packet := Packet(false, counter, rest);
          rest := [];
        }
        assert ps[sent..] == [packet] + Packets(rest, Succ(counter));
        counter, used := Succ(counter), used + 1;
        if room == 0 {
          return false;
        }
        room := room - 1;
        wire := wire + [packet];
        sent := sent + 1;
      }
      ok := true;
    }
  }

  // ---------- Receiving ----------

  /** The application's receive ring as a stream: what the player has read and what waits. */
  datatype Stream = Stream(read: seq<byte>, waiting: seq<byte>)

  datatype Event = Deliver(p: Packet) | Consume(n: nat)

  function Step(s: Stream, capacity: nat, e: Event): Stream
    requires |s.waiting| <= capacity
  {
    match e
    case Deliver(p) => s.(waiting := s.waiting + Prefix(p.payload, capacity - |s.waiting|))
    case Consume(n) => Stream(s.read + Prefix(s.waiting, n), Suffix(s.waiting, n))
  }

  function Run(capacity: nat, events: Trace<Event>): (s: Stream)
    ensures |s.waiting| <= capacity
  {
    match events
    case Begin => Stream([], [])
    case After(past, e) => Step(Run(capacity, past), capacity, e)
  }

  /** The packets of a history, in arrival order. */
  function Arrivals(events: Trace<Event>): seq<Packet> {
    match events
    case Begin => []
    case After(past, Deliver(p)) => Arrivals(past) + [p]
    case After(past, Consume(_)) => Arrivals(past)
  }

  /** Every packet found room for its whole payload. */
  predicate RoomThroughout(capacity: nat, events: Trace<Event>) {
    match events
    case Begin => true
    case After(past, Deliver(p)) =>
      RoomThroughout(capacity, past) && |p.payload| <= capacity - |Run(capacity, past).waiting|
    case After(past, Consume(_)) => RoomThroughout(capacity, past)
  }

  function Heard(capacity: nat, events: Trace<Event>): seq<byte> {
    Run(capacity, events).read + Run(capacity, events).waiting
  }

  lemma OneMore(ps: seq<Packet>, p: Packet)
    ensures Payloads(ps + [p]) == Payloads(ps) + p.payload
  {
    PayloadsJoin(ps, [p]);
    assert Payloads([p]) == Payloads([]) + p.payload == p.payload;
  }

  lemma HeardAfterDeliver(capacity: nat, past: Trace<Event>, p: Packet)
    ensures Heard(capacity, After(past, Deliver(p)))
            == Heard(capacity, past) + Prefix(p.payload, capacity - |Run(capacity, past).waiting|)
  {
    var s := Run(capacity, past);
    assert Run(capacity, After(past, Deliver(p))) == Step(s, capacity, Deliver(p));
    hide Run, Prefix;
    Associate(s.read, s.waiting, Prefix(p.payload, capacity - |s.waiting|));
  }

  lemma HeardAfterConsume(capacity: nat, past: Trace<Event>, n: nat)
    ensures Heard(capacity, After(past, Consume(n))) == Heard(capacity, past)
  {
    var s := Run(capacity, past);
    assert Run(capacity, After(past, Consume(n))) == Step(s, capacity, Consume(n));
    hide Run, Prefix, Suffix;
    PrefixSuffix(s.waiting, n);
    Associate(s.read, Prefix(s.waiting, n), Suffix(s.waiting, n));
  }

  /** What the player gets: the oldest bytes that wait, as many as it asks for and there are. A packet
      leaves what was read alone, and adds to what waits the first bytes of its payload that fit. */
  lemma PlayerReadsTheOldest(capacity: nat, past: Trace<Event>, e: Event)
    ensures var s, s' := Run(capacity, past), Run(capacity, After(past, e));
            match e
            case Consume(n) =>
              && s'.read[..|s.read|] == s.read && |s'.read| == |s.read| + Min(n, |s.waiting|)
              && s'.read + s'.waiting == s.read + s.waiting
            case Deliver(p) =>
              && s'.read == s.read && s.waiting <= s'.waiting && s'.waiting[|s.waiting|..] <= p.payload
              && |s'.waiting| == Min(|s.waiting| + |p.payload|, capacity)
  {
    if e.Consume? {
      HeardAfterConsume(capacity, past, e.n);
    }
  }

  /** The live path passes on what arrives, in arrival order, however the player reads; nothing is
      missing exactly when every packet found room. */
  lemma {:induction false} HeardIsWhatArrived(capacity: nat, events: Trace<Event>)
    ensures RoomThroughout(capacity, events) ==> Heard(capacity, events) == Payloads(Arrivals(events))
    ensures !RoomThroughout(capacity, events) ==> |Heard(capacity, events)| < |Payloads(Arrivals(events))|
  {
    match events
    case Begin =>
    case After(past, e) =>
      hide Heard, Payloads;
      HeardIsWhatArrived(capacity, past);
      match e {
        case Deliver(p) => HeardAfterDeliver(capacity, past, p); OneMore(Arrivals(past), p);
        case Consume(n) => HeardAfterConsume(capacity, past, n);
      }
  }

  /** End to end: packets delivered in order and without loss, with room in the ring, give back the
      very bytes that were handed to the sender. */
  lemma StreamSurvives(buffers: Trace<seq<byte>>, capacity: nat, events: Trace<Event>)
    requires Arrivals(events) == AllPackets(buffers) && RoomThroughout(capacity, events)
    ensures Heard(capacity, events) == AllBytes(buffers)
  {
    AllPacketsAreFaithful(buffers);
    HeardIsWhatArrived(capacity, events);
  }

  /** What waits after a packet. */
  function Delivered(waiting: seq<byte>, capacity: nat, p: Packet): seq<byte>
    requires |waiting| <= capacity
  {
    Step(Stream([], waiting), capacity, Deliver(p)).waiting
  }

  lemma DeliveredIs(waiting: seq<byte>, capacity: nat, p: Packet)
    requires |waiting| <= capacity
    ensures Delivered(waiting, capacity, p) == waiting + Prefix(p.payload, capacity - |waiting|)
  {
  }

  lemma PrefixIs(s: seq<byte>, n: nat)
    ensures Prefix(s, n) == s[..Min(|s|, n)]
  {
  }

  class LiveReceiver {
    const ring: CharBuffer
    var networkBufferNum: nat    // packets in the sorting cache
    var pushValue: int           // number of the last packet passed on
    var desiredValue: int        // number expected next

    /** The sorting cache of this variant is empty in every run from the start. */
    ghost predicate Valid()
      reads this, ring
    {
      ring.Valid() && networkBufferNum == 0
    }

    constructor (size: nat)
      requires size > 0
      ensures Valid() && ring.Queue() == [] && ring.Capacity() == size - 1
    {
      ring := new CharBuffer(size);
      networkBufferNum, pushValue, desiredValue := 0, 0, 0;
    }

    /** SortAlgorithm2: with an empty cache every packet goes straight to the application ring. */
    method Receive(p: Packet) returns (len: int)
      requires Valid()
      modifies this, ring, ring.data
      ensures Valid()
      ensures ring.Queue() == old(ring.Queue()) + Prefix(p.payload, old(ring.Value().Free()))
      ensures |old(ring.Queue())| <= ring.Capacity() == old(ring.Capacity())
      ensures ring.Queue() == Delivered(old(ring.Queue()), ring.Capacity(), p)
      ensures pushValue == p.number % 0x1_0000_0000
      ensures len < 0 <==> p.payload != [] && old(ring.Value().Free()) == 0
    {
      hide Ring.Queue, PutAll, Prefix, Delivered;
      FullIff(ring.Value());
      DeliveredIs(ring.Queue(), ring.Capacity(), p);
      PrefixIs(p.payload, ring.Value().Free());
      if networkBufferNum == 0 {
        pushValue := p.number % 0x1_0000_0000;
        if desiredValue <= pushValue {
          desiredValue := (pushValue + 1) % 0x1_0000_0000;
        }
        len := ring.Write(p.payload);
        if len < 0 {
          len := -1;
        }
      } else {
        assert false;
      }
    }
  }
}
