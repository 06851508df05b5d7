/** The two-buffer player PlayAudioTwice and its variant PlayAudioTwice_analog (audio_sample.cxx):
    drain the pending ring, then the main ring, offer the bytes to a device that may take only
    part of them, and put the rest back into the pending ring. */
module Player {
  import opened Bytes
  import opened ByteRing
  import opened CharBuffers

  /** Size of tmp_buff. */
  const CHUNK := 3 * 1024

  /** border_of_audia_data_size in PlayAudioTwice and in PlayAudioTwice_analog. */
  const BORDER := 2234
  const BORDER_ANALOG := 64

  /** The pending ring as InitBuffer creates it. */
  const PENDING_SIZE := 3 * 1024 + 64

  const NOT_ENOUGH := -5
  const CLEARED := -1
  const FAILED := -6

  /** What the device has taken and what the two rings still hold. */
  datatype Stream = Stream(played: seq<byte>, pending: seq<byte>, main: seq<byte>) {
    function All(): seq<byte> {
      played + pending + main
    }
  }

  /** The number of offered bytes the device leaves over when it reports `unplayed`. */
  function LeftOver(offered: nat, unplayed: nat): (n: nat)
    ensures n <= offered
  {
    if unplayed > offered then 0 else unplayed
  }

  /** A call without interference. What the device leaves over goes behind whatever of the pending
      ring did not fit the chunk. */
  function Play(s: Stream, border: nat, unplayed: nat): Stream {
    if |s.pending| + |s.main| <= border then s
    else
      var first := Min(CHUNK, |s.pending|);
      var second := Min(CHUNK - first, |s.main|);
      var chunk := s.pending[..first] + s.main[..second];
      var cut := |chunk| - LeftOver(|chunk|, unplayed);
      Stream(s.played + chunk[..cut], s.pending[first..] + chunk[cut..], s.main[second..])
  }

  lemma PlayKeepsOrder(s: Stream, border: nat, unplayed: nat)
    requires |s.pending| <= CHUNK
    ensures var s' := Play(s, border, unplayed);
            s'.All() == s.All() && |s'.pending| <= CHUNK && s.played <= s'.played
  {
    hide Play, LeftOver;
    if |s.pending| + |s.main| > border {
      var second := Min(CHUNK - |s.pending|, |s.main|);
      var chunk := s.pending + s.main[..second];
      PlayWithin(s, border, unplayed, chunk, second);
      Regroup(s.played, chunk, |chunk| - LeftOver(|chunk|, unplayed), s.main[second..]);
      Associate(s.played, s.pending, s.main[..second]);
      Associate(s.played + s.pending, s.main[..second], s.main[second..]);
      assert s.main == s.main[..second] + s.main[second..];
    } else {
      NothingPlayed(s, border, unplayed);
    }
  }

  /** What counts as played is what the device took of the bytes offered; the rest of them is next in
      line. */
  lemma PlayedIsWhatTheDeviceTook(s: Stream, border: nat, unplayed: nat)
    requires |s.pending| <= CHUNK && |s.pending| + |s.main| > border
    ensures var line, s' := s.pending + s.main, Play(s, border, unplayed);
            var offered := Min(CHUNK, |line|);
            var taken := if unplayed <= offered then offered - unplayed else offered;
            s' == Stream(s.played + line[..taken], line[taken..offered], line[offered..])
  {
    hide Play, LeftOver;
    var line := s.pending + s.main;
    var second := Min(CHUNK - |s.pending|, |s.main|);
    var offered := |s.pending| + second;
    InLine(s.pending, s.main, second);
    PlayWithin(s, border, unplayed, line[..offered], second);
    LeftOverIs(offered, unplayed);
    Slices(line, offered, offered - LeftOver(offered, unplayed));
  }

  lemma LeftOverIs(offered: nat, unplayed: nat)
    ensures LeftOver(offered, unplayed) == if unplayed <= offered then unplayed else 0
  {
  }

  lemma InLine(p: seq<byte>, m: seq<byte>, second: nat)
    requires second <= |m|
    ensures (p + m)[..|p| + second] == p + m[..second]
    ensures (p + m)[|p| + second..] == m[second..]
  {
  }

  lemma Slices(line: seq<byte>, n: nat, cut: nat)
    requires cut <= n <= |line|
    ensures line[..n][..cut] == line[..cut] && line[..n][cut..] == line[cut..n]
  {
  }

  lemma NothingPlayed(s: Stream, border: nat, unplayed: nat)
    requires |s.pending| + |s.main| <= border
    ensures Play(s, border, unplayed) == s
  {
  }

  /** With pending inside one chunk, the whole of it goes into the chunk. */
  lemma PlayWithin(s: Stream, border: nat, unplayed: nat, chunk: seq<byte>, second: nat)
    requires |s.pending| <= CHUNK && |s.pending| + |s.main| > border
    requires second == Min(CHUNK - |s.pending|, |s.main|) && chunk == s.pending + s.main[..second]
    ensures var cut := |chunk| - LeftOver(|chunk|, unplayed);
            Play(s, border, unplayed) == Stream(s.played + chunk[..cut], chunk[cut..], s.main[second..])
  {
    assert s.pending[..|s.pending|] == s.pending && s.pending[|s.pending|..] == [];
  }

  lemma Regroup(a: seq<byte>, chunk: seq<byte>, cut: nat, z: seq<byte>)
    requires cut <= |chunk|
    ensures a + chunk[..cut] + chunk[cut..] + z == a + chunk + z
  {
    assert chunk == chunk[..cut] + chunk[cut..];
  }

  /** The bound is exact: with any longer pending ring some call would reorder the stream. */
  lemma LongerPendingReorders(n: nat, border: nat)
    requires n > CHUNK && border <= CHUNK
    ensures exists s: Stream, unplayed :: |s.pending| == n && Play(s, border, unplayed).All() != s.All()
  {
    var head: seq<byte> := seq(CHUNK, _ => 0);
    var tail: seq<byte> := seq(n - CHUNK, _ => 1);
    var s := Stream([], head + tail, []);
    assert s.pending[..CHUNK] == head && s.pending[CHUNK..] == tail;
    var s' := Play(s, border, CHUNK);
    assert s'.All() == tail + head;
    assert s'.All()[0] == 1 && s.All()[0] == 0;
  }

  // ---------- A call with interference ----------

  /** What other threads do between two statements of a call: perhaps a clear of the main ring, perhaps
      one of the pending ring, and then what arrives in the main ring and finds room. */
  datatype Gap = Gap(main: bool, pending: bool, arrived: seq<byte>)

  const QUIET := Gap(false, false, [])

  /** The gaps of a call: 0 and 1 before the size of pending and that of main is taken, 2 before the
      first test of the clear counter, 3 before the read of pending, 4 before the read of main, 5 before
      the second test, 6 before the third, while the device writes, 7 before the put-back. */
  type Gaps = g: seq<Gap> | |g| == 8 witness [QUIET, QUIET, QUIET, QUIET, QUIET, QUIET, QUIET, QUIET]

  function Meet(s: Stream, g: Gap): Stream {
    s.(pending := if g.pending then [] else s.pending, main := (if g.main then [] else s.main) + g.arrived)
  }

  /** What a call returns, what the device and the rings then hold, and how many gaps it went through. */
  datatype Outcome = Outcome(ret: int, s: Stream, gaps: nat)

  /** A call behind its reads, with `chunk` in tmp_buff; `cleared` says whether the counter has moved. */
  function Finish(s: Stream, chunk: seq<byte>, unplayed: nat, cleared: bool, g5: Gap, g6: Gap, g7: Gap): Outcome {
    var s5 := Meet(s, g5);
    if cleared || g5.main then Outcome(CLEARED, s5, 6)
    else
      var cut := |chunk| - LeftOver(|chunk|, unplayed);
      var s6 := Meet(s5.(played := s5.played + chunk[..cut]), g6);
      if g6.main then Outcome(CLEARED, s6, 7)
      else
        var s7 := Meet(s6, g7);
        Outcome(0, s7.(pending := s7.pending + chunk[cut..]), 8)
  }

  /** What the read of pending leaves. */
  function PendingRead(s: Stream): Stream {
    s.(pending := s.pending[Min(CHUNK, |s.pending|)..])
  }

  /** What the two reads bring into tmp_buff, and what they leave. */
  function Chunk(s: Stream, g3: Gap, g4: Gap): seq<byte> {
    var s3 := Meet(s, g3);
    var first := Min(CHUNK, |s3.pending|);
    var s4 := Meet(PendingRead(s3), g4);
    s3.pending[..first] + s4.main[..Min(CHUNK - first, |s4.main|)]
  }

  function Rest(s: Stream, g3: Gap, g4: Gap): Stream {
    var s3 := Meet(s, g3);
    var s4 := Meet(PendingRead(s3), g4);
    s4.(main := s4.main[Min(CHUNK - Min(CHUNK, |s3.pending|), |s4.main|)..])
  }

  /** A call from its reads on. */
  function Serve(s: Stream, border: nat, unplayed: nat, g3: Gap, g4: Gap, g5: Gap, g6: Gap, g7: Gap): Outcome {
    var chunk := Chunk(s, g3, g4);
    if |chunk| < border then Outcome(FAILED, Rest(s, g3, g4), 5)
    else Finish(Rest(s, g3, g4), chunk, unplayed, g3.main || g4.main, g5, g6, g7)
  }

  function FullCall(s: Stream, border: nat, unplayed: nat, g: Gaps): Outcome {
    var s0 := Meet(s, g[0]);
    var s1 := Meet(s0, g[1]);
    if |s0.pending| + |s1.main| <= border then Outcome(NOT_ENOUGH, s1, 2)
    else
      var s2 := Meet(s1, g[2]);
      if g[0].main || g[1].main || g[2].main then Outcome(CLEARED, s2, 3)
      else Serve(s2, border, unplayed, g[3], g[4], g[5], g[6], g[7])
  }

  lemma QuietFinish(s: Stream, chunk: seq<byte>, unplayed: nat)
    requires s.pending == []
    ensures var cut := |chunk| - LeftOver(|chunk|, unplayed);
            Finish(s, chunk, unplayed, false, QUIET, QUIET, QUIET) ==
            Outcome(0, Stream(s.played + chunk[..cut], chunk[cut..], s.main), 8)
  {
    hide Meet, LeftOver;
    var cut := |chunk| - LeftOver(|chunk|, unplayed);
    NothingMet(s);
    NothingMet(s.(played := s.played + chunk[..cut]));
    assert s.pending + chunk[cut..] == chunk[cut..];
  }

  lemma QuietReads(s: Stream)
    requires |s.pending| <= CHUNK
    ensures var second := Min(CHUNK - |s.pending|, |s.main|);
            && Chunk(s, QUIET, QUIET) == s.pending + s.main[..second]
            && Rest(s, QUIET, QUIET) == Stream(s.played, [], s.main[second..])
  {
    hide Meet;
    NothingMet(s);
    NothingMet(PendingRead(s));
    assert s.pending[..|s.pending|] == s.pending && s.pending[|s.pending|..] == [];
  }

  /** Without interference this is the plain call. */
  lemma QuietCallIsPlay(s: Stream, border: nat, unplayed: nat, g: Gaps)
    requires |s.pending| <= CHUNK && border <= CHUNK && forall i | 0 <= i < 8 :: g[i] == QUIET
    ensures FullCall(s, border, unplayed, g) ==
            if |s.pending| + |s.main| <= border then Outcome(NOT_ENOUGH, s, 2)
            else Outcome(0, Play(s, border, unplayed), 8)
  {
    hide Meet, Play, Finish, Chunk, Rest, LeftOver;
    NothingMet(s);
    if |s.pending| + |s.main| > border {
      var second := Min(CHUNK - |s.pending|, |s.main|);
      var chunk := s.pending + s.main[..second];
      QuietReads(s);
      QuietFinish(Rest(s, QUIET, QUIET), chunk, unplayed);
      PlayWithin(s, border, unplayed, chunk, second);
    }
  }

  lemma NothingMet(s: Stream)
    ensures Meet(s, QUIET) == s
  {
  }

  // ---------- The exits with -6 ----------

  /** What the two reads of a call find. */
  function PendingAtRead(s: Stream, g: Gaps): seq<byte> {
    Meet(Meet(Meet(Meet(s, g[0]), g[1]), g[2]), g[3]).pending
  }

  function MainAtRead(s: Stream, g: Gaps): seq<byte> {
    Meet(PendingRead(Meet(Meet(Meet(Meet(s, g[0]), g[1]), g[2]), g[3])), g[4]).main
  }

  /** A call comes to its reads. */
  predicate Reads(s: Stream, border: nat, g: Gaps) {
    && |Meet(s, g[0]).pending| + |Meet(Meet(s, g[0]), g[1]).main| > border
    && !g[0].main && !g[1].main && !g[2].main
  }

  /** A call that comes to its reads returns -6 if and only if the two rings then hold less than the
      border. */
  lemma FailsIff(s: Stream, border: nat, unplayed: nat, g: Gaps)
    requires border <= CHUNK
    ensures FullCall(s, border, unplayed, g).ret == FAILED <==>
              Reads(s, border, g) && |PendingAtRead(s, g)| + |MainAtRead(s, g)| < border
  {
    hide Meet;
  }

  /** That takes a clear behind the test of the sizes: of pending since its size was taken, or of main
      since the first test of the counter. All that both rings held is then lost. */
  lemma FailingLosesEverything(s: Stream, border: nat, unplayed: nat, g: Gaps)
    requires |s.pending| <= CHUNK && border <= CHUNK
    requires FullCall(s, border, unplayed, g).ret == FAILED
    ensures g[1].pending || g[2].pending || g[3].pending || g[3].main || g[4].main
    ensures FullCall(s, border, unplayed, g).s == Stream(s.played, [], [])
  {
    FailsIff(s, border, unplayed, g);
    var s0 := Meet(s, g[0]);
    var s1 := Meet(s0, g[1]);
    var s2 := Meet(s1, g[2]);
    var s3 := Meet(s2, g[3]);
    var s4 := Meet(PendingRead(s3), g[4]);
    MeetFacts(s, g[0]);
    MeetFacts(s0, g[1]);
    MeetFacts(s1, g[2]);
    MeetFacts(s2, g[3]);
    MeetFacts(PendingRead(s3), g[4]);
    hide Meet;
    assert s4.main[|s4.main|..] == [] && s3.pending[|s3.pending|..] == [];
  }

  lemma MeetFacts(s: Stream, g: Gap)
    ensures var s' := Meet(s, g);
            && s'.played == s.played
            && s'.pending == (if g.pending then [] else s.pending)
            && (!g.main ==> |s'.main| >= |s.main|)
  {
  }

  /** It happens: with 1000 bytes pending and 1500 in the main ring, a clear of the main ring behind the
      first test of the counter loses the 1000, of which the device gets none. */
  lemma ClearBehindTheTestFails(p: seq<byte>, m: seq<byte>, unplayed: nat)
    requires |p| == 1000 && |m| == 1500
    ensures var g: Gaps := [QUIET, QUIET, QUIET, Gap(true, false, []), QUIET, QUIET, QUIET, QUIET];
            FullCall(Stream([], p, m), BORDER, unplayed, g) == Outcome(FAILED, Stream([], [], []), 5)
  {
    var s := Stream([], p, m);
    var g: Gaps := [QUIET, QUIET, QUIET, Gap(true, false, []), QUIET, QUIET, QUIET, QUIET];
    NothingMet(s);
    assert Meet(s, g[3]) == Stream([], p, []);
    NothingMet(PendingRead(Stream([], p, [])));
    hide Meet;
    FailsIff(s, BORDER, unplayed, g);
    FailingLosesEverything(s, BORDER, unplayed, g);
  }

  /** A clear of pending behind its read has no effect at all: nothing tests for it, and what the device
      leaves is put back all the same. */
  lemma PendingClearIsUnseen(s: Stream, border: nat, unplayed: nat, g: Gaps, g': Gaps)
    requires |s.pending| <= CHUNK
    requires forall i | 0 <= i < 4 :: g'[i] == g[i]
    requires forall i | 4 <= i < 8 :: g'[i] == g[i].(pending := g'[i].pending)
    ensures FullCall(s, border, unplayed, g') == FullCall(s, border, unplayed, g)
  {
    var s0 := Meet(s, g[0]);
    var s1 := Meet(s0, g[1]);
    var s2 := Meet(s1, g[2]);
    var s3 := Meet(s2, g[3]);
    MeetFacts(s, g[0]);
    MeetFacts(s0, g[1]);
    MeetFacts(s1, g[2]);
    MeetFacts(s2, g[3]);
    ReadingKeepsOrder(s3);
    ClearedTwice(PendingRead(s3), g[4], g'[4]);
    var rest, chunk := Rest(s2, g[3], g[4]), Chunk(s2, g[3], g[4]);
    MeetFacts(PendingRead(s3), g[4]);
    hide Meet, Finish;
    LateClearIsUnseen(rest, chunk, unplayed, g[3].main || g[4].main, g, g');
  }

  lemma ClearedTwice(s: Stream, g: Gap, g': Gap)
    requires s.pending == [] && g' == g.(pending := g'.pending)
    ensures Meet(s, g') == Meet(s, g)
  {
  }

  lemma LateClearIsUnseen(s: Stream, chunk: seq<byte>, unplayed: nat, cleared: bool, g: Gaps, g': Gaps)
    requires s.pending == []
    requires forall i | 5 <= i < 8 :: g'[i] == g[i].(pending := g'[i].pending)
    ensures Finish(s, chunk, unplayed, cleared, g'[5], g'[6], g'[7]) ==
            Finish(s, chunk, unplayed, cleared, g[5], g[6], g[7])
  {
    var s5 := Meet(s, g[5]);
    var heard := s5.(played := s5.played + chunk[..|chunk| - LeftOver(|chunk|, unplayed)]);
    var s6 := Meet(heard, g[6]);
    MeetFacts(s, g[5]);
    MeetFacts(heard, g[6]);
    ClearedTwice(s, g[5], g'[5]);
    ClearedTwice(heard, g[6], g'[6]);
    ClearedTwice(s6, g[7], g'[7]);
    hide Meet;
  }

  // ---------- What a call returns, and what it does ----------

  /** The bytes in line for the device when a call reads. */
  function Line(s: Stream, g: Gaps): seq<byte> {
    PendingAtRead(s, g) + MainAtRead(s, g)
  }

  lemma ReadsTakeTheLine(s: Stream, g: Gaps)
    requires |s.pending| <= CHUNK
    ensures var s2, line := Meet(Meet(Meet(s, g[0]), g[1]), g[2]), Line(s, g);
            && Chunk(s2, g[3], g[4]) == line[..Min(CHUNK, |line|)]
            && Rest(s2, g[3], g[4]) == Stream(s.played, [], line[Min(CHUNK, |line|)..])
  {
    var s0 := Meet(s, g[0]);
    var s1 := Meet(s0, g[1]);
    var s2 := Meet(s1, g[2]);
    var s3 := Meet(s2, g[3]);
    MeetFacts(s, g[0]);
    MeetFacts(s0, g[1]);
    MeetFacts(s1, g[2]);
    MeetFacts(s2, g[3]);
    MeetFacts(PendingRead(s3), g[4]);
    ReadingKeepsOrder(s3);
    hide Meet;
    var s4 := Meet(PendingRead(s3), g[4]);
    var second := Min(CHUNK - |s3.pending|, |s4.main|);
    assert Line(s, g) == s3.pending + s4.main;
    InLine(s3.pending, s4.main, second);
  }

  /** The four answers of a call and when each is given. */
  lemma CallReturnsIff(s: Stream, border: nat, unplayed: nat, g: Gaps)
    requires |s.pending| <= CHUNK && border <= CHUNK
    ensures var ret := FullCall(s, border, unplayed, g).ret;
            var sizes := |Meet(s, g[0]).pending| + |Meet(Meet(s, g[0]), g[1]).main|;
            var early, late := g[0].main || g[1].main || g[2].main, g[3].main || g[4].main || g[5].main || g[6].main;
            && (ret == -5 <==> sizes <= border)
            && (ret == -6 <==> sizes > border && !early && |Line(s, g)| < border)
            && (ret == -1 <==> sizes > border && (early || (|Line(s, g)| >= border && late)))
            && (ret == 0 <==> sizes > border && !early && |Line(s, g)| >= border && !late)
  {
    ReadsTakeTheLine(s, g);
    hide Meet, Chunk, Rest, LeftOver, Line;
  }

  /** A call that returns 0 lets the device have the first bytes in line, as many as it says it took of
      those offered; what it left is pending, and what was not offered is in the main ring ahead of what
      arrived since. A call that finds the ring cleared while the device wrote counts the same bytes as
      played and drops what was left; every other one plays nothing. */
  lemma DeviceGetsTheLine(s: Stream, border: nat, unplayed: nat, g: Gaps)
    requires |s.pending| <= CHUNK && border <= CHUNK
    ensures var out, line := FullCall(s, border, unplayed, g), Line(s, g);
            var offered := Min(CHUNK, |line|);
            var taken := if unplayed <= offered then offered - unplayed else offered;
            && (out.ret == 0 ==>
                  out.s == Stream(s.played + line[..taken], line[taken..offered],
                                  (if g[7].main then [] else line[offered..] + g[5].arrived + g[6].arrived)
                                  + g[7].arrived))
            && (out.ret != 0 && out.gaps == 7 ==> out.s == Stream(s.played + line[..taken], [], g[6].arrived))
            && (out.gaps < 7 ==> out.ret != 0 && out.s.played == s.played)
            && (out.gaps == 7 <==> Reads(s, border, g) && |line| >= border
                                   && !g[3].main && !g[4].main && !g[5].main && g[6].main)
  {
    hide FullCall, Reads, Chunk, Rest, Line, Finish, Meet;
    var s2, line := Meet(Meet(Meet(s, g[0]), g[1]), g[2]), Line(s, g);
    var offered := Min(CHUNK, |line|);
    var taken := if unplayed <= offered then offered - unplayed else offered;
    CallServes(s, border, unplayed, g);
    ReadsTakeTheLine(s, g);
    FinishDelivers(Rest(s2, g[3], g[4]), line[..offered], unplayed, g[3].main || g[4].main, g[5], g[6], g[7]);
    Slices(line, offered, taken);
  }

  lemma CallServes(s: Stream, border: nat, unplayed: nat, g: Gaps)
    ensures var out, s2 := FullCall(s, border, unplayed, g), Meet(Meet(Meet(s, g[0]), g[1]), g[2]);
            if Reads(s, border, g) then out == Serve(s2, border, unplayed, g[3], g[4], g[5], g[6], g[7])
            else out.ret != 0 && out.gaps < 7 && out.s.played == s.played
  {
    var s0 := Meet(s, g[0]);
    var s1 := Meet(s0, g[1]);
    MeetFacts(s, g[0]);
    MeetFacts(s0, g[1]);
    MeetFacts(s1, g[2]);
    hide Meet, Serve;
  }

  lemma FinishDelivers(s: Stream, chunk: seq<byte>, unplayed: nat, cleared: bool, g5: Gap, g6: Gap, g7: Gap)
    requires s.pending == []
    ensures var out := Finish(s, chunk, unplayed, cleared, g5, g6, g7);
            var taken := if unplayed <= |chunk| then |chunk| - unplayed else |chunk|;
            && (out.ret == 0 <==> out.gaps == 8) && out.gaps in {6, 7, 8}
            && (out.gaps == 6 <==> cleared || g5.main) && (out.gaps == 7 <==> !cleared && !g5.main && g6.main)
            && (out.gaps == 6 ==> out.s.played == s.played)
            && (out.gaps == 7 ==> out.s == Stream(s.played + chunk[..taken], [], g6.arrived))
            && (out.gaps == 8 ==>
                  out.s == Stream(s.played + chunk[..taken], chunk[taken..],
                                  (if g7.main then [] else s.main + g5.arrived + g6.arrived) + g7.arrived))
  {
    var taken := if unplayed <= |chunk| then |chunk| - unplayed else |chunk|;
    assert [] + chunk[taken..] == chunk[taken..] && [] + g6.arrived == g6.arrived;
  }

  // ---------- The order of the stream ----------

  /** Everything in its order, with `chunk` in tmp_buff. */
  function Order(s: Stream, chunk: seq<byte>): seq<byte> {
    s.played + chunk + s.pending + s.main
  }

  /** The stream is what came in, with bytes left out only where something was cleared. */
  predicate Follows(out: seq<byte>, total: seq<byte>, exact: bool) {
    IsSubsequence(out, total) && (exact ==> out == total)
  }

  function Arrivals(g: seq<Gap>): seq<byte> {
    if g == [] then [] else Arrivals(g[..|g| - 1]) + g[|g| - 1].arrived
  }

  predicate NoClears(g: seq<Gap>) {
    forall i | 0 <= i < |g| :: !g[i].main && !g[i].pending
  }

  lemma OneMoreArrival(g: Gaps, k: nat, base: seq<byte>)
    requires k < 8
    ensures base + Arrivals(g[..k + 1]) == base + Arrivals(g[..k]) + g[k].arrived
    ensures base + Arrivals(g[..0]) == base
  {
    assert g[..k + 1][..k] == g[..k];
    Associate(base, Arrivals(g[..k]), g[k].arrived);
  }

  lemma MeetFollows(s: Stream, chunk: seq<byte>, total: seq<byte>, g: Gap, exact: bool)
    requires Follows(Order(s, chunk), total, exact) && (exact ==> !g.main && !g.pending)
    ensures Follows(Order(Meet(s, g), chunk), total + g.arrived, exact)
  {
    var s' := Meet(s, g);
    var ahead := s.played + chunk;
    hide Meet, IsSubsequence;
    MeetDrops(s, g);
    SubsequenceOfItself(ahead);
    SubsequencesJoin(ahead, ahead, s'.pending, s.pending);
    SubsequencesJoin(ahead + s'.pending, ahead + s.pending, s'.main, s.main + g.arrived);
    Associate(ahead + s.pending, s.main, g.arrived);
    SubsequenceOfItself(g.arrived);
    SubsequencesJoin(Order(s, chunk), total, g.arrived, g.arrived);
    SubsequencesChain(Order(s', chunk), Order(s, chunk) + g.arrived, total + g.arrived);
  }

  lemma MeetDrops(s: Stream, g: Gap)
    ensures var s' := Meet(s, g);
            && s'.played == s.played && (!g.pending ==> s'.pending == s.pending)
            && IsSubsequence(s'.pending, s.pending) && IsSubsequence(s'.main, s.main + g.arrived)
            && (!g.main ==> s'.main == s.main + g.arrived)
  {
    SubsequenceOfItself(s.pending);
    SubsequenceOfItself(s.main + g.arrived);
    SubsequenceOfItself(g.arrived);
    if g.main {
      SubsequencesJoin([], s.main, g.arrived, g.arrived);
      assert [] + g.arrived == g.arrived;
    }
  }

  /** Leaving the chunk behind drops it. */
  lemma DroppingFollows(s: Stream, chunk: seq<byte>, total: seq<byte>)
    requires Follows(Order(s, chunk), total, false)
    ensures Follows(s.All(), total, false)
  {
    hide IsSubsequence;
    SubsequenceOfItself(s.played);
    SubsequenceOfItself(s.pending);
    SubsequenceOfItself(s.main);
    NothingIsSubsequence(chunk);
    SubsequencesJoin(s.played, s.played, [], chunk);
    assert s.played + [] == s.played;
    SubsequencesJoin(s.played, s.played + chunk, s.pending, s.pending);
    SubsequencesJoin(s.played + s.pending, s.played + chunk + s.pending, s.main, s.main);
    SubsequencesChain(s.All(), Order(s, chunk), total);
  }

  lemma NothingIsSubsequence(t: seq<byte>)
    ensures IsSubsequence([], t)
  {
  }

  lemma ReadingKeepsOrder(s: Stream)
    requires |s.pending| <= CHUNK
    ensures PendingRead(s).pending == [] && s.pending[..Min(CHUNK, |s.pending|)] == s.pending
    ensures Order(PendingRead(s), s.pending) == s.All()
  {
    assert s.pending[|s.pending|..] == [];
    assert s.played + s.pending + [] == s.played + s.pending;
  }

  lemma ReadingMainKeepsOrder(s: Stream, chunk: seq<byte>, second: nat)
    requires s.pending == [] && second <= |s.main|
    ensures Order(s.(main := s.main[second..]), chunk + s.main[..second]) == Order(s, chunk)
  {
    assert s.main == s.main[..second] + s.main[second..];
    assert s.played + (chunk + s.main[..second]) + [] + s.main[second..]
        == s.played + chunk + [] + (s.main[..second] + s.main[second..]);
  }

  lemma PlayingKeepsOrder(s: Stream, chunk: seq<byte>, cut: nat)
    requires cut <= |chunk|
    ensures Order(s.(played := s.played + chunk[..cut]), chunk[cut..]) == Order(s, chunk)
  {
    assert chunk == chunk[..cut] + chunk[cut..];
    Associate(s.played, chunk[..cut], chunk[cut..]);
  }

  lemma PuttingBackKeepsOrder(s: Stream, rest: seq<byte>)
    requires s.pending == []
    ensures s.(pending := s.pending + rest).All() == Order(s, rest)
  {
    assert [] + rest == rest && s.played + rest + [] == s.played + rest;
  }

  lemma FinishFollows(s: Stream, chunk: seq<byte>, unplayed: nat, cleared: bool, g: Gaps, base: seq<byte>, exact: bool)
    requires s.pending == [] && |chunk| <= CHUNK
    requires Follows(Order(s, chunk), base + Arrivals(g[..5]), exact)
    requires exact ==> NoClears(g) && !cleared
    ensures var out := Finish(s, chunk, unplayed, cleared, g[5], g[6], g[7]);
            && out.gaps <= 8 && Follows(out.s.All(), base + Arrivals(g[..out.gaps]), exact)
            && |out.s.pending| <= CHUNK && s.played <= out.s.played
  {
    hide Order, Follows, Arrivals, Stream.All;
    var cut := |chunk| - LeftOver(|chunk|, unplayed);
    var s5 := Meet(s, g[5]);
    var heard := s5.(played := s5.played + chunk[..cut]);
    var s6 := Meet(heard, g[6]);
    var s7 := Meet(s6, g[7]);
    OneMoreArrival(g, 5, base);
    OneMoreArrival(g, 6, base);
    OneMoreArrival(g, 7, base);
    MeetFollows(s, chunk, base + Arrivals(g[..5]), g[5], exact);
    PlayingKeepsOrder(s5, chunk, cut);
    MeetFollows(heard, chunk[cut..], base + Arrivals(g[..6]), g[6], exact);
    MeetFollows(s6, chunk[cut..], base + Arrivals(g[..7]), g[7], exact);
    if cleared || g[5].main {
      WeakFollows(Order(s5, chunk), base + Arrivals(g[..6]), exact);
      DroppingFollows(s5, chunk, base + Arrivals(g[..6]));
    } else if g[6].main {
      WeakFollows(Order(s6, chunk[cut..]), base + Arrivals(g[..7]), exact);
      DroppingFollows(s6, chunk[cut..], base + Arrivals(g[..7]));
    } else {
      PuttingBackKeepsOrder(s7, chunk[cut..]);
    }
  }

  lemma WeakFollows(out: seq<byte>, total: seq<byte>, exact: bool)
    requires Follows(out, total, exact)
    ensures Follows(out, total, false)
  {
  }

  /** A call without clears always finishes. */
  lemma ServeFollows(s: Stream, border: nat, unplayed: nat, g: Gaps, base: seq<byte>, exact: bool)
    requires |s.pending| <= CHUNK && Follows(s.All(), base + Arrivals(g[..3]), exact)
    requires exact ==> NoClears(g) && border <= CHUNK && |s.pending| + |s.main| >= border
    ensures var out := Serve(s, border, unplayed, g[3], g[4], g[5], g[6], g[7]);
            && out.gaps <= 8 && Follows(out.s.All(), base + Arrivals(g[..out.gaps]), exact)
            && |out.s.pending| <= CHUNK && s.played <= out.s.played
  {
    hide Follows, Arrivals, Finish, Meet;
    var s3 := Meet(s, g[3]);
    var read := PendingRead(s3);
    var s4 := Meet(read, g[4]);
    MeetFacts(s, g[3]);
    MeetFacts(read, g[4]);
    var second := Min(CHUNK - |s3.pending|, |s4.main|);
    var rest := s4.(main := s4.main[second..]);
    AllIsOrder(s);
    AllIsOrder(s3);
    OneMoreArrival(g, 3, base);
    OneMoreArrival(g, 4, base);
    MeetFollows(s, [], base + Arrivals(g[..3]), g[3], exact);
    ReadingKeepsOrder(s3);
    MeetFollows(read, s3.pending, base + Arrivals(g[..4]), g[4], exact);
    ReadingMainKeepsOrder(s4, s3.pending, second);
    hide Order, Stream.All;
    var chunk := s3.pending + s4.main[..second];
    if |chunk| < border {
      WeakFollows(Order(rest, chunk), base + Arrivals(g[..5]), exact);
      DroppingFollows(rest, chunk, base + Arrivals(g[..5]));
    } else {
      FinishFollows(rest, chunk, unplayed, g[3].main || g[4].main, g, base, exact);
    }
  }

  lemma AllIsOrder(s: Stream)
    ensures s.All() == Order(s, [])
  {
    assert s.played + [] == s.played;
  }

  /** A call, whatever is cleared and appended in its gaps: the stream is what it was and what arrived,
      in order, with bytes left out only if something was cleared; what was played stays played. */
  lemma CallKeepsOrder(s: Stream, border: nat, unplayed: nat, g: Gaps)
    requires |s.pending| <= CHUNK && border <= CHUNK
    ensures var out := FullCall(s, border, unplayed, g);
            && out.gaps <= 8 && Follows(out.s.All(), s.All() + Arrivals(g[..out.gaps]), NoClears(g))
            && |out.s.pending| <= CHUNK && s.played <= out.s.played
  {
    hide Follows, Arrivals, Serve, Meet;
    var exact, base := NoClears(g), s.All();
    var s0 := Meet(s, g[0]);
    var s1 := Meet(s0, g[1]);
    var s2 := Meet(s1, g[2]);
    MeetFacts(s, g[0]);
    MeetFacts(s0, g[1]);
    MeetFacts(s1, g[2]);
    OneMoreArrival(g, 0, base);
    OneMoreArrival(g, 1, base);
    OneMoreArrival(g, 2, base);
    AllIsOrder(s);
    AllIsOrder(s1);
    AllIsOrder(s2);
    FollowsItself(s.All(), exact);
    MeetFollows(s, [], base + Arrivals(g[..0]), g[0], exact);
    MeetFollows(s0, [], base + Arrivals(g[..1]), g[1], exact);
    MeetFollows(s1, [], base + Arrivals(g[..2]), g[2], exact);
    hide Order, Stream.All;
    if |s0.pending| + |s1.main| > border && !(g[0].main || g[1].main || g[2].main) {
      ServeFollows(s2, border, unplayed, g, base, exact);
    }
  }

  lemma FollowsItself(all: seq<byte>, exact: bool)
    ensures Follows(all, all, exact)
  {
    SubsequenceOfItself(all);
  }

  // ---------- Whole runs ----------

  datatype Event =
    | Append(bytes: seq<byte>)
    | ClearMain
    | ClearPending
    | PlayCall(border: nat, unplayed: nat, g: Gaps)

  function Do(s: Stream, e: Event): Stream {
    match e
    case Append(bytes) => s.(main := s.main + bytes)
    case ClearMain => s.(main := [])
    case ClearPending => s.(pending := [])
    case PlayCall(border, unplayed, g) => FullCall(s, border, unplayed, g).s
  }

  function Run(events: Trace<Event>): Stream {
    match events
    case Begin => Stream([], [], [])
    case After(past, e) => Do(Run(past), e)
  }

  /** What arrives in one event; a call that returns early goes through its first gaps only. */
  function ArrivedIn(s: Stream, e: Event): seq<byte> {
    match e
    case Append(bytes) => bytes
    case PlayCall(border, unplayed, g) =>
      var n := FullCall(s, border, unplayed, g).gaps;
      if n <= 8 then Arrivals(g[..n]) else []
    case _ => []
  }

  function Arrived(events: Trace<Event>): seq<byte> {
    match events
    case Begin => []
    case After(past, e) => Arrived(past) + ArrivedIn(Run(past), e)
  }

  /** The calls of the source have borders within one chunk. */
  predicate Calls(events: Trace<Event>) {
    events.After? ==> (events.step.PlayCall? ==> events.step.border <= CHUNK) && Calls(events.past)
  }

  predicate Clears(e: Event) {
    e.ClearMain? || e.ClearPending? || (e.PlayCall? && !NoClears(e.g))
  }

  predicate NeverClears(events: Trace<Event>) {
    events.After? ==> !Clears(events.step) && NeverClears(events.past)
  }

  lemma EventKeepsOrder(s: Stream, e: Event)
    requires |s.pending| <= CHUNK && (e.PlayCall? ==> e.border <= CHUNK)
    ensures Follows(Do(s, e).All(), s.All() + ArrivedIn(s, e), !Clears(e))
    ensures |Do(s, e).pending| <= CHUNK && s.played <= Do(s, e).played
  {
    hide IsSubsequence, FullCall;
    var ahead := s.played + s.pending;
    SubsequenceOfItself(ahead);
    match e
    case Append(bytes) =>
      Associate(ahead, s.main, bytes);
      FollowsItself(s.All() + bytes, true);
    case ClearMain =>
      NothingIsSubsequence(s.main);
      SubsequencesJoin(ahead, ahead, [], s.main);
      assert s.All() + [] == s.All();
    case ClearPending =>
      NothingIsSubsequence(s.pending);
      SubsequenceOfItself(s.played);
      SubsequenceOfItself(s.main);
      SubsequencesJoin(s.played, s.played, [], s.pending);
      SubsequencesJoin(s.played + [], ahead, s.main, s.main);
      assert s.All() + [] == s.All();
    case PlayCall(border, unplayed, g) =>
      CallKeepsOrder(s, border, unplayed, g);
  }

  /** Over every run, whatever the device accepts, whatever arrives and whatever is cleared, between calls
      and in all their gaps: the bytes played, then those pending, then those in the main ring are bytes
      that arrived, in their order and each at most once; without a clear they are all of them. Pending
      stays within one chunk. */
  lemma {:induction false} NothingLostOrReordered(events: Trace<Event>)
    requires Calls(events)
    ensures Follows(Run(events).All(), Arrived(events), NeverClears(events))
    ensures |Run(events).pending| <= CHUNK
  {
    match events
    case Begin =>
      FollowsItself([], true);
    case After(past, e) =>
      hide Follows, Do, Stream.All, ArrivedIn, Clears;
      NothingLostOrReordered(past);
      EventKeepsOrder(Run(past), e);
      StepFollows(Run(past).All(), Arrived(past), NeverClears(past), Do(Run(past), e).All(), ArrivedIn(Run(past), e),
                  !Clears(e));
  }

  lemma StepFollows(out: seq<byte>, total: seq<byte>, exact: bool, out': seq<byte>, more: seq<byte>, still: bool)
    requires Follows(out, total, exact) && Follows(out', out + more, still)
    ensures Follows(out', total + more, exact && still)
  {
    hide IsSubsequence;
    SubsequenceOfItself(more);
    SubsequencesJoin(out, total, more, more);
    SubsequencesChain(out', out + more, total + more);
  }

  /** And what the device has taken is never taken back. */
  lemma {:induction false} PlayedOnlyGrows(events: Trace<Event>, e: Event)
    requires Calls(After(events, e))
    ensures Run(events).played <= Run(After(events, e)).played
  {
    NothingLostOrReordered(events);
    EventKeepsOrder(Run(events), e);
  }

  lemma TwoOverlays(was: seq<byte>, p: seq<byte>, m: seq<byte>)
    requires |p| + |m| <= |was|
    ensures Overlay(Overlay(was, 0, p), |p|, m)[..|p| + |m|] == p + m
    ensures Overlay(was, 0, p)[..|p|] == p && p + [] == p
  {
  }

  /** An offered gap before anything of it has found room. */
  function Unmet(o: Gap): Gap {
    o.(arrived := [])
  }

  /** `met` is `o` with of its bytes only the leading ones that found room. */
  predicate MetOne(met: Gap, o: Gap) {
    met.arrived <= o.arrived && met == o.(arrived := met.arrived)
  }

  lemma SameClears(met: Gap, o: Gap)
    requires MetOne(met, o)
    ensures met.main == o.main && met.pending == o.pending
  {
  }

  /** The clear counter of the main ring, an unsigned char, over a gap. */
  function Ticked(count: nat, o: Gap): nat {
    (count + if o.main then 1 else 0) % 256
  }

  /** Three gaps cannot turn it all the way round. */
  lemma CounterTells(flag: nat, o: Gap, o': Gap, o'': Gap)
    requires flag < 256
    ensures Ticked(Ticked(Ticked(flag, o), o'), o'') == flag <==> !o.main && !o'.main && !o''.main
    ensures Ticked(flag, o) == flag <==> !o.main
  {
  }

  predicate Met(g: Gaps, o: Gaps) {
    forall i | 0 <= i < 8 :: MetOne(g[i], o[i])
  }

  function Eight(g0: Gap, g1: Gap, g2: Gap, g3: Gap, g4: Gap, g5: Gap, g6: Gap, g7: Gap, ghost o: Gaps): (g: Gaps)
    requires MetOne(g0, o[0]) && MetOne(g1, o[1]) && MetOne(g2, o[2]) && MetOne(g3, o[3])
    requires MetOne(g4, o[4]) && MetOne(g5, o[5]) && MetOne(g6, o[6]) && MetOne(g7, o[7])
    ensures Met(g, o)
    ensures g[0] == g0 && g[1] == g1 && g[2] == g2 && g[3] == g3
    ensures g[4] == g4 && g[5] == g5 && g[6] == g6 && g[7] == g7
  {
    [g0, g1, g2, g3, g4, g5, g6, g7]
  }

  lemma UnmetIsMet(o: Gaps)
    ensures forall i | 0 <= i < 8 :: MetOne(Unmet(o[i]), o[i])
  {
  }

  class TwoBufferPlayer {
    const pending: CharBuffer
    const main: CharBuffer
    const tmp: array<byte>
    ghost var played: seq<byte>

    ghost predicate Valid()
      reads this, pending, main, pending.data, main.data
    {
      && pending != main && pending.data != main.data
      && tmp != pending.data && tmp != main.data && tmp.Length == CHUNK
      && pending.Valid() && main.Valid()
      && pending.data.Length == PENDING_SIZE && |pending.Queue()| <= CHUNK
    }

    ghost function State(): Stream
      requires Valid()
      reads this, pending, main, pending.data, main.data
    {
      Stream(played, pending.Queue(), main.Queue())
    }

    constructor (mainSize: nat)
      requires mainSize > 0
      ensures Valid() && State() == Stream([], [], [])
    {
      pending := new CharBuffer(PENDING_SIZE);
      main := new CharBuffer(mainSize);
      tmp := new byte[CHUNK];
      played := [];
    }

    /** Audio arriving in the main ring; only what the ring accepts has arrived. */
    method Arrive(bytes: seq<byte>) returns (accepted: nat)
      requires Valid()
      modifies main`wr, main.data
      ensures Valid() && accepted == Min(|bytes|, old(main.Value().Free()))
      ensures State() == Do(old(State()), Append(bytes[..accepted]))
    {
      var ret := main.Write(bytes);
      accepted := if ret > 0 then ret else 0;
    }

    /** What other threads do to the rings between two statements of a call. */
    method Interfere(o: Gap) returns (ghost met: Gap)
      requires Valid()
      modifies pending, main, main.data
      ensures Valid() && MetOne(met, o) && State() == Meet(old(State()), met)
      ensures main.clearCount == Ticked(old(main.clearCount), o)
      ensures tmp[..] == old(tmp[..])
    {
      hide CharBuffer.Queue, CharBuffer.Value;
      if o.main {
        main.Clear();
      }
      if o.pending {
        pending.Clear();
      }
      var n := Arrive(o.arrived);
      met := o.(arrived := o.arrived[..n]);
    }

    /** The read of pending into tmp_buff. Its "unlikely" exit (-6) is never taken: an empty ring is the
        one error a read can report. */
    method ReadPending() returns (index: nat)
      requires Valid()
      modifies pending, tmp
      ensures Valid() && index == |old(State()).pending| <= CHUNK && State() == PendingRead(old(State()))
      ensures tmp[..index] == old(State()).pending && main.clearCount == old(main.clearCount)
    {
      hide CharBuffer.Queue, CharBuffer.Value, Take, PutAll, Ring.Ok, Ring.Queue, Overlay;
      ghost var p, was := pending.Queue(), tmp[..];
      TwoOverlays(was, p, []);
      assert p[..|p|] == p;
      index := 0;
      var ret := pending.Read(tmp, 0, CHUNK);
      if ret > 0 {
        index := ret;
      } else if ret == ERR_EMPTY {
        index := 0;
      } else {
        assert false;
      }
    }

    /** The read of main behind it, if there is room. */
    method ReadMain(index: nat) returns (total: nat)
      requires Valid() && index <= CHUNK
      modifies main, tmp
      ensures var m := old(State()).main;
              var second := Min(CHUNK - index, |m|);
              && Valid() && State() == old(State()).(main := m[second..])
              && total == index + second && tmp[..total] == old(tmp[..index]) + m[..second]
      ensures main.clearCount == old(main.clearCount)
    {
      hide CharBuffer.Queue, CharBuffer.Value, Take, PutAll, Ring.Ok, Ring.Queue;
      total := index;
      if index < CHUNK {
        var ret := main.Read(tmp, index, CHUNK - index);
        if ret > 0 {
          total := total + ret;
        }
      }
    }

    /** The put-back of what the device left. */
    method PutBack(from: nat, total: nat)
      requires Valid() && pending.Queue() == [] && from <= total <= CHUNK
      modifies pending, pending.data
      ensures Valid() && State() == old(State()).(pending := old(tmp[from..total]))
    {
      hide CharBuffer.Value;
      if from < total {
        var n := pending.Write(tmp[from..total]);
        assert pending.Queue() == tmp[from..total];
      }
    }

    /** A call behind its reads, before which the clear counter was `flag`. */
    method Deliver(total: nat, unplayed: nat, flag: nat, ghost o3: Gap, ghost o4: Gap, o5: Gap, o6: Gap, o7: Gap)
      returns (ret: int, ghost g5: Gap, ghost g6: Gap, ghost g7: Gap, ghost n: nat)
      requires Valid() && pending.Queue() == [] && total <= CHUNK
      requires flag < 256 && main.clearCount == Ticked(Ticked(flag, o3), o4)
      modifies this, pending, pending.data, main, main.data
      ensures Valid() && MetOne(g5, o5) && MetOne(g6, o6) && MetOne(g7, o7)
      ensures Outcome(ret, State(), n) ==
              Finish(old(State()), old(tmp[..total]), unplayed, o3.main || o4.main, g5, g6, g7)
    {
      hide CharBuffer.Queue, CharBuffer.Value, Meet, LeftOver, Stream.All, Ticked;
      CounterTells(flag, o3, o4, o5);
      CounterTells(flag, o6, o6, o6);
      ghost var chunk := tmp[..total];
      var cut := total - LeftOver(total, unplayed);
      g6, g7 := Unmet(o6), Unmet(o7);
      ghost var s := State();
      g5 := Interfere(o5);
      MeetFacts(s, g5);
      ghost var s5 := State();
      if flag != main.clearCount {
        return CLEARED, g5, g6, g7, 6;
      }
      played := played + tmp[..cut];
      ghost var heard := State();
      assert heard == s5.(played := s5.played + chunk[..cut]);
      g6 := Interfere(o6);
      MeetFacts(heard, g6);
      if flag != main.clearCount {
        return CLEARED, g5, g6, g7, 7;
      }
      ghost var s6 := State();
      g7 := Interfere(o7);
      MeetFacts(s6, g7);
      ghost var s7 := State();
      PutBack(cut, total);
      assert s7.pending + chunk[cut..] == chunk[cut..];
      return 0, g5, g6, g7, 8;
    }

    /** The two reads. Another thread may clear or append before each. */
    method Fill(o3: Gap, o4: Gap) returns (total: nat, ghost g3: Gap, ghost g4: Gap)
      requires Valid()
      modifies pending, main, main.data, tmp
      ensures Valid() && MetOne(g3, o3) && MetOne(g4, o4)
      ensures State() == Rest(old(State()), g3, g4) && pending.Queue() == []
      ensures total <= CHUNK && tmp[..total] == Chunk(old(State()), g3, g4)
      ensures main.clearCount == Ticked(Ticked(old(main.clearCount), o3), o4)
    {
      hide CharBuffer.Queue, CharBuffer.Value, Meet, Overlay, Ticked;
      g3 := Interfere(o3);
      ghost var s3 := State();
      var index := ReadPending();
      ghost var head := tmp[..index];
      assert head == s3.pending[..index];
      g4 := Interfere(o4);
      assert tmp[..index] == head;
      MeetFacts(PendingRead(s3), g4);
      total := ReadMain(index);
    }

    /** A call from its reads on, with the clear counter where it was. */
    method FillAndDeliver(border: nat, unplayed: nat, flag: nat, o: Gaps)
      returns (ret: int, ghost g3: Gap, ghost g4: Gap, ghost g5: Gap, ghost g6: Gap, ghost g7: Gap, ghost n: nat)
      requires Valid() && main.clearCount == flag
      modifies this, pending, pending.data, main, main.data, tmp
      ensures Valid()
      ensures MetOne(g3, o[3]) && MetOne(g4, o[4]) && MetOne(g5, o[5]) && MetOne(g6, o[6]) && MetOne(g7, o[7])
      ensures Outcome(ret, State(), n) == Serve(old(State()), border, unplayed, g3, g4, g5, g6, g7)
    {
      hide CharBuffer.Queue, CharBuffer.Value, Finish, Meet, Rest, Chunk, Ticked;
      var total;
      total, g3, g4 := Fill(o[3], o[4]);
      SameClears(g3, o[3]);
      SameClears(g4, o[4]);
      if total < border {
        return FAILED, g3, g4, Unmet(o[5]), Unmet(o[6]), Unmet(o[7]), 5;
      }
      ret, g5, g6, g7, n := Deliver(total, unplayed, flag, o[3], o[4], o[5], o[6], o[7]);
    }

    /** Both sizes. Another thread may clear or append before each. */
    method Sizes(o0: Gap, o1: Gap) returns (bytes: nat, ghost g0: Gap, ghost g1: Gap)
      requires Valid()
      modifies pending, main, main.data
      ensures Valid() && MetOne(g0, o0) && MetOne(g1, o1)
      ensures var s0 := Meet(old(State()), g0);
              var s1 := Meet(s0, g1);
              State() == s1 && bytes == |s0.pending| + |s1.main|
      ensures main.clearCount == Ticked(Ticked(old(main.clearCount), o0), o1)
    {
      hide CharBuffer.Queue, CharBuffer.Value, Meet, Ticked;
      g0 := Interfere(o0);
      var _, pendingBytes, _ := pending.ReadPointer();
      g1 := Interfere(o1);
      var _, mainBytes, _ := main.ReadPointer();
      bytes := pendingBytes + mainBytes;
    }

    /** PlayAudioTwice and PlayAudioTwice_analog: a whole call, with `o` coming from other threads in
        its gaps. */
    method PlayTwice(border: nat, unplayed: nat, o: Gaps) returns (ret: int, ghost g: Gaps, ghost n: nat)
      requires Valid() && (border == BORDER || border == BORDER_ANALOG)
      modifies this, pending, pending.data, main, main.data, tmp
      ensures Valid() && Met(g, o) && Outcome(ret, State(), n) == FullCall(old(State()), border, unplayed, g)
    {
      hide CharBuffer.Queue, CharBuffer.Value, Serve, Meet, Met, MetOne, Eight, Ticked;
      CounterTells(main.clearCount, o[0], o[1], o[2]);
      var flag := main.clearCount;
      ghost var g3, g4, g5, g6, g7 := Unmet(o[3]), Unmet(o[4]), Unmet(o[5]), Unmet(o[6]), Unmet(o[7]);
      UnmetIsMet(o);
      var bytes;
      ghost var g0, g1;
      bytes, g0, g1 := Sizes(o[0], o[1]);
      if bytes <= border {
        ret, n := NOT_ENOUGH, 2;
        g := Eight(g0, g1, Unmet(o[2]), g3, g4, g5, g6, g7, o);
        return;
      }
      ghost var g2 := Interfere(o[2]);
      SameClears(g0, o[0]);
      SameClears(g1, o[1]);
      SameClears(g2, o[2]);
      if flag != main.clearCount {
        ret, n := CLEARED, 3;
        g := Eight(g0, g1, g2, g3, g4, g5, g6, g7, o);
        return;
      }
      ret, g3, g4, g5, g6, g7, n := FillAndDeliver(border, unplayed, flag, o);
      g := Eight(g0, g1, g2, g3, g4, g5, g6, g7, o);
    }
  }
}
