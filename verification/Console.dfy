/** The two state machines of a console and what they share (bcu_function.cxx, bcu_intercom.cxx,
    bcu_ann.cxx): the microphone, the buttons, and the occupancy that is broadcast. */
module Console {
  import opened Bytes
  import R = RuleTable
  import P = Priority

  datatype Owner = Announce | Intercom | Nobody

  /** bcu_call_state_t. */
  datatype Call = Call(device: nat, state: nat)

  const SEATS := 5

  type Seat = n: nat | 1 <= n <= SEATS witness 1

  datatype Console = Console(
    own: Seat,
    rules: seq<R.Slot>,
    ann: int,
    intercom: R.State,
    mic: Owner,
    live: bool,
    d2d: bool,
    calls: seq<Call>,
    sent: seq<Call>)

  // ---------- Entering and leaving states ----------

  /** Sets the own entry and broadcasts it. */
  function Occupy(c: Console, state: nat): (c': Console)
    requires |c.calls| == SEATS
    ensures c'.own == c.own && |c'.calls| == SEATS
  {
    var call := Call(c.own, state);
    c.(calls := c.calls[c.own - 1 := call], sent := c.sent + [call])
  }

  function ExitIntercom(c: Console): (c': Console)
    requires |c.calls| == SEATS
    ensures c'.own == c.own && |c'.calls| == SEATS
  {
    match c.intercom
    case Idle => c
    case D2D => Occupy(c.(d2d := false, mic := Nobody), 0)
    case D2P => Occupy(c.(mic := Nobody), 0)
    case HangUp => c.(d2d := false, mic := Nobody)
    case Monitor => c.(mic := Nobody)
  }

  function EnterIntercom(c: Console, s: R.State): (c': Console)
    requires |c.calls| == SEATS
    ensures c'.own == c.own && |c'.calls| == SEATS
  {
    match s
    case Idle => c.(intercom := s)
    case D2D => Occupy(c.(intercom := s, d2d := true, mic := Intercom), 1)
    case D2P => Occupy(c.(intercom := s, mic := Intercom), 1)
    case HangUp => c.(intercom := s, d2d := true, mic := Intercom)
    case Monitor => c.(intercom := s)
  }

  /** Leaving one intercom state for another, or for itself. */
  function ChangeIntercom(c: Console, s: R.State): (c': Console)
    requires |c.calls| == SEATS
    ensures c'.own == c.own && |c'.calls| == SEATS
  {
    EnterIntercom(ExitIntercom(c), s)
  }

  function ExitAnn(c: Console): Console {
    if c.ann == P.LIVE then c.(live := false, mic := Nobody) else c
  }

  function EnterAnn(c: Console, id: int): Console {
    if id == P.LIVE then c.(ann := id, live := true, mic := Announce) else c.(ann := id)
  }

  function ChangeAnn(c: Console, id: int): Console {
    EnterAnn(ExitAnn(c), id)
  }

  // ---------- Events ----------

  /** StateMachineExchange and MoniortStateMachineExchange. */
  function Trigger(c: Console, e: int): (c': Console)
    requires |c.calls| == SEATS
    ensures c'.own == c.own && |c'.calls| == SEATS
  {
    match R.Lookup(c.rules, c.intercom, e)
    case Some(s) => ChangeIntercom(c, s)
    case None => c
  }

  /** WhetherWantToExchangeState. */
  predicate Wants(ann: int, s: R.State, cmd: P.Command) {
    var event := if cmd.ann != P.ANN_IDLE then cmd.ann else if cmd.intercom != P.INTERCOM_IDLE then cmd.intercom else 0;
    if event == P.LIVE then (ann != P.LIVE) == (cmd.liveActive != 0)
    else if event == P.D2D then (s != R.D2D && s != R.HangUp) || cmd.d2dActive == 0
    else if event == P.D2P then
      if s != R.D2P then cmd.intercom != P.D2P || cmd.d2pActive != 0 else cmd.d2pActive == 0
    else false
  }

  /** GetEventType. */
  function EventType(s: R.State, cmd: P.Command): int {
    if cmd.ann == P.LIVE then (if cmd.liveActive == 1 then 0 else 8)
    else if cmd.intercom == P.D2D then
      if cmd.d2dActive != 1 then R.CONFIRM_TRANSFER_TO_D2P
      else if s == R.D2P then R.TRANSFER_TO_D2D_OR_DRIVER_CALL
      else R.PTT_OR_DRIVER_CALL
    else if cmd.intercom == P.D2P then
      if cmd.d2pActive == 1 then R.CONFIRM_PCU_CALL else R.CONFIRM_RELEASE_PCU
    else if cmd.ann == P.ANN_IDLE && cmd.intercom == P.INTERCOM_IDLE then 0
    else 21
  }

  /** The microphone guard of ANNStateHangle. */
  predicate MicTaken(c: Console, cmd: P.Command) {
    cmd.ann == P.LIVE && c.mic != Nobody && cmd.liveActive == 1
  }

  /** ANNStateHangle. */
  function HandleAnn(c: Console, cmd: P.Command): Console {
    if cmd.ann != P.ANN_IDLE && Wants(c.ann, c.intercom, cmd) && !MicTaken(c, cmd) then
      match P.Exchange(P.DEFAULT_LIST, c.ann, cmd).entered
      case Some(id) => ChangeAnn(c, id)
      case None => c
    else c
  }

  /** IntercomStateHangle. */
  function HandleIntercom(c: Console, cmd: P.Command): (c': Console)
    requires |c.calls| == SEATS
    ensures c'.own == c.own && |c'.calls| == SEATS
  {
    if cmd.intercom != P.INTERCOM_IDLE && Wants(c.ann, c.intercom, cmd)
    then Trigger(c, EventType(c.intercom, cmd))
    else c
  }

  /** RegisterBcuCallState; the sender is a seat. */
  function Register(c: Console, kind: int, sender: Seat, call: Call): (c': Console)
    requires |c.calls| == SEATS
    ensures c'.own == c.own && |c'.calls| == SEATS
  {
    if kind == 7 && sender != c.own then c.(calls := c.calls[sender - 1 := call]) else c
  }

  datatype Event =
    | Triggered(trigger: int)
    | AnnCommand(cmd: P.Command)
    | IntercomCommand(cmd: P.Command)
    | ForceAnnIdle
    | ForceIntoD2D
    | Report(kind: int, sender: Seat, call: Call)
    | SwitchRule(rule: R.Rule, on: bool)

  function Step(c: Console, e: Event): (c': Console)
    requires |c.calls| == SEATS
    ensures c'.own == c.own && |c'.calls| == SEATS
  {
    match e
    case Triggered(t) => Trigger(c, t)
    case AnnCommand(cmd) => HandleAnn(c, cmd)
    case IntercomCommand(cmd) => HandleIntercom(c, cmd)
    case ForceAnnIdle => ChangeAnn(c, P.ANN_IDLE)
    case ForceIntoD2D => ChangeIntercom(c, R.D2D)
    case Report(kind, sender, call) => Register(c, kind, sender, call)
    case SwitchRule(rule, on) => c.(rules := R.Switched(c.rules, rule, on))
  }

  /** BCUStateInit after BCURuleTableInit. */
  function Start(own: Seat): Console {
    Console(own, R.Run(R.Adding(R.INSTALLED)), P.ANN_IDLE, R.Idle, Nobody, false, false,
            seq(SEATS, _ => Call(0, 0)), [])
  }

  function Run(own: Seat, h: Trace<Event>): (c: Console)
    ensures c.own == own && |c.calls| == SEATS
  {
    match h
    case Begin => Start(own)
    case After(past, e) => Step(Run(own, past), e)
  }

  /** How the entry of a seat goes from `c` to `c'`: kept, or for the own seat broadcast. */
  ghost predicate KeepsCall(c: Console, c': Console, seat: Seat) {
    && |c.calls| == |c'.calls| == SEATS && c'.own == c.own && c.sent <= c'.sent
    && (seat != c.own || c'.sent == c.sent ==> c'.calls[seat - 1] == c.calls[seat - 1])
    && (seat == c.own && c'.sent != c.sent ==> c'.calls[seat - 1] == c'.sent[|c'.sent| - 1])
  }

  lemma OccupyKeepsCall(c: Console, state: nat, seat: Seat)
    requires |c.calls| == SEATS
    ensures KeepsCall(c, Occupy(c, state), seat)
  {
  }

  lemma IntercomChangeKeepsCall(c: Console, s: R.State, seat: Seat)
    requires |c.calls| == SEATS
    ensures KeepsCall(c, ChangeIntercom(c, s), seat)
  {
    ExitKeepsCall(c, seat);
    EnterKeepsCall(ExitIntercom(c), s, seat);
    hide ExitIntercom, EnterIntercom;
    KeepsCallThroughout(c, ExitIntercom(c), ChangeIntercom(c, s), seat);
  }

  lemma ExitKeepsCall(c: Console, seat: Seat)
    requires |c.calls| == SEATS
    ensures KeepsCall(c, ExitIntercom(c), seat)
  {
    OccupyKeepsCall(c.(d2d := if c.intercom == R.D2D then false else c.d2d, mic := Nobody), 0, seat);
    hide Occupy;
  }

  lemma EnterKeepsCall(c: Console, s: R.State, seat: Seat)
    requires |c.calls| == SEATS
    ensures KeepsCall(c, EnterIntercom(c, s), seat)
  {
    OccupyKeepsCall(c.(intercom := s, d2d := if s == R.D2D then true else c.d2d, mic := Intercom), 1, seat);
    hide Occupy;
  }

  lemma KeepsCallThroughout(c: Console, mid: Console, c': Console, seat: Seat)
    requires KeepsCall(c, mid, seat) && KeepsCall(mid, c', seat)
    ensures KeepsCall(c, c', seat)
  {
  }

  lemma IntercomChangeArrives(c: Console, s: R.State)
    requires |c.calls| == SEATS
    ensures ChangeIntercom(c, s).intercom == s && ChangeIntercom(c, s).rules == c.rules
    ensures ChangeIntercom(c, s).ann == c.ann
  {
  }

  // ---------- What every run keeps ----------

  predicate Busy(s: R.State) {
    s == R.D2D || s == R.D2P
  }

  predicate InCall(s: R.State) {
    Busy(s) || s == R.HangUp
  }

  /** Broadcasts of one seat, starting with busy, and strictly alternating. */
  predicate Alternates(own: Seat, sent: seq<Call>) {
    forall i :: 0 <= i < |sent| ==> sent[i] == Call(own, 1 - i % 2)
  }

  predicate Safe(c: Console) {
    && |c.calls| == SEATS
    && (c.mic == Announce ==> c.ann == P.LIVE)
    && (c.mic == Intercom ==> InCall(c.intercom))
    && (c.live <==> c.ann == P.LIVE)
    && (c.d2d <==> c.intercom == R.D2D || c.intercom == R.HangUp)
    && (c.calls[c.own - 1].state == if Busy(c.intercom) then 1 else 0)
    && (Busy(c.intercom) <==> |c.sent| % 2 == 1)
    && Alternates(c.own, c.sent)
    && (c.ann == P.LIVE || c.ann == P.ANN_IDLE)
  }

  lemma OccupyAlternates(c: Console, state: nat)
    requires |c.calls| == SEATS && Alternates(c.own, c.sent) && state == 1 - |c.sent| % 2
    ensures Alternates(c.own, Occupy(c, state).sent)
  {
  }

  /** The exit function leaves everything as in idle, */
  lemma ExitIsSafe(c: Console)
    requires Safe(c)
    ensures Safe(ExitIntercom(c).(intercom := R.Idle))
  {
    hide Alternates;
    if Busy(c.intercom) {
      OccupyAlternates(c.(d2d := if c.intercom == R.D2D then false else c.d2d, mic := Nobody), 0);
    }
  }

  /** and the enter function as the state wants it. */
  lemma EnterIsSafe(c: Console, s: R.State)
    requires |c.calls| == SEATS && Safe(c.(intercom := R.Idle))
    ensures Safe(EnterIntercom(c, s))
  {
    hide Alternates;
    if Busy(s) {
      OccupyAlternates(c.(intercom := s, d2d := if s == R.D2D then true else c.d2d, mic := Intercom), 1);
    }
  }

  /** Any change of intercom state, allowed by a rule or forced. */
  lemma IntercomChangeIsSafe(c: Console, s: R.State)
    requires Safe(c)
    ensures Safe(ChangeIntercom(c, s))
  {
    assert |c.calls| == SEATS;
    hide Safe, ExitIntercom, EnterIntercom;
    ExitIsSafe(c);
    EnterIsSafe(ExitIntercom(c), s);
  }

  lemma AnnChangeIsSafe(c: Console, id: int)
    requires Safe(c) && (id == P.LIVE || id == P.ANN_IDLE)
    ensures Safe(ChangeAnn(c, id))
  {
  }

  /** An announcement command that passes the filter is one of the live announcement. */
  lemma OnlyLivePasses(c: Console, cmd: P.Command)
    requires c.ann == P.LIVE || c.ann == P.ANN_IDLE
    requires cmd.ann != P.ANN_IDLE && Wants(c.ann, c.intercom, cmd)
    requires P.Exchange(P.DEFAULT_LIST, c.ann, cmd).entered.Some?
    ensures cmd.ann == P.LIVE && cmd.intercom == P.INTERCOM_IDLE
    ensures P.Exchange(P.DEFAULT_LIST, c.ann, cmd).entered.value == if cmd.liveActive == 0 then P.ANN_IDLE else P.LIVE
  {
    P.DefaultValues(cmd.ann);
    P.DefaultValues(c.ann);
    hide P.Search;
  }

  /** An announcement command that changes anything turns live on or off. */
  lemma AnnCommandsToggleLive(c: Console, cmd: P.Command)
    requires c.ann == P.LIVE || c.ann == P.ANN_IDLE
    ensures HandleAnn(c, cmd) in {c, ChangeAnn(c, if c.ann == P.LIVE then P.ANN_IDLE else P.LIVE)}
  {
    hide P.Exchange, ChangeAnn;
    if cmd.ann != P.ANN_IDLE && Wants(c.ann, c.intercom, cmd) {
      if P.Exchange(P.DEFAULT_LIST, c.ann, cmd).entered.Some? {
        OnlyLivePasses(c, cmd);
      }
    }
  }

  lemma StepIsSafe(c: Console, e: Event)
    requires Safe(c)
    ensures Safe(Step(c, e))
  {
    hide ChangeIntercom, ChangeAnn, Alternates, R.Lookup, R.Switched, P.Exchange, EventType;
    forall s: R.State {
      IntercomChangeIsSafe(c, s);
    }
    AnnChangeIsSafe(c, P.ANN_IDLE);
    AnnChangeIsSafe(c, P.LIVE);
    if e.AnnCommand? {
      AnnCommandsToggleLive(c, e.cmd);
    }
  }

  /** After every run: the microphone belongs to the announcement only while live is active, and to the
      intercom only in a call; the live and driver-call buttons are lit exactly in their states; the
      own seat is marked occupied exactly in a call of its own; its broadcasts alternate between
      occupied and free, starting with occupied; live is the only announcement ever active. */
  lemma {:induction false} EveryRunIsSafe(own: Seat, h: Trace<Event>)
    ensures Safe(Run(own, h))
  {
    if h.After? {
      EveryRunIsSafe(own, h.past);
      StepIsSafe(Run(own, h.past), h.step);
    } else {
      hide R.Run, R.Adding;
    }
  }

  /** The last report about a seat. */
  function Reported(own: Seat, h: Trace<Event>, seat: Seat): Call {
    match h
    case Begin => Call(0, 0)
    case After(past, Report(7, sender, call)) =>
      if sender == seat && sender != own then call else Reported(own, past, seat)
    case After(past, _) => Reported(own, past, seat)
  }

  /** Whatever else happens, the entry of another seat is its last report. */
  lemma {:induction false} OtherEntriesAreReports(own: Seat, h: Trace<Event>, seat: Seat)
    requires seat != own
    ensures Run(own, h).calls[seat - 1] == Reported(own, h, seat)
  {
    match h
    case Begin =>
      hide R.Run;
    case After(past, e) =>
      OtherEntriesAreReports(own, past, seat);
      StepKeepsCalls(Run(own, past), e, seat);
      hide Step;
  }

  predicate OwnEntryIsLastOf(c: Console) {
    |c.calls| == SEATS && c.calls[c.own - 1] == if c.sent == [] then Call(0, 0) else c.sent[|c.sent| - 1]
  }

  lemma OwnEntryFollows(c: Console, c': Console)
    requires OwnEntryIsLastOf(c) && KeepsCall(c, c', c.own)
    ensures OwnEntryIsLastOf(c')
  {
  }

  /** The own entry is the last broadcast: no report ever touches it. */
  lemma {:induction false} OwnEntryIsLastBroadcast(own: Seat, h: Trace<Event>)
    ensures OwnEntryIsLastOf(Run(own, h))
  {
    match h
    case Begin =>
      hide R.Run;
    case After(past, e) =>
      OwnEntryIsLastBroadcast(own, past);
      StepKeepsCalls(Run(own, past), e, own);
      OwnEntryFollows(Run(own, past), Step(Run(own, past), e));
      hide Step, OwnEntryIsLastOf, KeepsCall;
  }

  lemma StepKeepsCalls(c: Console, e: Event, seat: Seat)
    requires |c.calls| == SEATS
    ensures if e.Report? && e.kind == 7 && e.sender == seat != c.own then
              Step(c, e).calls[seat - 1] == e.call && Step(c, e).sent == c.sent
            else KeepsCall(c, Step(c, e), seat)
  {
    hide ChangeIntercom, R.Lookup, R.Switched, P.Exchange, EventType, Wants;
    forall s {
      IntercomChangeKeepsCall(c, s, seat);
    }
  }

  // ---------- The rules during a run ----------

  function Switches(h: Trace<Event>): Trace<R.Op> {
    match h
    case Begin => R.Adding(R.INSTALLED)
    case After(past, SwitchRule(rule, on)) => After(Switches(past), if on then R.Enable(rule) else R.Disable(rule))
    case After(past, _) => Switches(past)
  }

  lemma {:induction false} RulesAreSwitchedOnly(own: Seat, h: Trace<Event>)
    ensures Run(own, h).rules == R.Run(Switches(h)) && R.Switching(Switches(h))
  {
    if h.After? {
      RulesAreSwitchedOnly(own, h.past);
      StepKeepsRules(Run(own, h.past), h.step);
      hide Step;
    }
    hide R.Adding;
  }

  lemma StepKeepsRules(c: Console, e: Event)
    requires |c.calls| == SEATS
    ensures Step(c, e).rules == if e.SwitchRule? then R.Switched(c.rules, e.rule, e.on) else c.rules
  {
    hide ChangeIntercom, R.Lookup, R.Switched, P.Exchange, EventType, Wants;
    forall s {
      IntercomChangeArrives(c, s);
    }
  }

  /** The intercom state changes only along an enabled rule, or by force into a driver call. */
  lemma StepMoves(c: Console, e: Event)
    requires |c.calls| == SEATS
    ensures var s := Step(c, e).intercom;
            || s == c.intercom
            || (e == ForceIntoD2D && s == R.D2D)
            || exists t :: R.Lookup(c.rules, c.intercom, t) == Some(s)
  {
    hide ChangeIntercom, R.Lookup, R.Switched, P.Exchange, EventType, Wants;
    forall s {
      IntercomChangeArrives(c, s);
    }
    if e.Triggered? || e.IntercomCommand? {
      var t := if e.Triggered? then e.trigger else EventType(c.intercom, e.cmd);
      assert t == t && (R.Lookup(c.rules, c.intercom, t).Some? ==>
                          R.Lookup(c.rules, c.intercom, t) == Some(R.Lookup(c.rules, c.intercom, t).value));
    }
  }

  /** In every run hang-up is entered only from a passenger call and left only to a call, whatever
      event comes; and a call comes out of idle, hang-up or another call, never out of monitoring
      unless it is forced. */
  lemma CallsInterruptInOrder(own: Seat, h: Trace<Event>, e: Event)
    ensures var s, s' := Run(own, h).intercom, Run(own, After(h, e)).intercom;
            && (s' == R.HangUp && s != R.HangUp ==> s == R.D2P)
            && (s == R.HangUp && s' != R.HangUp ==> Busy(s'))
            && (s == R.Monitor && s' != R.Monitor ==> s' == R.Idle || e == ForceIntoD2D)
  {
    hide Step, R.Run, R.Lookup, R.IsOn;
    var c, s' := Run(own, h), Run(own, After(h, e)).intercom;
    RulesAreSwitchedOnly(own, h);
    StepMoves(c, e);
    if t :| R.Lookup(c.rules, c.intercom, t) == Some(s') {
      R.HangUpStandsBetweenCalls(Switches(h), c.intercom, t, s');
      R.InstalledIffArrow(c.intercom, t, s');
    }
  }

  // ---------- Commands ----------

  /** ANNStateHangle starts the live announcement exactly when it is not active, the command asks for
      it, and either the microphone is free or the flag is neither 0 nor 1: the guard asks for 1, the
      filter only for not 0. */
  lemma LiveStartsIff(own: Seat, h: Trace<Event>, cmd: P.Command)
    ensures var c := Run(own, h);
            c.ann != P.LIVE && HandleAnn(c, cmd).ann == P.LIVE <==>
              && c.ann != P.LIVE && cmd.ann == P.LIVE && cmd.intercom == P.INTERCOM_IDLE
              && cmd.liveActive != 0 && (c.mic == Nobody || cmd.liveActive != 1)
  {
    EveryRunIsSafe(own, h);
    var c := Run(own, h);
    P.DefaultValues(cmd.ann);
    P.DefaultValues(c.ann);
    assert c.ann == P.LIVE || c.ann == P.ANN_IDLE;
    hide P.Search, Run;
    if HandleAnn(c, cmd) != c {
      OnlyLivePasses(c, cmd);
    }
  }

  /** SetLiveCmd, the only producer of live commands, sends 0 or 1, and for these flags live starts only
      with a free microphone. With any other flag a command takes it from a driver call. */
  lemma OddFlagTakesTheMicFromACall(own: Seat, flag: int)
    ensures var call := After(Begin, Triggered(R.PTT_OR_DRIVER_CALL));
            var cmd := P.Command(P.LIVE, P.INTERCOM_IDLE, flag, 0, 0);
            && Run(own, call).mic == Intercom && Run(own, call).intercom == R.D2D
            && (Run(own, After(call, AnnCommand(cmd))).mic == Announce <==> flag !in {0, 1})
            && (flag !in {0, 1} ==> Run(own, After(call, AnnCommand(cmd))).intercom == R.D2D)
  {
    var call := After(Begin, Triggered(R.PTT_OR_DRIVER_CALL));
    DriverCallStarts(own, Begin);
    LiveStartsIff(own, call, P.Command(P.LIVE, P.INTERCOM_IDLE, flag, 0, 0));
    EveryRunIsSafe(own, call);
  }

  lemma DriverCallStarts(own: Seat, h: Trace<Event>)
    requires Run(own, h).intercom == R.Idle && Run(own, h).rules == R.Run(R.Adding(R.INSTALLED))
    ensures var c := Run(own, After(h, Triggered(R.PTT_OR_DRIVER_CALL)));
            c.intercom == R.D2D && c.mic == Intercom && c.ann == Run(own, h).ann
            && c.rules == Run(own, h).rules
  {
    R.InstalledSearchIsArrow(R.Idle, R.PTT_OR_DRIVER_CALL);
    hide R.Run, R.Lookup;
  }

  /** A release outside the live announcement never changes anything: the filter stops what the bare
      exchange would let through. */
  lemma ReleaseOutsideLiveIsIgnored(own: Seat, h: Trace<Event>, cmd: P.Command)
    requires P.Releases(cmd) && Run(own, h).ann != P.LIVE
    ensures HandleAnn(Run(own, h), cmd) == Run(own, h)
    ensures P.Next(P.DEFAULT_LIST, Run(own, h).ann, cmd) == P.LIVE
  {
    EveryRunIsSafe(own, h);
    P.DefaultValues(P.ANN_IDLE);
    P.BareReleaseInDefaultList(P.ANN_IDLE, cmd);
    hide Run, P.Exchange;
  }

  /** A change into a call takes the microphone. */
  lemma CallTakesMic(c: Console, s: R.State)
    requires |c.calls| == SEATS && InCall(s)
    ensures ChangeIntercom(c, s).mic == Intercom
  {
  }

  /** What a step does to the microphone of a call that goes on. */
  lemma CallStep(c: Console, e: Event)
    requires |c.calls| == SEATS && (c.ann == P.LIVE || c.ann == P.ANN_IDLE) && InCall(Step(c, e).intercom)
    ensures var c' := Step(c, e);
            || (c'.ann == c.ann && c'.mic in {c.mic, Intercom})
            || c' == ChangeAnn(c, if c.ann == P.LIVE then P.ANN_IDLE else P.LIVE)
  {
    hide ChangeIntercom, HandleAnn, R.Lookup, R.Switched, EventType, Wants;
    forall s | InCall(s) {
      CallTakesMic(c, s);
    }
    forall s {
      IntercomChangeArrives(c, s);
    }
    if e.AnnCommand? {
      AnnCommandsToggleLive(c, e.cmd);
    }
  }

  /** A call that has the microphone and goes on loses it exactly when a live announcement starts or
      ends. */
  lemma CallLosesMicIffLiveChanges(c: Console, e: Event)
    requires Safe(c) && InCall(c.intercom) && c.mic == Intercom && InCall(Step(c, e).intercom)
    ensures Step(c, e).mic != Intercom <==> (c.ann == P.LIVE) != (Step(c, e).ann == P.LIVE)
  {
    CallStep(c, e);
    hide Step;
  }

  /** During a call the microphone falls free exactly when a live announcement ends. */
  lemma MicFallsFreeIffLiveEnds(c: Console, e: Event)
    requires Safe(c) && InCall(c.intercom) && c.mic != Nobody && InCall(Step(c, e).intercom)
    ensures Step(c, e).mic == Nobody <==> c.ann == P.LIVE && Step(c, e).ann != P.LIVE
  {
    CallStep(c, e);
    hide Step;
  }

  /** And that happens: a driver call placed during a live announcement goes on without the
      microphone when the announcement ends, which then counts as free. */
  lemma FreeMicDuringACall(own: Seat)
    ensures var live := After(Begin, AnnCommand(P.Command(P.LIVE, P.INTERCOM_IDLE, 1, 0, 0)));
            var c := Run(own, After(After(live, Triggered(R.PTT_OR_DRIVER_CALL)), ForceAnnIdle));
            c.mic == Nobody && c.intercom == R.D2D
  {
    var cmd := P.Command(P.LIVE, P.INTERCOM_IDLE, 1, 0, 0);
    var live := After(Begin, AnnCommand(cmd));
    LiveStartsIff(own, Begin, cmd);
    hide P.Exchange, R.Run;
    assert Run(own, live).intercom == R.Idle && Run(own, live).rules == Run(own, Begin).rules;
    DriverCallStarts(own, live);
  }

  /** What an intercom command asks for, written out for every command: calls start only from idle, a
      passenger call ends on its release or gives way to a driver call, and comes back when that is
      released; a driver call of its own and monitoring are not ended by any command. A command whose
      announcement field is not idle is filtered by that field: most do nothing, and two odd ones read
      the flags less strictly. */
  function Answer(s: R.State, cmd: P.Command): R.State {
    if cmd.ann !in {P.ANN_IDLE, P.D2D, P.D2P} then s
    else
      match s
      case Idle =>
        if cmd.intercom == P.D2D && cmd.d2dActive == 1 then R.D2D
        else if cmd.intercom == P.D2P && cmd.d2pActive == 1 then R.D2P
        else s
      case D2P =>
        if cmd.intercom == P.D2P && (if cmd.ann == P.D2D then cmd.d2pActive != 1 else cmd.d2pActive == 0) then R.Idle
        else if cmd.intercom == P.D2D && cmd.d2dActive == 1 && (cmd.ann == P.D2P ==> cmd.d2pActive == 0) then R.HangUp
        else s
      case HangUp =>
        if cmd.intercom == P.D2D && (if cmd.ann == P.D2P then cmd.d2dActive != 1 else cmd.d2dActive == 0) then R.D2P
        else s
      case D2D => s
      case Monitor => s
  }

  lemma AnswerIsArrow(ann: int, s: R.State, cmd: P.Command)
    ensures var moved := cmd.intercom != P.INTERCOM_IDLE && Wants(ann, s, cmd);
            var arrow := R.Arrow(s, EventType(s, cmd));
            (if moved && arrow.Some? then arrow.value else s) == Answer(s, cmd)
  {
  }

  /** In every run, for every command and however the rules are switched: the answer is given exactly
      if its rule is on, and otherwise nothing moves. */
  lemma IntercomCommandsAnswer(own: Seat, h: Trace<Event>, cmd: P.Command)
    ensures var c := Run(own, h);
            var answer := Answer(c.intercom, cmd);
            HandleIntercom(c, cmd).intercom ==
            if R.IsOn(Switches(h), R.Rule(c.intercom, answer, EventType(c.intercom, cmd))) then answer else c.intercom
  {
    RulesAreSwitchedOnly(own, h);
    RunningRulesAnswer(Run(own, h), Switches(h), cmd);
  }

  lemma RunningRulesAnswer(c: Console, ops: Trace<R.Op>, cmd: P.Command)
    requires |c.calls| == SEATS && R.Switching(ops) && c.rules == R.Run(ops)
    ensures var answer := Answer(c.intercom, cmd);
            HandleIntercom(c, cmd).intercom ==
            if R.IsOn(ops, R.Rule(c.intercom, answer, EventType(c.intercom, cmd))) then answer else c.intercom
  {
    hide R.Run, R.Lookup, R.IsOn, R.Switching, ChangeIntercom, Wants, EventType, Answer, R.Arrow;
    var s, e := c.intercom, EventType(c.intercom, cmd);
    var found := R.Lookup(c.rules, s, e);
    AnswerIsArrow(c.ann, s, cmd);
    R.SwitchedSearch(ops, s, e, Answer(s, cmd));
    if found.Some? {
      R.SwitchedSearch(ops, s, e, found.value);
      IntercomChangeArrives(c, found.value);
    }
  }

  /** So, in every run, no command whatever ends a driver call of its own or monitoring. */
  lemma NoCommandEndsDriverCalls(own: Seat, h: Trace<Event>, cmd: P.Command)
    requires Run(own, h).intercom in {R.D2D, R.Monitor}
    ensures HandleIntercom(Run(own, h), cmd).intercom == Run(own, h).intercom
  {
    hide Run, HandleIntercom;
    IntercomCommandsAnswer(own, h, cmd);
  }

  // ---------- Every event, in every run ----------

  /** A trigger takes the rule for the active state that is on, whatever was switched before; without
      one it changes nothing. */
  lemma TriggersTakeEnabledRules(own: Seat, h: Trace<Event>, e: int, target: R.State)
    ensures var s := Run(own, h).intercom;
            && (R.IsOn(Switches(h), R.Rule(s, target, e)) ==> Run(own, After(h, Triggered(e))).intercom == target)
            && ((forall t :: !R.IsOn(Switches(h), R.Rule(s, t, e))) ==>
                  Run(own, After(h, Triggered(e))) == Run(own, h))
  {
    hide R.Run, R.Lookup, R.IsOn, R.Switching, ChangeIntercom;
    var c := Run(own, h);
    RulesAreSwitchedOnly(own, h);
    R.SwitchedSearch(Switches(h), c.intercom, e, target);
    var found := R.Lookup(c.rules, c.intercom, e);
    if found.Some? {
      R.SwitchedSearch(Switches(h), c.intercom, e, found.value);
      IntercomChangeArrives(c, found.value);
    }
  }

  /** So with all rules on, every trigger moves as the installed machine says. */
  lemma InstalledTriggersMove(own: Seat, h: Trace<Event>, e: int)
    requires Switches(h) == R.Adding(R.INSTALLED)
    ensures var s, s' := Run(own, h).intercom, Run(own, After(h, Triggered(e))).intercom;
            s' == match R.Arrow(s, e) case Some(t) => t case None => s
  {
    hide R.Run, R.Lookup, R.Adding, ChangeIntercom, R.Arrow;
    var c := Run(own, h);
    RulesAreSwitchedOnly(own, h);
    R.InstalledSearchIsArrow(c.intercom, e);
    if R.Arrow(c.intercom, e).Some? {
      IntercomChangeArrives(c, R.Arrow(c.intercom, e).value);
    }
  }

  /** While live is active, the announcement commands that change anything are those that release it;
      these end it and free the microphone. */
  lemma LiveEndsIff(own: Seat, h: Trace<Event>, cmd: P.Command)
    requires Run(own, h).ann == P.LIVE
    ensures var c' := Run(own, After(h, AnnCommand(cmd)));
            && (c'.ann == P.ANN_IDLE <==>
                  cmd.ann == P.LIVE && cmd.intercom == P.INTERCOM_IDLE && cmd.liveActive == 0)
            && (c'.ann == P.ANN_IDLE ==> !c'.live && c'.mic == Nobody)
            && (c'.ann != P.ANN_IDLE ==> c' == Run(own, h))
  {
    var c := Run(own, h);
    assert Run(own, After(h, AnnCommand(cmd))) == HandleAnn(c, cmd);
    hide Run, HandleAnn;
    CommandsDuringLive(c, cmd);
  }

  lemma CommandsDuringLive(c: Console, cmd: P.Command)
    requires c.ann == P.LIVE
    ensures HandleAnn(c, cmd) ==
            if cmd.ann == P.LIVE && cmd.intercom == P.INTERCOM_IDLE && cmd.liveActive == 0 then ChangeAnn(c, P.ANN_IDLE)
            else c
  {
    P.DefaultValues(cmd.ann);
    P.DefaultValues(c.ann);
    hide P.Search, ChangeAnn;
    if cmd.ann != P.ANN_IDLE && Wants(c.ann, c.intercom, cmd) {
      if P.Exchange(P.DEFAULT_LIST, c.ann, cmd).entered.Some? {
        OnlyLivePasses(c, cmd);
      }
    }
  }

  /** How many broadcasts a change of intercom state makes: one for leaving a call of its own, one for
      entering one. */
  function Broadcasts(s: R.State, s': R.State): nat {
    (if Busy(s) then 1 else 0) + (if Busy(s') then 1 else 0)
  }

  /** A change of intercom state gives the microphone to a call that is entered and otherwise frees it,
      whoever had it, except that entering monitoring from idle leaves it where it was. */
  lemma ChangeSettlesMic(c: Console, s: R.State)
    requires |c.calls| == SEATS
    ensures var c' := ChangeIntercom(c, s);
            && c'.intercom == s && c'.ann == c.ann && c'.live == c.live && c'.rules == c.rules
            && c'.mic == (if InCall(s) then Intercom else if c.intercom == R.Idle then c.mic else Nobody)
            && |c'.sent| == |c.sent| + Broadcasts(c.intercom, s)
  {
  }

  /** What an event does when it moves the intercom, and when it does not. */
  lemma IntercomEvents(own: Seat, h: Trace<Event>, e: Event)
    requires e.Triggered? || e.IntercomCommand? || e == ForceIntoD2D
    ensures var c, c' := Run(own, h), Run(own, After(h, e));
            && (e == ForceIntoD2D ==> c'.intercom == R.D2D)
            && (if c'.intercom == c.intercom && e != ForceIntoD2D then c' == c
                else
                  && c'.ann == c.ann && c'.live == c.live && |c'.sent| == |c.sent| + Broadcasts(c.intercom, c'.intercom)
                  && c'.mic == (if InCall(c'.intercom) then Intercom
                                else if c.intercom == R.Idle then c.mic else Nobody))
  {
    hide R.Run, R.Lookup, R.IsOn, R.Switching, ChangeIntercom, Wants, EventType, InCall, Broadcasts;
    var c := Run(own, h);
    RulesAreSwitchedOnly(own, h);
    ChangeSettlesMic(c, R.D2D);
    if e != ForceIntoD2D {
      var t := if e.Triggered? then e.trigger else EventType(c.intercom, e.cmd);
      var found := R.Lookup(c.rules, c.intercom, t);
      if found.Some? {
        ChangeSettlesMic(c, found.value);
        R.HangUpStandsBetweenCalls(Switches(h), c.intercom, t, found.value);
        R.InstalledIffArrow(c.intercom, t, found.value);
      }
    }
  }

  /** The other events leave intercom state, occupancy and broadcasts alone. A live announcement that
      starts takes the microphone and lights its button; one that ends, by command or by force, frees
      it; without either the microphone stays where it is. */
  lemma AnnouncementEvents(own: Seat, h: Trace<Event>, e: Event)
    requires e.AnnCommand? || e == ForceAnnIdle
    ensures var c, c' := Run(own, h), Run(own, After(h, e));
            && c'.intercom == c.intercom && c'.calls == c.calls && c'.sent == c.sent && c'.d2d == c.d2d
            && (e == ForceAnnIdle ==> c'.ann == P.ANN_IDLE)
            && (c'.ann == c.ann ==> c' == c)
            && (c'.ann != c.ann ==> c'.mic == (if c'.ann == P.LIVE then Announce else Nobody)
                                    && c'.live == (c'.ann == P.LIVE))
  {
    hide R.Run, P.Exchange, Wants, MicTaken;
    EveryRunIsSafe(own, h);
    if e.AnnCommand? {
      AnnCommandsToggleLive(Run(own, h), e.cmd);
    }
  }

  /** Reports touch the entries of the seats only, and switching touches the rules only. */
  lemma OtherEvents(own: Seat, h: Trace<Event>, e: Event)
    requires e.Report? || e.SwitchRule?
    ensures var c, c' := Run(own, h), Run(own, After(h, e));
            c' == if e.Report? then c.(calls := c'.calls) else c.(rules := c'.rules)
  {
    var c := Run(own, h);
    assert Run(own, After(h, e)) == Step(c, e);
    hide Run, R.Switched;
  }

  /** Leaving monitoring frees the microphone even if a live announcement has it: the announcement goes
      on, and the microphone counts as free. */
  lemma MonitoringDropsTheLiveMic(own: Seat, h: Trace<Event>, e: int)
    requires Run(own, h).intercom == R.Monitor && Run(own, h).ann == P.LIVE
    requires Run(own, After(h, Triggered(e))).intercom != R.Monitor
    ensures var c' := Run(own, After(h, Triggered(e)));
            c'.ann == P.LIVE && c'.live && c'.mic == Nobody && c'.intercom == R.Idle
  {
    hide Run, Step;
    EveryRunIsSafe(own, h);
    IntercomEvents(own, h, Triggered(e));
    CallsInterruptInOrder(own, h, Triggered(e));
  }

  lemma MonitoringDropsTheLiveMicHappens(own: Seat)
    ensures var live := After(Begin, AnnCommand(P.Command(P.LIVE, P.INTERCOM_IDLE, 1, 0, 0)));
            var monitored := After(live, Triggered(R.MONITOR_EVENT_CALL));
            && Run(own, monitored).ann == P.LIVE && Run(own, monitored).mic == Announce
            && var c := Run(own, After(monitored, Triggered(R.MONITOR_EXIT_CALL)));
               c.ann == P.LIVE && c.live && c.mic == Nobody
  {
    var cmd := P.Command(P.LIVE, P.INTERCOM_IDLE, 1, 0, 0);
    var live := After(Begin, AnnCommand(cmd));
    var monitored := After(live, Triggered(R.MONITOR_EVENT_CALL));
    hide HandleAnn, Trigger, R.Run, R.Adding;
    assert Run(own, live) == HandleAnn(Run(own, Begin), cmd);
    LiveStartsIff(own, Begin, cmd);
    hide Run;
    AnnouncementEvents(own, Begin, AnnCommand(cmd));
    InstalledTriggersMove(own, live, R.MONITOR_EVENT_CALL);
    IntercomEvents(own, live, Triggered(R.MONITOR_EVENT_CALL));
    InstalledTriggersMove(own, monitored, R.MONITOR_EXIT_CALL);
    MonitoringDropsTheLiveMic(own, monitored, R.MONITOR_EXIT_CALL);
  }

  // ---------- The console as written ----------

  lemma SafeAfter(c: Console, e: Event)
    requires |c.calls| == SEATS
    ensures Safe(c) ==> Safe(Step(c, e))
  {
    if Safe(c) {
      StepIsSafe(c, e);
    }
  }

  lemma SafeAround(c: Console, s: R.State)
    requires |c.calls| == SEATS
    ensures Safe(c) ==> Safe(ExitIntercom(c).(intercom := R.Idle))
    ensures Safe(c.(intercom := R.Idle)) ==> Safe(EnterIntercom(c, s))
  {
    hide Safe, ExitIntercom, EnterIntercom;
    if Safe(c) {
      ExitIsSafe(c);
    }
    if Safe(c.(intercom := R.Idle)) {
      EnterIsSafe(c, s);
    }
  }

  lemma SafeAnn(c: Console, id: int)
    ensures Safe(c) && id in {P.LIVE, P.ANN_IDLE} ==> Safe(ChangeAnn(c, id))
  {
    hide Safe, ChangeAnn;
    if Safe(c) && id in {P.LIVE, P.ANN_IDLE} {
      AnnChangeIsSafe(c, id);
    }
  }

  /** Every method keeps what every run keeps: the entry points as it is, Exit and Enter by way of what
      holds in idle. */
  class Device {
    const own: Seat
    const table: R.Table
    const calls: array<Call>
    var ann: int
    var intercom: R.State
    var mic: Owner
    var live: bool
    var d2d: bool
    var sent: seq<Call>

    ghost predicate Valid() {
      table.Valid() && calls.Length == SEATS && (calls as object) != table.slots
    }

    ghost function Value(): Console
      reads this, calls, table.slots
    {
      Console(own, table.slots[..], ann, intercom, mic, live, d2d, calls[..], sent)
    }

    constructor (seat: Seat)
      ensures Valid() && fresh(calls) && fresh(table) && fresh(table.slots)
      ensures Value() == Start(seat) && Safe(Value())
    {
      own := seat;
      var rules := R.Install();
      table := rules;
      calls := new Call[SEATS](_ => Call(0, 0));
      ann, intercom, mic, live, d2d, sent := P.ANN_IDLE, R.Idle, Nobody, false, false, [];
      new;
      assert calls[..] == seq(SEATS, _ => Call(0, 0));
    }

    method Broadcast(state: nat)
      requires Valid()
      modifies this`sent, calls
      ensures Value() == Occupy(old(Value()), state)
    {
      calls[own - 1] := Call(own, state);
      sent := sent + [calls[own - 1]];
    }

    /** The exit function of the active intercom state. */
    method Exit()
      requires Valid()
      modifies this, calls
      ensures Value() == ExitIntercom(old(Value()))
      ensures old(Safe(Value())) ==> Safe(Value().(intercom := R.Idle))
    {
      hide Safe;
      SafeAround(Value(), R.Idle);
      if intercom == R.D2D {
        d2d := false;
        mic := Nobody;
        Broadcast(0);
      } else if intercom == R.D2P {
        mic := Nobody;
        Broadcast(0);
      } else if intercom == R.HangUp {
        d2d := false;
        mic := Nobody;
      } else if intercom == R.Monitor {
        mic := Nobody;
      }
    }

    /** Makes an intercom state the active one and calls its enter function. */
    method Enter(s: R.State)
      requires Valid()
      modifies this, calls
      ensures Value() == EnterIntercom(old(Value()), s)
      ensures old(Safe(Value().(intercom := R.Idle))) ==> Safe(Value())
    {
      hide Safe;
      SafeAround(Value(), s);
      intercom := s;
      if s == R.D2D {
        d2d := true;
        mic := Intercom;
        Broadcast(1);
      } else if s == R.D2P {
        mic := Intercom;
        Broadcast(1);
      } else if s == R.HangUp {
        d2d := true;
        mic := Intercom;
      }
    }

    /** StateMachineExchange. */
    method Exchange(trigger: int)
      requires Valid()
      modifies this, calls
      ensures Value() == Trigger(old(Value()), trigger)
      ensures old(Safe(Value())) ==> Safe(Value())
    {
      hide ExitIntercom, EnterIntercom, R.Lookup, Safe;
      SafeAfter(Value(), Triggered(trigger));
      var found := table.Search(intercom, trigger);
      if found.Some? {
        Exit();
        Enter(found.value);
      }
    }

    /** Exit of the active announcement state, then enter of the next. */
    method ChangeAnnouncement(id: int)
      requires Valid()
      modifies this
      ensures Value() == ChangeAnn(old(Value()), id)
      ensures old(Safe(Value())) && id in {P.LIVE, P.ANN_IDLE} ==> Safe(Value())
    {
      hide Safe;
      SafeAnn(Value(), id);
      if ann == P.LIVE {
        live := false;
        mic := Nobody;
      }
      ann := id;
      if id == P.LIVE {
        live := true;
        mic := Announce;
      }
    }

    /** BcuDynamicStateExchange. */
    method DynamicExchange(list: seq<P.Node>, cmd: P.Command) returns (ret: int)
      requires Valid()
      modifies this
      ensures var out := P.Exchange(list, old(ann), cmd);
              && ret == out.ret
              && Value() == match out.entered
                            case Some(id) => ChangeAnn(old(Value()), id)
                            case None => old(Value())
    {
      hide ChangeAnn, P.Search;
      ret := 0;
      if cmd.intercom == P.INTERCOM_IDLE && cmd.ann != P.ANN_IDLE {
        if P.IsAnnouncement(ann) {
          var wanted := P.FindNode(list, cmd.ann);
          var current := P.FindNode(list, ann);
          if wanted.Some? && current.Some? && wanted.value.priority <= current.value.priority {
            var node := wanted.value;
            if P.Releases(cmd) && node.id == current.value.id {
              node := P.IDLE_NODE;
            }
            if node.known {
              ChangeAnnouncement(node.id);
            }
          }
        }
      } else if !(cmd.ann == P.ANN_IDLE && cmd.intercom != P.INTERCOM_IDLE) {
        ret := -1;
      }
    }

    /** ANNStateHangle. */
    method OnAnnCommand(cmd: P.Command)
      requires Valid()
      modifies this
      ensures Value() == HandleAnn(old(Value()), cmd)
      ensures old(Safe(Value())) ==> Safe(Value())
    {
      hide ChangeAnn, P.Exchange, Safe;
      SafeAfter(Value(), AnnCommand(cmd));
      if cmd.ann != P.ANN_IDLE && Wants(ann, intercom, cmd) {
        if !(cmd.ann == P.LIVE && mic != Nobody && cmd.liveActive == 1) {
          var _ := DynamicExchange(P.DEFAULT_LIST, cmd);
        }
      }
    }

    /** IntercomStateHangle. */
    method OnIntercomCommand(cmd: P.Command)
      requires Valid()
      modifies this, calls
      ensures Value() == HandleIntercom(old(Value()), cmd)
      ensures old(Safe(Value())) ==> Safe(Value())
    {
      hide Trigger, Wants, EventType, Safe;
      SafeAfter(Value(), IntercomCommand(cmd));
      if cmd.intercom != P.INTERCOM_IDLE && Wants(ann, intercom, cmd) {
        Exchange(EventType(intercom, cmd));
      }
    }

    /** ForceExitLatestState and ForceExitLiveStateBeforeIntercomm. */
    method ForceIdle()
      requires Valid()
      modifies this
      ensures Value() == Step(old(Value()), ForceAnnIdle)
      ensures old(Safe(Value())) ==> Safe(Value())
    {
      hide Safe;
      SafeAfter(Value(), ForceAnnIdle);
      ChangeAnnouncement(P.ANN_IDLE);
    }

    /** ForceIntoD2D. */
    method ForceDriverCall()
      requires Valid()
      modifies this, calls
      ensures Value() == Step(old(Value()), ForceIntoD2D)
      ensures old(Safe(Value())) ==> Safe(Value())
    {
      hide ExitIntercom, EnterIntercom, Safe;
      SafeAfter(Value(), ForceIntoD2D);
      Exit();
      Enter(R.D2D);
    }

    /** RegisterBcuCallState. */
    method RegisterCall(kind: int, sender: Seat, call: Call)
      requires Valid()
      modifies calls
      ensures Value() == Register(old(Value()), kind, sender, call)
      ensures old(Safe(Value())) ==> Safe(Value())
    {
      hide Safe;
      SafeAfter(Value(), Report(kind, sender, call));
      if kind == 7 && sender != own {
        calls[sender - 1] := call;
      }
    }

    /** BCUEnableRule and BCUDisableRule. */
    method SetRule(rule: R.Rule, on: bool)
      requires Valid()
      modifies table.slots
      ensures Value() == Step(old(Value()), SwitchRule(rule, on))
      ensures old(Safe(Value())) ==> Safe(Value())
    {
      hide R.Switched, Safe;
      SafeAfter(Value(), SwitchRule(rule, on));
      table.Switch(rule, on);
    }
  }
}
