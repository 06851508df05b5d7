/** The pause inside a change of intercom state (bcu_function.cxx, StateMachineExchange): the old state
    is left and the state pointer moved, then the thread sleeps for ten ticks, then the state that the
    pointer shows by now is entered. Meanwhile the screen thread and the control thread can each run.

    What every run keeps when a change is one step, it keeps with the pauses as long as no exchange
    begins in a pause; and if one does, it depends on the two states exactly. */
module ConsolePauses {
  import opened Bytes
  import R = RuleTable
  import P = Priority
  import C = Console

  /** The console, and how many threads sleep between leaving and entering. */
  datatype State = State(c: C.Console, paused: nat)

  /** The two halves of an exchange, and everything that happens without a pause. */
  datatype Event =
    | Leave(trigger: int)
    | LeaveOn(cmd: P.Command)
    | Enter
    | Other(e: C.Event)

  /** The first half: the exit function, and the pointer. */
  function Left(c: C.Console, s: R.State): (c': C.Console)
    requires |c.calls| == C.SEATS
    ensures c'.own == c.own && |c'.calls| == C.SEATS
  {
    C.ExitIntercom(c).(intercom := s)
  }

  /** The second half: the enter function of the state the pointer shows. */
  function Entered(c: C.Console): (c': C.Console)
    requires |c.calls| == C.SEATS
    ensures c'.own == c.own && |c'.calls| == C.SEATS
  {
    C.EnterIntercom(c, c.intercom)
  }

  function Exchange(s: State, trigger: int): (s': State)
    requires |s.c.calls| == C.SEATS
    ensures s'.c.own == s.c.own && |s'.c.calls| == C.SEATS
  {
    match R.Lookup(s.c.rules, s.c.intercom, trigger)
    case Some(target) => State(Left(s.c, target), s.paused + 1)
    case None => s
  }

  /** The trigger an event hands to the exchange, if it does. */
  function TriggerOf(c: C.Console, e: Event): Option<int> {
    match e
    case Leave(trigger) => Some(trigger)
    case LeaveOn(cmd) =>
      if cmd.intercom != P.INTERCOM_IDLE && C.Wants(c.ann, c.intercom, cmd)
      then Some(C.EventType(c.intercom, cmd)) else None
    case _ => None
  }

  /** Events without a pause; the others are split into Leave and Enter. */
  predicate Prompt(e: C.Event) {
    !e.Triggered? && !e.IntercomCommand?
  }

  function Step(s: State, e: Event): (s': State)
    requires |s.c.calls| == C.SEATS
    ensures s'.c.own == s.c.own && |s'.c.calls| == C.SEATS
  {
    match e
    case Enter => if s.paused > 0 then State(Entered(s.c), s.paused - 1) else s
    case Other(e') => if Prompt(e') then s.(c := C.Step(s.c, e')) else s
    case _ => (
      match TriggerOf(s.c, e)
      case Some(trigger) => Exchange(s, trigger)
      case None => s)
  }

  function Run(own: C.Seat, h: Trace<Event>): (s: State)
    ensures s.c.own == own && |s.c.calls| == C.SEATS
  {
    match h
    case Begin => State(C.Start(own), 0)
    case After(past, e) => Step(Run(own, past), e)
  }

  /** The event makes a change of intercom state begin. */
  predicate Begins(s: State, e: Event)
    requires |s.c.calls| == C.SEATS
  {
    Step(s, e).paused > s.paused || e == Other(C.ForceIntoD2D)
  }

  /** No change begins in the pause of another. */
  predicate Orderly(own: C.Seat, h: Trace<Event>) {
    h.After? ==> Orderly(own, h.past) && !(Run(own, h.past).paused > 0 && Begins(Run(own, h.past), h.step))
  }

  /** In a pause everything is as in idle, whatever the pointer shows. */
  predicate Safe(s: State) {
    C.Safe(if s.paused == 0 then s.c else s.c.(intercom := R.Idle))
  }

  // ---------- The two halves ----------

  /** Without interference the two halves are the change made in one step. */
  lemma HalvesMakeAChange(c: C.Console, s: R.State)
    requires |c.calls| == C.SEATS
    ensures Entered(Left(c, s)) == C.ChangeIntercom(c, s)
  {
  }

  lemma LeavingIsSafe(c: C.Console, s: R.State)
    requires C.Safe(c)
    ensures C.Safe(Left(c, s).(intercom := R.Idle))
  {
    hide C.Safe, C.ExitIntercom;
    C.ExitIsSafe(c);
  }

  lemma EnteringIsSafe(c: C.Console)
    requires |c.calls| == C.SEATS && C.Safe(c.(intercom := R.Idle))
    ensures C.Safe(Entered(c))
  {
    hide C.Safe, C.EnterIntercom;
    C.EnterIsSafe(c, c.intercom);
  }

  /** What goes on during a pause, short of another change. */
  lemma PromptIsSafe(c: C.Console, e: C.Event)
    requires |c.calls| == C.SEATS && C.Safe(c.(intercom := R.Idle)) && Prompt(e) && e != C.ForceIntoD2D
    ensures C.Safe(C.Step(c, e).(intercom := R.Idle))
  {
    hide C.ChangeAnn, C.Alternates, R.Switched, P.Exchange, C.Wants;
    var idle := c.(intercom := R.Idle);
    forall id: int {
      ChangeAnnCommutes(c, id);
    }
    C.AnnChangeIsSafe(idle, P.LIVE);
    C.AnnChangeIsSafe(idle, P.ANN_IDLE);
    if e.AnnCommand? && C.HandleAnn(c, e.cmd) != c {
      C.OnlyLivePasses(c, e.cmd);
    }
  }

  lemma ChangeAnnCommutes(c: C.Console, id: int)
    ensures C.ChangeAnn(c, id).(intercom := R.Idle) == C.ChangeAnn(c.(intercom := R.Idle), id)
  {
  }

  // ---------- Whole runs ----------

  lemma StepIsSafe(s: State, e: Event)
    requires |s.c.calls| == C.SEATS && Safe(s) && s.paused <= 1 && !(s.paused > 0 && Begins(s, e))
    ensures Safe(Step(s, e)) && Step(s, e).paused <= 1
  {
    hide Left, Entered, C.Safe, C.Step, R.Lookup, TriggerOf;
    match e
    case Enter =>
      if s.paused > 0 {
        EnteringIsSafe(s.c);
      }
    case Other(e') =>
      if Prompt(e') && s.paused > 0 {
        PromptIsSafe(s.c, e');
      } else if Prompt(e') {
        C.StepIsSafe(s.c, e');
      }
    case _ =>
      if s.paused == 0 && Step(s, e).paused > 0 {
        LeavingIsSafe(s.c, Step(s, e).c.intercom);
        LeftArrives(s.c, R.Lookup(s.c.rules, s.c.intercom, TriggerOf(s.c, e).value).value);
      }
  }

  lemma LeftArrives(c: C.Console, s: R.State)
    requires |c.calls| == C.SEATS
    ensures Left(c, s).intercom == s
  {
  }

  /** Every run in which no change begins in the pause of another keeps what runs keep whose changes are
      single steps; in a pause everything is as in idle. */
  lemma {:induction false} OrderlyRunsAreSafe(own: C.Seat, h: Trace<Event>)
    requires Orderly(own, h)
    ensures Safe(Run(own, h)) && Run(own, h).paused <= 1
  {
    hide Safe, Step, Begins;
    match h
    case Begin =>
      StartIsSafe(own);
    case After(past, e) =>
      OrderlyRunsAreSafe(own, past);
      StepIsSafe(Run(own, past), e);
  }

  lemma StartIsSafe(own: C.Seat)
    ensures Safe(State(C.Start(own), 0))
  {
    hide C.Step;
    C.EveryRunIsSafe(own, Begin);
  }

  // ---------- A change in the pause of another ----------

  /** The second change leaves the state that was not entered yet, and both threads then enter the
      second target: safe exactly if neither target is a call that occupies the seat. */
  lemma OverlapIsSafeIff(c: C.Console, target: R.State)
    requires |c.calls| == C.SEATS && C.Safe(c.(intercom := R.Idle))
    ensures C.Safe(Entered(Entered(Left(c, target)))) <==> !C.Busy(c.intercom) && !C.Busy(target)
  {
    if C.Busy(c.intercom) {
      FreeComesFirst(c, target);
    } else if C.Busy(target) {
      OccupiedComesTwice(c, target);
    } else {
      IdleStatesOverlap(c, target);
    }
  }

  lemma FreeComesFirst(c: C.Console, target: R.State)
    requires |c.calls| == C.SEATS && |c.sent| % 2 == 0 && C.Busy(c.intercom)
    ensures !C.Safe(Entered(Entered(Left(c, target))))
  {
    assert Left(c, target).sent == c.sent + [C.Call(c.own, 0)];
    assert Entered(Entered(Left(c, target))).sent[|c.sent|] == C.Call(c.own, 0);
  }

  lemma OccupiedComesTwice(c: C.Console, target: R.State)
    requires |c.calls| == C.SEATS && |c.sent| % 2 == 0 && !C.Busy(c.intercom) && C.Busy(target)
    ensures !C.Safe(Entered(Entered(Left(c, target))))
  {
    assert Left(c, target).sent == c.sent;
    assert Entered(Entered(Left(c, target))).sent[|c.sent| + 1] == C.Call(c.own, 1);
  }

  lemma IdleStatesOverlap(c: C.Console, target: R.State)
    requires |c.calls| == C.SEATS && C.Safe(c.(intercom := R.Idle)) && !C.Busy(c.intercom) && !C.Busy(target)
    ensures C.Safe(Entered(Entered(Left(c, target))))
  {
    hide C.Alternates;
  }

  /** It happens: a driver call released in the pause before it is entered broadcasts a free seat that
      was never occupied. */
  lemma ReleaseInPauseBreaks(own: C.Seat)
    ensures var h := After(After(After(After(Begin, Leave(R.PTT_OR_DRIVER_CALL)),
                                       Leave(R.PTT_RELEASE_AND_DRIVER_RELEASE)), Enter), Enter);
            var s := Run(own, h);
            s.paused == 0 && s.c.intercom == R.Idle && s.c.sent == [C.Call(own, 0)] && !Safe(s)
  {
    R.InstalledSearchIsArrow(R.Idle, R.PTT_OR_DRIVER_CALL);
    R.InstalledSearchIsArrow(R.D2D, R.PTT_RELEASE_AND_DRIVER_RELEASE);
    hide R.Run, R.Lookup, R.Adding;
    var h1 := After(Begin, Leave(R.PTT_OR_DRIVER_CALL));
    var h2 := After(h1, Leave(R.PTT_RELEASE_AND_DRIVER_RELEASE));
    assert Run(own, h1).c.intercom == R.D2D && Run(own, h1).c.sent == [];
    assert Run(own, h2).c.intercom == R.Idle && Run(own, h2).c.sent == [C.Call(own, 0)];
    assert Run(own, h2).paused == 2;
    var s := Run(own, After(After(h2, Enter), Enter));
    assert s.c.sent[0] == C.Call(own, 0);
  }
}
