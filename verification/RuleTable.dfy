/** The rule table of the intercom state machine (bcu_function.cxx): slots that are filled, switched
    on and off, and searched for the first rule that fires. */
module RuleTable {
  import opened Bytes

  const SLOTS := 50

  datatype State = Idle | D2D | D2P | HangUp | Monitor

  /** enum event_trigger, bcu_function.h. */
  const PTT_OR_DRIVER_CALL := 12
  const PTT_RELEASE_AND_DRIVER_RELEASE := 13
  const CONFIRM_PCU_CALL := 14
  const CONFIRM_RELEASE_PCU := 15
  const TIME_OUT := 16
  const TRANSFER_TO_D2D_OR_DRIVER_CALL := 17
  const CONFIRM_TRANSFER_TO_D2P := 18
  const MONITOR_EVENT_CALL := 19
  const MONITOR_EXIT_CALL := 20

  datatype Rule = Rule(source: State, target: State, trigger: int)

  datatype Slot = Empty | Taken(rule: Rule, enabled: bool)

  // ---------- The table as a sequence of slots ----------

  function Cleared(): seq<Slot> {
    seq(SLOTS, _ => Empty)
  }

  function FirstEmpty(t: seq<Slot>): (i: nat)
    ensures i <= |t| && (i < |t| ==> t[i].Empty?)
    ensures forall j :: 0 <= j < i ==> t[j].Taken?
  {
    if t == [] || t[0].Empty? then 0
    else
      var i := 1 + FirstEmpty(t[1..]);
      assert forall j :: 0 < j < i ==> t[j] == t[1..][j - 1];
      i
  }

  predicate Holds(s: Slot, r: Rule) {
    s.Taken? && s.rule == r
  }

  function FirstHolding(t: seq<Slot>, r: Rule): (i: nat)
    ensures i <= |t| && (i < |t| ==> Holds(t[i], r))
    ensures forall j :: 0 <= j < i ==> !Holds(t[j], r)
  {
    if t == [] || Holds(t[0], r) then 0
    else
      var i := 1 + FirstHolding(t[1..], r);
      assert forall j :: 0 < j < i ==> t[j] == t[1..][j - 1];
      i
  }

  predicate Fires(s: Slot, state: State, trigger: int) {
    s.Taken? && s.enabled && s.rule.source == state && s.rule.trigger == trigger
  }

  function FirstFiring(t: seq<Slot>, state: State, trigger: int): (i: nat)
    ensures i <= |t| && (i < |t| ==> Fires(t[i], state, trigger))
    ensures forall j :: 0 <= j < i ==> !Fires(t[j], state, trigger)
  {
    if t == [] || Fires(t[0], state, trigger) then 0
    else
      var i := 1 + FirstFiring(t[1..], state, trigger);
      assert forall j :: 0 < j < i ==> t[j] == t[1..][j - 1];
      i
  }

  function Added(t: seq<Slot>, r: Rule): seq<Slot> {
    var i := FirstEmpty(t);
    if i < |t| then t[i := Taken(r, true)] else t
  }

  function Switched(t: seq<Slot>, r: Rule, on: bool): seq<Slot> {
    var i := FirstHolding(t, r);
    if i < |t| then t[i := Taken(r, on)] else t
  }

  /** The state a trigger leads to. */
  function Lookup(t: seq<Slot>, state: State, trigger: int): Option<State> {
    var i := FirstFiring(t, state, trigger);
    if i < |t| then Some(t[i].rule.target) else None
  }

  // ---------- Histories, and what they mean without any table ----------

  datatype Op = Add(added: Rule) | Enable(switched: Rule) | Disable(switched: Rule)

  function Apply(t: seq<Slot>, op: Op): seq<Slot> {
    match op
    case Add(r) => Added(t, r)
    case Enable(r) => Switched(t, r, true)
    case Disable(r) => Switched(t, r, false)
  }

  function Run(h: Trace<Op>): seq<Slot> {
    match h
    case Begin => Cleared()
    case After(past, op) => Apply(Run(past), op)
  }

  /** The rules added so far, in order. */
  function Rules(h: Trace<Op>): seq<Rule> {
    match h
    case Begin => []
    case After(past, op) => if op.Add? then Rules(past) + [op.added] else Rules(past)
  }

  /** Whether a rule was added and not disabled since it was last enabled. */
  predicate IsOn(h: Trace<Op>, r: Rule) {
    match h
    case Begin => false
    case After(past, Add(r')) => r' == r || IsOn(past, r)
    case After(past, Enable(r')) => (r' == r && r in Rules(past)) || IsOn(past, r)
    case After(past, Disable(r')) => r' != r && IsOn(past, r)
  }

  /** No two rules start from the same state on the same trigger. */
  predicate Deterministic(rules: seq<Rule>) {
    forall i, j :: 0 <= i < j < |rules| ==> rules[i].source != rules[j].source || rules[i].trigger != rules[j].trigger
  }

  /** The table holds the rules in order, each switched as its history says. */
  ghost predicate Mirrors(t: seq<Slot>, h: Trace<Op>) {
    && |t| == SLOTS && |Rules(h)| <= SLOTS
    && (forall i :: 0 <= i < |Rules(h)| ==> t[i] == Taken(Rules(h)[i], IsOn(h, Rules(h)[i])))
    && (forall i :: |Rules(h)| <= i < SLOTS ==> t[i] == Empty)
  }

  lemma {:induction false} OnlyAddedRulesAreOn(h: Trace<Op>, r: Rule)
    ensures IsOn(h, r) ==> r in Rules(h)
  {
    if h.After? {
      OnlyAddedRulesAreOn(h.past, r);
    }
  }

  lemma AddMirrors(t: seq<Slot>, h: Trace<Op>, r: Rule)
    requires Mirrors(t, h) && |Rules(h)| < SLOTS && Deterministic(Rules(h) + [r])
    ensures Mirrors(Added(t, r), After(h, Add(r)))
  {
    var n, rules := |Rules(h)|, Rules(h) + [r];
    assert t[n] == Empty;
    assert FirstEmpty(t) == n;
    assert forall i :: 0 <= i < n ==> rules[i] == Rules(h)[i] && rules[i] != rules[n];
  }

  lemma SwitchMirrors(t: seq<Slot>, h: Trace<Op>, r: Rule, on: bool)
    requires Mirrors(t, h) && Deterministic(Rules(h))
    ensures Mirrors(Switched(t, r, on), After(h, if on then Enable(r) else Disable(r)))
  {
    var k := FirstHolding(t, r);
    if k < SLOTS {
      assert k < |Rules(h)| && Rules(h)[k] == r;
      assert forall i :: 0 <= i < |Rules(h)| && i != k ==> Rules(h)[i] != r;
    } else {
      assert forall i :: 0 <= i < |Rules(h)| ==> !Holds(t[i], r) && Rules(h)[i] != r;
    }
  }

  lemma {:induction false} RunMirrors(h: Trace<Op>)
    requires |Rules(h)| <= SLOTS && Deterministic(Rules(h))
    ensures Mirrors(Run(h), h)
  {
    match h
    case Begin =>
    case After(past, op) =>
      assert Deterministic(Rules(past)) by {
        assert forall i :: 0 <= i < |Rules(past)| ==> Rules(h)[i] == Rules(past)[i];
      }
      RunMirrors(past);
      match op {
        case Add(r) => AddMirrors(Run(past), past, r);
        case Enable(r) => SwitchMirrors(Run(past), past, r, true);
        case Disable(r) => SwitchMirrors(Run(past), past, r, false);
      }
  }

  /** While at most 50 rules with different (source, trigger) have been added, the first-match search is
      the partial map of the enabled rules, for every order of adding, enabling and disabling. */
  lemma SearchIsTheMapOfEnabledRules(h: Trace<Op>, s: State, e: int, target: State)
    requires |Rules(h)| <= SLOTS && Deterministic(Rules(h))
    ensures Lookup(Run(h), s, e) == Some(target) <==> IsOn(h, Rule(s, target, e))
  {
    hide Run, IsOn;
    RunMirrors(h);
    OnlyAddedRulesAreOn(h, Rule(s, target, e));
    var t, i := Run(h), FirstFiring(Run(h), s, e);
    if i < SLOTS {
      assert t[i] == Taken(Rules(h)[i], IsOn(h, Rules(h)[i]));
    }
    if IsOn(h, Rule(s, target, e)) {
      var k :| 0 <= k < |Rules(h)| && Rules(h)[k] == Rule(s, target, e);
      assert t[k] == Taken(Rules(h)[k], true);
      assert Fires(t[k], s, e);
    }
  }

  /** Both conditions are needed: a full table drops the rule, and of two rules with the same source
      and trigger only the first ever fires while it is enabled. */
  lemma FullTableDropsRules(t: seq<Slot>, r: Rule)
    ensures Added(t, r) == t <==> forall i :: 0 <= i < |t| ==> t[i].Taken?
  {
    var i := FirstEmpty(t);
    if i < |t| {
      assert Added(t, r)[i] != t[i];
    }
  }

  lemma EarlierRuleShadows(h: Trace<Op>, first: Rule, second: Rule)
    requires |Rules(h)| < SLOTS && Deterministic(Rules(h)) && IsOn(h, first)
    requires second.source == first.source && second.trigger == first.trigger
    ensures Lookup(Run(After(h, Add(second))), second.source, second.trigger) == Some(first.target)
  {
    hide Run, IsOn, Rules, Added;
    RunMirrors(h);
    SearchIsTheMapOfEnabledRules(h, first.source, first.trigger, first.target);
    RunAdds(h, second);
    var i := FirstFiring(Run(h), first.source, first.trigger);
    EarlierSlotsStay(Run(h), second, i);
    hide Mirrors;
    var t' := Added(Run(h), second);
    assert Fires(t'[i], first.source, first.trigger);
  }

  lemma RunAdds(h: Trace<Op>, r: Rule)
    ensures Run(After(h, Add(r))) == Added(Run(h), r)
  {
  }

  /** Adding leaves the slots in front of a taken one alone, and that slot too, if no slot in front of it
      is empty. */
  lemma EarlierSlotsStay(t: seq<Slot>, r: Rule, i: nat)
    requires i < |t| && forall j :: 0 <= j <= i ==> t[j].Taken?
    ensures |Added(t, r)| == |t| && forall j :: 0 <= j <= i ==> Added(t, r)[j] == t[j]
  {
  }

  // ---------- The installed rules ----------

  const INSTALLED: seq<Rule> := [
    Rule(Idle, D2D, PTT_OR_DRIVER_CALL),
    Rule(Idle, D2P, CONFIRM_PCU_CALL),
    Rule(Idle, Monitor, MONITOR_EVENT_CALL),
    Rule(Monitor, Idle, MONITOR_EXIT_CALL),
    Rule(D2D, Idle, PTT_RELEASE_AND_DRIVER_RELEASE),
    Rule(D2P, Idle, CONFIRM_RELEASE_PCU),
    Rule(D2P, HangUp, TRANSFER_TO_D2D_OR_DRIVER_CALL),
    Rule(HangUp, D2D, TIME_OUT),
    Rule(HangUp, D2P, CONFIRM_TRANSFER_TO_D2P)]

  function Adding(rules: seq<Rule>): Trace<Op>
    decreases |rules|
  {
    if rules == [] then Begin else After(Adding(rules[..|rules| - 1]), Add(rules[|rules| - 1]))
  }

  lemma {:induction false} AddingAdds(rules: seq<Rule>)
    ensures Rules(Adding(rules)) == rules
    ensures forall r :: IsOn(Adding(rules), r) <==> r in rules
    decreases |rules|
  {
    if rules != [] {
      AddingAdds(rules[..|rules| - 1]);
      assert rules == rules[..|rules| - 1] + [rules[|rules| - 1]];
    }
  }

  /** The table after installation and any enabling and disabling of rules. */
  ghost predicate Switching(h: Trace<Op>) {
    h == Adding(INSTALLED) || (h.After? && !h.step.Add? && Switching(h.past))
  }

  lemma {:induction false} SwitchingKeepsRules(h: Trace<Op>)
    requires Switching(h)
    ensures Rules(h) == INSTALLED
  {
    if h == Adding(INSTALLED) {
      AddingAdds(INSTALLED);
    } else {
      SwitchingKeepsRules(h.past);
    }
  }

  /** However rules are switched, a state is left only along an installed rule: hang-up is entered only
      from a passenger call and left only to a driver or passenger call. */
  lemma HangUpStandsBetweenCalls(h: Trace<Op>, s: State, e: int, target: State)
    requires Switching(h) && Lookup(Run(h), s, e) == Some(target)
    ensures Rule(s, target, e) in INSTALLED
    ensures target == HangUp ==> s == D2P
    ensures s == HangUp ==> target in {D2D, D2P}
  {
    SwitchingKeepsRules(h);
    SearchIsTheMapOfEnabledRules(h, s, e, target);
    OnlyAddedRulesAreOn(h, Rule(s, target, e));
  }

  /** The search under any switching: the installed machine, restricted to the rules that are on. */
  lemma SwitchedSearch(h: Trace<Op>, s: State, e: int, target: State)
    requires Switching(h)
    ensures Lookup(Run(h), s, e) == Some(target) <==> IsOn(h, Rule(s, target, e))
    ensures IsOn(h, Rule(s, target, e)) ==> Arrow(s, e) == Some(target)
  {
    hide Run, IsOn, Lookup;
    SwitchingKeepsRules(h);
    SearchIsTheMapOfEnabledRules(h, s, e, target);
    OnlyAddedRulesAreOn(h, Rule(s, target, e));
    InstalledIffArrow(s, e, target);
  }

  /** With all rules enabled every installed rule fires. */
  lemma InstalledTable(s: State, e: int, target: State)
    ensures Lookup(Run(Adding(INSTALLED)), s, e) == Some(target) <==> Rule(s, target, e) in INSTALLED
  {
    AddingAdds(INSTALLED);
    SearchIsTheMapOfEnabledRules(Adding(INSTALLED), s, e, target);
  }

  /** The installed machine, state by state. */
  function Arrow(s: State, e: int): Option<State> {
    match s
    case Idle =>
      if e == PTT_OR_DRIVER_CALL then Some(D2D)
      else if e == CONFIRM_PCU_CALL then Some(D2P)
      else if e == MONITOR_EVENT_CALL then Some(Monitor)
      else None
    case D2D => if e == PTT_RELEASE_AND_DRIVER_RELEASE then Some(Idle) else None
    case D2P =>
      if e == CONFIRM_RELEASE_PCU then Some(Idle)
      else if e == TRANSFER_TO_D2D_OR_DRIVER_CALL then Some(HangUp)
      else None
    case HangUp =>
      if e == TIME_OUT then Some(D2D) else if e == CONFIRM_TRANSFER_TO_D2P then Some(D2P) else None
    case Monitor => if e == MONITOR_EXIT_CALL then Some(Idle) else None
  }

  lemma InstalledIffArrow(s: State, e: int, target: State)
    ensures Rule(s, target, e) in INSTALLED <==> Arrow(s, e) == Some(target)
  {
    if Arrow(s, e) == Some(target) {
      var k := match s
        case Idle => if target == D2D then 0 else if target == D2P then 1 else 2
        case Monitor => 3
        case D2D => 4
        case D2P => if target == Idle then 5 else 6
        case HangUp => if target == D2D then 7 else 8;
      assert INSTALLED[k] == Rule(s, target, e);
    }
  }

  /** The search in the table as installed, all rules enabled, is that machine. */
  lemma InstalledSearchIsArrow(s: State, e: int)
    ensures Lookup(Run(Adding(INSTALLED)), s, e) == Arrow(s, e)
  {
    hide Run, Lookup;
    var found, arrow := Lookup(Run(Adding(INSTALLED)), s, e), Arrow(s, e);
    var target := if found.Some? then found.value else if arrow.Some? then arrow.value else Idle;
    InstalledTable(s, e, target);
    InstalledIffArrow(s, e, target);
  }

  /** Where a run of triggers leads; a trigger without a rule changes nothing. */
  function Drive(t: seq<Slot>, s: State, triggers: seq<int>): State
    decreases |triggers|
  {
    if triggers == [] then s
    else
      match Lookup(t, s, triggers[0])
      case Some(s') => Drive(t, s', triggers[1..])
      case None => Drive(t, s, triggers[1..])
  }

  function WayToIdle(s: State): seq<int> {
    match s
    case Idle => []
    case D2D => [PTT_RELEASE_AND_DRIVER_RELEASE]
    case D2P => [CONFIRM_RELEASE_PCU]
    case HangUp => [TIME_OUT, PTT_RELEASE_AND_DRIVER_RELEASE]
    case Monitor => [MONITOR_EXIT_CALL]
  }

  /** From every state, reached or not, the enabled table leads back to idle. */
  lemma IdleIsAlwaysReachable(s: State)
    ensures Drive(Run(Adding(INSTALLED)), s, WayToIdle(s)) == Idle
  {
    hide Run, Lookup, Adding;
    var t, way := Run(Adding(INSTALLED)), WayToIdle(s);
    if s != Idle {
      InstalledSearchIsArrow(s, way[0]);
      InstalledSearchIsArrow(D2D, PTT_RELEASE_AND_DRIVER_RELEASE);
      if s == HangUp {
        assert way[1..] == [PTT_RELEASE_AND_DRIVER_RELEASE] && way[1..][1..] == [];
        assert Drive(t, D2D, way[1..]) == Idle;
      } else {
        assert way[1..] == [];
      }
    }
  }

  // ---------- The table as written ----------

  class Table {
    const slots: array<Slot>

    ghost predicate Valid() {
      slots.Length == SLOTS
    }

    /** BCURuleInit. */
    constructor ()
      ensures Valid() && fresh(slots) && slots[..] == Cleared()
    {
      slots := new Slot[SLOTS](_ => Empty);
      new;
      assert slots[..] == Cleared();
    }

    /** BCUAddRule. */
    method AddRule(r: Rule)
      requires Valid()
      modifies slots
      ensures slots[..] == Added(old(slots[..]), r)
    {
      ghost var t := slots[..];
      for i := 0 to SLOTS
        invariant slots[..] == t && forall j :: 0 <= j < i ==> t[j].Taken?
      {
        if slots[i].Empty? {
          slots[i] := Taken(r, true);
          assert FirstEmpty(t) == i by {
            assert t[i].Empty?;
          }
          return;
        }
      }
    }

    /** BCUEnableRule and BCUDisableRule. */
    method Switch(r: Rule, on: bool)
      requires Valid()
      modifies slots
      ensures slots[..] == Switched(old(slots[..]), r, on)
    {
      ghost var t := slots[..];
      for i := 0 to SLOTS
        invariant slots[..] == t && forall j :: 0 <= j < i ==> !Holds(t[j], r)
      {
        var slot := slots[i];
        if slot.Taken? && slot.rule.source == r.source && slot.rule.target == r.target
           && slot.rule.trigger == r.trigger {
          slots[i] := slot.(enabled := on);
          assert FirstHolding(t, r) == i by {
            assert Holds(t[i], r);
          }
          return;
        }
      }
    }

    /** The search of StateMachineExchange and MoniortStateMachineExchange. */
    method Search(state: State, trigger: int) returns (found: Option<State>)
      requires Valid()
      ensures found == Lookup(slots[..], state, trigger)
    {
      ghost var t := slots[..];
      for i := 0 to SLOTS
        invariant forall j :: 0 <= j < i ==> !Fires(t[j], state, trigger)
      {
        var slot := slots[i];
        if slot.Taken? && slot.enabled && slot.rule.source == state && slot.rule.trigger == trigger {
          assert FirstFiring(t, state, trigger) == i by {
            assert Fires(t[i], state, trigger);
          }
          return Some(slot.rule.target);
        }
      }
      return None;
    }
  }

  /** BCURuleTableInit. */
  method Install() returns (table: Table)
    ensures table.Valid() && fresh(table) && fresh(table.slots)
    ensures table.slots[..] == Run(Adding(INSTALLED))
  {
    table := new Table();
    for i := 0 to |INSTALLED|
      invariant table.Valid() && fresh(table.slots)
      invariant table.slots[..] == Run(Adding(INSTALLED[..i]))
    {
      table.AddRule(INSTALLED[i]);
      assert INSTALLED[..i + 1][..i] == INSTALLED[..i];
    }
    assert INSTALLED[..|INSTALLED|] == INSTALLED;
  }
}
