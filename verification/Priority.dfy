/** The priority list of announcements and the exchange it arbitrates (bcu_state_machine.cxx). */
module Priority {
  import opened Bytes

  const LIVE := 1
  const OCC := 2
  const EMERG := 3
  const MANUAL := 4
  const TMS_MANUAL := 5
  const TMS_AUTO := 6
  const D2D := 7
  const D2P := 8
  const D2D_HANGUP_D2P := 9
  const D2P_PENDING := 10
  const LINE_NUMBER := 11
  const MIC_3D5 := 12
  const ANN_IDLE := 254
  const INTERCOM_IDLE := 255
  const UINT_MAX := 0xFFFFFFFF

  /** The parts of send_infomation_t that the state machines look at. */
  datatype Command = Command(ann: int, intercom: int, liveActive: int, d2dActive: int, d2pActive: int)

  /** A list node; `known` says that this_state_process is not NULL. */
  datatype Node = Node(id: int, priority: nat, known: bool)

  // ---------- Building the list ----------

  datatype Named = Named(name: string, number: nat)

  const OPTIONS: seq<Named> := [
    Named("OCC", OCC), Named("MIC_3D5", MIC_3D5), Named("LIVE", LIVE), Named("EMERG", EMERG),
    Named("MANUAL", MANUAL), Named("TMS-MANUAL", TMS_MANUAL), Named("TMS-AUTO", TMS_AUTO),
    Named("ANN-IDLE", ANN_IDLE), Named("D2D", D2D), Named("D2P", D2P), Named("D2DXD2P", D2D_HANGUP_D2P),
    Named("D2PPEND", D2P_PENDING), Named("INTERCOM-IDLE", INTERCOM_IDLE), Named("LINENO", LINE_NUMBER)]

  const DEFAULTS: seq<Named> := [
    Named("OCC", 1), Named("MIC_3D5", 2), Named("EMERG", 4), Named("LIVE", 3), Named("TMS-AUTO", 6),
    Named("MANUAL", 5), Named("TMS-MANUAL", 7)]

  /** The ids of bcu_all_states. */
  predicate HasProcess(id: int) {
    id in {TMS_AUTO, ANN_IDLE, LIVE, OCC, MIC_3D5, EMERG, MANUAL, INTERCOM_IDLE, D2D, D2P, D2D_HANGUP_D2P}
  }

  /** `strncmp` over the shorter length. */
  predicate Matches(a: string, b: string) {
    a <= b || b <= a
  }

  function IdOf(options: seq<Named>, name: string): nat {
    if options == [] then UINT_MAX
    else if Matches(options[0].name, name) then options[0].number
    else IdOf(options[1..], name)
  }

  const IDLE_NODE := Node(ANN_IDLE, UINT_MAX, true)

  function NodeFor(entry: Named): Node {
    var id := IdOf(OPTIONS, entry.name);
    Node(id, entry.number, HasProcess(id))
  }

  function NodesFor(table: seq<Named>): seq<Node> {
    if table == [] then [] else [NodeFor(table[|table| - 1])] + NodesFor(table[..|table| - 1])
  }

  /** The idle node, then the table from its end to its front. */
  function ListFor(table: seq<Named>): seq<Node> {
    [IDLE_NODE] + NodesFor(table)
  }

  method FindId(name: string) returns (id: nat)
    ensures id == IdOf(OPTIONS, name)
  {
    var j := 0;
    while j < |OPTIONS|
      invariant 0 <= j <= |OPTIONS| && IdOf(OPTIONS, name) == IdOf(OPTIONS[j..], name)
    {
      if Matches(OPTIONS[j].name, name) {
        return OPTIONS[j].number;
      }
      j := j + 1;
    }
    return UINT_MAX;
  }

  /** BcuAnnStateCreatePriorityList; the nodes are appended one behind the other. */
  method CreateList(table: seq<Named>) returns (list: seq<Node>)
    ensures list == ListFor(table)
  {
    list := [IDLE_NODE];
    assert table[..|table|] == table;
    var i := |table|;
    while i > 0
      invariant 0 <= i <= |table|
      invariant ListFor(table) == list + NodesFor(table[..i])
    {
      var id := FindId(table[i - 1].name);
      list := list + [Node(id, table[i - 1].number, HasProcess(id))];
      assert table[..i][..i - 1] == table[..i - 1];
      i := i - 1;
    }
  }

  // ---------- Searching it ----------

  function Search(list: seq<Node>, id: int): (found: Option<Node>)
    ensures found.Some? ==> found.value in list && found.value.id == id
    ensures found.None? ==> forall n :: n in list ==> n.id != id
  {
    if list == [] then None
    else if list[0].id == id then Some(list[0])
    else Search(list[1..], id)
  }

  /** BcuAnnStatePriorityListSearch. */
  method FindNode(list: seq<Node>, id: int) returns (found: Option<Node>)
    ensures found == Search(list, id)
  {
    var current := 0;
    while current < |list|
      invariant 0 <= current <= |list| && Search(list, id) == Search(list[current..], id)
    {
      if list[current].id == id {
        return Some(list[current]);
      }
      current := current + 1;
    }
    return None;
  }

  predicate IsAnnouncement(id: int) {
    id in {OCC, LIVE, MIC_3D5, EMERG, MANUAL, TMS_MANUAL, TMS_AUTO, ANN_IDLE}
  }

  lemma {:induction false} FirstMatchWins(options: seq<Named>, name: string, k: nat)
    requires k < |options| && Matches(options[k].name, name)
    requires forall j :: 0 <= j < k ==> !Matches(options[j].name, name)
    ensures IdOf(options, name) == options[k].number
  {
    if k > 0 {
      assert forall j :: 0 <= j < k - 1 ==> options[1..][j] == options[j + 1];
      FirstMatchWins(options[1..], name, k - 1);
    }
  }

  lemma DifferentLetters(a: string, b: string, p: nat)
    requires p < |a| && p < |b| && a[p] != b[p]
    ensures !Matches(a, b)
  {
  }

  /** Which letter tells an option from the earlier ones. */
  function Letter(i: nat, j: nat): nat {
    if {i, j} == {1, 4} then 1
    else if {i, j} == {5, 6} then 4
    else if {i, j} == {8, 9} || {i, j} == {2, 13} then 2
    else 0
  }

  lemma FirstOptionsDiffer(i: nat, j: nat)
    requires j < i < 6
    ensures !Matches(OPTIONS[j].name, OPTIONS[i].name)
  {
    DifferentLetters(OPTIONS[j].name, OPTIONS[i].name, Letter(i, j));
  }

  lemma MiddleOptionsDiffer(i: nat, j: nat)
    requires j < i && 6 <= i < 9
    ensures !Matches(OPTIONS[j].name, OPTIONS[i].name)
  {
    DifferentLetters(OPTIONS[j].name, OPTIONS[i].name, Letter(i, j));
  }

  lemma LastOptionsDiffer(i: nat, j: nat)
    requires j < i && i in {9, 12, 13}
    ensures !Matches(OPTIONS[j].name, OPTIONS[i].name)
  {
    DifferentLetters(OPTIONS[j].name, OPTIONS[i].name, Letter(i, j));
  }

  lemma OptionsDiffer(i: nat, j: nat)
    requires j < i < |OPTIONS| && i != 10 && i != 11
    ensures !Matches(OPTIONS[j].name, OPTIONS[i].name)
  {
    hide Matches;
    if i < 6 {
      FirstOptionsDiffer(i, j);
    } else if i < 9 {
      MiddleOptionsDiffer(i, j);
    } else {
      LastOptionsDiffer(i, j);
    }
  }

  /** Comparing over the shorter length, every option name stands for its own id, except the two that
      extend an earlier option. */
  lemma NamesResolve(i: nat)
    requires i < |OPTIONS|
    ensures IdOf(OPTIONS, OPTIONS[i].name) == OPTIONS[i].number <==> OPTIONS[i].name !in {"D2DXD2P", "D2PPEND"}
  {
    if i == 10 || i == 11 {
      forall j | 0 <= j < i - 2 ensures !Matches(OPTIONS[j].name, OPTIONS[i].name) {
        DifferentLetters(OPTIONS[j].name, OPTIONS[i].name, if j == 8 then 2 else 0);
      }
      FirstMatchWins(OPTIONS, OPTIONS[i].name, i - 2);
    } else {
      forall j | 0 <= j < i ensures !Matches(OPTIONS[j].name, OPTIONS[i].name) {
        OptionsDiffer(i, j);
      }
      FirstMatchWins(OPTIONS, OPTIONS[i].name, i);
    }
  }

  const DEFAULT_LIST: seq<Node> := [
    IDLE_NODE, Node(TMS_MANUAL, 7, false), Node(MANUAL, 5, true), Node(TMS_AUTO, 6, true), Node(LIVE, 3, true),
    Node(EMERG, 4, true), Node(MIC_3D5, 2, true), Node(OCC, 1, true)]

  /** The default table makes this list: each entry's option is found. */
  lemma DefaultTableMakesDefaultList()
    ensures ListFor(DEFAULTS) == DEFAULT_LIST
  {
    hide IdOf;
    NamesResolve(0);
    NamesResolve(1);
    NamesResolve(2);
    NamesResolve(3);
    NamesResolve(4);
    NamesResolve(5);
    NamesResolve(6);
    NodesForAll(DEFAULTS);
  }

  lemma {:induction false} NodesForAll(table: seq<Named>)
    ensures |NodesFor(table)| == |table|
    ensures forall i :: 0 <= i < |table| ==> NodesFor(table)[i] == NodeFor(table[|table| - 1 - i])
  {
    if table != [] {
      NodesForAll(table[..|table| - 1]);
    }
  }

  // ---------- Exchanging states by priority ----------

  /** WhetherOverPackage: a command that releases the live announcement. */
  predicate Releases(c: Command) {
    c.intercom == INTERCOM_IDLE && c.ann == LIVE && c.liveActive == 0
  }

  /** BcuDynamicStateExchange: its result, and the state that is entered, if any. */
  datatype Outcome = Outcome(ret: int, entered: Option<int>)

  function Exchange(list: seq<Node>, current: int, c: Command): Outcome {
    if c.intercom == INTERCOM_IDLE && c.ann != ANN_IDLE then
      if !IsAnnouncement(current) then Outcome(0, None)
      else
        match (Search(list, c.ann), Search(list, current))
        case (Some(wanted), Some(now)) =>
          if wanted.priority > now.priority then Outcome(0, None)
          else
            var node := if Releases(c) && wanted.id == now.id then IDLE_NODE else wanted;
            Outcome(0, if node.known then Some(node.id) else None)
        case _ => Outcome(0, None)
    else if c.ann == ANN_IDLE && c.intercom != INTERCOM_IDLE then Outcome(0, None)
    else Outcome(-1, None)
  }

  function Next(list: seq<Node>, current: int, c: Command): int {
    match Exchange(list, current, c).entered
    case Some(id) => id
    case None => current
  }

  /** Lists as BcuAnnStateCreatePriorityList makes them: idle in front, with the lowest priority. */
  ghost predicate Arbitrates(list: seq<Node>) {
    list != [] && list[0] == IDLE_NODE && forall n :: n in list ==> n.priority <= UINT_MAX
  }

  /** So does every list made from a table whose priorities are those of an unsigned int. */
  lemma CreatedListsArbitrate(table: seq<Named>)
    requires forall e | e in table :: e.number <= UINT_MAX
    ensures Arbitrates(ListFor(table))
  {
    hide NodeFor;
    NodesForAll(table);
    forall n | n in ListFor(table)
      ensures n.priority <= UINT_MAX
    {
      if n != IDLE_NODE {
        var i :| 0 <= i < |table| && NodesFor(table)[i] == n;
        PriorityOfEntry(table[|table| - 1 - i]);
      }
    }
  }

  lemma PriorityOfEntry(entry: Named)
    ensures NodeFor(entry).priority == entry.number
  {
  }

  predicate Listed(list: seq<Node>, id: int) {
    Search(list, id).Some?
  }

  function Value(list: seq<Node>, id: int): nat
    requires Listed(list, id)
  {
    Search(list, id).value.priority
  }

  /** A step that ends the active live announcement. */
  predicate EndsLive(current: int, c: Command) {
    current == LIVE && Releases(c)
  }

  /** For every list: the active priority value rises in exactly one kind of step, the one that
      releases the live announcement while it is active; that step goes to idle. */
  lemma ValueRisesOnlyByEndingLive(list: seq<Node>, current: int, c: Command)
    requires Arbitrates(list) && Listed(list, current)
    ensures Listed(list, Next(list, current, c))
    ensures Value(list, Next(list, current, c)) > Value(list, current) <==>
              EndsLive(current, c) && Value(list, LIVE) < UINT_MAX
    ensures EndsLive(current, c) ==> Next(list, current, c) == ANN_IDLE
  {
  }

  function Run(list: seq<Node>, start: int, h: Trace<Command>): int {
    match h
    case Begin => start
    case After(past, c) => Next(list, Run(list, start, past), c)
  }

  /** The value at the start, or that of idle once a live announcement was ended. */
  function Ceiling(list: seq<Node>, start: int, h: Trace<Command>): nat
    requires Listed(list, start)
  {
    match h
    case Begin => Value(list, start)
    case After(past, c) =>
      if EndsLive(Run(list, start, past), c) then UINT_MAX else Ceiling(list, start, past)
  }

  /** The announcement ids a list can switch to. */
  ghost predicate Announces(list: seq<Node>) {
    forall n :: n in list ==> !n.known || IsAnnouncement(n.id)
  }

  /** Over every run of commands the value stays below where the last end of a live announcement, or
      the start, left it; and it has not risen at all while no live announcement was ended. */
  lemma {:induction false} ValueOnlyFalls(list: seq<Node>, start: int, h: Trace<Command>)
    requires Arbitrates(list) && Listed(list, start)
    ensures var s := Run(list, start, h);
            Listed(list, s) && Value(list, s) <= Ceiling(list, start, h)
    ensures h.After? && !EndsLive(Run(list, start, h.past), h.step) ==>
              Listed(list, Run(list, start, h.past)) &&
              Value(list, Run(list, start, h)) <= Value(list, Run(list, start, h.past))
    ensures Announces(list) && IsAnnouncement(start) ==> IsAnnouncement(Run(list, start, h))
  {
    if h.After? {
      ValueOnlyFalls(list, start, h.past);
      ValueRisesOnlyByEndingLive(list, Run(list, start, h.past), h.step);
    }
  }

  /** Taken alone, the exchange lets a release start the live announcement: from every other state
      whose value is not below that of live. */
  lemma BareReleaseCanStartLive(list: seq<Node>, current: int, c: Command)
    requires Arbitrates(list) && Listed(list, current) && current != LIVE
    requires Releases(c)
    ensures Exchange(list, current, c).entered == Some(LIVE) <==>
              && IsAnnouncement(current) && Listed(list, LIVE) && Search(list, LIVE).value.known
              && Value(list, LIVE) <= Value(list, current)
    ensures Exchange(list, current, c).entered != Some(LIVE) ==> Next(list, current, c) == current
  {
  }

  /** In the default list these are the emergency, manual, automatic and idle states. */
  lemma BareReleaseInDefaultList(current: int, c: Command)
    requires Listed(DEFAULT_LIST, current) && current != LIVE && Releases(c)
    ensures Next(DEFAULT_LIST, current, c) == LIVE <==> current in {EMERG, MANUAL, TMS_MANUAL, TMS_AUTO, ANN_IDLE}
  {
    DefaultValues(LIVE);
    DefaultValues(current);
    BareReleaseCanStartLive(DEFAULT_LIST, current, c);
  }

  lemma DefaultValues(id: int)
    ensures Arbitrates(DEFAULT_LIST) && Announces(DEFAULT_LIST)
    ensures Listed(DEFAULT_LIST, id) <==> IsAnnouncement(id)
    ensures IsAnnouncement(id) ==>
              Search(DEFAULT_LIST, id).value ==
              if id == ANN_IDLE then IDLE_NODE
              else if id == TMS_MANUAL then Node(id, 7, false)
              else Node(id, if id == OCC then 1 else if id == MIC_3D5 then 2 else if id == LIVE then 3
                            else if id == EMERG then 4 else if id == MANUAL then 5 else 6, true)
  {
    if IsAnnouncement(id) {
      var k := if id == ANN_IDLE then 0 else if id == TMS_MANUAL then 1 else if id == MANUAL then 2
               else if id == TMS_AUTO then 3 else if id == LIVE then 4 else if id == EMERG then 5
               else if id == MIC_3D5 then 6 else 7;
      assert DEFAULT_LIST[k].id == id;
    }
  }

  /** The announcements from the first to the last of the default list. */
  const ORDER: seq<int> := [OCC, MIC_3D5, LIVE, EMERG, MANUAL, TMS_AUTO, TMS_MANUAL, ANN_IDLE]

  /** With the default list a command that does not release live enters its announcement exactly if that
      does not stand behind the active one, and can be entered at all; TMS-MANUAL cannot. Otherwise
      nothing changes. */
  lemma DefaultListArbitrates(i: nat, j: nat, c: Command)
    requires i < 8 && j < 7 && c.ann == ORDER[j] && c.intercom == INTERCOM_IDLE && !Releases(c)
    ensures Next(DEFAULT_LIST, ORDER[i], c) == if j <= i && c.ann != TMS_MANUAL then c.ann else ORDER[i]
    ensures Exchange(DEFAULT_LIST, ORDER[i], c).entered.Some? <==> j <= i && c.ann != TMS_MANUAL
  {
    hide Search;
    PlaceInOrder(i);
    PlaceInOrder(j);
    var ids := ORDER;
    assert c.ann != ANN_IDLE && (c.ann == TMS_MANUAL <==> j == 6) && (c.ann == ids[i] <==> i == j);
    hide ORDER, IsAnnouncement;
  }

  lemma PlaceInOrder(i: nat)
    requires i < 8
    ensures IsAnnouncement(ORDER[i]) && Listed(DEFAULT_LIST, ORDER[i])
    ensures Search(DEFAULT_LIST, ORDER[i]).value == Node(ORDER[i], if i == 7 then UINT_MAX else i + 1, i != 6)
  {
    DefaultValues(ORDER[i]);
    hide Search;
  }

  /** For every list: -1 is returned exactly for commands that address both sides or neither, and these
      enter nothing. */
  lemma OneSideMustBeIdle(list: seq<Node>, current: int, c: Command)
    ensures Exchange(list, current, c).ret ==
            if (c.ann == ANN_IDLE) == (c.intercom == INTERCOM_IDLE) then -1 else 0
    ensures c.ann == ANN_IDLE || c.intercom != INTERCOM_IDLE ==> Exchange(list, current, c).entered == None
  {
    hide Search;
  }
}
