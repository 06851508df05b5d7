/** The list of open intercom requests (link.cxx) and the packages that change it
    (bcu_function.cxx, ProbeBigCommPackage types 6 and 8 to 10 for passenger units, 11 to 13 for
    consoles). */
module RequestList {
  import opened Bytes

  datatype Key = Key(vehicle: nat, device: nat)

  /** One request; state 0 is unanswered. */
  datatype Req = Req(key: Key, state: nat)

  // ---------- The list as a sequence ----------

  /** The place of the first request with this key, or the length of the list. */
  function Find(q: seq<Req>, k: Key): (i: nat)
    ensures i <= |q| && (i < |q| ==> q[i].key == k)
    ensures forall j :: 0 <= j < i ==> q[j].key != k
  {
    if q == [] then 0
    else if q[0].key == k then 0
    else
      var i := 1 + Find(q[1..], k);
      assert forall j :: 0 < j < i ==> q[j] == q[1..][j - 1];
      i
  }

  predicate Has(q: seq<Req>, k: Key) {
    Find(q, k) < |q|
  }

  function Inserted(q: seq<Req>, r: Req): seq<Req> {
    if Has(q, r.key) then q else q + [r]
  }

  function Updated(q: seq<Req>, k: Key, state: nat): seq<Req> {
    var i := Find(q, k);
    if i < |q| then q[i := q[i].(state := state)] else q
  }

  function Deleted(q: seq<Req>, k: Key): seq<Req> {
    var i := Find(q, k);
    if i < |q| then q[..i] + q[i + 1..] else q
  }

  function Unanswered(q: seq<Req>): (n: nat)
    ensures n <= |q|
  {
    if q == [] then 0 else Unanswered(q[..|q| - 1]) + if q[|q| - 1].state == 0 then 1 else 0
  }

  // ---------- The list after any history ----------

  datatype Op = Insert(key: Key) | Update(k: Key, state: nat) | Delete(which: Key)

  function Apply(q: seq<Req>, op: Op): seq<Req> {
    match op
    case Insert(k) => Inserted(q, Req(k, 0))
    case Update(k, state) => Updated(q, k, state)
    case Delete(k) => Deleted(q, k)
  }

  function Run(h: Trace<Op>): seq<Req> {
    match h
    case Begin => []
    case After(past, op) => Apply(Run(past), op)
  }

  /** How many operations a history has. */
  function Time(h: Trace<Op>): nat {
    match h
    case Begin => 0
    case After(past, _) => Time(past) + 1
  }

  /** When and with which answer a key is open, told from the history alone. */
  datatype Open = Closed | Since(time: nat, state: nat)

  function Status(h: Trace<Op>, k: Key): Open {
    match h
    case Begin => Closed
    case After(past, op) =>
      var before := Status(past, k);
      match op
      case Insert(k') => if k' == k && before.Closed? then Since(Time(past), 0) else before
      case Update(k', state) => if k' == k && before.Since? then before.(state := state) else before
      case Delete(k') => if k' == k then Closed else before
  }

  lemma {:induction false} OpenedInThePast(h: Trace<Op>, k: Key)
    ensures Status(h, k).Since? ==> Status(h, k).time < Time(h)
  {
    if h.After? {
      OpenedInThePast(h.past, k);
    }
  }

  predicate Distinct(q: seq<Req>) {
    forall i, j :: 0 <= i < j < |q| ==> q[i].key != q[j].key
  }

  lemma FoundAt(q: seq<Req>, i: nat)
    requires i < |q|
    ensures Has(q, q[i].key)
    ensures Distinct(q) ==> Find(q, q[i].key) == i
  {
  }

  /** `q` lists open keys with their answers, in the order in which they were opened. */
  ghost predicate Lists(h: Trace<Op>, q: seq<Req>) {
    && (forall i :: 0 <= i < |q| ==> Status(h, q[i].key).Since? && Status(h, q[i].key).state == q[i].state)
    && (forall i, j :: 0 <= i < j < |q| ==> Status(h, q[i].key).time < Status(h, q[j].key).time)
  }

  /** ... and all of them. */
  ghost predicate Describes(h: Trace<Op>, q: seq<Req>) {
    Lists(h, q) && forall k :: Status(h, k).Since? ==> Has(q, k)
  }

  lemma ListedKeysDiffer(h: Trace<Op>, q: seq<Req>)
    requires Lists(h, q)
    ensures Distinct(q)
  {
  }

  lemma InsertDescribes(h: Trace<Op>, q: seq<Req>, k: Key)
    requires Describes(h, q)
    ensures Describes(After(h, Insert(k)), Apply(q, Insert(k)))
  {
    hide Find;
    var h', q' := After(h, Insert(k)), Apply(q, Insert(k));
    assert Has(q, k) == Status(h, k).Since?;
    forall i | 0 <= i < |q| {
      OpenedInThePast(h, q[i].key);
    }
    forall x | Status(h', x).Since? ensures Has(q', x) {
      assert x != k ==> Has(q, x);
      FoundAt(q', if x == k && !Has(q, k) then |q| else Find(q, x));
    }
  }

  lemma UpdateDescribes(h: Trace<Op>, q: seq<Req>, k: Key, state: nat)
    requires Describes(h, q)
    ensures Describes(After(h, Update(k, state)), Apply(q, Update(k, state)))
  {
    hide Find;
    var h', q' := After(h, Update(k, state)), Apply(q, Update(k, state));
    ListedKeysDiffer(h, q);
    forall i | 0 <= i < |q| ensures q[i].key == k <==> i == Find(q, k) {
      FoundAt(q, i);
    }
    forall x | Status(h', x).Since? ensures Has(q', x) {
      assert Has(q, x);
      FoundAt(q', Find(q, x));
    }
  }

  lemma ShorterLists(h: Trace<Op>, q: seq<Req>, h': Trace<Op>, q': seq<Req>, n: nat)
    requires Lists(h, q) && |q'| <= |q|
    requires n < |q| ==> |q'| < |q|
    requires forall i :: 0 <= i < |q'| ==>
                           q'[i] == q[if i < n then i else i + 1] && Status(h', q'[i].key) == Status(h, q'[i].key)
    ensures Lists(h', q')
  {
    hide Status;
  }

  lemma DeleteDescribes(h: Trace<Op>, q: seq<Req>, k: Key)
    requires Describes(h, q)
    ensures Describes(After(h, Delete(k)), Apply(q, Delete(k)))
  {
    hide Find, Distinct, Deleted, Lists;
    var h', q', n := After(h, Delete(k)), Deleted(q, k), Find(q, k);
    ListedKeysDiffer(h, q);
    DeleteMovesUp(q, k);
    ShorterLists(h, q, h', q', n);
    forall x | Status(h', x).Since? ensures Has(q', x) {
      assert x != k && Has(q, x);
      var i := Find(q, x);
      FoundAt(q', if i < n then i else i - 1);
    }
  }

  /** What deleting leaves, place by place. */
  lemma DeleteMovesUp(q: seq<Req>, k: Key)
    requires Distinct(q)
    ensures var q', n := Deleted(q, k), Find(q, k);
            && |q'| == (if n < |q| then |q| - 1 else |q|)
            && forall i :: 0 <= i < |q'| ==> q'[i] == q[if i < n then i else i + 1] && q'[i].key != k
  {
    var q', n := Deleted(q, k), Find(q, k);
    hide Find;
    if n < |q| {
      forall i | 0 <= i < |q'|
        ensures q'[i] == q[if i < n then i else i + 1] && q'[i].key != k
      {
        if i >= n {
          assert q'[i] == q[i + 1];
        }
      }
    }
  }

  /** After every history the list holds exactly the open keys, each once and with its latest answer,
      in the order in which they were opened. */
  lemma {:induction false} ListIsTheOpenRequests(h: Trace<Op>)
    ensures Describes(h, Run(h)) && Distinct(Run(h))
  {
    match h
    case Begin =>
    case After(past, op) =>
      ListIsTheOpenRequests(past);
      match op {
        case Insert(k) => InsertDescribes(past, Run(past), k);
        case Update(k, state) => UpdateDescribes(past, Run(past), k, state);
        case Delete(k) => DeleteDescribes(past, Run(past), k);
      }
      ListedKeysDiffer(h, Run(h));
  }

  lemma OrderFixesNext(h: Trace<Op>, p: seq<Req>, q: seq<Req>, n: nat)
    requires Describes(h, p) && Describes(h, q) && n < |p|
    requires n <= |q| && forall i :: 0 <= i < n ==> p[i] == q[i]
    ensures n < |q| && Status(h, q[n].key).time <= Status(h, p[n].key).time
  {
    hide Find;
    var i := Find(q, p[n].key);
    assert Has(q, p[n].key);
    assert i < |q| && q[i].key == p[n].key;
  }

  lemma NextIsSame(h: Trace<Op>, p: seq<Req>, q: seq<Req>, n: nat)
    requires Describes(h, p) && Describes(h, q) && n < |p| && n <= |q|
    requires forall i :: 0 <= i < n ==> p[i] == q[i]
    ensures n < |q| && p[n] == q[n]
  {
    OrderFixesNext(h, p, q, n);
    OrderFixesNext(h, q, p, n);
    hide Find, Status;
    var i := Find(q, p[n].key);
    assert Has(q, p[n].key);
    assert i < |q| && q[i].key == p[n].key;
  }

  /** That description leaves no freedom: the history determines the list. */
  lemma DescriptionIsUnique(h: Trace<Op>, p: seq<Req>, q: seq<Req>)
    requires Describes(h, p) && Describes(h, q)
    ensures p == q
  {
    SameUpTo(h, p, q, |p|);
    SameUpTo(h, q, p, |q|);
  }

  lemma {:induction false} SameUpTo(h: Trace<Op>, p: seq<Req>, q: seq<Req>, n: nat)
    requires Describes(h, p) && Describes(h, q) && n <= |p|
    ensures n <= |q| && forall i :: 0 <= i < n ==> p[i] == q[i]
  {
    hide Describes;
    if n > 0 {
      SameUpTo(h, p, q, n - 1);
      NextIsSame(h, p, q, n - 1);
    }
  }

  /** Inserting a key that is there changes nothing; deleting undoes inserting one that is not. */
  lemma InsertAndDelete(q: seq<Req>, k: Key)
    ensures Inserted(Inserted(q, Req(k, 0)), Req(k, 0)) == Inserted(q, Req(k, 0))
    ensures Has(q, k) <==> Inserted(q, Req(k, 0)) == q
    ensures !Has(q, k) ==> Deleted(Inserted(q, Req(k, 0)), k) == q
  {
    hide Find;
    var q' := Inserted(q, Req(k, 0));
    if !Has(q, k) {
      assert q'[|q|].key == k && |q'| == |q| + 1;
      assert forall i :: 0 <= i < |q| ==> q'[i].key != k;
    }
  }

  // ---------- The packages ----------

  /** The list, the request number shown, and the number of this seat. */
  datatype Desk = Desk(list: seq<Req>, number: nat, own: nat)

  /** Package types 8, 9 and 10 (11, 12 and 13 with the console list), and type 6, by which a seat takes
      up the call of a passenger unit. A foreign acceptance also withdraws a key: for passenger units
      that of the refuse field, for consoles that of the receive field. Every other package leaves the
      list and the number alone. */
  datatype Package =
    | Request(key: Key)
    | Accept(accepted: Key, withdrawn: Key, seat: nat)
    | Refuse(refused: Key, seat: nat)
    | TakeUp(key: Key, seat: nat, flag: int)
    | Other

  function ListAfter(q: seq<Req>, own: nat, p: Package): seq<Req> {
    match p
    case Request(k) => Inserted(q, Req(k, 0))
    case Accept(k, w, seat) => if seat != own then Deleted(Updated(q, k, 1), w) else Updated(q, k, 1)
    case Refuse(k, seat) => if seat == own then Deleted(q, k) else q
    case TakeUp(k, seat, flag) => if seat != own && flag == 1 then Deleted(q, k) else q
    case Other => q
  }

  /** Packages that do not touch the number. */
  predicate Silent(own: nat, p: Package) {
    p.Other? || (p.TakeUp? && !(p.seat != own && p.flag == 1))
  }

  predicate ForeignRefusal(own: nat, p: Package) {
    p.Refuse? && p.seat != own
  }

  function Take(d: Desk, p: Package): Desk {
    var list := ListAfter(d.list, d.own, p);
    d.(list := list,
       number := if Silent(d.own, p) then d.number else if ForeignRefusal(d.own, p) then 0 else |list|)
  }

  function Desktop(own: nat, h: Trace<Package>): (d: Desk)
    ensures d.own == own
  {
    match h
    case Begin => Desk([], 0, own)
    case After(past, p) => Take(Desktop(own, past), p)
  }

  /** The operations on the list that a run of packages comes to. */
  function Ops(own: nat, h: Trace<Package>): Trace<Op> {
    match h
    case Begin => Begin
    case After(past, Request(k)) => After(Ops(own, past), Insert(k))
    case After(past, Accept(k, w, seat)) =>
      var updated := After(Ops(own, past), Update(k, 1));
      if seat != own then After(updated, Delete(w)) else updated
    case After(past, Refuse(k, seat)) => if seat == own then After(Ops(own, past), Delete(k)) else Ops(own, past)
    case After(past, TakeUp(k, seat, flag)) =>
      if seat != own && flag == 1 then After(Ops(own, past), Delete(k)) else Ops(own, past)
    case After(past, Other) => Ops(own, past)
  }

  /** So after every run of packages the list holds the open requests, in order. */
  lemma {:induction false} DeskListIsTheOpenRequests(own: nat, h: Trace<Package>)
    ensures Desktop(own, h).list == Run(Ops(own, h))
    ensures Describes(Ops(own, h), Desktop(own, h).list) && Distinct(Desktop(own, h).list)
  {
    hide Describes, Distinct, Find;
    if h.After? {
      DeskListIsTheOpenRequests(own, h.past);
    }
    ListIsTheOpenRequests(Ops(own, h));
  }

  /** The last package that touched the number was a refusal by another seat. */
  predicate Misled(own: nat, h: Trace<Package>) {
    h.After? && if Silent(own, h.step) then Misled(own, h.past) else ForeignRefusal(own, h.step)
  }

  /** After every run of packages the number shown is the length of the list, unless the last package
      that touched it was a refusal by another seat, which leaves the list alone and shows 0 whatever
      is in it. */
  lemma {:induction false} NumberIsLengthUnlessForeignRefusal(own: nat, h: Trace<Package>)
    ensures var d := Desktop(own, h);
            && (d.number == |d.list| <==> !Misled(own, h) || d.list == [])
            && (Misled(own, h) ==> d.number == 0)
    ensures h.After? && (Silent(own, h.step) || ForeignRefusal(own, h.step)) ==>
              Desktop(own, h).list == Desktop(own, h.past).list
  {
    if h.After? {
      NumberIsLengthUnlessForeignRefusal(own, h.past);
    }
  }

  /** What the list says about a key: its answer, if it is there. */
  function StateOf(q: seq<Req>, k: Key): Option<nat> {
    if Has(q, k) then Some(q[Find(q, k)].state) else None
  }

  lemma StateIsStatus(h: Trace<Op>, q: seq<Req>, k: Key)
    requires Describes(h, q)
    ensures StateOf(q, k) == match Status(h, k) case Closed => None case Since(_, state) => Some(state)
  {
    hide Find, Status;
    if Has(q, k) {
      assert q[Find(q, k)].key == k;
    }
  }

  /** What each package does to each key, after every run: a request opens the key unanswered unless it
      is open; an acceptance answers the accepted key if it is open, and one by another seat closes the
      withdrawn one; a refusal by the own seat and a call taken up by another one close their key; all
      else stays as it was. */
  lemma PackageEffect(own: nat, h: Trace<Package>, p: Package, x: Key)
    ensures var before, after := StateOf(Desktop(own, h).list, x), StateOf(Desktop(own, After(h, p)).list, x);
            after ==
            match p
            case Request(k) => if x == k && before == None then Some(0) else before
            case Accept(k, w, seat) =>
              if x == w && seat != own then None else if x == k && before.Some? then Some(1) else before
            case Refuse(k, seat) => if x == k && seat == own then None else before
            case TakeUp(k, seat, flag) => if x == k && seat != own && flag == 1 then None else before
            case Other => before
  {
    DeskListIsTheOpenRequests(own, h);
    DeskListIsTheOpenRequests(own, After(h, p));
    hide Describes, StateOf, Desktop, Run;
    StateIsStatus(Ops(own, h), Desktop(own, h).list, x);
    StateIsStatus(Ops(own, After(h, p)), Desktop(own, After(h, p)).list, x);
  }

  /** A call taken up by another seat leaves the list. */
  lemma ForeignTakeUpRemoves(own: nat, h: Trace<Package>, k: Key, seat: nat)
    requires seat != own
    ensures !Has(Desktop(own, After(h, TakeUp(k, seat, 1))).list, k)
  {
    hide Find;
    DeskListIsTheOpenRequests(own, h);
    DeleteMovesUp(Desktop(own, h).list, k);
  }

  /** An acceptance by another seat removes the accepted request exactly when the withdrawn key is its
      own: always for consoles, for passenger units only if the refuse field names it too. */
  lemma ForeignAcceptanceRemoves(own: nat, h: Trace<Package>, accepted: Key, withdrawn: Key, seat: nat)
    requires seat != own && Has(Desktop(own, h).list, accepted)
    ensures Has(Desktop(own, After(h, Accept(accepted, withdrawn, seat))).list, accepted) <==> withdrawn != accepted
  {
    hide Find;
    DeskListIsTheOpenRequests(own, h);
    var list := Desktop(own, h).list;
    var q, n := Updated(list, accepted, 1), Find(list, accepted);
    assert forall i :: 0 <= i < |q| ==> q[i].key == list[i].key;
    DeleteMovesUp(q, withdrawn);
    var q' := Deleted(q, withdrawn);
    if withdrawn != accepted {
      FoundAt(q', if n < Find(q, withdrawn) then n else n - 1);
    }
  }

  // ---------- The linked list as written ----------

  class Node {
    var key: Key
    var state: nat
    var next: Node?

    /** create_node, filled in by its caller. */
    constructor (k: Key)
      ensures key == k && state == 0 && next == null
    {
      key, state, next := k, 0, null;
    }
  }

  predicate AllDifferent<T(==)>(s: seq<T>) {
    forall i, j :: 0 <= i < j < |s| ==> s[i] != s[j]
  }

  lemma AllDifferentWithout<T>(s: seq<T>, i: nat)
    requires AllDifferent(s) && i < |s|
    ensures AllDifferent(s[..i] + s[i + 1..])
  {
  }

  lemma AllDifferentWith<T>(s: seq<T>, x: T)
    requires AllDifferent(s) && x !in s
    ensures AllDifferent(s + [x])
  {
  }

  lemma OthersDiffer<T>(s: seq<T>, i: nat)
    requires AllDifferent(s) && i < |s|
    ensures forall j :: 0 <= j < |s| && j != i ==> s[j] != s[i]
  {
  }

  class List {
    const head: Node
    /** The head and the nodes behind it. */
    ghost var chain: seq<Node>
    ghost var requests: seq<Req>

    ghost predicate Valid()
      reads this, chain
    {
      && |chain| == |requests| + 1 && chain[0] == head && AllDifferent(chain)
      && (forall i :: 0 <= i < |requests| ==> Req(chain[i + 1].key, chain[i + 1].state) == requests[i])
      && (forall i {:trigger chain[i].next} :: 0 <= i < |chain| ==> chain[i].next == At(i + 1))
    }

    ghost function At(i: nat): Node?
      reads this
    {
      if i < |chain| then chain[i] else null
    }

    constructor ()
      ensures Valid() && requests == [] && fresh(chain)
    {
      head := new Node(Key(0, 0));
      new;
      chain, requests := [head], [];
    }

    /** query_list. */
    method Query(k: Key) returns (found: Node?, precursor: Node)
      requires Valid()
      ensures var i := Find(requests, k); found == At(i + 1) && precursor == chain[i]
    {
      var temp := head.next;
      precursor := head;
      ghost var i := 0;
      while temp != null
        invariant i <= |requests| && temp == At(i + 1) && precursor == chain[i]
        invariant forall j :: 0 <= j < i ==> requests[j].key != k
        decreases |requests| - i
      {
        assert requests[i].key == temp.key;
        if temp.key == k {
          return temp, precursor;
        }
        precursor := temp;
        temp := temp.next;
        i := i + 1;
      }
      return null, precursor;
    }

    /** update_list. */
    method Update(k: Key, state: nat) returns (found: bool)
      requires Valid()
      modifies this, chain
      ensures Valid() && chain == old(chain)
      ensures found == Has(old(requests), k) && requests == Updated(old(requests), k, state)
    {
      var temp, _ := Query(k);
      found := temp != null;
      if found {
        temp.state := state;
      }
      requests := Updated(requests, k, state);
    }

    /** insert_list. A node whose key is there already is given up. */
    method Insert(node: Node)
      requires Valid() && node !in chain && node.next == null
      modifies this, chain
      ensures Valid() && requests == Inserted(old(requests), Req(node.key, node.state))
      ensures chain == old(chain) || chain == old(chain) + [node]
    {
      var temp1 := head;
      if head.next == null {
        Append(temp1, node);
      } else {
        var there, precursor := Query(node.key);
        if there == null {
          temp1 := precursor;
          ghost var i, more := Find(requests, node.key), |chain|;
          while temp1.next != null
            invariant 0 <= i <= |requests| <= i + more && temp1 == chain[i]
            decreases more
          {
            temp1 := temp1.next;
            i, more := i + 1, more - 1;
          }
          Append(temp1, node);
        }
      }
    }

    /** Links a node behind the last one. */
    method Append(last: Node, node: Node)
      requires Valid() && last in chain && last.next == null && node !in chain && node.next == null
      modifies this, chain
      ensures Valid() && chain == old(chain) + [node]
      ensures requests == old(requests) + [Req(node.key, node.state)]
    {
      AllDifferentWith(chain, node);
      last.next := node;
      chain, requests := chain + [node], requests + [Req(node.key, node.state)];
    }

    /** deletes_list. */
    method Delete(k: Key)
      requires Valid()
      modifies this, chain
      ensures Valid() && requests == Deleted(old(requests), k)
      ensures forall n :: n in chain ==> n in old(chain)
    {
      if head.next == null {
        return;
      }
      var temp, temp1 := Query(k);
      if temp != null {
        Unlink(temp1, temp, Find(requests, k));
      }
    }

    method Unlink(precursor: Node, node: Node, ghost i: nat)
      requires Valid() && i < |requests| && precursor == chain[i] && node == chain[i + 1]
      modifies this, chain
      ensures Valid() && requests == old(requests)[..i] + old(requests)[i + 1..]
      ensures chain == old(chain)[..i + 1] + old(chain)[i + 2..]
    {
      hide AllDifferent;
      ghost var was, shorter := chain, chain[..i + 1] + chain[i + 2..];
      AllDifferentWithout(was, i + 1);
      OthersDiffer(was, i);
      precursor.next := node.next;
      chain, requests := shorter, requests[..i] + requests[i + 1..];
      assert forall j :: 0 <= j < |shorter| ==> shorter[j] == was[if j <= i then j else j + 1];
    }

    /** dispalys. */
    method Count() returns (n: nat)
      requires Valid()
      ensures n == |requests|
    {
      var temp := head.next;
      n := 0;
      while temp != null
        invariant n <= |requests| && temp == At(n + 1)
        decreases |requests| - n
      {
        temp := temp.next;
        n := n + 1;
      }
    }

    /** dispalys_no_recv. */
    method CountUnanswered() returns (n: nat)
      requires Valid()
      ensures n == Unanswered(requests)
    {
      var temp := head.next;
      n := 0;
      ghost var i := 0;
      while temp != null
        invariant i <= |requests| && temp == At(i + 1) && n == Unanswered(requests[..i])
        decreases |requests| - i
      {
        assert requests[..i + 1][..i] == requests[..i];
        if temp.state == 0 {
          n := n + 1;
        }
        temp := temp.next;
        i := i + 1;
      }
      assert requests[..i] == requests;
    }
  }

  /** The request desk of one console: the handlers of the packages. */
  class Requests {
    const list: List
    const own: nat
    var number: nat

    ghost predicate Valid()
      reads this, list, list.chain
    {
      list.Valid()
    }

    ghost function Value(): Desk
      reads this, list
    {
      Desk(list.requests, number, own)
    }

    constructor (seat: nat)
      ensures Valid() && fresh(list) && fresh(list.chain)
      ensures Value() == Desk([], 0, seat)
    {
      list := new List();
      own := seat;
      number := 0;
    }

    /** IphRequestInsertLink and BcuRequestInsertLink. */
    method OnRequest(k: Key)
      requires Valid()
      modifies this, list, list.chain
      ensures Valid() && Value() == Take(old(Value()), Request(k))
    {
      var node := new Node(k);
      list.Insert(node);
      number := list.Count();
    }

    /** IphUpdateLink with `withdrawn` from iph_refuse_no, BcuUpdateLink with bcu_receive_no. */
    method OnAccept(accepted: Key, withdrawn: Key, seat: nat)
      requires Valid()
      modifies this, list, list.chain
      ensures Valid() && Value() == Take(old(Value()), Accept(accepted, withdrawn, seat))
    {
      var _ := list.Update(accepted, 1);
      if seat != own {
        list.Delete(withdrawn);
      }
      number := list.Count();
    }

    /** IphDeleteLink. */
    method OnRefuse(refused: Key, seat: nat)
      requires Valid()
      modifies this, list, list.chain
      ensures Valid() && Value() == Take(old(Value()), Refuse(refused, seat))
    {
      var ret := 0;
      if seat == own {
        list.Delete(refused);
        ret := list.Count();
      }
      number := ret;
    }

    /** Type 6: a seat takes up a call. Another seat's goes through IphDeleteLink as if refused here. */
    method OnTakeUp(key: Key, seat: nat, flag: int)
      requires Valid()
      modifies this, list, list.chain
      ensures Valid() && Value() == Take(old(Value()), TakeUp(key, seat, flag))
    {
      if seat != own && flag == 1 {
        OnRefuse(key, own);
      }
    }
  }
}
