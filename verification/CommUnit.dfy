/**
  The scheduler loops of `CommUnit_routine` in import/BeDIS.c.

  `lists[i]` is the i-th buffer list in priority order.  Other threads may append nodes at any
  time a list lock is free, so what arrives is an input of every scan: `arrivals(v, i)` is
  appended to list i just before the scan's v-th lock acquisition.  `log` records, in order,
  every node a scan removes and what happens to it.
 */
module CommUnit {
  import PriorityList

  datatype Buffered = Buffered(id: int, receivedAt: int)

  /** A node leaves buffer list `list`: handed to the thread pool, or freed as out of date. */
  datatype Event = Event(list: nat, node: Buffered, dispatched: bool)

  datatype Sched = Sched(lists: seq<seq<Buffered>>, log: seq<Event>)

  type Arrivals = (nat, nat) -> seq<Buffered>

  /** The priorities of the lists and the two configured values the scans read. */
  datatype Setup = Setup(nice: seq<int>, critical: int, minAge: int)

  function Arrive(s: Sched, arrivals: Arrivals, v: nat): (t: Sched)
    ensures |t.lists| == |s.lists| && t.log == s.log
    ensures forall i | 0 <= i < |s.lists| :: t.lists[i] == s.lists[i] + arrivals(v, i)
  {
    s.(lists := seq(|s.lists|, i requires 0 <= i < |s.lists| => s.lists[i] + arrivals(v, i)))
  }

  /** Remove the head of list `i`. */
  function TakeHead(s: Sched, i: nat, dispatched: bool): Sched
    requires i < |s.lists| && s.lists[i] != []
  {
    Sched(s.lists[i := s.lists[i][1..]], s.log + [Event(i, s.lists[i][0], dispatched)])
  }

  predicate IsStale(c: Setup, uptime: int, node: Buffered) { uptime - node.receivedAt > c.minAge }

  /* ------------------------------ specification ---------------------------- */

  /** The normal scan from list `i` on, and its did_work flag.  A stale head is dropped and
      the scan goes on with the next list. */
  function NormalFrom(s: Sched, c: Setup, uptime: int, arrivals: Arrivals, i: nat): (Sched, bool)
    requires i <= |s.lists|
    decreases |s.lists| - i
  {
    if i == |s.lists| then (s, false)
    else
      var a := Arrive(s, arrivals, i);
      if a.lists[i] == [] then NormalFrom(a, c, uptime, arrivals, i + 1)
      else if IsStale(c, uptime, a.lists[i][0]) then
        NormalFrom(TakeHead(a, i, false), c, uptime, arrivals, i + 1)
      else (TakeHead(a, i, true), true)
  }

  /** The first loop of the starvation pass: at most one node, from the time-critical lists. */
  function CriticalFrom(s: Sched, c: Setup, arrivals: Arrivals, i: nat): Sched
    requires i <= |s.lists| == |c.nice|
    decreases |s.lists| - i
  {
    if i == |s.lists| || c.nice[i] != c.critical then s
    else
      var a := Arrive(s, arrivals, i);
      if a.lists[i] == [] then CriticalFrom(a, c, arrivals, i + 1) else TakeHead(a, i, true)
  }

  /** The second loop: one node from every list below `i`, in reverse order. */
  function ReverseFrom(s: Sched, arrivals: Arrivals, i: nat): Sched
    requires i <= |s.lists|
    decreases i
  {
    if i == 0 then s
    else
      ReverseFrom(ReverseVisit(s, arrivals, i - 1), arrivals, i - 1)
  }

  /** One visit of the second loop. */
  function ReverseVisit(s: Sched, arrivals: Arrivals, i: nat): (t: Sched)
    requires i < |s.lists|
    ensures |t.lists| == |s.lists|
  {
    var a := Arrive(s, arrivals, i);
    if a.lists[i] == [] then a else TakeHead(a, i, true)
  }

  function Starve(s: Sched, c: Setup, first: Arrivals, second: Arrivals): Sched
    requires |s.lists| == |c.nice|
  {
    var t := CriticalFrom(s, c, first, 0);
    CriticalKeepsLists(s, c, first, 0);
    ReverseFrom(t, second, |t.lists|)
  }

  lemma {:induction false} CriticalKeepsLists(s: Sched, c: Setup, arrivals: Arrivals, i: nat)
    requires i <= |s.lists| == |c.nice|
    ensures |CriticalFrom(s, c, arrivals, i).lists| == |s.lists|
    decreases |s.lists| - i
  {
    if i < |s.lists| && c.nice[i] == c.critical {
      var a := Arrive(s, arrivals, i);
      if a.lists[i] == [] { CriticalKeepsLists(a, c, arrivals, i + 1); }
    }
  }

  /* -------------------------------- the loops ------------------------------ */

  class CommUnit {
    const setup: Setup
    var lists: seq<seq<Buffered>>
    ghost var log: seq<Event>

    ghost function State(): Sched reads this { Sched(lists, log) }

    ghost predicate Valid() reads this { |lists| == |setup.nice| }

    constructor (setup: Setup)
      ensures Valid() && this.setup == setup
      ensures State() == Sched(seq(|setup.nice|, _ => []), [])
    {
      this.setup := setup;
      lists := seq(|setup.nice|, _ => []);
      log := [];
    }

    /** What the other threads append before the scan gets its next lock. */
    method Interfere(arrivals: Arrivals, v: nat)
      modifies this
      ensures State() == Arrive(old(State()), arrivals, v)
    {
      ghost var s := State();
      var before := lists;
      lists := seq(|before|, i requires 0 <= i < |before| => before[i] + arrivals(v, i));
      assert lists == Arrive(s, arrivals, v).lists;
    }

    method RemoveHead(i: nat, ghost dispatched: bool) returns (node: Buffered)
      requires i < |lists| && lists[i] != []
      modifies this
      ensures node == old(lists)[i][0] && State() == TakeHead(old(State()), i, dispatched)
    {
      node := lists[i][0];
      lists := lists[i := lists[i][1..]];
      log := log + [Event(i, node, dispatched)];
    }

    /** The list_for_each loop of the normal scan. */
    method NormalScan(uptime: int, arrivals: Arrivals) returns (didWork: bool)
      requires Valid()
      modifies this
      ensures Valid() && (State(), didWork) == NormalFrom(old(State()), setup, uptime, arrivals, 0)
    {
      didWork := false;
      var i := 0;
      while i < |lists|
        invariant i <= |lists| && Valid() && !didWork
        invariant NormalFrom(State(), setup, uptime, arrivals, i) == NormalFrom(old(State()), setup, uptime, arrivals, 0)
        decreases |lists| - i
      {
        Interfere(arrivals, i);
        if lists[i] != [] {
          if IsStale(setup, uptime, lists[i][0]) {
            var node := RemoveHead(i, false);
          } else {
            var node := RemoveHead(i, true);
            didWork := true;
            break;
          }
        }
        i := i + 1;
      }
    }

    /** The starvation pass: the time-critical loop, then the reverse loop. */
    method StarvationPass(first: Arrivals, second: Arrivals)
      requires Valid()
      modifies this
      ensures Valid() && State() == Starve(old(State()), setup, first, second)
    {
      CriticalKeepsLists(State(), setup, first, 0);
      CriticalScan(first);
      ReverseScan(second);
    }

    method ReverseScan(arrivals: Arrivals)
      requires Valid()
      modifies this
      ensures Valid() && State() == ReverseFrom(old(State()), arrivals, |old(lists)|)
    {
      var i := |lists|;
      while i > 0
        invariant 0 <= i <= |lists| && Valid()
        invariant ReverseFrom(State(), arrivals, i) == ReverseFrom(old(State()), arrivals, |old(lists)|)
      {
        i := i - 1;
        Interfere(arrivals, i);
        if lists[i] != [] {
          var node := RemoveHead(i, true);
        }
      }
    }

    method CriticalScan(arrivals: Arrivals)
      requires Valid()
      modifies this
      ensures Valid() && State() == CriticalFrom(old(State()), setup, arrivals, 0)
    {
      var i := 0;
      while i < |lists|
        invariant i <= |lists| && Valid()
        invariant CriticalFrom(State(), setup, arrivals, i) == CriticalFrom(old(State()), setup, arrivals, 0)
        decreases |lists| - i
      {
        if setup.nice[i] != setup.critical { break; }
        Interfere(arrivals, i);
        if lists[i] != [] {
          var node := RemoveHead(i, true);
          break;
        }
        i := i + 1;
      }
    }
  }

  /* ------------------------------- the theorems ---------------------------- */

  /** The nodes that have left list `i`, in order. */
  function Taken(log: seq<Event>, i: nat): seq<Buffered> {
    if log == [] then []
    else
      var last := log[|log| - 1];
      Taken(log[..|log| - 1], i) + (if last.list == i then [last.node] else [])
  }

  lemma TakenAppend(log: seq<Event>, e: Event, i: nat)
    ensures Taken(log + [e], i) == Taken(log, i) + (if e.list == i then [e.node] else [])
  {
    assert (log + [e])[..|log|] == log;
  }

  /** List `i` is a FIFO: what has ever entered it only grows at the end, and what has left it
      is a prefix of that. */
  predicate Fifo(s: Sched, t: Sched, i: nat) {
    && i < |s.lists| == |t.lists|
    && Taken(s.log, i) <= Taken(t.log, i)
    && Taken(s.log, i) + s.lists[i] <= Taken(t.log, i) + t.lists[i]
  }

  lemma FifoComposes(s: Sched, t: Sched, u: Sched, i: nat)
    requires Fifo(s, t, i) && Fifo(t, u, i)
    ensures Fifo(s, u, i)
  {
  }

  lemma FifoCounts(s: Sched, t: Sched, i: nat)
    requires Fifo(s, t, i)
    ensures i < |s.lists| == |t.lists|
    ensures |Taken(s.log, i)| <= |Taken(t.log, i)|
    ensures |Taken(s.log, i)| + |s.lists[i]| <= |Taken(t.log, i)| + |t.lists[i]|
  {
    assert |Taken(s.log, i) + s.lists[i]| <= |Taken(t.log, i) + t.lists[i]|;
  }

  lemma FifoRefl(s: Sched, i: nat)
    requires i < |s.lists|
    ensures Fifo(s, s, i)
  {
  }

  lemma ArriveIsFifo(s: Sched, arrivals: Arrivals, v: nat, i: nat)
    requires i < |s.lists|
    ensures Fifo(s, Arrive(s, arrivals, v), i)
  {
    assert Taken(s.log, i) + (s.lists[i] + arrivals(v, i)) == (Taken(s.log, i) + s.lists[i]) + arrivals(v, i);
  }

  lemma TakeHeadIsFifo(s: Sched, j: nat, dispatched: bool, i: nat)
    requires j < |s.lists| && s.lists[j] != [] && i < |s.lists|
    ensures var t := TakeHead(s, j, dispatched);
            Fifo(s, t, i) && (i == j ==> |Taken(t.log, i)| == |Taken(s.log, i)| + 1)
            && (i != j ==> Taken(t.log, i) == Taken(s.log, i))
  {
    var t := TakeHead(s, j, dispatched);
    TakenAppend(s.log, Event(j, s.lists[j][0], dispatched), i);
    if i == j {
      assert s.lists[i] == [s.lists[i][0]] + t.lists[i];
      assert Taken(s.log, i) + s.lists[i] == Taken(t.log, i) + t.lists[i];
    }
  }

  lemma {:induction false} NormalIsFifo(s: Sched, c: Setup, uptime: int, arrivals: Arrivals, i: nat, k: nat)
    requires i <= |s.lists| && k < |s.lists|
    ensures Fifo(s, NormalFrom(s, c, uptime, arrivals, i).0, k)
    decreases |s.lists| - i
  {
    hide Fifo;
    var t := NormalFrom(s, c, uptime, arrivals, i).0;
    if i == |s.lists| {
      FifoRefl(s, k);
    } else {
      var a := Arrive(s, arrivals, i);
      ArriveIsFifo(s, arrivals, i, k);
      if a.lists[i] == [] {
        NormalIsFifo(a, c, uptime, arrivals, i + 1, k);
        FifoComposes(s, a, t, k);
      } else {
        var stale := IsStale(c, uptime, a.lists[i][0]);
        var b := TakeHead(a, i, !stale);
        TakeHeadIsFifo(a, i, !stale, k);
        FifoComposes(s, a, b, k);
        if stale {
          NormalIsFifo(b, c, uptime, arrivals, i + 1, k);
          FifoComposes(s, b, t, k);
        }
      }
    }
  }

  lemma {:induction false} CriticalIsFifo(s: Sched, c: Setup, arrivals: Arrivals, i: nat, k: nat)
    requires i <= |s.lists| == |c.nice| && k < |s.lists|
    ensures Fifo(s, CriticalFrom(s, c, arrivals, i), k)
    decreases |s.lists| - i
  {
    hide Fifo;
    var t := CriticalFrom(s, c, arrivals, i);
    if i == |s.lists| || c.nice[i] != c.critical {
      FifoRefl(s, k);
    } else {
      var a := Arrive(s, arrivals, i);
      ArriveIsFifo(s, arrivals, i, k);
      if a.lists[i] == [] { CriticalIsFifo(a, c, arrivals, i + 1, k); } else { TakeHeadIsFifo(a, i, true, k); }
      FifoComposes(s, a, t, k);
    }
  }

  lemma ReverseVisitTakesOne(s: Sched, arrivals: Arrivals, i: nat, k: nat)
    requires i < |s.lists| && k < |s.lists|
    ensures var t := ReverseVisit(s, arrivals, i);
            Fifo(s, t, k) && (k == i && s.lists[k] != [] ==> |Taken(t.log, k)| > |Taken(s.log, k)|)
            && (k != i && s.lists[k] != [] ==> t.lists[k] != [])
  {
    var a := Arrive(s, arrivals, i);
    ArriveIsFifo(s, arrivals, i, k);
    if a.lists[i] != [] {
      TakeHeadIsFifo(a, i, true, k);
      hide Fifo;
      FifoComposes(s, a, TakeHead(a, i, true), k);
    }
  }

  lemma TakesOneComposes(s: Sched, b: Sched, t: Sched, i: nat, k: nat)
    requires 0 < i && k < |s.lists| == |b.lists| && Fifo(s, b, k) && Fifo(b, t, k)
    requires k == i - 1 && s.lists[k] != [] ==> |Taken(b.log, k)| > |Taken(s.log, k)|
    requires k != i - 1 && s.lists[k] != [] ==> b.lists[k] != []
    requires k < i - 1 && b.lists[k] != [] ==> |Taken(t.log, k)| > |Taken(b.log, k)|
    ensures Fifo(s, t, k) && (k < i && s.lists[k] != [] ==> |Taken(t.log, k)| > |Taken(s.log, k)|)
  {
    hide Fifo, Taken;
    FifoComposes(s, b, t, k);
    FifoCounts(s, b, k);
    FifoCounts(b, t, k);
  }

  /** The reverse loop takes at least one node from every list below `i` that is not empty. */
  lemma {:induction false} ReverseTakesOne(s: Sched, arrivals: Arrivals, i: nat, k: nat)
    requires i <= |s.lists| && k < |s.lists|
    ensures var t := ReverseFrom(s, arrivals, i);
            Fifo(s, t, k) && (k < i && s.lists[k] != [] ==> |Taken(t.log, k)| > |Taken(s.log, k)|)
    decreases i
  {
    hide Fifo, Taken;
    if i == 0 {
      FifoRefl(s, k);
    } else {
      var b := ReverseVisit(s, arrivals, i - 1);
      ReverseVisitTakesOne(s, arrivals, i - 1, k);
      ReverseTakesOne(b, arrivals, i - 1, k);
      assert ReverseFrom(s, arrivals, i) == ReverseFrom(b, arrivals, i - 1);
      hide ReverseFrom, ReverseVisit, Arrive;
      TakesOneComposes(s, b, ReverseFrom(b, arrivals, i - 1), i, k);
    }
  }

  /** A starvation pass takes at least one node from every list that is not empty at its
      start, whatever arrives meanwhile. */
  lemma StarvationServesEveryList(s: Sched, c: Setup, first: Arrivals, second: Arrivals, k: nat)
    requires |s.lists| == |c.nice| && k < |s.lists|
    ensures var t := Starve(s, c, first, second);
            Fifo(s, t, k) && (s.lists[k] != [] ==> |Taken(t.log, k)| > |Taken(s.log, k)|)
  {
    var m := CriticalFrom(s, c, first, 0);
    CriticalIsFifo(s, c, first, 0, k);
    CriticalKeepsLists(s, c, first, 0);
    ReverseTakesOne(m, second, |m.lists|, k);
    var t := Starve(s, c, first, second);
    assert t == ReverseFrom(m, second, |m.lists|);
    hide Fifo, Taken, Starve, CriticalFrom, ReverseFrom;
    FifoComposes(s, m, t, k);
    FifoCounts(s, m, k);
    FifoCounts(m, t, k);
  }

  datatype Action =
    | Normal(uptime: int, arrivals: Arrivals)
    | Starvation(first: Arrivals, second: Arrivals)
    | Sleep(arrivals: Arrivals)

  function Act(s: Sched, c: Setup, a: Action): Sched
    requires |s.lists| == |c.nice|
  {
    match a
    case Normal(uptime, arrivals) => NormalFrom(s, c, uptime, arrivals, 0).0
    case Starvation(first, second) => Starve(s, c, first, second)
    case Sleep(arrivals) => Arrive(s, arrivals, 0)
  }

  lemma ActIsFifo(s: Sched, c: Setup, a: Action, k: nat)
    requires |s.lists| == |c.nice| && k < |s.lists|
    ensures Fifo(s, Act(s, c, a), k)
    ensures a.Starvation? && s.lists[k] != [] ==> |Taken(Act(s, c, a).log, k)| > |Taken(s.log, k)|
  {
    match a
    case Normal(uptime, arrivals) => NormalIsFifo(s, c, uptime, arrivals, 0, k);
    case Starvation(first, second) => StarvationServesEveryList(s, c, first, second, k);
    case Sleep(arrivals) => ArriveIsFifo(s, arrivals, 0, k);
  }

  ghost predicate History(s: Sched, c: Setup, actions: seq<Action>, t: Sched)
    decreases |actions|
  {
    |s.lists| == |c.nice| &&
    if actions == [] then s == t else History(Act(s, c, actions[0]), c, actions[1..], t)
  }

  function Starvations(actions: seq<Action>): nat {
    if actions == [] then 0 else (if actions[0].Starvation? then 1 else 0) + Starvations(actions[1..])
  }

  function Min(a: nat, b: nat): nat { if a < b then a else b }

  lemma {:induction false} PassesTakeNodes(s: Sched, c: Setup, actions: seq<Action>, t: Sched, i: nat)
    requires History(s, c, actions, t) && i < |s.lists|
    ensures Fifo(s, t, i)
    ensures |Taken(t.log, i)| >= |Taken(s.log, i)| + Min(Starvations(actions), |s.lists[i]|)
    decreases |actions|
  {
    if actions != [] {
      hide Fifo, Taken, Act;
      var r := Act(s, c, actions[0]);
      ActIsFifo(s, c, actions[0], i);
      FifoCounts(s, r, i);
      PassesTakeNodes(r, c, actions[1..], t, i);
      FifoComposes(s, r, t, i);
    }
  }

  /** What a normal scan did: at most one dispatch, its last event; before it at most one
      stale head from each earlier list; and a list it passed without taking anything was
      empty when the scan began. */
  ghost predicate ScanEvents(s: Sched, c: Setup, uptime: int, i: nat, events: seq<Event>, didWork: bool) {
    && (forall n | 0 <= n < |events| :: i <= events[n].list < |s.lists|)
    && (forall n, m | 0 <= n < m < |events| :: events[n].list < events[m].list)
    && (didWork <==> events != [] && events[|events| - 1].dispatched)
    && (forall n | 0 <= n < |events| - 1 :: !events[n].dispatched)
    && (forall n | 0 <= n < |events| :: events[n].dispatched <==> uptime - events[n].node.receivedAt <= c.minAge)
    && (forall j | i <= j < |s.lists| && s.lists[j] != [] && (didWork ==> j <= events[|events| - 1].list) ::
          Took(events, j))
  }

  ghost predicate Took(events: seq<Event>, j: nat) {
    exists n :: 0 <= n < |events| && events[n].list == j
  }

  lemma TookLater(e: Event, rest: seq<Event>, j: nat)
    requires Took(rest, j)
    ensures Took([e] + rest, j)
  {
    var n :| 0 <= n < |rest| && rest[n].list == j;
    assert ([e] + rest)[n + 1].list == j;
  }

  /** A stale head in front of the events of the rest of the scan. */
  lemma StaleThenRest(s: Sched, t: Sched, c: Setup, uptime: int, i: nat, e: Event, rest: seq<Event>, didWork: bool)
    requires i < |s.lists| == |t.lists| && e.list == i && !e.dispatched && IsStale(c, uptime, e.node)
    requires ScanEvents(t, c, uptime, i + 1, rest, didWork)
    requires forall j | i < j < |s.lists| :: s.lists[j] != [] ==> t.lists[j] != []
    ensures ScanEvents(s, c, uptime, i, [e] + rest, didWork)
  {
    var events := [e] + rest;
    assert events[0].list == i;
    assert rest != [] ==> events[|events| - 1] == rest[|rest| - 1];
    forall j | i <= j < |s.lists| && s.lists[j] != [] && (didWork ==> j <= events[|events| - 1].list)
      ensures Took(events, j)
    {
      if j > i { TookLater(e, rest, j); }
    }
  }

  lemma DispatchEndsScan(s: Sched, c: Setup, uptime: int, i: nat, e: Event)
    requires i < |s.lists| && e.list == i && e.dispatched && !IsStale(c, uptime, e.node)
    ensures ScanEvents(s, c, uptime, i, [e], true)
  {
    assert [e][0].list == i;
  }

  lemma EmptyThenRest(s: Sched, t: Sched, c: Setup, uptime: int, i: nat, events: seq<Event>, didWork: bool)
    requires i < |s.lists| == |t.lists| && s.lists[i] == []
    requires ScanEvents(t, c, uptime, i + 1, events, didWork)
    requires forall j | i < j < |s.lists| :: s.lists[j] != [] ==> t.lists[j] != []
    ensures ScanEvents(s, c, uptime, i, events, didWork)
  {
  }

  lemma EndOfScan(s: Sched, c: Setup, uptime: int)
    ensures ScanEvents(s, c, uptime, |s.lists|, [], false)
  {
  }

  lemma TakeHeadLog(s: Sched, i: nat, dispatched: bool, rest: seq<Event>)
    requires i < |s.lists| && s.lists[i] != []
    ensures TakeHead(s, i, dispatched).log + rest == s.log + ([Event(i, s.lists[i][0], dispatched)] + rest)
    ensures TakeHead(s, i, dispatched).log == s.log + [Event(i, s.lists[i][0], dispatched)]
  {
  }

  lemma TakeHeadKeepsOthers(s: Sched, i: nat, dispatched: bool)
    requires i < |s.lists| && s.lists[i] != []
    ensures |TakeHead(s, i, dispatched).lists| == |s.lists|
    ensures forall j | i < j < |s.lists| :: TakeHead(s, i, dispatched).lists[j] == s.lists[j]
  {
  }

  lemma NormalUnfold(s: Sched, c: Setup, uptime: int, arrivals: Arrivals, i: nat)
    requires i < |s.lists|
    ensures var a := Arrive(s, arrivals, i);
            NormalFrom(s, c, uptime, arrivals, i) ==
            if a.lists[i] == [] then NormalFrom(a, c, uptime, arrivals, i + 1)
            else if IsStale(c, uptime, a.lists[i][0]) then
              NormalFrom(TakeHead(a, i, false), c, uptime, arrivals, i + 1)
            else (TakeHead(a, i, true), true)
  {
  }

  lemma {:induction false} NormalScanEvents(s: Sched, c: Setup, uptime: int, arrivals: Arrivals, i: nat)
    returns (events: seq<Event>)
    requires i <= |s.lists|
    ensures NormalFrom(s, c, uptime, arrivals, i).0.log == s.log + events
    ensures ScanEvents(s, c, uptime, i, events, NormalFrom(s, c, uptime, arrivals, i).1)
    decreases |s.lists| - i
  {
    if i < |s.lists| { NormalUnfold(s, c, uptime, arrivals, i); }
    assert i == |s.lists| ==> NormalFrom(s, c, uptime, arrivals, i) == (s, false);
    hide ScanEvents, NormalFrom, Arrive, TakeHead, IsStale;
    if i == |s.lists| {
      events := [];
      EndOfScan(s, c, uptime);
    } else {
      var a := Arrive(s, arrivals, i);
      if a.lists[i] == [] {
        events := NormalScanEvents(a, c, uptime, arrivals, i + 1);
        EmptyThenRest(s, a, c, uptime, i, events, NormalFrom(a, c, uptime, arrivals, i + 1).1);
      } else {
        var stale := IsStale(c, uptime, a.lists[i][0]);
        var e := Event(i, a.lists[i][0], !stale);
        events := [e];
        if stale {
          var b := TakeHead(a, i, false);
          var rest := NormalScanEvents(b, c, uptime, arrivals, i + 1);
          TakeHeadKeepsOthers(a, i, false);
          StaleThenRest(s, b, c, uptime, i, e, rest, NormalFrom(b, c, uptime, arrivals, i + 1).1);
          events := [e] + rest;
          TakeHeadLog(a, i, false, rest);
        } else {
          DispatchEndsScan(s, c, uptime, i, e);
          TakeHeadLog(a, i, true, []);
        }
      }
    }
  }

  /** All dispatched, from lists below `i`, in reverse order. */
  ghost predicate Descending(events: seq<Event>, i: nat) {
    && (forall n | 0 <= n < |events| :: events[n].list < i && events[n].dispatched)
    && (forall n, m | 0 <= n < m < |events| :: events[m].list < events[n].list)
  }

  /** What the second loop does below list `i`: it takes one node from each list that is not
      empty, in reverse order, and dispatches them all. */
  ghost predicate ReverseEvents(s: Sched, i: nat, events: seq<Event>)
    requires i <= |s.lists|
  {
    Descending(events, i) && forall j: nat | j < i && s.lists[j] != [] :: Took(events, j)
  }

  lemma DescendingMore(e: Event, rest: seq<Event>, i: nat)
    requires Descending(rest, i) && e.list == i && e.dispatched
    ensures Descending([e] + rest, i + 1)
  {
    var events := [e] + rest;
    assert events[0] == e && forall n | 0 < n < |events| :: events[n] == rest[n - 1];
  }

  lemma ReverseMore(s: Sched, t: Sched, i: nat, first: seq<Event>, rest: seq<Event>)
    requires 0 < i <= |s.lists| == |t.lists| && ReverseEvents(t, i - 1, rest)
    requires (first == [] && s.lists[i - 1] == []) || (|first| == 1 && first[0].list == i - 1 && first[0].dispatched)
    requires forall j | 0 <= j < i - 1 :: s.lists[j] != [] ==> t.lists[j] != []
    ensures ReverseEvents(s, i, first + rest)
  {
    if first == [] {
      assert first + rest == rest;
      hide Took;
    } else {
      var e := first[0];
      assert first + rest == [e] + rest && ([e] + rest)[0] == e;
      DescendingMore(e, rest, i - 1);
      hide Descending;
      forall j: nat | j < i && s.lists[j] != []
        ensures Took([e] + rest, j)
      {
        if j < i - 1 { TookLater(e, rest, j); }
      }
      hide Took;
    }
  }

  lemma VisitEvents(s: Sched, arrivals: Arrivals, i: nat) returns (events: seq<Event>)
    requires i < |s.lists|
    ensures var t := ReverseVisit(s, arrivals, i);
            && t.log == s.log + events && |t.lists| == |s.lists|
            && ((events == [] && s.lists[i] == []) || (|events| == 1 && events[0].list == i && events[0].dispatched))
            && forall j | 0 <= j < i :: s.lists[j] != [] ==> t.lists[j] != []
  {
    var a := Arrive(s, arrivals, i);
    events := if a.lists[i] == [] then [] else [Event(i, a.lists[i][0], true)];
  }

  lemma ReverseUnfolds(s: Sched, arrivals: Arrivals, i: nat)
    requires i <= |s.lists|
    ensures ReverseFrom(s, arrivals, i) == if i == 0 then s else ReverseFrom(ReverseVisit(s, arrivals, i - 1), arrivals, i - 1)
  {
  }

  lemma NoEventsBelow(s: Sched)
    ensures ReverseEvents(s, 0, [])
  {
  }

  lemma {:induction false} ReverseEventsOf(s: Sched, arrivals: Arrivals, i: nat) returns (events: seq<Event>)
    requires i <= |s.lists|
    ensures ReverseFrom(s, arrivals, i).log == s.log + events && ReverseEvents(s, i, events)
    decreases i
  {
    hide *;
    ReverseUnfolds(s, arrivals, i);
    if i == 0 {
      NoEventsBelow(s);
      events := [];
    } else {
      var b := ReverseVisit(s, arrivals, i - 1);
      var first := VisitEvents(s, arrivals, i - 1);
      var rest := ReverseEventsOf(b, arrivals, i - 1);
      ReverseMore(s, b, i, first, rest);
      events := first + rest;
      assert b.log + rest == s.log + (first + rest);
    }
  }

  /** What the first loop does from list `i` on: at most one dispatch, from the first list that
      is not empty when the scan comes to it; it never goes past a list of another priority. */
  ghost predicate CriticalEvents(s: Sched, c: Setup, i: nat, events: seq<Event>)
    requires i <= |s.lists| == |c.nice|
  {
    && |events| <= 1
    && (events != [] ==>
          && events[0].dispatched && i <= events[0].list < |s.lists|
          && (forall j | i <= j <= events[0].list :: c.nice[j] == c.critical)
          && (forall j | i <= j < events[0].list :: s.lists[j] == []))
    && (events == [] ==> forall j | i <= j < |s.lists| && s.lists[j] != [] :: SomeOther(c, i, j))
  }

  /** A list that is not time critical is between `i` and `j`. */
  ghost predicate SomeOther(c: Setup, i: nat, j: int) { exists m :: i <= m <= j && m < |c.nice| && c.nice[m] != c.critical }

  lemma CriticalMore(s: Sched, a: Sched, c: Setup, i: nat, events: seq<Event>)
    requires i < |s.lists| == |a.lists| == |c.nice| && c.nice[i] == c.critical && s.lists[i] == []
    requires CriticalEvents(a, c, i + 1, events) && forall j | 0 <= j < |s.lists| :: s.lists[j] != [] ==> a.lists[j] != []
    ensures CriticalEvents(s, c, i, events)
  {
    if events == [] {
      forall j | i <= j < |s.lists| && s.lists[j] != []
        ensures SomeOther(c, i, j)
      {
        assert SomeOther(c, i + 1, j);
      }
    }
  }

  /** Lists with more nodes than `one` took are not empty afterwards. */
  ghost predicate Remain(s: Sched, t: Sched, one: seq<Event>) {
    |t.lists| == |s.lists|
    && forall j: nat | j < |s.lists| && |s.lists[j]| > (if Took(one, j) then 1 else 0) :: t.lists[j] != []
  }

  /** The three ways in which the first loop goes on at list `i`. */
  lemma CriticalStops(s: Sched, c: Setup, arrivals: Arrivals, i: nat)
    requires i <= |s.lists| == |c.nice| && (i < |s.lists| ==> c.nice[i] != c.critical)
    ensures CriticalFrom(s, c, arrivals, i) == s && CriticalEvents(s, c, i, []) && Remain(s, s, []) && s.log + [] == s.log
  {
    assert forall j | i <= j < |s.lists| :: SomeOther(c, i, j);
  }

  lemma CriticalTakes(s: Sched, c: Setup, arrivals: Arrivals, i: nat)
    requires i < |s.lists| == |c.nice| && c.nice[i] == c.critical && s.lists[i] + arrivals(i, i) != []
    ensures var t, one := CriticalFrom(s, c, arrivals, i), [Event(i, (s.lists[i] + arrivals(i, i))[0], true)];
            t.log == s.log + one && CriticalEvents(s, c, i, one) && Remain(s, t, one)
  {
    assert [Event(i, (s.lists[i] + arrivals(i, i))[0], true)][0].list == i;
  }

  lemma CriticalPasses(s: Sched, c: Setup, arrivals: Arrivals, i: nat)
    requires i < |s.lists| == |c.nice| && c.nice[i] == c.critical && s.lists[i] + arrivals(i, i) == []
    ensures CriticalFrom(s, c, arrivals, i) == CriticalFrom(Arrive(s, arrivals, i), c, arrivals, i + 1)
  {
  }

  lemma RemainLater(s: Sched, a: Sched, t: Sched, one: seq<Event>)
    requires Remain(a, t, one) && |s.lists| == |a.lists| && forall j | 0 <= j < |s.lists| :: |s.lists[j]| <= |a.lists[j]|
    ensures Remain(s, t, one)
  {
    hide Took;
  }

  lemma {:induction false} CriticalEventsOf(s: Sched, c: Setup, arrivals: Arrivals, i: nat) returns (events: seq<Event>)
    requires i <= |s.lists| == |c.nice|
    ensures var t := CriticalFrom(s, c, arrivals, i);
            t.log == s.log + events && CriticalEvents(s, c, i, events) && Remain(s, t, events)
    decreases |s.lists| - i
  {
    hide *;
    if i == |s.lists| || c.nice[i] != c.critical {
      CriticalStops(s, c, arrivals, i);
      events := [];
    } else if s.lists[i] + arrivals(i, i) != [] {
      CriticalTakes(s, c, arrivals, i);
      events := [Event(i, (s.lists[i] + arrivals(i, i))[0], true)];
    } else {
      var a := Arrive(s, arrivals, i);
      CriticalPasses(s, c, arrivals, i);
      events := CriticalEventsOf(a, c, arrivals, i + 1);
      CriticalMore(s, a, c, i, events);
      RemainLater(s, a, CriticalFrom(a, c, arrivals, i + 1), events);
    }
  }

  /** What a starvation pass does: first at most one dispatch from a time-critical list, then one
      from every list that still has a node, in reverse order.  Nothing is dropped. */
  lemma StarvationEvents(s: Sched, c: Setup, first: Arrivals, second: Arrivals) returns (one: seq<Event>, all: seq<Event>)
    requires |s.lists| == |c.nice|
    ensures Starve(s, c, first, second).log == s.log + (one + all)
    ensures CriticalEvents(s, c, 0, one)
    ensures forall n | 0 <= n < |one + all| :: (one + all)[n].dispatched
    ensures forall n, m | 0 <= n < m < |all| :: all[m].list < all[n].list < |s.lists|
    ensures forall j: nat | j < |s.lists| && |s.lists[j]| > (if Took(one, j) then 1 else 0) :: Took(all, j)
  {
    hide *;
    one := CriticalEventsOf(s, c, first, 0);
    var m := CriticalFrom(s, c, first, 0);
    all := ReverseEventsOf(m, second, |m.lists|);
    StarveIs(s, c, first, second);
    CriticalKeepsLists(s, c, first, 0);
    EventFacts(s, c, one, m, all);
    assert s.log + one + all == s.log + (one + all);
  }

  lemma StarveIs(s: Sched, c: Setup, first: Arrivals, second: Arrivals)
    requires |s.lists| == |c.nice|
    ensures var m := CriticalFrom(s, c, first, 0); Starve(s, c, first, second) == ReverseFrom(m, second, |m.lists|)
  {
    CriticalKeepsLists(s, c, first, 0);
  }

  lemma EventFacts(s: Sched, c: Setup, one: seq<Event>, m: Sched, all: seq<Event>)
    requires |m.lists| == |s.lists| == |c.nice| && CriticalEvents(s, c, 0, one) && ReverseEvents(m, |m.lists|, all)
    requires Remain(s, m, one)
    ensures forall n | 0 <= n < |one + all| :: (one + all)[n].dispatched
    ensures forall n, k | 0 <= n < k < |all| :: all[k].list < all[n].list < |s.lists|
    ensures forall j: nat | j < |s.lists| && |s.lists[j]| > (if Took(one, j) then 1 else 0) :: Took(all, j)
  {
  }

  /* ------------------------ how a node left its list ----------------------- */

  /** The position of the `n`-th departure from list `i`. */
  lemma {:induction false} Departure(log: seq<Event>, i: nat, n: nat) returns (j: nat)
    requires n < |Taken(log, i)|
    ensures j < |log| && log[j].list == i && log[j].node == Taken(log, i)[n] && |Taken(log[..j], i)| == n
  {
    var last := |log| - 1;
    var front := log[..last];
    if n < |Taken(front, i)| {
      j := Departure(front, i, n);
      assert log[..j] == front[..j];
    } else {
      j := last;
    }
  }

  /** A normal scan took place at a time when the node was older than the limit. */
  ghost predicate WasTooOld(node: Buffered, c: Setup, actions: seq<Action>) {
    exists n :: 0 <= n < |actions| && actions[n].Normal? && actions[n].uptime - node.receivedAt > c.minAge
  }

  /** Everything that happens is a dispatch, or a drop of a node that was too old. */
  ghost predicate Excused(e: Event, c: Setup, actions: seq<Action>) { e.dispatched || WasTooOld(e.node, c, actions) }

  lemma ActExcused(s: Sched, c: Setup, a: Action)
    requires |s.lists| == |c.nice|
    ensures s.log <= Act(s, c, a).log
    ensures forall n | |s.log| <= n < |Act(s, c, a).log| :: Excused(Act(s, c, a).log[n], c, [a])
  {
    match a
    case Normal(uptime, arrivals) =>
      var events := NormalScanEvents(s, c, uptime, arrivals, 0);
      var t := Act(s, c, a);
      hide NormalFrom, Act;
      forall n | |s.log| <= n < |t.log|
        ensures Excused(t.log[n], c, [a])
      {
        assert t.log[n] == events[n - |s.log|];
        assert [a][0].uptime == uptime;
      }
    case Starvation(first, second) =>
      var one, all := StarvationEvents(s, c, first, second);
      var t := Act(s, c, a);
      hide Starve, Act;
      forall n | |s.log| <= n < |t.log|
        ensures t.log[n].dispatched
      {
        assert t.log[n] == (one + all)[n - |s.log|];
      }
    case Sleep(arrivals) =>
  }

  lemma {:induction false} HistoryExcused(s: Sched, c: Setup, actions: seq<Action>, t: Sched)
    requires History(s, c, actions, t)
    ensures s.log <= t.log
    ensures forall n | |s.log| <= n < |t.log| :: Excused(t.log[n], c, actions)
    decreases |actions|
  {
    if actions != [] {
      var r := Act(s, c, actions[0]);
      ActExcused(s, c, actions[0]);
      HistoryExcused(r, c, actions[1..], t);
      hide Act, History;
      forall n | |s.log| <= n < |t.log|
        ensures Excused(t.log[n], c, actions)
      {
        if n < |r.log| {
          assert t.log[n] == r.log[n];
          assert WasTooOld(t.log[n].node, c, [actions[0]]) ==> WasTooOld(t.log[n].node, c, actions) by {
            if k :| 0 <= k < 1 && [actions[0]][k].Normal? && [actions[0]][k].uptime - t.log[n].node.receivedAt > c.minAge {
              assert actions[0] == [actions[0]][k];
            }
          }
        } else {
          if k :| 0 <= k < |actions[1..]| && actions[1..][k].Normal? && actions[1..][k].uptime - t.log[n].node.receivedAt > c.minAge {
            assert actions[k + 1] == actions[1..][k];
          }
        }
      }
    }
  }

  /** The starvation bound: a node with `k` nodes ahead of it in its list has left the list
      after at most `k + 1` starvation passes, whatever normal scans happen in between and
      whatever arrives; and it left it for the thread pool, unless a normal scan found it to be
      older than the limit.  `j` is the place of its departure in the log. */
  lemma StarvationBound(s: Sched, c: Setup, actions: seq<Action>, t: Sched, i: nat, k: nat) returns (j: nat)
    requires History(s, c, actions, t)
    requires i < |s.lists| && k < |s.lists[i]| && Starvations(actions) >= k + 1
    ensures |s.log| <= j < |t.log| && |Taken(t.log[..j], i)| == |Taken(s.log, i)| + k
    ensures t.log[j].list == i && t.log[j].node == s.lists[i][k]
    ensures t.log[j].dispatched || WasTooOld(s.lists[i][k], c, actions)
  {
    hide *;
    PassesTakeNodes(s, c, actions, t, i);
    HistoryExcused(s, c, actions, t);
    LeftInTurn(s, t, i, k, Starvations(actions));
    j := Departure(t.log, i, |Taken(s.log, i)| + k);
    NotBefore(s.log, t.log, i, j);
    ExcusedMeans(t.log[j], c, actions);
  }

  lemma LeftInTurn(s: Sched, t: Sched, i: nat, k: nat, passes: nat)
    requires Fifo(s, t, i) && k < |s.lists[i]| && passes >= k + 1
    requires |Taken(t.log, i)| >= |Taken(s.log, i)| + Min(passes, |s.lists[i]|)
    ensures var n := |Taken(s.log, i)| + k; n < |Taken(t.log, i)| && Taken(t.log, i)[n] == s.lists[i][k]
  {
    hide Taken;
    var n := |Taken(s.log, i)| + k;
    assert (Taken(s.log, i) + s.lists[i])[n] == s.lists[i][k];
    assert (Taken(t.log, i) + t.lists[i])[n] == Taken(t.log, i)[n];
  }

  lemma NotBefore(was: seq<Event>, log: seq<Event>, i: nat, j: nat)
    requires was <= log && j < |log| && log[j].list == i && |Taken(log[..j], i)| >= |Taken(was, i)|
    ensures j >= |was|
  {
    if j < |was| {
      assert log[..j] == was[..j] && log[j] == was[j];
      TakenPrefix(was, j, i);
    }
  }

  lemma ExcusedMeans(e: Event, c: Setup, actions: seq<Action>)
    ensures Excused(e, c, actions) <==> e.dispatched || WasTooOld(e.node, c, actions)
  {
  }

  /** A departure inside `log` is one of those counted for it. */
  lemma {:induction false} TakenPrefix(log: seq<Event>, j: nat, i: nat)
    requires j < |log| && log[j].list == i
    ensures |Taken(log[..j], i)| < |Taken(log, i)|
    decreases |log|
  {
    var last := |log| - 1;
    if j < last {
      TakenPrefix(log[..last], j, i);
      assert log[..last][..j] == log[..j];
    }
  }

  /** The time-critical lists come before all others. */
  predicate CriticalPrefix(c: Setup) {
    forall i, j | 0 <= i < j < |c.nice| :: c.nice[j] == c.critical ==> c.nice[i] == c.critical
  }

  /** The order that `sort_priority_list` produces has that property. */
  lemma SortedSetupHasPrefix<T>(levels: PriorityList.Levels, nice: map<T, int>, heads: seq<T>, c: Setup)
    requires forall h | h in heads :: h in nice
    requires c.critical == levels.critical
    requires var r := PriorityList.SortedList(levels, nice, heads);
             |c.nice| == |r| && forall i | 0 <= i < |r| :: r[i] in nice && c.nice[i] == nice[r[i]]
    ensures CriticalPrefix(c)
  {
    forall i, j | 0 <= i < j < |c.nice|
      ensures c.nice[j] == c.critical ==> c.nice[i] == c.critical
    {
      PriorityList.CriticalListsComeFirst(levels, nice, heads, i, j);
    }
  }

  lemma {:induction false} CriticalFindsFirst(s: Sched, c: Setup, arrivals: Arrivals, m: nat, i: nat)
    requires |s.lists| == |c.nice| && m <= i < |s.lists|
    requires forall j | m <= j <= i :: c.nice[j] == c.critical
    requires s.lists[i] != [] && forall j | m <= j < i :: s.lists[j] == []
    requires forall v: nat, j: nat | m <= j < i :: arrivals(v, j) == []
    ensures CriticalFrom(s, c, arrivals, m).log == s.log + [Event(i, s.lists[i][0], true)]
    decreases i - m
  {
    var a := Arrive(s, arrivals, m);
    if m < i { CriticalFindsFirst(a, c, arrivals, m + 1, i); }
  }

  lemma {:induction false} ReverseOnlyAppends(s: Sched, arrivals: Arrivals, i: nat)
    requires i <= |s.lists|
    ensures s.log <= ReverseFrom(s, arrivals, i).log
    decreases i
  {
    if i > 0 {
      ReverseOnlyAppends(ReverseVisit(s, arrivals, i - 1), arrivals, i - 1);
    }
  }

  /** Even in a starvation pass the first node to be dispatched is the head of the first
      non-empty time-critical list, when the lists are in sorted order. */
  lemma StarvationServesCriticalFirst(s: Sched, c: Setup, first: Arrivals, second: Arrivals, i: nat)
    requires |s.lists| == |c.nice| && CriticalPrefix(c) && i < |s.lists| && c.nice[i] == c.critical
    requires s.lists[i] != [] && forall j | 0 <= j < i :: s.lists[j] == []
    requires forall v: nat, j: nat | j < i :: first(v, j) == []
    ensures var t := Starve(s, c, first, second);
            |t.log| > |s.log| && t.log[|s.log|] == Event(i, s.lists[i][0], true)
  {
    CriticalFindsFirst(s, c, first, 0, i);
    var m := CriticalFrom(s, c, first, 0);
    CriticalKeepsLists(s, c, first, 0);
    ReverseOnlyAppends(m, second, |m.lists|);
    assert m.log[|s.log|] == Event(i, s.lists[i][0], true);
  }
}
