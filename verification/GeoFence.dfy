/**
  The geo-fence monitor of src/GeoFence.c.

  A perimeter detection leaves a violation record for the object, a fence detection of the same
  object while that record is valid raises an alert and uses the record up.  Records that are
  too old are dropped whenever a scan of the list passes them.
 */
module GeoFence {
  /** `LBeaconType` without LBEACON_NORMAL, for which the list is never scanned. */
  datatype Kind = Perimeter | Fence

  /** `GeoFenceViolationNode`. */
  datatype Violation = Violation(mac: string, ts: int)

  /** What happens to an object: a record written for it, or one used up by an alert. */
  datatype Event = Recorded(mac: string, time: int) | Alerted(mac: string, time: int)

  /** An object to examine, and whether the database takes an alert for it. */
  datatype Target = Target(mac: string, db: bool)

  datatype Scanned = Scanned(left: seq<Violation>, found: bool, events: seq<Event>)

  /** LENGTH_OF_MAC_ADDRESS without the terminating NUL. */
  predicate IsMac(mac: string) { |mac| == 17 }

  predicate IsStale(v: Violation, now: int, valid: int) { v.ts < now - valid }

  predicate IsValid(v: Violation, now: int, valid: int) { valid > now - v.ts }

  /** `strncmp` over the length of `mac`. */
  predicate Matches(v: Violation, mac: string) { mac <= v.mac }

  /* --------------------------- one scan of the list ------------------------ */

  /** The traversal of the violation list (lines 802-871). */
  function Scan(v: seq<Violation>, mac: string, kind: Kind, now: int, valid: int, db: bool): Scanned {
    if v == [] then Scanned([], false, [])
    else if Matches(v[0], mac) then
      if kind.Fence? && IsValid(v[0], now, valid) then
        if db then Scanned(v[1..], true, [Alerted(mac, now)])
        else
          var r := Scan(v[1..], mac, kind, now, valid, db);
          Scanned(r.left, true, [Alerted(mac, now)] + r.events)
      else if kind.Perimeter? then Scanned([v[0].(ts := now)] + v[1..], true, [Recorded(mac, now)])
      else Scanned(v, true, [])
    else
      var r := Scan(v[1..], mac, kind, now, valid, db);
      if IsStale(v[0], now, valid) then r else r.(left := [v[0]] + r.left)
  }

  /** At most one record per MAC. */
  ghost predicate Unique(v: seq<Violation>) {
    && (forall i | 0 <= i < |v| :: IsMac(v[i].mac))
    && (forall i, j | 0 <= i < j < |v| :: v[i].mac != v[j].mac)
  }

  /** The list as a map from MACs to the time of their record. */
  ghost function View(v: seq<Violation>): map<string, int> {
    if v == [] then map[] else View(v[1..])[v[0].mac := v[0].ts]
  }

  lemma {:induction false} ViewHas(v: seq<Violation>, mac: string)
    ensures mac in View(v) <==> exists i :: 0 <= i < |v| && v[i].mac == mac
  {
    if v != [] {
      ViewHas(v[1..], mac);
      if i :| 0 <= i < |v| && v[i].mac == mac {
        assert i > 0 ==> v[1..][i - 1].mac == mac;
      }
    }
  }

  lemma UniqueTail(v: seq<Violation>)
    requires Unique(v) && v != []
    ensures Unique(v[1..]) && v[0].mac !in View(v[1..])
  {
    ViewHas(v[1..], v[0].mac);
    forall i, j | 0 <= i < j < |v| - 1
      ensures v[1..][i].mac != v[1..][j].mac
    {
      assert v[i + 1].mac != v[j + 1].mac;
    }
  }

  lemma UniqueCons(r: Violation, v: seq<Violation>)
    requires Unique(v) && IsMac(r.mac) && r.mac !in View(v)
    ensures Unique([r] + v) && View([r] + v) == View(v)[r.mac := r.ts]
  {
    var w := [r] + v;
    assert w[1..] == v;
    forall i | 0 <= i < |v|
      ensures v[i].mac != r.mac
    {
      ViewHas(v, r.mac);
    }
  }

  lemma {:induction false} UniqueSnoc(v: seq<Violation>, r: Violation)
    requires Unique(v) && IsMac(r.mac) && r.mac !in View(v)
    ensures Unique(v + [r]) && View(v + [r]) == View(v)[r.mac := r.ts]
  {
    if v == [] {
      assert v + [r] == [r] + v;
      UniqueCons(r, v);
    } else {
      UniqueTail(v);
      assert IsMac(v[0].mac) && View(v) == View(v[1..])[v[0].mac := v[0].ts];
      hide Unique;
      UniqueSnoc(v[1..], r);
      assert v + [r] == [v[0]] + (v[1..] + [r]);
      UniqueCons(v[0], v[1..] + [r]);
    }
  }

  /** What a scan does to the records of other objects: it drops stale ones only. */
  ghost predicate Thinned(was: map<string, int>, left: map<string, int>, mac: string, now: int, valid: int) {
    && (forall k | k in left && k != mac :: k in was && left[k] == was[k])
    && (forall k | k in was && k != mac && was[k] >= now - valid :: k in left)
  }

  /** What a scan does to the record of its own object. */
  ghost predicate Handled(was: map<string, int>, left: map<string, int>, events: seq<Event>,
                          mac: string, kind: Kind, now: int, valid: int) {
    if mac !in was then
      mac !in left && events == []
    else if kind.Perimeter? then
      mac in left && left[mac] == now && events == [Recorded(mac, now)]
    else if valid > now - was[mac] then
      mac !in left && events == [Alerted(mac, now)]
    else
      mac in left && left[mac] == was[mac] && events == []
  }

  ghost predicate ScanDid(was: map<string, int>, left: map<string, int>, found: bool, events: seq<Event>,
                          mac: string, kind: Kind, now: int, valid: int) {
    && found == (mac in was)
    && Thinned(was, left, mac, now, valid)
    && Handled(was, left, events, mac, kind, now, valid)
    && (mac !in was ==> forall k | k in left :: left[k] >= now - valid)
  }

  lemma ScanPassed(v: Violation, was: map<string, int>, left: map<string, int>, found: bool, events: seq<Event>,
                   mac: string, kind: Kind, now: int, valid: int)
    requires ScanDid(was, left, found, events, mac, kind, now, valid) && v.mac != mac && v.mac !in was
    ensures v.mac !in left
    ensures IsStale(v, now, valid) ==> ScanDid(was[v.mac := v.ts], left, found, events, mac, kind, now, valid)
    ensures !IsStale(v, now, valid) ==>
              ScanDid(was[v.mac := v.ts], left[v.mac := v.ts], found, events, mac, kind, now, valid)
  {
  }

  ghost predicate ScanMeans(v: seq<Violation>, r: Scanned, mac: string, kind: Kind, now: int, valid: int) {
    Unique(r.left) && ScanDid(View(v), View(r.left), r.found, r.events, mac, kind, now, valid)
  }

  lemma ScanHit(v: seq<Violation>, mac: string, kind: Kind, now: int, valid: int, db: bool)
    requires Unique(v) && v != [] && mac == v[0].mac
    requires ScanMeans(v[1..], Scan(v[1..], mac, kind, now, valid, db), mac, kind, now, valid)
    ensures ScanMeans(v, Scan(v, mac, kind, now, valid, db), mac, kind, now, valid)
  {
    UniqueTail(v);
    UniqueCons(v[0].(ts := now), v[1..]);
    hide Unique;
  }

  lemma ScanMiss(v: seq<Violation>, mac: string, kind: Kind, now: int, valid: int, db: bool)
    requires Unique(v) && v != [] && mac != v[0].mac && IsMac(mac)
    requires ScanMeans(v[1..], Scan(v[1..], mac, kind, now, valid, db), mac, kind, now, valid)
    ensures ScanMeans(v, Scan(v, mac, kind, now, valid, db), mac, kind, now, valid)
  {
    UniqueTail(v);
    var rest := Scan(v[1..], mac, kind, now, valid, db);
    assert IsMac(v[0].mac) && !Matches(v[0], mac);
    hide Unique, ScanDid, IsMac;
    ScanPassed(v[0], View(v[1..]), View(rest.left), rest.found, rest.events, mac, kind, now, valid);
    if !IsStale(v[0], now, valid) { UniqueCons(v[0], rest.left); }
  }

  lemma {:induction false} ScanMeaning(v: seq<Violation>, mac: string, kind: Kind, now: int, valid: int, db: bool)
    requires Unique(v) && IsMac(mac)
    ensures ScanMeans(v, Scan(v, mac, kind, now, valid, db), mac, kind, now, valid)
  {
    if v != [] {
      UniqueTail(v);
      ScanMeaning(v[1..], mac, kind, now, valid, db);
      if mac == v[0].mac {
        ScanHit(v, mac, kind, now, valid, db);
      } else {
        ScanMiss(v, mac, kind, now, valid, db);
      }
    }
  }

  /* ----------------------------- one call of the monitor ------------------- */

  /** The list, the flag `is_found_mac_address`, and the events so far. */
  datatype State = State(list: seq<Violation>, found: bool, log: seq<Event>)

  /** One examined object: a scan, and a new record if the flag is still clear. */
  function Visit(s: State, t: Target, kind: Kind, now: int, valid: int): State {
    var r := Scan(s.list, t.mac, kind, now, valid, t.db);
    var found := s.found || r.found;
    if kind.Perimeter? && !found then
      State(r.left + [Violation(t.mac, now)], found, s.log + r.events + [Recorded(t.mac, now)])
    else
      State(r.left, found, s.log + r.events)
  }

  function VisitAll(s: State, targets: seq<Target>, kind: Kind, now: int, valid: int): State {
    if targets == [] then s
    else Visit(VisitAll(s, targets[..|targets| - 1], kind, now, valid), targets[|targets| - 1], kind, now, valid)
  }

  ghost predicate AreMacs(targets: seq<Target>) {
    forall i | 0 <= i < |targets| :: IsMac(targets[i].mac)
  }

  /** The flag keeps an object without a record from getting one. */
  ghost predicate IsBlocked(s: State, t: Target, kind: Kind) {
    kind.Perimeter? && s.found && t.mac !in View(s.list)
  }

  /** The events of one visit and what they do to the object's record. */
  ghost predicate Visited(s: State, r: State, t: Target, kind: Kind, now: int, valid: int) {
    var was, left := View(s.list), View(r.list);
    && Thinned(was, left, t.mac, now, valid)
    && (if kind.Perimeter? && t.mac !in was && !s.found then
          t.mac in left && left[t.mac] == now && r.log == s.log + [Recorded(t.mac, now)]
        else
          |s.log| <= |r.log| && r.log[..|s.log|] == s.log
          && Handled(was, left, r.log[|s.log|..], t.mac, kind, now, valid))
    && r.found == (s.found || t.mac in was)
  }

  /** No record but that of `mac` is stale. */
  ghost predicate NoneStale(m: map<string, int>, mac: string, now: int, valid: int) {
    forall k | k in m && k != mac :: m[k] >= now - valid
  }

  lemma VisitMeaning(s: State, t: Target, kind: Kind, now: int, valid: int)
    requires Unique(s.list) && IsMac(t.mac)
    ensures var r := Visit(s, t, kind, now, valid); Unique(r.list) && Visited(s, r, t, kind, now, valid)
    ensures t.mac !in View(s.list) ==> NoneStale(View(Visit(s, t, kind, now, valid).list), t.mac, now, valid)
  {
    ScanMeaning(s.list, t.mac, kind, now, valid, t.db);
    var r := Scan(s.list, t.mac, kind, now, valid, t.db);
    hide Scan, Unique, View;
    if kind.Perimeter? && !(s.found || r.found) {
      UniqueSnoc(r.left, Violation(t.mac, now));
      assert r.events == [] && s.log + [] == s.log;
    } else {
      assert (s.log + r.events)[|s.log|..] == r.events;
      assert (s.log + r.events)[..|s.log|] == s.log;
    }
  }

  lemma {:induction false} VisitAllKeepsUnique(s: State, targets: seq<Target>, kind: Kind, now: int, valid: int)
    requires Unique(s.list) && AreMacs(targets)
    ensures Unique(VisitAll(s, targets, kind, now, valid).list)
  {
    if targets != [] {
      var n := |targets| - 1;
      VisitAllKeepsUnique(s, targets[..n], kind, now, valid);
      VisitMeaning(VisitAll(s, targets[..n], kind, now, valid), targets[n], kind, now, valid);
    }
  }

  /* -------------------- which detections a call records -------------------- */

  /** The state in which the target `j` of a call is visited. */
  ghost function Before(s0: State, targets: seq<Target>, j: nat, kind: Kind, now: int, valid: int): State
    requires j <= |targets|
  {
    VisitAll(s0, targets[..j], kind, now, valid)
  }

  lemma BeforeNext(s0: State, targets: seq<Target>, j: nat, kind: Kind, now: int, valid: int)
    requires Unique(s0.list) && AreMacs(targets) && j < |targets|
    ensures var s := Before(s0, targets, j, kind, now, valid);
            var r := Before(s0, targets, j + 1, kind, now, valid);
            Unique(s.list) && Unique(r.list) && Visited(s, r, targets[j], kind, now, valid)
            && (targets[j].mac !in View(s.list) ==> NoneStale(View(r.list), targets[j].mac, now, valid))
  {
    assert targets[..j + 1][..j] == targets[..j];
    VisitAllKeepsUnique(s0, targets[..j], kind, now, valid);
    VisitMeaning(Before(s0, targets, j, kind, now, valid), targets[j], kind, now, valid);
  }

  ghost predicate SomeBlocked(s0: State, targets: seq<Target>, n: nat, now: int, valid: int)
    requires n <= |targets|
  {
    exists j: nat :: j < n && IsBlocked(Before(s0, targets, j, Perimeter, now, valid), targets[j], Perimeter)
  }

  ghost predicate HasRecord(m: map<string, int>, mac: string, now: int) { mac in m && m[mac] == now }

  ghost predicate AllRecorded(m: map<string, int>, targets: seq<Target>, n: nat, now: int)
    requires n <= |targets|
  {
    forall j | 0 <= j < n :: HasRecord(m, targets[j].mac, now)
  }

  /** Within a call the records of its objects are all new, and an object without one was blocked. */
  ghost predicate Blame(s: State, targets: seq<Target>, n: nat, now: int)
    requires n <= |targets|
  {
    && (forall j | 0 <= j < n && targets[j].mac in View(s.list) :: View(s.list)[targets[j].mac] == now)
    && (forall j | 0 <= j < n && targets[j].mac !in View(s.list) :: s.found)
  }

  lemma RecordsStep(s: State, r: State, targets: seq<Target>, n: nat, now: int, valid: int)
    requires n < |targets| && valid >= 0 && Visited(s, r, targets[n], Perimeter, now, valid) && Blame(s, targets, n, now)
    ensures Blame(r, targets, n + 1, now)
    ensures AllRecorded(View(r.list), targets, n + 1, now) <==>
            (AllRecorded(View(s.list), targets, n, now) && !IsBlocked(s, targets[n], Perimeter))
  {
    hide View;
    var was, left, mac := View(s.list), View(r.list), targets[n].mac;
    assert mac in left ==> left[mac] == now;
    assert mac !in left <==> IsBlocked(s, targets[n], Perimeter);
    forall j | 0 <= j < n
      ensures targets[j].mac in left ==> left[targets[j].mac] == now
      ensures targets[j].mac !in left ==> r.found
      ensures HasRecord(was, targets[j].mac, now) ==> HasRecord(left, targets[j].mac, now)
      ensures mac in left && HasRecord(left, targets[j].mac, now) && targets[j].mac != mac ==> HasRecord(was, targets[j].mac, now)
    {
    }
    if mac in left && AllRecorded(left, targets, n + 1, now) {
      forall j | 0 <= j < n
        ensures HasRecord(was, targets[j].mac, now)
      {
        assert HasRecord(left, targets[j].mac, now);
        assert targets[j].mac == mac && mac !in was ==> s.found;
      }
    }
  }

  lemma SomeBlockedNext(s0: State, targets: seq<Target>, n: nat, now: int, valid: int)
    requires n < |targets|
    ensures SomeBlocked(s0, targets, n + 1, now, valid) <==>
            (SomeBlocked(s0, targets, n, now, valid) || IsBlocked(Before(s0, targets, n, Perimeter, now, valid), targets[n], Perimeter))
  {
    hide Before, IsBlocked;
  }

  /** A perimeter call leaves a record of the present time for each of its objects if and only
      if it never comes to an object without a record after one with a record. */
  lemma {:induction false} RecordsAllIff(s0: State, targets: seq<Target>, n: nat, now: int, valid: int)
    requires Unique(s0.list) && !s0.found && AreMacs(targets) && n <= |targets| && valid >= 0
    ensures AllRecorded(View(Before(s0, targets, n, Perimeter, now, valid).list), targets, n, now) <==>
            !SomeBlocked(s0, targets, n, now, valid)
    ensures Blame(Before(s0, targets, n, Perimeter, now, valid), targets, n, now)
  {
    if n > 0 {
      RecordsAllIff(s0, targets, n - 1, now, valid);
      BeforeNext(s0, targets, n - 1, Perimeter, now, valid);
      SomeBlockedNext(s0, targets, n - 1, now, valid);
      hide *;
      RecordsStep(Before(s0, targets, n - 1, Perimeter, now, valid), Before(s0, targets, n, Perimeter, now, valid), targets, n - 1, now, valid);
    }
  }

  /** The object of target `j` has a record before the call or is an earlier target of it. */
  ghost predicate Known(m: map<string, int>, targets: seq<Target>, j: nat)
    requires j < |targets|
  {
    targets[j].mac in m || exists i :: 0 <= i < j && targets[i].mac == targets[j].mac
  }

  ghost predicate SomeKnown(m: map<string, int>, targets: seq<Target>, n: nat)
    requires n <= |targets|
  {
    exists i: nat :: i < n && Known(m, targets, i)
  }

  /** Once a target is known, all later ones are. */
  ghost predicate Orderly(m: map<string, int>, targets: seq<Target>, n: nat)
    requires n <= |targets|
  {
    forall j: nat | j < n && SomeKnown(m, targets, j) :: Known(m, targets, j)
  }

  ghost predicate Reached(m: map<string, int>, s: State, targets: seq<Target>, n: nat, now: int, valid: int)
    requires n <= |targets|
  {
    && (forall k :: k in View(s.list) <==> k in m || exists i :: 0 <= i < n && targets[i].mac == k)
    && (forall k | k in View(s.list) :: View(s.list)[k] >= now - valid)
    && (s.found <==> SomeKnown(m, targets, n))
  }

  lemma ReachedNext(m: map<string, int>, s: State, r: State, targets: seq<Target>, n: nat, now: int, valid: int)
    requires n < |targets| && valid >= 0 && Visited(s, r, targets[n], Perimeter, now, valid)
    requires Reached(m, s, targets, n, now, valid)
    ensures IsBlocked(s, targets[n], Perimeter) <==> (SomeKnown(m, targets, n) && !Known(m, targets, n))
    ensures !IsBlocked(s, targets[n], Perimeter) ==> Reached(m, r, targets, n + 1, now, valid)
  {
    hide View;
    assert SomeKnown(m, targets, n + 1) <==> SomeKnown(m, targets, n) || Known(m, targets, n);
  }

  lemma OrderlyNext(m: map<string, int>, targets: seq<Target>, n: nat)
    requires n < |targets|
    ensures Orderly(m, targets, n + 1) <==>
            (Orderly(m, targets, n) && (SomeKnown(m, targets, n) ==> Known(m, targets, n)))
  {
    hide SomeKnown, Known;
  }

  /** From a state `first` that is in order on. */
  lemma {:induction false} BlockedIffDisorderly(s0: State, m: map<string, int>, targets: seq<Target>, first: nat, n: nat, now: int, valid: int)
    requires Unique(s0.list) && AreMacs(targets) && first <= n <= |targets| && valid >= 0
    requires !SomeBlocked(s0, targets, first, now, valid) && Orderly(m, targets, first)
    requires Reached(m, Before(s0, targets, first, Perimeter, now, valid), targets, first, now, valid)
    ensures SomeBlocked(s0, targets, n, now, valid) <==> !Orderly(m, targets, n)
    ensures Orderly(m, targets, n) ==> Reached(m, Before(s0, targets, n, Perimeter, now, valid), targets, n, now, valid)
    decreases n
  {
    hide *;
    if n > first {
      BlockedIffDisorderly(s0, m, targets, first, n - 1, now, valid);
      BeforeNext(s0, targets, n - 1, Perimeter, now, valid);
      SomeBlockedNext(s0, targets, n - 1, now, valid);
      OrderlyNext(m, targets, n - 1);
      if Orderly(m, targets, n - 1) {
        ReachedNext(m, Before(s0, targets, n - 1, Perimeter, now, valid), Before(s0, targets, n, Perimeter, now, valid), targets, n - 1, now, valid);
      }
    }
  }

  /** The records that are not stale. */
  ghost function Fresh(m: map<string, int>, now: int, valid: int): map<string, int> {
    map k | k in m && m[k] >= now - valid :: m[k]
  }

  /** The scan for a first object without a record has dropped all stale ones. */
  lemma UnknownFirst(s0: State, targets: seq<Target>, now: int, valid: int)
    requires Unique(s0.list) && !s0.found && AreMacs(targets) && valid >= 0
    requires targets != [] && targets[0].mac !in View(s0.list)
    ensures var m := Fresh(View(s0.list), now, valid);
            && !SomeBlocked(s0, targets, 1, now, valid) && Orderly(m, targets, 1)
            && Reached(m, Before(s0, targets, 1, Perimeter, now, valid), targets, 1, now, valid)
  {
    BeforeNext(s0, targets, 0, Perimeter, now, valid);
    assert targets[..0] == [];
    var r := Before(s0, targets, 1, Perimeter, now, valid);
    hide Before, View;
    assert Visited(s0, r, targets[0], Perimeter, now, valid);
    assert Before(s0, targets, 0, Perimeter, now, valid) == s0 by { BeforeNone(s0, targets, now, valid); }
  }

  lemma BeforeNone(s0: State, targets: seq<Target>, now: int, valid: int)
    ensures Before(s0, targets, 0, Perimeter, now, valid) == s0
  {
    assert targets[..0] == [];
  }

  /* A first object with a record sets the flag, so from then on records only go.  A stale one
     goes when a scan passes it on the way to a record behind it. */

  /** The record of `a` is in front of that of `b`. */
  ghost predicate Ahead(v: seq<Violation>, a: string, b: string) {
    v != [] && ((v[0].mac == a && b in View(v[1..])) || Ahead(v[1..], a, b))
  }

  lemma {:induction false} AheadMeans(v: seq<Violation>, a: string, b: string)
    requires Unique(v)
    ensures Ahead(v, a, b) <==> exists i, j :: 0 <= i < j < |v| && v[i].mac == a && v[j].mac == b
    ensures Ahead(v, a, b) ==> a in View(v) && b in View(v) && a != b
  {
    if v != [] {
      UniqueTail(v);
      AheadMeans(v[1..], a, b);
      ViewHas(v[1..], b);
      if i, j :| 0 <= i < j < |v| && v[i].mac == a && v[j].mac == b {
        assert v[1..][j - 1].mac == b;
        assert i > 0 ==> v[1..][i - 1].mac == a;
      }
      if i, j :| 0 <= i < j < |v| - 1 && v[1..][i].mac == a && v[1..][j].mac == b {
        assert v[i + 1].mac == a && v[j + 1].mac == b;
      }
    }
  }

  /** What a scan that finds the record of `x` leaves. */
  ghost predicate Sifted(v: seq<Violation>, left: seq<Violation>, x: string, now: int, valid: int) {
    forall k | k != x :: k in View(left) <==> k in View(v) && !(View(v)[k] < now - valid && Ahead(v, k, x))
  }

  /** What is left is in its old order. */
  ghost predicate SameOrder(v: seq<Violation>, left: seq<Violation>) {
    forall a, b | a in View(left) && b in View(left) :: Ahead(left, a, b) <==> Ahead(v, a, b)
  }

  ghost predicate Sifts(v: seq<Violation>, left: seq<Violation>, x: string, now: int, valid: int) {
    Sifted(v, left, x, now, valid) && SameOrder(v, left)
  }

  lemma SiftHit(v: seq<Violation>, now: int, valid: int)
    requires Unique(v) && v != []
    ensures Sifts(v, [v[0].(ts := now)] + v[1..], v[0].mac, now, valid)
  {
    var left, x := [v[0].(ts := now)] + v[1..], v[0].mac;
    UniqueTail(v);
    assert left[1..] == v[1..];
    forall k | k != x
      ensures k in View(left) <==> k in View(v) && !(View(v)[k] < now - valid && Ahead(v, k, x))
    {
      AheadMeans(v[1..], k, x);
    }
  }

  lemma SiftMiss(v: seq<Violation>, rest: seq<Violation>, x: string, now: int, valid: int)
    requires Unique(v) && v != [] && v[0].mac != x && x in View(v[1..]) && Sifted(v[1..], rest, x, now, valid)
    ensures Sifted(v, if IsStale(v[0], now, valid) then rest else [v[0]] + rest, x, now, valid)
  {
    UniqueTail(v);
    hide Unique;
    assert !IsStale(v[0], now, valid) ==> ([v[0]] + rest)[1..] == rest;
  }

  lemma OrderMiss(v: seq<Violation>, rest: seq<Violation>, x: string, now: int, valid: int, keep: bool)
    requires Unique(v) && v != [] && x in View(v[1..]) && Unique(rest) && v[0].mac !in View(rest)
    requires Sifted(v[1..], rest, x, now, valid) && SameOrder(v[1..], rest)
    ensures SameOrder(v, if keep then [v[0]] + rest else rest)
  {
    var left := if keep then [v[0]] + rest else rest;
    UniqueTail(v);
    assert keep ==> left[1..] == rest;
    assert forall k | k in View(rest) :: k in View(v[1..]);
    forall a, b | a in View(left) && b in View(left)
      ensures Ahead(left, a, b) <==> Ahead(v, a, b)
    {
      AheadMeans(v[1..], a, b);
      AheadMeans(rest, a, b);
    }
  }

  lemma {:induction false} ScanSifts(v: seq<Violation>, mac: string, now: int, valid: int, db: bool)
    requires Unique(v) && IsMac(mac) && mac in View(v)
    ensures Sifts(v, Scan(v, mac, Perimeter, now, valid, db).left, mac, now, valid)
  {
    UniqueTail(v);
    assert Matches(v[0], mac) <==> v[0].mac == mac;
    if v[0].mac == mac {
      hide Sifts;
      SiftHit(v, now, valid);
    } else {
      ScanSifts(v[1..], mac, now, valid, db);
      ScanMeaning(v[1..], mac, Perimeter, now, valid, db);
      var rest := Scan(v[1..], mac, Perimeter, now, valid, db).left;
      hide Sifted, SameOrder, Unique;
      SiftMiss(v, rest, mac, now, valid);
      OrderMiss(v, rest, mac, now, valid, !IsStale(v[0], now, valid));
    }
  }

  ghost predicate IsTargeted(targets: seq<Target>, n: nat, k: string)
    requires n <= |targets|
  {
    exists i: nat :: i < n && targets[i].mac == k
  }

  /** Some target before `n` has its record behind that of `k`. */
  ghost predicate IsPassed(v: seq<Violation>, targets: seq<Target>, n: nat, k: string)
    requires n <= |targets|
  {
    exists i: nat :: i < n && Ahead(v, k, targets[i].mac)
  }

  /** A scan passes the record of `k` while it is stale. */
  ghost predicate Dropped(v: seq<Violation>, targets: seq<Target>, n: nat, k: string, now: int, valid: int)
    requires n <= |targets|
  {
    k in View(v) && View(v)[k] < now - valid && exists i: nat :: i < n && PassedAt(v, targets, i, k)
  }

  ghost predicate PassedAt(v: seq<Violation>, targets: seq<Target>, i: nat, k: string)
    requires i < |targets|
  {
    Ahead(v, k, targets[i].mac) && !IsTargeted(targets, i, k)
  }

  /** The object of target `j` has a record, and nothing will drop it before its turn. */
  ghost predicate Safe(v: seq<Violation>, targets: seq<Target>, j: nat, now: int, valid: int)
    requires j < |targets|
  {
    var k := targets[j].mac;
    k in View(v) && (View(v)[k] >= now - valid || IsTargeted(targets, j, k) || !IsPassed(v, targets, j, k))
  }

  ghost predicate AllSafe(v: seq<Violation>, targets: seq<Target>, n: nat, now: int, valid: int)
    requires n <= |targets|
  {
    forall j: nat | j < n :: Safe(v, targets, j, now, valid)
  }

  /** The records after `n` targets that all had one. */
  ghost predicate Tracked(v: seq<Violation>, s: State, targets: seq<Target>, n: nat, now: int, valid: int)
    requires n <= |targets|
  {
    && (s.found <==> n > 0)
    && (forall k | k in View(s.list) :: k in View(v) && View(s.list)[k] == if IsTargeted(targets, n, k) then now else View(v)[k])
    && (forall k | k in View(v) :: k in View(s.list) <==> !Dropped(v, targets, n, k, now, valid))
    && (forall k | IsTargeted(targets, n, k) :: k in View(s.list))
    && SameOrder(v, s.list)
  }

  lemma SomeNext(v: seq<Violation>, targets: seq<Target>, n: nat, k: string, now: int, valid: int)
    requires n < |targets|
    ensures IsTargeted(targets, n + 1, k) <==> IsTargeted(targets, n, k) || targets[n].mac == k
    ensures Dropped(v, targets, n + 1, k, now, valid) <==>
            (Dropped(v, targets, n, k, now, valid) ||
             (k in View(v) && View(v)[k] < now - valid && Ahead(v, k, targets[n].mac) && !IsTargeted(targets, n, k)))
  {
    hide View, Ahead;
    assert PassedAt(v, targets, n, k) <==> Ahead(v, k, targets[n].mac) && !IsTargeted(targets, n, k);
    hide PassedAt;
  }

  /** A target with a record is blocked exactly when the record has been dropped. */
  lemma SafeIff(v: seq<Violation>, s: State, targets: seq<Target>, n: nat, now: int, valid: int)
    requires n < |targets| && Tracked(v, s, targets, n, now, valid) && (n == 0 ==> targets[0].mac in View(v))
    ensures Safe(v, targets, n, now, valid) <==> targets[n].mac in View(s.list)
    ensures IsBlocked(s, targets[n], Perimeter) <==> !Safe(v, targets, n, now, valid)
  {
    hide View, Ahead, SameOrder;
    var k := targets[n].mac;
    if !IsTargeted(targets, n, k) {
      assert forall i: nat | i < n :: PassedAt(v, targets, i, k) <==> Ahead(v, k, targets[i].mac);
      assert IsPassed(v, targets, n, k) <==> exists i: nat :: i < n && PassedAt(v, targets, i, k);
    }
  }

  lemma VisitSifts(s: State, t: Target, now: int, valid: int)
    requires Unique(s.list) && IsMac(t.mac) && t.mac in View(s.list)
    ensures Sifts(s.list, Visit(s, t, Perimeter, now, valid).list, t.mac, now, valid)
  {
    ScanSifts(s.list, t.mac, now, valid, t.db);
    ScanMeaning(s.list, t.mac, Perimeter, now, valid, t.db);
    hide Scan, Unique, Sifts;
  }

  lemma OrderComposes(v: seq<Violation>, w: seq<Violation>, left: seq<Violation>)
    requires SameOrder(v, w) && SameOrder(w, left) && forall k | k in View(left) :: k in View(w)
    ensures SameOrder(v, left)
  {
    hide View, Ahead;
  }

  /** One key, over one more target that has a record. */
  lemma TrackedKey(v: seq<Violation>, s: State, r: State, targets: seq<Target>, n: nat, k: string, now: int, valid: int)
    requires Unique(v) && n < |targets| && valid >= 0 && Tracked(v, s, targets, n, now, valid) && targets[n].mac in View(s.list)
    requires Visited(s, r, targets[n], Perimeter, now, valid) && Sifted(s.list, r.list, targets[n].mac, now, valid)
    ensures k in View(v) ==> (k in View(r.list) <==> !Dropped(v, targets, n + 1, k, now, valid))
    ensures k in View(r.list) ==>
              k in View(v) && View(r.list)[k] == if IsTargeted(targets, n + 1, k) then now else View(v)[k]
    ensures IsTargeted(targets, n + 1, k) ==> k in View(r.list)
  {
    var x := targets[n].mac;
    AheadMeans(v, x, x);
    SomeNext(v, targets, n, k, now, valid);
    hide View, Ahead, Unique, Dropped, IsTargeted;
    if k in View(s.list) { assert Ahead(s.list, k, x) <==> Ahead(v, k, x); }
  }

  /** One more target that has a record. */
  lemma TrackedNext(v: seq<Violation>, s: State, r: State, targets: seq<Target>, n: nat, now: int, valid: int)
    requires Unique(v) && n < |targets| && valid >= 0 && Tracked(v, s, targets, n, now, valid) && targets[n].mac in View(s.list)
    requires Visited(s, r, targets[n], Perimeter, now, valid) && Sifts(s.list, r.list, targets[n].mac, now, valid)
    ensures Tracked(v, r, targets, n + 1, now, valid)
  {
    forall k
      ensures k in View(v) ==> (k in View(r.list) <==> !Dropped(v, targets, n + 1, k, now, valid))
      ensures k in View(r.list) ==>
                k in View(v) && View(r.list)[k] == if IsTargeted(targets, n + 1, k) then now else View(v)[k]
      ensures IsTargeted(targets, n + 1, k) ==> k in View(r.list)
    {
      TrackedKey(v, s, r, targets, n, k, now, valid);
    }
    OrderComposes(v, s.list, r.list) by {
      assert forall k | k in View(r.list) :: k in View(s.list);
    }
    hide View, Unique, Dropped, IsTargeted, SameOrder, Sifted;
  }

  lemma TrackedFromStart(s0: State, targets: seq<Target>, now: int, valid: int)
    requires !s0.found
    ensures Tracked(s0.list, s0, targets, 0, now, valid)
  {
  }

  lemma {:induction false} BlockedIffUnsafe(s0: State, targets: seq<Target>, n: nat, now: int, valid: int)
    requires Unique(s0.list) && !s0.found && AreMacs(targets) && n <= |targets| && valid >= 0
    requires n > 0 ==> targets[0].mac in View(s0.list)
    ensures SomeBlocked(s0, targets, n, now, valid) <==> !AllSafe(s0.list, targets, n, now, valid)
    ensures AllSafe(s0.list, targets, n, now, valid) ==>
              Tracked(s0.list, Before(s0, targets, n, Perimeter, now, valid), targets, n, now, valid)
  {
    hide *;
    AllSafeNext(s0.list, targets, n, now, valid);
    if n == 0 {
      BeforeNone(s0, targets, now, valid);
      NoneBlockedYet(s0, targets, now, valid);
      TrackedFromStart(s0, targets, now, valid);
    } else {
      BlockedIffUnsafe(s0, targets, n - 1, now, valid);
      BeforeNext(s0, targets, n - 1, Perimeter, now, valid);
      SomeBlockedNext(s0, targets, n - 1, now, valid);
      if AllSafe(s0.list, targets, n - 1, now, valid) {
        var s := Before(s0, targets, n - 1, Perimeter, now, valid);
        SafeIff(s0.list, s, targets, n - 1, now, valid);
        if Safe(s0.list, targets, n - 1, now, valid) {
          NextIsSifted(s0, targets, n - 1, now, valid);
          TrackedNext(s0.list, s, Before(s0, targets, n, Perimeter, now, valid), targets, n - 1, now, valid);
        }
      }
    }
  }

  lemma NoneBlockedYet(s0: State, targets: seq<Target>, now: int, valid: int)
    ensures !SomeBlocked(s0, targets, 0, now, valid)
  {
  }

  lemma AllSafeNext(v: seq<Violation>, targets: seq<Target>, n: nat, now: int, valid: int)
    requires n <= |targets|
    ensures if n == 0 then AllSafe(v, targets, 0, now, valid)
            else AllSafe(v, targets, n, now, valid) <==> AllSafe(v, targets, n - 1, now, valid) && Safe(v, targets, n - 1, now, valid)
  {
    hide Safe;
  }

  lemma NextIsSifted(s0: State, targets: seq<Target>, n: nat, now: int, valid: int)
    requires Unique(s0.list) && AreMacs(targets) && n < |targets|
    requires targets[n].mac in View(Before(s0, targets, n, Perimeter, now, valid).list)
    ensures Sifts(Before(s0, targets, n, Perimeter, now, valid).list, Before(s0, targets, n + 1, Perimeter, now, valid).list,
                  targets[n].mac, now, valid)
  {
    BeforeNext(s0, targets, n, Perimeter, now, valid);
    assert targets[..n + 1][..n] == targets[..n];
    hide Sifts, Visit, View, Unique;
    VisitSifts(Before(s0, targets, n, Perimeter, now, valid), targets[n], now, valid);
  }

  /** What a caller can check before a perimeter call, in the list and the objects alone.  If
      the first object has no record, then, of the records that are not stale, once an object
      is known all later ones must be.  Otherwise every object must have a record that is not
      stale, or is an earlier object's, or has no earlier object's record behind it. */
  ghost predicate WillRecordAll(v: seq<Violation>, targets: seq<Target>, now: int, valid: int) {
    targets == [] ||
    if targets[0].mac in View(v) then AllSafe(v, targets, |targets|, now, valid)
    else Orderly(Fresh(View(v), now, valid), targets, |targets|)
  }

  lemma BlockedIffWillNot(s0: State, targets: seq<Target>, now: int, valid: int)
    requires Unique(s0.list) && !s0.found && AreMacs(targets) && valid >= 0
    ensures SomeBlocked(s0, targets, |targets|, now, valid) <==> !WillRecordAll(s0.list, targets, now, valid)
  {
    if targets == [] {
      NoneBlockedYet(s0, targets, now, valid);
    } else if targets[0].mac in View(s0.list) {
      BlockedIffUnsafe(s0, targets, |targets|, now, valid);
    } else {
      UnknownFirst(s0, targets, now, valid);
      BlockedIffDisorderly(s0, Fresh(View(s0.list), now, valid), targets, 1, |targets|, now, valid);
    }
  }

  /** For every list of records, a perimeter call leaves a record of the present time for each
      of its objects if and only if the condition holds. */
  lemma CallRecordsAllIff(s0: State, targets: seq<Target>, now: int, valid: int)
    requires Unique(s0.list) && !s0.found && AreMacs(targets) && valid >= 0
    ensures AllRecorded(View(VisitAll(s0, targets, Perimeter, now, valid).list), targets, |targets|, now) <==>
            WillRecordAll(s0.list, targets, now, valid)
  {
    assert targets[..|targets|] == targets;
    RecordsAllIff(s0, targets, |targets|, now, valid);
    BlockedIffWillNot(s0, targets, now, valid);
  }

  /** Two objects in one message are enough: the second has just been seen, but its record is missing. */
  lemma SecondObjectIsNotRecorded()
    ensures var a, b := "aa:aa:aa:aa:aa:aa", "bb:bb:bb:bb:bb:bb";
            var s := State([Violation(a, 100)], false, []);
            b !in View(VisitAll(s, [Target(a, true), Target(b, true)], Perimeter, 101, 60).list)
  {
    var a, b := "aa:aa:aa:aa:aa:aa", "bb:bb:bb:bb:bb:bb";
    assert a[0] != b[0];
    var s := State([Violation(a, 100)], false, []);
    var targets := [Target(a, true), Target(b, true)];
    var one := Visit(s, targets[0], Perimeter, 101, 60);
    assert one.list == [Violation(a, 101)] && one.found;
    var two := Visit(one, targets[1], Perimeter, 101, 60);
    assert two.list == [Violation(a, 101)] by {
      assert Scan([], b, Perimeter, 101, 60, true).left == [];
    }
    assert targets[..1] == [targets[0]] && targets[..1][..0] == [];
    assert VisitAll(s, targets[..1], Perimeter, 101, 60) == Visit(VisitAll(s, [], Perimeter, 101, 60), targets[0], Perimeter, 101, 60);
    assert VisitAll(s, targets, Perimeter, 101, 60) == two;
    assert two.list[1..] == [];
  }

  /** An order that puts known objects last is not enough when a stale record is about: the
      scan for the first object drops the record of the second and sets the flag. */
  lemma StaleObjectIsNotRecorded()
    ensures var a, b := "aa:aa:aa:aa:aa:aa", "bb:bb:bb:bb:bb:bb";
            var s, targets := State([Violation(b, 10), Violation(a, 100)], false, []), [Target(a, true), Target(b, true)];
            Orderly(View(s.list), targets, 2) && !AllRecorded(View(VisitAll(s, targets, Perimeter, 101, 60).list), targets, 2, 101)
  {
    var a, b := "aa:aa:aa:aa:aa:aa", "bb:bb:bb:bb:bb:bb";
    assert a[0] != b[0];
    var v, targets := [Violation(b, 10), Violation(a, 100)], [Target(a, true), Target(b, true)];
    assert v[1..] == [Violation(a, 100)] && v[1..][1..] == [];
    assert View(v[1..]) == View([])[a := 100];
    assert Ahead(v, b, targets[0].mac);
    assert !IsTargeted(targets, 1, b) && IsPassed(v, targets, 1, b);
    assert !Safe(v, targets, 1, 101, 60);
    CallRecordsAllIff(State(v, false, []), targets, 101, 60);
  }

  /* ----------------------------- whole histories --------------------------- */

  /** One call of `examine_object_tracking_data`, with the objects it processes. */
  datatype Call = Call(kind: Kind, now: int, targets: seq<Target>)

  function Examine(s: State, c: Call, valid: int): State {
    VisitAll(s.(found := false), c.targets, c.kind, c.now, valid)
  }

  function Run(calls: seq<Call>, valid: int): State {
    if calls == [] then State([], false, [])
    else Examine(Run(calls[..|calls| - 1], valid), calls[|calls| - 1], valid)
  }

  ghost predicate Clean(calls: seq<Call>) {
    forall i | 0 <= i < |calls| :: AreMacs(calls[i].targets)
  }

  /** The last event of an object. */
  ghost function Last(log: seq<Event>, mac: string): int {
    if log == [] then -1
    else if log[|log| - 1].mac == mac then |log| - 1
    else Last(log[..|log| - 1], mac)
  }

  lemma {:induction false} LastFacts(log: seq<Event>, mac: string)
    ensures var j := Last(log, mac);
            && -1 <= j < |log| && (j >= 0 ==> log[j].mac == mac)
            && forall i | j < i < |log| :: log[i].mac != mac
  {
    if log != [] && log[|log| - 1].mac != mac {
      LastFacts(log[..|log| - 1], mac);
    }
  }

  lemma LastSnoc(log: seq<Event>, e: Event, mac: string)
    ensures Last(log + [e], mac) == if e.mac == mac then |log| else Last(log, mac)
  {
    assert (log + [e])[..|log|] == log;
  }

  /** The record of an object is what its last event wrote. */
  ghost predicate Sourced(m: map<string, int>, log: seq<Event>) {
    forall k | k in m :: WrittenBy(log, k, m[k])
  }

  ghost predicate WrittenBy(log: seq<Event>, mac: string, time: int) {
    0 <= Last(log, mac) < |log| && log[Last(log, mac)] == Recorded(mac, time)
  }

  /** The alert `i` is about the last thing that happened to its object: a perimeter detection
      less than the valid duration ago. */
  ghost predicate Fed(log: seq<Event>, i: nat, valid: int)
    requires i < |log| && log[i].Alerted?
  {
    var j := Last(log[..i], log[i].mac);
    0 <= j < i && log[j] == Recorded(log[i].mac, log[j].time) && log[i].time - log[j].time < valid
  }

  ghost predicate AllFed(log: seq<Event>, valid: int) {
    forall i: nat | i < |log| && log[i].Alerted? :: Fed(log, i, valid)
  }

  lemma FedSnoc(log: seq<Event>, e: Event, valid: int)
    requires AllFed(log, valid)
    requires e.Alerted? ==> exists time :: WrittenBy(log, e.mac, time) && e.time - time < valid
    ensures AllFed(log + [e], valid)
  {
    forall i: nat | i < |log + [e]| && (log + [e])[i].Alerted?
      ensures Fed(log + [e], i, valid)
    {
      assert (log + [e])[..i] == log[..i];
      if i < |log| {
        assert Fed(log, i, valid);
      } else {
        assert log[..i] == log;
      }
    }
  }

  lemma VisitKeepsSources(s: State, r: State, t: Target, kind: Kind, now: int, valid: int)
    requires Visited(s, r, t, kind, now, valid) && Sourced(View(s.list), s.log) && AllFed(s.log, valid)
    ensures Sourced(View(r.list), r.log) && AllFed(r.log, valid)
  {
    hide View, AllFed;
    var was, left := View(s.list), View(r.list);
    if r.log == s.log {
    } else {
      var e := r.log[|s.log|];
      assert e.mac == t.mac && (r.log == s.log + [e]) by {
        assert r.log == s.log + r.log[|s.log|..];
      }
      if e.Alerted? { assert WrittenBy(s.log, e.mac, was[t.mac]); }
      FedSnoc(s.log, e, valid);
      forall k | k in left
        ensures WrittenBy(r.log, k, left[k])
      {
        LastSnoc(s.log, e, k);
        if k != t.mac { assert WrittenBy(s.log, k, was[k]); }
      }
    }
  }

  ghost predicate Traced(s: State, valid: int) {
    Unique(s.list) && Sourced(View(s.list), s.log) && AllFed(s.log, valid)
  }

  lemma {:induction false} VisitAllKeepsTraced(s: State, targets: seq<Target>, kind: Kind, now: int, valid: int)
    requires Traced(s, valid) && AreMacs(targets)
    ensures Traced(VisitAll(s, targets, kind, now, valid), valid)
  {
    if targets != [] {
      var n := |targets| - 1;
      VisitAllKeepsTraced(s, targets[..n], kind, now, valid);
      var before := VisitAll(s, targets[..n], kind, now, valid);
      hide AllFed, Sourced, Unique;
      VisitMeaning(before, targets[n], kind, now, valid);
      VisitKeepsSources(before, Visit(before, targets[n], kind, now, valid), targets[n], kind, now, valid);
    }
  }

  /** Over any history, an alert follows a perimeter detection of the same object that is
      recorded and still valid, with nothing of that object in between. */
  lemma {:induction false} AlertsAreFed(calls: seq<Call>, valid: int)
    requires Clean(calls)
    ensures Traced(Run(calls, valid), valid)
    ensures AllFed(Run(calls, valid).log, valid)
  {
    if calls != [] {
      var n := |calls| - 1;
      AlertsAreFed(calls[..n], valid);
      VisitAllKeepsTraced(Run(calls[..n], valid).(found := false), calls[n].targets, calls[n].kind, calls[n].now, valid);
    }
  }

  /** No two alerts are fed by the same detection. */
  lemma AlertsInject(calls: seq<Call>, valid: int, i: nat, j: nat)
    requires Clean(calls)
    requires var log := Run(calls, valid).log; i < j < |log| && log[i].Alerted? && log[j].Alerted?
    ensures var log := Run(calls, valid).log; Last(log[..i], log[i].mac) != Last(log[..j], log[j].mac)
  {
    AlertsAreFed(calls, valid);
    var log := Run(calls, valid).log;
    assert Fed(log, i, valid) && Fed(log, j, valid);
    LastFacts(log[..j], log[j].mac);
    assert log[..j][i] == log[i];
  }

  /** There is never more than one record of an object. */
  lemma OneRecordPerObject(calls: seq<Call>, valid: int, i: nat, j: nat)
    requires Clean(calls)
    requires var list := Run(calls, valid).list; i < j < |list|
    ensures var list := Run(calls, valid).list; list[i].mac != list[j].mac
  {
    AlertsAreFed(calls, valid);
  }

  /* --------------------------- expiry is invisible ------------------------- */

  /** A monitor that never drops a record: a map from objects to their last perimeter detection. */
  datatype Ledger = Ledger(since: map<string, int>, log: seq<Event>)

  function Note(g: Ledger, t: Target, kind: Kind, now: int, valid: int): Ledger {
    if kind.Perimeter? then
      Ledger(g.since[t.mac := now], g.log + [Recorded(t.mac, now)])
    else if t.mac in g.since && valid > now - g.since[t.mac] then
      Ledger(g.since - {t.mac}, g.log + [Alerted(t.mac, now)])
    else
      g
  }

  function NoteAll(g: Ledger, targets: seq<Target>, kind: Kind, now: int, valid: int): Ledger {
    if targets == [] then g
    else Note(NoteAll(g, targets[..|targets| - 1], kind, now, valid), targets[|targets| - 1], kind, now, valid)
  }

  function Keep(calls: seq<Call>, valid: int): Ledger {
    if calls == [] then Ledger(map[], [])
    else
      var n := |calls| - 1;
      NoteAll(Keep(calls[..n], valid), calls[n].targets, calls[n].kind, calls[n].now, valid)
  }

  /** The records agree, but for stale ones that the monitor may have dropped. */
  ghost predicate Agree(s: State, g: Ledger, now: int, valid: int) {
    var m := View(s.list);
    && s.log == g.log
    && (forall k | k in m :: k in g.since && g.since[k] == m[k])
    && (forall k | k in g.since && k !in m :: g.since[k] < now - valid)
  }

  lemma VisitAgrees(s: State, r: State, g: Ledger, t: Target, kind: Kind, now: int, valid: int)
    requires Agree(s, g, now, valid) && Visited(s, r, t, kind, now, valid) && !IsBlocked(s, t, kind)
    ensures Agree(r, Note(g, t, kind, now, valid), now, valid)
  {
    hide View;
    assert r.log == s.log + r.log[|s.log|..];
  }

  ghost predicate Unblocked(s: State, targets: seq<Target>, kind: Kind, now: int, valid: int) {
    forall j: nat | j < |targets| :: !IsBlocked(Before(s, targets, j, kind, now, valid), targets[j], kind)
  }

  lemma UnblockedPrefix(s: State, targets: seq<Target>, kind: Kind, now: int, valid: int)
    requires targets != [] && Unblocked(s, targets, kind, now, valid)
    ensures var n := |targets| - 1;
            Unblocked(s, targets[..n], kind, now, valid) && !IsBlocked(Before(s, targets, n, kind, now, valid), targets[n], kind)
  {
    hide IsBlocked;
    var n := |targets| - 1;
    forall j: nat | j < n
      ensures Before(s, targets[..n], j, kind, now, valid) == Before(s, targets, j, kind, now, valid)
    {
      assert targets[..n][..j] == targets[..j];
    }
  }

  lemma {:induction false} VisitAllAgrees(s: State, g: Ledger, targets: seq<Target>, kind: Kind, now: int, valid: int)
    requires Unique(s.list) && AreMacs(targets) && Agree(s, g, now, valid) && Unblocked(s, targets, kind, now, valid)
    ensures Agree(VisitAll(s, targets, kind, now, valid), NoteAll(g, targets, kind, now, valid), now, valid)
  {
    if targets != [] {
      var n := |targets| - 1;
      UnblockedPrefix(s, targets, kind, now, valid);
      VisitAllAgrees(s, g, targets[..n], kind, now, valid);
      BeforeNext(s, targets, n, kind, now, valid);
      assert targets[..n + 1] == targets;
      hide Agree, Visited, IsBlocked, Unblocked, Unique, View, Visit, Note;
      VisitAgrees(VisitAll(s, targets[..n], kind, now, valid), VisitAll(s, targets, kind, now, valid),
                  NoteAll(g, targets[..n], kind, now, valid), targets[n], kind, now, valid);
    }
  }

  ghost predicate Clock(calls: seq<Call>) {
    forall i, j | 0 <= i < j < |calls| :: calls[i].now <= calls[j].now
  }

  ghost predicate NoneBlocked(calls: seq<Call>, valid: int) {
    forall i: nat | i < |calls| ::
      Unblocked(Run(calls[..i], valid).(found := false), calls[i].targets, calls[i].kind, calls[i].now, valid)
  }

  lemma HistoryPrefix(calls: seq<Call>, valid: int)
    requires calls != [] && Clean(calls) && Clock(calls) && NoneBlocked(calls, valid)
    ensures var n := |calls| - 1;
            && Clean(calls[..n]) && Clock(calls[..n]) && NoneBlocked(calls[..n], valid) && AreMacs(calls[n].targets)
            && Unblocked(Run(calls[..n], valid).(found := false), calls[n].targets, calls[n].kind, calls[n].now, valid)
            && forall i | 0 <= i < n :: calls[..n][i].now <= calls[n].now
  {
    hide Unblocked, Run;
    var n := |calls| - 1;
    forall i: nat | i < n
      ensures Unblocked(Run(calls[..n][..i], valid).(found := false), calls[i].targets, calls[i].kind, calls[i].now, valid)
    {
      assert calls[..n][..i] == calls[..i];
    }
  }

  /** While no perimeter call leaves an object out, dropping stale records changes no event. */
  lemma {:induction false} UnblockedRunsAgree(calls: seq<Call>, valid: int, now: int)
    requires Clean(calls) && Clock(calls) && NoneBlocked(calls, valid)
    requires forall i | 0 <= i < |calls| :: calls[i].now <= now
    ensures Agree(Run(calls, valid), Keep(calls, valid), now, valid)
    ensures Run(calls, valid).log == Keep(calls, valid).log
  {
    if calls != [] {
      HistoryPrefix(calls, valid);
      hide Unblocked, NoneBlocked, Clean, Clock, VisitAll, NoteAll;
      var n := |calls| - 1;
      var c := calls[n];
      UnblockedRunsAgree(calls[..n], valid, c.now);
      AlertsAreFed(calls[..n], valid);
      var s := Run(calls[..n], valid).(found := false);
      assert Unique(s.list) && c.now <= now;
      hide Unique, View, Sourced, AllFed;
      VisitAllAgrees(s, Keep(calls[..n], valid), c.targets, c.kind, c.now, valid);
    }
  }

  /* An object that is left out gives the other monitor an event that this one never makes up
     for: from then on its log is longer. */

  /** The records there are agree, and the log is no longer than the other one. */
  ghost predicate Lags(s: State, g: Ledger) {
    && |s.log| <= |g.log|
    && (forall k | k in View(s.list) :: k in g.since && g.since[k] == View(s.list)[k])
  }

  lemma VisitLags(s: State, r: State, g: Ledger, t: Target, kind: Kind, now: int, valid: int)
    requires Lags(s, g) && Visited(s, r, t, kind, now, valid)
    ensures Lags(r, Note(g, t, kind, now, valid))
    ensures |r.log| - |s.log| <= |Note(g, t, kind, now, valid).log| - |g.log|
    ensures IsBlocked(s, t, kind) ==> |r.log| - |s.log| < |Note(g, t, kind, now, valid).log| - |g.log|
  {
    hide View;
  }

  ghost predicate BlockedBefore(s: State, targets: seq<Target>, n: nat, kind: Kind, now: int, valid: int)
    requires n <= |targets|
  {
    exists j: nat :: j < n && IsBlocked(Before(s, targets, j, kind, now, valid), targets[j], kind)
  }

  /** What one part of a call does to the lengths of the two logs. */
  ghost predicate Falls(s: State, g: Ledger, r: State, h: Ledger, behind: bool) {
    Lags(r, h) && |r.log| - |s.log| <= |h.log| - |g.log| && (behind ==> |r.log| - |s.log| < |h.log| - |g.log|)
  }

  lemma FallsFurther(s: State, g: Ledger, q: State, f: Ledger, r: State, h: Ledger, behind: bool, now: bool)
    requires Falls(s, g, q, f, behind) && Falls(q, f, r, h, now)
    ensures Falls(s, g, r, h, behind || now)
  {
    hide Lags;
  }

  lemma BlockedBeforeNext(s: State, targets: seq<Target>, n: nat, kind: Kind, now: int, valid: int)
    requires n < |targets|
    ensures BlockedBefore(s, targets, n + 1, kind, now, valid) <==>
            (BlockedBefore(s, targets, n, kind, now, valid) || IsBlocked(Before(s, targets, n, kind, now, valid), targets[n], kind))
  {
    hide IsBlocked, Before;
  }

  lemma {:induction false} VisitAllLags(s: State, g: Ledger, targets: seq<Target>, n: nat, kind: Kind, now: int, valid: int)
    requires Unique(s.list) && AreMacs(targets) && n <= |targets| && Lags(s, g)
    ensures Falls(s, g, Before(s, targets, n, kind, now, valid), NoteAll(g, targets[..n], kind, now, valid),
                  BlockedBefore(s, targets, n, kind, now, valid))
  {
    if n > 0 {
      assert targets[..n][..n - 1] == targets[..n - 1];
      VisitAllLags(s, g, targets, n - 1, kind, now, valid);
      BeforeNext(s, targets, n - 1, kind, now, valid);
      BlockedBeforeNext(s, targets, n - 1, kind, now, valid);
      var q, r := Before(s, targets, n - 1, kind, now, valid), Before(s, targets, n, kind, now, valid);
      var f, h := NoteAll(g, targets[..n - 1], kind, now, valid), NoteAll(g, targets[..n], kind, now, valid);
      var was, blocked := BlockedBefore(s, targets, n - 1, kind, now, valid), IsBlocked(q, targets[n - 1], kind);
      assert h == Note(f, targets[n - 1], kind, now, valid);
      hide Lags, Visited, IsBlocked, Before, BlockedBefore, Note, NoteAll, Unique, AreMacs;
      VisitLags(q, r, f, targets[n - 1], kind, now, valid);
      assert Falls(q, f, r, h, blocked);
      hide Falls;
      FallsFurther(s, g, q, f, r, h, was, blocked);
    }
  }

  lemma CallLags(s: State, g: Ledger, c: Call, valid: int)
    requires Unique(s.list) && AreMacs(c.targets) && Lags(s, g)
    ensures var r, h := Examine(s, c, valid), NoteAll(g, c.targets, c.kind, c.now, valid);
            && Lags(r, h) && |r.log| - |s.log| <= |h.log| - |g.log|
            && (!Unblocked(s.(found := false), c.targets, c.kind, c.now, valid) ==> |r.log| - |s.log| < |h.log| - |g.log|)
  {
    var s0 := s.(found := false);
    assert c.targets[..|c.targets|] == c.targets;
    VisitAllLags(s0, g, c.targets, |c.targets|, c.kind, c.now, valid);
    hide IsBlocked, View;
    assert !Unblocked(s0, c.targets, c.kind, c.now, valid) ==> BlockedBefore(s0, c.targets, |c.targets|, c.kind, c.now, valid);
  }

  lemma {:induction false} RunLags(calls: seq<Call>, valid: int)
    requires Clean(calls)
    ensures Lags(Run(calls, valid), Keep(calls, valid))
    ensures !NoneBlocked(calls, valid) ==> |Run(calls, valid).log| < |Keep(calls, valid).log|
  {
    if calls != [] {
      var n := |calls| - 1;
      RunLags(calls[..n], valid);
      AlertsAreFed(calls[..n], valid);
      CallLags(Run(calls[..n], valid), Keep(calls[..n], valid), calls[n], valid);
      NoneBlockedNext(calls, valid);
      hide Lags, Unblocked, NoneBlocked, Unique, Sourced, AllFed, NoteAll, Examine;
    }
  }

  lemma NoneBlockedNext(calls: seq<Call>, valid: int)
    requires calls != []
    ensures var n := |calls| - 1;
            NoneBlocked(calls, valid) <==>
            (NoneBlocked(calls[..n], valid)
             && Unblocked(Run(calls[..n], valid).(found := false), calls[n].targets, calls[n].kind, calls[n].now, valid))
  {
    hide Unblocked, Run;
    var n := |calls| - 1;
    forall i: nat | i < n
      ensures calls[..n][..i] == calls[..i] && calls[..n][i] == calls[i]
    {
    }
    assert forall i: nat | i < n ::
      Unblocked(Run(calls[..n][..i], valid).(found := false), calls[..n][i].targets, calls[..n][i].kind, calls[..n][i].now, valid) <==>
      Unblocked(Run(calls[..i], valid).(found := false), calls[i].targets, calls[i].kind, calls[i].now, valid);
  }

  /** Every perimeter call finds a list that lets it record all its objects. */
  ghost predicate EachRecordsAll(calls: seq<Call>, valid: int) {
    forall i: nat | i < |calls| && calls[i].kind.Perimeter? ::
      WillRecordAll(Run(calls[..i], valid).list, calls[i].targets, calls[i].now, valid)
  }

  lemma UnblockedIffRecords(s: State, c: Call, valid: int)
    requires Unique(s.list) && AreMacs(c.targets) && valid >= 0
    ensures Unblocked(s.(found := false), c.targets, c.kind, c.now, valid) <==>
            (c.kind.Perimeter? ==> WillRecordAll(s.list, c.targets, c.now, valid))
  {
    if c.kind.Perimeter? {
      BlockedIffWillNot(s.(found := false), c.targets, c.now, valid);
      hide IsBlocked, Before, Unique, WillRecordAll;
    }
  }

  lemma NoneBlockedIffRecords(calls: seq<Call>, valid: int)
    requires Clean(calls) && valid >= 0
    ensures NoneBlocked(calls, valid) <==> EachRecordsAll(calls, valid)
  {
    forall i: nat | i < |calls|
      ensures Unblocked(Run(calls[..i], valid).(found := false), calls[i].targets, calls[i].kind, calls[i].now, valid) <==>
              (calls[i].kind.Perimeter? ==> WillRecordAll(Run(calls[..i], valid).list, calls[i].targets, calls[i].now, valid))
    {
      AlertsAreFed(calls[..i], valid);
      UnblockedIffRecords(Run(calls[..i], valid), calls[i], valid);
    }
    hide Unblocked, WillRecordAll, Run;
  }

  /** With a nondecreasing clock the monitor does what one does that never drops a record, if
      and only if every perimeter call finds a list that lets it record all its objects. */
  lemma ExpiryIsInvisible(calls: seq<Call>, valid: int)
    requires Clean(calls) && Clock(calls)
    ensures Run(calls, valid).log == Keep(calls, valid).log <==> NoneBlocked(calls, valid)
    ensures valid >= 0 ==> (Run(calls, valid).log == Keep(calls, valid).log <==> EachRecordsAll(calls, valid))
  {
    if valid >= 0 { NoneBlockedIffRecords(calls, valid); }
    if NoneBlocked(calls, valid) {
      if calls != [] { UnblockedRunsAgree(calls, valid, calls[|calls| - 1].now); }
    } else {
      RunLags(calls, valid);
    }
  }

  lemma SingleIsUnblocked(s: State, targets: seq<Target>, kind: Kind, now: int, valid: int)
    requires |targets| <= 1 || kind.Fence?
    ensures Unblocked(s.(found := false), targets, kind, now, valid)
  {
    if |targets| == 1 {
      assert targets[..0] == [];
    }
  }

  /** Messages with one object never leave it out. */
  lemma ExpiryIsInvisibleForSingles(calls: seq<Call>, valid: int)
    requires Clean(calls) && Clock(calls)
    requires forall i | 0 <= i < |calls| && calls[i].kind.Perimeter? :: |calls[i].targets| <= 1
    ensures Run(calls, valid).log == Keep(calls, valid).log
  {
    forall i: nat | i < |calls|
      ensures Unblocked(Run(calls[..i], valid).(found := false), calls[i].targets, calls[i].kind, calls[i].now, valid)
    {
      SingleIsUnblocked(Run(calls[..i], valid), calls[i].targets, calls[i].kind, calls[i].now, valid);
    }
    if calls != [] {
      UnblockedRunsAgree(calls, valid, calls[|calls| - 1].now);
    }
  }

  /** An object that a perimeter call leaves out crosses the fence unnoticed. */
  lemma LeftOutIsMissed(s: State, g: Ledger, t: Target, now: int, valid: int)
    requires Unique(s.list) && IsMac(t.mac) && valid > 0 && s.log == g.log && IsBlocked(s, t, Perimeter)
    ensures var r := Visit(s, t, Perimeter, now, valid);
            Visit(r, t, Fence, now, valid).log == r.log == s.log
    ensures var h := Note(g, t, Perimeter, now, valid);
            Note(h, t, Fence, now, valid).log == h.log + [Alerted(t.mac, now)]
  {
    VisitMeaning(s, t, Perimeter, now, valid);
    var r := Visit(s, t, Perimeter, now, valid);
    VisitMeaning(r, t, Fence, now, valid);
    hide View, Visit, Unique;
    var q := Visit(r, t, Fence, now, valid);
    assert r.log == r.log[..|s.log|] + r.log[|s.log|..];
    assert q.log == q.log[..|r.log|] + q.log[|r.log|..];
  }

  /* ------------------------- the monitor's procedures ---------------------- */

  /** An object in a message: its MAC as sent, and its signal. */
  datatype Sighting = Sighting(mac: string, rssi: int)

  /** What the calls of one message find: the clock of call `n`, and whether the database takes
      an alert for object `i` in that call. */
  datatype Environment = Environment(clock: nat -> int, db: (nat, nat) -> bool)

  /** `ObjectWithGeoFenceAreaNode`. */
  datatype Monitored = Monitored(area: int, macs: string)

  /** What one fence asks of an object. */
  datatype Filter = Filter(monitored: seq<Monitored>, area: int, global: bool, criteria: int)

  /** `GeoFenceSettingNode` and `GeoFenceAreaNode`. */
  datatype Setting = Setting(global: bool, rssiOfPerimeters: int, perimeters: string, fences: string)
  datatype FenceArea = FenceArea(id: int, settings: seq<Setting>)

  /** A tracking message of the beacon `uuid` in area `area`. */
  datatype Message = Message(uuid: string, area: int, seen: seq<Sighting>)

  /** `strstr`. */
  predicate Contains(text: string, part: string) {
    part <= text || (text != [] && Contains(text[1..], part))
  }

  lemma {:induction false} ContainsIff(text: string, part: string)
    ensures Contains(text, part) <==> exists i :: 0 <= i <= |text| && part <= text[i..]
  {
    if part <= text {
      assert text[0..] == text;
    } else if text != [] {
      ContainsIff(text[1..], part);
      if i :| 0 <= i <= |text| && part <= text[i..] {
        assert i > 0;
        assert text[1..][i - 1..] == text[i..];
      }
      if i :| 0 <= i <= |text[1..]| && part <= text[1..][i..] {
        assert text[1..][i..] == text[i + 1..];
      }
    }
  }

  function ToLower(c: char): char {
    if 'A' <= c <= 'Z' then ((c as int) + 32) as char else c
  }

  /** `strtolowercase` */
  function Lower(mac: string): (r: string)
    ensures |r| == |mac|
    ensures forall i | 0 <= i < |mac| ::
              if 'A' <= mac[i] <= 'Z' then 'a' <= r[i] <= 'z' && r[i] - 'a' == mac[i] - 'A' else r[i] == mac[i]
  {
    seq(|mac|, i requires 0 <= i < |mac| => ToLower(mac[i]))
  }

  predicate Covers(m: Monitored, f: Filter, mac: string) {
    (f.global || m.area == f.area) && Contains(m.macs, mac)
  }

  /** The object is monitored here and its signal is strong enough. */
  predicate IsTarget(s: Sighting, f: Filter) {
    && |s.mac| <= 18 && s.rssi >= f.criteria
    && exists i :: 0 <= i < |f.monitored| && Covers(f.monitored[i], f, Lower(s.mac))
  }

  /** The objects that call `call` of a message processes. */
  function Targets(seen: seq<Sighting>, f: Filter, e: Environment, call: nat): seq<Target> {
    if seen == [] then []
    else
      var n := |seen| - 1;
      Targets(seen[..n], f, e, call) + if IsTarget(seen[n], f) then [Target(Lower(seen[n].mac), e.db(call, n))] else []
  }

  function CallOf(kind: Kind, m: Message, f: Filter, e: Environment, call: nat): Call {
    Call(kind, e.clock(call), Targets(m.seen, f, e, call))
  }

  function FilterOf(t: Setting, m: Message, monitored: seq<Monitored>): Filter {
    Filter(monitored, m.area, t.global, t.rssiOfPerimeters)
  }

  /** The calls that a setting gives rise to, after `first` other calls of the message. */
  function CallsOf(t: Setting, m: Message, monitored: seq<Monitored>, e: Environment, first: nat): seq<Call> {
    var f := FilterOf(t, m, monitored);
    var p := if Contains(t.perimeters, m.uuid) then [CallOf(Perimeter, m, f, e, first)] else [];
    p + if Contains(t.fences, m.uuid) then [CallOf(Fence, m, f, e, first + |p|)] else []
  }

  function AreaCalls(settings: seq<Setting>, m: Message, monitored: seq<Monitored>, e: Environment, first: nat): seq<Call> {
    if settings == [] then []
    else
      var calls := AreaCalls(settings[..|settings| - 1], m, monitored, e, first);
      calls + CallsOf(settings[|settings| - 1], m, monitored, e, first + |calls|)
  }

  lemma AreaCallsNext(settings: seq<Setting>, i: nat, m: Message, monitored: seq<Monitored>, e: Environment, first: nat)
    requires i < |settings|
    ensures var calls := AreaCalls(settings[..i], m, monitored, e, first);
            AreaCalls(settings[..i + 1], m, monitored, e, first) ==
            calls + CallsOf(settings[i], m, monitored, e, first + |calls|)
  {
    hide CallsOf;
    assert settings[..i + 1][..i] == settings[..i];
  }

  function MessageCalls(fences: seq<FenceArea>, m: Message, monitored: seq<Monitored>, e: Environment): seq<Call> {
    if fences == [] then []
    else
      var last := fences[|fences| - 1];
      var calls := MessageCalls(fences[..|fences| - 1], m, monitored, e);
      calls + if last.id == m.area then AreaCalls(last.settings, m, monitored, e, |calls|) else []
  }

  lemma MessageCallsNext(fences: seq<FenceArea>, i: nat, m: Message, monitored: seq<Monitored>, e: Environment)
    requires i < |fences|
    ensures var calls := MessageCalls(fences[..i], m, monitored, e);
            MessageCalls(fences[..i + 1], m, monitored, e) ==
            if fences[i].id == m.area then calls + AreaCalls(fences[i].settings, m, monitored, e, |calls|) else calls
  {
    hide AreaCalls;
    assert fences[..i + 1][..i] == fences[..i];
  }

  function RunFrom(s: State, calls: seq<Call>, valid: int): State {
    if calls == [] then s
    else Examine(RunFrom(s, calls[..|calls| - 1], valid), calls[|calls| - 1], valid)
  }

  lemma {:induction false} RunFromAppend(s: State, a: seq<Call>, b: seq<Call>, valid: int)
    ensures RunFrom(s, a + b, valid) == RunFrom(RunFrom(s, a, valid), b, valid)
  {
    if b == [] {
      assert a + b == a;
    } else {
      var n := |b| - 1;
      assert (a + b)[..|a + b| - 1] == a + b[..n];
      RunFromAppend(s, a, b[..n], valid);
    }
  }

  /** Each call clears the flag, so the one it starts with makes no difference. */
  lemma {:induction false} RunFromIgnores(s: State, calls: seq<Call>, valid: int)
    ensures var r, q := RunFrom(s, calls, valid), RunFrom(s.(found := false), calls, valid);
            r.list == q.list && r.log == q.log
  {
    if calls != [] {
      RunFromIgnores(s, calls[..|calls| - 1], valid);
      var r, q := RunFrom(s, calls[..|calls| - 1], valid), RunFrom(s.(found := false), calls[..|calls| - 1], valid);
      assert r.(found := false) == q.(found := false);
    }
  }

  lemma NoCallsYet(s: State, m: Message, monitored: seq<Monitored>, e: Environment, first: nat, valid: int)
    ensures RunFrom(s, [], valid) == s && AreaCalls([], m, monitored, e, first) == []
    ensures MessageCalls([], m, monitored, e) == []
  {
  }

  lemma RunFromMore(s: State, a: seq<Call>, b: seq<Call>, valid: int)
    ensures var r := RunFrom(s, a, valid);
            var q, all := RunFrom(State(r.list, false, r.log), b, valid), RunFrom(s, a + b, valid);
            all.list == q.list && all.log == q.log
  {
    RunFromAppend(s, a, b, valid);
    RunFromIgnores(RunFrom(s, a, valid), b, valid);
    hide RunFrom;
  }

  lemma RunFromSnoc(s: State, calls: seq<Call>, c: Call, valid: int)
    ensures var r := RunFrom(s, calls, valid);
            RunFrom(s, calls + [c], valid) == Examine(State(r.list, false, r.log), c, valid)
  {
    assert (calls + [c])[..|calls|] == calls;
  }

  /** From its start the monitor makes the calls of its messages one after the other, so the
      theorems about `Run` are about it. */
  lemma {:induction false} RunFromStart(calls: seq<Call>, valid: int)
    ensures RunFrom(State([], false, []), calls, valid) == Run(calls, valid)
  {
    if calls != [] {
      RunFromStart(calls[..|calls| - 1], valid);
    }
  }

  /* -------------------- what a message does, and what for ------------------ */

  ghost predicate Occurs(part: string, text: string) {
    exists i :: 0 <= i <= |text| && part <= text[i..]
  }

  /** The object is strong enough for the setting, and is monitored in the area or the setting
      is for all areas. */
  ghost predicate Meets(t: Setting, o: Sighting, m: Message, monitored: seq<Monitored>) {
    && |o.mac| <= 18 && o.rssi >= t.rssiOfPerimeters
    && exists l :: 0 <= l < |monitored| && (t.global || monitored[l].area == m.area) && Occurs(Lower(o.mac), monitored[l].macs)
  }

  /** The beacon is one of the setting's perimeter, or of its fence. */
  ghost predicate Concerns(t: Setting, m: Message, kind: Kind) {
    (kind.Perimeter? ==> Occurs(m.uuid, t.perimeters)) && (kind.Fence? ==> Occurs(m.uuid, t.fences))
  }

  /** Some setting of the beacon's area makes the call `kind` for an object `mac` of the message. */
  ghost predicate Earned(fences: seq<FenceArea>, m: Message, monitored: seq<Monitored>, kind: Kind, mac: string) {
    exists i :: 0 <= i < |fences| && fences[i].id == m.area && EarnedIn(fences[i].settings, m, monitored, kind, mac)
  }

  ghost predicate EarnedIn(settings: seq<Setting>, m: Message, monitored: seq<Monitored>, kind: Kind, mac: string) {
    exists j :: 0 <= j < |settings| && Concerns(settings[j], m, kind) && EarnedBy(settings[j], m, monitored, mac)
  }

  ghost predicate EarnedBy(t: Setting, m: Message, monitored: seq<Monitored>, mac: string) {
    exists k :: 0 <= k < |m.seen| && Meets(t, m.seen[k], m, monitored) && Lower(m.seen[k].mac) == mac
  }

  lemma TargetIff(t: Setting, o: Sighting, m: Message, monitored: seq<Monitored>)
    ensures IsTarget(o, FilterOf(t, m, monitored)) <==> Meets(t, o, m, monitored)
  {
    var f := FilterOf(t, m, monitored);
    forall l | 0 <= l < |monitored|
      ensures Covers(monitored[l], f, Lower(o.mac)) <==>
              (t.global || monitored[l].area == m.area) && Occurs(Lower(o.mac), monitored[l].macs)
    {
      ContainsIff(monitored[l].macs, Lower(o.mac));
    }
    hide Covers, Occurs, Lower;
  }

  /** Every target of a call is an object that meets the setting. */
  lemma {:induction false} TargetsMeet(seen: seq<Sighting>, t: Setting, m: Message, monitored: seq<Monitored>, e: Environment, call: nat)
    ensures forall x | x in Targets(seen, FilterOf(t, m, monitored), e, call) ::
              exists k :: 0 <= k < |seen| && Meets(t, seen[k], m, monitored) && Lower(seen[k].mac) == x.mac
  {
    if seen != [] {
      var n := |seen| - 1;
      TargetsMeet(seen[..n], t, m, monitored, e, call);
      TargetIff(t, seen[n], m, monitored);
      hide Meets, Lower, IsTarget;
      forall x | x in Targets(seen, FilterOf(t, m, monitored), e, call)
        ensures exists k :: 0 <= k < |seen| && Meets(t, seen[k], m, monitored) && Lower(seen[k].mac) == x.mac
      {
        if x in Targets(seen[..n], FilterOf(t, m, monitored), e, call) {
          var k :| 0 <= k < n && Meets(t, seen[..n][k], m, monitored) && Lower(seen[..n][k].mac) == x.mac;
          assert seen[k] == seen[..n][k];
        }
      }
    }
  }

  ghost predicate CallEarned(c: Call, fences: seq<FenceArea>, m: Message, monitored: seq<Monitored>) {
    forall x | x in c.targets :: Earned(fences, m, monitored, c.kind, x.mac)
  }

  lemma CallOfTargets(kind: Kind, t: Setting, m: Message, monitored: seq<Monitored>, e: Environment, call: nat)
    ensures CallOf(kind, m, FilterOf(t, m, monitored), e, call).targets == Targets(m.seen, FilterOf(t, m, monitored), e, call)
  {
  }

  lemma SettingCallsEarned(fences: seq<FenceArea>, i: nat, j: nat, m: Message, monitored: seq<Monitored>, e: Environment, first: nat)
    requires i < |fences| && fences[i].id == m.area && j < |fences[i].settings|
    ensures forall c | c in CallsOf(fences[i].settings[j], m, monitored, e, first) :: CallEarned(c, fences, m, monitored)
  {
    var t := fences[i].settings[j];
    ContainsIff(t.perimeters, m.uuid);
    ContainsIff(t.fences, m.uuid);
    forall c | c in CallsOf(t, m, monitored, e, first)
      ensures CallEarned(c, fences, m, monitored)
    {
      var call: nat :| c == CallOf(c.kind, m, FilterOf(t, m, monitored), e, call) && Concerns(t, m, c.kind);
      TargetsMeet(m.seen, t, m, monitored, e, call);
      CallOfTargets(c.kind, t, m, monitored, e, call);
      hide Meets, Lower, Concerns, Targets, FilterOf;
      forall x | x in c.targets
        ensures Earned(fences, m, monitored, c.kind, x.mac)
      {
        assert x in Targets(m.seen, FilterOf(t, m, monitored), e, call);
        assert EarnedBy(t, m, monitored, x.mac);
        assert EarnedIn(fences[i].settings, m, monitored, c.kind, x.mac);
      }
    }
  }

  lemma {:induction false} AreaCallsEarned(fences: seq<FenceArea>, i: nat, n: nat, m: Message, monitored: seq<Monitored>, e: Environment, first: nat)
    requires i < |fences| && fences[i].id == m.area && n <= |fences[i].settings|
    ensures forall c | c in AreaCalls(fences[i].settings[..n], m, monitored, e, first) :: CallEarned(c, fences, m, monitored)
    decreases n
  {
    hide CallEarned, CallsOf;
    if n > 0 {
      AreaCallsEarned(fences, i, n - 1, m, monitored, e, first);
      AreaCallsNext(fences[i].settings, n - 1, m, monitored, e, first);
      SettingCallsEarned(fences, i, n - 1, m, monitored, e, first + |AreaCalls(fences[i].settings[..n - 1], m, monitored, e, first)|);
    }
  }

  lemma {:induction false} MessageCallsEarned(fences: seq<FenceArea>, n: nat, m: Message, monitored: seq<Monitored>, e: Environment)
    requires n <= |fences|
    ensures forall c | c in MessageCalls(fences[..n], m, monitored, e) :: CallEarned(c, fences, m, monitored)
    decreases n
  {
    hide CallEarned, AreaCalls;
    if n > 0 {
      MessageCallsEarned(fences, n - 1, m, monitored, e);
      MessageCallsNext(fences, n - 1, m, monitored, e);
      if fences[n - 1].id == m.area {
        var settings := fences[n - 1].settings;
        AreaCallsEarned(fences, n - 1, |settings|, m, monitored, e, |MessageCalls(fences[..n - 1], m, monitored, e)|);
        assert settings[..|settings|] == settings;
      }
    }
  }

  function KindOf(ev: Event): Kind { if ev.Recorded? then Perimeter else Fence }

  lemma {:induction false} ScanEvents(v: seq<Violation>, mac: string, kind: Kind, now: int, valid: int, db: bool)
    ensures forall ev | ev in Scan(v, mac, kind, now, valid, db).events :: ev.mac == mac && KindOf(ev) == kind
  {
    if v != [] {
      ScanEvents(v[1..], mac, kind, now, valid, db);
    }
  }

  /** The events of `kind` for `mac` that the log has gained since `s`. */
  ghost predicate Gains(s: State, r: State, kind: Kind, mac: string) {
    exists k :: |s.log| <= k < |r.log| && KindOf(r.log[k]) == kind && r.log[k].mac == mac
  }

  lemma {:induction false} VisitAllEvents(s: State, targets: seq<Target>, kind: Kind, now: int, valid: int)
    ensures var r := VisitAll(s, targets, kind, now, valid);
            && s.log <= r.log
            && forall k | |s.log| <= k < |r.log| :: KindOf(r.log[k]) == kind && exists x | x in targets :: x.mac == r.log[k].mac
  {
    if targets != [] {
      var n := |targets| - 1;
      var q := VisitAll(s, targets[..n], kind, now, valid);
      VisitAllEvents(s, targets[..n], kind, now, valid);
      ScanEvents(q.list, targets[n].mac, kind, now, valid, targets[n].db);
      var r := VisitAll(s, targets, kind, now, valid);
      hide Scan, VisitAll;
      forall k | |s.log| <= k < |r.log|
        ensures KindOf(r.log[k]) == kind && exists x | x in targets :: x.mac == r.log[k].mac
      {
        if k >= |q.log| {
          assert r.log[k].mac == targets[n].mac && targets[n] in targets;
        } else {
          var x :| x in targets[..n] && x.mac == q.log[k].mac;
          assert x in targets;
        }
      }
    }
  }

  lemma {:induction false} RunFromEvents(s: State, calls: seq<Call>, valid: int, fences: seq<FenceArea>, m: Message, monitored: seq<Monitored>)
    requires forall c | c in calls :: CallEarned(c, fences, m, monitored)
    ensures var r := RunFrom(s, calls, valid);
            && s.log <= r.log
            && forall k | |s.log| <= k < |r.log| :: Earned(fences, m, monitored, KindOf(r.log[k]), r.log[k].mac)
  {
    if calls != [] {
      var n := |calls| - 1;
      var c := calls[n];
      RunFromEvents(s, calls[..n], valid, fences, m, monitored);
      var q := RunFrom(s, calls[..n], valid);
      VisitAllEvents(q.(found := false), c.targets, c.kind, c.now, valid);
      assert CallEarned(c, fences, m, monitored);
      hide Earned, VisitAll;
    }
  }

  /** Everything a message does is earned: a record is written only for an object of the message
      that is strong enough and monitored, by a setting of the beacon's area whose perimeter the
      beacon is part of; an alert only by one whose fence it is part of. */
  lemma EventsAreEarned(s: State, fences: seq<FenceArea>, m: Message, monitored: seq<Monitored>, e: Environment, valid: int)
    ensures var r := RunFrom(s, MessageCalls(fences, m, monitored, e), valid);
            && s.log <= r.log
            && forall k | |s.log| <= k < |r.log| :: Earned(fences, m, monitored, KindOf(r.log[k]), r.log[k].mac)
  {
    MessageCallsEarned(fences, |fences|, m, monitored, e);
    assert fences[..|fences|] == fences;
    hide CallEarned, Earned, MessageCalls;
    RunFromEvents(s, MessageCalls(fences, m, monitored, e), valid, fences, m, monitored);
  }

  /** A beacon that is part of no perimeter in its area leads to no record, and one that is part
      of no fence to no alert. */
  lemma OtherBeaconsDoNothing(s: State, fences: seq<FenceArea>, m: Message, monitored: seq<Monitored>, e: Environment, valid: int, kind: Kind)
    requires forall i, j | 0 <= i < |fences| && fences[i].id == m.area && 0 <= j < |fences[i].settings| ::
               !Concerns(fences[i].settings[j], m, kind)
    ensures var r := RunFrom(s, MessageCalls(fences, m, monitored, e), valid);
            s.log <= r.log && forall k | |s.log| <= k < |r.log| :: KindOf(r.log[k]) != kind
  {
    EventsAreEarned(s, fences, m, monitored, e, valid);
    hide Concerns, EarnedBy, RunFrom, MessageCalls;
  }

  ghost predicate IsOf(c: Call, kind: Kind, mac: string) {
    c.kind == kind && exists x | x in c.targets :: x.mac == mac
  }

  ghost predicate SomeIsOf(calls: seq<Call>, kind: Kind, mac: string) {
    exists i :: 0 <= i < |calls| && IsOf(calls[i], kind, mac)
  }

  lemma SomeIsOfAppend(a: seq<Call>, b: seq<Call>, kind: Kind, mac: string)
    ensures SomeIsOf(a, kind, mac) || SomeIsOf(b, kind, mac) ==> SomeIsOf(a + b, kind, mac)
  {
    hide IsOf;
    if i :| 0 <= i < |a| && IsOf(a[i], kind, mac) { assert (a + b)[i] == a[i]; }
    if i :| 0 <= i < |b| && IsOf(b[i], kind, mac) { assert (a + b)[|a| + i] == b[i]; }
  }

  lemma {:induction false} SeenIsTarget(seen: seq<Sighting>, k: nat, f: Filter, e: Environment, call: nat)
    requires k < |seen| && IsTarget(seen[k], f)
    ensures exists x | x in Targets(seen, f, e, call) :: x.mac == Lower(seen[k].mac)
  {
    var n := |seen| - 1;
    if k < n {
      SeenIsTarget(seen[..n], k, f, e, call);
      hide IsTarget, Lower;
      var x :| x in Targets(seen[..n], f, e, call) && x.mac == Lower(seen[k].mac);
      assert x in Targets(seen, f, e, call);
    } else {
      hide IsTarget, Lower;
      var x := Target(Lower(seen[n].mac), e.db(call, n));
      assert x in Targets(seen, f, e, call);
    }
  }

  lemma SettingMakesCall(t: Setting, m: Message, monitored: seq<Monitored>, e: Environment, first: nat, kind: Kind, mac: string)
    requires Concerns(t, m, kind) && EarnedBy(t, m, monitored, mac)
    ensures SomeIsOf(CallsOf(t, m, monitored, e, first), kind, mac)
  {
    ContainsIff(t.perimeters, m.uuid);
    ContainsIff(t.fences, m.uuid);
    var k :| 0 <= k < |m.seen| && Meets(t, m.seen[k], m, monitored) && Lower(m.seen[k].mac) == mac;
    TargetIff(t, m.seen[k], m, monitored);
    var calls := CallsOf(t, m, monitored, e, first);
    var i := if kind.Perimeter? then 0 else |calls| - 1;
    var call: nat :| calls[i] == CallOf(kind, m, FilterOf(t, m, monitored), e, call);
    SeenIsTarget(m.seen, k, FilterOf(t, m, monitored), e, call);
    CallOfTargets(kind, t, m, monitored, e, call);
    assert IsOf(calls[i], kind, mac);
  }

  lemma {:induction false} AreaMakesCall(settings: seq<Setting>, n: nat, j: nat, m: Message, monitored: seq<Monitored>, e: Environment,
                                         first: nat, kind: Kind, mac: string)
    requires j < n <= |settings| && Concerns(settings[j], m, kind) && EarnedBy(settings[j], m, monitored, mac)
    ensures SomeIsOf(AreaCalls(settings[..n], m, monitored, e, first), kind, mac)
    decreases n
  {
    hide *;
    AreaCallsNext(settings, n - 1, m, monitored, e, first);
    var calls := AreaCalls(settings[..n - 1], m, monitored, e, first);
    SomeIsOfAppend(calls, CallsOf(settings[n - 1], m, monitored, e, first + |calls|), kind, mac);
    if j < n - 1 {
      AreaMakesCall(settings, n - 1, j, m, monitored, e, first, kind, mac);
    } else {
      SettingMakesCall(settings[j], m, monitored, e, first + |calls|, kind, mac);
    }
  }

  lemma {:induction false} MessageMakesCall(fences: seq<FenceArea>, n: nat, i: nat, j: nat, m: Message, monitored: seq<Monitored>, e: Environment,
                                            kind: Kind, mac: string)
    requires i < n <= |fences| && fences[i].id == m.area && j < |fences[i].settings|
    requires Concerns(fences[i].settings[j], m, kind) && EarnedBy(fences[i].settings[j], m, monitored, mac)
    ensures SomeIsOf(MessageCalls(fences[..n], m, monitored, e), kind, mac)
    decreases n
  {
    hide *;
    MessageCallsNext(fences, n - 1, m, monitored, e);
    var calls := MessageCalls(fences[..n - 1], m, monitored, e);
    SomeIsOfAppend(calls, AreaCalls(fences[n - 1].settings, m, monitored, e, |calls|), kind, mac);
    if i < n - 1 {
      MessageMakesCall(fences, n - 1, i, j, m, monitored, e, kind, mac);
    } else {
      var settings := fences[i].settings;
      AreaMakesCall(settings, |settings|, j, m, monitored, e, |calls|, kind, mac);
      assert settings[..|settings|] == settings;
    }
  }

  lemma EarnedMakesCall(fences: seq<FenceArea>, m: Message, monitored: seq<Monitored>, e: Environment, kind: Kind, mac: string)
    requires Earned(fences, m, monitored, kind, mac)
    ensures SomeIsOf(MessageCalls(fences, m, monitored, e), kind, mac)
  {
    hide Concerns, EarnedBy, MessageCalls, SomeIsOf;
    var i :| 0 <= i < |fences| && fences[i].id == m.area && EarnedIn(fences[i].settings, m, monitored, kind, mac);
    var j :| 0 <= j < |fences[i].settings| && Concerns(fences[i].settings[j], m, kind) && EarnedBy(fences[i].settings[j], m, monitored, mac);
    MessageMakesCall(fences, |fences|, i, j, m, monitored, e, kind, mac);
    assert fences[..|fences|] == fences;
  }

  ghost predicate IsMade(c: Call, m: Message, monitored: seq<Monitored>, e: Environment) {
    exists t: Setting, q: nat :: c == CallOf(c.kind, m, FilterOf(t, m, monitored), e, q)
  }

  lemma {:induction false} AreaCallsAreMade(settings: seq<Setting>, m: Message, monitored: seq<Monitored>, e: Environment, first: nat)
    ensures forall c | c in AreaCalls(settings, m, monitored, e, first) :: IsMade(c, m, monitored, e)
  {
    if settings != [] {
      AreaCallsAreMade(settings[..|settings| - 1], m, monitored, e, first);
      hide CallOf, FilterOf, Contains;
    }
  }

  lemma {:induction false} CallsAreMade(fences: seq<FenceArea>, m: Message, monitored: seq<Monitored>, e: Environment)
    ensures forall c | c in MessageCalls(fences, m, monitored, e) :: IsMade(c, m, monitored, e)
  {
    if fences != [] {
      var n := |fences| - 1;
      CallsAreMade(fences[..n], m, monitored, e);
      AreaCallsAreMade(fences[n].settings, m, monitored, e, |MessageCalls(fences[..n], m, monitored, e)|);
      hide IsMade, AreaCalls;
    }
  }

  /** All MACs of the message have their length. */
  ghost predicate Proper(m: Message) { forall k | 0 <= k < |m.seen| :: IsMac(m.seen[k].mac) }

  lemma {:induction false} TargetsAreMacs(seen: seq<Sighting>, f: Filter, e: Environment, call: nat)
    requires forall k | 0 <= k < |seen| :: IsMac(seen[k].mac)
    ensures AreMacs(Targets(seen, f, e, call)) && |Targets(seen, f, e, call)| <= |seen|
  {
    if seen != [] {
      TargetsAreMacs(seen[..|seen| - 1], f, e, call);
      hide IsTarget;
    }
  }

  ghost predicate OnClock(c: Call, e: Environment) { exists q: nat :: c.now == e.clock(q) }

  lemma MadeFacts(c: Call, m: Message, monitored: seq<Monitored>, e: Environment)
    requires IsMade(c, m, monitored, e) && Proper(m)
    ensures OnClock(c, e) && AreMacs(c.targets) && |c.targets| <= |m.seen|
  {
    var t: Setting, q: nat :| c == CallOf(c.kind, m, FilterOf(t, m, monitored), e, q);
    TargetsAreMacs(m.seen, FilterOf(t, m, monitored), e, q);
    CallOfTargets(c.kind, t, m, monitored, e, q);
  }

  /* A valid record stays until its alert. */

  /** The record would be valid at every reading of the clock. */
  ghost predicate Holds(v: seq<Violation>, mac: string, e: Environment, valid: int) {
    mac in View(v) && forall q: nat :: e.clock(q) - View(v)[mac] < valid
  }

  /** The readings of the clock during the message differ by less than the valid duration. */
  ghost predicate IsBrief(e: Environment, valid: int) { forall p: nat, q: nat :: e.clock(p) - e.clock(q) < valid }

  lemma VisitHolds(s: State, r: State, t: Target, kind: Kind, c: nat, e: Environment, valid: int, mac: string)
    requires Visited(s, r, t, kind, e.clock(c), valid) && Holds(s.list, mac, e, valid) && IsBrief(e, valid)
    ensures s.log <= r.log
    ensures Holds(r.list, mac, e, valid) || Gains(s, r, Fence, mac)
    ensures kind.Fence? && t.mac == mac ==> Gains(s, r, Fence, mac)
  {
    hide View;
    var was := View(s.list);
    assert e.clock(c) - was[mac] < valid;
    if t.mac == mac && kind.Fence? {
      assert r.log[|s.log|..] == [Alerted(mac, e.clock(c))];
      assert r.log[|s.log|] == r.log[|s.log|..][0];
    }
  }

  lemma GainsLater(s: State, q: State, r: State, kind: Kind, mac: string)
    requires s.log <= q.log <= r.log
    ensures Gains(s, q, kind, mac) || Gains(q, r, kind, mac) ==> Gains(s, r, kind, mac)
  {
    if k :| |s.log| <= k < |q.log| && KindOf(q.log[k]) == kind && q.log[k].mac == mac { assert r.log[k] == q.log[k]; }
  }

  lemma {:induction false} VisitAllHolds(s: State, targets: seq<Target>, n: nat, kind: Kind, c: nat, e: Environment, valid: int, mac: string)
    requires Unique(s.list) && AreMacs(targets) && n <= |targets| && Holds(s.list, mac, e, valid) && IsBrief(e, valid)
    ensures var r := Before(s, targets, n, kind, e.clock(c), valid);
            && s.log <= r.log
            && (Holds(r.list, mac, e, valid) || Gains(s, r, Fence, mac))
            && (kind.Fence? && (exists j :: 0 <= j < n && targets[j].mac == mac) ==> Gains(s, r, Fence, mac))
  {
    var now := e.clock(c);
    if n > 0 {
      VisitAllHolds(s, targets, n - 1, kind, c, e, valid, mac);
      BeforeNext(s, targets, n - 1, kind, now, valid);
      var q, r := Before(s, targets, n - 1, kind, now, valid), Before(s, targets, n, kind, now, valid);
      assert targets[..n][..n - 1] == targets[..n - 1];
      VisitGrows(q, targets[n - 1], kind, now, valid);
      hide Visited, Holds, IsBrief, Unique, Before, Visit, Gains;
      if Holds(q.list, mac, e, valid) {
        VisitHolds(q, r, targets[n - 1], kind, c, e, valid, mac);
      }
      GainsLater(s, q, r, Fence, mac);
    }
  }

  lemma VisitGrows(s: State, t: Target, kind: Kind, now: int, valid: int)
    ensures s.log <= Visit(s, t, kind, now, valid).log
  {
  }

  ghost predicate Sound(calls: seq<Call>, e: Environment) {
    forall i | 0 <= i < |calls| :: OnClock(calls[i], e) && AreMacs(calls[i].targets)
  }

  lemma CallHolds(s: State, c: Call, e: Environment, valid: int, mac: string)
    requires Unique(s.list) && AreMacs(c.targets) && OnClock(c, e) && Holds(s.list, mac, e, valid) && IsBrief(e, valid)
    ensures var r := Examine(s, c, valid);
            && s.log <= r.log && (Holds(r.list, mac, e, valid) || Gains(s, r, Fence, mac))
            && (IsOf(c, Fence, mac) ==> Gains(s, r, Fence, mac))
  {
    var q: nat :| c.now == e.clock(q);
    VisitAllHolds(s.(found := false), c.targets, |c.targets|, c.kind, q, e, valid, mac);
    assert c.targets[..|c.targets|] == c.targets;
    hide Holds, IsBrief, Unique;
  }

  lemma CallGrows(s: State, c: Call, valid: int)
    requires Unique(s.list) && AreMacs(c.targets)
    ensures s.log <= Examine(s, c, valid).log && Unique(Examine(s, c, valid).list)
  {
    VisitAllEvents(s.(found := false), c.targets, c.kind, c.now, valid);
    VisitAllKeepsUnique(s.(found := false), c.targets, c.kind, c.now, valid);
    hide VisitAll;
  }

  lemma {:induction false} RunHolds(s: State, calls: seq<Call>, e: Environment, valid: int, mac: string)
    requires Unique(s.list) && Sound(calls, e) && Holds(s.list, mac, e, valid) && IsBrief(e, valid)
    ensures var r := RunFrom(s, calls, valid);
            && s.log <= r.log && Unique(r.list) && (Holds(r.list, mac, e, valid) || Gains(s, r, Fence, mac))
            && (SomeIsOf(calls, Fence, mac) ==> Gains(s, r, Fence, mac))
  {
    if calls != [] {
      var n := |calls| - 1;
      RunHolds(s, calls[..n], e, valid, mac);
      var q, r := RunFrom(s, calls[..n], valid), RunFrom(s, calls, valid);
      assert r == Examine(q, calls[n], valid);
      assert SomeIsOf(calls, Fence, mac) ==> SomeIsOf(calls[..n], Fence, mac) || IsOf(calls[n], Fence, mac) by {
        if i :| 0 <= i < |calls| && IsOf(calls[i], Fence, mac) { assert i < n ==> IsOf(calls[..n][i], Fence, mac); }
      }
      hide Holds, IsBrief, Unique, Examine, IsOf, SomeIsOf, Gains, RunFrom;
      CallGrows(q, calls[n], valid);
      if Holds(q.list, mac, e, valid) { CallHolds(q, calls[n], e, valid, mac); }
      GainsLater(s, q, r, Fence, mac);
    }
  }

  lemma MessageIsSound(fences: seq<FenceArea>, m: Message, monitored: seq<Monitored>, e: Environment)
    requires Proper(m)
    ensures Sound(MessageCalls(fences, m, monitored, e), e)
    ensures forall c | c in MessageCalls(fences, m, monitored, e) :: |c.targets| <= |m.seen|
  {
    CallsAreMade(fences, m, monitored, e);
    forall c | c in MessageCalls(fences, m, monitored, e)
      ensures OnClock(c, e) && AreMacs(c.targets) && |c.targets| <= |m.seen|
    {
      MadeFacts(c, m, monitored, e);
    }
  }

  /** An object with a valid record that is seen at a fence raises the alert: the beacon is part
      of the fence of a setting of its area, and the object is strong enough and monitored. */
  lemma ValidRecordRaisesAlert(s: State, fences: seq<FenceArea>, m: Message, monitored: seq<Monitored>, e: Environment, valid: int, mac: string)
    requires Unique(s.list) && Proper(m) && IsBrief(e, valid) && Holds(s.list, mac, e, valid)
    requires Earned(fences, m, monitored, Fence, mac)
    ensures Gains(s, RunFrom(s, MessageCalls(fences, m, monitored, e), valid), Fence, mac)
  {
    hide *;
    EarnedMakesCall(fences, m, monitored, e, Fence, mac);
    MessageIsSound(fences, m, monitored, e);
    RunHolds(s, MessageCalls(fences, m, monitored, e), e, valid, mac);
  }

  lemma SingleIsRecorded(s: State, c: Call, valid: int, mac: string)
    requires Unique(s.list) && AreMacs(c.targets) && |c.targets| <= 1 && IsOf(c, Perimeter, mac)
    ensures var r := Examine(s, c, valid); Gains(s, r, Perimeter, mac) && mac in View(r.list) && View(r.list)[mac] == c.now
  {
    var s0, t := s.(found := false), c.targets[0];
    assert c.targets[..0] == [] && c.targets == [t];
    assert VisitAll(s0, [], Perimeter, c.now, valid) == s0;
    assert VisitAll(s0, c.targets, Perimeter, c.now, valid) == Visit(VisitAll(s0, c.targets[..0], Perimeter, c.now, valid), t, Perimeter, c.now, valid);
    assert Examine(s, c, valid) == Visit(s0, t, Perimeter, c.now, valid);
    VisitMeaning(s0, t, Perimeter, c.now, valid);
    var r := Visit(s0, t, Perimeter, c.now, valid);
    hide View, Visit, Unique, Examine;
    assert r.log[|s.log|..] == [Recorded(mac, c.now)] || r.log == s.log + [Recorded(mac, c.now)];
    assert r.log[|s.log|] == r.log[|s.log|..][0];
  }

  /** Only perimeter calls, and only for `mac`, look at an object. */
  ghost predicate Quiet(calls: seq<Call>, mac: string) {
    forall i | 0 <= i < |calls| :: IsQuiet(calls[i], mac)
  }

  ghost predicate IsQuiet(c: Call, mac: string) {
    c.targets == [] || IsOf(c, Perimeter, mac)
  }

  lemma QuietKeeps(s: State, c: Call, valid: int, mac: string)
    requires Unique(s.list) && AreMacs(c.targets) && |c.targets| <= 1 && IsQuiet(c, mac)
    ensures var r := Examine(s, c, valid);
            mac in View(s.list) || IsOf(c, Perimeter, mac) ==> mac in View(r.list)
  {
    if IsOf(c, Perimeter, mac) { SingleIsRecorded(s, c, valid, mac); }
  }

  lemma {:induction false} SingleRun(s: State, calls: seq<Call>, e: Environment, valid: int, mac: string)
    requires Unique(s.list) && Sound(calls, e) && forall c | c in calls :: |c.targets| <= 1
    ensures var r := RunFrom(s, calls, valid);
            && s.log <= r.log && Unique(r.list)
            && (SomeIsOf(calls, Perimeter, mac) ==> Gains(s, r, Perimeter, mac) && (Quiet(calls, mac) ==> mac in View(r.list)))
  {
    if calls != [] {
      var n := |calls| - 1;
      SingleRun(s, calls[..n], e, valid, mac);
      var q, r := RunFrom(s, calls[..n], valid), RunFrom(s, calls, valid);
      assert r == Examine(q, calls[n], valid) && calls[n] in calls;
      assert SomeIsOf(calls, Perimeter, mac) ==> SomeIsOf(calls[..n], Perimeter, mac) || IsOf(calls[n], Perimeter, mac) by {
        if i :| 0 <= i < |calls| && IsOf(calls[i], Perimeter, mac) { assert i < n ==> IsOf(calls[..n][i], Perimeter, mac); }
      }
      hide Unique, Examine, IsOf, SomeIsOf, Gains, RunFrom, View, IsQuiet;
      CallGrows(q, calls[n], valid);
      if IsOf(calls[n], Perimeter, mac) { SingleIsRecorded(q, calls[n], valid, mac); }
      if IsQuiet(calls[n], mac) { QuietKeeps(q, calls[n], valid, mac); }
      GainsLater(s, q, r, Perimeter, mac);
    }
  }

  lemma SingleIsQuiet(fences: seq<FenceArea>, m: Message, monitored: seq<Monitored>, e: Environment, mac: string)
    requires |m.seen| == 1 && Lower(m.seen[0].mac) == mac
    requires forall i, j | 0 <= i < |fences| && fences[i].id == m.area && 0 <= j < |fences[i].settings| ::
               !Concerns(fences[i].settings[j], m, Fence)
    ensures Quiet(MessageCalls(fences, m, monitored, e), mac)
  {
    var calls := MessageCalls(fences, m, monitored, e);
    MessageCallsEarned(fences, |fences|, m, monitored, e);
    assert fences[..|fences|] == fences;
    forall i | 0 <= i < |calls|
      ensures IsQuiet(calls[i], mac)
    {
      var c := calls[i];
      if c.targets != [] {
        assert c in calls && CallEarned(c, fences, m, monitored);
        var x := c.targets[0];
        assert x in c.targets && Earned(fences, m, monitored, c.kind, x.mac);
        hide Concerns, Meets, Lower;
        assert c.kind == Perimeter;
      }
    }
  }

  /** The only object of a message is recorded when the beacon is part of the perimeter of a
      setting of its area, and the object is strong enough and monitored; and if the beacon is
      part of no fence there, the record is still in the list afterwards. */
  lemma SightingIsRecorded(s: State, fences: seq<FenceArea>, m: Message, monitored: seq<Monitored>, e: Environment, valid: int, mac: string)
    requires Unique(s.list) && Proper(m) && |m.seen| == 1 && Earned(fences, m, monitored, Perimeter, mac)
    ensures var r := RunFrom(s, MessageCalls(fences, m, monitored, e), valid);
            && Gains(s, r, Perimeter, mac)
            && ((forall i, j | 0 <= i < |fences| && fences[i].id == m.area && 0 <= j < |fences[i].settings| ::
                   !Concerns(fences[i].settings[j], m, Fence)) ==> mac in View(r.list))
  {
    assert Lower(m.seen[0].mac) == mac by { hide Concerns, Meets, Lower; }
    hide *;
    EarnedMakesCall(fences, m, monitored, e, Perimeter, mac);
    MessageIsSound(fences, m, monitored, e);
    SingleRun(s, MessageCalls(fences, m, monitored, e), e, valid, mac);
    if forall i, j | 0 <= i < |fences| && fences[i].id == m.area && 0 <= j < |fences[i].settings| ::
         !Concerns(fences[i].settings[j], m, Fence) {
      SingleIsQuiet(fences, m, monitored, e, mac);
    }
  }

  /** The result of a scan that has passed `front` and then goes on as `r`. */
  ghost function Prefixed(front: seq<Violation>, found: bool, did: seq<Event>, r: Scanned): Scanned {
    Scanned(front + r.left, found || r.found, did + r.events)
  }

  lemma PrefixedIs(front: seq<Violation>, found: bool, did: seq<Event>, r: Scanned)
    ensures Prefixed(front, found, did, r) == Scanned(front + r.left, found || r.found, did + r.events)
    ensures Prefixed([], false, [], r) == r
  {
  }

  lemma ScanNothing(mac: string, kind: Kind, now: int, valid: int, db: bool)
    ensures Scan([], mac, kind, now, valid, db) == Scanned([], false, [])
  {
  }

  lemma ScanUnfolds(front: seq<Violation>, found: bool, did: seq<Event>, v: seq<Violation>,
                    mac: string, kind: Kind, now: int, valid: int, db: bool)
    requires v != []
    ensures !Matches(v[0], mac) ==>
              Prefixed(front, found, did, Scan(v, mac, kind, now, valid, db)) ==
              Prefixed(if IsStale(v[0], now, valid) then front else front + [v[0]], found, did, Scan(v[1..], mac, kind, now, valid, db))
  {
  }

  /** The lists and settings of the monitor; `log` is what it has done so far. */
  class Monitor {
    const valid: int
    const fences: seq<FenceArea>
    const monitored: seq<Monitored>
    var violations: seq<Violation>
    ghost var log: seq<Event>

    constructor (valid: int, fences: seq<FenceArea>, monitored: seq<Monitored>)
      ensures violations == [] && log == []
      ensures this.valid == valid && this.fences == fences && this.monitored == monitored
    {
      this.valid, this.fences, this.monitored := valid, fences, monitored;
      violations, log := [], [];
    }

    method RemoveAt(i: nat, ghost front: seq<Violation>, ghost back: seq<Violation>)
      requires back != [] && violations == front + back && i == |front|
      modifies `violations
      ensures violations == front + back[1..]
    {
      violations := violations[..i] + violations[i + 1..];
    }

    method Refresh(i: nat, ghost front: seq<Violation>, ghost back: seq<Violation>, now: int)
      requires back != [] && violations == front + back && i == |front|
      modifies `violations
      ensures violations == front + ([back[0].(ts := now)] + back[1..])
    {
      violations := violations[i := violations[i].(ts := now)];
    }

    /** The record at `i` is the object's own.  The scan goes on if an alert could not be delivered. */
    method Hit(i: nat, mac: string, kind: Kind, now: int, db: bool, ghost front: seq<Violation>, ghost back: seq<Violation>,
               ghost found: bool, ghost did: seq<Event>)
      returns (again: bool)
      requires back != [] && violations == front + back && i == |front| && Matches(back[0], mac)
      modifies `violations, `log
      ensures again ==>
                violations == front + back[1..] && log == old(log) + [Alerted(mac, now)]
                && Prefixed(front, found, did, Scan(back, mac, kind, now, valid, db)) ==
                     Prefixed(front, true, did + [Alerted(mac, now)], Scan(back[1..], mac, kind, now, valid, db))
      ensures !again ==>
                var r := Scan(back, mac, kind, now, valid, db);
                r.found && violations == front + r.left && log == old(log) + r.events
    {
      var r := violations[i];
      if kind.Fence? && valid > now - r.ts {
        RemoveAt(i, front, back);
        log := log + [Alerted(mac, now)];
        return !db;
      } else if kind.Perimeter? {
        Refresh(i, front, back, now);
        log := log + [Recorded(mac, now)];
      }
      return false;
    }

    /** The `list_for_each_safe` over the violation list: entries are removed while it runs. */
    method ScanViolations(mac: string, kind: Kind, now: int, db: bool) returns (found: bool)
      modifies `violations, `log
      ensures var r := Scan(old(violations), mac, kind, now, valid, db);
              violations == r.left && found == r.found && log == old(log) + r.events
    {
      hide *;
      ghost var all := Scan(violations, mac, kind, now, valid, db);
      ghost var front, back, did := [], violations, [];
      PrefixedIs([], false, [], all);
      found := false;
      var i := 0;
      while i < |violations|
        invariant i == |front| && violations == front + back && log == old(log) + did
        invariant all == Prefixed(front, found, did, Scan(back, mac, kind, now, valid, db))
        decreases |violations| - i
      {
        ScanUnfolds(front, found, did, back, mac, kind, now, valid, db);
        ghost var rest := back[1..];
        if Matches(violations[i], mac) {
          PrefixedIs(front, found, did, Scan(back, mac, kind, now, valid, db));
          var again := Hit(i, mac, kind, now, db, front, back, found, did);
          found := true;
          if !again { return; }
          did, back := did + [Alerted(mac, now)], rest;
        } else if IsStale(violations[i], now, valid) {
          RemoveAt(i, front, back);
          back := rest;
        } else {
          front, back := front + [violations[i]], rest;
          i := i + 1;
        }
      }
      PrefixedIs(front, found, did, Scan([], mac, kind, now, valid, db));
      ScanNothing(mac, kind, now, valid, db);
    }

    /** One object that meets the fence's conditions. */
    method VisitObject(t: Target, kind: Kind, now: int, wasFound: bool) returns (found: bool)
      modifies `violations, `log
      ensures State(violations, found, log) == Visit(State(old(violations), wasFound, old(log)), t, kind, now, valid)
    {
      var hit := ScanViolations(t.mac, kind, now, t.db);
      found := wasFound || hit;
      if kind.Perimeter? && !found {
        violations := violations + [Violation(t.mac, now)];
        log := log + [Recorded(t.mac, now)];
      }
    }

    /** The search for the object in the lists of monitored objects. */
    method IsMonitored(f: Filter, s: Sighting) returns (b: bool)
      requires |s.mac| <= 18
      ensures b == IsTarget(s, f)
    {
      var mac := Lower(s.mac);
      for i := 0 to |f.monitored|
        invariant !exists k :: 0 <= k < i && Covers(f.monitored[k], f, mac) && s.rssi >= f.criteria
      {
        if f.global || f.monitored[i].area == f.area {
          if !Contains(f.monitored[i].macs, mac) { continue; }
          if s.rssi < f.criteria { continue; }
          assert Covers(f.monitored[i], f, mac);
          return true;
        }
      }
      return false;
    }

    /** `examine_object_tracking_data`, as call number `call` of a message. */
    method ExamineObjects(m: Message, f: Filter, kind: Kind, e: Environment, call: nat)
      modifies `violations, `log
      ensures var r := Examine(State(old(violations), false, old(log)), CallOf(kind, m, f, e, call), valid);
              violations == r.list && log == r.log
    {
      var seen, now := m.seen, e.clock(call);
      var found := false;
      ghost var s := State(violations, false, log);
      for i := 0 to |seen|
        invariant State(violations, found, log) == VisitAll(s, Targets(seen[..i], f, e, call), kind, now, valid)
      {
        ghost var before := Targets(seen[..i], f, e, call);
        assert seen[..i + 1][..i] == seen[..i];
        assert !IsTarget(seen[i], f) ==> Targets(seen[..i + 1], f, e, call) == before;
        if |seen[i].mac| > 18 { continue; }
        var target := IsMonitored(f, seen[i]);
        if target {
          var t := Target(Lower(seen[i].mac), e.db(call, i));
          found := VisitObject(t, kind, now, found);
          assert Targets(seen[..i + 1], f, e, call) == before + [t];
          assert (before + [t])[..|before|] == before;
        }
      }
      assert seen[..|seen|] == seen;
    }

    /** `check_geo_fence_violations`: every setting of the beacon's area is looked at, first for
        its perimeter and then for its fence. */
    method Check(m: Message, e: Environment)
      modifies `violations, `log
      ensures var r := RunFrom(State(old(violations), false, old(log)), MessageCalls(fences, m, monitored, e), valid);
              violations == r.list && log == r.log
    {
      hide *;
      ghost var s := State(violations, false, log);
      ghost var calls := [];
      var n := 0;
      NoCallsYet(s, m, monitored, e, 0, valid);
      assert fences[..0] == [];
      for i := 0 to |fences|
        invariant n == |calls| && calls == MessageCalls(fences[..i], m, monitored, e)
        invariant var r := RunFrom(s, calls, valid); violations == r.list && log == r.log
      {
        MessageCallsNext(fences, i, m, monitored, e);
        if fences[i].id == m.area {
          var k;
          ghost var more;
          k, more := CheckArea(fences[i].settings, m, e, n);
          RunFromMore(s, calls, more, valid);
          n, calls := n + k, calls + more;
        }
      }
      assert fences[..|fences|] == fences;
    }

    method CheckArea(settings: seq<Setting>, m: Message, e: Environment, first: nat) returns (n: nat, ghost calls: seq<Call>)
      modifies `violations, `log
      ensures n == |calls| && calls == AreaCalls(settings, m, monitored, e, first)
      ensures var r := RunFrom(State(old(violations), false, old(log)), calls, valid);
              violations == r.list && log == r.log
    {
      hide *;
      ghost var s := State(violations, false, log);
      n, calls := 0, [];
      NoCallsYet(s, m, monitored, e, first, valid);
      assert settings[..0] == [];
      for i := 0 to |settings|
        invariant n == |calls| && calls == AreaCalls(settings[..i], m, monitored, e, first)
        invariant var r := RunFrom(s, calls, valid); violations == r.list && log == r.log
      {
        AreaCallsNext(settings, i, m, monitored, e, first);
        var k;
        ghost var more;
        k, more := CheckSetting(settings[i], m, e, first + n);
        RunFromMore(s, calls, more, valid);
        n, calls := n + k, calls + more;
      }
      assert settings[..|settings|] == settings;
    }

    /** Both tests compare against `rssi_of_perimeters`. */
    method CheckSetting(t: Setting, m: Message, e: Environment, first: nat) returns (n: nat, ghost calls: seq<Call>)
      modifies `violations, `log
      ensures n == |calls| && calls == CallsOf(t, m, monitored, e, first)
      ensures var r := RunFrom(State(old(violations), false, old(log)), calls, valid);
              violations == r.list && log == r.log
    {
      var f := FilterOf(t, m, monitored);
      ghost var s := State(violations, false, log);
      n, calls := 0, [];
      if Contains(t.perimeters, m.uuid) {
        ExamineObjects(m, f, Perimeter, e, first);
        RunFromSnoc(s, calls, CallOf(Perimeter, m, f, e, first), valid);
        n, calls := 1, [CallOf(Perimeter, m, f, e, first)];
      }
      if Contains(t.fences, m.uuid) {
        ExamineObjects(m, f, Fence, e, first + n);
        RunFromSnoc(s, calls, CallOf(Fence, m, f, e, first + n), valid);
        calls := calls + [CallOf(Fence, m, f, e, first + n)];
        n := n + 1;
      }
    }
  }
}
