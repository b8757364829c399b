/**
  One row of the object table in src/HashTable.c: the per-beacon records with their RSSI
  rings, and what a new sighting does to them.

  Times are seconds as integers (the source parses them with atoi); coordinates are reals.
 */
module TrackingRow {

  /** The default average rssi: INITIAL_AVERAGE_RSSI. */
  const INITIAL_AVERAGE_RSSI := -100
  /** The physical size of an RSSI ring: MAX_NUMBER_OF_RSSI_SIGNAL_UNDER_TRACKING. */
  const RING_SIZE: nat := 32

  /** `uuid_record_table_row`. */
  datatype Record = Record(
    inUse: bool, uuid: string, initialTs: int, finalTs: int, lastReported: int,
    writeIndex: nat, rssi: seq<int>, x: real, y: real)

  /** `hash_table_row`. */
  datatype Row = Row(
    summaryUuid: string, initialTs: int, finalTs: int, averageRssi: int, lastReported: int,
    battery: string, panic: string, x: real, y: real, records: seq<Record>)

  /** What one beacon reports about the object; the coordinates are part of the uuid. */
  datatype Sighting = Sighting(
    uuid: string, initialTs: int, finalTs: int, rssi: int, battery: string, panic: string, x: real, y: real)

  datatype Params = Params(
    window: nat, threshold: int, unreasonable: int, multiplier: nat, tolerance: int, drift: int)

  /** Rings have their physical size, and the configured window fits in them. */
  predicate WellFormed(records: seq<Record>, n: nat) {
    && 1 <= n <= RING_SIZE
    && (forall i | 0 <= i < |records| :: |records[i].rssi| == RING_SIZE && records[i].writeIndex < n)
  }

  /* ------------------------------ the RSSI ring ---------------------------- */

  function Advance(w: nat, n: nat): nat { if w + 1 == n then 0 else w + 1 }

  /** The cell written `k` writes before the one at `w`. */
  function Back(w: nat, k: nat, n: nat): nat
    requires w < n && k < n
  {
    if k <= w then w - k else w + n - k
  }

  /** One write: step the index, then store. */
  function Write(ring: seq<int>, w: nat, v: int, n: nat): (r: (seq<int>, nat))
    requires w < n <= |ring|
    ensures |r.0| == |ring| && r.1 < n
  {
    (ring[Advance(w, n) := v], Advance(w, n))
  }

  function WriteZeros(ring: seq<int>, w: nat, m: nat, n: nat): (r: (seq<int>, nat))
    requires w < n <= |ring|
    ensures |r.0| == |ring| && r.1 < n
    decreases m
  {
    if m == 0 then (ring, w)
    else
      var (a, u) := WriteZeros(ring, w, m - 1, n);
      Write(a, u, 0, n)
  }

  /** The zeros for missed seconds: one less than a gap of at least two. */
  function Missed(gap: int): nat { if gap >= 2 then gap - 1 else 0 }

  /** A sighting by a beacon that already has a record. */
  function Update(r: Record, s: Sighting, now: int, n: nat): (t: Record)
    requires r.writeIndex < n <= |r.rssi|
    ensures |t.rssi| == |r.rssi| && t.writeIndex < n
  {
    var (a, u) := WriteZeros(r.rssi, r.writeIndex, Missed(s.finalTs - r.finalTs), n);
    var (b, w) := Write(a, u, s.rssi, n);
    r.(finalTs := s.finalTs, lastReported := now, rssi := b, writeIndex := w)
  }

  /** A sighting by a new beacon takes over a record; its old samples are not cleared. */
  function Claim(r: Record, s: Sighting, now: int): Record
    requires |r.rssi| > 0
  {
    Record(true, s.uuid, s.initialTs, s.finalTs, now, 0, r.rssi[0 := s.rssi], s.x, s.y)
  }

  /** The loop that fills the missed seconds, then the write of the new sample. */
  method RecordSample(r: Record, s: Sighting, now: int, n: nat) returns (t: Record)
    requires r.writeIndex < n <= |r.rssi|
    ensures t == Update(r, s, now, n)
  {
    var timeGap := s.finalTs - r.finalTs;
    var ring, writeIndex := r.rssi, r.writeIndex;
    if timeGap >= 2 {
      var j := 2;
      while j <= timeGap
        invariant 2 <= j <= timeGap + 1 && writeIndex < n && |ring| == |r.rssi|
        invariant (ring, writeIndex) == WriteZeros(r.rssi, r.writeIndex, j - 2, n)
      {
        writeIndex := writeIndex + 1;
        if writeIndex == n { writeIndex := 0; }
        ring := ring[writeIndex := 0];
        j := j + 1;
      }
    }
    writeIndex := writeIndex + 1;
    if writeIndex == n { writeIndex := 0; }
    ring := ring[writeIndex := s.rssi];
    t := r.(finalTs := s.finalTs, lastReported := now, rssi := ring, writeIndex := writeIndex);
  }

  /** Reading back from `w` gives `history`, newest first, as far as the window reaches. */
  ghost predicate Shows(ring: seq<int>, w: nat, history: seq<int>, n: nat)
    requires w < n <= |ring|
  {
    forall k: nat | k < |history| && k < n :: ring[Back(w, k, n)] == history[k]
  }

  lemma WriteShows(ring: seq<int>, w: nat, history: seq<int>, v: int, n: nat)
    requires w < n <= |ring| && Shows(ring, w, history, n)
    ensures var (a, u) := Write(ring, w, v, n); Shows(a, u, [v] + history, n)
  {
    var (a, u) := Write(ring, w, v, n);
    forall k: nat | k < |history| + 1 && k < n
      ensures a[Back(u, k, n)] == ([v] + history)[k]
    {
      if k > 0 { assert Back(u, k, n) == Back(w, k - 1, n) && Back(u, k, n) != u; }
    }
  }

  function Zeros(m: nat): seq<int> { seq(m, _ => 0) }

  lemma {:induction false} WriteZerosShows(ring: seq<int>, w: nat, history: seq<int>, m: nat, n: nat)
    requires w < n <= |ring| && Shows(ring, w, history, n)
    ensures var (a, u) := WriteZeros(ring, w, m, n); Shows(a, u, Zeros(m) + history, n)
  {
    if m > 0 {
      WriteZerosShows(ring, w, history, m - 1, n);
      var (a, u) := WriteZeros(ring, w, m - 1, n);
      WriteShows(a, u, Zeros(m - 1) + history, 0, n);
      assert [0] + (Zeros(m - 1) + history) == Zeros(m) + history;
    } else {
      assert Zeros(0) + history == history;
    }
  }

  /** From the `m`-th cell back on the ring is still what it was in `before`. */
  ghost predicate Untouched(ring: seq<int>, w: nat, before: seq<int>, m: nat, n: nat)
    requires w < n <= |ring| == |before|
  {
    forall k: nat | m <= k < n :: ring[Back(w, k, n)] == before[Back(w, k, n)]
  }

  lemma WriteUntouched(ring: seq<int>, w: nat, before: seq<int>, m: nat, v: int, n: nat)
    requires w < n <= |ring| == |before| && Untouched(ring, w, before, m, n)
    ensures var (a, u) := Write(ring, w, v, n); Untouched(a, u, before, m + 1, n)
  {
    var (a, u) := Write(ring, w, v, n);
    forall k: nat | m + 1 <= k < n
      ensures a[Back(u, k, n)] == before[Back(u, k, n)]
    {
      assert Back(u, k, n) == Back(w, k - 1, n) && Back(u, k, n) != u;
    }
  }

  lemma {:induction false} WriteZerosUntouched(ring: seq<int>, w: nat, before: seq<int>, m: nat, z: nat, n: nat)
    requires w < n <= |ring| == |before| && Untouched(ring, w, before, m, n)
    ensures var (a, u) := WriteZeros(ring, w, z, n); Untouched(a, u, before, m + z, n)
  {
    if z > 0 {
      WriteZerosUntouched(ring, w, before, m, z - 1, n);
      var (a, u) := WriteZeros(ring, w, z - 1, n);
      WriteUntouched(a, u, before, m + z - 1, 0, n);
    }
  }

  lemma UpdateUntouched(r: Record, s: Sighting, now: int, before: seq<int>, m: nat, n: nat)
    requires r.writeIndex < n <= |r.rssi| == |before| && Untouched(r.rssi, r.writeIndex, before, m, n)
    ensures var t := Update(r, s, now, n);
            Untouched(t.rssi, t.writeIndex, before, m + Missed(s.finalTs - r.finalTs) + 1, n)
  {
    var z := Missed(s.finalTs - r.finalTs);
    WriteZerosUntouched(r.rssi, r.writeIndex, before, m, z, n);
    var (a, u) := WriteZeros(r.rssi, r.writeIndex, z, n);
    WriteUntouched(a, u, before, m + z, s.rssi, n);
  }

  /** One update puts the new value in front, after a zero for every missed second. */
  lemma UpdateShows(r: Record, s: Sighting, now: int, history: seq<int>, n: nat)
    requires r.writeIndex < n <= |r.rssi| && Shows(r.rssi, r.writeIndex, history, n)
    ensures var t := Update(r, s, now, n);
            Shows(t.rssi, t.writeIndex, [s.rssi] + (Zeros(Missed(s.finalTs - r.finalTs)) + history), n)
  {
    var m := Missed(s.finalTs - r.finalTs);
    WriteZerosShows(r.rssi, r.writeIndex, history, m, n);
    var (a, u) := WriteZeros(r.rssi, r.writeIndex, m, n);
    WriteShows(a, u, Zeros(m) + history, s.rssi, n);
  }

  /** A series of sightings by the beacon of a record, each with the time it is processed. */
  function Series(r: Record, events: seq<(Sighting, int)>, n: nat): (t: Record)
    requires r.writeIndex < n <= |r.rssi|
    ensures |t.rssi| == |r.rssi| && t.writeIndex < n
    decreases |events|
  {
    if events == [] then r
    else
      var last := events[|events| - 1];
      Update(Series(r, events[..|events| - 1], n), last.0, last.1, n)
  }

  /** The signal as a function of time, newest second first, since the claiming sighting. */
  function Signal(first: Sighting, events: seq<(Sighting, int)>): seq<int>
    decreases |events|
  {
    if events == [] then [first.rssi]
    else
      var front, last := events[..|events| - 1], events[|events| - 1].0;
      var previous := if front == [] then first else front[|front| - 1].0;
      [last.rssi] + (Zeros(Missed(last.finalTs - previous.finalTs)) + Signal(first, front))
  }

  /** The claiming sighting is number 0, the later ones follow. */
  ghost function Nth(first: Sighting, events: seq<(Sighting, int)>, k: nat): Sighting
    requires k <= |events|
  {
    if k == 0 then first else events[k - 1].0
  }

  ghost predicate InOrder(first: Sighting, events: seq<(Sighting, int)>) {
    forall j: nat, k: nat | j < k <= |events| :: Nth(first, events, j).finalTs < Nth(first, events, k).finalTs
  }

  /** Some sighting is of second `t`. */
  ghost predicate IsHeard(first: Sighting, events: seq<(Sighting, int)>, t: int) {
    exists k: nat :: k <= |events| && Nth(first, events, k).finalTs == t
  }

  /** The sample of second `t` is `last - t` cells back, and the other cells are 0. */
  ghost predicate IsByTime(signal: seq<int>, first: Sighting, events: seq<(Sighting, int)>) {
    var last := Nth(first, events, |events|).finalTs;
    && |signal| == last - first.finalTs + 1
    && (forall k: nat | k <= |events| ::
          && 0 <= last - Nth(first, events, k).finalTs < |signal|
          && signal[last - Nth(first, events, k).finalTs] == Nth(first, events, k).rssi)
    && (forall i | 0 <= i < |signal| && !IsHeard(first, events, last - i) :: signal[i] == 0)
  }

  lemma NthOfMore(first: Sighting, front: seq<(Sighting, int)>, e: (Sighting, int))
    ensures Nth(first, front + [e], |front| + 1) == e.0
    ensures forall k: nat | k <= |front| :: Nth(first, front + [e], k) == Nth(first, front, k)
  {
  }

  lemma HeardOfMore(first: Sighting, front: seq<(Sighting, int)>, e: (Sighting, int), t: int)
    ensures IsHeard(first, front, t) || t == e.0.finalTs ==> IsHeard(first, front + [e], t)
  {
    NthOfMore(first, front, e);
    hide Nth;
    if k: nat :| k <= |front| && Nth(first, front, k).finalTs == t {
      assert Nth(first, front + [e], k).finalTs == t;
    }
  }

  lemma LaterByTime(signal: seq<int>, first: Sighting, front: seq<(Sighting, int)>, e: (Sighting, int), more: seq<int>)
    requires IsByTime(signal, first, front)
    requires var gap := e.0.finalTs - Nth(first, front, |front|).finalTs;
             gap > 0 && more == [e.0.rssi] + (Zeros(gap - 1) + signal)
    ensures IsByTime(more, first, front + [e])
  {
    var events, before, last := front + [e], Nth(first, front, |front|).finalTs, e.0.finalTs;
    var gap := last - before;
    NthOfMore(first, front, e);
    assert forall i | gap <= i < |more| :: more[i] == signal[i - gap];
    assert more[0] == e.0.rssi && forall i | 0 < i < gap :: more[i] == 0;
    hide Nth, IsHeard, Zeros;
    forall k: nat | k <= |events|
      ensures 0 <= last - Nth(first, events, k).finalTs < |more|
      ensures more[last - Nth(first, events, k).finalTs] == Nth(first, events, k).rssi
    {
      if k <= |front| { assert before - Nth(first, front, k).finalTs >= 0; }
    }
    forall i | 0 <= i < |more| && !IsHeard(first, events, last - i)
      ensures more[i] == 0
    {
      HeardOfMore(first, front, e, last - i);
      assert last - i == before - (i - gap);
    }
  }

  /** For sightings in order of time the signal has one cell a second: the sample of each second
      at its distance from the newest one, and 0 for a second without a sighting. */
  lemma {:induction false} SignalIsByTime(first: Sighting, events: seq<(Sighting, int)>)
    requires InOrder(first, events)
    ensures IsByTime(Signal(first, events), first, events)
    decreases |events|
  {
    if events == [] {
      assert Nth(first, events, 0) == first;
    } else {
      var front, e := events[..|events| - 1], events[|events| - 1];
      assert events == front + [e];
      forall j: nat, k: nat | j < k <= |front|
        ensures Nth(first, front, j).finalTs < Nth(first, front, k).finalTs
      {
        assert Nth(first, front, j) == Nth(first, events, j) && Nth(first, front, k) == Nth(first, events, k);
      }
      SignalIsByTime(first, front);
      assert Nth(first, front, |front|) == Nth(first, events, |front|);
      assert Nth(first, events, |front|).finalTs < Nth(first, events, |events|).finalTs;
      hide IsByTime;
      LaterByTime(Signal(first, front), first, front, e, Signal(first, events));
    }
  }

  /** The ring is a sliding window: after a claim and any series of sightings, reading back
      from the write index gives the signal, cut at the window; and the cells behind it still
      hold what was there before the claim.  Only a signal as long as the window leaves none. */
  lemma {:induction false} RingIsSlidingWindow(r: Record, first: Sighting, now: int, events: seq<(Sighting, int)>, n: nat)
    requires 0 < n <= |r.rssi|
    ensures var t := Series(Claim(r, first, now), events, n);
            && t.writeIndex < n && Shows(t.rssi, t.writeIndex, Signal(first, events), n)
            && Untouched(t.rssi, t.writeIndex, r.rssi, |Signal(first, events)|, n)
            && t.finalTs == (if events == [] then first else events[|events| - 1].0).finalTs
    decreases |events|
  {
    if events != [] {
      var front, last := events[..|events| - 1], events[|events| - 1];
      RingIsSlidingWindow(r, first, now, front, n);
      UpdateShows(Series(Claim(r, first, now), front, n), last.0, last.1, Signal(first, front), n);
      UpdateUntouched(Series(Claim(r, first, now), front, n), last.0, last.1, r.rssi, |Signal(first, front)|, n);
    }
  }

  /** After a silence of a full window nothing older is left in it, not even what an earlier
      owner of the record had stored. */
  lemma SilenceClearsWindow(r: Record, s: Sighting, now: int, n: nat, i: nat)
    requires r.writeIndex < n <= |r.rssi| && s.finalTs - r.finalTs >= n && i < n
    ensures var t := Update(r, s, now, n);
            t.rssi[i] == if i == t.writeIndex then s.rssi else 0
  {
    var t := Update(r, s, now, n);
    UpdateShows(r, s, now, [], n);
    var history := [s.rssi] + (Zeros(Missed(s.finalTs - r.finalTs)) + []);
    var k: nat := if i <= t.writeIndex then t.writeIndex - i else t.writeIndex + n - i;
    assert Back(t.writeIndex, k, n) == i;
    assert k < |history| && history[k] == if k == 0 then s.rssi else 0;
  }

  /* ----------------------------- a new sighting ---------------------------- */

  /** The first in-use record of a beacon from `i` on, |records| if there is none. */
  function Match(records: seq<Record>, uuid: string, i: nat): (m: nat)
    requires i <= |records|
    ensures i <= m <= |records|
    ensures m < |records| ==> records[m].inUse && records[m].uuid == uuid
    ensures forall k | i <= k < m :: !(records[k].inUse && records[k].uuid == uuid)
    decreases |records| - i
  {
    if i == |records| || (records[i].inUse && records[i].uuid == uuid) then i else Match(records, uuid, i + 1)
  }

  function FirstFree(records: seq<Record>, i: nat): (m: nat)
    requires i <= |records|
    ensures i <= m <= |records|
    ensures m < |records| ==> !records[m].inUse
    ensures forall k | i <= k < m :: records[k].inUse
    decreases |records| - i
  {
    if i == |records| || !records[i].inUse then i else FirstFree(records, i + 1)
  }

  /** The in-use records belong to different beacons. */
  ghost predicate DistinctBeacons(records: seq<Record>) {
    forall i, j | 0 <= i < j < |records| && records[i].inUse && records[j].inUse :: records[i].uuid != records[j].uuid
  }

  function PutRecords(records: seq<Record>, s: Sighting, now: int, n: nat): (r: seq<Record>)
    requires WellFormed(records, n)
    ensures |r| == |records|
  {
    var m, f := Match(records, s.uuid, 0), FirstFree(records, 0);
    if m < |records| then records[m := Update(records[m], s, now, n)]
    else if f < |records| then records[f := Claim(records[f], s, now)]
    else records
  }

  function PutRow(row: Row, s: Sighting, now: int, n: nat): Row
    requires WellFormed(row.records, n)
  {
    row.(battery := s.battery, panic := s.panic, records := PutRecords(row.records, s, now, n))
  }

  /** The row part of `hashtable_put_new_tracking_data`: one loop looks for the beacon's
      record and remembers the first unused one. */
  method PutSighting(row: Row, s: Sighting, now: int, n: nat) returns (r: Row)
    requires WellFormed(row.records, n)
    ensures r == PutRow(row, s, now, n)
  {
    r := row.(battery := s.battery, panic := s.panic);
    var indexNotUsed := -1;
    var i := 0;
    while i < |r.records|
      invariant 0 <= i <= |r.records| && r == row.(battery := s.battery, panic := s.panic)
      invariant -1 <= indexNotUsed < i
      invariant Match(row.records, s.uuid, 0) == Match(row.records, s.uuid, i)
      invariant if indexNotUsed == -1 then FirstFree(row.records, 0) == FirstFree(row.records, i)
                else FirstFree(row.records, 0) == indexNotUsed
    {
      var record := r.records[i];
      if indexNotUsed == -1 && !record.inUse {
        indexNotUsed := i;
      } else if record.inUse && s.uuid == record.uuid {
        var t := RecordSample(record, s, now, n);
        return r.(records := r.records[i := t]);
      }
      i := i + 1;
    }
    if indexNotUsed != -1 {
      r := r.(records := r.records[indexNotUsed := Claim(r.records[indexNotUsed], s, now)]);
    }
  }

  /** A sighting keeps the beacons distinct and every ring well formed, gives its beacon a
      record unless all are taken, and changes no other record. */
  lemma PutKeepsDistinct(records: seq<Record>, s: Sighting, now: int, n: nat)
    requires WellFormed(records, n) && DistinctBeacons(records)
    ensures var r := PutRecords(records, s, now, n);
            && WellFormed(r, n) && DistinctBeacons(r)
            && (forall i | 0 <= i < |r| && r[i] != records[i] :: r[i].inUse && r[i].uuid == s.uuid)
            && ((exists i :: 0 <= i < |r| && r[i].inUse && r[i].uuid == s.uuid && r[i].lastReported == now) <==>
                (exists i :: 0 <= i < |records| && (!records[i].inUse || records[i].uuid == s.uuid)))
  {
    var r := PutRecords(records, s, now, n);
    var m, f := Match(records, s.uuid, 0), FirstFree(records, 0);
    if m < |records| {
      assert r[m].inUse && r[m].uuid == s.uuid && r[m].lastReported == now;
      assert records[m].uuid == s.uuid;
    } else if f < |records| {
      assert r[f].inUse && r[f].uuid == s.uuid && r[f].lastReported == now;
      assert !records[f].inUse;
    }
  }

  /** A record that a known beacon's sighting has reached. */
  ghost predicate IsUpdated(was: Record, r: Record, s: Sighting, now: int) {
    && r.inUse == was.inUse && r.uuid == was.uuid && r.initialTs == was.initialTs && r.x == was.x && r.y == was.y
    && r.finalTs == s.finalTs && r.lastReported == now
    && r.writeIndex < |r.rssi| && r.rssi[r.writeIndex] == s.rssi
  }

  /** A record that a new beacon's sighting has taken over. */
  ghost predicate IsClaimed(r: Record, s: Sighting, now: int) {
    && r.inUse && r.uuid == s.uuid && r.initialTs == s.initialTs && r.x == s.x && r.y == s.y
    && r.finalTs == s.finalTs && r.lastReported == now
    && r.writeIndex == 0 && r.rssi != [] && r.rssi[0] == s.rssi
  }

  ghost predicate OnlyChanged(was: seq<Record>, r: seq<Record>, i: nat) {
    |r| == |was| && forall k | 0 <= k < |r| && k != i :: r[k] == was[k]
  }

  /** What a sighting does to the row: battery and panic button are new, the summary is left
      alone; the beacon's record is updated, or else the first free one is taken over, or else
      the sample is dropped. */
  lemma PutMeans(row: Row, s: Sighting, now: int, n: nat)
    requires WellFormed(row.records, n)
    ensures var r := PutRow(row, s, now, n);
            && r.battery == s.battery && r.panic == s.panic
            && r.summaryUuid == row.summaryUuid && r.initialTs == row.initialTs && r.finalTs == row.finalTs
            && r.averageRssi == row.averageRssi && r.lastReported == row.lastReported && r.x == row.x && r.y == row.y
            && (forall i: nat | i < |row.records| && row.records[i].inUse && row.records[i].uuid == s.uuid
                                && (forall k | 0 <= k < i :: !(row.records[k].inUse && row.records[k].uuid == s.uuid)) ::
                  OnlyChanged(row.records, r.records, i) && IsUpdated(row.records[i], r.records[i], s, now))
            && (forall i: nat | i < |row.records| && !row.records[i].inUse && (forall k | 0 <= k < i :: row.records[k].inUse)
                                && (forall k | 0 <= k < |row.records| && row.records[k].inUse :: row.records[k].uuid != s.uuid) ::
                  OnlyChanged(row.records, r.records, i) && IsClaimed(r.records[i], s, now))
            && ((forall k | 0 <= k < |row.records| :: row.records[k].inUse && row.records[k].uuid != s.uuid) ==>
                  r.records == row.records)
  {
    var m := Match(row.records, s.uuid, 0);
    if m < |row.records| {
      UpdateShows(row.records[m], s, now, [], n);
      assert Back(Update(row.records[m], s, now, n).writeIndex, 0, n) == Update(row.records[m], s, now, n).writeIndex;
      hide Update;
    }
  }
}
