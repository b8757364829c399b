/**
  Averages, position and closest beacon of one row: `get_average_rssi`, `get_rssi_weight` and
  the per-row part of `hashtable_summarize_location_information` in src/HashTable.c.
 */
module Summary {
  import opened TrackingRow

  /* ------------------------------- averages -------------------------------- */

  function Abs(x: int): nat { if x < 0 then -x else x }

  /** C's division, which truncates toward zero. */
  function TruncDiv(a: int, b: int): int
    requires b > 0
  {
    if a >= 0 then a / b else -((-a) / b)
  }

  function Previous(k: nat, n: nat): nat
    requires k < n
  {
    if k == 0 then n - 1 else k - 1
  }

  lemma PreviousIsMod(k: nat, n: nat)
    requires k < n
    ensures (k - 1 + n) % n == Previous(k, n)
  {
    if k > 0 {
      assert (k - 1 + n) % n == k - 1 by { ModOnce(k - 1, n); }
    }
  }

  lemma ModOnce(r: nat, n: nat)
    requires r < n
    ensures (r + n) % n == r
  {
    var q := (r + n) / n;
    assert r + n == q * n + (r + n) % n;
    assert q >= 2 ==> q * n >= 2 * n;
    assert q <= 0 ==> q * n <= 0;
  }

  /** The samples that count: present, strong enough, and not an abnormal jump from the
      sample stored in the cell before (cyclically). */
  predicate Accepted(ring: seq<int>, k: nat, c: Params)
    requires k < c.window <= |ring|
  {
    && ring[k] != 0
    && ring[k] >= c.threshold
    && (ring[Previous(k, c.window)] == 0 || Abs(ring[k] - ring[Previous(k, c.window)]) <= c.unreasonable)
  }

  function Count(ring: seq<int>, c: Params, k: nat): nat
    requires k <= c.window <= |ring|
  {
    if k == 0 then 0 else Count(ring, c, k - 1) + (if Accepted(ring, k - 1, c) then 1 else 0)
  }

  function Sum(ring: seq<int>, c: Params, k: nat): int
    requires k <= c.window <= |ring|
  {
    if k == 0 then 0 else Sum(ring, c, k - 1) + (if Accepted(ring, k - 1, c) then ring[k - 1] else 0)
  }

  function Average(ring: seq<int>, c: Params): int
    requires c.window <= |ring|
  {
    if Count(ring, c, c.window) == 0 then 0
    else TruncDiv(Sum(ring, c, c.window), Count(ring, c, c.window))
  }

  /** `get_average_rssi`. */
  method GetAverageRssi(ring: seq<int>, c: Params) returns (avg: int)
    requires 0 < c.window <= |ring|
    ensures avg == Average(ring, c)
  {
    var count, sum := 0, 0;
    var k := 0;
    while k < c.window
      invariant 0 <= k <= c.window
      invariant count == Count(ring, c, k) && sum == Sum(ring, c, k)
    {
      if ring[k] == 0 {
        k := k + 1;
        continue;
      }
      if ring[k] < c.threshold {
        k := k + 1;
        continue;
      }
      var prev := (k - 1 + c.window) % c.window;
      PreviousIsMod(k, c.window);
      if ring[prev] != 0 && Abs(ring[k] - ring[prev]) > c.unreasonable {
        k := k + 1;
        continue;
      }
      sum := sum + ring[k];
      count := count + 1;
      k := k + 1;
    }
    if count == 0 { return 0; }
    avg := TruncDiv(sum, count);
  }

  lemma {:induction false} SumBounds(ring: seq<int>, c: Params, k: nat, lo: int, hi: int)
    requires k <= c.window <= |ring|
    requires forall i: nat | i < k && Accepted(ring, i, c) :: lo <= ring[i] <= hi
    ensures lo * Count(ring, c, k) <= Sum(ring, c, k) <= hi * Count(ring, c, k)
  {
    if k > 0 {
      SumBounds(ring, c, k - 1, lo, hi);
      MulNext(lo, Count(ring, c, k - 1));
      MulNext(hi, Count(ring, c, k - 1));
      hide Accepted;
    }
  }

  lemma MulNext(x: int, m: int)
    ensures x * (m + 1) == x * m + x
  {
  }

  lemma ProductsOrder(x: int, y: int, b: int)
    requires b > 0 && x * b < y * b
    ensures x < y
  {
    assert x >= y ==> x * b >= y * b;
  }

  /** For a dividend that is not negative, the quotient is between the bounds. */
  lemma DivBounds(a: int, b: int, lo: int, hi: int)
    requires b > 0 && a >= 0 && lo * b <= a <= hi * b
    ensures lo <= a / b <= hi
  {
    var q := a / b;
    assert q * b <= a < q * b + b;
    MulNext(b, q);
    MulNext(b, hi);
    ProductsOrder(lo, q + 1, b);
    ProductsOrder(q, hi + 1, b);
  }

  lemma TruncDivBounds(a: int, b: int, lo: int, hi: int)
    requires b > 0 && lo * b <= a <= hi * b
    ensures lo <= TruncDiv(a, b) <= hi
  {
    if a >= 0 {
      DivBounds(a, b, lo, hi);
    } else {
      Negated(lo, b);
      Negated(hi, b);
      DivBounds(-a, b, -hi, -lo);
    }
  }

  lemma Negated(x: int, b: int)
    ensures (-x) * b == -(x * b)
  {
  }

  /** The average lies between the least and the greatest accepted sample. */
  lemma AverageIsBetween(ring: seq<int>, c: Params, lo: int, hi: int)
    requires c.window <= |ring| && Count(ring, c, c.window) > 0
    requires forall i: nat | i < c.window && Accepted(ring, i, c) :: lo <= ring[i] <= hi
    ensures lo <= Average(ring, c) <= hi
  {
    SumBounds(ring, c, c.window, lo, hi);
    TruncDivBounds(Sum(ring, c, c.window), Count(ring, c, c.window), lo, hi);
  }

  /** The sample in cell `k` counts: there is one, it is not below the threshold, and it does not
      jump away from the sample in the cell before, if there is one. */
  ghost predicate SampleCounts(ring: seq<int>, c: Params, k: nat)
    requires k < c.window <= |ring|
  {
    var before := ring[(k + c.window - 1) % c.window];
    && ring[k] != 0 && ring[k] >= c.threshold
    && (before == 0 || -c.unreasonable <= ring[k] - before <= c.unreasonable)
  }

  lemma AcceptedIff(ring: seq<int>, c: Params, k: nat)
    requires k < c.window <= |ring|
    ensures Accepted(ring, k, c) <==> SampleCounts(ring, c, k)
  {
    PreviousIsMod(k, c.window);
  }

  ghost predicate Ascending(cells: seq<nat>) { forall i, j | 0 <= i < j < |cells| :: cells[i] < cells[j] }

  ghost function Total(ring: seq<int>, cells: seq<nat>): int
    requires forall i | 0 <= i < |cells| :: cells[i] < |ring|
  {
    if cells == [] then 0
    else Total(ring, cells[..|cells| - 1]) + ring[cells[|cells| - 1]]
  }

  /** `q` is the mean of `n` numbers with that total, rounded toward zero. */
  ghost predicate IsTruncatedMean(q: int, total: int, n: nat) {
    if total >= 0 then q * n <= total < q * n + n else q * n - n < total <= q * n
  }

  lemma TruncDivIsMean(total: int, n: nat)
    requires n > 0
    ensures IsTruncatedMean(TruncDiv(total, n), total, n)
  {
    if total < 0 {
      var p := (-total) / n;
      assert p * n <= -total < p * n + n;
      Negated(p, n);
    }
  }

  /** `cells` lists the accepted cells below `k`. */
  ghost predicate ListsAccepted(cells: seq<nat>, ring: seq<int>, c: Params, k: nat)
    requires k <= c.window <= |ring|
  {
    && Ascending(cells) && (forall i | 0 <= i < |cells| :: cells[i] < k)
    && (forall i: nat | i < k :: i in cells <==> Accepted(ring, i, c))
  }

  lemma ListsOneMore(cells: seq<nat>, ring: seq<int>, c: Params, k: nat)
    requires k < c.window <= |ring| && ListsAccepted(cells, ring, c, k)
    ensures ListsAccepted(if Accepted(ring, k, c) then cells + [k] else cells, ring, c, k + 1)
  {
    hide Accepted;
    if Accepted(ring, k, c) {
      var more := cells + [k];
      assert forall i: nat | i < k :: i in more <==> i in cells;
      assert more[|cells|] == k;
    }
  }

  lemma ListedInside(cells: seq<nat>, ring: seq<int>, c: Params, k: nat)
    requires k <= c.window <= |ring| && ListsAccepted(cells, ring, c, k)
    ensures forall i | 0 <= i < |cells| :: cells[i] < k
  {
  }

  lemma TotalOfMore(ring: seq<int>, cells: seq<nat>, k: nat)
    requires k < |ring| && forall i | 0 <= i < |cells| :: cells[i] < |ring|
    ensures Total(ring, cells + [k]) == Total(ring, cells) + ring[k]
  {
    var more := cells + [k];
    assert more[..|more| - 1] == cells;
  }

  lemma OneMoreCounted(ring: seq<int>, c: Params, k: nat)
    requires k < c.window <= |ring|
    ensures Count(ring, c, k + 1) == Count(ring, c, k) + (if Accepted(ring, k, c) then 1 else 0)
    ensures Sum(ring, c, k + 1) == Sum(ring, c, k) + (if Accepted(ring, k, c) then ring[k] else 0)
  {
  }

  lemma NothingCounted(ring: seq<int>, c: Params)
    requires c.window <= |ring|
    ensures ListsAccepted([], ring, c, 0) && Count(ring, c, 0) == 0 && Sum(ring, c, 0) == 0 && Total(ring, []) == 0
  {
  }

  lemma {:induction false} CountedCells(ring: seq<int>, c: Params, k: nat) returns (cells: seq<nat>)
    requires k <= c.window <= |ring|
    ensures ListsAccepted(cells, ring, c, k) && forall i | 0 <= i < |cells| :: cells[i] < k
    ensures |cells| == Count(ring, c, k) && Total(ring, cells) == Sum(ring, c, k)
  {
    hide *;
    if k == 0 {
      cells := [];
      NothingCounted(ring, c);
    } else {
      cells := CountedCells(ring, c, k - 1);
      ListsOneMore(cells, ring, c, k - 1);
      OneMoreCounted(ring, c, k - 1);
      TotalOfMore(ring, cells, k - 1);
      if Accepted(ring, k - 1, c) { cells := cells + [k - 1]; }
      ListedInside(cells, ring, c, k);
    }
  }

  /** The average is the mean, rounded toward zero, of exactly the samples that count, each taken
      once, and 0 when there is none. */
  lemma AverageIsMeanOfCounted(ring: seq<int>, c: Params) returns (cells: seq<nat>)
    requires c.window <= |ring|
    ensures Ascending(cells) && forall i | 0 <= i < |cells| :: cells[i] < c.window
    ensures forall i: nat | i < c.window :: i in cells <==> SampleCounts(ring, c, i)
    ensures if cells == [] then Average(ring, c) == 0
            else IsTruncatedMean(Average(ring, c), Total(ring, cells), |cells|)
  {
    cells := CountedCells(ring, c, c.window);
    forall i: nat | i < c.window
      ensures i in cells <==> SampleCounts(ring, c, i)
    {
      AcceptedIff(ring, c, i);
    }
    if cells != [] { TruncDivIsMean(Sum(ring, c, c.window), |cells|); }
  }

  lemma {:induction false} CountIsZeroIff(ring: seq<int>, c: Params, k: nat)
    requires k <= c.window <= |ring|
    ensures Count(ring, c, k) == 0 <==> forall i: nat | i < k :: !Accepted(ring, i, c)
  {
    if k > 0 { CountIsZeroIff(ring, c, k - 1); }
  }

  /** When the accepted samples are negative, as rssi values are, the average is 0 exactly
      when no sample was accepted. */
  lemma ZeroAverageMeansNoSample(ring: seq<int>, c: Params)
    requires c.window <= |ring|
    requires forall i: nat | i < c.window && Accepted(ring, i, c) :: ring[i] < 0
    ensures Average(ring, c) == 0 <==> forall i: nat | i < c.window :: !Accepted(ring, i, c)
  {
    CountIsZeroIff(ring, c, c.window);
    if Count(ring, c, c.window) > 0 {
      var lo := LeastSample(ring, c, c.window);
      AverageIsBetween(ring, c, lo, -1);
    }
  }

  lemma {:induction false} LeastSample(ring: seq<int>, c: Params, k: nat) returns (lo: int)
    requires k <= c.window <= |ring|
    ensures forall i: nat | i < k && Accepted(ring, i, c) :: lo <= ring[i]
  {
    if k == 0 {
      lo := 0;
    } else {
      lo := LeastSample(ring, c, k - 1);
      lo := if ring[k - 1] < lo then ring[k - 1] else lo;
    }
  }

  /** A sample of the beacon that had the record before enters the average of the new one:
      its only sample is -60, the old ones are -50, and the average is -55. */
  lemma ForeignSampleIsAveraged()
    ensures var r := Record(false, "old", 0, 0, 0, 0, seq(RING_SIZE, _ => -50), 0.0, 0.0);
            var s := Sighting("new", 100, 100, -60, "", "", 0.0, 0.0);
            && Signal(s, []) == [-60]
            && Average(Claim(r, s, 100).rssi, Params(2, -100, 20, 2, 0, 0)) == -55
  {
    var ring := Claim(Record(false, "old", 0, 0, 0, 0, seq(RING_SIZE, _ => -50), 0.0, 0.0),
                      Sighting("new", 100, 100, -60, "", "", 0.0, 0.0), 100).rssi;
    var c := Params(2, -100, 20, 2, 0, 0);
    assert ring[0] == -60 && ring[1] == -50 && Previous(0, 2) == 1 && Previous(1, 2) == 0;
    assert Count(ring, c, 1) == 1 && Count(ring, c, 2) == 2;
    assert Sum(ring, c, 1) == -60 && Sum(ring, c, 2) == -110;
  }

  /* -------------------------------- weights -------------------------------- */

  function Pow(m: nat, k: nat): nat { if k == 0 then 1 else m * Pow(m, k - 1) }

  /** `get_rssi_weight`. */
  function Weight(avg: int, m: nat): nat {
    if avg > -40 then Pow(m, 9)
    else if avg > -45 then Pow(m, 8)
    else if avg > -50 then Pow(m, 7)
    else if avg > -55 then Pow(m, 6)
    else if avg > -60 then Pow(m, 5)
    else if avg > -65 then Pow(m, 4)
    else if avg > -70 then Pow(m, 3)
    else if avg > -80 then Pow(m, 2)
    else if avg > -90 then Pow(m, 1)
    else if avg >= -100 then 1
    else 0
  }

  lemma {:induction false} PowGrows(m: nat, j: nat, k: nat)
    requires m >= 1 && j <= k
    ensures 1 <= Pow(m, j) <= Pow(m, k)
    decreases k
  {
    if j == k {
      if j > 0 { PowGrows(m, j - 1, k - 1); assert m * Pow(m, j - 1) >= Pow(m, j - 1); }
    } else {
      PowGrows(m, j, k - 1);
      assert m * Pow(m, k - 1) >= Pow(m, k - 1);
    }
  }

  /** The exponent of the weight; -1 stands for weight 0. */
  function Level(avg: int): int {
    if avg > -40 then 9 else if avg > -45 then 8 else if avg > -50 then 7 else if avg > -55 then 6
    else if avg > -60 then 5 else if avg > -65 then 4 else if avg > -70 then 3 else if avg > -80 then 2
    else if avg > -90 then 1 else if avg >= -100 then 0 else -1
  }

  /** A stronger average never weighs less, and every average of at least -100 weighs
      something. */
  lemma WeightIsMonotone(a: int, b: int, m: nat)
    requires m >= 1 && a <= b
    ensures Weight(a, m) <= Weight(b, m)
    ensures Weight(a, m) > 0 <==> a >= -100
  {
    assert Weight(a, m) == if Level(a) < 0 then 0 else Pow(m, Level(a));
    assert Weight(b, m) == if Level(b) < 0 then 0 else Pow(m, Level(b));
    hide Weight, Pow;
    if Level(a) >= 0 { PowGrows(m, Level(a), Level(b)); }
  }

  lemma PowOfZero(k: nat)
    requires k > 0
    ensures Pow(0, k) == 0
  {
  }

  /** The averages are on the same side of every boundary. */
  ghost predicate SameLevel(a: int, b: int) {
    && (a >= -100 <==> b >= -100)
    && (a > -90 <==> b > -90) && (a > -80 <==> b > -80) && (a > -70 <==> b > -70)
    && (a > -65 <==> b > -65) && (a > -60 <==> b > -60) && (a > -55 <==> b > -55)
    && (a > -50 <==> b > -50) && (a > -45 <==> b > -45) && (a > -40 <==> b > -40)
  }

  /** The weight is a step function: 1 at -100, constant between two boundaries, and multiplied
      by `m` on passing one; the boundaries are ten apart up to -70 and five apart from there. */
  lemma WeightSteps(a: int, b: int, m: nat)
    ensures Weight(-100, m) == 1
    ensures SameLevel(a, b) ==> Weight(a, m) == Weight(b, m)
    ensures a in {-90, -80, -70, -65, -60, -55, -50, -45, -40} ==> Weight(a + 1, m) == m * Weight(a, m)
    ensures Weight(a, m) > 0 <==> a >= -100 && (m > 0 || a <= -90)
  {
    assert SameLevel(a, b) ==> Level(a) == Level(b);
    assert Weight(a, m) == if Level(a) < 0 then 0 else Pow(m, Level(a));
    assert Weight(b, m) == if Level(b) < 0 then 0 else Pow(m, Level(b));
    if m > 0 {
      WeightIsMonotone(a, a, m);
    } else if Level(a) > 0 {
      PowOfZero(Level(a));
    }
  }

  /* ----------------------- candidates and their totals --------------------- */

  /** The record has been reported within the window of seconds. */
  predicate IsFresh(r: Record, c: Params, now: int) { r.lastReported >= now - c.window }

  /** Long enough rings to average over. */
  predicate Averageable(records: seq<Record>, c: Params) {
    c.window > 0 && forall i | 0 <= i < |records| :: c.window <= |records[i].rssi|
  }

  /** A record that takes part: in use, fresh, and with a usable average. */
  predicate Candidate(records: seq<Record>, c: Params, now: int, j: nat)
    requires Averageable(records, c) && j < |records|
  {
    records[j].inUse && IsFresh(records[j], c, now) && Average(records[j].rssi, c) != 0
  }

  function Avg(records: seq<Record>, c: Params, j: nat): int
    requires Averageable(records, c) && j < |records|
  {
    Average(records[j].rssi, c)
  }

  /** What the second loop has accumulated after `k` records: the strongest average among the
      candidates other than `skip` with its index (-1 if none beats -100), and the weights. */
  datatype Totals = Totals(best: int, index: int, weight: nat, wx: real, wy: real)

  function Accumulate(records: seq<Record>, c: Params, now: int, skip: int, k: nat): (t: Totals)
    requires Averageable(records, c) && k <= |records|
    ensures -1 <= t.index < k
  {
    if k == 0 then Totals(INITIAL_AVERAGE_RSSI, -1, 0, 0.0, 0.0)
    else
      var t := Accumulate(records, c, now, skip, k - 1);
      if !Candidate(records, c, now, k - 1) then t
      else AddCandidate(t, records[k - 1], Avg(records, c, k - 1), c, k - 1, skip)
  }

  function Scaled(x: real, w: nat): real { x * w as real }

  function AddCandidate(t: Totals, r: Record, avg: int, c: Params, j: nat, skip: int): (u: Totals)
    ensures u.index == t.index || u.index == j
  {
    var w := Weight(avg, c.multiplier);
    var u := t.(weight := t.weight + w, wx := t.wx + Scaled(r.x, w), wy := t.wy + Scaled(r.y, w));
    if j != skip && avg > t.best then u.(best := avg, index := j) else u
  }

  function TotalsOf(records: seq<Record>, c: Params, now: int, skip: int): Totals
    requires Averageable(records, c)
  {
    Accumulate(records, c, now, skip, |records|)
  }

  /** The strongest average is the greatest one above -100 among the other candidates, and it
      belongs to the recorded index. */
  lemma {:induction false} BestIsGreatest(records: seq<Record>, c: Params, now: int, skip: int, k: nat)
    requires Averageable(records, c) && k <= |records|
    ensures var t := Accumulate(records, c, now, skip, k);
            && (forall j: nat | j < k && j != skip && Candidate(records, c, now, j) ::
                  Avg(records, c, j) <= t.best)
            && t.best >= -100
            && (t.index == -1 <==> t.best == -100)
            && (t.index != -1 ==> t.index != skip && t.best > -100 && t.best == Avg(records, c, t.index)
                                  && Candidate(records, c, now, t.index))
            && (forall j: nat | j < t.index && j != skip && Candidate(records, c, now, j) ::
                  Avg(records, c, j) < t.best)
  {
    if k > 0 {
      BestIsGreatest(records, c, now, skip, k - 1);
      hide Candidate, Avg, Weight, Scaled;
    }
  }

  /** A record that carries weight. */
  predicate Weighs(records: seq<Record>, c: Params, now: int, j: nat)
    requires Averageable(records, c) && j < |records|
  {
    Candidate(records, c, now, j) && Weight(Avg(records, c, j), c.multiplier) > 0
  }

  /** All weighing records lie in the box. */
  ghost predicate InBox(records: seq<Record>, c: Params, now: int, k: nat, x0: real, x1: real, y0: real, y1: real)
    requires Averageable(records, c) && k <= |records|
  {
    forall j: nat | j < k && Weighs(records, c, now, j) ::
      x0 <= records[j].x <= x1 && y0 <= records[j].y <= y1
  }

  lemma ScaleUp(a: real, b: real, w: real)
    requires w >= 0.0 && a <= b
    ensures a * w <= b * w
  {
  }

  /** `sum`, of total weight `m`, is between `lo` and `hi` per unit of weight. */
  ghost predicate Axis(lo: real, hi: real, sum: real, m: real) { lo * m <= sum <= hi * m }

  lemma AxisStep(lo: real, hi: real, sum: real, m: real, x: real, w: real, sum': real, m': real)
    requires Axis(lo, hi, sum, m) && w >= 0.0 && (w > 0.0 ==> lo <= x <= hi)
    requires sum' == sum + x * w && m' == m + w
    ensures Axis(lo, hi, sum', m')
  {
    assert lo * (m + w) == lo * m + lo * w && hi * (m + w) == hi * m + hi * w;
    if w > 0.0 {
      ScaleUp(lo, x, w);
      ScaleUp(x, hi, w);
    }
  }

  ghost predicate Bounded(t: Totals, x0: real, x1: real, y0: real, y1: real) {
    Axis(x0, x1, t.wx, t.weight as real) && Axis(y0, y1, t.wy, t.weight as real)
  }

  lemma BoundedStep(t: Totals, r: Record, avg: int, c: Params, j: nat, skip: int,
                    x0: real, x1: real, y0: real, y1: real)
    requires Bounded(t, x0, x1, y0, y1)
    requires Weight(avg, c.multiplier) > 0 ==> x0 <= r.x <= x1 && y0 <= r.y <= y1
    ensures Bounded(AddCandidate(t, r, avg, c, j, skip), x0, x1, y0, y1)
  {
    hide Weight, Axis;
    var w := Weight(avg, c.multiplier);
    var u := AddCandidate(t, r, avg, c, j, skip);
    assert u.wx == t.wx + r.x * w as real && u.wy == t.wy + r.y * w as real;
    assert u.weight as real == t.weight as real + w as real;
    hide AddCandidate;
    AxisStep(x0, x1, t.wx, t.weight as real, r.x, w as real, u.wx, u.weight as real);
    AxisStep(y0, y1, t.wy, t.weight as real, r.y, w as real, u.wy, u.weight as real);
  }

  /** The weighted sums lie between the bounds of the coordinates that carry weight. */
  lemma {:induction false} WeightedBounds(records: seq<Record>, c: Params, now: int, skip: int, k: nat,
                                          x0: real, x1: real, y0: real, y1: real)
    requires Averageable(records, c) && k <= |records| && InBox(records, c, now, k, x0, x1, y0, y1)
    ensures Bounded(Accumulate(records, c, now, skip, k), x0, x1, y0, y1)
  {
    if k > 0 {
      hide Bounded, Weight, AddCandidate;
      WeightedBounds(records, c, now, skip, k - 1, x0, x1, y0, y1);
      if Candidate(records, c, now, k - 1) {
        assert Weight(Avg(records, c, k - 1), c.multiplier) > 0 ==> Weighs(records, c, now, k - 1);
        BoundedStep(Accumulate(records, c, now, skip, k - 1), records[k - 1], Avg(records, c, k - 1), c, k - 1, skip,
                    x0, x1, y0, y1);
      }
    }
  }

  /* -------------------------------- one row -------------------------------- */

  /** The record of the current closest beacon, -1 when it has none in use, its record is
      stale, or no sample of it is usable. */
  function SummaryIndex(row: Row, c: Params, now: int): (m: int)
    requires Averageable(row.records, c)
    ensures -1 <= m < |row.records|
    ensures m >= 0 ==> row.records[m].uuid == row.summaryUuid && Candidate(row.records, c, now, m)
  {
    var m := Match(row.records, row.summaryUuid, 0);
    if m < |row.records| && IsFresh(row.records[m], c, now) && Avg(row.records, c, m) != 0 then m else -1
  }

  /** Records not reported within the window are released. */
  function Release(records: seq<Record>, c: Params, now: int): (r: seq<Record>)
    ensures |r| == |records|
    ensures forall i | 0 <= i < |r| :: r[i] == records[i].(inUse := records[i].inUse && IsFresh(records[i], c, now))
  {
    seq(|records|, i requires 0 <= i < |records| =>
      records[i].(inUse := records[i].inUse && IsFresh(records[i], c, now)))
  }

  /** C's abs of a float: the argument is first truncated to an int. */
  function TruncAbs(d: real): int { if d >= 0.0 then d.Floor else (-d).Floor }

  predicate Drifted(row: Row, cx: real, cy: real, c: Params) {
    TruncAbs(cx - row.x) > c.drift || TruncAbs(cy - row.y) > c.drift
  }

  /** Another beacon takes over when the current one has no usable average or is weaker by
      more than the tolerance. */
  predicate Switches(row: Row, c: Params, now: int)
    requires Averageable(row.records, c)
  {
    var m := SummaryIndex(row, c, now);
    m == -1 || TotalsOf(row.records, c, now, m).best - Avg(row.records, c, m) > c.tolerance
  }

  function MovePin(row: Row, t: Totals, c: Params): Row
    requires t.weight > 0
  {
    var cx, cy := t.wx / t.weight as real, t.wy / t.weight as real;
    if Drifted(row, cx, cy, c) then row.(x := cx, y := cy) else row
  }

  /** The closest beacon after the update; with no average above -100 the strings are empty. */
  function Choose(row: Row, c: Params, now: int): Row
    requires Averageable(row.records, c)
  {
    var m := SummaryIndex(row, c, now);
    var t := TotalsOf(row.records, c, now, m);
    if Switches(row, c, now) then
      var ts := if t.index == -1 then 0 else row.records[t.index].finalTs;
      row.(averageRssi := t.best, summaryUuid := if t.index == -1 then "" else row.records[t.index].uuid,
           initialTs := ts, finalTs := ts)
    else row.(averageRssi := Avg(row.records, c, m), finalTs := row.records[m].finalTs)
  }

  /** What one pass of `hashtable_summarize_location_information` makes of a row it keeps. */
  function SummarizeRow(row: Row, c: Params, now: int): Row
    requires Averageable(row.records, c)
  {
    var t := TotalsOf(row.records, c, now, SummaryIndex(row, c, now));
    var r := if t.weight > 0 then MovePin(Choose(row, c, now), t, c).(lastReported := now) else row;
    r.(records := Release(row.records, c, now))
  }

  /** The records after the first loop: a stale record of the current beacon is released. */
  ghost predicate AfterFirstLoop(records: seq<Record>, row: Row, c: Params, now: int) {
    && |records| == |row.records|
    && forall k | 0 <= k < |records| ::
         records[k] == row.records[k] ||
         (records[k] == row.records[k].(inUse := false) && !IsFresh(row.records[k], c, now))
  }

  /** The first loop of the row: is the current closest beacon still usable? */
  method CheckCurrent(row: Row, c: Params, now: int) returns (records: seq<Record>, index: int, average: int)
    requires Averageable(row.records, c)
    ensures AfterFirstLoop(records, row, c, now)
    ensures index == SummaryIndex(row, c, now)
    ensures index >= 0 ==> average == Avg(row.records, c, index)
  {
    records, index, average := row.records, -1, INITIAL_AVERAGE_RSSI;
    var m := 0;
    while m < |records|
      invariant 0 <= m <= |records| && records == row.records
      invariant Match(row.records, row.summaryUuid, 0) == Match(row.records, row.summaryUuid, m)
    {
      if records[m].inUse && records[m].uuid == row.summaryUuid {
        if records[m].lastReported < now - c.window {
          records := records[m := records[m].(inUse := false)];
          return;
        }
        var avg := GetAverageRssi(records[m].rssi, c);
        if avg != 0 {
          index, average := m, avg;
        }
        return;
      }
      m := m + 1;
    }
  }

  /** The end of the second loop's body, for a beacon that takes part. */
  method AddBeacon(t: Totals, record: Record, avg: int, c: Params, j: nat, skip: int) returns (u: Totals)
    ensures u == AddCandidate(t, record, avg, c, j, skip)
  {
    hide Weight, Scaled;
    u := t;
    if j != skip && avg > u.best {
      u := u.(best := avg, index := j);
    }
    var w := Weight(avg, c.multiplier);
    u := u.(weight := u.weight + w, wx := u.wx + Scaled(record.x, w), wy := u.wy + Scaled(record.y, w));
  }

  /** The second loop: release stale records, find the strongest other beacon and add up the
      weights. */
  method ScanBeacons(row: Row, start: seq<Record>, c: Params, now: int, skip: int)
    returns (records: seq<Record>, t: Totals)
    requires Averageable(row.records, c) && AfterFirstLoop(start, row, c, now)
    ensures records == Release(row.records, c, now)
    ensures t == TotalsOf(row.records, c, now, skip)
  {
    hide AddCandidate, Average;
    records, t := start, Totals(INITIAL_AVERAGE_RSSI, -1, 0, 0.0, 0.0);
    var j := 0;
    while j < |records|
      invariant 0 <= j <= |records| == |row.records|
      invariant t == Accumulate(row.records, c, now, skip, j)
      invariant forall k | 0 <= k < j :: records[k] == Release(row.records, c, now)[k]
      invariant forall k | j <= k < |records| :: records[k] == start[k]
    {
      var record := records[j];
      if !record.inUse {
        j := j + 1;
        continue;
      }
      if record.lastReported < now - c.window {
        records := records[j := record.(inUse := false)];
        j := j + 1;
        continue;
      }
      var avg := GetAverageRssi(record.rssi, c);
      if avg == 0 {
        j := j + 1;
        continue;
      }
      assert record == row.records[j] && Candidate(row.records, c, now, j);
      t := AddBeacon(t, record, avg, c, j, skip);
      j := j + 1;
    }
    assert records == Release(row.records, c, now);
  }

  /** The per-row part of `hashtable_summarize_location_information`. */
  method Summarize(row: Row, c: Params, now: int) returns (r: Row)
    requires Averageable(row.records, c)
    ensures r == SummarizeRow(row, c, now)
  {
    var start, index, average := CheckCurrent(row, c, now);
    var records, t := ScanBeacons(row, start, c, now, index);
    r := row.(records := records);
    if t.weight > 0 {
      var cx, cy := t.wx / t.weight as real, t.wy / t.weight as real;
      if TruncAbs(cx - row.x) > c.drift || TruncAbs(cy - row.y) > c.drift {
        r := r.(x := cx, y := cy);
      }
      if index == -1 || t.best - average > c.tolerance {
        var uuid, final := "", 0;
        if t.index != -1 {
          uuid, final := records[t.index].uuid, records[t.index].finalTs;
        }
        r := r.(averageRssi := t.best, summaryUuid := uuid, initialTs := final, finalTs := final);
      } else {
        r := r.(averageRssi := average, summaryUuid := records[index].uuid, finalTs := records[index].finalTs);
      }
      r := r.(lastReported := now);
    }
  }

  /* ------------------------------ the theorems ----------------------------- */

  /** The weighted centroid lies in every box that contains the beacons carrying weight, and
      the stored pin ends within drift + 1 of it on each axis. */
  lemma LocationIsBounded(row: Row, c: Params, now: int, x0: real, x1: real, y0: real, y1: real)
    requires Averageable(row.records, c) && c.drift >= 0
    requires InBox(row.records, c, now, |row.records|, x0, x1, y0, y1)
    ensures var t := TotalsOf(row.records, c, now, SummaryIndex(row, c, now));
            t.weight > 0 ==>
              var cx, cy := t.wx / t.weight as real, t.wy / t.weight as real;
              var r := SummarizeRow(row, c, now);
              && x0 <= cx <= x1 && y0 <= cy <= y1
              && -(c.drift + 1) as real < cx - r.x < (c.drift + 1) as real
              && -(c.drift + 1) as real < cy - r.y < (c.drift + 1) as real
  {
    var skip := SummaryIndex(row, c, now);
    var t := TotalsOf(row.records, c, now, skip);
    WeightedBounds(row.records, c, now, skip, |row.records|, x0, x1, y0, y1);
    if t.weight > 0 {
      Centroid(x0, x1, t.wx, t.weight as real);
      Centroid(y0, y1, t.wy, t.weight as real);
    }
  }

  lemma Centroid(lo: real, hi: real, sum: real, m: real)
    requires m > 0.0 && Axis(lo, hi, sum, m)
    ensures lo <= sum / m <= hi
  {
    var q := sum / m;
    assert q * m == sum;
    if q < lo { ScaleStrict(q, lo, m); }
    if q > hi { ScaleStrict(hi, q, m); }
  }

  lemma ScaleStrict(a: real, b: real, m: real)
    requires m > 0.0 && a < b
    ensures a * m < b * m
  {
  }

  /** The pull of the beacons on a pin at (x, y): their weighted offsets from it, added up. */
  ghost function Pull(records: seq<Record>, c: Params, now: int, x: real, y: real, k: nat): (real, real)
    requires Averageable(records, c) && k <= |records|
  {
    if k == 0 then (0.0, 0.0)
    else
      var p := Pull(records, c, now, x, y, k - 1);
      if Candidate(records, c, now, k - 1)
      then AddPull(p, records[k - 1], Weight(Avg(records, c, k - 1), c.multiplier), x, y)
      else p
  }

  ghost function AddPull(p: (real, real), r: Record, w: nat, x: real, y: real): (real, real) {
    (p.0 + Scaled(r.x - x, w), p.1 + Scaled(r.y - y, w))
  }

  /** The pull on (x, y) of beacons with these totals. */
  ghost function Offset(t: Totals, x: real, y: real): (real, real) {
    (t.wx - Scaled(x, t.weight), t.wy - Scaled(y, t.weight))
  }

  lemma Spread(a: real, b: real, w: nat)
    ensures Scaled(a - b, w) == Scaled(a, w) - Scaled(b, w)
  {
  }

  lemma Gather(x: real, m: nat, w: nat)
    ensures Scaled(x, m + w) == Scaled(x, m) + Scaled(x, w)
  {
    assert (m + w) as real == m as real + w as real;
  }

  lemma PullNext(r: Record, x: real, y: real, avg: int, t: Totals, c: Params, j: nat, skip: int)
    ensures AddPull(Offset(t, x, y), r, Weight(avg, c.multiplier), x, y) == Offset(AddCandidate(t, r, avg, c, j, skip), x, y)
  {
    hide Weight, Scaled;
    var w := Weight(avg, c.multiplier);
    Spread(r.x, x, w);
    Spread(r.y, y, w);
    Gather(x, t.weight, w);
    Gather(y, t.weight, w);
  }

  lemma NoOffset(x: real, y: real)
    ensures Offset(Totals(INITIAL_AVERAGE_RSSI, -1, 0, 0.0, 0.0), x, y) == (0.0, 0.0)
  {
    assert Scaled(x, 0) == 0.0 && Scaled(y, 0) == 0.0;
  }

  lemma {:induction false} PullIsOffset(records: seq<Record>, c: Params, now: int, skip: int, x: real, y: real, k: nat)
    requires Averageable(records, c) && k <= |records|
    ensures Pull(records, c, now, x, y, k) == Offset(Accumulate(records, c, now, skip, k), x, y)
  {
    hide Candidate, Avg, Weight, AddPull, Offset, AddCandidate;
    if k == 0 {
      NoOffset(x, y);
    } else {
      PullIsOffset(records, c, now, skip, x, y, k - 1);
      PullNext(records[k - 1], x, y, Avg(records, c, k - 1), Accumulate(records, c, now, skip, k - 1), c, k - 1, skip);
    }
  }

  lemma QuotientIff(a: real, w: nat, q: real)
    requires w > 0
    ensures a - Scaled(q, w) == 0.0 <==> q == a / w as real
  {
  }

  lemma ChooseKeepsPin(row: Row, c: Params, now: int)
    requires Averageable(row.records, c)
    ensures Choose(row, c, now).x == row.x && Choose(row, c, now).y == row.y
    ensures var t := TotalsOf(row.records, c, now, SummaryIndex(row, c, now));
            t.weight > 0 ==>
              var q, r := MovePin(Choose(row, c, now), t, c), SummarizeRow(row, c, now);
              r.x == q.x && r.y == q.y
  {
  }

  lemma DriftIff(d: real, n: int)
    requires n >= 0
    ensures TruncAbs(d) <= n <==> -((n + 1) as real) < d < (n + 1) as real
  {
  }

  lemma PinRule(q: Row, t: Totals, c: Params)
    requires t.weight > 0 && c.drift >= 0
    ensures var x, y := t.wx / t.weight as real, t.wy / t.weight as real;
            var r := MovePin(q, t, c);
            var d := (c.drift + 1) as real;
            if -d < x - q.x < d && -d < y - q.y < d then r.x == q.x && r.y == q.y
            else r.x == x && r.y == y
  {
    DriftIff(t.wx / t.weight as real - q.x, c.drift);
    DriftIff(t.wy / t.weight as real - q.y, c.drift);
    hide TruncAbs;
  }

  /** The pin of a row with weight: there is one point at which the weighted beacons balance; a
      pin less than drift + 1 away from it on both axes stays, and any other one moves there. */
  lemma PinMovesToBalance(row: Row, c: Params, now: int) returns (x: real, y: real)
    requires Averageable(row.records, c) && HasWeight(row.records, c, now) && c.drift >= 0
    ensures forall a: real, b: real ::
              Pull(row.records, c, now, a, b, |row.records|) == (0.0, 0.0) <==> a == x && b == y
    ensures var r := SummarizeRow(row, c, now);
            var d := (c.drift + 1) as real;
            if -d < x - row.x < d && -d < y - row.y < d then r.x == row.x && r.y == row.y
            else r.x == x && r.y == y
  {
    var m := SummaryIndex(row, c, now);
    WeightIff(row.records, c, now, m, |row.records|);
    var t := TotalsOf(row.records, c, now, m);
    x, y := t.wx / t.weight as real, t.wy / t.weight as real;
    forall a: real, b: real
      ensures Pull(row.records, c, now, a, b, |row.records|) == (0.0, 0.0) <==> a == x && b == y
    {
      PullIsOffset(row.records, c, now, m, a, b, |row.records|);
      QuotientIff(t.wx, t.weight, a);
      QuotientIff(t.wy, t.weight, b);
      hide *;
    }
    ChooseKeepsPin(row, c, now);
    PinRule(Choose(row, c, now), t, c);
    hide *;
  }

  /** `m` is the first record in use that bears the row's beacon name. */
  ghost predicate NamesFirst(row: Row, m: nat)
    requires m < |row.records|
  {
    && row.records[m].inUse && row.records[m].uuid == row.summaryUuid
    && forall i | 0 <= i < m :: !(row.records[i].inUse && row.records[i].uuid == row.summaryUuid)
  }

  /** `m` is the record of the row's beacon if it takes part, and -1 if it does not. */
  ghost predicate IsCurrent(row: Row, c: Params, now: int, m: int)
    requires Averageable(row.records, c)
  {
    && -1 <= m < |row.records|
    && (m != -1 ==> NamesFirst(row, m) && Candidate(row.records, c, now, m))
    && (m == -1 ==> forall j: nat | j < |row.records| && NamesFirst(row, j) :: !Candidate(row.records, c, now, j))
  }

  /** The first loop finds the current beacon. */
  lemma CurrentIff(row: Row, c: Params, now: int, m: int)
    requires Averageable(row.records, c)
    ensures IsCurrent(row, c, now, m) <==> m == SummaryIndex(row, c, now)
  {
    var f := Match(row.records, row.summaryUuid, 0);
    if f < |row.records| { assert NamesFirst(row, f); }
    assert forall j: nat | j < |row.records| && NamesFirst(row, j) :: j == f;
  }

  /** Some record carries weight. */
  ghost predicate HasWeight(records: seq<Record>, c: Params, now: int)
    requires Averageable(records, c)
  {
    exists j: nat :: j < |records| && Candidate(records, c, now, j)
                     && Avg(records, c, j) >= -100 && (c.multiplier > 0 || Avg(records, c, j) <= -90)
  }

  lemma {:induction false} WeightIff(records: seq<Record>, c: Params, now: int, skip: int, k: nat)
    requires Averageable(records, c) && k <= |records|
    ensures Accumulate(records, c, now, skip, k).weight > 0 <==>
            exists j: nat :: j < k && Candidate(records, c, now, j)
                             && Avg(records, c, j) >= -100 && (c.multiplier > 0 || Avg(records, c, j) <= -90)
  {
    if k > 0 {
      hide Candidate, Avg, Weight, Scaled;
      WeightIff(records, c, now, skip, k - 1);
      WeightSteps(Avg(records, c, k - 1), 0, c.multiplier);
    }
  }

  /** Beacon `b` is the strongest of the others, the first one in a tie, and above -100. */
  ghost predicate IsClosestOther(records: seq<Record>, c: Params, now: int, m: int, b: nat)
    requires Averageable(records, c) && b < |records|
  {
    && IsStrongestOther(records, c, now, m, b) && Avg(records, c, b) > -100
    && forall j: nat | j < b && j != m && Candidate(records, c, now, j) :: Avg(records, c, j) < Avg(records, c, b)
  }

  /** Some closest other beacon has become the row's beacon; the row's time starts anew. */
  ghost predicate TakenOver(row: Row, r: Row, c: Params, now: int, m: int)
    requires Averageable(row.records, c)
  {
    exists b: nat ::
      && b < |row.records| && IsClosestOther(row.records, c, now, m, b)
      && r.summaryUuid == row.records[b].uuid && r.averageRssi == Avg(row.records, c, b)
      && r.initialTs == r.finalTs == row.records[b].finalTs
  }

  /** Beacon `m` is still the row's beacon, with its own average and latest time. */
  ghost predicate Stays(row: Row, r: Row, c: Params, m: int)
    requires Averageable(row.records, c)
  {
    && 0 <= m < |row.records| && r.summaryUuid == row.summaryUuid == row.records[m].uuid
    && r.averageRssi == Avg(row.records, c, m)
    && r.initialTs == row.initialTs && r.finalTs == row.records[m].finalTs
  }

  ghost predicate NameLost(r: Row) { r.summaryUuid == "" && r.averageRssi == -100 && r.initialTs == r.finalTs == 0 }

  /** Which beacon the row ends with, in every case: another beacon takes over if the current one
      takes no part or is beaten by more than the tolerance; the current one stays otherwise;
      with no other above -100 the row loses its name if it has no current beacon or a current
      one that is below -100 by more than the tolerance. */
  ghost predicate ClosestBeacon(row: Row, r: Row, c: Params, now: int, m: int)
    requires Averageable(row.records, c) && -1 <= m < |row.records|
  {
    if SomeAbove(row.records, c, now, m) then
      if m == -1 || IsBeaten(row.records, c, now, m) then TakenOver(row, r, c, now, m) else Stays(row, r, c, m)
    else
      if m == -1 || -100 - Avg(row.records, c, m) > c.tolerance then NameLost(r) else Stays(row, r, c, m)
  }

  /** The choice of the summary is the one of the table above. */
  lemma ChooseIsClosest(row: Row, c: Params, now: int, m: int)
    requires Averageable(row.records, c) && m == SummaryIndex(row, c, now)
    ensures ClosestBeacon(row, Choose(row, c, now), c, now, m)
  {
    var t := TotalsOf(row.records, c, now, m);
    var r := Choose(row, c, now);
    BestIsGreatest(row.records, c, now, m, |row.records|);
    hide Accumulate, SummaryIndex, Candidate, Avg;
    if t.index != -1 {
      var b: nat := t.index;
      assert IsClosestOther(row.records, c, now, m, b);
      assert SomeAbove(row.records, c, now, m);
      if m != -1 {
        assert t.best - Avg(row.records, c, m) > c.tolerance ==> Beats(row.records, c, now, m, b);
      }
    }
  }

  /** A pass over a row.  Records out of date are released and nothing else about them changes;
      without weight the rest of the row is as before; with weight the row is reported now, and
      `ClosestBeacon` says which beacon it ends with. */
  lemma ClosestBeaconHysteresis(row: Row, c: Params, now: int, m: int)
    requires Averageable(row.records, c) && IsCurrent(row, c, now, m)
    ensures var r := SummarizeRow(row, c, now);
            && |r.records| == |row.records|
            && (forall j: nat | j < |r.records| ::
                  && (r.records[j].inUse <==> row.records[j].inUse && row.records[j].lastReported >= now - c.window)
                  && r.records[j].(inUse := row.records[j].inUse) == row.records[j]
                  && (Candidate(row.records, c, now, j) <==> r.records[j].inUse && Average(row.records[j].rssi, c) != 0))
            && r.battery == row.battery && r.panic == row.panic
            && (!HasWeight(row.records, c, now) ==> r == row.(records := r.records))
            && (HasWeight(row.records, c, now) ==> r.lastReported == now && ClosestBeacon(row, r, c, now, m))
  {
    CurrentIff(row, c, now, m);
    WeightIff(row.records, c, now, m, |row.records|);
    ChooseIsClosest(row, c, now, m);
    var t := TotalsOf(row.records, c, now, m);
    var q := Choose(row, c, now);
    hide Accumulate, MovePin, SummaryIndex, Average, ClosestBeacon;
    MovePinKeeps(q, t, c);
    if t.weight > 0 { SameClosest(row, q, SummarizeRow(row, c, now), c, now, m); }
  }

  lemma SameClosest(row: Row, q: Row, r: Row, c: Params, now: int, m: int)
    requires Averageable(row.records, c) && -1 <= m < |row.records| && ClosestBeacon(row, q, c, now, m)
    requires r.summaryUuid == q.summaryUuid && r.averageRssi == q.averageRssi
    requires r.initialTs == q.initialTs && r.finalTs == q.finalTs
    ensures ClosestBeacon(row, r, c, now, m)
  {
    hide SomeAbove, IsBeaten, Avg, IsClosestOther;
  }

  /** The name of the closest beacon changes only if it takes no part any more or is beaten,
      provided it has an average above -100 and the tolerance is not negative. */
  lemma NameChangesIff(row: Row, c: Params, now: int, m: int)
    requires Averageable(row.records, c) && IsCurrent(row, c, now, m) && Named(row.records)
    requires m != -1 && Avg(row.records, c, m) > -100 && c.tolerance >= 0
    ensures SummarizeRow(row, c, now).summaryUuid != row.summaryUuid <==>
            HasWeight(row.records, c, now) && IsBeaten(row.records, c, now, m)
  {
    ClosestBeaconHysteresis(row, c, now, m);
    hide SummarizeRow, HasWeight, Avg, Average, Accumulate;
  }

  /** A row whose only candidate has an average of exactly -100: the beacon carries weight and
      is still not chosen, and the row loses the name of its former one. */
  lemma LoneWeakBeacon(row: Row, c: Params, now: int)
    requires Averageable(row.records, c) && |row.records| == 1 && row.records[0].uuid != row.summaryUuid
    requires Candidate(row.records, c, now, 0) && Avg(row.records, c, 0) == -100 && c.multiplier >= 1
    ensures SummarizeRow(row, c, now).summaryUuid == ""
  {
    ClosestBeaconHysteresis(row, c, now, -1);
    hide SummarizeRow, Avg;
  }

  lemma NameIsEmptied()
    ensures var record := Record(true, "new", 100, 100, 100, 0, [-100], 0.0, 0.0);
            var row := Row("old", 100, 100, -70, 100, "", "", 0.0, 0.0, [record]);
            SummarizeRow(row, Params(1, -100, 20, 2, 5, 0), 100).summaryUuid == ""
  {
    var c := Params(1, -100, 20, 2, 5, 0);
    var record := Record(true, "new", 100, 100, 100, 0, [-100], 0.0, 0.0);
    assert Count([-100], c, 1) == 1 && Sum([-100], c, 1) == -100;
    assert Average([-100], c) == -100;
    hide Average, Count, Sum, SummarizeRow;
    LoneWeakBeacon(Row("old", 100, 100, -70, 100, "", "", 0.0, 0.0, [record]), c, 100);
  }

  lemma MovePinKeeps(row: Row, t: Totals, c: Params)
    ensures t.weight > 0 ==> MovePin(row, t, c).(x := row.x, y := row.y) == row
  {
  }

  /** Some other candidate has an average above -100. */
  ghost predicate SomeAbove(records: seq<Record>, c: Params, now: int, m: int)
    requires Averageable(records, c)
  {
    exists j: nat :: j < |records| && j != m && Candidate(records, c, now, j) && Avg(records, c, j) > -100
  }

  /** The strongest other beacon beats beacon `m` by more than the tolerance. */
  ghost predicate Beats(records: seq<Record>, c: Params, now: int, m: nat, b: nat)
    requires Averageable(records, c) && m < |records| && b < |records|
  {
    IsStrongestOther(records, c, now, m, b) && Avg(records, c, b) - Avg(records, c, m) > c.tolerance
  }

  ghost predicate IsBeaten(records: seq<Record>, c: Params, now: int, m: nat)
    requires Averageable(records, c) && m < |records|
  {
    exists b: nat :: b < |records| && Beats(records, c, now, m, b)
  }

  ghost predicate IsStrongestOther(records: seq<Record>, c: Params, now: int, m: int, b: nat)
    requires Averageable(records, c) && b < |records|
  {
    && b != m && Candidate(records, c, now, b)
    && forall j: nat | j < |records| && j != m && Candidate(records, c, now, j) :: Avg(records, c, j) <= Avg(records, c, b)
  }

  /* ------------------------- running it once more -------------------------- */

  lemma ReleaseSame(records: seq<Record>, c: Params, now: int, j: nat)
    requires Averageable(records, c) && j < |records|
    ensures Averageable(Release(records, c, now), c)
    ensures Candidate(Release(records, c, now), c, now, j) == Candidate(records, c, now, j)
    ensures Avg(Release(records, c, now), c, j) == Avg(records, c, j)
  {
  }

  /** Releasing stale records does not change what the second loop accumulates. */
  lemma {:induction false} ReleaseKeepsTotals(records: seq<Record>, c: Params, now: int, skip: int, k: nat)
    requires Averageable(records, c) && k <= |records|
    ensures Averageable(Release(records, c, now), c)
    ensures Accumulate(Release(records, c, now), c, now, skip, k) == Accumulate(records, c, now, skip, k)
  {
    if k > 0 {
      ReleaseKeepsTotals(records, c, now, skip, k - 1);
      ReleaseSame(records, c, now, k - 1);
      hide Candidate, Avg, AddCandidate, Average;
      SameCoordinates(Accumulate(records, c, now, skip, k - 1), records[k - 1], Release(records, c, now)[k - 1],
                      Avg(records, c, k - 1), c, k - 1, skip);
    }
  }

  lemma SameCoordinates(t: Totals, r: Record, q: Record, avg: int, c: Params, j: nat, skip: int)
    requires q.x == r.x && q.y == r.y
    ensures AddCandidate(t, q, avg, c, j, skip) == AddCandidate(t, r, avg, c, j, skip)
  {
  }

  /** The totals depend on the skipped record only through the strongest other beacon. */
  lemma {:induction false} WeightsIgnoreSkip(records: seq<Record>, c: Params, now: int, p: int, q: int, k: nat)
    requires Averageable(records, c) && k <= |records|
    ensures var t, u := Accumulate(records, c, now, p, k), Accumulate(records, c, now, q, k);
            t.weight == u.weight && t.wx == u.wx && t.wy == u.wy
  {
    if k > 0 {
      WeightsIgnoreSkip(records, c, now, p, q, k - 1);
      hide Candidate, Avg, Average, Weight, Scaled;
    }
  }

  lemma {:induction false} BestIsUnique(records: seq<Record>, c: Params, now: int, skip: int, k: nat)
    requires Averageable(records, c) && k <= |records|
    requires forall j: nat | j < k && j != skip && Candidate(records, c, now, j) :: Avg(records, c, j) <= -100
    ensures var t := Accumulate(records, c, now, skip, k); t.best == -100 && t.index == -1
  {
    if k > 0 { BestIsUnique(records, c, now, skip, k - 1); }
  }

  /** In use, distinct, and named: what the table keeps true of its rows. */
  ghost predicate Named(records: seq<Record>) {
    DistinctBeacons(records) && forall i | 0 <= i < |records| && records[i].inUse :: records[i].uuid != ""
  }

  /** A record in use is the one its beacon's name finds. */
  lemma MatchFinds(records: seq<Record>, m: nat)
    requires m < |records| && records[m].inUse && DistinctBeacons(records)
    ensures Match(records, records[m].uuid, 0) == m
  {
  }

  /** After the stale records are released, a beacon's index is found again. */
  lemma SummaryIndexAfter(row: Row, r: Row, c: Params, now: int, m: nat)
    requires Averageable(row.records, c) && DistinctBeacons(row.records)
    requires r.records == Release(row.records, c, now)
    requires m < |row.records| && Candidate(row.records, c, now, m) && r.summaryUuid == row.records[m].uuid
    ensures Averageable(r.records, c) && SummaryIndex(r, c, now) == m
  {
    ReleaseSame(row.records, c, now, m);
    assert DistinctBeacons(r.records);
    MatchFinds(r.records, m);
  }

  lemma ReleaseTwice(records: seq<Record>, c: Params, now: int)
    ensures Release(Release(records, c, now), c, now) == Release(records, c, now)
  {
  }

  /** A pin that has just been placed or left alone is not moved again. */
  lemma PinIsStable(q: Row, r: Row, t: Totals, c: Params)
    requires t.weight > 0 && r.x == MovePin(q, t, c).x && r.y == MovePin(q, t, c).y
    ensures MovePin(r, t, c) == r
  {
  }

  /** The second pass finds what the first one chose. */
  lemma SecondChoice(row: Row, r: Row, c: Params, now: int)
    requires Averageable(row.records, c) && Named(row.records) && c.tolerance >= 0
    requires r.records == Release(row.records, c, now)
    requires var q := Choose(row, c, now);
             r.summaryUuid == q.summaryUuid && r.averageRssi == q.averageRssi
             && r.initialTs == q.initialTs && r.finalTs == q.finalTs
    ensures Averageable(r.records, c) && Choose(r, c, now) == r
  {
    var m := SummaryIndex(row, c, now);
    var t := TotalsOf(row.records, c, now, m);
    BestIsGreatest(row.records, c, now, m, |row.records|);
    if !Switches(row, c, now) {
      SummaryIndexAfter(row, r, c, now, m);
      ReleaseKeepsTotals(row.records, c, now, m, |row.records|);
      ReleaseSame(row.records, c, now, m);
    } else if t.index != -1 {
      var b: nat := t.index;
      SummaryIndexAfter(row, r, c, now, b);
      ReleaseKeepsTotals(row.records, c, now, b, |row.records|);
      ReleaseSame(row.records, c, now, b);
      BestIsGreatest(row.records, c, now, b, |row.records|);
    } else {
      assert forall k | 0 <= k < |r.records| && r.records[k].inUse :: row.records[k].inUse && r.records[k].uuid != "";
      ReleaseKeepsTotals(row.records, c, now, -1, |row.records|);
      BestIsUnique(row.records, c, now, -1, |row.records|);
    }
  }

  /** Without weight nothing but the release happens, now or in a second pass. */
  lemma SecondWeight(row: Row, r: Row, c: Params, now: int)
    requires Averageable(row.records, c) && r.records == Release(row.records, c, now)
    ensures Averageable(r.records, c)
    ensures var t := TotalsOf(row.records, c, now, SummaryIndex(row, c, now));
            var u := TotalsOf(r.records, c, now, SummaryIndex(r, c, now));
            t.weight == u.weight && t.wx == u.wx && t.wy == u.wy
  {
    var m := SummaryIndex(row, c, now);
    ReleaseKeepsTotals(row.records, c, now, m, |row.records|);
    var n := SummaryIndex(r, c, now);
    WeightsIgnoreSkip(r.records, c, now, m, n, |row.records|);
  }

  lemma MovePinByTotals(row: Row, t: Totals, u: Totals, c: Params)
    requires t.weight > 0 && t.weight == u.weight && t.wx == u.wx && t.wy == u.wy
    ensures MovePin(row, t, c) == MovePin(row, u, c)
  {
  }

  /** Running the summary again on the same samples at the same time changes nothing. */
  lemma SummaryIsIdempotent(row: Row, c: Params, now: int)
    requires Averageable(row.records, c) && Named(row.records) && c.tolerance >= 0
    ensures var r := SummarizeRow(row, c, now);
            Averageable(r.records, c) && SummarizeRow(r, c, now) == r
  {
    var r := SummarizeRow(row, c, now);
    var t := TotalsOf(row.records, c, now, SummaryIndex(row, c, now));
    SecondWeight(row, r, c, now);
    ReleaseTwice(row.records, c, now);
    var u := TotalsOf(r.records, c, now, SummaryIndex(r, c, now));
    if t.weight > 0 {
      var q := Choose(row, c, now);
      MovePinKeeps(q, t, c);
      SecondChoice(row, r, c, now);
      MovePinByTotals(r, t, u, c);
      PinIsStable(q, r, t, c);
    }
  }

  /** What the theorems ask of a row holds of every row the table builds: sightings by named
      beacons and summary passes keep it. */
  lemma RowsStayNamed(row: Row, s: Sighting, c: Params, now: int)
    requires WellFormed(row.records, c.window) && Named(row.records) && s.uuid != ""
    ensures WellFormed(PutRow(row, s, now, c.window).records, c.window) && Named(PutRow(row, s, now, c.window).records)
    ensures Averageable(row.records, c)
    ensures WellFormed(SummarizeRow(row, c, now).records, c.window) && Named(SummarizeRow(row, c, now).records)
  {
    PutKeepsDistinct(row.records, s, now, c.window);
  }
}
