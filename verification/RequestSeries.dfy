/** The request chart: stored minutes aggregated into a grid of buckets, in windows that step back in time. */
module RequestSeries {
  import opened Wrappers
  import opened SampleStore
  import BigEndian

  /** Nanoseconds in a second; instants and durations below are in nanoseconds, as in Go's time package. */
  const SECOND: int := 1_000_000_000

  /** Bucket width in seconds, and how many. */
  datatype Geometry = Geometry(secs: nat, count: nat)

  function RangeOf(token: string): Option<Geometry> {
    if token == "1h" then Some(Geometry(60, 60))
    else if token == "24h" then Some(Geometry(3600, 24))
    else if token == "7d" then Some(Geometry(86400, 7))
    else if token == "14d" then Some(Geometry(86400, 14))
    else if token == "30d" then Some(Geometry(86400, 30))
    else None
  }

  predicate IsGeometry(g: Geometry) {
    (g.secs == 60 || g.secs == 3600 || g.secs == 86400) && 1 <= g.count <= 60
  }

  // ------------------------------------------------------------------
  // The window.

  /** An int64 product as the machine computes it. */
  function Wrap64(x: int): int {
    BigEndian.ToInt64(BigEndian.ToUint64(x))
  }

  function Window(g: Geometry): nat {
    g.secs * g.count * SECOND
  }

  /** Truncate and add one bucket, then go back by offset windows; the product of offset and window is an int64. */
  function End(now: int, g: Geometry, offset: nat): int
    requires g.secs > 0
  {
    var bucket := g.secs * SECOND;
    now / bucket * bucket + bucket + Wrap64(0 - (offset * Window(g)))
  }

  function To(now: int, g: Geometry, offset: nat): int
    requires g.secs > 0
  {
    End(now, g, offset) / SECOND
  }

  function From(now: int, g: Geometry, offset: nat): int
    requires g.secs > 0
  {
    (End(now, g, offset) - Window(g)) / SECOND
  }

  /** The offset-th window back from the bucket that holds now. */
  function IdealTo(now: int, g: Geometry, offset: nat): int
    requires g.secs > 0
  {
    (now / SECOND / g.secs + 1) * g.secs - offset * (g.secs * g.count)
  }

  predicate Fits(g: Geometry, offset: nat) {
    offset * Window(g) <= BigEndian.TWO_TO_63
  }

  lemma WrapIsExactIff(x: int)
    requires x <= 0
    ensures Wrap64(x) == x <==> -x <= BigEndian.TWO_TO_63
    ensures exists k :: Wrap64(x) == x + k * BigEndian.TWO_TO_64
  {
    var k := if Wrap64(x) == x % BigEndian.TWO_TO_64 then -(x / BigEndian.TWO_TO_64) else -(x / BigEndian.TWO_TO_64) - 1;
    assert x == x / BigEndian.TWO_TO_64 * BigEndian.TWO_TO_64 + x % BigEndian.TWO_TO_64;
    assert Wrap64(x) == x + k * BigEndian.TWO_TO_64;
  }

  /** The grid in whole seconds, for each bucket width. */
  lemma SecondsOf(now: int, secs: nat, m: nat)
    requires secs == 60 || secs == 3600 || secs == 86400
    ensures (now / (secs * SECOND) * (secs * SECOND) + secs * SECOND - m * (secs * SECOND)) / SECOND
         == (now / SECOND / secs + 1) * secs - m * secs
  {
    if secs == 60 {
      assert now / 60_000_000_000 == now / SECOND / 60;
    } else if secs == 3600 {
      assert now / 3600_000_000_000 == now / SECOND / 3600;
    } else {
      assert now / 86400_000_000_000 == now / SECOND / 86400;
    }
  }

  lemma Regroup(offset: nat, g: Geometry)
    ensures offset * Window(g) == offset * g.count * (g.secs * SECOND)
    ensures offset * (g.secs * g.count) == offset * g.count * g.secs
  {
    var w, c, u := g.secs * SECOND, g.count, g.secs;
    assert Window(g) == c * w;
    assert offset * (c * w) == offset * c * w;
    assert offset * (c * u) == offset * c * u;
  }

  /** A window always has its full width. */
  lemma WindowWidth(now: int, g: Geometry, offset: nat)
    requires IsGeometry(g)
    ensures To(now, g, offset) - From(now, g, offset) == g.secs * g.count
  {
    var w, e := g.secs * g.count, End(now, g, offset);
    assert Window(g) == w * SECOND;
  }

  /** The window is where it should be if and only if offset times the window width fits in an int64. */
  lemma WindowIsInPlaceIff(now: int, g: Geometry, offset: nat)
    requires IsGeometry(g)
    ensures To(now, g, offset) == IdealTo(now, g, offset) <==> Fits(g, offset)
  {
    var m, shift := offset * g.count, offset * Window(g);
    var base := now / (g.secs * SECOND) * (g.secs * SECOND) + g.secs * SECOND;
    Regroup(offset, g);
    SecondsOf(now, g.secs, m);
    WrapIsExactIff(0 - shift);
    assert IdealTo(now, g, offset) == (base - shift) / SECOND;
    var k :| Wrap64(0 - shift) == 0 - shift + k * BigEndian.TWO_TO_64;
    FarApart(base - shift, k);
  }

  lemma FarApart(x: int, k: int)
    ensures (x + k * BigEndian.TWO_TO_64) / SECOND == x / SECOND <==> k == 0
  {
  }

  /** Successive windows meet: no gap and no overlap. */
  lemma WindowsMeet(now: int, g: Geometry, offset: nat)
    requires IsGeometry(g) && Fits(g, offset + 1)
    ensures From(now, g, offset) == To(now, g, offset + 1)
  {
    FitsBelow(g, offset, offset + 1);
    WindowIsInPlaceIff(now, g, offset);
    WindowIsInPlaceIff(now, g, offset + 1);
    WindowWidth(now, g, offset);
    var w := g.secs * g.count;
    assert (offset + 1) * w == offset * w + w;
  }

  lemma FitsBelow(g: Geometry, k: nat, last: nat)
    requires k <= last && Fits(g, last)
    ensures Fits(g, k)
  {
    var w := Window(g);
    assert last * w == k * w + (last - k) * w;
    assert (last - k) * w >= 0;
  }

  predicate InWindow(now: int, g: Geometry, offset: nat, t: int)
    requires g.secs > 0
  {
    From(now, g, offset) <= t < To(now, g, offset)
  }

  /** Every second from the start of the last window that fits to the end of the present bucket is in exactly one window. */
  lemma {:induction false} WindowsTile(now: int, g: Geometry, last: nat, t: int) returns (k: nat)
    requires IsGeometry(g) && Fits(g, last)
    requires From(now, g, last) <= t < To(now, g, 0)
    ensures k <= last && forall j: nat :: j <= last ==> (InWindow(now, g, j, t) <==> j == k)
  {
    WindowWidth(now, g, last);
    assert g.secs * g.count > 0;
    if last == 0 {
      k := 0;
    } else {
      FitsBelow(g, last - 1, last);
      WindowsMeet(now, g, last - 1);
      if t < To(now, g, last) {
        k := last;
        forall j: nat | j < last ensures From(now, g, j) > t {
          WindowsDescend(now, g, j, last);
        }
      } else {
        k := WindowsTile(now, g, last - 1, t);
      }
    }
  }

  lemma {:induction false} WindowsDescend(now: int, g: Geometry, j: nat, last: nat)
    requires IsGeometry(g) && Fits(g, last) && j < last
    ensures To(now, g, last) <= From(now, g, j)
    decreases last - j
  {
    FitsBelow(g, j + 1, last);
    WindowsMeet(now, g, j);
    WindowWidth(now, g, j + 1);
    if j + 1 < last {
      WindowsDescend(now, g, j + 1, last);
      assert g.secs * g.count > 0;
    }
  }

  /** The newest window's last bucket is the one in progress. */
  lemma NowIsInLastBucket(now: int, g: Geometry)
    requires IsGeometry(g)
    ensures To(now, g, 0) - g.secs <= now / SECOND < To(now, g, 0)
  {
    WindowIsInPlaceIff(now, g, 0);
    assert 0 * Window(g) == 0;
    assert 0 * (g.secs * g.count) == 0;
  }

  // ------------------------------------------------------------------
  // Sums.

  datatype Class = C2xx | C4xx | C5xx

  function Get(c: Counts, k: Class): nat {
    match k
    case C2xx => c.c2xx
    case C4xx => c.c4xx
    case C5xx => c.c5xx
  }

  /** The sum of one class over the first n samples with a minute in [lo, hi). */
  function Sum(samples: seq<Sample>, n: nat, lo: int, hi: int, k: Class): nat
    requires n <= |samples|
  {
    if n == 0 then 0
    else
      Sum(samples, n - 1, lo, hi, k) +
      (if lo <= samples[n - 1].minute < hi then Get(samples[n - 1].counts, k) else 0)
  }

  lemma {:induction false} SumSplits(samples: seq<Sample>, n: nat, lo: int, mid: int, hi: int, k: Class)
    requires n <= |samples| && lo <= mid <= hi
    ensures Sum(samples, n, lo, hi, k) == Sum(samples, n, lo, mid, k) + Sum(samples, n, mid, hi, k)
  {
    if n > 0 { SumSplits(samples, n - 1, lo, mid, hi, k); }
  }

  /** Summing a queried stretch is summing the store, for any interval inside the queried range. */
  lemma {:induction false} SumOfStretch(samples: seq<Sample>, n: nat, a: nat, b: nat, lo: int, hi: int, k: Class)
    requires a <= b <= |samples| && n <= |samples|
    requires forall i :: 0 <= i < |samples| && lo <= samples[i].minute < hi ==> a <= i < b
    ensures Sum(samples, n, lo, hi, k) == Sum(samples[a..b], if n <= a then 0 else if n <= b then n - a else b - a, lo, hi, k)
  {
    if n > 0 { SumOfStretch(samples, n - 1, a, b, lo, hi, k); }
  }

  // ------------------------------------------------------------------
  // The grid.

  datatype Bucket = Bucket(ts: int, counts: Counts)

  const NONE := Counts(0, 0, 0)

  function AddModulo(a: Counts, b: Counts, m: nat): Counts
    requires m > 0
  {
    Counts((a.c2xx + b.c2xx) % m, (a.c4xx + b.c4xx) % m, (a.c5xx + b.c5xx) % m)
  }

  /** Go's integer division, for a positive divisor. */
  function Quotient(a: int, b: int): int
    requires b > 0
  {
    if a >= 0 then a / b else -((-a) / b)
  }

  /**
   The first minute that lands in a bucket. Division truncates toward zero, so the first bucket would also take minutes
   up to one bucket width before the window.
   */
  function Low(start: int, secs: nat, i: nat): int {
    if i == 0 then start - secs + 1 else start + i * secs
  }

  lemma LandsIff(minute: int, start: int, secs: nat, i: nat)
    requires secs == 60 || secs == 3600 || secs == 86400
    ensures Quotient(minute - start, secs) == i <==> Low(start, secs, i) <= minute < start + (i + 1) * secs
  {
  }

  lemma LandsInGridIff(minute: int, start: int, g: Geometry)
    requires IsGeometry(g)
    ensures 0 <= Quotient(minute - start, g.secs) < g.count <==> Low(start, g.secs, 0) <= minute < start + g.count * g.secs
  {
    var q := Quotient(minute - start, g.secs);
    if q >= 0 {
      LandsIff(minute, start, g.secs, q);
    }
  }

  /** What the first n samples leave in the grid: one slot per bucket and the totals. */
  predicate Filled(buckets: seq<Bucket>, totals: Counts, samples: seq<Sample>, n: nat, start: int, g: Geometry)
    requires n <= |samples|
  {
    |buckets| == g.count &&
    (forall i, k :: 0 <= i < g.count ==> SlotOk(buckets[i], samples, n, start, g.secs, i, k)) &&
    forall k :: TotalOk(totals, samples, n, start, g, k)
  }

  predicate SlotOk(b: Bucket, samples: seq<Sample>, n: nat, start: int, secs: nat, i: nat, k: Class)
    requires n <= |samples|
  {
    b.ts == start + i * secs &&
    Get(b.counts, k) == Sum(samples, n, Low(start, secs, i), start + (i + 1) * secs, k) % BigEndian.TWO_TO_32
  }

  predicate TotalOk(totals: Counts, samples: seq<Sample>, n: nat, start: int, g: Geometry, k: Class)
    requires n <= |samples|
  {
    Get(totals, k) == Sum(samples, n, Low(start, g.secs, 0), start + g.count * g.secs, k) % BigEndian.TWO_TO_64
  }

  lemma ModuloSum32(x: nat, y: nat)
    ensures (x % BigEndian.TWO_TO_32 + y) % BigEndian.TWO_TO_32 == (x + y) % BigEndian.TWO_TO_32
  {
    var q, z := x / BigEndian.TWO_TO_32, x % BigEndian.TWO_TO_32 + y;
    var p := z / BigEndian.TWO_TO_32;
    assert x + y == (q + p) * BigEndian.TWO_TO_32 + z % BigEndian.TWO_TO_32;
  }

  lemma ModuloSum64(x: nat, y: nat)
    ensures (x % BigEndian.TWO_TO_64 + y) % BigEndian.TWO_TO_64 == (x + y) % BigEndian.TWO_TO_64
  {
    var q, z := x / BigEndian.TWO_TO_64, x % BigEndian.TWO_TO_64 + y;
    var p := z / BigEndian.TWO_TO_64;
    assert x + y == (q + p) * BigEndian.TWO_TO_64 + z % BigEndian.TWO_TO_64;
  }

  lemma GetAdds(a: Counts, b: Counts, m: nat, k: Class)
    requires m > 0
    ensures Get(AddModulo(a, b, m), k) == (Get(a, k) + Get(b, k)) % m
  {
  }

  lemma SlotStep(b: Bucket, samples: seq<Sample>, n: nat, start: int, secs: nat, i: nat, k: Class)
    requires n < |samples| && SlotOk(b, samples, n, start, secs, i, k)
    requires secs == 60 || secs == 3600 || secs == 86400
    ensures var s := samples[n];
      SlotOk(if Quotient(s.minute - start, secs) == i then b.(counts := AddModulo(b.counts, s.counts, BigEndian.TWO_TO_32)) else b,
             samples, n + 1, start, secs, i, k)
  {
    var s, lo, hi := samples[n], Low(start, secs, i), start + (i + 1) * secs;
    LandsIff(s.minute, start, secs, i);
    GetAdds(b.counts, s.counts, BigEndian.TWO_TO_32, k);
    ModuloSum32(Sum(samples, n, lo, hi, k), Get(s.counts, k));
  }

  lemma TotalStep(totals: Counts, samples: seq<Sample>, n: nat, start: int, g: Geometry, k: Class)
    requires n < |samples| && TotalOk(totals, samples, n, start, g, k) && IsGeometry(g)
    ensures var s := samples[n];
      TotalOk(if 0 <= Quotient(s.minute - start, g.secs) < g.count then AddModulo(totals, s.counts, BigEndian.TWO_TO_64) else totals,
              samples, n + 1, start, g, k)
  {
    var s, lo, hi := samples[n], Low(start, g.secs, 0), start + g.count * g.secs;
    LandsInGridIff(s.minute, start, g);
    GetAdds(totals, s.counts, BigEndian.TWO_TO_64, k);
    ModuloSum64(Sum(samples, n, lo, hi, k), Get(s.counts, k));
  }

  function AddToGrid(buckets: seq<Bucket>, s: Sample, start: int, g: Geometry): seq<Bucket>
    requires IsGeometry(g) && |buckets| == g.count
  {
    var idx := Quotient(s.minute - start, g.secs);
    if 0 <= idx < g.count
    then buckets[idx := buckets[idx].(counts := AddModulo(buckets[idx].counts, s.counts, BigEndian.TWO_TO_32))]
    else buckets
  }

  function AddToTotals(totals: Counts, s: Sample, start: int, g: Geometry): Counts
    requires IsGeometry(g)
  {
    if 0 <= Quotient(s.minute - start, g.secs) < g.count then AddModulo(totals, s.counts, BigEndian.TWO_TO_64) else totals
  }

  lemma GridStep(buckets: seq<Bucket>, totals: Counts, samples: seq<Sample>, n: nat, start: int, g: Geometry)
    requires IsGeometry(g) && n < |samples| && Filled(buckets, totals, samples, n, start, g)
    ensures Filled(AddToGrid(buckets, samples[n], start, g), AddToTotals(totals, samples[n], start, g), samples, n + 1, start, g)
  {
    var m, grid, sum := n + 1, AddToGrid(buckets, samples[n], start, g), AddToTotals(totals, samples[n], start, g);
    forall j, k | 0 <= j < g.count ensures SlotOk(grid[j], samples, m, start, g.secs, j, k) {
      SlotStep(buckets[j], samples, n, start, g.secs, j, k);
    }
    forall k ensures TotalOk(sum, samples, m, start, g, k) {
      TotalStep(totals, samples, n, start, g, k);
    }
  }

  lemma EmptyGrid(buckets: seq<Bucket>, samples: seq<Sample>, start: int, g: Geometry)
    requires |buckets| == g.count && forall i :: 0 <= i < g.count ==> buckets[i] == Bucket(start + i * g.secs, NONE)
    ensures Filled(buckets, NONE, samples, 0, start, g)
  {
  }

  method NewGrid(start: int, g: Geometry) returns (buckets: array<Bucket>)
    ensures fresh(buckets) && buckets.Length == g.count
    ensures forall i :: 0 <= i < g.count ==> buckets[i] == Bucket(start + i * g.secs, NONE)
  {
    buckets := new Bucket[g.count](_ => Bucket(0, NONE));
    var i := 0;
    while i < buckets.Length
      invariant 0 <= i <= buckets.Length
      invariant forall j :: 0 <= j < buckets.Length ==> buckets[j] == Bucket(if j < i then start + j * g.secs else 0, NONE)
    {
      buckets[i] := Bucket(start + i * g.secs, NONE);
      i := i + 1;
    }
  }

  method FillBuckets(samples: seq<Sample>, start: int, g: Geometry) returns (buckets: array<Bucket>, totals: Counts)
    requires IsGeometry(g)
    ensures fresh(buckets) && Filled(buckets[..], totals, samples, |samples|, start, g)
  {
    buckets := NewGrid(start, g);
    totals := NONE;
    EmptyGrid(buckets[..], samples, start, g);
    var n := 0;
    while n < |samples|
      invariant 0 <= n <= |samples|
      invariant Filled(buckets[..], totals, samples, n, start, g)
    {
      var s := samples[n];
      var idx := Quotient(s.minute - start, g.secs);
      GridStep(buckets[..], totals, samples, n, start, g);
      if 0 <= idx < g.count {
        buckets[idx] := buckets[idx].(counts := AddModulo(buckets[idx].counts, s.counts, BigEndian.TWO_TO_32));
        totals := AddModulo(totals, s.counts, BigEndian.TWO_TO_64);
      }
      n := n + 1;
    }
  }

  // ------------------------------------------------------------------
  // The whole series.

  datatype Series = Series(
    range: string, offset: nat, from: int, to: int, bucketSeconds: nat, canBack: bool, canForward: bool,
    totals: Counts, buckets: seq<Bucket>)

  /** Instants whose seconds fit an int64 with room for a window on either side. */
  predicate IsTime(now: int) {
    -0x4000_0000_0000_0000 <= now / SECOND < 0x4000_0000_0000_0000
  }

  lemma BoundsFit(now: int, g: Geometry, offset: nat)
    requires IsGeometry(g) && IsTime(now)
    ensures BigEndian.IsInt64(From(now, g, offset)) && BigEndian.IsInt64(To(now, g, offset))
  {
    SecondsOf(now, g.secs, 0);
    WindowWidth(now, g, offset);
  }

  /** What the chart shows: each bucket's sum over the stored minutes it stands for, and the sums over the window. */
  predicate Shows(series: Series, stored: seq<Sample>, g: Geometry) {
    series.bucketSeconds == g.secs && series.to == series.from + g.count * g.secs &&
    GridIs(series.buckets, series.totals, stored, series.from, g)
  }

  predicate GridIs(buckets: seq<Bucket>, totals: Counts, stored: seq<Sample>, from: int, g: Geometry) {
    |buckets| == g.count &&
    (forall i, k :: 0 <= i < g.count ==> BarIs(buckets[i], stored, from, g.secs, i, k)) &&
    forall k :: TotalIs(totals, stored, from, g, k)
  }

  predicate BarIs(b: Bucket, stored: seq<Sample>, from: int, secs: nat, i: nat, k: Class) {
    b.ts == from + i * secs && Get(b.counts, k) == Sum(stored, |stored|, b.ts, b.ts + secs, k) % BigEndian.TWO_TO_32
  }

  predicate TotalIs(totals: Counts, stored: seq<Sample>, from: int, g: Geometry, k: Class) {
    Get(totals, k) == Sum(stored, |stored|, from, from + g.count * g.secs, k) % BigEndian.TWO_TO_64
  }

  /** The samples are exactly the stored ones of [from, to). */
  predicate IsWindow(samples: seq<Sample>, stored: seq<Sample>, a: nat, b: nat, from: int, to: int) {
    a <= b <= |stored| && samples == stored[a..b] &&
    forall i :: 0 <= i < |stored| ==> (a <= i < b <==> from <= stored[i].minute < to)
  }

  /** The query can see the window: it starts at or after 1970, or nothing is stored before its end. */
  predicate InReach(stored: seq<Sample>, from: int, to: int) {
    from >= 0 || forall i :: 0 <= i < |stored| ==> stored[i].minute >= to
  }

  predicate AllZero(series: Series) {
    series.totals == NONE && forall i :: 0 <= i < |series.buckets| ==> series.buckets[i].counts == NONE
  }

  lemma NegativeStartFindsNothing(stored: seq<Sample>, out: seq<Sample>, a: nat, b: nat, from: int, to: int)
    requires AllSamples(stored) && Nonnegative(stored) && BigEndian.IsInt64(from) && BigEndian.IsInt64(to)
    requires from < 0 && IsStretch(out, stored, a, b, from, to)
    ensures out == []
  {
    assert a < b ==> InRange(stored[a], from, to);
    BigEndian.Int64RoundTrip(from);
    forall i | 0 <= i < |stored| ensures !InRange(stored[i], from, to) {
      BigEndian.Int64RoundTrip(stored[i].minute);
    }
  }

  lemma EmptyGridIsZero(buckets: seq<Bucket>, totals: Counts, samples: seq<Sample>, start: int, g: Geometry)
    requires Filled(buckets, totals, samples, |samples|, start, g) && samples == []
    ensures totals == NONE && forall i :: 0 <= i < |buckets| ==> buckets[i].counts == NONE
  {
    assert TotalOk(totals, samples, 0, start, g, C2xx) && TotalOk(totals, samples, 0, start, g, C4xx);
    assert TotalOk(totals, samples, 0, start, g, C5xx);
    forall i: nat | i < |buckets| ensures buckets[i].counts == NONE {
      assert SlotOk(buckets[i], samples, 0, start, g.secs, i, C2xx);
      assert SlotOk(buckets[i], samples, 0, start, g.secs, i, C4xx);
      assert SlotOk(buckets[i], samples, 0, start, g.secs, i, C5xx);
    }
  }

  /** Seconds in a bar, how many bars, and seconds in all. */
  predicate HasGrid(series: Series, secs: nat, count: nat, width: nat) {
    series.bucketSeconds == secs && |series.buckets| == count && series.to - series.from == width &&
    forall i :: 0 <= i < count ==> series.buckets[i].ts == series.from + i * secs
  }

  /** An hour by minutes, a day by hours, and one, two weeks and thirty days by days. */
  predicate HasRange(series: Series, token: string) {
    series.range == token && series.canForward == (series.offset > 0) &&
    (token == "1h" ==> HasGrid(series, 60, 60, 3600)) &&
    (token == "24h" ==> HasGrid(series, 3600, 24, 86_400)) &&
    (token == "7d" ==> HasGrid(series, 86_400, 7, 604_800)) &&
    (token == "14d" ==> HasGrid(series, 86_400, 14, 1_209_600)) &&
    (token == "30d" ==> HasGrid(series, 86_400, 30, 2_592_000))
  }

  lemma FilledTimes(buckets: seq<Bucket>, totals: Counts, samples: seq<Sample>, start: int, g: Geometry)
    requires Filled(buckets, totals, samples, |samples|, start, g)
    ensures |buckets| == g.count && forall i :: 0 <= i < g.count ==> buckets[i].ts == start + i * g.secs
  {
    forall i: nat | i < g.count ensures buckets[i].ts == start + i * g.secs {
      assert SlotOk(buckets[i], samples, |samples|, start, g.secs, i, C2xx);
    }
  }

  /** While the offset fits, the end of a window is on a whole second. */
  lemma EndIsWhole(now: int, g: Geometry, offset: nat)
    requires IsGeometry(g) && Fits(g, offset)
    ensures End(now, g, offset) == To(now, g, offset) * SECOND
    ensures End(now, g, offset) - Window(g) == From(now, g, offset) * SECOND
  {
    var bucket, m, shift := g.secs * SECOND, offset * g.count, offset * Window(g);
    Regroup(offset, g);
    WrapIsExactIff(0 - shift);
    assert End(now, g, offset) == now / bucket * bucket + bucket - m * bucket;
    SecondsMultiple(now / bucket, m, g.secs);
    assert Window(g) == g.secs * g.count * SECOND;
  }

  lemma SecondsMultiple(q: int, m: nat, secs: nat)
    requires secs == 60 || secs == 3600 || secs == 86400
    ensures q * (secs * SECOND) + secs * SECOND - m * (secs * SECOND) == (q * secs + secs - m * secs) * SECOND
  {
  }

  /** buildRequestSeries over the sample store. */
  method BuildRequestSeries(store: Store, now: int, token: string, offset: int, retention: int)
    returns (r: Result<Series, string>)
    requires store.Valid() && IsTime(now)
    ensures r.Err? <==> RangeOf(token).None?
    ensures r.Ok? ==>
      var g, s := RangeOf(token).value, r.value;
      s.range == token && s.offset == Max(offset, 0) && s.canForward == (offset > 0) &&
      s.from == From(now, g, s.offset) && s.to == To(now, g, s.offset) &&
      s.canBack == (End(now, g, s.offset) - Window(g) > now - retention)
    ensures r.Ok? <==> token in {"1h", "24h", "7d", "14d", "30d"}
    ensures r.Ok? ==> HasRange(r.value, token)
    ensures r.Ok? && Fits(RangeOf(token).value, r.value.offset) ==>
      (r.value.canBack <==> r.value.from * 1_000_000_000 > now - retention)
    ensures r.Ok? && Nonnegative(store.samples) ==>
      if InReach(store.samples, r.value.from, r.value.to) then Shows(r.value, store.samples, RangeOf(token).value)
      else AllZero(r.value)
  {
    var range := RangeOf(token);
    if range.None? { return Err("unknown range"); }
    var g := range.value;
    var off: nat := if offset < 0 then 0 else offset;
    var end := End(now, g, off);
    var start := end - Window(g);
    var from, to := start / SECOND, end / SECOND;
    BoundsFit(now, g, off);
    WindowWidth(now, g, off);
    var samples := store.Query(from, to);
    var grid, totals := FillBuckets(samples, from, g);
    StoredIsShown(store.samples, samples, grid[..], totals, from, to, g);
    FilledTimes(grid[..], totals, samples, from, g);
    var series := Series(token, off, from, to, g.secs, start > now - retention, off > 0, totals, grid[..]);
    SeriesHasRange(series, g);
    BackIsWhole(now, g, off, retention);
    r := Ok(series);
  }

  lemma SeriesHasRange(series: Series, g: Geometry)
    requires RangeOf(series.range) == Some(g) && series.canForward == (series.offset > 0)
    requires series.bucketSeconds == g.secs && |series.buckets| == g.count && series.to - series.from == g.secs * g.count
    requires forall i :: 0 <= i < g.count ==> series.buckets[i].ts == series.from + i * g.secs
    ensures HasRange(series, series.range) && series.range in {"1h", "24h", "7d", "14d", "30d"}
  {
  }

  lemma BackIsWhole(now: int, g: Geometry, offset: nat, retention: int)
    requires IsGeometry(g)
    ensures Fits(g, offset) ==>
      (End(now, g, offset) - Window(g) > now - retention <==> From(now, g, offset) * 1_000_000_000 > now - retention)
  {
    if Fits(g, offset) { EndIsWhole(now, g, offset); }
  }

  /** What the query found, laid out, shows the store where the query can see the window, and zeros elsewhere. */
  lemma StoredIsShown(stored: seq<Sample>, samples: seq<Sample>, buckets: seq<Bucket>, totals: Counts, from: int, to: int,
                      g: Geometry)
    requires AllSamples(stored) && Sorted(stored) && BigEndian.IsInt64(from) && BigEndian.IsInt64(to)
    requires IsGeometry(g) && to - from == g.secs * g.count && Filled(buckets, totals, samples, |samples|, from, g)
    requires exists a, b :: IsStretch(samples, stored, a, b, from, to)
    ensures Nonnegative(stored) ==>
      if InReach(stored, from, to) then GridIs(buckets, totals, stored, from, g)
      else totals == NONE && forall i :: 0 <= i < |buckets| ==> buckets[i].counts == NONE
  {
    if Nonnegative(stored) {
      var a: nat, b: nat :| IsStretch(samples, stored, a, b, from, to);
      assert g.secs * g.count == g.count * g.secs;
      QueryIsExactIff(stored, samples, a, b, from, to);
      if InReach(stored, from, to) {
        GridShows(buckets, totals, samples, stored, a, b, from, g);
      } else {
        NegativeStartFindsNothing(stored, samples, a, b, from, to);
        EmptyGridIsZero(buckets, totals, samples, from, g);
      }
    }
  }

  lemma {:induction false} NothingBelow(samples: seq<Sample>, n: nat, lo: int, mid: int, k: Class)
    requires n <= |samples| && forall i :: 0 <= i < |samples| ==> mid <= samples[i].minute
    ensures Sum(samples, n, lo, mid, k) == 0
  {
    if n > 0 { NothingBelow(samples, n - 1, lo, mid, k); }
  }

  lemma WindowSum(samples: seq<Sample>, stored: seq<Sample>, a: nat, b: nat, from: int, to: int, low: int, lo: int, hi: int,
                  k: Class)
    requires IsWindow(samples, stored, a, b, from, to) && low <= lo <= hi <= to && from <= lo && (low == lo || from == lo)
    ensures Sum(samples, |samples|, low, hi, k) == Sum(stored, |stored|, lo, hi, k)
  {
    if low == lo {
      EmptySum(samples, |samples|, lo, k);
    } else {
      NothingBelow(samples, |samples|, low, lo, k);
    }
    SumSplits(samples, |samples|, low, lo, hi, k);
    SumOfStretch(stored, |stored|, a, b, lo, hi, k);
  }

  lemma {:induction false} EmptySum(samples: seq<Sample>, n: nat, lo: int, k: Class)
    requires n <= |samples|
    ensures Sum(samples, n, lo, lo, k) == 0
  {
    if n > 0 { EmptySum(samples, n - 1, lo, k); }
  }

  lemma GridShows(buckets: seq<Bucket>, totals: Counts, samples: seq<Sample>, stored: seq<Sample>, a: nat, b: nat,
                  from: int, g: Geometry)
    requires IsGeometry(g) && Filled(buckets, totals, samples, |samples|, from, g)
    requires IsWindow(samples, stored, a, b, from, from + g.count * g.secs)
    ensures GridIs(buckets, totals, stored, from, g)
  {
    forall i: nat, k | i < g.count ensures BarIs(buckets[i], stored, from, g.secs, i, k) {
      assert SlotOk(buckets[i], samples, |samples|, from, g.secs, i, k);
      SlotShows(buckets[i], samples, stored, a, b, from, g, i, k);
    }
    forall k ensures TotalIs(totals, stored, from, g, k) {
      assert TotalOk(totals, samples, |samples|, from, g, k);
      TotalShows(totals, samples, stored, a, b, from, g, k);
    }
  }

  lemma TotalShows(totals: Counts, samples: seq<Sample>, stored: seq<Sample>, a: nat, b: nat, from: int, g: Geometry, k: Class)
    requires IsGeometry(g) && TotalOk(totals, samples, |samples|, from, g, k)
    requires IsWindow(samples, stored, a, b, from, from + g.count * g.secs)
    ensures TotalIs(totals, stored, from, g, k)
  {
    var to := from + g.count * g.secs;
    assert g.count * g.secs >= 0;
    WindowSum(samples, stored, a, b, from, to, Low(from, g.secs, 0), from, to, k);
  }

  lemma SlotShows(bucket: Bucket, samples: seq<Sample>, stored: seq<Sample>, a: nat, b: nat, from: int, g: Geometry, i: nat,
                  k: Class)
    requires IsGeometry(g) && i < g.count && SlotOk(bucket, samples, |samples|, from, g.secs, i, k)
    requires IsWindow(samples, stored, a, b, from, from + g.count * g.secs)
    ensures BarIs(bucket, stored, from, g.secs, i, k)
  {
    var lo, hi, to := from + i * g.secs, from + (i + 1) * g.secs, from + g.count * g.secs;
    assert i * g.secs >= 0;
    assert (i + 1) * g.secs <= g.count * g.secs;
    assert hi == lo + g.secs;
    WindowSum(samples, stored, a, b, from, to, Low(from, g.secs, i), lo, hi, k);
  }

  // ------------------------------------------------------------------
  // Buckets add up to the totals.

  function BucketTotal(buckets: seq<Bucket>, n: nat, k: Class): nat
    requires n <= |buckets|
  {
    if n == 0 then 0 else BucketTotal(buckets, n - 1, k) + Get(buckets[n - 1].counts, k)
  }

  /** No bucket's true sum reaches 2^32. */
  predicate NoOverflow(stored: seq<Sample>, from: int, secs: nat, n: nat, k: Class) {
    forall i :: 0 <= i < n ==> Sum(stored, |stored|, from + i * secs, from + i * secs + secs, k) < BigEndian.TWO_TO_32
  }

  lemma {:induction false} BucketsAddUpTo(series: Series, stored: seq<Sample>, g: Geometry, n: nat, k: Class)
    requires Shows(series, stored, g) && n <= g.count
    ensures BucketTotal(series.buckets, n, k) <= Sum(stored, |stored|, series.from, series.from + n * g.secs, k)
    ensures BucketTotal(series.buckets, n, k) == Sum(stored, |stored|, series.from, series.from + n * g.secs, k) <==>
      NoOverflow(stored, series.from, g.secs, n, k)
  {
    var from := series.from;
    if n == 0 {
      EmptySum(stored, |stored|, from, k);
    } else {
      var lo := from + (n - 1) * g.secs;
      BucketsAddUpTo(series, stored, g, n - 1, k);
      BarSum(series, stored, g, n - 1, k);
      LastOverflow(stored, from, g.secs, n, k);
      OneMoreBar(BucketTotal(series.buckets, n - 1, k), Sum(stored, |stored|, from, lo, k),
        Get(series.buckets[n - 1].counts, k), Sum(stored, |stored|, lo, lo + g.secs, k), NoOverflow(stored, from, g.secs, n - 1, k));
    }
  }

  lemma OneMoreBar(shown: nat, truth: nat, bar: nat, whole: nat, fits: bool)
    requires shown <= truth && (shown == truth <==> fits) && bar == whole % BigEndian.TWO_TO_32
    ensures shown + bar <= truth + whole
    ensures shown + bar == truth + whole <==> fits && whole < BigEndian.TWO_TO_32
  {
  }

  lemma NextBar(m: nat, secs: nat)
    ensures (m + 1) * secs == m * secs + secs && m * secs >= 0
  {
  }

  lemma BarSum(series: Series, stored: seq<Sample>, g: Geometry, m: nat, k: Class)
    requires Shows(series, stored, g) && m < g.count
    ensures var all, lo := |stored|, series.from + m * g.secs;
      Get(series.buckets[m].counts, k) == Sum(stored, all, lo, lo + g.secs, k) % BigEndian.TWO_TO_32 &&
      Sum(stored, all, series.from, series.from + (m + 1) * g.secs, k)
        == Sum(stored, all, series.from, lo, k) + Sum(stored, all, lo, lo + g.secs, k)
  {
    var mid := series.from + m * g.secs;
    NextBar(m, g.secs);
    SumSplits(stored, |stored|, series.from, mid, mid + g.secs, k);
    assert BarIs(series.buckets[m], stored, series.from, g.secs, m, k);
  }

  lemma LastOverflow(stored: seq<Sample>, from: int, secs: nat, n: nat, k: Class)
    requires n > 0
    ensures NoOverflow(stored, from, secs, n, k) <==>
      NoOverflow(stored, from, secs, n - 1, k) &&
      Sum(stored, |stored|, from + (n - 1) * secs, from + (n - 1) * secs + secs, k) < BigEndian.TWO_TO_32
  {
  }

  /**
   The bars of a class add up to its total if and only if no bar overflowed its 32 bits (given a window whose true total
   fits the 64-bit one).
   */
  lemma BarsAddUpIff(series: Series, stored: seq<Sample>, g: Geometry, k: Class)
    requires Shows(series, stored, g)
    requires Sum(stored, |stored|, series.from, series.to, k) < BigEndian.TWO_TO_64
    ensures BucketTotal(series.buckets, g.count, k) == Get(series.totals, k) <==>
      NoOverflow(stored, series.from, g.secs, g.count, k)
  {
    assert TotalIs(series.totals, stored, series.from, g, k);
    BucketsAddUpTo(series, stored, g, g.count, k);
  }

  /** Every minute of the window is in exactly one bar. */
  lemma OneBarEach(series: Series, stored: seq<Sample>, g: Geometry, minute: int) returns (i: nat)
    requires Shows(series, stored, g) && IsGeometry(g) && series.from <= minute < series.to
    ensures i < g.count
    ensures forall j: nat :: j < g.count ==>
      (series.buckets[j].ts <= minute < series.buckets[j].ts + series.bucketSeconds <==> j == i)
  {
    LandsInGridIff(minute, series.from, g);
    i := Quotient(minute - series.from, g.secs);
    forall j: nat | j < g.count
      ensures series.buckets[j].ts <= minute < series.buckets[j].ts + series.bucketSeconds <==> j == i
    {
      LandsIff(minute, series.from, g.secs, j);
      assert BarIs(series.buckets[j], stored, series.from, g.secs, j, C2xx);
      assert (j + 1) * g.secs == j * g.secs + g.secs;
    }
  }
}
