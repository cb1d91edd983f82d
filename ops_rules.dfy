/**
  The incident rules of the operations cell (ops-cell-lite/app.py): the four
  threshold flags and the severity derived from their count, the top drivers
  of a sample, the recommendation picked from the dominant driver, and the
  incident shortlist. Signal values arrive as inputs; the synthetic signal
  generator and the rolling mean behind the volume drop are not part of this
  model (the volume drop is `None` where the rolling mean has no value yet).
*/
module OpsRules {
  import opened Basics
  import opened Sorting

  /** The policy thresholds (`Thresholds`). */
  datatype Thresholds = Thresholds(latencyP95Ms: int, errorRatePct: real, volumeDropPct: real, saturationPct: real)

  /** One time step of the signals; `volDropPct` is `None` where pandas holds NaN. */
  datatype Sample = Sample(ts: int, latencyP95Ms: real, errorRatePct: real, volDropPct: Option<real>, saturationPct: real)

  /** The four anomaly flags of a sample. */
  datatype Flags = Flags(latency: bool, errors: bool, volume: bool, saturation: bool)

  /**
    The flags of `detect_anomalies`: each signal strictly above its threshold.
    A missing volume drop (NaN) never is.
  */
  function DetectFlags(s: Sample, thr: Thresholds): (f: Flags)
    ensures s.volDropPct.None? ==> !f.volume
  {
    Flags(
      s.latencyP95Ms > thr.latencyP95Ms as real,
      s.errorRatePct > thr.errorRatePct,
      s.volDropPct.Some? && s.volDropPct.value > thr.volumeDropPct,
      s.saturationPct > thr.saturationPct)
  }

  /** Each flag is raised exactly when its signal is strictly above its threshold. */
  lemma FlagsAboveThreshold(s: Sample, thr: Thresholds)
    ensures DetectFlags(s, thr).latency <==> s.latencyP95Ms > thr.latencyP95Ms as real
    ensures DetectFlags(s, thr).errors <==> s.errorRatePct > thr.errorRatePct
    ensures DetectFlags(s, thr).volume <==> s.volDropPct.Some? && s.volDropPct.value > thr.volumeDropPct
    ensures DetectFlags(s, thr).saturation <==> s.saturationPct > thr.saturationPct
  {
  }

  function Bit(b: bool): nat { if b then 1 else 0 }

  /** `anomaly_count`: how many flags are raised. */
  function AnomalyCount(f: Flags): (n: nat)
    ensures n <= 4
    ensures n == 0 <==> !f.latency && !f.errors && !f.volume && !f.saturation
    ensures n == 4 <==> f.latency && f.errors && f.volume && f.saturation
  {
    Bit(f.latency) + Bit(f.errors) + Bit(f.volume) + Bit(f.saturation)
  }

  /** The severity of a sample; `Label` gives the text the dashboard shows. */
  datatype Level = OK | Medium | High | Critical

  function Label(v: Level): string {
    match v
    case OK => "OK"
    case Medium => "Medium"
    case High => "High"
    case Critical => "Critical"
  }

  /** `sev`: the severity for an anomaly count. */
  function Sev(k: int): (r: Level)
    ensures r == Critical <==> k >= 3
    ensures r == High <==> k == 2
    ensures r == Medium <==> k == 1
    ensures r == OK <==> k <= 0
  {
    if k >= 3 then Critical
    else if k == 2 then High
    else if k == 1 then Medium
    else OK
  }

  /** The shortlist's rank of a severity label: `.map({"Critical": 3, "High": 2, "Medium": 1}).fillna(0)`. */
  function RankOfLabel(text: string): int {
    if text == "Critical" then 3 else if text == "High" then 2 else if text == "Medium" then 1 else 0
  }

  /** The rank of a severity, looked up by its label; a more severe level ranks strictly higher. */
  function RankOf(v: Level): (r: int)
    ensures 0 <= r <= 3
    ensures r == 0 <==> v == OK
    ensures v == Critical ==> r == 3
    ensures v == High ==> r == 2
    ensures v == Medium ==> r == 1
  {
    RankOfLabel(Label(v))
  }

  /** The severity column of `detect_anomalies` for one sample. */
  function Severity(s: Sample, thr: Thresholds): (r: Level)
    ensures r == OK <==> DetectFlags(s, thr) == Flags(false, false, false, false)
    ensures r == Medium <==> AnomalyCount(DetectFlags(s, thr)) == 1
    ensures r == High <==> AnomalyCount(DetectFlags(s, thr)) == 2
    ensures r == Critical <==> AnomalyCount(DetectFlags(s, thr)) >= 3
  {
    Sev(AnomalyCount(DetectFlags(s, thr)))
  }

  /** The rank of a severity is the anomaly count capped at 3, so more flags never rank lower. */
  lemma RankIsCappedCount(k: int, k': int)
    requires 0 <= k <= k'
    ensures RankOf(Sev(k)) == (if k >= 3 then 3 else k)
    ensures RankOf(Sev(k)) <= RankOf(Sev(k'))
  {
  }

  /** Thresholds that are at least as high everywhere never give a higher severity. */
  lemma StricterThresholdsNeverRaiseSeverity(s: Sample, thr: Thresholds, thr': Thresholds)
    requires thr.latencyP95Ms <= thr'.latencyP95Ms && thr.errorRatePct <= thr'.errorRatePct
    requires thr.volumeDropPct <= thr'.volumeDropPct && thr.saturationPct <= thr'.saturationPct
    ensures AnomalyCount(DetectFlags(s, thr')) <= AnomalyCount(DetectFlags(s, thr))
    ensures RankOf(Severity(s, thr')) <= RankOf(Severity(s, thr))
  {
    RankIsCappedCount(AnomalyCount(DetectFlags(s, thr')), AnomalyCount(DetectFlags(s, thr)));
  }

  // ---------------------------------------------------------------------------
  // top_drivers

  /** The four monitored signals; `Name` gives the column name a driver reports. */
  datatype Signal = Latency | ErrorRate | VolumeDrop | Saturation

  function Name(sig: Signal): string {
    match sig
    case Latency => "latency_p95_ms"
    case ErrorRate => "error_rate_pct"
    case VolumeDrop => "volume_drop_pct"
    case Saturation => "saturation_pct"
  }

  /** One driver: the signal, its value, its threshold and the excess `value - threshold`. */
  datatype Driver = Driver(signal: Signal, value: real, threshold: real, delta: real)

  function Abs(x: real): real { if x >= 0.0 then x else -x }

  /** The sort key of `top_drivers`: the absolute excess. */
  function AbsDelta(d: Driver): real { Abs(d.delta) }

  /** The signals, in the order `top_drivers` appends them. */
  const Signals: seq<Signal> := [Latency, ErrorRate, VolumeDrop, Saturation]

  /** Position of a driver's signal in that order. */
  function SignalPos(d: Driver): real {
    match d.signal
    case Latency => 0.0
    case ErrorRate => 1.0
    case VolumeDrop => 2.0
    case Saturation => 3.0
  }

  /** The flag of the signal at position `q`. */
  function FlagAt(f: Flags, q: nat): bool
    requires q < 4
  {
    if q == 0 then f.latency else if q == 1 then f.errors else if q == 2 then f.volume else f.saturation
  }

  /** The driver of the raised signal at position `q`: its value against its threshold. */
  function DriverAt(s: Sample, thr: Thresholds, q: nat): (d: Driver)
    requires q < 4 && FlagAt(DetectFlags(s, thr), q)
    ensures d.signal == Signals[q] && d.delta == d.value - d.threshold
  {
    if q == 0 then Driver(Signals[0], s.latencyP95Ms, thr.latencyP95Ms as real, s.latencyP95Ms - thr.latencyP95Ms as real)
    else if q == 1 then Driver(Signals[1], s.errorRatePct, thr.errorRatePct, s.errorRatePct - thr.errorRatePct)
    else if q == 2 then Driver(Signals[2], s.volDropPct.value, thr.volumeDropPct, s.volDropPct.value - thr.volumeDropPct)
    else Driver(Signals[3], s.saturationPct, thr.saturationPct, s.saturationPct - thr.saturationPct)
  }

  /** The drivers appended for the signals at positions `q..3`. */
  function RaisedFrom(s: Sample, thr: Thresholds, q: nat): seq<Driver>
    requires q <= 4
    decreases 4 - q
  {
    if q == 4 then []
    else (if FlagAt(DetectFlags(s, thr), q) then [DriverAt(s, thr, q)] else []) + RaisedFrom(s, thr, q + 1)
  }

  /** The drivers appended by `top_drivers`, one per raised flag, in signal order. */
  function RaisedDrivers(s: Sample, thr: Thresholds): (r: seq<Driver>)
    ensures |r| == AnomalyCount(DetectFlags(s, thr))
  {
    RaisedFromLength(s, thr, 0);
    RaisedFrom(s, thr, 0)
  }

  /** The flag of the signal a driver names is raised. */
  predicate Raised(s: Sample, thr: Thresholds, signal: Signal) {
    exists q :: 0 <= q < 4 && Signals[q] == signal && FlagAt(DetectFlags(s, thr), q)
  }

  /** Number of raised flags at positions `q..3`. */
  function FlagsFrom(f: Flags, q: nat): nat
    requires q <= 4
    decreases 4 - q
  {
    if q == 4 then 0 else Bit(FlagAt(f, q)) + FlagsFrom(f, q + 1)
  }

  /** At most the first `n` elements (`xs[:n]`). */
  function Take<T>(xs: seq<T>, n: nat): (r: seq<T>)
    ensures |r| == if |xs| <= n then |xs| else n
    ensures forall i :: 0 <= i < |r| ==> r[i] == xs[i]
  {
    if |xs| <= n then xs else xs[..n]
  }

  /** A prefix holds no element more often than the whole sequence. */
  lemma TakeWithin<T>(xs: seq<T>, n: nat)
    ensures multiset(Take(xs, n)) <= multiset(xs)
  {
    if |xs| > n {
      assert xs == xs[..n] + xs[n..];
    }
  }

  /** `top_drivers(row, thr)`: the raised drivers, stably sorted by descending |delta|, at most three. */
  function TopDrivers(s: Sample, thr: Thresholds): (r: seq<Driver>)
    ensures var n := AnomalyCount(DetectFlags(s, thr)); |r| == if n <= 3 then n else 3
  {
    var sorted := SortDesc(RaisedDrivers(s, thr), AbsDelta);
    assert |sorted| == |multiset(sorted)| == |RaisedDrivers(s, thr)|;
    Take(sorted, 3)
  }

  /** One driver per raised flag from position `q` on. */
  lemma {:induction false} RaisedFromLength(s: Sample, thr: Thresholds, q: nat)
    requires q <= 4
    decreases 4 - q
    ensures |RaisedFrom(s, thr, q)| == FlagsFrom(DetectFlags(s, thr), q)
  {
    if q < 4 {
      RaisedFromLength(s, thr, q + 1);
    }
  }

  /** Every driver from position `q` on names a raised signal at or after `q` and lies above its threshold. */
  lemma {:induction false} RaisedFromMembers(s: Sample, thr: Thresholds, q: nat)
    requires q <= 4
    decreases 4 - q
    ensures forall d :: d in RaisedFrom(s, thr, q) ==>
      Raised(s, thr, d.signal) && q as real <= SignalPos(d) && d.delta == d.value - d.threshold && d.delta > 0.0
  {
    if q < 4 {
      RaisedFromMembers(s, thr, q + 1);
      if FlagAt(DetectFlags(s, thr), q) {
        var d := DriverAt(s, thr, q);
        assert SignalPos(d) == q as real;
        assert RaisedFrom(s, thr, q) == [d] + RaisedFrom(s, thr, q + 1);
        assert Raised(s, thr, d.signal);
      }
    }
  }

  /** The drivers from position `q` on come in strictly increasing signal order. */
  lemma {:induction false} RaisedFromOrdered(s: Sample, thr: Thresholds, q: nat)
    requires q <= 4
    decreases 4 - q
    ensures forall i, j :: 0 <= i < j < |RaisedFrom(s, thr, q)| ==>
      SignalPos(RaisedFrom(s, thr, q)[i]) < SignalPos(RaisedFrom(s, thr, q)[j])
  {
    if q < 4 {
      RaisedFromOrdered(s, thr, q + 1);
      var rest := RaisedFrom(s, thr, q + 1);
      if FlagAt(DetectFlags(s, thr), q) {
        RaisedFromMembers(s, thr, q + 1);
        var d := DriverAt(s, thr, q);
        assert SignalPos(d) == q as real;
        assert RaisedFrom(s, thr, q) == [d] + rest;
        forall i, j | 0 <= i < j < |[d] + rest|
          ensures SignalPos(([d] + rest)[i]) < SignalPos(([d] + rest)[j])
        {
          if i == 0 {
            assert ([d] + rest)[j] in rest;
          }
        }
      }
    }
  }

  /** Every raised flag at or after position `q` has its driver. */
  lemma {:induction false} RaisedFromComplete(s: Sample, thr: Thresholds, q: nat)
    requires q <= 4
    decreases 4 - q
    ensures forall p :: q <= p < 4 && FlagAt(DetectFlags(s, thr), p) ==>
      exists d :: d in RaisedFrom(s, thr, q) && d.signal == Signals[p]
  {
    if q < 4 {
      RaisedFromComplete(s, thr, q + 1);
      if FlagAt(DetectFlags(s, thr), q) {
        var d := DriverAt(s, thr, q);
        assert RaisedFrom(s, thr, q) == [d] + RaisedFrom(s, thr, q + 1);
        assert d in RaisedFrom(s, thr, q);
      }
    }
  }

  /** One raised driver per raised flag. */
  lemma RaisedDriversCount(s: Sample, thr: Thresholds)
    ensures |RaisedDrivers(s, thr)| == AnomalyCount(DetectFlags(s, thr))
  {
    RaisedFromLength(s, thr, 0);
  }

  /** Every raised driver names a raised flag and lies strictly above its threshold. */
  lemma RaisedDriversAboveThreshold(s: Sample, thr: Thresholds)
    ensures forall d :: d in RaisedDrivers(s, thr) ==>
      Raised(s, thr, d.signal) && d.delta == d.value - d.threshold && d.delta > 0.0
  {
    RaisedFromMembers(s, thr, 0);
  }

  /** The raised drivers come in signal order, so no signal appears twice. */
  lemma RaisedDriversInSignalOrder(s: Sample, thr: Thresholds)
    ensures forall i, j :: 0 <= i < j < |RaisedDrivers(s, thr)| ==>
      SignalPos(RaisedDrivers(s, thr)[i]) < SignalPos(RaisedDrivers(s, thr)[j])
  {
    RaisedFromOrdered(s, thr, 0);
  }

  /** Every raised flag has its driver. */
  lemma RaisedDriversComplete(s: Sample, thr: Thresholds)
    ensures forall sig :: Raised(s, thr, sig) ==> exists d :: d in RaisedDrivers(s, thr) && d.signal == sig
  {
    RaisedFromComplete(s, thr, 0);
  }

  /** A value that occurs at two positions is counted at least twice. */
  lemma TwiceInMultiset<T>(xs: seq<T>, i: nat, j: nat)
    requires i < j < |xs|
    ensures xs[i] == xs[j] ==> multiset(xs)[xs[i]] >= 2
  {
    assert xs == xs[..j] + [xs[j]] + xs[j + 1..];
    assert xs[i] in multiset(xs[..j]);
  }

  /** A sequence without repeated `SignalPos` counts each value at most once. */
  lemma {:induction false} OnceInMultiset(xs: seq<Driver>, x: Driver)
    requires forall i, j :: 0 <= i < j < |xs| ==> SignalPos(xs[i]) < SignalPos(xs[j])
    ensures multiset(xs)[x] <= 1
  {
    if xs != [] {
      var rest := xs[1..];
      assert xs == [xs[0]] + rest;
      OnceInMultiset(rest, x);
      if x == xs[0] {
        assert x !in rest by {
          assert forall k :: 0 <= k < |rest| ==> rest[k] == xs[k + 1];
        }
      }
    }
  }

  /** `top_drivers` returns `min(3, anomaly_count)` drivers. */
  lemma TopDriversCount(s: Sample, thr: Thresholds)
    ensures var n := AnomalyCount(DetectFlags(s, thr));
      |TopDrivers(s, thr)| == if n <= 3 then n else 3
  {
    var raised := RaisedDrivers(s, thr);
    var sorted := SortDesc(raised, AbsDelta);
    RaisedDriversCount(s, thr);
    assert |sorted| == |multiset(sorted)| == |multiset(raised)| == |raised|;
  }

  /** Every top driver is for a raised flag, with `delta = value - threshold > 0`. */
  lemma TopDriversAboveThreshold(s: Sample, thr: Thresholds)
    ensures forall d :: d in TopDrivers(s, thr) ==>
      Raised(s, thr, d.signal) && d.delta == d.value - d.threshold && d.delta > 0.0
  {
    TopDriversWithinRaised(s, thr);
    RaisedDriversAboveThreshold(s, thr);
  }

  /** A prefix of a list sorted by |delta| with ties in signal order is sorted the same way. */
  lemma TakeKeepsOrder(xs: seq<Driver>, n: nat)
    requires SortedDesc(xs, AbsDelta) && TiesOrdered(xs, AbsDelta, SignalPos)
    ensures SortedDesc(Take(xs, n), AbsDelta) && TiesOrdered(Take(xs, n), AbsDelta, SignalPos)
  {
  }

  /**
    The top drivers are ordered by non-increasing |delta|, with ties in the
    order latency, errors, volume, saturation.
  */
  lemma TopDriversOrdered(s: Sample, thr: Thresholds)
    ensures SortedDesc(TopDrivers(s, thr), AbsDelta)
    ensures TiesOrdered(TopDrivers(s, thr), AbsDelta, SignalPos)
  {
    var raised := RaisedDrivers(s, thr);
    RaisedDriversInSignalOrder(s, thr);
    SortDescIsStable(raised, AbsDelta, SignalPos);
    TakeKeepsOrder(SortDesc(raised, AbsDelta), 3);
  }

  /** Sorting drivers whose signals strictly increase, then taking a prefix, never repeats a signal. */
  lemma SortedPrefixDistinctSignals(raised: seq<Driver>, n: nat)
    requires forall i, j :: 0 <= i < j < |raised| ==> SignalPos(raised[i]) < SignalPos(raised[j])
    ensures var r := Take(SortDesc(raised, AbsDelta), n);
      forall i, j :: 0 <= i < j < |r| ==> r[i].signal != r[j].signal
  {
    var sorted := SortDesc(raised, AbsDelta);
    var r := Take(sorted, n);
    forall i, j | 0 <= i < j < |r| ensures r[i].signal != r[j].signal {
      assert r[i] == sorted[i] && r[j] == sorted[j];
      if r[i].signal == r[j].signal {
        assert sorted[i] in multiset(raised) && sorted[j] in multiset(raised);
        var a :| 0 <= a < |raised| && raised[a] == sorted[i];
        var b :| 0 <= b < |raised| && raised[b] == sorted[j];
        assert SignalPos(raised[a]) == SignalPos(raised[b]);
        assert a == b;
        TwiceInMultiset(sorted, i, j);
        OnceInMultiset(raised, sorted[i]);
        assert false;
      }
    }
  }

  /** `top_drivers` never lists the same signal twice. */
  lemma TopDriversDistinctSignals(s: Sample, thr: Thresholds)
    ensures forall i, j :: 0 <= i < j < |TopDrivers(s, thr)| ==> TopDrivers(s, thr)[i].signal != TopDrivers(s, thr)[j].signal
  {
    RaisedDriversInSignalOrder(s, thr);
    SortedPrefixDistinctSignals(RaisedDrivers(s, thr), 3);
    assert TopDrivers(s, thr) == Take(SortDesc(RaisedDrivers(s, thr), AbsDelta), 3);
  }

  /** Every top driver is one of the raised drivers. */
  lemma TopDriversWithinRaised(s: Sample, thr: Thresholds)
    ensures forall d :: d in TopDrivers(s, thr) ==> d in RaisedDrivers(s, thr)
  {
    var raised := RaisedDrivers(s, thr);
    var sorted := SortDesc(raised, AbsDelta);
    var r := TopDrivers(s, thr);
    forall d | d in r ensures d in raised {
      var k :| 0 <= k < |r| && r[k] == d;
      assert sorted[k] == d && d in multiset(sorted);
    }
  }

  /**
    In a list sorted by descending |delta| with ties in signal order, an
    element past the first `n` has an |delta| no larger than any element kept,
    and on equal |delta| it comes no earlier in signal order.
  */
  lemma TakeDropsOnlySmaller(xs: seq<Driver>, n: nat, x: Driver, y: Driver)
    requires SortedDesc(xs, AbsDelta) && TiesOrdered(xs, AbsDelta, SignalPos)
    requires x in xs && x !in Take(xs, n) && y in Take(xs, n)
    ensures AbsDelta(y) >= AbsDelta(x)
    ensures AbsDelta(y) == AbsDelta(x) ==> SignalPos(y) <= SignalPos(x)
  {
    var r := Take(xs, n);
    var m :| 0 <= m < |xs| && xs[m] == x;
    var k :| 0 <= k < |r| && r[k] == y;
    assert xs[k] == y;
    assert k < m;
  }

  /**
    Every driver of `all` left out of `kept` has a smaller |delta| than each
    driver kept, or the same |delta| and a later signal.
  */
  ghost predicate KeepsLargest(all: seq<Driver>, kept: seq<Driver>) {
    forall x, y :: x in all && x !in kept && y in kept ==>
      AbsDelta(y) > AbsDelta(x) || (AbsDelta(y) == AbsDelta(x) && SignalPos(y) < SignalPos(x))
  }

  /** Sorting drivers whose signals strictly increase, then taking a prefix, keeps the largest. */
  lemma SortedPrefixKeepsLargest(raised: seq<Driver>, n: nat)
    requires forall i, j :: 0 <= i < j < |raised| ==> SignalPos(raised[i]) < SignalPos(raised[j])
    ensures KeepsLargest(raised, Take(SortDesc(raised, AbsDelta), n))
  {
    var sorted := SortDesc(raised, AbsDelta);
    var r := Take(sorted, n);
    assert Ascending(raised, SignalPos);
    SortDescIsStable(raised, AbsDelta, SignalPos);
    forall x, y | x in raised && x !in r && y in r
      ensures AbsDelta(y) > AbsDelta(x) || (AbsDelta(y) == AbsDelta(x) && SignalPos(y) < SignalPos(x))
    {
      assert x in multiset(sorted);
      TakeDropsOnlySmaller(sorted, n, x, y);
      var k :| 0 <= k < |r| && r[k] == y;
      assert sorted[k] == y && y in multiset(raised);
      var a :| 0 <= a < |raised| && raised[a] == x;
      var b :| 0 <= b < |raised| && raised[b] == y;
      assert a != b;
    }
  }

  /**
    `top_drivers` keeps the drivers farthest from their thresholds: every
    raised driver left out has a smaller |delta| than each one kept, or the
    same |delta| and a later signal (latency, errors, volume, saturation).
  */
  lemma TopDriversAreTheLargest(s: Sample, thr: Thresholds)
    ensures KeepsLargest(RaisedDrivers(s, thr), TopDrivers(s, thr))
  {
    RaisedDriversInSignalOrder(s, thr);
    SortedPrefixKeepsLargest(RaisedDrivers(s, thr), 3);
    assert TopDrivers(s, thr) == Take(SortDesc(RaisedDrivers(s, thr), AbsDelta), 3);
  }

  /** Among the raised drivers, the signal name determines the driver. */
  lemma RaisedSignalDeterminesDriver(s: Sample, thr: Thresholds)
    ensures forall a, b :: a in RaisedDrivers(s, thr) && b in RaisedDrivers(s, thr) && a.signal == b.signal ==> a == b
  {
    var raised := RaisedDrivers(s, thr);
    RaisedDriversInSignalOrder(s, thr);
    forall a, b | a in raised && b in raised && a.signal == b.signal ensures a == b {
      var i :| 0 <= i < |raised| && raised[i] == a;
      var j :| 0 <= j < |raised| && raised[j] == b;
      assert SignalPos(a) == SignalPos(b);
      assert i == j;
    }
  }

  // ---------------------------------------------------------------------------
  // recommendation_from_drivers

  const NoActionText: string := "Sin acción: métricas dentro de política."
  const LatencyText: string := "Revisar saturación/DB/colas. Activar auto-scale o reducir carga. Validar picos recientes."
  const ErrorsText: string := "Auditar releases recientes. Revisar dependencias externas. Activar circuit breaker y rollback si aplica."
  const VolumeText: string := "Validar ingesta/eventos. Revisar gateway/routing. Confirmar si hay caída real de tráfico o upstream."
  const SaturationText: string := "Saturación alta: revisar CPU/mem y límites. Ajustar autoscaling y revisar jobs pesados."
  const FallbackText: string := "Revisar señales principales y ejecutar runbook estándar."

  /** The advice for the column name of the dominant driver, with the runbook fallback for any other name. */
  function AdviceFor(name: string): string {
    if name == "latency_p95_ms" then LatencyText
    else if name == "error_rate_pct" then ErrorsText
    else if name == "volume_drop_pct" then VolumeText
    else if name == "saturation_pct" then SaturationText
    else FallbackText
  }

  /**
    `recommendation_from_drivers`: the advice for the name of the dominant
    (first) driver's signal. Every driver names one of the four columns, so the
    fallback is never returned.
  */
  function Recommendation(drivers: seq<Driver>): (r: string)
    ensures drivers == [] <==> r == NoActionText
    ensures r != FallbackText
    ensures drivers != [] && drivers[0].signal == Latency ==> r == LatencyText
    ensures drivers != [] && drivers[0].signal == ErrorRate ==> r == ErrorsText
    ensures drivers != [] && drivers[0].signal == VolumeDrop ==> r == VolumeText
    ensures drivers != [] && drivers[0].signal == Saturation ==> r == SaturationText
  {
    if drivers == [] then NoActionText else AdviceFor(Name(drivers[0].signal))
  }

  /** Only the dominant driver's signal matters: lists that agree on it get the same advice. */
  lemma RecommendationFollowsMainDriver(a: seq<Driver>, b: seq<Driver>)
    requires a != [] && b != [] && a[0].signal == b[0].signal
    ensures Recommendation(a) == Recommendation(b)
    ensures Recommendation(a) != NoActionText
  {
  }

  /** On the drivers of a sample, the advice is "no action" exactly when no flag is raised. */
  lemma RecommendationOfSample(s: Sample, thr: Thresholds)
    ensures Recommendation(TopDrivers(s, thr)) == NoActionText <==> AnomalyCount(DetectFlags(s, thr)) == 0
  {
    TopDriversCount(s, thr);
    var r := TopDrivers(s, thr);
    if r != [] {
      assert r[0] in r;
    }
  }

  /** The "no action" advice goes exactly with severity "OK". */
  lemma NoActionIffSeverityOk(s: Sample, thr: Thresholds)
    ensures Recommendation(TopDrivers(s, thr)) == NoActionText <==> Severity(s, thr) == OK
  {
    RecommendationOfSample(s, thr);
  }

  // ---------------------------------------------------------------------------
  // incident shortlist

  /** The rows whose severity is not "OK", in their original order. */
  function NotOk(samples: seq<Sample>, thr: Thresholds): (r: seq<Sample>)
    ensures forall x :: x in r <==> x in samples && Severity(x, thr) != OK
    ensures multiset(r) <= multiset(samples)
    ensures forall x :: multiset(r)[x] == if Severity(x, thr) != OK then multiset(samples)[x] else 0
  {
    if samples == [] then []
    else
      assert samples == [samples[0]] + samples[1..];
      var rest := NotOk(samples[1..], thr);
      if Severity(samples[0], thr) != OK then [samples[0]] + rest else rest
  }

  function TsKey(s: Sample): real { s.ts as real }
  function NegTsKey(s: Sample): real { -(s.ts as real) }
  function RankKey(thr: Thresholds): Sample -> real {
    s => RankOf(Severity(s, thr)) as real
  }

  /** Rows ordered by rank then timestamp, both descending. */
  ghost predicate RankThenTsDesc(xs: seq<Sample>, thr: Thresholds) {
    forall i, j :: 0 <= i < j < |xs| ==>
      RankOf(Severity(xs[i], thr)) > RankOf(Severity(xs[j], thr))
      || (RankOf(Severity(xs[i], thr)) == RankOf(Severity(xs[j], thr)) && xs[i].ts >= xs[j].ts)
  }

  /**
    The candidates before truncation: the not-OK rows sorted on the two keys
    rank and timestamp, both descending (`sort_values(["rank", "ts"])`). The
    model gets that order by sorting on timestamp and then stably on rank; the
    earlier sort on timestamp alone does not change the result. Rows equal in
    both keys may come out in any order in the source.
  */
  function RankedCandidates(samples: seq<Sample>, thr: Thresholds): (r: seq<Sample>)
    ensures multiset(r) == multiset(NotOk(samples, thr))
  {
    SortDesc(SortDesc(NotOk(samples, thr), TsKey), RankKey(thr))
  }

  /** The shortlist: the first twelve ranked candidates (`.head(12)`). */
  function Shortlist(samples: seq<Sample>, thr: Thresholds): (r: seq<Sample>)
    ensures |r| <= 12
    ensures multiset(r) <= multiset(NotOk(samples, thr))
  {
    TakeWithin(RankedCandidates(samples, thr), 12);
    Take(RankedCandidates(samples, thr), 12)
  }

  /** The ranked candidates are ordered by rank and, within a rank, by timestamp, both descending. */
  lemma RankedCandidatesOrdered(samples: seq<Sample>, thr: Thresholds)
    ensures RankThenTsDesc(RankedCandidates(samples, thr), thr)
  {
    var byTs := SortDesc(NotOk(samples, thr), TsKey);
    var r := RankedCandidates(samples, thr);
    assert Ascending(byTs, NegTsKey);
    SortDescIsStable(byTs, RankKey(thr), NegTsKey);
    forall i, j | 0 <= i < j < |r|
      ensures RankOf(Severity(r[i], thr)) > RankOf(Severity(r[j], thr))
        || (RankOf(Severity(r[i], thr)) == RankOf(Severity(r[j], thr)) && r[i].ts >= r[j].ts)
    {
      assert RankKey(thr)(r[i]) >= RankKey(thr)(r[j]);
      if RankKey(thr)(r[i]) == RankKey(thr)(r[j]) {
        assert NegTsKey(r[i]) <= NegTsKey(r[j]);
      }
    }
  }

  /** The ranked candidates are the not-OK rows, reordered. */
  lemma RankedCandidatesPermutation(samples: seq<Sample>, thr: Thresholds)
    ensures multiset(RankedCandidates(samples, thr)) == multiset(NotOk(samples, thr))
  {
  }

  /**
    The shortlist holds at most twelve rows, never an "OK" row, each one a row
    of the input (never more often than it occurs there).
  */
  lemma ShortlistFacts(samples: seq<Sample>, thr: Thresholds)
    ensures |Shortlist(samples, thr)| <= 12
    ensures multiset(Shortlist(samples, thr)) <= multiset(samples)
    ensures forall x :: x in Shortlist(samples, thr) ==> Severity(x, thr) != OK && RankOf(Severity(x, thr)) >= 1
  {
    ShortlistWithinCandidates(samples, thr);
    var r := Shortlist(samples, thr);
    forall x | x in r ensures Severity(x, thr) != OK {
      assert x in multiset(NotOk(samples, thr));
    }
  }

  /** The shortlist is ordered by rank, then by timestamp, both descending. */
  lemma ShortlistOrdered(samples: seq<Sample>, thr: Thresholds)
    ensures RankThenTsDesc(Shortlist(samples, thr), thr)
  {
    RankedCandidatesOrdered(samples, thr);
  }

  /** The shortlist takes rows from the candidates, never more often than they occur. */
  lemma ShortlistWithinCandidates(samples: seq<Sample>, thr: Thresholds)
    ensures multiset(Shortlist(samples, thr)) <= multiset(NotOk(samples, thr))
  {
    TakeWithin(RankedCandidates(samples, thr), 12);
    RankedCandidatesPermutation(samples, thr);
  }

  /** With at most twelve candidates, the shortlist keeps them all. */
  lemma ShortlistKeepsFewCandidates(samples: seq<Sample>, thr: Thresholds)
    requires |NotOk(samples, thr)| <= 12
    ensures multiset(Shortlist(samples, thr)) == multiset(NotOk(samples, thr))
  {
    RankedCandidatesPermutation(samples, thr);
    var ranked := RankedCandidates(samples, thr);
    assert |ranked| == |multiset(ranked)| == |NotOk(samples, thr)|;
  }

  /** In a sequence ordered by rank, then timestamp, an element past the first `n` ranks after every element kept. */
  lemma TakeDropsOnlyLater(ranked: seq<Sample>, n: nat, thr: Thresholds, x: Sample, y: Sample)
    requires RankThenTsDesc(ranked, thr)
    requires x in ranked && x !in Take(ranked, n) && y in Take(ranked, n)
    ensures RankOf(Severity(y, thr)) > RankOf(Severity(x, thr))
      || (RankOf(Severity(y, thr)) == RankOf(Severity(x, thr)) && y.ts >= x.ts)
  {
    var r := Take(ranked, n);
    var m :| 0 <= m < |ranked| && ranked[m] == x;
    var k :| 0 <= k < |r| && r[k] == y;
    assert ranked[k] == y;
    assert k < m;
  }

  /** Every candidate left out of the shortlist ranks after every row kept. */
  lemma ShortlistDropsOnlyLaterRows(samples: seq<Sample>, thr: Thresholds)
    ensures forall x, y :: x in NotOk(samples, thr) && x !in Shortlist(samples, thr) && y in Shortlist(samples, thr) ==>
      RankOf(Severity(y, thr)) > RankOf(Severity(x, thr))
      || (RankOf(Severity(y, thr)) == RankOf(Severity(x, thr)) && y.ts >= x.ts)
  {
    var ranked := RankedCandidates(samples, thr);
    RankedCandidatesPermutation(samples, thr);
    RankedCandidatesOrdered(samples, thr);
    forall x, y | x in NotOk(samples, thr) && x !in Take(ranked, 12) && y in Take(ranked, 12)
      ensures RankOf(Severity(y, thr)) > RankOf(Severity(x, thr))
        || (RankOf(Severity(y, thr)) == RankOf(Severity(x, thr)) && y.ts >= x.ts)
    {
      assert x in multiset(ranked);
      TakeDropsOnlyLater(ranked, 12, thr, x, y);
    }
  }
}
