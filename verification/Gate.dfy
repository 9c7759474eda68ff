/** The rolling-median regression gate. */
module Gate {
  import opened Common
  import opened OrderStats

  /** A measurement; rounding is not modelled, non-finite values are. */
  datatype F64 = Finite(value: real) | NaN | Infinite(negative: bool)

  const THROUGHPUT_DROP_LIMIT := 0.10
  const P99_RISE_LIMIT := 0.15
  const P999_RISE_LIMIT := 0.25
  const WINDOW_SECS := 7 * 86400

  datatype RunPoint = RunPoint(device: string, unixSecs: nat, throughput: F64, p99: F64, p999: F64, warmupCovOk: bool)

  datatype Metric = Throughput | P99 | P999

  datatype Breach = Breach(device: string, metric: Metric, baseline: real, current: real, fraction: real)

  datatype Outcome =
    | NoBaseline
    | InsufficientData
    | Pass
    | Ratified(breaches: seq<Breach>, reason: string)
    | Fail(breaches: seq<Breach>)
  {
    predicate IsBlocking() {
      Fail?
    }

    function BreachList(): seq<Breach> {
      if Ratified? || Fail? then breaches else []
    }
  }

  // ----- selections -----

  function FlatMap<A, B>(f: A -> seq<B>, s: seq<A>): seq<B> {
    if s == [] then [] else f(s[0]) + FlatMap(f, s[1..])
  }

  function WindowStart(now: nat): nat {
    if now >= WINDOW_SECS then now - WINDOW_SECS else 0
  }

  predicate InWindow(r: RunPoint, now: nat) {
    r.warmupCovOk && WindowStart(now) <= r.unixSecs <= now
  }

  /** The current runs that count: not advisory and inside the rolling window. */
  function CurrentEligible(runs: seq<RunPoint>, now: nat): seq<RunPoint> {
    FlatMap((r: RunPoint) => if InWindow(r, now) then [r] else [], runs)
  }

  function BaselineEligible(runs: seq<RunPoint>): seq<RunPoint> {
    FlatMap((r: RunPoint) => if r.warmupCovOk then [r] else [], runs)
  }

  function OnDevice(runs: seq<RunPoint>, device: string): seq<RunPoint> {
    FlatMap((r: RunPoint) => if r.device == device then [r] else [], runs)
  }

  function Read(r: RunPoint, m: Metric): F64 {
    match m case Throughput => r.throughput case P99 => r.p99 case P999 => r.p999
  }

  /** The finite values of a metric. */
  function Values(runs: seq<RunPoint>, m: Metric): seq<real> {
    FlatMap((r: RunPoint) => match Read(r, m) case Finite(x) => [x] case _ => [], runs)
  }

  /** The distinct devices in first-seen order. */
  function Devices(runs: seq<RunPoint>): seq<string> {
    if runs == [] then []
    else
      var before := Devices(runs[..|runs| - 1]);
      var d := runs[|runs| - 1].device;
      if d in before then before else before + [d]
  }

  method DistinctDevices(runs: seq<RunPoint>) returns (seen: seq<string>)
    ensures seen == Devices(runs)
  {
    seen := [];
    for i := 0 to |runs|
      invariant seen == Devices(runs[..i])
    {
      assert runs[..i + 1][..i] == runs[..i];
      if runs[i].device !in seen {
        seen := seen + [runs[i].device];
      }
    }
    assert runs[..|runs|] == runs;
  }

  // ----- medians and thresholds -----

  /** The middle value, or the mean of the two middle values. */
  function Median(s: seq<real>): Option<real> {
    if s == [] then None
    else
      SortOk(s);
      var v := Sort(s);
      var mid := |v| / 2;
      if |v| % 2 == 1 then Some(v[mid]) else Some((v[mid - 1] + v[mid]) / 2.0)
  }

  function Limit(m: Metric): real {
    match m case Throughput => THROUGHPUT_DROP_LIMIT case P99 => P99_RISE_LIMIT case P999 => P999_RISE_LIMIT
  }

  /** How much worse the current median is, as a fraction of a positive baseline. */
  function Worsening(m: Metric, baseline: real, current: real): real
    requires baseline > 0.0
  {
    if m.Throughput? then (baseline - current) / baseline else (current - baseline) / baseline
  }

  function CheckMetric(device: string, m: Metric, cur: seq<RunPoint>, base: seq<RunPoint>): seq<Breach> {
    var c, b := Median(Values(cur, m)), Median(Values(base, m));
    if c.None? || b.None? || b.value <= 0.0 then []
    else
      var w := Worsening(m, b.value, c.value);
      if w > Limit(m) then [Breach(device, m, b.value, c.value, w)] else []
  }

  /** One device's breaches. Without a throughput median on both sides nothing is checked at all. */
  function CheckDevice(device: string, cur: seq<RunPoint>, base: seq<RunPoint>): seq<Breach> {
    if Median(Values(cur, Throughput)).None? || Median(Values(base, Throughput)).None? then []
    else CheckMetric(device, Throughput, cur, base) + CheckMetric(device, P99, cur, base) + CheckMetric(device, P999, cur, base)
  }

  /** A device without baseline runs is new, not regressed. */
  function DeviceBreaches(cur: seq<RunPoint>, base: seq<RunPoint>, device: string): seq<Breach> {
    if OnDevice(base, device) == [] then []
    else CheckDevice(device, OnDevice(cur, device), OnDevice(base, device))
  }

  function BreachesOf(cur: seq<RunPoint>, base: seq<RunPoint>, devices: seq<string>): seq<Breach> {
    FlatMap((d: string) => DeviceBreaches(cur, base, d), devices)
  }

  lemma BreachesOfSnoc(cur: seq<RunPoint>, base: seq<RunPoint>, devices: seq<string>, d: string)
    ensures BreachesOf(cur, base, []) == []
    ensures BreachesOf(cur, base, devices + [d]) == BreachesOf(cur, base, devices) + DeviceBreaches(cur, base, d)
  {
    hide DeviceBreaches;
    FlatMapSnoc((d: string) => DeviceBreaches(cur, base, d), devices, d);
  }

  function AllBreaches(cur: seq<RunPoint>, base: seq<RunPoint>): seq<Breach> {
    BreachesOf(cur, base, Devices(cur))
  }

  function Evaluate(current: seq<RunPoint>, baseline: seq<RunPoint>, now: nat, ratified: Option<string>): Outcome {
    if baseline == [] then NoBaseline
    else
      var cur := CurrentEligible(current, now);
      if cur == [] then InsufficientData
      else
        var breaches := AllBreaches(cur, BaselineEligible(baseline));
        if breaches == [] then Pass
        else if ratified.Some? then Ratified(breaches, ratified.value)
        else Fail(breaches)
  }

  /** The gate as it runs: one pass over the devices, pushing breaches. */
  method RunGate(current: seq<RunPoint>, baseline: seq<RunPoint>, now: nat, ratified: Option<string>) returns (o: Outcome)
    ensures o == Evaluate(current, baseline, now, ratified)
  {
    hide CurrentEligible, BaselineEligible, OnDevice, BreachesOf, CheckDevice, Devices;
    if baseline == [] {
      return NoBaseline;
    }
    var cur := CurrentEligible(current, now);
    if cur == [] {
      return InsufficientData;
    }
    var base := BaselineEligible(baseline);
    var devices := DistinctDevices(cur);
    var breaches: seq<Breach> := [];
    BreachesOfSnoc(cur, base, [], "");
    for i := 0 to |devices|
      invariant breaches == BreachesOf(cur, base, devices[..i])
    {
      BreachesOfSnoc(cur, base, devices[..i], devices[i]);
      assert devices[..i + 1] == devices[..i] + [devices[i]];
      if OnDevice(base, devices[i]) != [] {
        breaches := breaches + CheckDevice(devices[i], OnDevice(cur, devices[i]), OnDevice(base, devices[i]));
      }
    }
    assert devices[..|devices|] == devices;
    if breaches == [] {
      return Pass;
    }
    return if ratified.Some? then Ratified(breaches, ratified.value) else Fail(breaches);
  }

  // ----- laws of selection -----

  lemma {:induction false} FlatMapAppend<A, B>(f: A -> seq<B>, s: seq<A>, t: seq<A>)
    ensures FlatMap(f, s + t) == FlatMap(f, s) + FlatMap(f, t)
  {
    if s == [] {
      assert s + t == t;
    } else {
      FlatMapAppend(f, s[1..], t);
      assert (s + t)[1..] == s[1..] + t;
    }
  }

  lemma FlatMapSnoc<A, B>(f: A -> seq<B>, s: seq<A>, x: A)
    ensures FlatMap(f, s + [x]) == FlatMap(f, s) + f(x)
  {
    FlatMapAppend(f, s, [x]);
    assert [x][1..] == [];
  }

  function Without<A>(t: seq<A>, j: nat): seq<A>
    requires j < |t|
  {
    t[..j] + t[j + 1..]
  }

  lemma WithoutValues<A>(t: seq<A>, j: nat)
    requires j < |t|
    ensures multiset(Without(t, j)) == multiset(t) - multiset{t[j]}
  {
    assert t == t[..j] + [t[j]] + t[j + 1..];
  }

  lemma FlatMapWithout<A, B>(f: A -> seq<B>, t: seq<A>, j: nat)
    requires j < |t|
    ensures multiset(FlatMap(f, t)) == multiset(f(t[j])) + multiset(FlatMap(f, Without(t, j)))
  {
    hide FlatMap;
    assert t == t[..j] + [t[j]] + t[j + 1..];
    FlatMapSnoc(f, t[..j], t[j]);
    FlatMapAppend(f, t[..j] + [t[j]], t[j + 1..]);
    FlatMapAppend(f, t[..j], t[j + 1..]);
  }

  /** Selecting from a permutation selects a permutation. */
  lemma {:induction false} FlatMapPermutes<A, B>(f: A -> seq<B>, s: seq<A>, t: seq<A>)
    requires multiset(s) == multiset(t)
    ensures multiset(FlatMap(f, s)) == multiset(FlatMap(f, t))
    decreases |s|
  {
    hide FlatMap;
    assert |s| == |multiset(s)| == |multiset(t)| == |t|;
    if s == [] {
      assert t == [];
    } else {
      assert s[0] in multiset(t);
      var j :| 0 <= j < |t| && t[j] == s[0];
      WithoutValues(t, j);
      WithoutValues(s, 0);
      FlatMapPermutes(f, Without(s, 0), Without(t, j));
      FlatMapWithout(f, t, j);
      FlatMapWithout(f, s, 0);
    }
  }
}
