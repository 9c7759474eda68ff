/** What the regression gate promises over every history. */
module GateLaws {
  import opened Common
  import opened OrderStats
  import opened Gate

  // ----- advisory and out-of-window runs -----

  lemma {:induction false} NothingWithoutBaseline(cur: seq<RunPoint>, devices: seq<string>)
    ensures BreachesOf(cur, [], devices) == []
  {
    if devices != [] {
      NothingWithoutBaseline(cur, devices[1..]);
      assert OnDevice([], devices[0]) == [];
    }
  }

  /** The verdict depends on the eligible runs alone. */
  lemma EligibleRunsDecide(current: seq<RunPoint>, current': seq<RunPoint>, baseline: seq<RunPoint>,
                           baseline': seq<RunPoint>, now: nat, ratified: Option<string>)
    requires CurrentEligible(current, now) == CurrentEligible(current', now)
    requires BaselineEligible(baseline) == BaselineEligible(baseline')
    ensures var o, o' := Evaluate(current, baseline, now, ratified), Evaluate(current', baseline', now, ratified);
            o.BreachList() == o'.BreachList() && o.IsBlocking() == o'.IsBlocking()
  {
    hide BreachesOf, CurrentEligible;
    var cur := CurrentEligible(current, now);
    NothingWithoutBaseline(cur, Devices(cur));
    assert BaselineEligible([]) == [];
  }

  lemma IgnoredRuns(a: seq<RunPoint>, r: RunPoint, b: seq<RunPoint>, now: nat)
    ensures !InWindow(r, now) ==> CurrentEligible(a + [r] + b, now) == CurrentEligible(a + b, now)
    ensures !r.warmupCovOk ==> BaselineEligible(a + [r] + b) == BaselineEligible(a + b)
  {
    hide FlatMap;
    var f := (r: RunPoint) => if InWindow(r, now) then [r] else [];
    var g := (r: RunPoint) => if r.warmupCovOk then [r] else [];
    Dropped(f, a, r, b);
    Dropped(g, a, r, b);
    assert CurrentEligible(a + [r] + b, now) == FlatMap(f, a + [r] + b) by { CurrentIs(a + [r] + b, now); }
    assert CurrentEligible(a + b, now) == FlatMap(f, a + b) by { CurrentIs(a + b, now); }
  }

  lemma CurrentIs(runs: seq<RunPoint>, now: nat)
    ensures CurrentEligible(runs, now) == FlatMap((r: RunPoint) => if InWindow(r, now) then [r] else [], runs)
  {
  }

  lemma Dropped<A, B>(f: A -> seq<B>, a: seq<A>, x: A, b: seq<A>)
    ensures f(x) == [] ==> FlatMap(f, a + [x] + b) == FlatMap(f, a + b)
  {
    hide FlatMap;
    FlatMapSnoc(f, a, x);
    FlatMapAppend(f, a + [x], b);
    FlatMapAppend(f, a, b);
    assert f(x) == [] ==> FlatMap(f, a) + f(x) == FlatMap(f, a);
  }

  /** Non-interference: inserting an advisory or out-of-window current run, or an advisory baseline run,
      anywhere, changes neither the breach list nor whether the gate blocks. */
  lemma NonInterference(a: seq<RunPoint>, r: RunPoint, b: seq<RunPoint>,
                        c: seq<RunPoint>, q: RunPoint, d: seq<RunPoint>, now: nat, ratified: Option<string>)
    requires !InWindow(r, now) && !q.warmupCovOk
    ensures var o, o' := Evaluate(a + b, c + d, now, ratified), Evaluate(a + [r] + b, c + [q] + d, now, ratified);
            o.BreachList() == o'.BreachList() && o.IsBlocking() == o'.IsBlocking()
  {
    hide Evaluate, CurrentEligible, BaselineEligible;
    IgnoredRuns(a, r, b, now);
    IgnoredRuns(c, q, d, now);
    EligibleRunsDecide(a + b, a + [r] + b, c + d, c + [q] + d, now, ratified);
  }

  /** The same on one side alone: an advisory or out-of-window current run. */
  lemma CurrentNonInterference(a: seq<RunPoint>, r: RunPoint, b: seq<RunPoint>, baseline: seq<RunPoint>, now: nat,
                               ratified: Option<string>)
    requires !InWindow(r, now)
    ensures var o, o' := Evaluate(a + b, baseline, now, ratified), Evaluate(a + [r] + b, baseline, now, ratified);
            o.BreachList() == o'.BreachList() && o.IsBlocking() == o'.IsBlocking()
  {
    hide Evaluate, CurrentEligible, BaselineEligible;
    IgnoredRuns(a, r, b, now);
    EligibleRunsDecide(a + b, a + [r] + b, baseline, baseline, now, ratified);
  }

  /** And an advisory baseline run, which may be the first or the only one. */
  lemma BaselineNonInterference(current: seq<RunPoint>, c: seq<RunPoint>, q: RunPoint, d: seq<RunPoint>, now: nat,
                                ratified: Option<string>)
    requires !q.warmupCovOk
    ensures var o, o' := Evaluate(current, c + d, now, ratified), Evaluate(current, c + [q] + d, now, ratified);
            o.BreachList() == o'.BreachList() && o.IsBlocking() == o'.IsBlocking()
  {
    hide Evaluate, CurrentEligible, BaselineEligible;
    IgnoredRuns(c, q, d, now);
    EligibleRunsDecide(current, current, c + d, c + [q] + d, now, ratified);
  }

  // ----- devices -----

  ghost predicate Distinct<T>(s: seq<T>) {
    forall i, j :: 0 <= i < j < |s| ==> s[i] != s[j]
  }

  lemma {:induction false} DevicesAre(runs: seq<RunPoint>)
    ensures Distinct(Devices(runs))
    ensures forall d :: d in Devices(runs) <==> OnDevice(runs, d) != []
  {
    if runs != [] {
      var init, last := runs[..|runs| - 1], runs[|runs| - 1];
      DevicesAre(init);
      assert runs == init + [last];
      forall d
        ensures d in Devices(runs) <==> OnDevice(runs, d) != []
      {
        OnDeviceSnoc(init, last, d);
      }
    }
  }

  lemma OnDeviceSnoc(runs: seq<RunPoint>, r: RunPoint, d: string)
    ensures OnDevice(runs + [r], d) == OnDevice(runs, d) + if r.device == d then [r] else []
  {
    FlatMapSnoc((r: RunPoint) => if r.device == d then [r] else [], runs, r);
  }

  function About(bs: seq<Breach>, device: string): seq<Breach> {
    FlatMap((b: Breach) => if b.device == device then [b] else [], bs)
  }

  lemma AboutAppend(a: seq<Breach>, b: seq<Breach>, device: string)
    ensures About(a + b, device) == About(a, device) + About(b, device)
  {
    FlatMapAppend((b: Breach) => if b.device == device then [b] else [], a, b);
  }

  lemma {:induction false} AboutUniform(bs: seq<Breach>, e: string, device: string)
    requires forall i :: 0 <= i < |bs| ==> bs[i].device == e
    ensures About(bs, device) == if e == device then bs else []
  {
    if bs != [] {
      assert bs[0].device == e;
      AboutUniform(bs[1..], e, device);
      assert bs == [bs[0]] + bs[1..];
    }
  }

  lemma OwnBreaches(cur: seq<RunPoint>, base: seq<RunPoint>, device: string)
    ensures forall i :: 0 <= i < |DeviceBreaches(cur, base, device)| ==> DeviceBreaches(cur, base, device)[i].device == device
    ensures OnDevice(cur, device) == [] ==> DeviceBreaches(cur, base, device) == []
  {
    hide OnDevice;
    assert Values([], Throughput) == [];
  }

  lemma {:induction false} AboutDevices(cur: seq<RunPoint>, base: seq<RunPoint>, devices: seq<string>, device: string)
    requires Distinct(devices)
    ensures About(BreachesOf(cur, base, devices), device)
              == if device in devices then DeviceBreaches(cur, base, device) else []
  {
    hide DeviceBreaches;
    if devices == [] {
      assert BreachesOf(cur, base, []) == [];
    } else {
      var init, last := devices[..|devices| - 1], devices[|devices| - 1];
      AboutDevices(cur, base, init, device);
      assert devices == init + [last];
      BreachesOfSnoc(cur, base, init, last);
      AboutAppend(BreachesOf(cur, base, init), DeviceBreaches(cur, base, last), device);
      OwnBreaches(cur, base, last);
      AboutUniform(DeviceBreaches(cur, base, last), last, device);
    }
  }

  /** Device isolation: the breaches about a device are decided by that device's own runs. */
  lemma DeviceIsolation(cur: seq<RunPoint>, base: seq<RunPoint>, device: string)
    ensures About(AllBreaches(cur, base), device) == DeviceBreaches(cur, base, device)
  {
    hide Devices, OnDevice, BreachesOf, About, CheckDevice;
    DevicesAre(cur);
    AboutDevices(cur, base, Devices(cur), device);
    OwnBreaches(cur, base, device);
  }

  lemma OtherDevicesDoNotMatter(cur: seq<RunPoint>, cur': seq<RunPoint>, base: seq<RunPoint>, base': seq<RunPoint>, device: string)
    requires OnDevice(cur, device) == OnDevice(cur', device) && OnDevice(base, device) == OnDevice(base', device)
    ensures About(AllBreaches(cur, base), device) == About(AllBreaches(cur', base'), device)
  {
    hide OnDevice, About, AllBreaches;
    DeviceIsolation(cur, base, device);
    DeviceIsolation(cur', base', device);
  }

  // ----- permutations -----

  lemma MedianPermutes(s: seq<real>, t: seq<real>)
    requires multiset(s) == multiset(t)
    ensures Median(s) == Median(t)
  {
    assert |s| == |multiset(s)| == |multiset(t)| == |t|;
    SortOfPermutation(s, t);
  }

  lemma ValuesPermute(s: seq<RunPoint>, t: seq<RunPoint>, m: Metric)
    requires multiset(s) == multiset(t)
    ensures Median(Values(s, m)) == Median(Values(t, m))
  {
    hide Median;
    FlatMapPermutes((r: RunPoint) => match Read(r, m) case Finite(x) => [x] case _ => [], s, t);
    MedianPermutes(Values(s, m), Values(t, m));
  }

  lemma CheckPermutes(device: string, cur: seq<RunPoint>, cur': seq<RunPoint>, base: seq<RunPoint>, base': seq<RunPoint>)
    requires multiset(cur) == multiset(cur') && multiset(base) == multiset(base')
    ensures CheckDevice(device, cur, base) == CheckDevice(device, cur', base')
  {
    hide Median, Values;
    ValuesPermute(cur, cur', Throughput);
    ValuesPermute(cur, cur', P99);
    ValuesPermute(cur, cur', P999);
    ValuesPermute(base, base', Throughput);
    ValuesPermute(base, base', P99);
    ValuesPermute(base, base', P999);
  }

  lemma OnDevicePermutes(s: seq<RunPoint>, t: seq<RunPoint>, device: string)
    requires multiset(s) == multiset(t)
    ensures multiset(OnDevice(s, device)) == multiset(OnDevice(t, device))
    ensures OnDevice(s, device) == [] <==> OnDevice(t, device) == []
  {
    hide FlatMap;
    FlatMapPermutes((r: RunPoint) => if r.device == device then [r] else [], s, t);
    assert |OnDevice(s, device)| == |multiset(OnDevice(s, device))|;
    assert |OnDevice(t, device)| == |multiset(OnDevice(t, device))|;
  }

  lemma DeviceBreachesPermute(cur: seq<RunPoint>, cur': seq<RunPoint>, base: seq<RunPoint>, base': seq<RunPoint>, device: string)
    requires multiset(cur) == multiset(cur') && multiset(base) == multiset(base')
    ensures DeviceBreaches(cur, base, device) == DeviceBreaches(cur', base', device)
  {
    hide OnDevice, CheckDevice;
    OnDevicePermutes(cur, cur', device);
    OnDevicePermutes(base, base', device);
    CheckPermutes(device, OnDevice(cur, device), OnDevice(cur', device), OnDevice(base, device), OnDevice(base', device));
  }

  lemma {:induction false} BreachesOfSame(cur: seq<RunPoint>, cur': seq<RunPoint>, base: seq<RunPoint>, base': seq<RunPoint>, devices: seq<string>)
    requires forall d :: DeviceBreaches(cur, base, d) == DeviceBreaches(cur', base', d)
    ensures BreachesOf(cur, base, devices) == BreachesOf(cur', base', devices)
  {
    hide DeviceBreaches, BreachesOf;
    if devices == [] {
      BreachesOfSnoc(cur, base, [], "");
      BreachesOfSnoc(cur', base', [], "");
    } else {
      var init, last := devices[..|devices| - 1], devices[|devices| - 1];
      assert devices == init + [last];
      BreachesOfSame(cur, cur', base, base', init);
      BreachesOfSnoc(cur, base, init, last);
      BreachesOfSnoc(cur', base', init, last);
    }
  }

  /** Distinct sequences with the same elements are permutations of each other. */
  lemma {:induction false} DistinctSame<T>(s: seq<T>, t: seq<T>)
    requires Distinct(s) && Distinct(t) && forall x :: x in s <==> x in t
    ensures multiset(s) == multiset(t)
  {
    DistinctCounts(s);
    DistinctCounts(t);
    forall x: T
      ensures multiset(s)[x] == multiset(t)[x]
    {
      assert x in s <==> x in t;
    }
  }

  lemma {:induction false} DistinctCounts<T>(s: seq<T>)
    requires Distinct(s)
    ensures forall x :: multiset(s)[x] == if x in s then 1 else 0
  {
    if s != [] {
      var init, last := s[..|s| - 1], s[|s| - 1];
      DistinctCounts(init);
      assert s == init + [last];
      assert last !in init;
    }
  }

  /** Permuting the runs changes at most the order of the breaches. */
  lemma BreachesPermute(cur: seq<RunPoint>, cur': seq<RunPoint>, base: seq<RunPoint>, base': seq<RunPoint>)
    requires multiset(cur) == multiset(cur') && multiset(base) == multiset(base')
    ensures multiset(AllBreaches(cur, base)) == multiset(AllBreaches(cur', base'))
  {
    hide DeviceBreaches, OnDevice, Devices, FlatMap;
    forall d
      ensures DeviceBreaches(cur, base, d) == DeviceBreaches(cur', base', d)
      ensures OnDevice(cur, d) == [] <==> OnDevice(cur', d) == []
    {
      DeviceBreachesPermute(cur, cur', base, base', d);
      OnDevicePermutes(cur, cur', d);
    }
    DevicesAre(cur);
    DevicesAre(cur');
    DistinctSame(Devices(cur), Devices(cur'));
    BreachesOfSame(cur, cur', base, base', Devices(cur));
    FlatMapPermutes((d: string) => DeviceBreaches(cur', base', d), Devices(cur), Devices(cur'));
  }

  lemma VerdictPermutes(current: seq<RunPoint>, current': seq<RunPoint>, baseline: seq<RunPoint>,
                        baseline': seq<RunPoint>, now: nat, ratified: Option<string>)
    requires multiset(current) == multiset(current') && multiset(baseline) == multiset(baseline')
    ensures var o, o' := Evaluate(current, baseline, now, ratified), Evaluate(current', baseline', now, ratified);
            multiset(o.BreachList()) == multiset(o'.BreachList()) && o.IsBlocking() == o'.IsBlocking()
  {
    hide AllBreaches, FlatMap;
    var cur, cur' := CurrentEligible(current, now), CurrentEligible(current', now);
    var base, base' := BaselineEligible(baseline), BaselineEligible(baseline');
    FlatMapPermutes((r: RunPoint) => if InWindow(r, now) then [r] else [], current, current');
    FlatMapPermutes((r: RunPoint) => if r.warmupCovOk then [r] else [], baseline, baseline');
    BreachesPermute(cur, cur', base, base');
    SameSize(baseline, baseline');
    SameSize(cur, cur');
    SameSize(AllBreaches(cur, base), AllBreaches(cur', base'));
  }

  lemma SameSize<T>(s: seq<T>, t: seq<T>)
    requires multiset(s) == multiset(t)
    ensures s == [] <==> t == []
  {
    assert |s| == |multiset(s)| && |t| == |multiset(t)|;
  }

  // ----- robustness of the median -----

  /** A majority on one side of a threshold puts the median on that side. */
  lemma MedianMajority(s: seq<real>, t: real)
    requires s != []
    ensures 2 * CountLt(s, t) < |s| ==> Median(s).value >= t
    ensures 2 * CountLt(s, t) > |s| ==> Median(s).value < t
    ensures 2 * CountLe(s, t) > |s| ==> Median(s).value <= t
    ensures 2 * CountLe(s, t) < |s| ==> Median(s).value > t
  {
    hide Sort, CountLt, CountLe;
    var mid := |s| / 2;
    SortOk(s);
    RankByCount(s, mid, t);
    if |s| % 2 == 0 {
      RankByCount(s, mid - 1, t);
    }
  }

  /** The acceptable side of a metric relative to a positive baseline median. */
  function Threshold(m: Metric, baseline: real): real {
    if m.Throughput? then (1.0 - Limit(m)) * baseline else (1.0 + Limit(m)) * baseline
  }

  lemma FiresIff(m: Metric, baseline: real, current: real)
    requires baseline > 0.0
    ensures (Worsening(m, baseline, current) > Limit(m))
              <==> (if m.Throughput? then current < Threshold(m, baseline) else current > Threshold(m, baseline))
  {
    RatioAbove(if m.Throughput? then baseline - current else current - baseline, baseline, Limit(m));
  }

  lemma RatioAbove(d: real, b: real, limit: real)
    requires b > 0.0
    ensures d / b > limit <==> d > limit * b
  {
    var q := d / b;
    assert q * b == d;
    SignOfProduct(q - limit, b);
    assert (q - limit) * b == q * b - limit * b;
  }

  lemma SignOfProduct(x: real, b: real)
    requires b > 0.0
    ensures x > 0.0 <==> x * b > 0.0
  {
  }

  /** More than half of the finite values are acceptable; more than half are not. */
  ghost predicate MostlyFine(m: Metric, values: seq<real>, t: real) {
    if m.Throughput? then 2 * CountLt(values, t) < |values| else 2 * CountLe(values, t) > |values|
  }

  ghost predicate MostlyWorse(m: Metric, values: seq<real>, t: real) {
    if m.Throughput? then 2 * CountLt(values, t) > |values| else 2 * CountLe(values, t) < |values|
  }

  /** One bad run cannot fire the gate: a majority of acceptable values keeps the metric quiet, whatever the
      other values are. One lucky run cannot hide a regression: a majority of unacceptable values fires it. */
  lemma MajorityDecides(device: string, m: Metric, cur: seq<RunPoint>, base: seq<RunPoint>)
    requires Values(cur, m) != [] && Median(Values(base, m)).Some? && Median(Values(base, m)).value > 0.0
    ensures var t := Threshold(m, Median(Values(base, m)).value);
            && (MostlyFine(m, Values(cur, m), t) ==> CheckMetric(device, m, cur, base) == [])
            && (MostlyWorse(m, Values(cur, m), t) ==> |CheckMetric(device, m, cur, base)| == 1)
  {
    hide Values, Worsening, Threshold, CountLe, CountLt;
    var b := Median(Values(base, m)).value;
    MedianMajority(Values(cur, m), Threshold(m, b));
    FiresIff(m, b, Median(Values(cur, m)).value);
  }

  lemma {:induction false} AboutHolds(bs: seq<Breach>, device: string, x: Breach)
    ensures x in About(bs, device) <==> x in bs && x.device == device
  {
    if bs != [] {
      AboutHolds(bs[1..], device, x);
      assert bs == [bs[0]] + bs[1..];
    }
  }

  lemma MetricOf(device: string, m: Metric, cur: seq<RunPoint>, base: seq<RunPoint>)
    ensures forall x :: x in CheckMetric(device, m, cur, base) ==> x.metric == m
  {
    hide Values, Median;
  }

  /** On the whole gate: a device whose eligible values of a metric are mostly acceptable draws no breach of
      that metric, however bad the rest of its runs and every other device are. */
  lemma GateStaysQuiet(current: seq<RunPoint>, baseline: seq<RunPoint>, now: nat, ratified: Option<string>,
                       device: string, m: Metric, x: Breach)
    requires var cur, base := OnDevice(CurrentEligible(current, now), device), OnDevice(BaselineEligible(baseline), device);
             var b := Median(Values(base, m));
             && Values(cur, m) != [] && b.Some? && b.value > 0.0
             && MostlyFine(m, Values(cur, m), Threshold(m, b.value))
    requires x in Evaluate(current, baseline, now, ratified).BreachList()
    ensures x.device != device || x.metric != m
  {
    hide Values, Median, CurrentEligible, BaselineEligible, OnDevice, About, AllBreaches, CheckMetric, MostlyFine, MostlyWorse;
    var cur, base := CurrentEligible(current, now), BaselineEligible(baseline);
    MajorityDecides(device, m, OnDevice(cur, device), OnDevice(base, device));
    DeviceIsolation(cur, base, device);
    AboutHolds(AllBreaches(cur, base), device, x);
    MetricOf(device, Throughput, OnDevice(cur, device), OnDevice(base, device));
    MetricOf(device, P99, OnDevice(cur, device), OnDevice(base, device));
    MetricOf(device, P999, OnDevice(cur, device), OnDevice(base, device));
  }

  /** And a device whose eligible values are mostly unacceptable fires it, so an unratified gate blocks. */
  lemma GateFires(current: seq<RunPoint>, baseline: seq<RunPoint>, now: nat, ratified: Option<string>,
                  device: string, m: Metric)
    requires var cur, base := OnDevice(CurrentEligible(current, now), device), OnDevice(BaselineEligible(baseline), device);
             var b := Median(Values(base, m));
             && Median(Values(cur, Throughput)).Some? && Median(Values(base, Throughput)).Some?
             && Values(cur, m) != [] && b.Some? && b.value > 0.0
             && MostlyWorse(m, Values(cur, m), Threshold(m, b.value))
    ensures var o := Evaluate(current, baseline, now, ratified);
            o.BreachList() != [] && (ratified.None? ==> o.IsBlocking())
  {
    hide Values, Median, OnDevice, AllBreaches, CheckMetric, MostlyFine, MostlyWorse, CurrentEligible, BaselineEligible;
    var cur, base := CurrentEligible(current, now), BaselineEligible(baseline);
    MajorityDecides(device, m, OnDevice(cur, device), OnDevice(base, device));
    DeviceIsolation(cur, base, device);
    NoRunsNoValues(m, now, device);
  }

  lemma NoRunsNoValues(m: Metric, now: nat, device: string)
    ensures CurrentEligible([], now) == [] && BaselineEligible([]) == [] && OnDevice([], device) == [] && Values([], m) == []
    ensures Median([]).None?
  {
  }

  /** A latency regression is reported exactly when it is one and, besides, both sides have a throughput median:
      a device without a finite throughput value is not checked for latency either. */
  lemma LatencyNeedsThroughput(device: string, m: Metric, cur: seq<RunPoint>, base: seq<RunPoint>)
    requires m.P99? || m.P999?
    ensures (exists x :: x in CheckDevice(device, cur, base) && x.metric == m)
              <==> (CheckMetric(device, m, cur, base) != [] && Values(cur, Throughput) != [] && Values(base, Throughput) != [])
  {
    hide Values, CheckMetric;
    MetricOf(device, Throughput, cur, base);
    MetricOf(device, P99, cur, base);
    MetricOf(device, P999, cur, base);
    var found := CheckMetric(device, m, cur, base);
    if found != [] && Values(cur, Throughput) != [] && Values(base, Throughput) != [] {
      assert found[0] in found;
      assert found[0] in CheckDevice(device, cur, base);
    }
  }

  // ----- the whole verdict -----

  /** What a breach reports, in terms of the device's own runs: both medians and the exact fraction, over the
      limit of a metric whose baseline is positive, on a device that also has throughput on both sides. */
  ghost predicate IsBreach(x: Breach, cur: seq<RunPoint>, base: seq<RunPoint>) {
    var c, b := OnDevice(cur, x.device), OnDevice(base, x.device);
    && Values(c, Throughput) != [] && Values(b, Throughput) != []
    && Values(c, x.metric) != [] && Values(b, x.metric) != []
    && x.current == Median(Values(c, x.metric)).value
    && x.baseline == Median(Values(b, x.metric)).value > 0.0
    && x.fraction * x.baseline == (if x.metric.Throughput? then x.baseline - x.current else x.current - x.baseline)
    && x.fraction > Limit(x.metric)
  }

  lemma FractionIs(fraction: real, baseline: real, diff: real)
    requires baseline > 0.0
    ensures fraction == diff / baseline <==> fraction * baseline == diff
  {
    if fraction * baseline == diff {
      assert diff / baseline == fraction;
    }
  }

  lemma MetricBreach(x: Breach, device: string, m: Metric, cur: seq<RunPoint>, base: seq<RunPoint>)
    ensures x in CheckMetric(device, m, cur, base) <==>
            && x.device == device && x.metric == m
            && Values(cur, m) != [] && Values(base, m) != []
            && x.current == Median(Values(cur, m)).value
            && x.baseline == Median(Values(base, m)).value > 0.0
            && x.fraction * x.baseline == (if m.Throughput? then x.baseline - x.current else x.current - x.baseline)
            && x.fraction > Limit(m)
  {
    hide Values, Limit, Sort;
    if x.baseline > 0.0 {
      FractionIs(x.fraction, x.baseline, if m.Throughput? then x.baseline - x.current else x.current - x.baseline);
    }
  }

  lemma DeviceBreach(x: Breach, device: string, cur: seq<RunPoint>, base: seq<RunPoint>)
    ensures x in CheckDevice(device, cur, base) <==>
            && Values(cur, Throughput) != [] && Values(base, Throughput) != []
            && x in CheckMetric(device, x.metric, cur, base)
  {
    hide Values, CheckMetric;
    MetricOf(device, Throughput, cur, base);
    MetricOf(device, P99, cur, base);
    MetricOf(device, P999, cur, base);
    var t, p, q := CheckMetric(device, Throughput, cur, base), CheckMetric(device, P99, cur, base), CheckMetric(device, P999, cur, base);
    assert x in t + p + q <==> x in t || x in p || x in q;
    assert x in t || x in p || x in q <==> x in CheckMetric(device, x.metric, cur, base) by {
      match x.metric
      case Throughput => assert x.metric == Throughput;
      case P99 => assert x.metric == P99;
      case P999 => assert x.metric == P999;
    }
  }

  /** The breach list is exact: it holds a breach if and only if the runs make it one. */
  lemma BreachListIsExact(x: Breach, cur: seq<RunPoint>, base: seq<RunPoint>)
    ensures x in AllBreaches(cur, base) <==> IsBreach(x, cur, base)
  {
    hide Values, CheckMetric, CheckDevice, OnDevice, AllBreaches, About, Limit, Median;
    DeviceIsolation(cur, base, x.device);
    AboutHolds(AllBreaches(cur, base), x.device, x);
    NoValues();
    DeviceBreach(x, x.device, OnDevice(cur, x.device), OnDevice(base, x.device));
    MetricBreach(x, x.device, x.metric, OnDevice(cur, x.device), OnDevice(base, x.device));
  }

  lemma NoValues()
    ensures Values([], Throughput) == []
  {
  }

  /** The gate blocks exactly when it was not ratified and the eligible runs hold a breach. */
  lemma BlocksIffBreached(current: seq<RunPoint>, baseline: seq<RunPoint>, now: nat, ratified: Option<string>)
    ensures Evaluate(current, baseline, now, ratified).IsBlocking() <==>
            ratified.None? && exists x :: IsBreach(x, CurrentEligible(current, now), BaselineEligible(baseline))
  {
    hide CurrentEligible, BreachesOf, IsBreach, Devices;
    var cur, base := CurrentEligible(current, now), BaselineEligible(baseline);
    forall x
      ensures x in AllBreaches(cur, base) <==> IsBreach(x, cur, base)
    {
      BreachListIsExact(x, cur, base);
    }
    NoRunsNoBreaches(cur, base);
    assert baseline == [] ==> base == [];
    if AllBreaches(cur, base) != [] {
      assert AllBreaches(cur, base)[0] in AllBreaches(cur, base);
    }
  }

  lemma NoRunsNoBreaches(cur: seq<RunPoint>, base: seq<RunPoint>)
    ensures cur == [] || base == [] ==> AllBreaches(cur, base) == []
  {
    NothingWithoutBaseline(cur, Devices(cur));
  }

  /** The median is the midpoint of the two middle ranks, which coincide for an odd count. */
  lemma MedianIsMidpoint(s: seq<real>)
    requires s != []
    ensures |Sort(s)| == |s|
    ensures Median(s).value * 2.0 == Sort(s)[(|s| - 1) / 2] + Sort(s)[|s| / 2]
  {
    SortOk(s);
  }

  lemma OneRun(r: RunPoint, m: Metric, now: nat)
    ensures Values([r], m) == match Read(r, m) case Finite(x) => [x] case _ => []
    ensures CurrentEligible([r], now) == if InWindow(r, now) then [r] else []
    ensures BaselineEligible([r]) == if r.warmupCovOk then [r] else []
    ensures OnDevice([r], r.device) == [r] && Devices([r]) == [r.device]
  {
    assert [r][1..] == [] && [r][..0] == [];
    One((r: RunPoint) => match Read(r, m) case Finite(x) => [x] case _ => [], r);
    One((r: RunPoint) => if InWindow(r, now) then [r] else [], r);
    One((r: RunPoint) => if r.warmupCovOk then [r] else [], r);
    OnDeviceSnoc([], r, r.device);
    assert [] + [r] == [r] && OnDevice([], r.device) == [];
  }

  lemma One<A, B>(f: A -> seq<B>, x: A)
    ensures FlatMap(f, [x]) == f(x)
  {
    assert [x][1..] == [];
    assert f(x) + [] == f(x);
  }

  /** Such a device exists: its p99 doubled, its throughput was never finite, and the gate passes. */
  lemma UnreportedRegression()
    ensures var base, cur := RunPoint("pi", 0, NaN, Finite(1.0), Finite(1.0), true), RunPoint("pi", 0, NaN, Finite(2.0), Finite(1.0), true);
            CheckMetric("pi", P99, [cur], [base]) != [] && Evaluate([cur], [base], 0, None) == Pass
  {
    var base := RunPoint("pi", 0, NaN, Finite(1.0), Finite(1.0), true);
    var cur := RunPoint("pi", 0, NaN, Finite(2.0), Finite(1.0), true);
    OneRun(base, P99, 0);
    OneRun(cur, P99, 0);
    OneRun(base, Throughput, 0);
    OneRun(cur, Throughput, 0);
    assert Sort([2.0]) == [2.0] && Sort([1.0]) == [1.0];
    BreachesOfSnoc([cur], [base], [], "pi");
    assert [] + ["pi"] == ["pi"];
  }
}
