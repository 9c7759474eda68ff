/** Nearest-rank percentiles of the load generator, over one leg and over merged legs. */
module Percentiles {
  import opened Common
  import opened OrderStats

  function Ceil(x: real): (n: int)
    ensures n as real >= x > (n - 1) as real
  {
    -((-x).Floor)
  }

  /** Nearest rank: ceil(p * n) - 1, clamped into range. */
  function RankIndex(p: real, n: nat): (k: nat)
    requires n > 0
    ensures k < n
    ensures 0.0 < p <= 1.0 ==> k == Ceil(p * n as real) - 1
  {
    var rank := Ceil(p * n as real);
    assert 0.0 < p <= 1.0 ==> 0.0 < p * n as real <= n as real;
    var idx := if rank > 0 then rank - 1 else 0;
    if idx < n then idx else n - 1
  }

  function ToReals(ns: seq<nat>): (s: seq<real>)
    ensures |s| == |ns|
  {
    seq(|ns|, i requires 0 <= i < |ns| => ns[i] as real)
  }

  function SortedSamples(ns: seq<nat>): (v: seq<real>)
    ensures |v| == |ns|
  {
    SortOk(ToReals(ns));
    Sort(ToReals(ns))
  }

  /** The p-quantile of a non-empty sample of nanoseconds, in nanoseconds. */
  function Quantile(p: real, ns: seq<nat>): real
    requires ns != []
  {
    SortedSamples(ns)[RankIndex(p, |ns|)]
  }

  function Largest(ns: seq<nat>): real
    requires ns != []
  {
    SortedSamples(ns)[|ns| - 1]
  }

  function NanosToUs(ns: real): real {
    ns / 1000.0
  }

  datatype Report = Report(p50: real, p99: real, p999: real, max: real)

  function PercentilesUs(ns: seq<nat>): Option<Report> {
    if ns == [] then None
    else Some(Report(NanosToUs(Quantile(0.50, ns)), NanosToUs(Quantile(0.99, ns)),
                     NanosToUs(Quantile(0.999, ns)), NanosToUs(Largest(ns))))
  }

  lemma RankMonotone(p: real, q: real, n: nat)
    requires n > 0 && 0.0 < p <= q <= 1.0
    ensures RankIndex(p, n) <= RankIndex(q, n)
  {
    hide Ceil, RankIndex;
    var x, y := p * n as real, q * n as real;
    RankIs(p, n, x);
    RankIs(q, n, y);
    ScaleMonotone(p, q, n, x, y);
    CeilMonotone(x, y);
  }

  lemma RankIs(p: real, n: nat, x: real)
    requires n > 0 && 0.0 < p <= 1.0 && x == p * n as real
    ensures RankIndex(p, n) == Ceil(x) - 1
  {
  }

  lemma CeilMonotone(x: real, y: real)
    requires x <= y
    ensures Ceil(x) <= Ceil(y)
  {
  }

  lemma ScaleMonotone(p: real, q: real, n: nat, x: real, y: real)
    requires p <= q && x == p * n as real && y == q * n as real
    ensures x <= y
  {
    assert (q - p) * n as real >= 0.0;
  }

  lemma QuantileMonotone(p: real, q: real, ns: seq<nat>)
    requires ns != [] && 0.0 < p <= q <= 1.0
    ensures Quantile(p, ns) <= Quantile(q, ns) <= Largest(ns)
  {
    hide RankIndex, Sort, ToReals;
    RankMonotone(p, q, |ns|);
    SortOk(ToReals(ns));
  }

  /** p50 <= p99 <= p999 <= max, and the maximum is the largest sample. */
  lemma ReportOrdered(ns: seq<nat>)
    requires ns != []
    ensures var r := PercentilesUs(ns).value; r.p50 <= r.p99 <= r.p999 <= r.max
    ensures forall i :: 0 <= i < |ns| ==> ns[i] as real <= Largest(ns)
    ensures exists i :: 0 <= i < |ns| && ns[i] as real == Largest(ns)
  {
    QuantileMonotone(0.50, 0.99, ns);
    QuantileMonotone(0.99, 0.999, ns);
    var s := ToReals(ns);
    SortOk(s);
    forall i | 0 <= i < |ns|
      ensures ns[i] as real <= Largest(ns)
    {
      assert s[i] in multiset(Sort(s));
    }
    assert Largest(ns) in multiset(s);
  }

  /** What a quantile means: at least ceil(p*n) samples lie at or below it, fewer lie strictly below. */
  lemma QuantileByCount(p: real, ns: seq<nat>, t: real)
    requires ns != [] && 0.0 < p <= 1.0
    ensures Quantile(p, ns) <= t <==> CountLe(ToReals(ns), t) >= Ceil(p * |ns| as real)
    ensures Quantile(p, ns) < t <==> CountLt(ToReals(ns), t) >= Ceil(p * |ns| as real)
  {
    RankByCount(ToReals(ns), RankIndex(p, |ns|), t);
  }

  /** What the report says: each percentile is at or below a time exactly when at least that part of the samples
      is, and the maximum exactly when all are. */
  lemma ReportByCount(ns: seq<nat>, t: real)
    requires ns != []
    ensures var r, s, n := PercentilesUs(ns).value, ToReals(ns), |ns| as real;
            && (r.p50 <= t <==> CountLe(s, t * 1000.0) as real >= 0.50 * n)
            && (r.p99 <= t <==> CountLe(s, t * 1000.0) as real >= 0.99 * n)
            && (r.p999 <= t <==> CountLe(s, t * 1000.0) as real >= 0.999 * n)
            && (r.max <= t <==> forall i :: 0 <= i < |ns| ==> ns[i] as real <= t * 1000.0)
  {
    hide Quantile, CountLe, CountLt, Largest, ToReals;
    PercentileUs(0.50, ns, t);
    PercentileUs(0.99, ns, t);
    PercentileUs(0.999, ns, t);
    ReportOrdered(ns);
  }

  lemma PercentileUs(p: real, ns: seq<nat>, t: real)
    requires ns != [] && 0.0 < p <= 1.0
    ensures NanosToUs(Quantile(p, ns)) <= t <==> CountLe(ToReals(ns), t * 1000.0) as real >= p * |ns| as real
  {
    hide Quantile, CountLe, CountLt, ToReals;
    QuantileByCount(p, ns, t * 1000.0);
    CeilAbove(CountLe(ToReals(ns), t * 1000.0), p * |ns| as real);
  }

  // ----- merged legs -----

  /** The legs' samples, concatenated. */
  function Merge(legs: seq<seq<nat>>): seq<nat> {
    if legs == [] then [] else legs[0] + Merge(legs[1..])
  }

  lemma MergeStep(legs: seq<seq<nat>>, t: real)
    requires legs != []
    ensures |Merge(legs)| == |legs[0]| + |Merge(legs[1..])|
    ensures CountLe(ToReals(Merge(legs)), t) == CountLe(ToReals(legs[0]), t) + CountLe(ToReals(Merge(legs[1..])), t)
    ensures CountLt(ToReals(Merge(legs)), t) == CountLt(ToReals(legs[0]), t) + CountLt(ToReals(Merge(legs[1..])), t)
  {
    assert ToReals(Merge(legs)) == ToReals(legs[0]) + ToReals(Merge(legs[1..]));
    CountAppend(ToReals(legs[0]), ToReals(Merge(legs[1..])), t);
  }

  lemma MergeNothing(t: real)
    ensures Merge([]) == [] && CountLe(ToReals([]), t) == 0 && CountLt(ToReals([]), t) == 0
  {
  }

  /** If every leg's quantile is strictly below t, at least p of all samples are. */
  lemma {:induction false} LowLegs(p: real, legs: seq<seq<nat>>, t: real)
    requires 0.0 < p <= 1.0
    requires forall i :: 0 <= i < |legs| && legs[i] != [] ==> Quantile(p, legs[i]) < t
    ensures CountLt(ToReals(Merge(legs)), t) as real >= p * |Merge(legs)| as real
  {
    hide Quantile, ToReals, CountLe, CountLt, Merge;
    MergeNothing(t);
    if legs != [] {
      LowLegs(p, legs[1..], t);
      MergeStep(legs, t);
      if legs[0] != [] {
        QuantileByCount(p, legs[0], t);
      }
      Distribute(p, |legs[0]|, |Merge(legs[1..])|);
    }
  }

  /** If every leg's quantile is strictly above t, fewer than p of all samples are at or below t. */
  lemma {:induction false} HighLegs(p: real, legs: seq<seq<nat>>, t: real)
    requires 0.0 < p <= 1.0
    requires forall i :: 0 <= i < |legs| && legs[i] != [] ==> t < Quantile(p, legs[i])
    ensures CountLe(ToReals(Merge(legs)), t) as real <= p * |Merge(legs)| as real
    ensures Merge(legs) != [] ==> CountLe(ToReals(Merge(legs)), t) as real < p * |Merge(legs)| as real
  {
    hide Quantile, ToReals, CountLe, CountLt, Merge;
    MergeNothing(t);
    if legs != [] {
      HighLegs(p, legs[1..], t);
      MergeStep(legs, t);
      if legs[0] != [] {
        QuantileByCount(p, legs[0], t);
      }
      Distribute(p, |legs[0]|, |Merge(legs[1..])|);
    }
  }

  lemma Distribute(p: real, a: nat, b: nat)
    ensures p * (a + b) as real == p * a as real + p * b as real
  {
  }

  lemma CeilAbove(c: int, x: real)
    ensures c >= Ceil(x) <==> c as real >= x
  {
  }

  /** Merged percentile law: the percentile of the concatenated samples lies between the smallest and the
      largest percentile of the non-empty legs. */
  lemma MergedQuantile(p: real, legs: seq<seq<nat>>)
    requires 0.0 < p <= 1.0 && Merge(legs) != []
    ensures exists i :: 0 <= i < |legs| && legs[i] != [] && Quantile(p, legs[i]) <= Quantile(p, Merge(legs))
    ensures exists i :: 0 <= i < |legs| && legs[i] != [] && Quantile(p, Merge(legs)) <= Quantile(p, legs[i])
  {
    hide Quantile, ToReals, CountLe, CountLt, Merge;
    var t := Quantile(p, Merge(legs));
    QuantileByCount(p, Merge(legs), t);
    CeilAbove(CountLe(ToReals(Merge(legs)), t), p * |Merge(legs)| as real);
    CeilAbove(CountLt(ToReals(Merge(legs)), t), p * |Merge(legs)| as real);
    if forall i :: 0 <= i < |legs| && legs[i] != [] ==> Quantile(p, legs[i]) < t {
      LowLegs(p, legs, t);
    }
    if forall i :: 0 <= i < |legs| && legs[i] != [] ==> t < Quantile(p, legs[i]) {
      HighLegs(p, legs, t);
    }
  }
}
