/** src/validation/validate_calculations.py, analyze_scaling_performance:
    grouping by model/batch combination and then by core count, averaging each
    core count, and scaling metrics relative to the 1-core average. */
module Scaling {
  import opened Wrappers
  import opened Records
  import opened Numeric
  import opened Text
  import opened Peaks

  // ---------------------------------------------------------------------------
  // Combination keys

  /** `f"{model}_batch{batch}"` with the defaults "unknown" and 1. */
  function ComboKey(m: Measurement): string
  {
    ModelOf(m) + "_batch" + IntToString(BatchOf(m))
  }

  /** Two measurements share a combination key exactly when they agree on model
      and batch size, even if a model name itself contains "_batch". */
  lemma ComboKeyInjective(a: Measurement, b: Measurement)
    ensures ComboKey(a) == ComboKey(b) <==> ModelOf(a) == ModelOf(b) && BatchOf(a) == BatchOf(b)
  {
    var ba, bb := IntToString(BatchOf(a)), IntToString(BatchOf(b));
    IntToStringInjective(BatchOf(a), BatchOf(b));
    assert ComboKey(a) == ModelOf(a) + ['_'] + ("batch" + ba);
    assert ComboKey(b) == ModelOf(b) + ['_'] + ("batch" + bb);
    if ComboKey(a) == ComboKey(b) {
      StripTag(ModelOf(a), "batch", ba, ModelOf(b), bb);
    }
  }

  // ---------------------------------------------------------------------------
  // The nested grouping (scaling_analysis)

  /** `scaling_analysis[key][cores]`: the measurements appended under one core count. */
  datatype CoreBucket = CoreBucket(cores: int, members: seq<Measurement>)

  /** `scaling_analysis[key]`: the core-count dictionary of one combination,
      as its entries in insertion order. */
  datatype Combo = Combo(key: string, buckets: seq<CoreBucket>)

  predicate Distinct<T(==)>(s: seq<T>)
  {
    forall i, j :: 0 <= i < j < |s| ==> s[i] != s[j]
  }

  /** The core counts of a combination, in insertion order. */
  function CoreCounts(bs: seq<CoreBucket>): (r: seq<int>)
    ensures |r| == |bs| && forall i :: 0 <= i < |bs| ==> r[i] == bs[i].cores
  {
    seq(|bs|, i requires 0 <= i < |bs| => bs[i].cores)
  }

  /** The combination keys, in insertion order. */
  function ComboKeys(cs: seq<Combo>): (r: seq<string>)
    ensures |r| == |cs| && forall i :: 0 <= i < |cs| ==> r[i] == cs[i].key
  {
    seq(|cs|, i requires 0 <= i < |cs| => cs[i].key)
  }

  /** `if cores not in d: d[cores] = []` followed by `d[cores].append(m)`. */
  function AddToBuckets(bs: seq<CoreBucket>, m: Measurement): seq<CoreBucket>
    decreases |bs|
  {
    if bs == [] then [CoreBucket(CoresOf(m), [m])]
    else if bs[0].cores == CoresOf(m) then [CoreBucket(bs[0].cores, bs[0].members + [m])] + bs[1..]
    else [bs[0]] + AddToBuckets(bs[1..], m)
  }

  /** One iteration of the grouping loop: the same two-step insertion one level up. */
  function AddToCombos(cs: seq<Combo>, m: Measurement): seq<Combo>
    decreases |cs|
  {
    if cs == [] then [Combo(ComboKey(m), AddToBuckets([], m))]
    else if cs[0].key == ComboKey(m) then [Combo(cs[0].key, AddToBuckets(cs[0].buckets, m))] + cs[1..]
    else [cs[0]] + AddToCombos(cs[1..], m)
  }

  /** scaling_analysis after the loop over `ms`. */
  function GroupByCombo(ms: seq<Measurement>): seq<Combo>
    decreases |ms|
  {
    if ms == [] then [] else AddToCombos(GroupByCombo(ms[..|ms| - 1]), ms[|ms| - 1])
  }

  /** `d.get(cores, [])` on a core-count dictionary. */
  function BucketMembers(bs: seq<CoreBucket>, c: int): seq<Measurement>
    decreases |bs|
  {
    if bs == [] then [] else if bs[0].cores == c then bs[0].members else BucketMembers(bs[1..], c)
  }

  /** `scaling_analysis.get(key, {})`. */
  function ComboBuckets(cs: seq<Combo>, k: string): seq<CoreBucket>
    decreases |cs|
  {
    if cs == [] then [] else if cs[0].key == k then cs[0].buckets else ComboBuckets(cs[1..], k)
  }

  /** The measurements of `ms` with combination key `k` and core count `c`, in input order. */
  function Select(ms: seq<Measurement>, k: string, c: int): seq<Measurement>
    decreases |ms|
  {
    if ms == [] then []
    else
      var m := ms[|ms| - 1];
      Select(ms[..|ms| - 1], k, c) + (if ComboKey(m) == k && CoresOf(m) == c then [m] else [])
  }

  lemma {:induction false} SelectMembers(ms: seq<Measurement>, k: string, c: int, m: Measurement)
    ensures m in Select(ms, k, c) <==> m in ms && ComboKey(m) == k && CoresOf(m) == c
    decreases |ms|
  {
    if ms != [] {
      var ms' := ms[..|ms| - 1];
      assert ms == ms' + [ms[|ms| - 1]];
      SelectMembers(ms', k, c, m);
    }
  }

  /** A core dictionary: distinct core counts, and no empty bucket. */
  predicate GoodBuckets(bs: seq<CoreBucket>)
  {
    Distinct(CoreCounts(bs)) && forall j :: 0 <= j < |bs| ==> bs[j].members != []
  }

  /** Distinct keys at both levels, no combination without a core count, and
      no empty core bucket. */
  predicate CombosWellFormed(cs: seq<Combo>)
  {
    Distinct(ComboKeys(cs)) && forall i :: 0 <= i < |cs| ==> cs[i].buckets != [] && GoodBuckets(cs[i].buckets)
  }

  /** Adding to a core dictionary keeps its core counts in order and lists
      the measurement's core count at the end when it is new. */
  lemma {:induction false} AddToBucketsCounts(bs: seq<CoreBucket>, m: Measurement)
    ensures CoreCounts(AddToBuckets(bs, m)) ==
      CoreCounts(bs) + (if CoresOf(m) in CoreCounts(bs) then [] else [CoresOf(m)])
    decreases |bs|
  {
    var r := AddToBuckets(bs, m);
    if bs == [] {
      assert CoreCounts(r) == [CoresOf(m)];
    } else if bs[0].cores != CoresOf(m) {
      AddToBucketsCounts(bs[1..], m);
      CoreCountsCons(bs[0], bs[1..]);
      CoreCountsCons(bs[0], AddToBuckets(bs[1..], m));
      assert bs == [bs[0]] + bs[1..];
    } else {
      assert |r| == |bs|;
      forall i | 0 <= i < |bs| ensures CoreCounts(r)[i] == CoreCounts(bs)[i] {
        if i > 0 {
          assert r[i] == bs[i];
        }
      }
      assert CoreCounts(r) == CoreCounts(bs);
      assert CoreCounts(bs)[0] == CoresOf(m);
    }
  }

  lemma CoreCountsCons(b: CoreBucket, bs: seq<CoreBucket>)
    ensures CoreCounts([b] + bs) == [b.cores] + CoreCounts(bs)
  {
    assert forall i :: 0 < i <= |bs| ==> ([b] + bs)[i] == bs[i - 1];
  }

  /** Adding to a core dictionary appends the measurement to the bucket of its
      core count and to no other. */
  lemma {:induction false} AddToBucketsMembers(bs: seq<CoreBucket>, m: Measurement, c: int)
    ensures BucketMembers(AddToBuckets(bs, m), c) == BucketMembers(bs, c) + (if CoresOf(m) == c then [m] else [])
    decreases |bs|
  {
    if bs != [] && bs[0].cores != CoresOf(m) {
      AddToBucketsMembers(bs[1..], m, c);
    }
  }

  /** Adding to a core dictionary never leaves an empty bucket. */
  lemma {:induction false} AddToBucketsNonEmpty(bs: seq<CoreBucket>, m: Measurement)
    requires forall j :: 0 <= j < |bs| ==> bs[j].members != []
    ensures forall j :: 0 <= j < |AddToBuckets(bs, m)| ==> AddToBuckets(bs, m)[j].members != []
    decreases |bs|
  {
    if bs != [] && bs[0].cores != CoresOf(m) {
      AddToBucketsNonEmpty(bs[1..], m);
    }
  }

  lemma DistinctSnoc<T>(s: seq<T>, x: T)
    requires Distinct(s)
    ensures Distinct(s + (if x in s then [] else [x]))
  {
  }

  /** Adding to the combinations keeps the keys in order and lists the
      measurement's key at the end when it is new. */
  lemma {:induction false} AddToCombosKeys(cs: seq<Combo>, m: Measurement)
    ensures ComboKeys(AddToCombos(cs, m)) ==
      ComboKeys(cs) + (if ComboKey(m) in ComboKeys(cs) then [] else [ComboKey(m)])
    decreases |cs|
  {
    var r := AddToCombos(cs, m);
    if cs == [] {
      assert ComboKeys(r) == [ComboKey(m)];
    } else if cs[0].key != ComboKey(m) {
      AddToCombosKeys(cs[1..], m);
      ComboKeysCons(cs[0], cs[1..]);
      ComboKeysCons(cs[0], AddToCombos(cs[1..], m));
      assert cs == [cs[0]] + cs[1..];
    } else {
      assert |r| == |cs|;
      forall i | 0 <= i < |cs| ensures ComboKeys(r)[i] == ComboKeys(cs)[i] {
        if i > 0 {
          assert r[i] == cs[i];
        }
      }
      assert ComboKeys(r) == ComboKeys(cs);
      assert ComboKeys(cs)[0] == ComboKey(m);
    }
  }

  lemma ComboKeysCons(c: Combo, cs: seq<Combo>)
    ensures ComboKeys([c] + cs) == [c.key] + ComboKeys(cs)
  {
    assert forall i :: 0 < i <= |cs| ==> ([c] + cs)[i] == cs[i - 1];
  }

  /** Adding to the combinations adds to the core dictionary of the
      measurement's own key and leaves every other key's alone. */
  lemma {:induction false} AddToCombosBuckets(cs: seq<Combo>, m: Measurement, k: string)
    ensures ComboBuckets(AddToCombos(cs, m), k) ==
      if ComboKey(m) == k then AddToBuckets(ComboBuckets(cs, k), m) else ComboBuckets(cs, k)
    decreases |cs|
  {
    if cs != [] && cs[0].key != ComboKey(m) {
      AddToCombosBuckets(cs[1..], m, k);
    }
  }

  /** Every entry after adding is either the measurement's own, updated, or an
      entry from before. */
  lemma {:induction false} AddToCombosEntries(cs: seq<Combo>, m: Measurement)
    ensures forall i :: 0 <= i < |AddToCombos(cs, m)| ==>
      (AddToCombos(cs, m)[i].key == ComboKey(m) && AddToCombos(cs, m)[i].buckets == AddToBuckets(ComboBuckets(cs, ComboKey(m)), m))
      || (AddToCombos(cs, m)[i] in cs)
    decreases |cs|
  {
    if cs != [] && cs[0].key != ComboKey(m) {
      AddToCombosEntries(cs[1..], m);
      var r := AddToCombos(cs, m);
      forall i | 0 <= i < |r|
        ensures (r[i].key == ComboKey(m) && r[i].buckets == AddToBuckets(ComboBuckets(cs, ComboKey(m)), m)) || r[i] in cs
      {
        if i > 0 {
          assert r[i] == AddToCombos(cs[1..], m)[i - 1];
        }
      }
    }
  }

  lemma {:induction false} ComboBucketsGood(cs: seq<Combo>, k: string)
    requires forall i :: 0 <= i < |cs| ==> GoodBuckets(cs[i].buckets)
    ensures GoodBuckets(ComboBuckets(cs, k))
    decreases |cs|
  {
    if cs != [] && cs[0].key != k {
      ComboBucketsGood(cs[1..], k);
    }
  }

  /** The grouping is an insertion-ordered two-level dictionary, and the bucket
      for key `k` and core count `c` holds exactly the measurements with that
      key and core count, in input order. */
  lemma {:induction false} GroupByComboFacts(ms: seq<Measurement>)
    ensures CombosWellFormed(GroupByCombo(ms))
    ensures forall k, c :: BucketMembers(ComboBuckets(GroupByCombo(ms), k), c) == Select(ms, k, c)
    decreases |ms|
  {
    if ms != [] {
      var ms' := ms[..|ms| - 1];
      var m := ms[|ms| - 1];
      GroupByComboFacts(ms');
      var cs := GroupByCombo(ms');
      AddToCombosKeys(cs, m);
      AddToCombosEntries(cs, m);
      var old' := ComboBuckets(cs, ComboKey(m));
      ComboBucketsGood(cs, ComboKey(m));
      AddToBucketsCounts(old', m);
      AddToBucketsNonEmpty(old', m);
      DistinctSnoc(CoreCounts(old'), CoresOf(m));
      DistinctSnoc(ComboKeys(cs), ComboKey(m));
      forall k, c ensures BucketMembers(ComboBuckets(GroupByCombo(ms), k), c) == Select(ms, k, c) {
        AddToCombosBuckets(cs, m, k);
        if k == ComboKey(m) {
          AddToBucketsMembers(old', m, c);
        }
      }
    }
  }

  /** With distinct keys, looking up the key of an entry finds that entry. */
  lemma {:induction false} ComboBucketsAt(cs: seq<Combo>, j: nat)
    requires Distinct(ComboKeys(cs)) && j < |cs|
    ensures ComboBuckets(cs, cs[j].key) == cs[j].buckets
    decreases |cs|
  {
    if j > 0 {
      assert ComboKeys(cs[1..]) == ComboKeys(cs)[1..];
      assert cs[0].key == ComboKeys(cs)[0] != ComboKeys(cs)[j] == cs[j].key;
      ComboBucketsAt(cs[1..], j - 1);
    }
  }

  lemma {:induction false} BucketMembersAt(bs: seq<CoreBucket>, q: nat)
    requires Distinct(CoreCounts(bs)) && q < |bs|
    ensures BucketMembers(bs, bs[q].cores) == bs[q].members
    decreases |bs|
  {
    if q > 0 {
      assert CoreCounts(bs[1..]) == CoreCounts(bs)[1..];
      assert bs[0].cores == CoreCounts(bs)[0] != CoreCounts(bs)[q] == bs[q].cores;
      BucketMembersAt(bs[1..], q - 1);
    }
  }

  /** A key is listed exactly when its lookup finds some core count. */
  lemma {:induction false} ComboBucketsListed(cs: seq<Combo>, k: string)
    requires forall i :: 0 <= i < |cs| ==> cs[i].buckets != []
    ensures ComboBuckets(cs, k) != [] <==> k in ComboKeys(cs)
    decreases |cs|
  {
    if cs != [] && cs[0].key != k {
      ComboBucketsListed(cs[1..], k);
      assert ComboKeys(cs) == [cs[0].key] + ComboKeys(cs[1..]);
    }
  }

  /** A core count is listed exactly when its bucket has members. */
  lemma {:induction false} BucketMembersListed(bs: seq<CoreBucket>, c: int)
    requires forall j :: 0 <= j < |bs| ==> bs[j].members != []
    ensures BucketMembers(bs, c) != [] <==> c in CoreCounts(bs)
    decreases |bs|
  {
    if bs != [] && bs[0].cores != c {
      BucketMembersListed(bs[1..], c);
      assert CoreCounts(bs) == [bs[0].cores] + CoreCounts(bs[1..]);
    }
  }

  /** Some measurement has key `k` and core count `c`. */
  ghost predicate Occurs(ms: seq<Measurement>, k: string, c: int)
  {
    exists i :: 0 <= i < |ms| && ComboKey(ms[i]) == k && CoresOf(ms[i]) == c
  }

  /** The core counts listed for key `k` are those its measurements carry. */
  lemma CoreCountsOfKey(ms: seq<Measurement>, k: string, c: int)
    ensures var bs := ComboBuckets(GroupByCombo(ms), k);
      c in CoreCounts(bs) <==> Occurs(ms, k, c)
  {
    GroupByComboFacts(ms);
    var bs := ComboBuckets(GroupByCombo(ms), k);
    ComboBucketsGood(GroupByCombo(ms), k);
    BucketMembersListed(bs, c);
    if Occurs(ms, k, c) {
      var i :| 0 <= i < |ms| && ComboKey(ms[i]) == k && CoresOf(ms[i]) == c;
      SelectMembers(ms, k, c, ms[i]);
    }
    if c in CoreCounts(bs) {
      var m := Select(ms, k, c)[0];
      SelectMembers(ms, k, c, m);
    }
  }

  // ---------------------------------------------------------------------------
  // Averages and scaling metrics

  /** `core_performance[cores]`. */
  datatype CorePerformance = CorePerformance(
    avgThroughput: real, avgPower: real, avgEfficiency: real, measurementCount: nat)

  /** `scaling_metrics[cores]`. */
  datatype ScalingMetric = ScalingMetric(
    scalingFactor: real, scalingEfficiencyPercent: real, throughputImprovement: real)

  /** `scaling_results[combo_key]`, both dictionaries as entries in insertion order. */
  datatype ComboResult = ComboResult(
    corePerformance: seq<(int, CorePerformance)>,
    scalingMetrics: seq<(int, Option<ScalingMetric>)>)

  /** The averages of one core bucket. */
  function Performance(g: seq<Measurement>): CorePerformance
    requires g != []
  {
    CorePerformance(Mean(Values(g, ThroughputField)), Mean(Values(g, PowerField)),
                    Mean(Values(g, EfficiencyField)), |g|)
  }

  /** `core_performance` for a combination, in core-count insertion order. */
  function Performances(bs: seq<CoreBucket>): (r: seq<(int, CorePerformance)>)
    requires forall j :: 0 <= j < |bs| ==> bs[j].members != []
    ensures |r| == |bs|
  {
    seq(|bs|, j requires 0 <= j < |bs| && bs[j].members != [] => (bs[j].cores, Performance(bs[j].members)))
  }

  /** `core_performance[1]["avg_throughput"]` when `1 in core_performance`. */
  function Baseline(perfs: seq<(int, CorePerformance)>): Option<real>
    decreases |perfs|
  {
    if perfs == [] then None
    else if perfs[0].0 == 1 then Some(perfs[0].1.avgThroughput)
    else Baseline(perfs[1..])
  }

  /** The metrics of a core count relative to the baseline throughput. numpy
      divides a float64 by a zero baseline into inf or nan without raising;
      None stands for that non-finite result. */
  function ScaleMetric(avg: real, baseline: real, cores: int): Option<ScalingMetric>
    requires cores > 1
  {
    if baseline == 0.0 then None
    else
      var factor := avg / baseline;
      Some(ScalingMetric(factor, factor / cores as real * 100.0, (factor - 1.0) * 100.0))
  }

  /** The factor multiplies the baseline back to the average; the efficiency is
      the factor per core in percent, so linear speed-up is exactly 100%; the
      improvement is the gain over the baseline in percent. */
  lemma ScaleMetricMeaning(avg: real, baseline: real, cores: int)
    requires cores > 1
    ensures ScaleMetric(avg, baseline, cores).None? <==> baseline == 0.0
    ensures ScaleMetric(avg, baseline, cores).Some? ==>
      var s := ScaleMetric(avg, baseline, cores).value;
      && s.scalingFactor * baseline == avg
      && s.scalingEfficiencyPercent * cores as real == s.scalingFactor * 100.0
      && s.throughputImprovement == s.scalingFactor * 100.0 - 100.0
      && (avg == cores as real * baseline ==> s.scalingEfficiencyPercent == 100.0)
      && (s.throughputImprovement > 0.0 <==> s.scalingFactor > 1.0)
  {
    if baseline != 0.0 {
      var factor := avg / baseline;
      var c := cores as real;
      assert factor * baseline == avg;
      assert factor / c * 100.0 * c == factor * 100.0;
      if avg == c * baseline {
        assert factor == c;
      }
    }
  }

  /** `scaling_metrics`: one entry per core count above 1, in insertion order. */
  function Metrics(perfs: seq<(int, CorePerformance)>, baseline: real): seq<(int, Option<ScalingMetric>)>
    decreases |perfs|
  {
    if perfs == [] then []
    else
      var last := perfs[|perfs| - 1];
      Metrics(perfs[..|perfs| - 1], baseline)
        + (if last.0 > 1 then [(last.0, ScaleMetric(last.1.avgThroughput, baseline, last.0))] else [])
  }

  /** A metric entry exists for a core count exactly when it is above 1 and
      has an average, and it is that average scaled against the baseline. */
  lemma {:induction false} MetricsExactlyAboveOne(perfs: seq<(int, CorePerformance)>, baseline: real, c: int, x: Option<ScalingMetric>)
    ensures (c, x) in Metrics(perfs, baseline) <==>
      c > 1 && exists p :: (c, p) in perfs && x == ScaleMetric(p.avgThroughput, baseline, c)
    decreases |perfs|
  {
    if perfs != [] {
      var init := perfs[..|perfs| - 1];
      assert perfs == init + [perfs[|perfs| - 1]];
      MetricsExactlyAboveOne(init, baseline, c, x);
    }
  }

  /** A combination with at least two core counts and a 1-core bucket. */
  predicate Qualifies(c: Combo)
  {
    |c.buckets| >= 2 && 1 in CoreCounts(c.buckets)
  }

  /** A combination with at least two core counts whose measurements lack one
      of the fields read with `m[...]`. */
  predicate RaisesKeyError(c: Combo)
  {
    |c.buckets| >= 2 && exists j :: 0 <= j < |c.buckets| && !AllComplete(c.buckets[j].members)
  }

  /** `scaling_results[combo_key]` for a combination with a 1-core bucket. */
  function ResultOf(c: Combo): ComboResult
    requires forall j :: 0 <= j < |c.buckets| ==> c.buckets[j].members != []
  {
    var perfs := Performances(c.buckets);
    ComboResult(perfs, Metrics(perfs, Baseline(perfs).GetOr(0.0)))
  }

  /** Every combination of `cs` is a core dictionary without empty buckets. */
  predicate AllGood(cs: seq<Combo>)
  {
    forall c :: c in cs ==> GoodBuckets(c.buckets)
  }

  /** `scaling_results` for the combinations `cs`, in their insertion order. */
  function ScalingResults(cs: seq<Combo>): seq<(string, ComboResult)>
    requires AllGood(cs)
    decreases |cs|
  {
    if cs == [] then []
    else
      var c := cs[|cs| - 1];
      assert forall d :: d in cs[..|cs| - 1] ==> d in cs;
      ScalingResults(cs[..|cs| - 1]) + (if Qualifies(c) then [(c.key, ResultOf(c))] else [])
  }

  /** analyze_scaling_performance without its printing. */
  function AnalyzeScaling(ms: seq<Measurement>): Result<seq<(string, ComboResult)>, PyError>
  {
    GroupByComboFacts(ms);
    var cs := GroupByCombo(ms);
    if exists i :: 0 <= i < |cs| && RaisesKeyError(cs[i]) then Err(KeyError) else Ok(ScalingResults(cs))
  }

  /** A bucket's averages lie between the smallest and largest of its values. */
  lemma PerformanceBounds(g: seq<Measurement>)
    requires g != []
    ensures Performance(g).measurementCount == |g|
    ensures Min(Values(g, ThroughputField)) <= Performance(g).avgThroughput <= Max(Values(g, ThroughputField))
    ensures Min(Values(g, PowerField)) <= Performance(g).avgPower <= Max(Values(g, PowerField))
    ensures Min(Values(g, EfficiencyField)) <= Performance(g).avgEfficiency <= Max(Values(g, EfficiencyField))
  {
    MeanBetweenMinAndMax(Values(g, ThroughputField));
    MeanBetweenMinAndMax(Values(g, PowerField));
    MeanBetweenMinAndMax(Values(g, EfficiencyField));
  }

  lemma PerformancesCons(bs: seq<CoreBucket>)
    requires bs != [] && forall j :: 0 <= j < |bs| ==> bs[j].members != []
    ensures Performances(bs)[0] == (bs[0].cores, Performance(bs[0].members))
    ensures Performances(bs)[1..] == Performances(bs[1..])
  {
  }

  /** `1 in core_performance` exactly when there is a 1-core bucket, and the
      baseline is that bucket's average throughput. */
  lemma {:induction false} BaselineIsOneCore(bs: seq<CoreBucket>)
    requires forall j :: 0 <= j < |bs| ==> bs[j].members != []
    ensures Baseline(Performances(bs)).Some? <==> 1 in CoreCounts(bs)
    ensures Baseline(Performances(bs)).Some? ==>
      BucketMembers(bs, 1) != [] && Baseline(Performances(bs)).value == Performance(BucketMembers(bs, 1)).avgThroughput
    decreases |bs|
  {
    if bs != [] {
      assert CoreCounts(bs) == [bs[0].cores] + CoreCounts(bs[1..]);
      PerformancesCons(bs);
      if bs[0].cores != 1 {
        BaselineIsOneCore(bs[1..]);
      }
    }
  }

  // ---------------------------------------------------------------------------
  // The analysis loops

  /** The loop filling `core_performance`, which raises KeyError at the first
      measurement lacking a field read with `m[...]`. */
  method CorePerformanceOf(bs: seq<CoreBucket>) returns (r: Result<seq<(int, CorePerformance)>, PyError>)
    requires forall j :: 0 <= j < |bs| ==> bs[j].members != []
    ensures r.Err? <==> exists j :: 0 <= j < |bs| && !AllComplete(bs[j].members)
    ensures r.Err? ==> r.error == KeyError
    ensures r.Ok? ==> r.value == Performances(bs)
  {
    var perfs: seq<(int, CorePerformance)> := [];
    for j := 0 to |bs|
      invariant perfs == Performances(bs)[..j]
      invariant forall q :: 0 <= q < j ==> AllComplete(bs[q].members)
    {
      if !AllComplete(bs[j].members) {
        return Err(KeyError);
      }
      perfs := perfs + [(bs[j].cores, Performance(bs[j].members))];
    }
    assert Performances(bs)[..|bs|] == Performances(bs);
    return Ok(perfs);
  }

  /** The loop filling `scaling_metrics`. */
  method MetricsOf(perfs: seq<(int, CorePerformance)>, baseline: real) returns (metrics: seq<(int, Option<ScalingMetric>)>)
    ensures metrics == Metrics(perfs, baseline)
  {
    metrics := [];
    for q := 0 to |perfs|
      invariant metrics == Metrics(perfs[..q], baseline)
    {
      assert perfs[..q + 1][..q] == perfs[..q];
      var (cores, perf) := perfs[q];
      if cores > 1 {
        var metric: Option<ScalingMetric> := None;
        if baseline != 0.0 {
          var factor := perf.avgThroughput / baseline;
          metric := Some(ScalingMetric(factor, factor / cores as real * 100.0, (factor - 1.0) * 100.0));
        }
        metrics := metrics + [(cores, metric)];
      }
    }
    assert perfs[..|perfs|] == perfs;
  }

  /** The grouping loop of analyze_scaling_performance. */
  method GroupCombos(ms: seq<Measurement>) returns (combos: seq<Combo>)
    ensures combos == GroupByCombo(ms)
  {
    combos := [];
    for i := 0 to |ms|
      invariant combos == GroupByCombo(ms[..i])
    {
      assert ms[..i + 1][..i] == ms[..i];
      combos := AddToCombos(combos, ms[i]);
    }
    assert ms[..|ms|] == ms;
  }

  /** One more combination extends the results by its entry, if it has one. */
  lemma ScalingResultsSnoc(cs: seq<Combo>, j: nat)
    requires j < |cs| && AllGood(cs)
    ensures GoodBuckets(cs[j].buckets)
    ensures var perfs := Performances(cs[j].buckets);
      ScalingResults(cs[..j + 1]) == ScalingResults(cs[..j])
        + (if |cs[j].buckets| >= 2 && Baseline(perfs).Some?
           then [(cs[j].key, ComboResult(perfs, Metrics(perfs, Baseline(perfs).value)))] else [])
  {
    assert cs[..j + 1][..j] == cs[..j];
    assert GoodBuckets(cs[j].buckets);
    BaselineIsOneCore(cs[j].buckets);
  }

  /** None of the first `n` combinations raises KeyError. */
  ghost predicate NoKeyErrorBefore(cs: seq<Combo>, n: nat)
  {
    forall i :: 0 <= i < n && i < |cs| ==> !RaisesKeyError(cs[i])
  }

  lemma NoKeyErrorSnoc(cs: seq<Combo>, n: nat)
    requires NoKeyErrorBefore(cs, n) && n < |cs| && !RaisesKeyError(cs[n])
    ensures NoKeyErrorBefore(cs, n + 1)
  {
  }

  /** A well-formed grouping has no empty core bucket anywhere. */
  lemma GroupedBucketsGood(ms: seq<Measurement>)
    ensures AllGood(GroupByCombo(ms))
  {
    GroupByComboFacts(ms);
  }

  /** analyze_scaling_performance: group, then average and scale every
      combination with at least two core counts and a 1-core bucket. */
  method AnalyzeScalingPerformance(ms: seq<Measurement>) returns (r: Result<seq<(string, ComboResult)>, PyError>)
    ensures r == AnalyzeScaling(ms)
  {
    var combos := GroupCombos(ms);
    GroupedBucketsGood(ms);
    var results: seq<(string, ComboResult)> := [];
    for j := 0 to |combos|
      invariant results == ScalingResults(combos[..j])
      invariant NoKeyErrorBefore(combos, j)
    {
      ScalingResultsSnoc(combos, j);
      var combo := combos[j];
      if |combo.buckets| < 2 {
        NoKeyErrorSnoc(combos, j);
        continue;
      }
      var perfsOrError := CorePerformanceOf(combo.buckets);
      if perfsOrError.Err? {
        assert RaisesKeyError(combos[j]);
        return Err(KeyError);
      }
      var perfs := perfsOrError.value;
      NoKeyErrorSnoc(combos, j);
      var baseline := Baseline(perfs);
      if baseline.Some? {
        var metrics := MetricsOf(perfs, baseline.value);
        results := results + [(combo.key, ComboResult(perfs, metrics))];
      }
    }
    assert combos[..|combos|] == combos;
    r := Ok(results);
  }

  // ---------------------------------------------------------------------------
  // What the analysis promises, stated over the input measurements

  /** The measurements with key `k` carry at least two different core counts. */
  ghost predicate ManyCoreCounts(ms: seq<Measurement>, k: string)
  {
    exists c1, c2 :: c1 != c2 && Occurs(ms, k, c1) && Occurs(ms, k, c2)
  }

  /** A key that some measurement carries is listed in the grouping. */
  lemma ComboIndex(ms: seq<Measurement>, k: string, c: int)
    requires Occurs(ms, k, c)
    ensures exists j :: 0 <= j < |GroupByCombo(ms)| && GroupByCombo(ms)[j].key == k
  {
    GroupByComboFacts(ms);
    CoreCountsOfKey(ms, k, c);
    ComboBucketsListed(GroupByCombo(ms), k);
  }

  /** With distinct core counts, two buckets means two different core counts. */
  lemma TwoCoreCounts(bs: seq<CoreBucket>)
    requires Distinct(CoreCounts(bs))
    ensures |bs| >= 2 <==> exists c1, c2 :: c1 != c2 && c1 in CoreCounts(bs) && c2 in CoreCounts(bs)
  {
    if |bs| >= 2 {
      assert CoreCounts(bs)[0] != CoreCounts(bs)[1];
      assert CoreCounts(bs)[0] in CoreCounts(bs) && CoreCounts(bs)[1] in CoreCounts(bs);
    }
    if c1, c2 :| c1 != c2 && c1 in CoreCounts(bs) && c2 in CoreCounts(bs) {
      var a :| 0 <= a < |bs| && CoreCounts(bs)[a] == c1;
      var b :| 0 <= b < |bs| && CoreCounts(bs)[b] == c2;
      assert a != b;
    }
  }

  /** Entry `j` of the grouping has the core counts its key's measurements carry. */
  lemma ComboCoreCounts(ms: seq<Measurement>, j: nat)
    requires j < |GroupByCombo(ms)|
    ensures var c := GroupByCombo(ms)[j];
      && (forall n :: n in CoreCounts(c.buckets) <==> Occurs(ms, c.key, n))
      && (|c.buckets| >= 2 <==> ManyCoreCounts(ms, c.key))
      && (Qualifies(c) <==> ManyCoreCounts(ms, c.key) && Occurs(ms, c.key, 1))
  {
    var cs := GroupByCombo(ms);
    GroupByComboFacts(ms);
    ComboBucketsAt(cs, j);
    forall n ensures n in CoreCounts(cs[j].buckets) <==> Occurs(ms, cs[j].key, n) {
      CoreCountsOfKey(ms, cs[j].key, n);
    }
    TwoCoreCounts(cs[j].buckets);
  }

  /** Bucket `q` of entry `j` holds the measurements with that key and core count. */
  lemma BucketContents(ms: seq<Measurement>, j: nat, q: nat)
    requires j < |GroupByCombo(ms)| && q < |GroupByCombo(ms)[j].buckets|
    ensures var c := GroupByCombo(ms)[j];
      c.buckets[q].members == Select(ms, c.key, c.buckets[q].cores)
  {
    var cs := GroupByCombo(ms);
    GroupByComboFacts(ms);
    ComboBucketsAt(cs, j);
    BucketMembersAt(cs[j].buckets, q);
  }

  /** A combination that raises names an incomplete measurement of the input. */
  lemma RaisingComboWitness(ms: seq<Measurement>, j: nat)
    requires j < |GroupByCombo(ms)| && RaisesKeyError(GroupByCombo(ms)[j])
    ensures exists i :: 0 <= i < |ms| && !Complete(ms[i]) && ManyCoreCounts(ms, ComboKey(ms[i]))
  {
    var cs := GroupByCombo(ms);
    var q :| 0 <= q < |cs[j].buckets| && !AllComplete(cs[j].buckets[q].members);
    var m :| m in cs[j].buckets[q].members && !Complete(m);
    BucketContents(ms, j, q);
    SelectMembers(ms, cs[j].key, cs[j].buckets[q].cores, m);
    ComboCoreCounts(ms, j);
    var i :| 0 <= i < |ms| && ms[i] == m;
    assert !Complete(ms[i]) && ManyCoreCounts(ms, ComboKey(ms[i]));
  }

  /** An incomplete measurement in a combination with two core counts makes
      that combination raise. */
  lemma IncompleteMeasurementRaises(ms: seq<Measurement>, i: nat)
    requires i < |ms| && !Complete(ms[i]) && ManyCoreCounts(ms, ComboKey(ms[i]))
    ensures exists j :: 0 <= j < |GroupByCombo(ms)| && RaisesKeyError(GroupByCombo(ms)[j])
  {
    var cs := GroupByCombo(ms);
    var k, n := ComboKey(ms[i]), CoresOf(ms[i]);
    assert Occurs(ms, k, n);
    ComboIndex(ms, k, n);
    var j :| 0 <= j < |cs| && cs[j].key == k;
    ComboCoreCounts(ms, j);
    var q :| 0 <= q < |cs[j].buckets| && cs[j].buckets[q].cores == n;
    BucketContents(ms, j, q);
    SelectMembers(ms, k, n, ms[i]);
    assert RaisesKeyError(cs[j]);
  }

  /** analyze_scaling_performance raises KeyError exactly when a measurement
      lacking throughput, power or efficiency belongs to a combination with at
      least two core counts; combinations with one core count are never read. */
  lemma ScalingKeyErrorIff(ms: seq<Measurement>)
    ensures AnalyzeScaling(ms).Err? <==>
      exists i :: 0 <= i < |ms| && !Complete(ms[i]) && ManyCoreCounts(ms, ComboKey(ms[i]))
    ensures AnalyzeScaling(ms).Err? ==> AnalyzeScaling(ms).error == KeyError
  {
    var cs := GroupByCombo(ms);
    if j :| 0 <= j < |cs| && RaisesKeyError(cs[j]) {
      RaisingComboWitness(ms, j);
    }
    if i :| 0 <= i < |ms| && !Complete(ms[i]) && ManyCoreCounts(ms, ComboKey(ms[i])) {
      IncompleteMeasurementRaises(ms, i);
    }
  }

  /** Each core count appears at most once among the averages. */
  predicate DistinctCores(perfs: seq<(int, CorePerformance)>)
  {
    forall a, b :: 0 <= a < b < |perfs| ==> perfs[a].0 != perfs[b].0
  }

  /** With distinct core counts, the baseline is the average of the 1-core entry. */
  lemma {:induction false} BaselineFound(perfs: seq<(int, CorePerformance)>)
    requires DistinctCores(perfs)
    ensures Baseline(perfs).Some? <==> exists p :: (1, p) in perfs
    ensures forall p :: (1, p) in perfs ==> Baseline(perfs) == Some(p.avgThroughput)
    decreases |perfs|
  {
    if perfs != [] {
      assert perfs == [perfs[0]] + perfs[1..];
      BaselineFound(perfs[1..]);
      if perfs[0].0 == 1 {
        forall p | (1, p) in perfs ensures p == perfs[0].1 {
          var b :| 0 <= b < |perfs| && perfs[b] == (1, p);
          assert b == 0;
        }
      }
    }
  }

  /** `scaling_results` holds exactly one entry per qualifying combination:
      its key with its averages and metrics. */
  lemma {:induction false} ScalingResultsMembers(cs: seq<Combo>, k: string, res: ComboResult)
    requires AllGood(cs)
    ensures (k, res) in ScalingResults(cs) <==>
      exists c :: c in cs && Qualifies(c) && c.key == k && res == ResultOf(c)
    decreases |cs|
  {
    if cs != [] {
      var init := cs[..|cs| - 1];
      assert cs == init + [cs[|cs| - 1]];
      ScalingResultsMembers(init, k, res);
    }
  }

  /** A model/batch combination appears in the results exactly when its
      measurements carry at least two different core counts, one of them 1. */
  lemma ScalingCombosIff(ms: seq<Measurement>, k: string)
    requires AnalyzeScaling(ms).Ok?
    ensures (exists res :: (k, res) in AnalyzeScaling(ms).value) <==> ManyCoreCounts(ms, k) && Occurs(ms, k, 1)
  {
    if res :| (k, res) in AnalyzeScaling(ms).value {
      ResultQualifies(ms, k, res);
    }
    if ManyCoreCounts(ms, k) && Occurs(ms, k, 1) {
      QualifyingHasResult(ms, k);
    }
  }

  /** A result entry is the result of a qualifying combination of the grouping. */
  lemma ResultIndex(cs: seq<Combo>, k: string, res: ComboResult) returns (j: nat)
    requires AllGood(cs) && (k, res) in ScalingResults(cs)
    ensures j < |cs| && GoodBuckets(cs[j].buckets)
    ensures cs[j].key == k && Qualifies(cs[j]) && res == ResultOf(cs[j])
  {
    ScalingResultsMembers(cs, k, res);
    var c :| c in cs && Qualifies(c) && c.key == k && res == ResultOf(c);
    j :| 0 <= j < |cs| && cs[j] == c;
  }

  /** The same, for the measurements the grouping comes from. */
  lemma ResultCombo(ms: seq<Measurement>, k: string, res: ComboResult) returns (j: nat)
    requires AnalyzeScaling(ms).Ok? && (k, res) in AnalyzeScaling(ms).value
    ensures j < |GroupByCombo(ms)| && GoodBuckets(GroupByCombo(ms)[j].buckets)
    ensures GroupByCombo(ms)[j].key == k && Qualifies(GroupByCombo(ms)[j]) && res == ResultOf(GroupByCombo(ms)[j])
  {
    GroupedBucketsGood(ms);
    assert AnalyzeScaling(ms).value == ScalingResults(GroupByCombo(ms));
    j := ResultIndex(GroupByCombo(ms), k, res);
  }

  /** A result entry comes from a combination with two core counts, one of them 1. */
  lemma ResultQualifies(ms: seq<Measurement>, k: string, res: ComboResult)
    requires AnalyzeScaling(ms).Ok? && (k, res) in AnalyzeScaling(ms).value
    ensures ManyCoreCounts(ms, k) && Occurs(ms, k, 1)
  {
    var j := ResultCombo(ms, k, res);
    ComboCoreCounts(ms, j);
  }

  /** A combination with two core counts, one of them 1, has a result entry. */
  lemma QualifyingHasResult(ms: seq<Measurement>, k: string)
    requires AnalyzeScaling(ms).Ok? && ManyCoreCounts(ms, k) && Occurs(ms, k, 1)
    ensures exists res :: (k, res) in AnalyzeScaling(ms).value
  {
    var cs := GroupByCombo(ms);
    GroupedBucketsGood(ms);
    assert AnalyzeScaling(ms).value == ScalingResults(cs);
    ComboIndex(ms, k, 1);
    var j :| 0 <= j < |cs| && cs[j].key == k;
    ComboCoreCounts(ms, j);
    ScalingResultsMembers(cs, k, ResultOf(cs[j]));
  }

  /** A core dictionary lists each core count once among its averages. */
  lemma PerformancesDistinct(bs: seq<CoreBucket>)
    requires GoodBuckets(bs)
    ensures DistinctCores(Performances(bs))
  {
    var cp := Performances(bs);
    assert forall q :: 0 <= q < |cp| ==> cp[q].0 == CoreCounts(bs)[q];
  }

  /** The averages of a combination list each core count once, and the metrics
      list exactly the core counts above 1, each scaled against the 1-core
      average. */
  lemma ResultMetrics(c: Combo)
    requires GoodBuckets(c.buckets) && Qualifies(c)
    ensures DistinctCores(ResultOf(c).corePerformance)
    ensures forall n, x :: (n, x) in ResultOf(c).scalingMetrics <==>
      n > 1 && exists p, p1 :: (n, p) in ResultOf(c).corePerformance && (1, p1) in ResultOf(c).corePerformance
                             && x == ScaleMetric(p.avgThroughput, p1.avgThroughput, n)
  {
    var cp := Performances(c.buckets);
    PerformancesDistinct(c.buckets);
    BaselineIsOneCore(c.buckets);
    BaselineFound(cp);
    var b := Baseline(cp).value;
    assert ResultOf(c) == ComboResult(cp, Metrics(cp, b));
    forall n, x ensures (n, x) in Metrics(cp, b) <==>
      n > 1 && exists p, p1 :: (n, p) in cp && (1, p1) in cp && x == ScaleMetric(p.avgThroughput, p1.avgThroughput, n)
    {
      MetricsExactlyAboveOne(cp, b, n, x);
    }
  }

  /** Combination `j` has an average exactly for the core counts its key's
      measurements carry. */
  lemma PerformanceCoresAt(ms: seq<Measurement>, j: nat)
    requires j < |GroupByCombo(ms)|
    ensures GoodBuckets(GroupByCombo(ms)[j].buckets)
    ensures var c := GroupByCombo(ms)[j];
      forall n :: (exists p :: (n, p) in Performances(c.buckets)) <==> Occurs(ms, c.key, n)
  {
    var cs := GroupByCombo(ms);
    GroupedBucketsGood(ms);
    var c := cs[j];
    var cp := Performances(c.buckets);
    ComboCoreCounts(ms, j);
    forall n ensures (exists p :: (n, p) in cp) <==> n in CoreCounts(c.buckets) {
      if n in CoreCounts(c.buckets) {
        var q :| 0 <= q < |c.buckets| && c.buckets[q].cores == n;
        assert cp[q] in cp;
      }
    }
  }

  /** Each average of combination `j` is that of its key's measurements with
      that core count. */
  lemma PerformanceValuesAt(ms: seq<Measurement>, j: nat)
    requires j < |GroupByCombo(ms)|
    ensures GoodBuckets(GroupByCombo(ms)[j].buckets)
    ensures var c := GroupByCombo(ms)[j];
      forall n, p :: (n, p) in Performances(c.buckets) ==>
        Select(ms, c.key, n) != [] && p == Performance(Select(ms, c.key, n))
  {
    var cs := GroupByCombo(ms);
    GroupedBucketsGood(ms);
    var c := cs[j];
    forall q | 0 <= q < |c.buckets| ensures c.buckets[q].members == Select(ms, c.key, c.buckets[q].cores) {
      BucketContents(ms, j, q);
    }
  }

  /** The averages of combination `j` are those of its key's measurements,
      one entry per core count they carry. */
  lemma ResultPerformances(ms: seq<Measurement>, j: nat)
    requires j < |GroupByCombo(ms)|
    ensures var c := GroupByCombo(ms)[j];
      && GoodBuckets(c.buckets)
      && (forall n :: (exists p :: (n, p) in Performances(c.buckets)) <==> Occurs(ms, c.key, n))
      && (forall n, p :: (n, p) in Performances(c.buckets) ==>
            Select(ms, c.key, n) != [] && p == Performance(Select(ms, c.key, n)))
  {
    PerformanceCoresAt(ms, j);
    PerformanceValuesAt(ms, j);
  }

  /** Every entry of the results describes its combination: it has at least two
      core counts one of them 1, one average per core count its measurements
      carry (each the average of exactly those measurements), and metrics for
      exactly the core counts above 1, scaled against the 1-core average. */
  lemma ScalingEntryContents(ms: seq<Measurement>, k: string, res: ComboResult)
    requires AnalyzeScaling(ms).Ok? && (k, res) in AnalyzeScaling(ms).value
    ensures ManyCoreCounts(ms, k) && Occurs(ms, k, 1)
    ensures DistinctCores(res.corePerformance)
    ensures forall n :: (exists p :: (n, p) in res.corePerformance) <==> Occurs(ms, k, n)
    ensures forall n, p :: (n, p) in res.corePerformance ==>
      Select(ms, k, n) != [] && p == Performance(Select(ms, k, n))
    ensures forall n, x :: (n, x) in res.scalingMetrics <==>
      n > 1 && exists p, p1 :: (n, p) in res.corePerformance && (1, p1) in res.corePerformance
                             && x == ScaleMetric(p.avgThroughput, p1.avgThroughput, n)
  {
    var j := ResultCombo(ms, k, res);
    ComboCoreCounts(ms, j);
    ResultPerformances(ms, j);
    ResultMetrics(GroupByCombo(ms)[j]);
  }
}
