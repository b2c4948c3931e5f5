/** src/analysis/extract_real_data_only.py, calculate_real_statistics and
    _analyze_multicore_scaling as a specification: per-metric statistics with
    a t-based 95% confidence interval, peak values, and the 1/2/4-core scaling
    of ResNet-18 at batch size 1. numpy's sample standard deviation, scipy's
    t quantile and the square root are parameters. */
module Statistics {
  import opened Wrappers
  import opened Records
  import opened Numeric
  import opened Frames

  // ---------------------------------------------------------------------------
  // Columns

  /** The five columns summarised, in the order of the `metrics` list. */
  datatype Metric = LatencyMs | ThroughputFps | PowerWatts | EfficiencyFpsPerWatt | TemperatureCelsius

  const Metrics: seq<Metric> := [LatencyMs, ThroughputFps, PowerWatts, EfficiencyFpsPerWatt, TemperatureCelsius]

  function Cell(r: Row, metric: Metric): Float
  {
    match metric
    case LatencyMs => r.latencyMs
    case ThroughputFps => r.throughputFps
    case PowerWatts => r.powerWatts
    case EfficiencyFpsPerWatt => r.efficiencyFpsPerWatt
    case TemperatureCelsius => r.temperatureCelsius
  }

  /** `df[metric]`. */
  function Column(rows: seq<Row>, metric: Metric): (c: seq<Float>)
    ensures |c| == |rows| && forall i :: 0 <= i < |rows| ==> c[i] == Cell(rows[i], metric)
  {
    seq(|rows|, i requires 0 <= i < |rows| => Cell(rows[i], metric))
  }

  /** `Series.dropna()`: the present values, in order. */
  function Present(col: seq<Float>): seq<real>
    decreases |col|
  {
    if col == [] then []
    else Present(col[..|col| - 1]) + (if col[|col| - 1].Num? then [col[|col| - 1].value] else [])
  }

  lemma {:induction false} PresentMembers(col: seq<Float>, x: real)
    ensures x in Present(col) <==> Num(x) in col
    ensures |Present(col)| <= |col|
    decreases |col|
  {
    if col != [] {
      var init := col[..|col| - 1];
      assert col == init + [col[|col| - 1]];
      PresentMembers(init, x);
    }
  }

  /** `Series.max()`, which skips missing values and is NaN when none remain. */
  function SeriesMax(col: seq<Float>): Float
  {
    var p := Present(col);
    if p == [] then NaN else Num(Max(p))
  }

  /** `Series.min()`. */
  function SeriesMin(col: seq<Float>): Float
  {
    var p := Present(col);
    if p == [] then NaN else Num(Min(p))
  }

  /** `Series.mean()`. */
  function SeriesMean(col: seq<Float>): Float
  {
    var p := Present(col);
    if p == [] then NaN else Num(Mean(p))
  }

  /** The column maximum is NaN exactly when every cell is, and otherwise a
      present value at least as large as every present value; likewise the
      minimum. */
  lemma SeriesExtremes(col: seq<Float>)
    ensures SeriesMax(col).NaN? <==> forall i :: 0 <= i < |col| ==> col[i].NaN?
    ensures SeriesMin(col).NaN? <==> forall i :: 0 <= i < |col| ==> col[i].NaN?
    ensures SeriesMax(col).Num? ==>
              (Num(SeriesMax(col).value) in col &&
               forall i :: 0 <= i < |col| && col[i].Num? ==> col[i].value <= SeriesMax(col).value)
    ensures SeriesMin(col).Num? ==>
              (Num(SeriesMin(col).value) in col &&
               forall i :: 0 <= i < |col| && col[i].Num? ==> SeriesMin(col).value <= col[i].value)
  {
    var p := Present(col);
    forall i | 0 <= i < |col| && col[i].Num? ensures col[i].value in p {
      PresentMembers(col, col[i].value);
    }
    if p != [] {
      MaxIsMaximum(p);
      MinIsMinimum(p);
      PresentMembers(col, Max(p));
      PresentMembers(col, Min(p));
      assert Num(p[0]) in col by { PresentMembers(col, p[0]); }
    }
  }

  // ---------------------------------------------------------------------------
  // Per-metric statistics

  datatype ConfidenceInterval = ConfidenceInterval(lower: real, upper: real, marginOfError: real)

  /** `performance_stats[metric]`, without the median. */
  datatype MetricStatistics = MetricStatistics(
    count: nat, mean: real, std: real, min: real, max: real,
    confidenceInterval95: ConfidenceInterval, coefficientOfVariation: real)

  /** The statistics of the present values `data` of one metric, given the
      sample standard deviation `std`, the t quantile `t` and `root`, the square
      root of the count. */
  function Describe(data: seq<real>, std: real, t: real, root: real): MetricStatistics
    requires |data| > 1 && root > 0.0
  {
    var mean := Mean(data);
    var margin := t * (std / root);
    MetricStatistics(|data|, mean, std, Min(data), Max(data),
      ConfidenceInterval(mean - margin, mean + margin, margin),
      if mean != 0.0 then std / mean else 0.0)
  }

  /** The interval is centred on the mean, and contains it when the quantile
      and the standard deviation are non-negative; the mean lies between the
      minimum and maximum; the coefficient of variation is std/mean, or 0 for
      a zero mean. */
  lemma DescribeProperties(data: seq<real>, std: real, t: real, root: real)
    requires |data| > 1 && root > 0.0
    ensures var s := Describe(data, std, t, root);
      && s.count == |data|
      && s.confidenceInterval95.upper - s.mean == s.mean - s.confidenceInterval95.lower == s.confidenceInterval95.marginOfError
      && (t >= 0.0 && std >= 0.0 ==>
            (0.0 <= s.confidenceInterval95.marginOfError &&
             s.confidenceInterval95.lower <= s.mean <= s.confidenceInterval95.upper))
      && s.min <= s.mean <= s.max
      && (s.mean == 0.0 ==> s.coefficientOfVariation == 0.0)
      && (s.mean != 0.0 ==> s.coefficientOfVariation * s.mean == std)
  {
    MeanBetweenMinAndMax(data);
    if t >= 0.0 && std >= 0.0 {
      assert std / root >= 0.0;
      assert t * (std / root) >= 0.0;
    }
  }

  /** The statistics of one metric column, when it has more than one present value. */
  function MetricEntry(rows: seq<Row>, metric: Metric, stdOf: seq<real> -> real, tCritical: nat -> real,
                       sqrtOf: nat -> real): Option<MetricStatistics>
    requires forall n: nat :: n > 1 ==> sqrtOf(n) > 0.0
  {
    var data := Present(Column(rows, metric));
    if |data| > 1 then Some(Describe(data, stdOf(data), tCritical(|data| - 1), sqrtOf(|data|))) else None
  }

  /** `performance_stats` for the metrics `ms`, in order. */
  function PerformanceStats(rows: seq<Row>, ms: seq<Metric>, stdOf: seq<real> -> real, tCritical: nat -> real,
                            sqrtOf: nat -> real): seq<(Metric, MetricStatistics)>
    requires forall n: nat :: n > 1 ==> sqrtOf(n) > 0.0
    decreases |ms|
  {
    if ms == [] then []
    else
      var e := MetricEntry(rows, ms[|ms| - 1], stdOf, tCritical, sqrtOf);
      PerformanceStats(rows, ms[..|ms| - 1], stdOf, tCritical, sqrtOf)
        + (if e.Some? then [(ms[|ms| - 1], e.value)] else [])
  }

  /** The entries are exactly those of the listed metrics that have statistics. */
  lemma {:induction false} PerformanceStatsEntries(rows: seq<Row>, ms: seq<Metric>, stdOf: seq<real> -> real,
                                                   tCritical: nat -> real, sqrtOf: nat -> real,
                                                   metric: Metric, s: MetricStatistics)
    requires forall n: nat :: n > 1 ==> sqrtOf(n) > 0.0
    ensures (metric, s) in PerformanceStats(rows, ms, stdOf, tCritical, sqrtOf) <==>
      metric in ms && MetricEntry(rows, metric, stdOf, tCritical, sqrtOf) == Some(s)
    decreases |ms|
  {
    if ms != [] {
      var init := ms[..|ms| - 1];
      assert ms == init + [ms[|ms| - 1]];
      PerformanceStatsEntries(rows, init, stdOf, tCritical, sqrtOf, metric, s);
    }
  }

  /** A metric gets statistics exactly when its column has more than one
      present value, and then they describe exactly those values with the
      degrees of freedom `count - 1`. */
  lemma PerformanceStatsMembers(rows: seq<Row>, ms: seq<Metric>, stdOf: seq<real> -> real,
                                tCritical: nat -> real, sqrtOf: nat -> real,
                                metric: Metric, s: MetricStatistics)
    requires forall n: nat :: n > 1 ==> sqrtOf(n) > 0.0
    ensures (metric, s) in PerformanceStats(rows, ms, stdOf, tCritical, sqrtOf) <==>
      metric in ms && |Present(Column(rows, metric))| > 1 &&
      var data := Present(Column(rows, metric));
      s == Describe(data, stdOf(data), tCritical(|data| - 1), sqrtOf(|data|))
  {
    PerformanceStatsEntries(rows, ms, stdOf, tCritical, sqrtOf, metric, s);
  }

  // ---------------------------------------------------------------------------
  // Overall statistics and peaks

  /** `overall_stats` without the measurement period. */
  datatype OverallStatistics = OverallStatistics(totalMeasurements: nat, modelsTested: nat, configurationsTested: nat)

  /** `nunique()` of the model and configuration columns, which never hold NaN. */
  function Overall(rows: seq<Row>): OverallStatistics
  {
    OverallStatistics(|rows|, |set i | 0 <= i < |rows| :: rows[i].model|,
                      |set i | 0 <= i < |rows| :: rows[i].configuration|)
  }

  lemma {:induction false} DistinctAtMost<T>(rows: seq<Row>, f: Row -> T)
    ensures |set i | 0 <= i < |rows| :: f(rows[i])| <= |rows|
    ensures rows != [] ==> |set i | 0 <= i < |rows| :: f(rows[i])| >= 1
    decreases |rows|
  {
    if rows != [] {
      var init := rows[..|rows| - 1];
      DistinctAtMost(init, f);
      var a := set i | 0 <= i < |init| :: f(init[i]);
      var b := set i | 0 <= i < |rows| :: f(rows[i]);
      assert b == a + {f(rows[|rows| - 1])} by {
        forall v | v in b ensures v in a + {f(rows[|rows| - 1])} {
          var i :| 0 <= i < |rows| && f(rows[i]) == v;
          if i < |init| {
            assert init[i] == rows[i];
          }
        }
        forall v | v in a ensures v in b {
          var i :| 0 <= i < |init| && f(init[i]) == v;
          assert rows[i] == init[i];
        }
      }
      assert f(rows[|rows| - 1]) in b;
    }
  }

  /** There are at least one and at most `total_measurements` models and configurations. */
  lemma OverallBounds(rows: seq<Row>)
    requires rows != []
    ensures 1 <= Overall(rows).modelsTested <= Overall(rows).totalMeasurements
    ensures 1 <= Overall(rows).configurationsTested <= Overall(rows).totalMeasurements
  {
    DistinctAtMost(rows, (r: Row) => r.model);
    DistinctAtMost(rows, (r: Row) => r.configuration);
    assert (set i | 0 <= i < |rows| :: ((r: Row) => r.model)(rows[i])) == set i | 0 <= i < |rows| :: rows[i].model;
    assert (set i | 0 <= i < |rows| :: ((r: Row) => r.configuration)(rows[i])) == set i | 0 <= i < |rows| :: rows[i].configuration;
  }

  datatype PeakPerformance = PeakPerformance(
    peakThroughputFps: Float, peakEfficiencyFpsPerWatt: Float, minLatencyMs: Float,
    maxTemperatureCelsius: Float, minWatts: Float, maxWatts: Float)

  /** `peak_performance`. */
  function PeakPerformanceOf(rows: seq<Row>): PeakPerformance
  {
    PeakPerformance(SeriesMax(Column(rows, ThroughputFps)), SeriesMax(Column(rows, EfficiencyFpsPerWatt)),
                    SeriesMin(Column(rows, LatencyMs)), SeriesMax(Column(rows, TemperatureCelsius)),
                    SeriesMin(Column(rows, PowerWatts)), SeriesMax(Column(rows, PowerWatts)))
  }

  /** `v` is the largest present value of `metric` among `rows`, held by some
      row, or NaN when no row has a value. */
  predicate IsColumnMax(rows: seq<Row>, metric: Metric, v: Float)
  {
    && (v.NaN? <==> forall i :: 0 <= i < |rows| ==> Cell(rows[i], metric).NaN?)
    && (v.Num? ==> (exists i :: 0 <= i < |rows| && Cell(rows[i], metric) == v) &&
                   forall i :: 0 <= i < |rows| && Cell(rows[i], metric).Num? ==> Cell(rows[i], metric).value <= v.value)
  }

  /** `v` is the smallest present value of `metric` among `rows`, held by some
      row, or NaN when no row has a value. */
  predicate IsColumnMin(rows: seq<Row>, metric: Metric, v: Float)
  {
    && (v.NaN? <==> forall i :: 0 <= i < |rows| ==> Cell(rows[i], metric).NaN?)
    && (v.Num? ==> (exists i :: 0 <= i < |rows| && Cell(rows[i], metric) == v) &&
                   forall i :: 0 <= i < |rows| && Cell(rows[i], metric).Num? ==> v.value <= Cell(rows[i], metric).value)
  }

  lemma ColumnExtremes(rows: seq<Row>, metric: Metric)
    ensures IsColumnMax(rows, metric, SeriesMax(Column(rows, metric)))
    ensures IsColumnMin(rows, metric, SeriesMin(Column(rows, metric)))
  {
    var col := Column(rows, metric);
    SeriesExtremes(col);
    if SeriesMax(col).Num? {
      var i :| 0 <= i < |col| && col[i] == SeriesMax(col);
      assert Cell(rows[i], metric) == SeriesMax(col);
    }
    if SeriesMin(col).Num? {
      var i :| 0 <= i < |col| && col[i] == SeriesMin(col);
      assert Cell(rows[i], metric) == SeriesMin(col);
    }
  }

  /** Each peak is the column maximum or minimum its name says, and the power
      range, when present, has its minimum at most its maximum. */
  lemma PeakPerformanceMeaning(rows: seq<Row>)
    ensures var p := PeakPerformanceOf(rows);
      && IsColumnMax(rows, ThroughputFps, p.peakThroughputFps)
      && IsColumnMax(rows, EfficiencyFpsPerWatt, p.peakEfficiencyFpsPerWatt)
      && IsColumnMin(rows, LatencyMs, p.minLatencyMs)
      && IsColumnMax(rows, TemperatureCelsius, p.maxTemperatureCelsius)
      && IsColumnMin(rows, PowerWatts, p.minWatts)
      && IsColumnMax(rows, PowerWatts, p.maxWatts)
      && (p.minWatts.Num? <==> p.maxWatts.Num?)
      && (p.minWatts.Num? ==> p.minWatts.value <= p.maxWatts.value)
  {
    ColumnExtremes(rows, ThroughputFps);
    ColumnExtremes(rows, EfficiencyFpsPerWatt);
    ColumnExtremes(rows, LatencyMs);
    ColumnExtremes(rows, TemperatureCelsius);
    ColumnExtremes(rows, PowerWatts);
    ColumnMinAtMostMax(rows, PowerWatts);
  }

  lemma ColumnMinAtMostMax(rows: seq<Row>, metric: Metric)
    ensures SeriesMin(Column(rows, metric)).Num? <==> SeriesMax(Column(rows, metric)).Num?
    ensures SeriesMin(Column(rows, metric)).Num? ==>
      SeriesMin(Column(rows, metric)).value <= SeriesMax(Column(rows, metric)).value
  {
    ColumnExtremes(rows, metric);
    var lo := SeriesMin(Column(rows, metric));
    if lo.Num? {
      var i :| 0 <= i < |rows| && Cell(rows[i], metric) == lo;
    }
  }

  // ---------------------------------------------------------------------------
  // _analyze_multicore_scaling

  const ScalingModel: string := "resnet18-imagenet"

  /** The core counts the loop visits. */
  const ScalingCores: seq<int> := [1, 2, 4]

  /** `resnet18_batch1`: the rows of ResNet-18 at batch size 1. */
  function ScalingRows(rows: seq<Row>): seq<Row>
    decreases |rows|
  {
    if rows == [] then []
    else
      var r := rows[|rows| - 1];
      ScalingRows(rows[..|rows| - 1]) + (if r.model == ScalingModel && r.batchSize == 1 then [r] else [])
  }

  /** `df[df['cores'] == cores]`. */
  function WithCores(rows: seq<Row>, cores: int): seq<Row>
    decreases |rows|
  {
    if rows == [] then []
    else
      var r := rows[|rows| - 1];
      WithCores(rows[..|rows| - 1], cores) + (if r.cores == cores then [r] else [])
  }

  lemma {:induction false} ScalingRowsMembers(rows: seq<Row>, cores: int, r: Row)
    ensures r in WithCores(ScalingRows(rows), cores) <==>
      r in rows && r.model == ScalingModel && r.batchSize == 1 && r.cores == cores
    decreases |rows|
  {
    WithCoresMembers(ScalingRows(rows), cores, r);
    if rows != [] {
      var init := rows[..|rows| - 1];
      assert rows == init + [rows[|rows| - 1]];
      ScalingRowsMembers(init, cores, r);
      WithCoresMembers(ScalingRows(init), cores, r);
    }
  }

  lemma {:induction false} WithCoresMembers(rows: seq<Row>, cores: int, r: Row)
    ensures r in WithCores(rows, cores) <==> r in rows && r.cores == cores
    decreases |rows|
  {
    if rows != [] {
      var init := rows[..|rows| - 1];
      assert rows == init + [rows[|rows| - 1]];
      WithCoresMembers(init, cores, r);
    }
  }

  /** `scaling_data[f'{cores}_cores']`. */
  datatype CoreScaling = CoreScaling(throughputFps: Float, scalingFactor: Float, efficiency: Float, sampleCount: nat)

  /** The dictionary returned by _analyze_multicore_scaling; the entries of
      `scaling_details` are keyed by core count. */
  datatype MulticoreScaling = MulticoreScaling(
    coresTested: seq<int>, scalingDetails: seq<(int, CoreScaling)>, overallScalingEfficiency: Float)

  /** `if baseline_throughput`: None and 0.0 are false, NaN is true. */
  predicate Truthy(b: Option<Float>)
  {
    b.Some? && (b.value.NaN? || b.value.value != 0.0)
  }

  /** Float division by a truthy divisor: NaN when either side is NaN. */
  function Divide(a: Float, b: Float): Float
    requires b.NaN? || b.value != 0.0
  {
    if a.Num? && b.Num? then Num(a.value / b.value) else NaN
  }

  /** The entry for `cores` with mean throughput `mean` over `count` rows. */
  function CoreEntry(cores: int, mean: Float, count: nat, baseline: Option<Float>): CoreScaling
    requires cores > 0
  {
    if cores == 1 then CoreScaling(mean, Num(1.0), Num(1.0), count)
    else
      var factor := if Truthy(baseline) then Divide(mean, baseline.value) else Num(0.0);
      CoreScaling(mean, factor, Divide(factor, Num(cores as real)), count)
  }

  /** `scaling_data` and `baseline_throughput` after the loop over the core
      counts `cs`. */
  function ScalingLoop(sr: seq<Row>, cs: seq<int>): (seq<(int, CoreScaling)>, Option<Float>)
    requires forall i :: 0 <= i < |cs| ==> cs[i] > 0
    decreases |cs|
  {
    if cs == [] then ([], None)
    else
      var (details, baseline) := ScalingLoop(sr, cs[..|cs| - 1]);
      var c := cs[|cs| - 1];
      var data := WithCores(sr, c);
      if |data| > 0 then
        var mean := SeriesMean(Column(data, ThroughputFps));
        (details + [(c, CoreEntry(c, mean, |data|, baseline))], if c == 1 then Some(mean) else baseline)
      else (details, baseline)
  }

  /** `overall_efficiency`: the 4-core efficiency, else 0.0. */
  function OverallEfficiency(details: seq<(int, CoreScaling)>): Float
    decreases |details|
  {
    if details == [] then Num(0.0)
    else if details[0].0 == 4 then details[0].1.efficiency
    else OverallEfficiency(details[1..])
  }

  /** _analyze_multicore_scaling; with no rows the DataFrame has no `model`
      column and the filter raises KeyError. */
  function MulticoreScalingOf(rows: seq<Row>): Result<MulticoreScaling, PyError>
  {
    if rows == [] then Err(KeyError)
    else
      var details := ScalingLoop(ScalingRows(rows), ScalingCores).0;
      Ok(MulticoreScaling([1, 2, 3, 4], details, OverallEfficiency(details)))
  }

  /** The mean 1-core throughput, when there are 1-core rows. */
  function BaselineOf(sr: seq<Row>): Option<Float>
  {
    if |WithCores(sr, 1)| > 0 then Some(SeriesMean(Column(WithCores(sr, 1), ThroughputFps))) else None
  }

  /** The entry the loop records for `cores` when it has rows: the mean
      throughput and count of those rows, scaled against the 1-core mean. */
  function ExpectedEntry(sr: seq<Row>, cores: int): CoreScaling
    requires cores > 0
  {
    var data := WithCores(sr, cores);
    CoreEntry(cores, SeriesMean(Column(data, ThroughputFps)), |data|, if cores == 1 then None else BaselineOf(sr))
  }

  /** The entry for `cores`, if it has rows. */
  function EntryFor(sr: seq<Row>, cores: int): seq<(int, CoreScaling)>
    requires cores > 0
  {
    if |WithCores(sr, cores)| > 0 then [(cores, ExpectedEntry(sr, cores))] else []
  }

  /** The loop over 1, 2 and 4 cores, written out. */
  lemma ScalingLoopUnfolded(sr: seq<Row>)
    ensures ScalingLoop(sr, ScalingCores).0 == EntryFor(sr, 1) + EntryFor(sr, 2) + EntryFor(sr, 4)
  {
    ScalingLoopOne(sr);
    ScalingLoopStep(sr, [1], 2, EntryFor(sr, 1));
    assert [1] + [2] == [1, 2];
    ScalingLoopStep(sr, [1, 2], 4, EntryFor(sr, 1) + EntryFor(sr, 2));
    assert [1, 2] + [4] == ScalingCores;
  }

  /** After the 1-core iteration: its entry, and its mean as the baseline. */
  lemma ScalingLoopOne(sr: seq<Row>)
    ensures ScalingLoop(sr, [1]) == (EntryFor(sr, 1), BaselineOf(sr))
  {
    var one: seq<int> := [1];
    assert one[..|one| - 1] == [] && one[|one| - 1] == 1;
    assert ScalingLoop(sr, []) == ([], None);
    var data := WithCores(sr, 1);
    if |data| > 0 {
      var mean := SeriesMean(Column(data, ThroughputFps));
      var entry := CoreEntry(1, mean, |data|, None);
      assert ScalingLoop(sr, one) == ([] + [(1, entry)], Some(mean));
      assert EntryFor(sr, 1) == [(1, entry)] == [] + [(1, entry)];
      assert BaselineOf(sr) == Some(mean);
    } else {
      assert ScalingLoop(sr, one) == ([], None);
      assert EntryFor(sr, 1) == [] && BaselineOf(sr) == None;
    }
  }

  /** An iteration for more than one core appends its entry and keeps the baseline. */
  lemma ScalingLoopStep(sr: seq<Row>, cs: seq<int>, c: int, details: seq<(int, CoreScaling)>)
    requires forall i :: 0 <= i < |cs| ==> cs[i] > 0
    requires c > 1 && ScalingLoop(sr, cs) == (details, BaselineOf(sr))
    ensures ScalingLoop(sr, cs + [c]) == (details + EntryFor(sr, c), BaselineOf(sr))
  {
    var cs' := cs + [c];
    assert cs'[..|cs'| - 1] == cs && cs'[|cs'| - 1] == c;
    var data := WithCores(sr, c);
    if |data| > 0 {
      var entry := CoreEntry(c, SeriesMean(Column(data, ThroughputFps)), |data|, BaselineOf(sr));
      assert ScalingLoop(sr, cs') == (details + [(c, entry)], BaselineOf(sr));
      assert EntryFor(sr, c) == [(c, entry)];
      assert ScalingLoop(sr, cs + [c]) == (details + EntryFor(sr, c), BaselineOf(sr));
    } else {
      assert ScalingLoop(sr, cs') == (details, BaselineOf(sr));
      assert EntryFor(sr, c) == [];
      assert details + EntryFor(sr, c) == details;
    }
  }

  /** The entries of `scaling_details`: one per core count of the loop that has rows. */
  lemma DetailsMembers(sr: seq<Row>, c: int, e: CoreScaling)
    ensures (c, e) in ScalingLoop(sr, ScalingCores).0 <==>
      c in ScalingCores && WithCores(sr, c) != [] && e == ExpectedEntry(sr, c)
  {
    ScalingLoopUnfolded(sr);
    var e1, e2, e4 := EntryFor(sr, 1), EntryFor(sr, 2), EntryFor(sr, 4);
    InThree((c, e), e1, e2, e4);
    EntryForMembers(sr, 1, c, e);
    EntryForMembers(sr, 2, c, e);
    EntryForMembers(sr, 4, c, e);
    assert c in ScalingCores <==> c == 1 || c == 2 || c == 4;
  }

  lemma InThree<T>(x: T, a: seq<T>, b: seq<T>, c: seq<T>)
    ensures x in a + b + c <==> x in a || x in b || x in c
  {
  }

  lemma EntryForMembers(sr: seq<Row>, k: int, c: int, e: CoreScaling)
    requires k > 0
    ensures (c, e) in EntryFor(sr, k) <==> c == k && WithCores(sr, k) != [] && e == ExpectedEntry(sr, k)
  {
  }

  lemma OverallEfficiencyAppend(a: seq<(int, CoreScaling)>, b: seq<(int, CoreScaling)>)
    requires forall e :: e in a ==> e.0 != 4
    ensures OverallEfficiency(a + b) == OverallEfficiency(b)
    decreases |a|
  {
    if a == [] {
      assert a + b == b;
    } else {
      assert (a + b)[0] == a[0] && a[0] in a && a + b != [];
      assert a[0].0 != 4;
      assert OverallEfficiency(a + b) == OverallEfficiency((a + b)[1..]);
      assert (a + b)[1..] == a[1..] + b;
      OverallEfficiencyAppend(a[1..], b);
    }
  }

  /** What the scaling analysis reports: `cores_tested` is always [1, 2, 3, 4];
      an entry exists for 1, 2 or 4 cores exactly when ResNet-18 rows at batch
      size 1 with that core count exist; each entry holds their mean
      throughput and count; the 1-core entry has factor and efficiency 1.0;
      the others have factor mean/baseline (0 without a truthy baseline) and
      efficiency factor/cores. */
  lemma MulticoreScalingContents(rows: seq<Row>, c: int)
    requires rows != []
    ensures MulticoreScalingOf(rows).Ok?
    ensures var m := MulticoreScalingOf(rows).value; var sr := ScalingRows(rows);
      && m.coresTested == [1, 2, 3, 4]
      && (forall e :: e in m.scalingDetails ==> e.0 in ScalingCores)
      && ((exists e :: (c, e) in m.scalingDetails) <==> c in ScalingCores && WithCores(sr, c) != [])
      && (forall e :: (c, e) in m.scalingDetails ==>
            && c > 0
            && e.throughputFps == SeriesMean(Column(WithCores(sr, c), ThroughputFps))
            && e.sampleCount == |WithCores(sr, c)|
            && (c == 1 ==> e.scalingFactor == Num(1.0) && e.efficiency == Num(1.0))
            && (c != 1 ==>
                  && e.scalingFactor == (if Truthy(BaselineOf(sr)) then Divide(e.throughputFps, BaselineOf(sr).value) else Num(0.0))
                  && e.efficiency == Divide(e.scalingFactor, Num(c as real))))
  {
    var sr := ScalingRows(rows);
    var details := ScalingLoop(sr, ScalingCores).0;
    forall e | e in details ensures e.0 in ScalingCores {
      DetailsMembers(sr, e.0, e.1);
    }
    forall e | (c, e) in details ensures c > 0 && e == ExpectedEntry(sr, c) {
      DetailsMembers(sr, c, e);
    }
    if c in ScalingCores && WithCores(sr, c) != [] {
      DetailsMembers(sr, c, ExpectedEntry(sr, c));
    }
    if exists e :: (c, e) in details {
      var e :| (c, e) in details;
      DetailsMembers(sr, c, e);
    }
  }

  /** `overall_scaling_efficiency` is the 4-core efficiency, and 0.0 without 4-core rows. */
  lemma OverallScalingEfficiency(rows: seq<Row>)
    requires rows != []
    ensures MulticoreScalingOf(rows).Ok?
    ensures var sr := ScalingRows(rows);
      MulticoreScalingOf(rows).value.overallScalingEfficiency ==
        if WithCores(sr, 4) != [] then ExpectedEntry(sr, 4).efficiency else Num(0.0)
  {
    var sr := ScalingRows(rows);
    ScalingLoopUnfolded(sr);
    OverallEfficiencyAppend(EntryFor(sr, 1) + EntryFor(sr, 2), EntryFor(sr, 4));
  }

  // ---------------------------------------------------------------------------
  // calculate_real_statistics

  /** `processed_data` after calculate_real_statistics. */
  datatype ProcessedData = ProcessedData(
    dataSource: string, validationStatus: string, overallStatistics: OverallStatistics,
    performanceStatistics: seq<(Metric, MetricStatistics)>, peakPerformance: PeakPerformance,
    multicoreScaling: MulticoreScaling)

  /** calculate_real_statistics on a DataFrame of `rows`; with no rows it has
      no `model` column and `overall_stats` raises KeyError. */
  function RealStatistics(rows: seq<Row>, stdOf: seq<real> -> real, tCritical: nat -> real,
                          sqrtOf: nat -> real): Result<ProcessedData, PyError>
    requires forall n: nat :: n > 1 ==> sqrtOf(n) > 0.0
  {
    if rows == [] then Err(KeyError)
    else
      Ok(ProcessedData("real_hardware_measurements_only", "all_measurements_verified", Overall(rows),
                       PerformanceStats(rows, Metrics, stdOf, tCritical, sqrtOf), PeakPerformanceOf(rows),
                       MulticoreScalingOf(rows).value))
  }

  /** Every metric gets statistics exactly when its column has more than one present value. */
  lemma MetricHasStatistics(rows: seq<Row>, stdOf: seq<real> -> real, tCritical: nat -> real,
                            sqrtOf: nat -> real, metric: Metric)
    requires forall n: nat :: n > 1 ==> sqrtOf(n) > 0.0
    ensures (exists s :: (metric, s) in PerformanceStats(rows, Metrics, stdOf, tCritical, sqrtOf)) <==>
      |Present(Column(rows, metric))| > 1
  {
    var data := Present(Column(rows, metric));
    assert metric in Metrics by { assert metric.LatencyMs? || metric.ThroughputFps? || metric.PowerWatts? ||
                                         metric.EfficiencyFpsPerWatt? || metric.TemperatureCelsius?; }
    if |data| > 1 {
      var s := Describe(data, stdOf(data), tCritical(|data| - 1), sqrtOf(|data|));
      PerformanceStatsMembers(rows, Metrics, stdOf, tCritical, sqrtOf, metric, s);
    }
    if exists s :: (metric, s) in PerformanceStats(rows, Metrics, stdOf, tCritical, sqrtOf) {
      var s :| (metric, s) in PerformanceStats(rows, Metrics, stdOf, tCritical, sqrtOf);
      PerformanceStatsMembers(rows, Metrics, stdOf, tCritical, sqrtOf, metric, s);
    }
  }

  /** The statistics fail exactly on an empty DataFrame; otherwise they count
      every row, hold one entry per metric with more than one present value,
      and embed the scaling analysis. */
  lemma RealStatisticsContents(rows: seq<Row>, stdOf: seq<real> -> real, tCritical: nat -> real,
                               sqrtOf: nat -> real, metric: Metric)
    requires forall n: nat :: n > 1 ==> sqrtOf(n) > 0.0
    ensures RealStatistics(rows, stdOf, tCritical, sqrtOf).Err? <==> rows == []
    ensures RealStatistics(rows, stdOf, tCritical, sqrtOf).Err? ==> RealStatistics(rows, stdOf, tCritical, sqrtOf).error == KeyError
    ensures RealStatistics(rows, stdOf, tCritical, sqrtOf).Ok? ==>
      var p := RealStatistics(rows, stdOf, tCritical, sqrtOf).value;
      && p.overallStatistics.totalMeasurements == |rows|
      && 1 <= p.overallStatistics.modelsTested <= |rows|
      && 1 <= p.overallStatistics.configurationsTested <= |rows|
      && ((exists s :: (metric, s) in p.performanceStatistics) <==> |Present(Column(rows, metric))| > 1)
      && p.peakPerformance == PeakPerformanceOf(rows)
      && Ok(p.multicoreScaling) == MulticoreScalingOf(rows)
  {
    if rows != [] {
      var p := RealStatistics(rows, stdOf, tCritical, sqrtOf).value;
      assert p.overallStatistics == Overall(rows);
      assert p.performanceStatistics == PerformanceStats(rows, Metrics, stdOf, tCritical, sqrtOf);
      OverallBounds(rows);
      MetricHasStatistics(rows, stdOf, tCritical, sqrtOf, metric);
    }
  }
}
