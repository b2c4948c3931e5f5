/** src/analysis/extract_real_data_only.py, class RealDataExtractor: load the
    benchmark results, flatten them into `measurements_df`, compute the
    statistics into `processed_data`, and validate the rows. The file system,
    logging and numpy/scipy numerics are outside the model; the numerics are
    parameters. */
module RealData {
  import opened Wrappers
  import opened Records
  import opened Frames
  import opened RowChecks
  import opened Statistics

  const NoRealData: string := "No real data loaded. Call load_real_measurements() first."
  const NoMeasurementsExtracted: string := "No measurements extracted. Call extract_performance_metrics() first."
  const NoMeasurementsToValidate: string := "No measurements to validate. Call extract_performance_metrics() first."

  /** `if not self.raw_data`: None and the empty object are false. */
  predicate Loaded(raw: Option<BenchmarkData>)
  {
    raw.Some? && (raw.value.detailedResults.Some? || raw.value.hasOtherKeys)
  }

  /** The `for metric in metrics` loop of calculate_real_statistics; `stdOf`,
      `tCritical` and `sqrtOf` stand for `Series.std()`, `stats.t.ppf(0.975, ·)`
      and `np.sqrt`. */
  method PerformanceStatistics(rows: seq<Row>, stdOf: seq<real> -> real, tCritical: nat -> real,
                               sqrtOf: nat -> real) returns (stats: seq<(Metric, MetricStatistics)>)
    requires forall n: nat :: n > 1 ==> sqrtOf(n) > 0.0
    ensures stats == PerformanceStats(rows, Metrics, stdOf, tCritical, sqrtOf)
  {
    stats := [];
    for i := 0 to |Metrics|
      invariant stats == PerformanceStats(rows, Metrics[..i], stdOf, tCritical, sqrtOf)
    {
      var metric := Metrics[i];
      var data := Present(Column(rows, metric));
      if |data| > 1 {
        var degreesFreedom := |data| - 1;
        var sampleStd := stdOf(data);
        var tValue := tCritical(degreesFreedom);
        stats := stats + [(metric, Describe(data, sampleStd, tValue, sqrtOf(|data|)))];
      }
      assert Metrics[..i + 1][..i] == Metrics[..i];
    }
    assert Metrics[..|Metrics|] == Metrics;
  }

  /** _analyze_multicore_scaling on the rows of `measurements_df`. */
  method AnalyzeMulticoreScaling(rows: seq<Row>) returns (r: Result<MulticoreScaling, PyError>)
    ensures r == MulticoreScalingOf(rows)
  {
    if rows == [] {
      return Err(KeyError);
    }
    var resnet18Batch1 := ScalingRows(rows);
    var details: seq<(int, CoreScaling)> := [];
    var baseline: Option<Float> := None;
    var cores := ScalingCores;
    for i := 0 to |cores|
      invariant (details, baseline) == ScalingLoop(resnet18Batch1, cores[..i])
    {
      var c := cores[i];
      var coreData := WithCores(resnet18Batch1, c);
      if |coreData| > 0 {
        var mean := SeriesMean(Column(coreData, ThroughputFps));
        var factor, efficiency;
        if c == 1 {
          baseline := Some(mean);
          factor, efficiency := Num(1.0), Num(1.0);
        } else {
          factor := if Truthy(baseline) then Divide(mean, baseline.value) else Num(0.0);
          efficiency := Divide(factor, Num(c as real));
        }
        details := details + [(c, CoreScaling(mean, factor, efficiency, |coreData|))];
      }
      assert cores[..i + 1][..i] == cores[..i];
    }
    assert cores[..|cores|] == cores;
    r := Ok(MulticoreScaling([1, 2, 3, 4], details, OverallEfficiency(details)));
  }

  /** The innermost loop of extract_performance_metrics: one row per valid
      measurement of `config`, appended to `acc` in order. */
  method AppendConfigRows(acc: seq<Row>, model: string, config: ConfigEntry) returns (all: seq<Row>)
    ensures all == acc + ConfigRows(model, config)
  {
    all := acc;
    var measurements := ConfigMeasurements(config);
    for k := 0 to |measurements|
      invariant all == acc + MeasurementRows(model, config.name, measurements[..k])
    {
      var m := measurements[k];
      if IsKept(m) {
        all := all + [RowOf(model, config.name, m)];
      }
      MeasurementRowsSnoc(model, config.name, measurements[..k], m);
      assert measurements[..k + 1] == measurements[..k] + [m];
    }
    assert measurements[..|measurements|] == measurements;
  }

  /** The loop over the configurations of one model in
      extract_performance_metrics. */
  method AppendModelRows(acc: seq<Row>, model: ModelEntry) returns (all: seq<Row>)
    ensures all == acc + ModelRows(model.name, model.configs)
  {
    all := acc;
    for j := 0 to |model.configs|
      invariant all == acc + ModelRows(model.name, model.configs[..j])
    {
      all := AppendConfigRows(all, model.name, model.configs[j]);
      assert model.configs[..j + 1][..j] == model.configs[..j];
    }
    assert model.configs[..|model.configs|] == model.configs;
  }

  /** The body of the loop of validate_measurements for row `idx`: the three
      counters advance for the checks the row passes, and its failure entries
      are appended in order. */
  method ValidateRow(idx: nat, row: Row, mathematical: nat, physical: nat, range: nat, failed: seq<FailedValidation>)
    returns (mathematical': nat, physical': nat, range': nat, failed': seq<FailedValidation>)
    ensures mathematical' == mathematical + (if MathConsistent(row) then 1 else 0)
    ensures physical' == physical + (if PhysicallyValid(row) then 1 else 0)
    ensures range' == range + (if RangeValid(row) then 1 else 0)
    ensures failed' == failed + RowFailures(idx, row)
  {
    mathematical', physical', range', failed' := mathematical, physical, range, failed;
    var expected := ExpectedEfficiency(row);
    var difference := EfficiencyDifference(row);
    ghost var fm := if MathConsistent(row) then [] else [MathematicalConsistency(idx, expected, row.efficiencyFpsPerWatt, difference)];
    ghost var fl := if LatencyValid(row) then [] else [InvalidLatency(idx, row.latencyMs)];
    ghost var ft := if ThroughputValid(row) then [] else [InvalidThroughput(idx, row.throughputFps)];
    if MathConsistent(row) {
      mathematical' := mathematical' + 1;
    } else {
      failed' := failed' + [MathematicalConsistency(idx, expected, row.efficiencyFpsPerWatt, difference)];
    }
    assert failed' == failed + fm;
    var physicalValid := true;
    if !LatencyValid(row) {
      physicalValid := false;
      failed' := failed' + [InvalidLatency(idx, row.latencyMs)];
    }
    assert failed' == failed + fm + fl;
    if !ThroughputValid(row) {
      physicalValid := false;
      failed' := failed' + [InvalidThroughput(idx, row.throughputFps)];
    }
    assert failed' == failed + (fm + fl + ft);
    if physicalValid {
      physical' := physical' + 1;
    }
    if RangeValid(row) {
      range' := range' + 1;
    }
  }

  class RealDataExtractor {
    var dataDir: string
    var rawData: Option<BenchmarkData>
    /** Absent until extract_performance_metrics has run. */
    var measurementsDf: Option<seq<Row>>
    /** None stands for the initial empty dictionary. */
    var processedData: Option<ProcessedData>

    constructor(dataDir: string)
      ensures this.dataDir == dataDir && rawData == None && measurementsDf == None && processedData == None
    {
      this.dataDir := dataDir;
      rawData := None;
      measurementsDf := None;
      processedData := None;
    }

    /** load_real_measurements; `file` is the parsed results file, None when
        it does not exist. */
    method LoadRealMeasurements(file: Option<BenchmarkData>) returns (r: Result<bool, PyError>)
      modifies this`rawData
      ensures file.None? ==> r == Err(FileNotFoundError) && rawData == old(rawData)
      ensures file.Some? ==> r == Ok(true) && rawData == file
    {
      if file.None? {
        return Err(FileNotFoundError);
      }
      rawData := file;
      r := Ok(true);
    }

    /** extract_performance_metrics: without loaded data it raises
        ValueError; otherwise `measurements_df` becomes the rows of the valid
        measurements, in file order. */
    method ExtractPerformanceMetrics() returns (r: Result<seq<Row>, PyError>)
      modifies this`measurementsDf
      ensures !Loaded(rawData) ==> r == Err(ValueError(NoRealData)) && measurementsDf == old(measurementsDf)
      ensures Loaded(rawData) ==> r == Ok(ExtractedRows(rawData.value)) && measurementsDf == Some(r.value)
    {
      if !Loaded(rawData) {
        return Err(ValueError(NoRealData));
      }
      var models := rawData.value.detailedResults.GetOr([]);
      var allMeasurements: seq<Row> := [];
      for i := 0 to |models|
        invariant allMeasurements == RowsOfModels(models[..i])
      {
        allMeasurements := AppendModelRows(allMeasurements, models[i]);
        assert models[..i + 1][..i] == models[..i];
      }
      assert models[..|models|] == models;
      measurementsDf := Some(allMeasurements);
      r := Ok(allMeasurements);
    }

    /** calculate_real_statistics: without extracted rows it raises
        ValueError; otherwise `processed_data` becomes the statistics of the
        rows, unless computing them raises. */
    method CalculateRealStatistics(stdOf: seq<real> -> real, tCritical: nat -> real, sqrtOf: nat -> real)
      returns (r: Result<ProcessedData, PyError>)
      requires forall n: nat :: n > 1 ==> sqrtOf(n) > 0.0
      modifies this`processedData
      ensures measurementsDf.None? ==> r == Err(ValueError(NoMeasurementsExtracted))
      ensures measurementsDf.Some? ==> r == RealStatistics(measurementsDf.value, stdOf, tCritical, sqrtOf)
      ensures processedData == if r.Ok? then Some(r.value) else old(processedData)
    {
      if measurementsDf.None? {
        return Err(ValueError(NoMeasurementsExtracted));
      }
      var rows := measurementsDf.value;
      if rows == [] {
        return Err(KeyError);
      }
      var overallStats := Overall(rows);
      var performanceStats := PerformanceStatistics(rows, stdOf, tCritical, sqrtOf);
      var peakPerformance := PeakPerformanceOf(rows);
      var scalingAnalysis := AnalyzeMulticoreScaling(rows);
      var data := ProcessedData("real_hardware_measurements_only", "all_measurements_verified", overallStats,
                                performanceStats, peakPerformance, scalingAnalysis.value);
      processedData := Some(data);
      r := Ok(data);
    }

    /** validate_measurements: without extracted rows it raises ValueError;
        otherwise the counts, failures and percentages of the rows. */
    method ValidateMeasurements() returns (r: Result<ValidationResults, PyError>)
      ensures measurementsDf.None? ==> r == Err(ValueError(NoMeasurementsToValidate))
      ensures measurementsDf.Some? ==> r == Validate(measurementsDf.value)
    {
      if measurementsDf.None? {
        return Err(ValueError(NoMeasurementsToValidate));
      }
      var rows := measurementsDf.value;
      var mathematical, physical, range := 0, 0, 0;
      var failed: seq<FailedValidation> := [];
      for idx := 0 to |rows|
        invariant mathematical == CountPassing(rows[..idx], MathCheck)
        invariant physical == CountPassing(rows[..idx], PhysicalCheck)
        invariant range == CountPassing(rows[..idx], RangeCheck)
        invariant failed == FailuresOf(rows[..idx])
      {
        mathematical, physical, range, failed := ValidateRow(idx, rows[idx], mathematical, physical, range, failed);
        FailuresOfPrefix(rows, idx);
        assert rows[..idx + 1][..idx] == rows[..idx];
      }
      assert rows[..|rows|] == rows;
      var total := |rows|;
      if total == 0 {
        return Err(ZeroDivisionError);
      }
      r := Ok(ValidationResults(total, ValidationChecks(mathematical, physical, range), failed,
        ValidationPercentages(Percentage(mathematical, total), Percentage(physical, total), Percentage(range, total))));
    }
  }
}
