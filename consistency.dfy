/** src/validation/validate_calculations.py: extracting the valid measurements,
    the two arithmetic consistency checks per record, the success rate and the
    overall assessment of the validation report. */
module Consistency {
  import opened Wrappers
  import opened Records
  import opened Numeric

  // ---------------------------------------------------------------------------
  // extract_all_measurements

  /** The valid measurements of every configuration of every model, in file
      order; nothing when the file has no `detailed_results`. */
  function AllMeasurements(data: BenchmarkData): seq<Measurement>
  {
    match data.detailedResults
    case None => []
    case Some(models) => KeepValid(FlattenModels(models))
  }

  method ExtractAllMeasurements(data: BenchmarkData) returns (all: seq<Measurement>)
    ensures all == AllMeasurements(data)
  {
    all := [];
    if data.detailedResults.Some? {
      var models := data.detailedResults.value;
      for i := 0 to |models|
        invariant all == KeepValid(FlattenModels(models[..i]))
      {
        all := AppendConfigs(all, models[i].configs);
        assert models[..i + 1][..i] == models[..i];
        assert FlattenModels(models[..i + 1]) == FlattenModels(models[..i]) + FlattenConfigs(models[i].configs);
        KeepValidAppend(FlattenModels(models[..i]), FlattenConfigs(models[i].configs));
      }
      assert models[..|models|] == models;
    }
  }

  /** The loop over the configurations of one model. */
  method AppendConfigs(acc: seq<Measurement>, configs: seq<ConfigEntry>) returns (all: seq<Measurement>)
    ensures all == acc + KeepValid(FlattenConfigs(configs))
  {
    all := acc;
    for j := 0 to |configs|
      invariant all == acc + KeepValid(FlattenConfigs(configs[..j]))
    {
      assert configs[..j + 1][..j] == configs[..j];
      assert FlattenConfigs(configs[..j + 1]) == FlattenConfigs(configs[..j]) + ConfigMeasurements(configs[j]);
      KeepValidAppend(FlattenConfigs(configs[..j]), ConfigMeasurements(configs[j]));
      if configs[j].measurements.Some? {
        all := AppendValid(all, configs[j].measurements.value);
      }
    }
    assert configs[..|configs|] == configs;
  }

  /** The innermost loop of extract_all_measurements: append the measurements
      of one configuration whose validity flag is not false. */
  method AppendValid(acc: seq<Measurement>, ms: seq<Measurement>) returns (all: seq<Measurement>)
    ensures all == acc + KeepValid(ms)
  {
    all := acc;
    for k := 0 to |ms|
      invariant all == acc + KeepValid(ms[..k])
    {
      assert ms[..k + 1] == ms[..k] + [ms[k]];
      KeepValidSnoc(ms[..k], ms[k]);
      if ms[k].isValid.GetOr(true) {
        all := all + [ms[k]];
      }
    }
    assert ms[..|ms|] == ms;
  }

  /** A measurement is extracted exactly when it is listed under some
      configuration of some model and its validity flag is not false. */
  lemma AllMeasurementsMembers(data: BenchmarkData, m: Measurement)
    ensures m in AllMeasurements(data) <==>
      IsKept(m) && data.detailedResults.Some? && InSomeConfig(data.detailedResults.value, m)
  {
    if data.detailedResults.Some? {
      var flat := FlattenModels(data.detailedResults.value);
      FlattenModelsMembers(data.detailedResults.value, m);
      KeepValidContents(flat);
      assert m in KeepValid(flat) <==> multiset(KeepValid(flat))[m] > 0;
      assert m in flat <==> multiset(flat)[m] > 0;
    }
  }

  // ---------------------------------------------------------------------------
  // validate_mathematical_consistency

  /** The field values with the defaults of `measurement.get(key, default)`. */
  function Throughput(m: Measurement): real { m.throughputFps.GetOr(0.0) }
  function Power(m: Measurement): real { m.powerWatts.GetOr(1.0) }
  function Efficiency(m: Measurement): real { m.efficiencyFpsPerWatt.GetOr(0.0) }
  function Latency(m: Measurement): real { m.latencyMs.GetOr(0.0) }
  function Batch(m: Measurement): int { m.batchSize.GetOr(1) }

  /** `throughput / power if power > 0 else 0`. */
  function ExpectedEfficiency(m: Measurement): real
  {
    if Power(m) > 0.0 then Throughput(m) / Power(m) else 0.0
  }

  /** `batch_size / (latency / 1000)`, only computed for a positive latency. */
  function ExpectedThroughput(m: Measurement): real
    requires Latency(m) > 0.0
  {
    Batch(m) as real / (Latency(m) / 1000.0)
  }

  /** Check 1 fails: a positive efficiency more than 0.01 away from throughput/power. */
  predicate EfficiencyFails(m: Measurement)
  {
    Abs(Efficiency(m) - ExpectedEfficiency(m)) > 0.01 && Efficiency(m) > 0.0
  }

  /** Check 2 fails: for a positive latency, throughput more than 5% of itself
      away from batch/(latency/1000). */
  predicate ThroughputFails(m: Measurement)
  {
    Latency(m) > 0.0 && Abs(Throughput(m) - ExpectedThroughput(m)) > Throughput(m) * 0.05
  }

  datatype CheckName = EfficiencyCalculation | ThroughputCalculation

  /** One entry of `failed_measurements`. */
  datatype FailedCheck = FailedCheck(measurementIndex: nat, test: CheckName, expected: real, actual: real, error: real)

  /** The dictionary returned by validate_mathematical_consistency. */
  datatype ConsistencyResults = ConsistencyResults(
    totalMeasurements: nat,
    consistencyChecks: nat,
    consistencyFailures: nat,
    failedMeasurements: seq<FailedCheck>)

  predicate Fails(m: Measurement, test: CheckName)
  {
    match test
    case EfficiencyCalculation => EfficiencyFails(m)
    case ThroughputCalculation => ThroughputFails(m)
  }

  /** The entries appended while checking record number `i`. */
  function RecordFailures(i: nat, m: Measurement): seq<FailedCheck>
  {
    (if EfficiencyFails(m)
     then [FailedCheck(i, EfficiencyCalculation, ExpectedEfficiency(m), Efficiency(m),
                       Abs(Efficiency(m) - ExpectedEfficiency(m)))]
     else [])
    + (if ThroughputFails(m)
       then [FailedCheck(i, ThroughputCalculation, ExpectedThroughput(m), Throughput(m),
                         Abs(Throughput(m) - ExpectedThroughput(m)))]
       else [])
  }

  /** All failure entries for a list of records, in loop order. */
  function FailuresOf(ms: seq<Measurement>): seq<FailedCheck>
    decreases |ms|
  {
    if ms == [] then [] else FailuresOf(ms[..|ms| - 1]) + RecordFailures(|ms| - 1, ms[|ms| - 1])
  }

  /** The loop of validate_mathematical_consistency. The success rate it then
      computes divides by the number of checks, so an empty input raises
      ZeroDivisionError instead of returning. */
  method ValidateMathematicalConsistency(ms: seq<Measurement>) returns (r: Result<ConsistencyResults, PyError>)
    ensures r.Err? <==> ms == []
    ensures r.Err? ==> r.error == ZeroDivisionError
    ensures r.Ok? ==> r.value.totalMeasurements == |ms| && r.value.consistencyChecks == |ms|
    ensures r.Ok? ==> r.value.failedMeasurements == FailuresOf(ms)
    ensures r.Ok? ==> r.value.consistencyFailures == |r.value.failedMeasurements|
  {
    var checks, failures := 0, 0;
    var failed: seq<FailedCheck> := [];
    for i := 0 to |ms|
      invariant checks == i
      invariant failed == FailuresOf(ms[..i])
      invariant failures == |failed|
    {
      checks := checks + 1;
      var m := ms[i];
      var throughput := m.throughputFps.GetOr(0.0);
      var power := m.powerWatts.GetOr(1.0);
      var efficiency := m.efficiencyFpsPerWatt.GetOr(0.0);
      var latency := m.latencyMs.GetOr(0.0);
      var batchSize := m.batchSize.GetOr(1);

      var expectedEfficiency := if power > 0.0 then throughput / power else 0.0;
      var efficiencyError := Abs(efficiency - expectedEfficiency);
      var efficiencyTolerance := 0.01;
      if efficiencyError > efficiencyTolerance && efficiency > 0.0 {
        failures := failures + 1;
        failed := failed + [FailedCheck(i, EfficiencyCalculation, expectedEfficiency, efficiency, efficiencyError)];
      }

      if latency > 0.0 {
        var expectedThroughput := batchSize as real / (latency / 1000.0);
        var throughputError := Abs(throughput - expectedThroughput);
        var throughputTolerance := throughput * 0.05;
        if throughputError > throughputTolerance {
          failures := failures + 1;
          failed := failed + [FailedCheck(i, ThroughputCalculation, expectedThroughput, throughput, throughputError)];
        }
      }
      assert ms[..i + 1][..i] == ms[..i];
    }
    assert ms[..|ms|] == ms;
    if checks == 0 {
      return Err(ZeroDivisionError);
    }
    r := Ok(ConsistencyResults(|ms|, checks, failures, failed));
  }

  /** Each record adds at most two entries; every entry points at a record of
      the input, and entries appear in non-decreasing record order. */
  lemma {:induction false} FailuresOfShape(ms: seq<Measurement>)
    ensures |FailuresOf(ms)| <= 2 * |ms|
    ensures forall k :: 0 <= k < |FailuresOf(ms)| ==> FailuresOf(ms)[k].measurementIndex < |ms|
    ensures forall a, b :: 0 <= a < b < |FailuresOf(ms)| ==>
      FailuresOf(ms)[a].measurementIndex <= FailuresOf(ms)[b].measurementIndex
    decreases |ms|
  {
    if ms != [] {
      FailuresOfShape(ms[..|ms| - 1]);
    }
  }

  /** `failed_measurements` holds an entry for record `i` and test `test`. */
  ghost predicate HasFailure(fs: seq<FailedCheck>, i: nat, test: CheckName)
  {
    exists k :: 0 <= k < |fs| && fs[k].measurementIndex == i && fs[k].test == test
  }

  lemma HasFailureAppend(fs: seq<FailedCheck>, gs: seq<FailedCheck>, i: nat, test: CheckName)
    ensures HasFailure(fs + gs, i, test) <==> HasFailure(fs, i, test) || HasFailure(gs, i, test)
  {
    if HasFailure(fs + gs, i, test) {
      var k :| 0 <= k < |fs + gs| && (fs + gs)[k].measurementIndex == i && (fs + gs)[k].test == test;
      if k < |fs| {
        assert fs[k] == (fs + gs)[k];
      } else {
        assert gs[k - |fs|] == (fs + gs)[k];
      }
    }
    if HasFailure(fs, i, test) {
      var k :| 0 <= k < |fs| && fs[k].measurementIndex == i && fs[k].test == test;
      assert (fs + gs)[k] == fs[k];
    }
    if HasFailure(gs, i, test) {
      var k :| 0 <= k < |gs| && gs[k].measurementIndex == i && gs[k].test == test;
      assert (fs + gs)[|fs| + k] == gs[k];
    }
  }

  lemma RecordFailuresIff(i: nat, m: Measurement, j: nat, test: CheckName)
    ensures HasFailure(RecordFailures(i, m), j, test) <==> j == i && Fails(m, test)
  {
    var rs := RecordFailures(i, m);
    if j == i && Fails(m, test) {
      var k := if test == ThroughputCalculation && EfficiencyFails(m) then 1 else 0;
      assert rs[k].measurementIndex == j && rs[k].test == test;
    }
  }

  /** A failure entry for record `i` and a test is recorded exactly when that
      test fails on record `i`. */
  lemma {:induction false} FailureRecordedIff(ms: seq<Measurement>, i: nat, test: CheckName)
    requires i < |ms|
    ensures HasFailure(FailuresOf(ms), i, test) <==> Fails(ms[i], test)
    decreases |ms|
  {
    var n := |ms| - 1;
    var ms' := ms[..n];
    var fs', last := FailuresOf(ms'), RecordFailures(n, ms[n]);
    assert FailuresOf(ms) == fs' + last;
    HasFailureAppend(fs', last, i, test);
    RecordFailuresIff(n, ms[n], i, test);
    if i < n {
      FailureRecordedIff(ms', i, test);
      assert ms'[i] == ms[i];
    } else {
      FailuresOfShape(ms');
      assert !HasFailure(fs', i, test);
    }
  }

  /** A record whose efficiency field is exactly throughput/power for a positive
      power (a missing power reading counting as 1), or is not positive, never
      fails the efficiency check. */
  predicate EfficiencyConsistent(m: Measurement)
  {
    || (Power(m) > 0.0 && m.efficiencyFpsPerWatt == Some(Throughput(m) / Power(m)))
    || Efficiency(m) <= 0.0
  }

  lemma NoEfficiencyFailures(ms: seq<Measurement>)
    requires forall i :: 0 <= i < |ms| ==> EfficiencyConsistent(ms[i])
    ensures forall k :: 0 <= k < |FailuresOf(ms)| ==> FailuresOf(ms)[k].test == ThroughputCalculation
  {
    FailuresOfShape(ms);
    forall k | 0 <= k < |FailuresOf(ms)|
      ensures FailuresOf(ms)[k].test == ThroughputCalculation
    {
      var f := FailuresOf(ms)[k];
      FailureRecordedIff(ms, f.measurementIndex, f.test);
      assert HasFailure(FailuresOf(ms), f.measurementIndex, f.test);
      assert Fails(ms[f.measurementIndex], f.test);
      assert !EfficiencyFails(ms[f.measurementIndex]);
    }
  }

  // ---------------------------------------------------------------------------
  // success rate and overall_assessment (generate_validation_report)

  /** `(checks - failures) / checks * 100`; Python raises ZeroDivisionError for
      zero checks, so the model is only defined for a positive count. */
  function SuccessRate(checks: nat, failures: nat): real
    requires checks > 0
  {
    (checks as int - failures as int) as real / checks as real * 100.0
  }

  /** Because a record can fail both checks, the rate lies in [-100, 100]
      rather than [0, 100]. */
  lemma SuccessRateBounds(ms: seq<Measurement>)
    requires ms != []
    ensures -100.0 <= SuccessRate(|ms|, |FailuresOf(ms)|) <= 100.0
  {
    FailuresOfShape(ms);
    var n, f := |ms| as real, |FailuresOf(ms)| as real;
    DivideBounds(n - f, n, -1.0, 1.0);
  }

  /** One record that fails both checks gives a success rate of -100%. */
  lemma NegativeSuccessRate()
    ensures var m := Measurement(None, None, None, Some(1.0), Some(1.0), Some(1.0), Some(5.0), None, None, None);
      |FailuresOf([m])| == 2 && SuccessRate(1, |FailuresOf([m])|) == -100.0
  {
    var m := Measurement(None, None, None, Some(1.0), Some(1.0), Some(1.0), Some(5.0), None, None, None);
    assert [m][..0] == [];
    assert EfficiencyFails(m) && ThroughputFails(m);
  }

  datatype DataQuality = Excellent | Good | Poor
  datatype StatisticalValidity = High | Medium | Low
  datatype ValidationStatus = Passed | Failed

  datatype OverallAssessment = OverallAssessment(
    mathematicalConsistencyRate: real,
    dataQuality: DataQuality,
    statisticalValidity: StatisticalValidity,
    validationStatus: ValidationStatus)

  /** The fixed thresholds of `overall_assessment` for a success rate and a
      count of extracted measurements. */
  function Assess(rate: real, n: nat): (a: OverallAssessment)
    ensures a.mathematicalConsistencyRate == rate
    ensures a.dataQuality == Excellent <==> rate >= 95.0
    ensures a.dataQuality == Good <==> 90.0 <= rate < 95.0
    ensures a.dataQuality == Poor <==> rate < 90.0
    ensures a.statisticalValidity == High <==> n > 1000
    ensures a.statisticalValidity == Medium <==> 100 < n <= 1000
    ensures a.statisticalValidity == Low <==> n <= 100
    ensures a.validationStatus == Passed <==> a.dataQuality == Excellent && a.statisticalValidity == High
  {
    OverallAssessment(
      rate,
      if rate >= 95.0 then Excellent else if rate >= 90.0 then Good else Poor,
      if n > 1000 then High else if n > 100 then Medium else Low,
      if rate >= 95.0 && n > 1000 then Passed else Failed)
  }

  /** The assessment of generate_validation_report for the results of the
      consistency check over `n` extracted measurements. */
  function AssessmentOf(results: ConsistencyResults, n: nat): OverallAssessment
    requires results.consistencyChecks > 0
  {
    Assess(SuccessRate(results.consistencyChecks, results.consistencyFailures), n)
  }

  lemma ScaleByPositive(q: real, c: real, t: real)
    requires c > 0.0
    ensures q >= t <==> q * c >= t * c
  {
    assert q * c - t * c == (q - t) * c;
  }

  /** A PASSED report means more than 1000 measurements and at most one failure
      entry per twenty checks. */
  lemma PassedMeansFewFailures(results: ConsistencyResults, n: nat)
    requires results.consistencyChecks > 0
    ensures AssessmentOf(results, n).validationStatus == Passed <==>
      n > 1000 && 20 * results.consistencyFailures <= results.consistencyChecks
  {
    var c, f := results.consistencyChecks as real, results.consistencyFailures as real;
    var q := (c - f) / c;
    assert q * c == c - f;
    assert SuccessRate(results.consistencyChecks, results.consistencyFailures) == q * 100.0;
    ScaleByPositive(q, c, 0.95);
    assert q * 100.0 >= 95.0 <==> q >= 0.95;
    assert q >= 0.95 <==> c - f >= 0.95 * c;
    assert c - f >= 0.95 * c <==> 20.0 * f <= c;
  }
}
