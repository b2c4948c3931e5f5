/** src/analysis/extract_real_data_only.py, validate_measurements as a
    specification: the three per-row checks on DataFrame cells (where every
    comparison with NaN is false), the failure entries they append, the
    counters and the percentages. */
module RowChecks {
  import opened Wrappers
  import opened Records
  import opened Numeric
  import opened Frames

  // ---------------------------------------------------------------------------
  // Cell arithmetic

  /** `a <= x <= b` on a cell: false for NaN. */
  predicate InRange(x: Float, lo: real, hi: real)
  {
    x.Num? && lo <= x.value <= hi
  }

  /** `abs(a - b)`: NaN when either side is. */
  function AbsDiff(a: Float, b: Float): Float
  {
    if a.Num? && b.Num? then Num(Abs(a.value - b.value)) else NaN
  }

  /** `row['throughput_fps'] / row['power_watts'] if row['power_watts'] > 0 else 0`. */
  function ExpectedEfficiency(r: Row): Float
  {
    if r.powerWatts.Num? && r.powerWatts.value > 0.0 then
      (if r.throughputFps.Num? then Num(r.throughputFps.value / r.powerWatts.value) else NaN)
    else Num(0.0)
  }

  /** `max(0.001, efficiency * 0.001)`: Python's `max` keeps its first argument
      unless the second is strictly greater, so a NaN efficiency gives 0.001. */
  function Tolerance(r: Row): (t: real)
    ensures t >= 0.001
  {
    var e := r.efficiencyFpsPerWatt;
    if e.Num? && e.value * 0.001 > 0.001 then e.value * 0.001 else 0.001
  }

  function EfficiencyDifference(r: Row): Float
  {
    AbsDiff(ExpectedEfficiency(r), r.efficiencyFpsPerWatt)
  }

  // ---------------------------------------------------------------------------
  // The checks

  /** `efficiency_diff <= tolerance`. */
  predicate MathConsistent(r: Row)
  {
    EfficiencyDifference(r).Num? && EfficiencyDifference(r).value <= Tolerance(r)
  }

  predicate LatencyValid(r: Row) { InRange(r.latencyMs, 0.1, 1000.0) }

  predicate ThroughputValid(r: Row) { InRange(r.throughputFps, 1.0, 10000.0) }

  /** `physical_valid` after both bound checks. */
  predicate PhysicallyValid(r: Row) { LatencyValid(r) && ThroughputValid(r) }

  /** `10 <= power <= 100 and 20 <= temperature <= 100`. */
  predicate RangeValid(r: Row) { InRange(r.powerWatts, 10.0, 100.0) && InRange(r.temperatureCelsius, 20.0, 100.0) }

  /** An entry of `failed_validations`. */
  datatype FailedValidation =
    | MathematicalConsistency(index: nat, expected: Float, actual: Float, difference: Float)
    | InvalidLatency(index: nat, value: Float)
    | InvalidThroughput(index: nat, value: Float)

  /** The entries the loop body appends for row `idx`, in order. */
  function RowFailures(idx: nat, r: Row): seq<FailedValidation>
  {
    (if MathConsistent(r) then []
     else [MathematicalConsistency(idx, ExpectedEfficiency(r), r.efficiencyFpsPerWatt, EfficiencyDifference(r))])
    + (if LatencyValid(r) then [] else [InvalidLatency(idx, r.latencyMs)])
    + (if ThroughputValid(r) then [] else [InvalidThroughput(idx, r.throughputFps)])
  }

  /** `failed_validations` after rows `rows`; the index is the row's position
      in the DataFrame's default range index. */
  function FailuresOf(rows: seq<Row>): seq<FailedValidation>
    decreases |rows|
  {
    if rows == [] then [] else FailuresOf(rows[..|rows| - 1]) + RowFailures(|rows| - 1, rows[|rows| - 1])
  }

  /** Row `idx` appends its entries after those of the rows before it. */
  lemma FailuresOfPrefix(rows: seq<Row>, idx: nat)
    requires idx < |rows|
    ensures FailuresOf(rows[..idx + 1]) == FailuresOf(rows[..idx]) + RowFailures(idx, rows[idx])
  {
    assert rows[..idx + 1][..idx] == rows[..idx];
  }

  datatype Check = MathCheck | PhysicalCheck | RangeCheck

  predicate Passes(r: Row, c: Check)
  {
    match c
    case MathCheck => MathConsistent(r)
    case PhysicalCheck => PhysicallyValid(r)
    case RangeCheck => RangeValid(r)
  }

  /** `validation_checks[check]`: the rows passing it. */
  function CountPassing(rows: seq<Row>, c: Check): nat
    decreases |rows|
  {
    if rows == [] then 0 else CountPassing(rows[..|rows| - 1], c) + (if Passes(rows[|rows| - 1], c) then 1 else 0)
  }

  datatype ValidationChecks = ValidationChecks(mathematicalConsistency: nat, physicalValidity: nat, rangeValidation: nat)

  datatype ValidationPercentages = ValidationPercentages(mathematicalConsistency: real, physicalValidity: real, rangeValidation: real)

  /** The dictionary returned by validate_measurements. */
  datatype ValidationResults = ValidationResults(
    totalMeasurements: nat,
    validationChecks: ValidationChecks,
    failedValidations: seq<FailedValidation>,
    validationPercentages: ValidationPercentages)

  /** `(count / total) * 100`. */
  function Percentage(count: nat, total: nat): real
    requires total > 0
  {
    count as real / total as real * 100.0
  }

  /** validate_measurements on a loaded DataFrame: with no rows the
      percentages divide by zero. */
  function Validate(rows: seq<Row>): Result<ValidationResults, PyError>
  {
    if rows == [] then Err(ZeroDivisionError)
    else
      var n := |rows|;
      var checks := ValidationChecks(CountPassing(rows, MathCheck), CountPassing(rows, PhysicalCheck),
                                     CountPassing(rows, RangeCheck));
      Ok(ValidationResults(n, checks, FailuresOf(rows),
        ValidationPercentages(Percentage(checks.mathematicalConsistency, n),
                              Percentage(checks.physicalValidity, n),
                              Percentage(checks.rangeValidation, n))))
  }

  // ---------------------------------------------------------------------------
  // Properties

  /** A row whose efficiency is exactly throughput/power passes the
      mathematical check; a missing efficiency always fails it, and so does a
      missing throughput with a positive power. */
  lemma MathCheckCases(r: Row)
    ensures (r.powerWatts.Num? && r.powerWatts.value > 0.0 && r.throughputFps.Num? &&
             r.efficiencyFpsPerWatt == Num(r.throughputFps.value / r.powerWatts.value))
            ==> MathConsistent(r)
    ensures r.efficiencyFpsPerWatt.NaN? ==> !MathConsistent(r)
    ensures r.powerWatts.Num? && r.powerWatts.value > 0.0 && r.throughputFps.NaN? ==> !MathConsistent(r)
    ensures !(r.powerWatts.Num? && r.powerWatts.value > 0.0) && r.efficiencyFpsPerWatt.Num? ==>
      (MathConsistent(r) <==> Abs(r.efficiencyFpsPerWatt.value) <= Tolerance(r))
  {
  }

  /** The tolerance is 0.1% of the efficiency, but never below 0.001. */
  lemma ToleranceMeaning(r: Row)
    ensures r.efficiencyFpsPerWatt.Num? ==> Tolerance(r) == Max([0.001, r.efficiencyFpsPerWatt.value * 0.001])
    ensures r.efficiencyFpsPerWatt.NaN? ==> Tolerance(r) == 0.001
  {
  }

  /** The kind of a failure entry, `entry['type']`. */
  datatype FailureType = MathType | LatencyType | ThroughputType

  function TypeOf(f: FailedValidation): FailureType
  {
    match f
    case MathematicalConsistency(_, _, _, _) => MathType
    case InvalidLatency(_, _) => LatencyType
    case InvalidThroughput(_, _) => ThroughputType
  }

  /** The entries of a given type. */
  function CountType(fs: seq<FailedValidation>, t: FailureType): nat
    decreases |fs|
  {
    if fs == [] then 0 else CountType(fs[..|fs| - 1], t) + (if TypeOf(fs[|fs| - 1]) == t then 1 else 0)
  }

  lemma {:induction false} CountTypeAppend(a: seq<FailedValidation>, b: seq<FailedValidation>, t: FailureType)
    ensures CountType(a + b, t) == CountType(a, t) + CountType(b, t)
    decreases |b|
  {
    if b == [] {
      assert a + b == a;
    } else {
      var b' := b[..|b| - 1];
      assert a + b == (a + b') + [b[|b| - 1]];
      CountTypeAppend(a, b', t);
    }
  }

  /** The entries a row can append, whatever the outcome of its three checks. */
  function Appended(math: bool, latency: bool, throughput: bool, fm: FailedValidation,
                    fl: FailedValidation, ft: FailedValidation): seq<FailedValidation>
  {
    (if math then [] else [fm]) + (if latency then [] else [fl]) + (if throughput then [] else [ft])
  }

  /** A list of at most one entry counts that entry's type. */
  lemma CountTypeOptional(skip: bool, f: FailedValidation, t: FailureType)
    ensures CountType(if skip then [] else [f], t) == if !skip && TypeOf(f) == t then 1 else 0
  {
    if !skip {
      assert [f][..0] == [];
    }
  }

  lemma AppendedCount(math: bool, latency: bool, throughput: bool, fm: FailedValidation,
                      fl: FailedValidation, ft: FailedValidation, t: FailureType)
    ensures CountType(Appended(math, latency, throughput, fm, fl, ft), t) ==
      (if !math && TypeOf(fm) == t then 1 else 0) + (if !latency && TypeOf(fl) == t then 1 else 0)
      + (if !throughput && TypeOf(ft) == t then 1 else 0)
  {
    var a := if math then [] else [fm];
    var b := if latency then [] else [fl];
    var c := if throughput then [] else [ft];
    CountTypeAppend(a + b, c, t);
    CountTypeAppend(a, b, t);
    CountTypeOptional(math, fm, t);
    CountTypeOptional(latency, fl, t);
    CountTypeOptional(throughput, ft, t);
  }

  lemma AppendedIndices(idx: nat, math: bool, latency: bool, throughput: bool, fm: FailedValidation,
                        fl: FailedValidation, ft: FailedValidation)
    requires fm.index == idx && fl.index == idx && ft.index == idx
    ensures |Appended(math, latency, throughput, fm, fl, ft)| <= 3
    ensures forall f :: f in Appended(math, latency, throughput, fm, fl, ft) ==> f.index == idx
  {
    var a := if math then [] else [fm];
    var b := if latency then [] else [fl];
    var c := if throughput then [] else [ft];
    assert forall f :: f in a + b + c ==> f in a || f in b || f in c;
  }

  /** Each row adds at most three entries, all carrying its index: exactly one
      `mathematical_consistency` entry when that check fails, and one entry
      per violated physical bound, so at most two of those; the range check
      never adds one. */
  lemma RowFailuresShape(idx: nat, r: Row)
    ensures |RowFailures(idx, r)| <= 3
    ensures forall f :: f in RowFailures(idx, r) ==> f.index == idx
    ensures CountType(RowFailures(idx, r), MathType) == if MathConsistent(r) then 0 else 1
    ensures CountType(RowFailures(idx, r), LatencyType) == if LatencyValid(r) then 0 else 1
    ensures CountType(RowFailures(idx, r), ThroughputType) == if ThroughputValid(r) then 0 else 1
    ensures PhysicallyValid(r) <==>
      CountType(RowFailures(idx, r), LatencyType) + CountType(RowFailures(idx, r), ThroughputType) == 0
  {
    var fm := MathematicalConsistency(idx, ExpectedEfficiency(r), r.efficiencyFpsPerWatt, EfficiencyDifference(r));
    var fl, ft := InvalidLatency(idx, r.latencyMs), InvalidThroughput(idx, r.throughputFps);
    var m, l, t := MathConsistent(r), LatencyValid(r), ThroughputValid(r);
    assert RowFailures(idx, r) == Appended(m, l, t, fm, fl, ft);
    AppendedIndices(idx, m, l, t, fm, fl, ft);
    AppendedCount(m, l, t, fm, fl, ft, MathType);
    AppendedCount(m, l, t, fm, fl, ft, LatencyType);
    AppendedCount(m, l, t, fm, fl, ft, ThroughputType);
  }

  /** A counter never exceeds the number of rows. */
  lemma {:induction false} CountPassingBound(rows: seq<Row>, c: Check)
    ensures CountPassing(rows, c) <= |rows|
    ensures CountPassing(rows, c) == |rows| <==> forall i :: 0 <= i < |rows| ==> Passes(rows[i], c)
    decreases |rows|
  {
    if rows != [] {
      var init := rows[..|rows| - 1];
      CountPassingBound(init, c);
      assert forall i :: 0 <= i < |init| ==> init[i] == rows[i];
    }
  }

  /** Over the whole DataFrame: the `mathematical_consistency` entries are
      exactly the rows the counter did not count, there are at most three
      entries per row, and entries come in row order with indices in range. */
  lemma {:induction false} FailuresOfCounts(rows: seq<Row>)
    ensures CountType(FailuresOf(rows), MathType) == |rows| - CountPassing(rows, MathCheck)
    ensures |FailuresOf(rows)| <= 3 * |rows|
    ensures forall i :: 0 <= i < |FailuresOf(rows)| ==> FailuresOf(rows)[i].index < |rows|
    ensures forall i, j :: 0 <= i < j < |FailuresOf(rows)| ==> FailuresOf(rows)[i].index <= FailuresOf(rows)[j].index
    decreases |rows|
  {
    if rows != [] {
      var n := |rows| - 1;
      var init := rows[..n];
      FailuresOfCounts(init);
      CountPassingBound(init, MathCheck);
      RowFailuresShape(n, rows[n]);
      CountTypeAppend(FailuresOf(init), RowFailures(n, rows[n]), MathType);
      var fs, fs', tail := FailuresOf(rows), FailuresOf(init), RowFailures(n, rows[n]);
      assert fs == fs' + tail;
      forall i | 0 <= i < |fs| ensures fs[i].index <= n && (i >= |fs'| ==> fs[i].index == n) {
        if i >= |fs'| {
          assert fs[i] == tail[i - |fs'|];
          assert fs[i] in tail;
        } else {
          assert fs[i] == fs'[i];
        }
      }
    }
  }

  /** validate_measurements divides by zero exactly on an empty DataFrame;
      otherwise every counter is at most the row count and every percentage
      lies in [0, 100]. */
  lemma ValidateBounds(rows: seq<Row>)
    ensures Validate(rows).Err? <==> rows == []
    ensures Validate(rows).Err? ==> Validate(rows).error == ZeroDivisionError
    ensures Validate(rows).Ok? ==>
      var v := Validate(rows).value;
      && v.totalMeasurements == |rows|
      && v.validationChecks.mathematicalConsistency <= v.totalMeasurements
      && v.validationChecks.physicalValidity <= v.totalMeasurements
      && v.validationChecks.rangeValidation <= v.totalMeasurements
      && 0.0 <= v.validationPercentages.mathematicalConsistency <= 100.0
      && 0.0 <= v.validationPercentages.physicalValidity <= 100.0
      && 0.0 <= v.validationPercentages.rangeValidation <= 100.0
  {
    if rows != [] {
      CountPassingBound(rows, MathCheck);
      CountPassingBound(rows, PhysicalCheck);
      CountPassingBound(rows, RangeCheck);
      PercentageBounds(CountPassing(rows, MathCheck), |rows|);
      PercentageBounds(CountPassing(rows, PhysicalCheck), |rows|);
      PercentageBounds(CountPassing(rows, RangeCheck), |rows|);
    }
  }

  lemma PercentageBounds(count: nat, total: nat)
    requires 0 < total && count <= total
    ensures 0.0 <= Percentage(count, total) <= 100.0
  {
    assert count as real <= total as real;
    assert count as real / total as real <= 1.0;
  }
}
