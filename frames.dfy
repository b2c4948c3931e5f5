/** src/analysis/extract_real_data_only.py, extract_performance_metrics as a
    specification: the rows of `measurements_df`, one per valid measurement,
    tagged with the enclosing model and configuration names. */
module Frames {
  import opened Wrappers
  import opened Records
  import opened ConfigNames
  import opened Consistency

  /** A cell of a float64 DataFrame column: a missing value (`None` from
      `measurement.get(...)`) is stored as NaN. */
  datatype Float = Num(value: real) | NaN

  function ToFloat(o: Option<real>): Float
  {
    match o
    case None => NaN
    case Some(x) => Num(x)
  }

  /** One row of `measurements_df`. */
  datatype Row = Row(
    model: string,
    configuration: string,
    timestamp: Option<string>,
    latencyMs: Float,
    throughputFps: Float,
    powerWatts: Float,
    efficiencyFpsPerWatt: Float,
    temperatureCelsius: Float,
    cores: int,
    batchSize: int)

  /** The dictionary appended for one valid measurement. */
  function RowOf(model: string, config: string, m: Measurement): Row
  {
    Row(model, config, m.timestamp, ToFloat(m.latencyMs), ToFloat(m.throughputFps),
        ToFloat(m.powerWatts), ToFloat(m.efficiencyFpsPerWatt), ToFloat(m.temperatureCelsius),
        CoresFromConfig(config), BatchFromConfig(config))
  }

  /** The rows appended for the measurements `ms` of one configuration: one
      per valid measurement, in order. */
  function MeasurementRows(model: string, config: string, ms: seq<Measurement>): (r: seq<Row>)
    ensures |r| == |KeepValid(ms)|
  {
    var kept := KeepValid(ms);
    seq(|kept|, i requires 0 <= i < |kept| => RowOf(model, config, kept[i]))
  }

  /** One more measurement adds a row exactly when its validity flag is not false. */
  lemma MeasurementRowsSnoc(model: string, config: string, ms: seq<Measurement>, m: Measurement)
    ensures MeasurementRows(model, config, ms + [m]) ==
      MeasurementRows(model, config, ms) + (if IsKept(m) then [RowOf(model, config, m)] else [])
  {
    KeepValidSnoc(ms, m);
  }

  /** The rows of one configuration. */
  function ConfigRows(model: string, c: ConfigEntry): (r: seq<Row>)
    ensures |r| == |KeepValid(ConfigMeasurements(c))|
  {
    MeasurementRows(model, c.name, ConfigMeasurements(c))
  }

  /** The rows of the configurations `cs` of the model named `model`. */
  function ModelRows(model: string, cs: seq<ConfigEntry>): seq<Row>
    decreases |cs|
  {
    if cs == [] then [] else ModelRows(model, cs[..|cs| - 1]) + ConfigRows(model, cs[|cs| - 1])
  }

  /** The rows of the models `ms`, in file order. */
  function RowsOfModels(ms: seq<ModelEntry>): seq<Row>
    decreases |ms|
  {
    if ms == [] then [] else RowsOfModels(ms[..|ms| - 1]) + ModelRows(ms[|ms| - 1].name, ms[|ms| - 1].configs)
  }

  /** `all_measurements` after the loops, for a loaded results file. */
  function ExtractedRows(data: BenchmarkData): seq<Row>
  {
    match data.detailedResults
    case None => []
    case Some(models) => RowsOfModels(models)
  }

  /** A row holds the fields of its measurement, and the core count and batch
      size parsed from its configuration name. */
  predicate Carries(r: Row, m: Measurement)
  {
    && r.timestamp == m.timestamp
    && r.latencyMs == ToFloat(m.latencyMs)
    && r.throughputFps == ToFloat(m.throughputFps)
    && r.powerWatts == ToFloat(m.powerWatts)
    && r.efficiencyFpsPerWatt == ToFloat(m.efficiencyFpsPerWatt)
    && r.temperatureCelsius == ToFloat(m.temperatureCelsius)
    && r.cores == CoresFromConfig(r.configuration)
    && r.batchSize == BatchFromConfig(r.configuration)
  }

  /** Row `i` carries measurement `i`, for every `i`. */
  ghost predicate Matches(rows: seq<Row>, ms: seq<Measurement>)
  {
    |rows| == |ms| && forall i :: 0 <= i < |rows| ==> Carries(rows[i], ms[i])
  }

  lemma MatchesAppend(r1: seq<Row>, m1: seq<Measurement>, r2: seq<Row>, m2: seq<Measurement>)
    requires Matches(r1, m1) && Matches(r2, m2)
    ensures Matches(r1 + r2, m1 + m2)
  {
    forall i | 0 <= i < |r1 + r2| ensures Carries((r1 + r2)[i], (m1 + m2)[i]) {
      if i >= |r1| {
        assert (r1 + r2)[i] == r2[i - |r1|] && (m1 + m2)[i] == m2[i - |m1|];
      }
    }
  }

  lemma {:induction false} ModelRowsMatch(model: string, cs: seq<ConfigEntry>)
    ensures Matches(ModelRows(model, cs), KeepValid(FlattenConfigs(cs)))
    decreases |cs|
  {
    if cs != [] {
      var init := cs[..|cs| - 1];
      ModelRowsMatch(model, init);
      KeepValidAppend(FlattenConfigs(init), ConfigMeasurements(cs[|cs| - 1]));
      MatchesAppend(ModelRows(model, init), KeepValid(FlattenConfigs(init)),
                    ConfigRows(model, cs[|cs| - 1]), KeepValid(ConfigMeasurements(cs[|cs| - 1])));
    }
  }

  lemma {:induction false} RowsOfModelsMatch(ms: seq<ModelEntry>)
    ensures Matches(RowsOfModels(ms), KeepValid(FlattenModels(ms)))
    decreases |ms|
  {
    if ms != [] {
      var init, last := ms[..|ms| - 1], ms[|ms| - 1];
      RowsOfModelsMatch(init);
      ModelRowsMatch(last.name, last.configs);
      KeepValidAppend(FlattenModels(init), FlattenConfigs(last.configs));
      MatchesAppend(RowsOfModels(init), KeepValid(FlattenModels(init)),
                    ModelRows(last.name, last.configs), KeepValid(FlattenConfigs(last.configs)));
    }
  }

  /** Both scripts extract the same measurements: the rows of
      extract_performance_metrics are, one for one and in order, the
      measurements of extract_all_measurements, with the cores and batch size
      parsed from the configuration name. */
  lemma ExtractedRowsMatch(data: BenchmarkData)
    ensures Matches(ExtractedRows(data), AllMeasurements(data))
  {
    if data.detailedResults.Some? {
      RowsOfModelsMatch(data.detailedResults.value);
    }
  }

  /** The row is the one appended for a valid measurement of configuration
      `j` of model `i` of the file, tagged with those two names. */
  ghost predicate NamedIn(ms: seq<ModelEntry>, r: Row)
  {
    exists i, j, x :: 0 <= i < |ms| && 0 <= j < |ms[i].configs| &&
      x in KeepValid(ConfigMeasurements(ms[i].configs[j])) && r == RowOf(ms[i].name, ms[i].configs[j].name, x)
  }

  lemma ConfigRowsFrom(model: string, c: ConfigEntry, r: Row)
    requires r in ConfigRows(model, c)
    ensures exists x :: x in KeepValid(ConfigMeasurements(c)) && r == RowOf(model, c.name, x)
  {
    var kept := KeepValid(ConfigMeasurements(c));
    var k :| 0 <= k < |kept| && ConfigRows(model, c)[k] == r;
    assert kept[k] in kept;
  }

  lemma {:induction false} ModelRowsNamed(m: ModelEntry, k: nat, r: Row)
    requires k <= |m.configs| && r in ModelRows(m.name, m.configs[..k])
    ensures exists j, x :: 0 <= j < |m.configs| && x in KeepValid(ConfigMeasurements(m.configs[j]))
                           && r == RowOf(m.name, m.configs[j].name, x)
    decreases k
  {
    var cs := m.configs[..k];
    if k > 0 {
      assert cs[..k - 1] == m.configs[..k - 1];
      if r in ModelRows(m.name, m.configs[..k - 1]) {
        ModelRowsNamed(m, k - 1, r);
      } else {
        assert r in ConfigRows(m.name, m.configs[k - 1]);
        ConfigRowsFrom(m.name, m.configs[k - 1], r);
      }
    }
  }

  lemma {:induction false} RowsOfModelsNamed(ms: seq<ModelEntry>, r: Row)
    requires r in RowsOfModels(ms)
    ensures NamedIn(ms, r)
    decreases |ms|
  {
    var init, last := ms[..|ms| - 1], ms[|ms| - 1];
    if r in RowsOfModels(init) {
      RowsOfModelsNamed(init, r);
      var i, j, x :| 0 <= i < |init| && 0 <= j < |init[i].configs| &&
        x in KeepValid(ConfigMeasurements(init[i].configs[j])) && r == RowOf(init[i].name, init[i].configs[j].name, x);
      assert ms[i] == init[i];
    } else {
      assert last.configs[..|last.configs|] == last.configs;
      ModelRowsNamed(last, |last.configs|, r);
      var j, x :| 0 <= j < |last.configs| && x in KeepValid(ConfigMeasurements(last.configs[j])) &&
        r == RowOf(last.name, last.configs[j].name, x);
      assert ms[|ms| - 1] == last;
    }
  }

  /** Every row is the one appended for a valid measurement of some
      configuration of some model of the file, tagged with the names of that
      model and that configuration. */
  lemma ExtractedRowsNamed(data: BenchmarkData, r: Row)
    requires r in ExtractedRows(data)
    ensures data.detailedResults.Some? && NamedIn(data.detailedResults.value, r)
  {
    RowsOfModelsNamed(data.detailedResults.value, r);
  }
}
