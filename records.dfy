/** The benchmark results file as both scripts read it:
    `detailed_results` maps model name -> configuration name -> configuration
    data, whose optional `measurements` list holds the individual runs.
    JSON objects are modelled as ordered sequences, because Python dictionaries
    iterate in insertion order, and every optional key is an `Option`. */
module Records {
  import opened Wrappers

  /** One benchmark run; any key may be missing from the JSON object. A
      present value has the type of its field: JSON `null` is not modelled. */
  datatype Measurement = Measurement(
    modelName: Option<string>,
    coreCount: Option<int>,
    batchSize: Option<int>,
    latencyMs: Option<real>,
    throughputFps: Option<real>,
    powerWatts: Option<real>,
    efficiencyFpsPerWatt: Option<real>,
    temperatureCelsius: Option<real>,
    timestamp: Option<string>,
    isValid: Option<bool>)

  /** One configuration of a model; `measurements` is None when the key is absent. */
  datatype ConfigEntry = ConfigEntry(name: string, measurements: Option<seq<Measurement>>)

  /** One model with its configurations, in file order. */
  datatype ModelEntry = ModelEntry(name: string, configs: seq<ConfigEntry>)

  /** The top-level JSON object. Only `detailed_results` is read by the modelled
      code; `hasOtherKeys` records whether any other top-level key is present,
      which decides the truthiness of the object. */
  datatype BenchmarkData = BenchmarkData(detailedResults: Option<seq<ModelEntry>>, hasOtherKeys: bool)

  /** The exceptions the modelled Python code can raise. */
  datatype PyError = ZeroDivisionError | KeyError | ValueError(message: string) | FileNotFoundError

  /** `measurement.get("is_valid", True)`: a missing flag counts as valid. */
  predicate IsKept(m: Measurement)
  {
    m.isValid.GetOr(true)
  }

  /** `config_data.get("measurements", [])`. */
  function ConfigMeasurements(c: ConfigEntry): seq<Measurement>
  {
    c.measurements.GetOr([])
  }

  /** All measurements of a list of configurations, in iteration order. */
  function FlattenConfigs(cs: seq<ConfigEntry>): seq<Measurement>
    decreases |cs|
  {
    if cs == [] then [] else FlattenConfigs(cs[..|cs| - 1]) + ConfigMeasurements(cs[|cs| - 1])
  }

  /** All measurements of all models, in iteration order. */
  function FlattenModels(ms: seq<ModelEntry>): seq<Measurement>
    decreases |ms|
  {
    if ms == [] then [] else FlattenModels(ms[..|ms| - 1]) + FlattenConfigs(ms[|ms| - 1].configs)
  }

  /** The measurements of `s` whose validity flag is not false, in order. */
  function KeepValid(s: seq<Measurement>): seq<Measurement>
    decreases |s|
  {
    if s == [] then []
    else KeepValid(s[..|s| - 1]) + (if IsKept(s[|s| - 1]) then [s[|s| - 1]] else [])
  }

  lemma KeepValidSnoc(s: seq<Measurement>, m: Measurement)
    ensures KeepValid(s + [m]) == KeepValid(s) + (if IsKept(m) then [m] else [])
  {
    assert (s + [m])[..|s|] == s;
  }

  lemma {:induction false} KeepValidAppend(a: seq<Measurement>, b: seq<Measurement>)
    ensures KeepValid(a + b) == KeepValid(a) + KeepValid(b)
    decreases |b|
  {
    if b != [] {
      var b' := b[..|b| - 1];
      assert a + b == (a + b') + [b[|b| - 1]];
      assert b == b' + [b[|b| - 1]];
      KeepValidAppend(a, b');
      KeepValidSnoc(a + b', b[|b| - 1]);
      KeepValidSnoc(b', b[|b| - 1]);
    } else {
      assert a + b == a;
    }
  }

  /** Filtering keeps exactly the valid occurrences: every valid measurement
      keeps its multiplicity, every invalid one disappears. */
  lemma {:induction false} KeepValidContents(s: seq<Measurement>)
    ensures forall m :: multiset(KeepValid(s))[m] == if IsKept(m) then multiset(s)[m] else 0
    ensures forall i :: 0 <= i < |KeepValid(s)| ==> IsKept(KeepValid(s)[i])
    ensures |KeepValid(s)| <= |s|
    decreases |s|
  {
    if s != [] {
      var s' := s[..|s| - 1];
      assert s == s' + [s[|s| - 1]];
      KeepValidContents(s');
    }
  }

  /** `m` is listed under some configuration of some model. */
  ghost predicate InSomeConfig(ms: seq<ModelEntry>, m: Measurement)
  {
    exists i, j :: 0 <= i < |ms| && 0 <= j < |ms[i].configs| && m in ConfigMeasurements(ms[i].configs[j])
  }

  /** A measurement occurs in the flattened list exactly when it occurs in the
      measurement list of some configuration of some model. */
  lemma {:induction false} FlattenModelsMembers(ms: seq<ModelEntry>, m: Measurement)
    ensures m in FlattenModels(ms) <==> InSomeConfig(ms, m)
    decreases |ms|
  {
    if ms != [] {
      var ms' := ms[..|ms| - 1];
      FlattenModelsMembers(ms', m);
      FlattenConfigsMembers(ms[|ms| - 1].configs, m);
      if m in FlattenModels(ms) {
        if m in FlattenModels(ms') {
          var i, j :| 0 <= i < |ms'| && 0 <= j < |ms'[i].configs| && m in ConfigMeasurements(ms'[i].configs[j]);
          assert ms'[i] == ms[i];
        }
      } else {
        forall i, j | 0 <= i < |ms| && 0 <= j < |ms[i].configs|
          ensures m !in ConfigMeasurements(ms[i].configs[j])
        {
          if i < |ms| - 1 {
            assert ms'[i] == ms[i];
          }
        }
      }
    }
  }

  lemma {:induction false} FlattenConfigsMembers(cs: seq<ConfigEntry>, m: Measurement)
    ensures m in FlattenConfigs(cs) <==> exists j :: 0 <= j < |cs| && m in ConfigMeasurements(cs[j])
    decreases |cs|
  {
    if cs != [] {
      var cs' := cs[..|cs| - 1];
      FlattenConfigsMembers(cs', m);
      if m in FlattenConfigs(cs') {
        var j :| 0 <= j < |cs'| && m in ConfigMeasurements(cs'[j]);
        assert cs'[j] == cs[j];
      }
      if exists j :: 0 <= j < |cs| && m in ConfigMeasurements(cs[j]) {
        var j :| 0 <= j < |cs| && m in ConfigMeasurements(cs[j]);
        if j < |cs| - 1 {
          assert cs'[j] == cs[j];
        }
      }
    }
  }
}
