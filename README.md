# Benchmark-record validators and aggregators

This project models, in Dafny, the computational core of two Python scripts. Both take benchmark results for the Axelera AI Metis accelerator, read from JSON, and check and summarise them:

- `src/validation/validate_calculations.py` does the following:
  - flattens the nested `detailed_results` (model → configuration → measurements), keeping only the valid measurements;
  - re-checks two arithmetic identities for every record: efficiency = throughput / power, and throughput = batch / (latency / 1000);
  - groups the records by configuration and picks the peak-throughput and peak-efficiency configurations by a strict-greater scan;
  - computes multi-core scaling against a 1-core baseline;
  - classifies the outcome with fixed thresholds.
- `src/analysis/extract_real_data_only.py`, class `RealDataExtractor`, does the following:
  - holds the loaded results (`raw_data`), the flattened rows (`measurements_df`) and the computed statistics (`processed_data`);
  - parses core and batch counts from configuration names;
  - computes per-metric statistics with a t-based 95% confidence interval, the peak values and a fixed 1/2/4-core scaling analysis;
  - validates every row with a tolerance check, physical bounds and range bounds.

Modelling choices:
- **Arithmetic.** Measurement values are exact `real`s.
- **Missing keys.** A missing JSON key is an `Option` field. A `.get(key, default)` names its default explicitly. JSON `null` values are not modelled (see Left out).
- **Dictionaries.** Python dictionaries iterate in insertion order, so they become sequences, or a key order plus a map.
- **DataFrame cells.** A cell is `Num(x)` or `NaN`, and every comparison with `NaN` is false, as in pandas and numpy.
- **Exceptions.** An exception the code raises becomes the `Err` case of a `Result`: `ZeroDivisionError`, `KeyError`, `ValueError(message)` or `FileNotFoundError`.
- **Loops.** Code that loops and mutates is a Dafny `method` with loop invariants. Each such method is proved equal to a specification function, and the properties are proved about the function.
- **Object state.** `RealDataExtractor` is a class whose methods assign its fields.

Modules:
- `Wrappers`: `Option`, `Result`.
- `Text`: Python's `in` on strings, and integer formatting for f-string keys.
- `Records`: the input records.
- `Numeric`: sum, mean, maximum and minimum.
- `Consistency`: `extract_all_measurements`, `validate_mathematical_consistency` and `overall_assessment`.
- `Peaks`: `identify_peak_configurations`.
- `Scaling`: `analyze_scaling_performance`.
- `ConfigNames`: the two name parsers.
- `Frames`: the rows of `measurements_df`.
- `RowChecks`: `validate_measurements`.
- `Statistics`: `calculate_real_statistics` and `_analyze_multicore_scaling` as functions.
- `RealData`: the class and its loops.

## Model

| member | source | states |
|---|---|---|
| Consistency.ExtractAllMeasurements | src/validation/validate_calculations.py:26-39 | The nested loops return exactly the valid measurements of every configuration, in dictionary order (`AllMeasurements`). |
| Consistency.AppendConfigs | src/validation/validate_calculations.py:31-36 | The loop over one model's configurations appends exactly the valid measurements of those configurations, in order. |
| Consistency.AppendValid | src/validation/validate_calculations.py:34-36 | The innermost loop appends exactly the measurements whose `is_valid` is not false; a missing flag counts as valid. |
| Consistency.AllMeasurementsMembers | src/validation/validate_calculations.py:26-39 | A measurement is extracted iff its flag is not false and it sits under some configuration that has a `measurements` key; without `detailed_results` nothing is extracted. |
| Records.KeepValidContents | src/validation/validate_calculations.py:34-36 | Filtering keeps every valid record with its multiplicity, drops every invalid one, and never lengthens the list. |
| Records.KeepValidAppend | src/validation/validate_calculations.py:31-36 | Filtering a concatenation filters each part, so the order across configurations is kept. |
| Records.FlattenModelsMembers | src/validation/validate_calculations.py:30-34 | A record is among the flattened ones iff it belongs to some configuration of some model. |
| Consistency.ValidateMathematicalConsistency | src/validation/validate_calculations.py:41-107 | Raises ZeroDivisionError iff the input is empty. Otherwise: `total_measurements` and `consistency_checks` equal the input length, `failed_measurements` is exactly the failure list of the loop, and `consistency_failures` is its length. |
| Consistency.FailuresOfShape | src/validation/validate_calculations.py:53-92 | At most two entries per record, every `measurement_index` is a valid position, and entries appear in non-decreasing index order. |
| Consistency.RecordFailuresIff | src/validation/validate_calculations.py:63-92 | One record produces an entry for a test iff that test fails on it, and only under its own index. |
| Consistency.FailureRecordedIff | src/validation/validate_calculations.py:53-92 | Over the whole input, an entry for record i and a test exists iff that test fails on record i. The efficiency test fails iff efficiency > 0 and it differs by more than 0.01 from throughput/power (0 for non-positive power), with defaults 0/1/0. The throughput test fails iff latency > 0 and throughput differs by more than 5% of itself from batch/(latency/1000). |
| Consistency.NoEfficiencyFailures | src/validation/validate_calculations.py:63-76 | When every record's efficiency is exactly throughput/power for a positive power (a missing power counting as 1, as `.get("power_consumption_watts", 1)` does), or is not positive, only throughput entries are recorded. |
| Consistency.SuccessRateBounds | src/validation/validate_calculations.py:95 | The success rate lies in [-100, 100], not in [0, 100], because failures can reach twice the checks. |
| Consistency.NegativeSuccessRate | src/validation/validate_calculations.py:95 | A single record failing both checks gives two entries and a success rate of -100%. |
| Consistency.Assess | src/validation/validate_calculations.py:433-438 | EXCELLENT iff rate ≥ 95, GOOD iff 90 ≤ rate < 95, POOR iff rate < 90. HIGH iff n > 1000, MEDIUM iff 100 < n ≤ 1000, LOW iff n ≤ 100. PASSED iff EXCELLENT and HIGH. |
| Consistency.PassedMeansFewFailures | src/validation/validate_calculations.py:431-437 | The report is PASSED iff more than 1000 measurements were extracted and there is at most one failure entry per twenty checks. |
| Peaks.ConfigKeyInjective | src/validation/validate_calculations.py:214-218 | Two measurements share `f"{model}_cores{cores}_batch{batch}"` (defaults "unknown"/1/1) iff they agree on model, cores and batch, even when a model name contains "_cores" or "_batch". |
| Peaks.GroupMeasurements | src/validation/validate_calculations.py:211-223 | The grouping loop builds exactly the insertion-ordered dictionary `GroupByConfig`. |
| Peaks.AddMeasurement | src/validation/validate_calculations.py:213-223 | One iteration of the grouping loop: a new key is listed at the end with `[m]`; a known key gets `m` appended to its list. |
| Peaks.GroupKeys | src/validation/validate_calculations.py:211-223 | Group keys are distinct, and a group exists iff some input measurement has that key. |
| Peaks.GroupContents | src/validation/validate_calculations.py:220-223 | Each group holds exactly the measurements with its key, in input order. |
| Peaks.WithKeyMembers | src/validation/validate_calculations.py:218-223 | A measurement is in the group for key k iff it is in the input and has key k, so every measurement lands in exactly one group. |
| Peaks.GroupOrder | src/validation/validate_calculations.py:220-221 | Groups are listed in order of the first appearance of their key. |
| Peaks.GroupSizesSum | src/validation/validate_calculations.py:211-223 | Group sizes sum to the input length. |
| Peaks.GroupsNonEmpty | src/validation/validate_calculations.py:220-223 | Every listed key has a group, and no group is empty. |
| Peaks.GroupMemberInInput | src/validation/validate_calculations.py:223 | Every member of a group is an input measurement. |
| Peaks.CompleteGroupsCoverInput | src/validation/validate_calculations.py:235-239 | If no group lacks a field read with `m[...]`, no input measurement does. |
| Peaks.LeaderIsFirstMaximum | src/validation/validate_calculations.py:226-272 | The scan starting at 0 and replacing on strictly greater maxima ends at the largest group maximum; it is ≥ every maximum, and the EARLIEST group reaching it wins. With no positive maximum it stays 0 with no configuration. |
| Peaks.FindFirst | src/validation/validate_calculations.py:258-261 | The inner search returns the first position holding the maximum. |
| Peaks.SummarizeBounds | src/validation/validate_calculations.py:237-248 | A summary counts its group; the averages are ≤ the maxima; each maximum bounds the group and is attained by a member. |
| Peaks.UpdatePeak | src/validation/validate_calculations.py:252-272 | One "check for peak" block keeps the running peak, configuration and measurement equal to the scan's result over one more group. |
| Peaks.SummariesSnoc | src/validation/validate_calculations.py:241-250 | Appending a group's summary extends `config_summaries`, keeping one summary per group in group order. |
| Peaks.IdentifyPeakConfigurations | src/validation/validate_calculations.py:206-310 | Raises KeyError iff some measurement lacks throughput, efficiency or power. Otherwise: both peaks, their configurations and measurements are those of the first-maximum scan over the groups, and `config_summaries` summarises every group in order. |
| Scaling.ComboKeyInjective | src/validation/validate_calculations.py:321-325 | `f"{model}_batch{batch}"` identifies the model and batch size. |
| Scaling.GroupCombos | src/validation/validate_calculations.py:318-333 | The two-level grouping loop builds exactly `GroupByCombo`. |
| Scaling.GroupByComboFacts | src/validation/validate_calculations.py:318-333 | Keys are distinct at both levels, no bucket is empty, and the bucket for (key, cores) holds exactly the measurements with that key and core count, in input order. |
| Scaling.CoreCountsOfKey | src/validation/validate_calculations.py:327-333 | The core counts listed under a key are exactly those its measurements carry. |
| Scaling.CorePerformanceOf | src/validation/validate_calculations.py:343-354 | Raises KeyError iff some bucket has a measurement lacking throughput, power or efficiency. Otherwise it returns the averages of every bucket, in order. |
| Scaling.PerformanceBounds | src/validation/validate_calculations.py:349-354 | Each average lies between the smallest and largest value of its bucket, and the count is the bucket size. |
| Scaling.BaselineIsOneCore | src/validation/validate_calculations.py:357-358 | A baseline exists iff there is a 1-core bucket, and it is that bucket's average throughput. |
| Scaling.MetricsOf | src/validation/validate_calculations.py:360-370 | The metrics loop builds exactly `Metrics`. |
| Scaling.MetricsExactlyAboveOne | src/validation/validate_calculations.py:361-370 | A metric entry exists iff the core count is above 1 and has an average, and it is that average scaled against the baseline. |
| Scaling.ScaleMetricMeaning | src/validation/validate_calculations.py:363-369 | factor × baseline = average, efficiency% × cores = factor × 100, improvement = factor × 100 − 100, linear speed-up gives exactly 100%, and improvement > 0 iff factor > 1. The result is undefined (None) iff the baseline is 0. |
| Scaling.AnalyzeScalingPerformance | src/validation/validate_calculations.py:312-375 | The method computes exactly `AnalyzeScaling`. |
| Scaling.ScalingKeyErrorIff | src/validation/validate_calculations.py:338-347 | Raises KeyError iff a measurement lacking a read field belongs to a combination with at least two core counts; single-core-count combinations are never read. |
| Scaling.ScalingCombosIff | src/validation/validate_calculations.py:338-375 | A combination appears in the results iff its measurements carry at least two distinct core counts, one of them 1. |
| Scaling.ResultQualifies | src/validation/validate_calculations.py:338-375 | Every key in the results has measurements with at least two distinct core counts, one of them 1. |
| Scaling.QualifyingHasResult | src/validation/validate_calculations.py:338-375 | Every key whose measurements carry at least two distinct core counts, one of them 1, is in the results. |
| Scaling.ScalingEntryContents | src/validation/validate_calculations.py:343-375 | An entry has one average per core count its measurements carry, each the average of exactly those measurements. Its metrics exist exactly for core counts above 1, scaled against the 1-core average. |
| Scaling.ResultMetrics | src/validation/validate_calculations.py:356-375 | Within one result, core counts are distinct and the metrics list exactly the counts above 1. |
| ConfigNames.CoresFromConfig | src/analysis/extract_real_data_only.py:82-91 | The parsed core count is always 1, 2 or 4. |
| ConfigNames.CoresFromConfigCases | src/analysis/extract_real_data_only.py:82-91 | Any name containing "cores1" followed by anything (so "cores16") gives 1. It gives 2 iff the name contains "cores2" but not "cores1", and 4 iff it contains "cores4" but neither earlier tag. |
| ConfigNames.BatchNeverSixteen | src/analysis/extract_real_data_only.py:93-104 | The batch size is always 1, 4 or 8. Every name containing "batch16" also contains "batch1" and gives 1, so the `return 16` branch is unreachable. 4 and 8 are returned iff their tag is the first present. |
| Frames.ExtractedRowsMatch | src/analysis/extract_real_data_only.py:53-73 | The rows are, one for one and in order, the valid measurements that extract_all_measurements returns. Each row carries its fields (missing ones as NaN) and the cores/batch parsed from its configuration name. |
| Frames.ExtractedRowsNamed | src/analysis/extract_real_data_only.py:53-61 | Every row is `RowOf(model, configuration, m)` for some model of the file, some configuration of that model and some valid measurement `m` of that configuration: it is tagged with the names of the model and configuration that enclose its measurement. |
| Frames.MeasurementRowsSnoc | src/analysis/extract_real_data_only.py:58-73 | One more measurement adds a row iff its `is_valid` is not false. |
| RealData.RealDataExtractor.constructor | src/analysis/extract_real_data_only.py:22-25 | Stores the directory; no data, no rows (set to absent, see Left out) and empty processed data. |
| RealData.RealDataExtractor.LoadRealMeasurements | src/analysis/extract_real_data_only.py:27-44 | Raises FileNotFoundError for a missing file and leaves `raw_data` alone. Otherwise it stores the parsed file and returns True. |
| RealData.RealDataExtractor.ExtractPerformanceMetrics | src/analysis/extract_real_data_only.py:46-80 | Raises ValueError with the source's message when `raw_data` is None or an empty object. Otherwise `measurements_df` becomes, and the method returns, exactly `ExtractedRows(raw_data)`; nothing else changes. |
| RealData.AppendModelRows | src/analysis/extract_real_data_only.py:55-72 | The loop over one model's configurations appends exactly `ModelRows` for that model. |
| RealData.AppendConfigRows | src/analysis/extract_real_data_only.py:57-72 | The loop over one configuration's measurements appends one row per valid measurement, in order (`ConfigRows`). |
| RowChecks.Tolerance | src/analysis/extract_real_data_only.py:252 | The tolerance is never below 0.001. |
| RowChecks.ToleranceMeaning | src/analysis/extract_real_data_only.py:252 | It is max(0.001, efficiency × 0.001), and 0.001 for a missing efficiency (Python's `max` keeps its first argument against NaN). |
| RowChecks.MathCheckCases | src/analysis/extract_real_data_only.py:250-255 | A row whose efficiency is exactly throughput/power (positive power) passes. A missing efficiency fails, and so does a missing throughput with positive power. Without positive power the expected value is 0, so the row passes iff abs(efficiency) ≤ tolerance. |
| RowChecks.RowFailuresShape | src/analysis/extract_real_data_only.py:249-295 | A row appends at most three entries, all under its own index: one mathematical entry iff it fails the tolerance check, one per violated latency/throughput bound. It is physically valid iff it appends no bound entry. Range validation appends nothing. |
| RowChecks.CountPassingBound | src/analysis/extract_real_data_only.py:254-295 | Each counter is at most the number of rows, and equals it iff every row passes that check. |
| RowChecks.FailuresOfCounts | src/analysis/extract_real_data_only.py:245-295 | Mathematical entries number rows − counter, the list has at most 3 entries per row, and indices are row positions in non-decreasing order. |
| RowChecks.ValidateBounds | src/analysis/extract_real_data_only.py:229-310 | Raises ZeroDivisionError iff there are no rows. Otherwise the total is the row count, each counter is ≤ total, and each percentage is counter/total × 100, in [0, 100]. |
| RowChecks.PercentageBounds | src/analysis/extract_real_data_only.py:299-303 | A count not above a positive total gives a percentage in [0, 100]. |
| RealData.RealDataExtractor.ValidateMeasurements | src/analysis/extract_real_data_only.py:229-310 | Raises ValueError when rows are absent. Otherwise the loop's counters, failure list and percentages equal `Validate(rows)`. |
| RealData.ValidateRow | src/analysis/extract_real_data_only.py:245-295 | One row advances exactly the counters of the checks it passes, and appends exactly `RowFailures(idx, row)`. |
| Statistics.PresentMembers | src/analysis/extract_real_data_only.py:127 | `dropna` keeps exactly the present values, and never more values than cells. |
| Statistics.SeriesExtremes | src/analysis/extract_real_data_only.py:155-165 | A column maximum is NaN iff every cell is NaN. Otherwise it is a present value ≥ every present value. Dually, the minimum is NaN iff every cell is NaN, and otherwise a present value ≤ every present value. |
| Statistics.ColumnExtremes | src/analysis/extract_real_data_only.py:155-163 | For any metric, `df[metric].max()` is NaN iff no row has a value, and otherwise a value some row holds that is ≥ every row's value; `min()` likewise with ≤. |
| Statistics.PeakPerformanceMeaning | src/analysis/extract_real_data_only.py:155-165 | `peak_performance` holds the largest throughput, efficiency, temperature and power, and the smallest latency and power, each NaN iff no row has that value. The power range is present at both ends or neither, with min ≤ max. |
| Statistics.DescribeProperties | src/analysis/extract_real_data_only.py:130-151 | lower = mean − margin and upper = mean + margin (symmetric). With t ≥ 0 and std ≥ 0, margin ≥ 0 and lower ≤ mean ≤ upper. min ≤ mean ≤ max. CV = 0 for a zero mean, else CV × mean = std. |
| Statistics.PerformanceStatsMembers | src/analysis/extract_real_data_only.py:124-151 | A metric gets an entry iff it is listed and has more than one present value; the entry describes exactly those values with df = count − 1. |
| Statistics.PerformanceStatsEntries | src/analysis/extract_real_data_only.py:124-151 | For the metrics listed, the fold holds an entry for a metric iff `MetricEntry` yields statistics for it, and that entry is those statistics. |
| Statistics.MetricHasStatistics | src/analysis/extract_real_data_only.py:126-139 | For each of the five metrics: an entry exists iff more than one value is present. |
| Statistics.OverallBounds | src/analysis/extract_real_data_only.py:113-117 | For a non-empty frame, 1 ≤ models tested ≤ total and 1 ≤ configurations tested ≤ total. |
| Statistics.RealStatisticsContents | src/analysis/extract_real_data_only.py:106-180 | Fails (KeyError) iff the frame has no rows. Otherwise it counts every row, bounds the distinct models and configurations, has one entry per metric with more than one present value, and embeds the peak values of `PeakPerformanceOf` and the scaling analysis. |
| RealData.PerformanceStatistics | src/analysis/extract_real_data_only.py:124-151 | The loop over the metrics builds exactly `PerformanceStats`. |
| RealData.RealDataExtractor.CalculateRealStatistics | src/analysis/extract_real_data_only.py:106-182 | Raises ValueError when rows are absent. Otherwise the result is `RealStatistics(rows)`, and `processed_data` becomes it on success; nothing else changes. |
| Statistics.ScalingRowsMembers | src/analysis/extract_real_data_only.py:188-198 | A row is used for c cores iff it is a resnet18-imagenet row at batch size 1 with c cores. |
| Statistics.MulticoreScalingContents | src/analysis/extract_real_data_only.py:184-227 | `cores_tested` is [1, 2, 3, 4]. Entries exist exactly for those of 1, 2, 4 that have rows, each with its mean throughput and row count. The 1-core entry has factor = efficiency = 1.0. Others have factor = mean/baseline (0 without a truthy baseline) and efficiency = factor/cores. |
| Statistics.OverallScalingEfficiency | src/analysis/extract_real_data_only.py:217-221 | The overall efficiency is the 4-core entry's efficiency, else 0.0. |
| Statistics.DetailsMembers | src/analysis/extract_real_data_only.py:196-215 | `scaling_data` holds one entry per core count of the loop that has rows, computed with the 1-core mean as the baseline. |
| RealData.AnalyzeMulticoreScaling | src/analysis/extract_real_data_only.py:184-227 | The loop with its running baseline computes exactly `MulticoreScalingOf(rows)`; KeyError for a frame without rows. |
| Numeric.MeanBetweenMinAndMax | src/validation/validate_calculations.py:243-247 | A mean of a non-empty list lies between its minimum and maximum. |
| Text.IntToStringInjective | src/validation/validate_calculations.py:218 | Decimal formatting of integers is injective, so distinct core counts and batch sizes give distinct key parts. |

## Left out

- File and JSON I/O, the hard-coded paths, and both `main` functions are not modelled. `load_original_benchmark_data`, the report write and `save_processed_data` are I/O plumbing. `LoadRealMeasurements` takes the parsed file as a parameter; malformed JSON is not modelled.
- Printing and logging are not modelled. This includes the logging in `load_real_measurements`, which reads `summary_statistics` and `benchmark_metadata` with `[...]` and would raise KeyError when they are missing. It also includes the display blocks of `identify_peak_configurations` (lines 274-300), which read `temperature_celsius` with `[...]`.
- `reproduce_summary_statistics` and the rest of `generate_validation_report`, namely `original_dataset_info` and the key-findings block, are left out. They are numpy statistics and report assembly outside the modelled core. Only `overall_assessment` is modelled.
- numpy and scipy numerics are parameters, not definitions:
  - the sample standard deviation is `stdOf`;
  - `stats.t.ppf(0.975, df)` is `tCritical`;
  - `np.sqrt` is `sqrtOf`, required to be positive for counts above 1.
- The median of `performance_statistics` is left out, because it needs a sort the model does not have.
- `measurement_period`, the timestamp minimum and maximum, is left out. It compares strings and missing values inside pandas.
- `datetime.now()` is left out because it is nondeterministic.
- IEEE floating point is not modelled; values are exact reals.
  - Scaling.ScaleMetric: numpy's inf/nan from dividing by a zero baseline is the single value None.
  - pandas object-dtype columns (a column whose every value is missing) are treated like float columns of NaN.
- RealData.RealDataExtractor.constructor sets `measurementsDf` to absent, although `__init__` never assigns `measurements_df`. Without that, the `is None` guards of `calculate_real_statistics` and `validate_measurements` would raise AttributeError on an instance that has not yet extracted.
- Statistics.MulticoreScalingContents keys its entries by the core count, whereas the source keys them by the string `f'{cores}_cores'`.
- `checks_passed` and `total_checks` in `validate_measurements` are never read, so they are not modelled.
- No Cohen's d or statistical-power computation exists in either file, so none is modelled.
- `processed_data` starts as `None`, which stands for the empty dictionary `{}`.
- JSON values are assumed to be either absent or of the expected type: `is_valid` a boolean, the measurement values numbers, and model and configuration names strings. `null` is not modelled, and an absent key and `null` are the same `None`. The source treats `null` differently from an absent key in three places:
  - a `null` `is_valid` is falsy, so the source drops that record, while `IsKept` keeps it;
  - a `null` model name or core count would be formatted as "None" inside a group key;
  - a `null` power, efficiency or latency would raise TypeError in `validate_mathematical_consistency` (lines 64, 65 and 79).
