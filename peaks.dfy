/** src/validation/validate_calculations.py, identify_peak_configurations:
    grouping the measurements by configuration key, and the strict-greater
    scan that picks the peak-throughput and peak-efficiency configurations. */
module Peaks {
  import opened Wrappers
  import opened Records
  import opened Numeric
  import opened Text

  // ---------------------------------------------------------------------------
  // Configuration keys

  function ModelOf(m: Measurement): string { m.modelName.GetOr("unknown") }
  function CoresOf(m: Measurement): int { m.coreCount.GetOr(1) }
  function BatchOf(m: Measurement): int { m.batchSize.GetOr(1) }

  /** `f"{model}_cores{cores}_batch{batch}"` with the defaults "unknown", 1, 1. */
  function ConfigKey(m: Measurement): string
  {
    ModelOf(m) + "_cores" + IntToString(CoresOf(m)) + "_batch" + IntToString(BatchOf(m))
  }

  /** Stripping a trailing `_<tag><t>` where neither the tag nor `t` holds an
      underscore. */
  lemma StripTag(x: string, tag: string, t: string, y: string, u: string)
    requires '_' !in tag && '_' !in t && '_' !in u
    requires x + ['_'] + (tag + t) == y + ['_'] + (tag + u)
    ensures x == y && t == u
  {
    SplitAtLast(x, tag + t, y, tag + u, '_');
    assert t == (tag + t)[|tag|..];
    assert u == (tag + u)[|tag|..];
  }

  /** The key names the configuration unambiguously: two measurements share a
      key exactly when they agree on model, core count and batch size, even if
      a model name itself contains "_cores" or "_batch". */
  lemma ConfigKeyInjective(a: Measurement, b: Measurement)
    ensures ConfigKey(a) == ConfigKey(b) <==>
      ModelOf(a) == ModelOf(b) && CoresOf(a) == CoresOf(b) && BatchOf(a) == BatchOf(b)
  {
    var ca, cb := IntToString(CoresOf(a)), IntToString(CoresOf(b));
    var ba, bb := IntToString(BatchOf(a)), IntToString(BatchOf(b));
    IntToStringInjective(CoresOf(a), CoresOf(b));
    IntToStringInjective(BatchOf(a), BatchOf(b));
    var xa, xb := ModelOf(a) + ['_'] + ("cores" + ca), ModelOf(b) + ['_'] + ("cores" + cb);
    assert ConfigKey(a) == xa + ['_'] + ("batch" + ba);
    assert ConfigKey(b) == xb + ['_'] + ("batch" + bb);
    if ConfigKey(a) == ConfigKey(b) {
      StripTag(xa, "batch", ba, xb, bb);
      StripTag(ModelOf(a), "cores", ca, ModelOf(b), cb);
    }
  }

  // ---------------------------------------------------------------------------
  // Grouping (config_groups)

  /** An insertion-ordered dictionary from configuration key to the list of
      measurements appended under it. */
  datatype Groups = Groups(order: seq<string>, table: map<string, seq<Measurement>>)

  /** One iteration of the grouping loop. */
  function AddToGroups(g: Groups, m: Measurement): Groups
  {
    var k := ConfigKey(m);
    if k in g.table then Groups(g.order, g.table[k := g.table[k] + [m]])
    else Groups(g.order + [k], g.table[k := [m]])
  }

  /** config_groups after the loop over `ms`. */
  function GroupByConfig(ms: seq<Measurement>): Groups
    decreases |ms|
  {
    if ms == [] then Groups([], map[]) else AddToGroups(GroupByConfig(ms[..|ms| - 1]), ms[|ms| - 1])
  }

  /** Inserting an empty list for a new key and then appending `m` appends
      `m` to the key's list, or creates the list `[m]`. */
  lemma AppendUnderKey(table: map<string, seq<Measurement>>, k: string, m: Measurement)
    ensures var t := if k in table then table else table[k := []];
      t[k := t[k] + [m]] == if k in table then table[k := table[k] + [m]] else table[k := [m]]
  {
    if k !in table {
      assert [] + [m] == [m];
    }
  }

  /** The body of the grouping loop: create the key's list when it is new,
      then append `m` to it. */
  method AddMeasurement(order: seq<string>, table: map<string, seq<Measurement>>, m: Measurement)
    returns (order': seq<string>, table': map<string, seq<Measurement>>)
    ensures Groups(order', table') == AddToGroups(Groups(order, table), m)
  {
    var key := ModelOf(m) + "_cores" + IntToString(CoresOf(m)) + "_batch" + IntToString(BatchOf(m));
    assert key == ConfigKey(m);
    order', table' := order, table;
    if key !in table' {
      order' := order' + [key];
      table' := table'[key := []];
    }
    table' := table'[key := table'[key] + [m]];
    AppendUnderKey(table, key, m);
  }

  method GroupMeasurements(ms: seq<Measurement>) returns (groups: Groups)
    ensures groups == GroupByConfig(ms)
  {
    var order: seq<string> := [];
    var table: map<string, seq<Measurement>> := map[];
    for i := 0 to |ms|
      invariant Groups(order, table) == GroupByConfig(ms[..i])
    {
      order, table := AddMeasurement(order, table, ms[i]);
      assert ms[..i + 1][..i] == ms[..i];
    }
    assert ms[..|ms|] == ms;
    groups := Groups(order, table);
  }

  /** The measurements of `ms` with key `k`, in input order. */
  function WithKey(ms: seq<Measurement>, k: string): seq<Measurement>
    decreases |ms|
  {
    if ms == [] then []
    else WithKey(ms[..|ms| - 1], k) + (if ConfigKey(ms[|ms| - 1]) == k then [ms[|ms| - 1]] else [])
  }

  lemma {:induction false} WithKeyMembers(ms: seq<Measurement>, k: string, m: Measurement)
    ensures m in WithKey(ms, k) <==> m in ms && ConfigKey(m) == k
    decreases |ms|
  {
    if ms != [] {
      var ms' := ms[..|ms| - 1];
      assert ms == ms' + [ms[|ms| - 1]];
      WithKeyMembers(ms', k, m);
    }
  }

  /** The keys occurring in `ms`. */
  ghost function KeysOf(ms: seq<Measurement>): set<string>
  {
    set i | 0 <= i < |ms| :: ConfigKey(ms[i])
  }

  /** An insertion-ordered dictionary: distinct keys, listed exactly once. */
  ghost predicate WellFormed(g: Groups)
  {
    && (forall a, b :: 0 <= a < b < |g.order| ==> g.order[a] != g.order[b])
    && (forall k :: k in g.table <==> k in g.order)
  }

  lemma AddKeepsWellFormed(g: Groups, m: Measurement)
    requires WellFormed(g)
    ensures WellFormed(AddToGroups(g, m))
    ensures AddToGroups(g, m).table.Keys == g.table.Keys + {ConfigKey(m)}
  {
  }

  /** The group keys are distinct, and there is a group exactly for each key
      that occurs in the input. */
  lemma {:induction false} GroupKeys(ms: seq<Measurement>)
    ensures WellFormed(GroupByConfig(ms))
    ensures GroupByConfig(ms).table.Keys == KeysOf(ms)
    ensures forall k :: k in GroupByConfig(ms).table <==> exists i :: 0 <= i < |ms| && ConfigKey(ms[i]) == k
    decreases |ms|
  {
    if ms != [] {
      var n := |ms| - 1;
      var ms' := ms[..n];
      GroupKeys(ms');
      AddKeepsWellFormed(GroupByConfig(ms'), ms[n]);
      assert GroupByConfig(ms) == AddToGroups(GroupByConfig(ms'), ms[n]);
      KeysOfSnoc(ms);
    }
  }

  lemma KeysOfSnoc(ms: seq<Measurement>)
    requires ms != []
    ensures KeysOf(ms) == KeysOf(ms[..|ms| - 1]) + {ConfigKey(ms[|ms| - 1])}
  {
    var ms' := ms[..|ms| - 1];
    forall k | k in KeysOf(ms) ensures k in KeysOf(ms') + {ConfigKey(ms[|ms| - 1])} {
      var i :| 0 <= i < |ms| && ConfigKey(ms[i]) == k;
      if i < |ms| - 1 {
        assert ms'[i] == ms[i];
      }
    }
    forall k | k in KeysOf(ms') ensures k in KeysOf(ms) {
      var i :| 0 <= i < |ms'| && ConfigKey(ms'[i]) == k;
      assert ms[i] == ms'[i];
    }
  }

  lemma {:induction false} WithKeyAbsent(ms: seq<Measurement>, k: string)
    requires k !in KeysOf(ms)
    ensures WithKey(ms, k) == []
    decreases |ms|
  {
    if ms != [] {
      var ms' := ms[..|ms| - 1];
      assert KeysOf(ms') <= KeysOf(ms);
      WithKeyAbsent(ms', k);
    }
  }

  /** Each group holds exactly the measurements with its key, in input order. */
  lemma {:induction false} GroupContents(ms: seq<Measurement>)
    ensures var g := GroupByConfig(ms);
      forall k :: k in g.table ==> g.table[k] == WithKey(ms, k)
    decreases |ms|
  {
    if ms != [] {
      var n := |ms| - 1;
      var ms' := ms[..n];
      var m := ms[n];
      var k := ConfigKey(m);
      GroupContents(ms');
      GroupKeys(ms');
      var g', g := GroupByConfig(ms'), GroupByConfig(ms);
      if k !in g'.table {
        WithKeyAbsent(ms', k);
      }
    }
  }

  /** `p` is the first position of `ms` whose key is `k`. */
  ghost predicate FirstAt(ms: seq<Measurement>, k: string, p: int)
  {
    0 <= p < |ms| && ConfigKey(ms[p]) == k && forall i :: 0 <= i < p ==> ConfigKey(ms[i]) != k
  }

  /** The first position of a key that occurs in a prefix lies in that prefix,
      and is its first position there too. */
  lemma FirstAtPrefix(ms: seq<Measurement>, n: nat, k: string, p: int)
    requires n <= |ms| && FirstAt(ms, k, p) && k in KeysOf(ms[..n])
    ensures p < n && FirstAt(ms[..n], k, p)
  {
    var i :| 0 <= i < n && ConfigKey(ms[..n][i]) == k;
    assert ConfigKey(ms[i]) == k;
  }

  /** A key that is absent from all but the last measurement first occurs there. */
  lemma FirstAtNewKey(ms: seq<Measurement>, k: string, p: int)
    requires ms != [] && ConfigKey(ms[|ms| - 1]) == k && k !in KeysOf(ms[..|ms| - 1])
    requires FirstAt(ms, k, p)
    ensures p == |ms| - 1 && ms[..p] == ms[..|ms| - 1]
  {
    var n := |ms| - 1;
    assert forall i :: 0 <= i < n ==> ConfigKey(ms[i]) != k by {
      forall i | 0 <= i < n ensures ConfigKey(ms[i]) != k {
        assert ms[..n][i] == ms[i];
      }
    }
  }

  /** One more measurement keeps the order of the groups so far, and appends
      at most its own key, when that key is new. */
  lemma OrderSnoc(ms: seq<Measurement>)
    requires ms != []
    ensures var g', g := GroupByConfig(ms[..|ms| - 1]), GroupByConfig(ms);
      && g'.order <= g.order
      && |g.order| <= |g'.order| + 1
      && (|g.order| > |g'.order| ==> g.order[|g'.order|] == ConfigKey(ms[|ms| - 1]) && ConfigKey(ms[|ms| - 1]) !in g'.table)
  {
    assert GroupByConfig(ms) == AddToGroups(GroupByConfig(ms[..|ms| - 1]), ms[|ms| - 1]);
  }

  /** Every listed key occurs in the input. */
  lemma ListedKeyOccurs(ms: seq<Measurement>, b: int)
    requires 0 <= b < |GroupByConfig(ms).order|
    ensures GroupByConfig(ms).order[b] in KeysOf(ms)
  {
    GroupKeys(ms);
  }

  /** Group `b` was created by the last measurement: every earlier group's
      key occurs before it. */
  lemma GroupOrderNewKey(ms: seq<Measurement>, a: int, b: int, p: int)
    requires ms != [] && 0 <= a < b < |GroupByConfig(ms).order| && FirstAt(ms, GroupByConfig(ms).order[b], p)
    requires b >= |GroupByConfig(ms[..|ms| - 1]).order|
    ensures GroupByConfig(ms).order[a] in KeysOf(ms[..p])
  {
    var n := |ms| - 1;
    var ms', k := ms[..n], ConfigKey(ms[n]);
    var g', g := GroupByConfig(ms'), GroupByConfig(ms);
    OrderSnoc(ms);
    GroupKeys(ms');
    assert g.order[b] == k && k !in KeysOf(ms');
    FirstAtNewKey(ms, k, p);
    assert g'.order[a] == g.order[a] && g'.order[a] in g'.table;
  }

  /** Group `b` already existed before the last measurement: its first
      measurement lies in the prefix, where groups `a` and `b` are the same. */
  lemma GroupOrderOldKey(ms: seq<Measurement>, a: int, b: int, p: int)
    requires ms != [] && 0 <= a < b < |GroupByConfig(ms[..|ms| - 1]).order|
    requires FirstAt(ms, GroupByConfig(ms).order[b], p)
    ensures var g', g := GroupByConfig(ms[..|ms| - 1]), GroupByConfig(ms);
      && g'.order[a] == g.order[a]
      && p < |ms| - 1
      && FirstAt(ms[..|ms| - 1], g'.order[b], p)
  {
    var n := |ms| - 1;
    var g', g := GroupByConfig(ms[..n]), GroupByConfig(ms);
    OrderSnoc(ms);
    assert g'.order[a] == g.order[a] && g'.order[b] == g.order[b];
    ListedKeyOccurs(ms[..n], b);
    FirstAtPrefix(ms, n, g.order[b], p);
  }

  /** Groups are ordered by the first appearance of their key in the input:
      when group `b` comes after group `a`, the key of `a` already occurs
      before the first measurement `p` of `b`. */
  lemma {:induction false} GroupOrder(ms: seq<Measurement>, a: int, b: int, p: int)
    requires 0 <= a < b < |GroupByConfig(ms).order| && FirstAt(ms, GroupByConfig(ms).order[b], p)
    ensures GroupByConfig(ms).order[a] in KeysOf(ms[..p])
    decreases |ms|
  {
    assert ms != [];
    var ms' := ms[..|ms| - 1];
    if b < |GroupByConfig(ms').order| {
      GroupOrderOldKey(ms, a, b, p);
      GroupOrder(ms', a, b, p);
      assert ms'[..p] == ms[..p];
    } else {
      GroupOrderNewKey(ms, a, b, p);
    }
  }

  /** The total number of measurements held by the groups listed in `order`. */
  function TotalSize(order: seq<string>, table: map<string, seq<Measurement>>): nat
    decreases |order|
  {
    if order == [] then 0
    else TotalSize(order[..|order| - 1], table)
         + (if order[|order| - 1] in table then |table[order[|order| - 1]]| else 0)
  }

  lemma {:induction false} TotalSizeUpdate(order: seq<string>, table: map<string, seq<Measurement>>, k: string, v: seq<Measurement>)
    requires forall a, b :: 0 <= a < b < |order| ==> order[a] != order[b]
    ensures k !in order ==> TotalSize(order, table[k := v]) == TotalSize(order, table)
    ensures k in order && k in table ==>
      TotalSize(order, table[k := v]) + |table[k]| == TotalSize(order, table) + |v|
    decreases |order|
  {
    if order != [] {
      var o' := order[..|order| - 1];
      TotalSizeUpdate(o', table, k, v);
      if k == order[|order| - 1] {
        assert k !in o';
      }
    }
  }

  /** Group sizes sum to the number of measurements. */
  lemma {:induction false} GroupSizesSum(ms: seq<Measurement>)
    ensures TotalSize(GroupByConfig(ms).order, GroupByConfig(ms).table) == |ms|
    decreases |ms|
  {
    if ms != [] {
      var ms' := ms[..|ms| - 1];
      var m := ms[|ms| - 1];
      var k := ConfigKey(m);
      var g' := GroupByConfig(ms');
      GroupSizesSum(ms');
      GroupKeys(ms');
      if k in g'.table {
        TotalSizeUpdate(g'.order, g'.table, k, g'.table[k] + [m]);
      } else {
        TotalSizeUpdate(g'.order, g'.table, k, [m]);
        assert (g'.order + [k])[..|g'.order|] == g'.order;
      }
    }
  }

  // ---------------------------------------------------------------------------
  // The peak scan

  /** The three fields read with `m[...]`, which raise KeyError when absent. */
  predicate Complete(m: Measurement)
  {
    m.throughputFps.Some? && m.efficiencyFpsPerWatt.Some? && m.powerWatts.Some?
  }

  datatype Field = ThroughputField | EfficiencyField | PowerField

  /** The value of a field (0 stands for an absent one, which never reaches
      the scan because the KeyError comes first). */
  function FieldOf(m: Measurement, f: Field): real
  {
    match f
    case ThroughputField => m.throughputFps.GetOr(0.0)
    case EfficiencyField => m.efficiencyFpsPerWatt.GetOr(0.0)
    case PowerField => m.powerWatts.GetOr(0.0)
  }

  /** `[m[field] for m in group]`. */
  function Values(g: seq<Measurement>, f: Field): (r: seq<real>)
    ensures |r| == |g| && forall i :: 0 <= i < |g| ==> r[i] == FieldOf(g[i], f)
  {
    seq(|g|, i requires 0 <= i < |g| => FieldOf(g[i], f))
  }

  /** `np.max` of a group's values (a group is never empty). */
  function GroupMax(g: seq<Measurement>, f: Field): real
  {
    if g == [] then 0.0 else Max(Values(g, f))
  }

  /** The maxima of the groups, in group order. */
  function Maxima(g: Groups, f: Field): (r: seq<real>)
    ensures |r| == |g.order|
  {
    seq(|g.order|, i requires 0 <= i < |g.order| =>
      if g.order[i] in g.table then GroupMax(g.table[g.order[i]], f) else 0.0)
  }

  /** The running peak: its value and the position of the group it came from. */
  datatype Peak = Peak(value: real, group: Option<nat>)

  /** The scan `if max > peak: peak := max`, starting from 0 with no group. */
  function Leader(maxima: seq<real>): (p: Peak)
    ensures p.group.Some? ==> p.group.value < |maxima|
    decreases |maxima|
  {
    if maxima == [] then Peak(0.0, None)
    else
      var p := Leader(maxima[..|maxima| - 1]);
      if maxima[|maxima| - 1] > p.value then Peak(maxima[|maxima| - 1], Some(|maxima| - 1)) else p
  }

  /** The scan finds the largest group maximum if it is positive, and the
      EARLIEST group reaching it; with no positive maximum it stays at 0 with
      no group. */
  lemma {:induction false} LeaderIsFirstMaximum(maxima: seq<real>)
    ensures Leader(maxima).value >= 0.0
    ensures forall i :: 0 <= i < |maxima| ==> maxima[i] <= Leader(maxima).value
    ensures Leader(maxima).group.None? <==> forall i :: 0 <= i < |maxima| ==> maxima[i] <= 0.0
    ensures Leader(maxima).group.None? ==> Leader(maxima).value == 0.0
    ensures Leader(maxima).group.Some? ==>
      var j := Leader(maxima).group.value;
      && maxima[j] == Leader(maxima).value > 0.0
      && forall i :: 0 <= i < j ==> maxima[i] < maxima[j]
    decreases |maxima|
  {
    if maxima != [] {
      var m' := maxima[..|maxima| - 1];
      LeaderIsFirstMaximum(m');
      assert forall i :: 0 <= i < |m'| ==> m'[i] == maxima[i];
    }
  }

  /** Index of the first element equal to `v`. */
  function FirstIndexOf(s: seq<real>, v: real): (k: nat)
    requires v in s
    ensures k < |s| && s[k] == v && forall i :: 0 <= i < k ==> s[i] != v
    decreases |s|
  {
    if s[0] == v then 0 else 1 + FirstIndexOf(s[1..], v)
  }

  /** The inner `for m in config_measurements: if m[field] == max: ...; break`. */
  method FindFirst(s: seq<real>, v: real) returns (k: nat)
    requires v in s
    ensures k < |s| && s[k] == v
    ensures forall i :: 0 <= i < k ==> s[i] != v
  {
    k := 0;
    while k < |s|
      invariant k <= |s|
      invariant forall i :: 0 <= i < k ==> s[i] != v
    {
      if s[k] == v {
        return;
      }
      k := k + 1;
    }
    assert false;
  }

  datatype ConfigSummary = ConfigSummary(
    measurementCount: nat,
    avgThroughput: real,
    maxThroughput: real,
    avgEfficiency: real,
    maxEfficiency: real,
    avgPower: real)

  /** config_summaries[key] for a non-empty group. */
  function Summarize(g: seq<Measurement>): ConfigSummary
    requires g != []
  {
    var tps, effs := Values(g, ThroughputField), Values(g, EfficiencyField);
    ConfigSummary(|g|, Mean(tps), Max(tps), Mean(effs), Max(effs), Mean(Values(g, PowerField)))
  }

  /** A summary counts its group, its averages lie below its maxima, and each
      maximum bounds the group and is reached by one of its members. */
  lemma SummarizeBounds(g: seq<Measurement>)
    requires g != []
    ensures Summarize(g).measurementCount == |g|
    ensures Summarize(g).avgThroughput <= Summarize(g).maxThroughput
    ensures Summarize(g).avgEfficiency <= Summarize(g).maxEfficiency
    ensures forall i :: 0 <= i < |g| ==>
      FieldOf(g[i], ThroughputField) <= Summarize(g).maxThroughput &&
      FieldOf(g[i], EfficiencyField) <= Summarize(g).maxEfficiency
    ensures exists i :: 0 <= i < |g| && FieldOf(g[i], ThroughputField) == Summarize(g).maxThroughput
    ensures exists i :: 0 <= i < |g| && FieldOf(g[i], EfficiencyField) == Summarize(g).maxEfficiency
  {
    var tps, effs := Values(g, ThroughputField), Values(g, EfficiencyField);
    MeanBetweenMinAndMax(tps);
    MeanBetweenMinAndMax(effs);
    MaxIsMaximum(tps);
    MaxIsMaximum(effs);
  }

  /** The dictionary returned by identify_peak_configurations. */
  datatype PeakReport = PeakReport(
    peakThroughput: real,
    peakThroughputConfig: Option<string>,
    peakThroughputMeasurement: Option<Measurement>,
    peakEfficiency: real,
    peakEfficiencyConfig: Option<string>,
    peakEfficiencyMeasurement: Option<Measurement>,
    configSummaries: seq<(string, ConfigSummary)>)

  /** The result of the scan over `maxima` (a prefix of the group maxima):
      the peak value, the key of the winning group and the first measurement of
      that group whose field equals the peak. */
  ghost predicate PeakMatches(g: Groups, f: Field, maxima: seq<real>, value: real, config: Option<string>, m: Option<Measurement>)
  {
    var p := Leader(maxima);
    && value == p.value
    && (p.group.Some? ==> p.group.value < |g.order|)
    && config == (if p.group.None? then None else Some(g.order[p.group.value]))
    && (p.group.None? ==> m.None?)
    && (p.group.Some? ==> var k := g.order[p.group.value];
          k in g.table && p.value in Values(g.table[k], f) &&
          m == Some(g.table[k][FirstIndexOf(Values(g.table[k], f), p.value)]))
  }

  /** One "check for peak" block: compare the maximum of group `idx` with the
      running peak and take it, with its first measurement, when strictly greater. */
  method UpdatePeak(g: Groups, f: Field, idx: nat, value: real, config: Option<string>, m: Option<Measurement>)
    returns (value': real, config': Option<string>, m': Option<Measurement>)
    requires idx < |g.order| && g.order[idx] in g.table && g.table[g.order[idx]] != []
    requires PeakMatches(g, f, Maxima(g, f)[..idx], value, config, m)
    ensures PeakMatches(g, f, Maxima(g, f)[..idx + 1], value', config', m')
  {
    var key := g.order[idx];
    var members := g.table[key];
    var values := Values(members, f);
    var maxValue := Max(values);
    MaxIsMaximum(values);
    ghost var maxima := Maxima(g, f);
    assert maxima[..idx + 1][..idx] == maxima[..idx];
    assert maxima[idx] == maxValue;
    value', config', m' := value, config, m;
    if maxValue > value {
      value' := maxValue;
      config' := Some(key);
      var w := FindFirst(values, maxValue);
      assert w == FirstIndexOf(values, maxValue);
      m' := Some(members[w]);
    }
  }

  /** The first `n` groups are non-empty and `summaries` summarises them in order. */
  ghost predicate SummariesMatch(g: Groups, summaries: seq<(string, ConfigSummary)>, n: nat)
  {
    && n <= |g.order| && |summaries| == n
    && forall i :: 0 <= i < n ==>
         && g.order[i] in g.table && g.table[g.order[i]] != []
         && summaries[i] == (g.order[i], Summarize(g.table[g.order[i]]))
  }

  /** Appending the summary of group `n` extends a match of the first `n` groups. */
  lemma SummariesSnoc(g: Groups, summaries: seq<(string, ConfigSummary)>, n: nat)
    requires SummariesMatch(g, summaries, n)
    requires n < |g.order| && g.order[n] in g.table && g.table[g.order[n]] != []
    ensures SummariesMatch(g, summaries + [(g.order[n], Summarize(g.table[g.order[n]]))], n + 1)
  {
  }

  /** Every measurement of the first `n` groups has the three fields read with `m[...]`. */
  ghost predicate GroupsComplete(g: Groups, n: nat)
  {
    forall i, m :: 0 <= i < n && i < |g.order| && g.order[i] in g.table && m in g.table[g.order[i]] ==> Complete(m)
  }

  lemma GroupsCompleteSnoc(g: Groups, n: nat)
    requires GroupsComplete(g, n) && n < |g.order| && g.order[n] in g.table && AllComplete(g.table[g.order[n]])
    ensures GroupsComplete(g, n + 1)
  {
  }

  /** identify_peak_configurations without its printing: KeyError when any
      measurement lacks throughput, efficiency or power; otherwise both peaks
      as the strict-greater scan over the groups finds them, and one summary
      per group in group order. */
  method IdentifyPeakConfigurations(ms: seq<Measurement>) returns (r: Result<PeakReport, PyError>)
    ensures r.Err? <==> exists i :: 0 <= i < |ms| && !Complete(ms[i])
    ensures r.Err? ==> r.error == KeyError
    ensures r.Ok? ==> var g := GroupByConfig(ms);
      && PeakMatches(g, ThroughputField, Maxima(g, ThroughputField), r.value.peakThroughput,
                     r.value.peakThroughputConfig, r.value.peakThroughputMeasurement)
      && PeakMatches(g, EfficiencyField, Maxima(g, EfficiencyField), r.value.peakEfficiency,
                     r.value.peakEfficiencyConfig, r.value.peakEfficiencyMeasurement)
      && SummariesMatch(g, r.value.configSummaries, |g.order|)
  {
    var groups := GroupMeasurements(ms);
    GroupsNonEmpty(ms);
    var peakThroughput, peakEfficiency := 0.0, 0.0;
    var peakThroughputConfig: Option<string>, peakEfficiencyConfig: Option<string> := None, None;
    var peakThroughputMeasurement: Option<Measurement>, peakEfficiencyMeasurement: Option<Measurement> := None, None;
    var summaries: seq<(string, ConfigSummary)> := [];
    for idx := 0 to |groups.order|
      invariant PeakMatches(groups, ThroughputField, Maxima(groups, ThroughputField)[..idx],
                            peakThroughput, peakThroughputConfig, peakThroughputMeasurement)
      invariant PeakMatches(groups, EfficiencyField, Maxima(groups, EfficiencyField)[..idx],
                            peakEfficiency, peakEfficiencyConfig, peakEfficiencyMeasurement)
      invariant SummariesMatch(groups, summaries, idx)
      invariant GroupsComplete(groups, idx)
    {
      var key := groups.order[idx];
      var members := groups.table[key];
      if !AllComplete(members) {
        var m :| m in members && !Complete(m);
        GroupMemberInInput(ms, key, m);
        return Err(KeyError);
      }
      GroupsCompleteSnoc(groups, idx);
      SummariesSnoc(groups, summaries, idx);
      summaries := summaries + [(key, Summarize(members))];
      peakThroughput, peakThroughputConfig, peakThroughputMeasurement :=
        UpdatePeak(groups, ThroughputField, idx, peakThroughput, peakThroughputConfig, peakThroughputMeasurement);
      peakEfficiency, peakEfficiencyConfig, peakEfficiencyMeasurement :=
        UpdatePeak(groups, EfficiencyField, idx, peakEfficiency, peakEfficiencyConfig, peakEfficiencyMeasurement);
    }
    assert Maxima(groups, ThroughputField)[..|groups.order|] == Maxima(groups, ThroughputField);
    assert Maxima(groups, EfficiencyField)[..|groups.order|] == Maxima(groups, EfficiencyField);
    CompleteGroupsCoverInput(ms);
    r := Ok(PeakReport(peakThroughput, peakThroughputConfig, peakThroughputMeasurement,
                       peakEfficiency, peakEfficiencyConfig, peakEfficiencyMeasurement, summaries));
  }

  /** Every listed group has an entry, and no entry is empty. */
  lemma GroupsNonEmpty(ms: seq<Measurement>)
    ensures var g := GroupByConfig(ms);
      forall k | k in g.order :: k in g.table && g.table[k] != []
  {
    var g := GroupByConfig(ms);
    GroupKeys(ms);
    GroupContents(ms);
    forall k | k in g.order ensures k in g.table && g.table[k] != [] {
      var i :| 0 <= i < |ms| && ConfigKey(ms[i]) == k;
      WithKeyMembers(ms, k, ms[i]);
    }
  }

  /** A member of a group is a measurement of the input. */
  lemma GroupMemberInInput(ms: seq<Measurement>, k: string, m: Measurement)
    requires k in GroupByConfig(ms).table && m in GroupByConfig(ms).table[k]
    ensures m in ms
  {
    GroupContents(ms);
    WithKeyMembers(ms, k, m);
  }

  /** When every group is complete, so is every measurement of the input. */
  lemma CompleteGroupsCoverInput(ms: seq<Measurement>)
    requires GroupsComplete(GroupByConfig(ms), |GroupByConfig(ms).order|)
    ensures forall i :: 0 <= i < |ms| ==> Complete(ms[i])
  {
    var groups := GroupByConfig(ms);
    GroupKeys(ms);
    GroupContents(ms);
    forall i | 0 <= i < |ms| ensures Complete(ms[i]) {
      var key := ConfigKey(ms[i]);
      assert key in KeysOf(ms);
      assert key in groups.order;
      var j :| 0 <= j < |groups.order| && groups.order[j] == key;
      WithKeyMembers(ms, key, ms[i]);
      assert ms[i] in groups.table[groups.order[j]];
    }
  }

  /** No measurement of the group lacks a field read with `m[...]`. */
  predicate AllComplete(g: seq<Measurement>)
  {
    forall m | m in g :: Complete(m)
  }
}
