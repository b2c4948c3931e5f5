/** src/analysis/extract_real_data_only.py, _extract_cores_from_config and
    _extract_batch_from_config: the core count and batch size read off a
    configuration name by substring tests taken in a fixed order. */
module ConfigNames {
  import opened Text

  /** `'cores1'`, `'cores2'`, `'cores4'` tested in that order; 1 by default. */
  function CoresFromConfig(name: string): (r: int)
    ensures r == 1 || r == 2 || r == 4
  {
    if Contains(name, "cores1") then 1
    else if Contains(name, "cores2") then 2
    else if Contains(name, "cores4") then 4
    else 1
  }

  /** `'batch1'`, `'batch4'`, `'batch8'`, `'batch16'` tested in that order; 1 by default. */
  function BatchFromConfig(name: string): int
  {
    if Contains(name, "batch1") then 1
    else if Contains(name, "batch4") then 4
    else if Contains(name, "batch8") then 8
    else if Contains(name, "batch16") then 16
    else 1
  }

  /** Any name mentioning `cores1` reads as one core, which includes every
      name mentioning `cores16` or `cores12`; a name is read as 2 or 4 cores
      only when it mentions that tag and no earlier one. */
  lemma CoresFromConfigCases(name: string, suffix: string)
    ensures Contains(name, "cores1" + suffix) ==> CoresFromConfig(name) == 1
    ensures CoresFromConfig(name) == 2 <==> !Contains(name, "cores1") && Contains(name, "cores2")
    ensures CoresFromConfig(name) == 4 <==>
      !Contains(name, "cores1") && !Contains(name, "cores2") && Contains(name, "cores4")
  {
    if Contains(name, "cores1" + suffix) {
      ContainsPrefix(name, "cores1", suffix);
    }
  }

  /** `'batch16'` is tested after `'batch1'`, which every name containing
      `batch16` also contains, so the `return 16` branch is never taken and
      the batch size is always 1, 4 or 8, each exactly when its tag is the
      first one present. */
  lemma BatchNeverSixteen(name: string)
    ensures BatchFromConfig(name) == 1 || BatchFromConfig(name) == 4 || BatchFromConfig(name) == 8
    ensures Contains(name, "batch16") ==> BatchFromConfig(name) == 1
    ensures BatchFromConfig(name) == 4 <==> !Contains(name, "batch1") && Contains(name, "batch4")
    ensures BatchFromConfig(name) == 8 <==>
      !Contains(name, "batch1") && !Contains(name, "batch4") && Contains(name, "batch8")
  {
    if Contains(name, "batch16") {
      assert "batch1" + "6" == "batch16";
      ContainsPrefix(name, "batch1", "6");
    }
  }
}
