/** The evaluation of the image extractor: the strings of every condition
    record (its condition, its drugs' generic and brand names, its side
    effects) are collected, and the human and extracted sets are compared. */
module ImageEval {
  import opened Wrappers
  import opened EvalMetrics

  /** A drug object: each field is `None` when its key is absent. */
  datatype Drug = Drug(genericName: Option<string>, brandNames: Option<seq<string>>)

  /** A condition record: each field is `None` when its key is absent. */
  datatype ImageItem = ImageItem(condition: Option<string>, drug: Option<seq<Drug>>,
                                 sideEffects: Option<seq<string>>)

  // ---------------------------------------------------------------------
  // The first missing key, in the order the loops read the keys.

  function DrugMissing(d: Drug): Option<string>
  {
    if d.genericName.None? then Some("generic_name")
    else if d.brandNames.None? then Some("brand_names")
    else None
  }

  function DrugsMissing(drugs: seq<Drug>): Option<string>
  {
    if drugs == [] then None
    else if DrugsMissing(drugs[..|drugs| - 1]).Some? then DrugsMissing(drugs[..|drugs| - 1])
    else DrugMissing(drugs[|drugs| - 1])
  }

  function ItemMissing(item: ImageItem): Option<string>
  {
    if item.condition.None? then Some("condition")
    else if item.drug.None? then Some("drug")
    else if DrugsMissing(item.drug.value).Some? then DrugsMissing(item.drug.value)
    else if item.sideEffects.None? then Some("side_effects")
    else None
  }

  /** The key whose absence stops `extract_all_strings`, if any. */
  function FirstMissing(data: seq<ImageItem>): Option<string>
  {
    if data == [] then None
    else if FirstMissing(data[..|data| - 1]).Some? then FirstMissing(data[..|data| - 1])
    else ItemMissing(data[|data| - 1])
  }

  // ---------------------------------------------------------------------
  // The strings, when no key is missing.

  function DrugStrings(drugs: seq<Drug>): set<string>
    requires DrugsMissing(drugs).None?
  {
    if drugs == [] then {}
    else
      var d := drugs[|drugs| - 1];
      DrugStrings(drugs[..|drugs| - 1]) + {d.genericName.value} + NonEmpty(d.brandNames.value)
  }

  function ItemStrings(item: ImageItem): set<string>
    requires ItemMissing(item).None?
  {
    {item.condition.value} + DrugStrings(item.drug.value) + NonEmpty(item.sideEffects.value)
  }

  function AllStrings(data: seq<ImageItem>): set<string>
    requires FirstMissing(data).None?
  {
    if data == [] then {} else AllStrings(data[..|data| - 1]) + ItemStrings(data[|data| - 1])
  }

  /** `extract_all_strings`: the loops over records and over each record's
      drugs; the first key missing in reading order is raised. */
  method ExtractAllStrings(data: seq<ImageItem>) returns (r: Result<set<string>, KeyError>)
    ensures FirstMissing(data).Some? ==> r == Failure(KeyError(FirstMissing(data).value))
    ensures FirstMissing(data).None? ==> r == Success(AllStrings(data))
  {
    var all: set<string> := {};
    for i := 0 to |data|
      invariant FirstMissing(data[..i]).None?
      invariant all == AllStrings(data[..i])
    {
      var item := data[i];
      assert data[..i + 1][..i] == data[..i];
      if item.condition.None? {
        FirstMissingPrefix(data, i + 1);
        return Failure(KeyError("condition"));
      }
      all := all + {item.condition.value};
      if item.drug.None? {
        FirstMissingPrefix(data, i + 1);
        return Failure(KeyError("drug"));
      }
      var drugs := item.drug.value;
      for j := 0 to |drugs|
        invariant DrugsMissing(drugs[..j]).None?
        invariant all == AllStrings(data[..i]) + {item.condition.value} + DrugStrings(drugs[..j])
      {
        var drug := drugs[j];
        assert drugs[..j + 1][..j] == drugs[..j];
        if drug.genericName.None? {
          assert DrugsMissing(drugs[..j + 1]) == Some("generic_name");
          DrugsMissingPrefix(drugs, j + 1);
          FirstMissingPrefix(data, i + 1);
          return Failure(KeyError("generic_name"));
        }
        all := all + {drug.genericName.value};
        if drug.brandNames.None? {
          assert DrugsMissing(drugs[..j + 1]) == Some("brand_names");
          DrugsMissingPrefix(drugs, j + 1);
          FirstMissingPrefix(data, i + 1);
          return Failure(KeyError("brand_names"));
        }
        all := all + NonEmpty(drug.brandNames.value);
      }
      assert drugs[..|drugs|] == drugs;
      if item.sideEffects.None? {
        FirstMissingPrefix(data, i + 1);
        return Failure(KeyError("side_effects"));
      }
      all := all + NonEmpty(item.sideEffects.value);
    }
    assert data[..|data|] == data;
    return Success(all);
  }

  /** A key missing in the first `n` drugs is the first one missing in all. */
  lemma {:induction false} DrugsMissingPrefix(drugs: seq<Drug>, n: nat)
    requires n <= |drugs| && DrugsMissing(drugs[..n]).Some?
    ensures DrugsMissing(drugs) == DrugsMissing(drugs[..n])
    decreases |drugs| - n
  {
    if n < |drugs| {
      assert drugs[..n + 1][..n] == drugs[..n];
      DrugsMissingPrefix(drugs, n + 1);
    } else {
      assert drugs[..n] == drugs;
    }
  }

  /** Where a string of the set may come from, field by field. */
  predicate FromDrug(d: Drug, s: string) {
    d.genericName == Some(s) || (d.brandNames.Some? && s in d.brandNames.value && s != "")
  }

  predicate FromItem(item: ImageItem, s: string) {
    || item.condition == Some(s)
    || (item.drug.Some? && exists j :: 0 <= j < |item.drug.value| && FromDrug(item.drug.value[j], s))
    || (item.sideEffects.Some? && s in item.sideEffects.value && s != "")
  }

  lemma {:induction false} DrugStringsFrom(drugs: seq<Drug>, s: string)
    requires DrugsMissing(drugs).None?
    ensures s in DrugStrings(drugs) <==> exists j :: 0 <= j < |drugs| && FromDrug(drugs[j], s)
    decreases |drugs|
  {
    if drugs != [] {
      var init, last := drugs[..|drugs| - 1], drugs[|drugs| - 1];
      DrugStringsFrom(init, s);
      if s in DrugStrings(drugs) {
        if s in DrugStrings(init) {
          var j :| 0 <= j < |init| && FromDrug(init[j], s);
          assert drugs[j] == init[j];
        } else {
          assert FromDrug(drugs[|drugs| - 1], s);
        }
      }
      if exists j :: 0 <= j < |drugs| && FromDrug(drugs[j], s) {
        var j :| 0 <= j < |drugs| && FromDrug(drugs[j], s);
        if j < |init| {
          assert FromDrug(init[j], s);
        }
      }
    }
  }

  lemma ItemStringsFrom(item: ImageItem, s: string)
    requires ItemMissing(item).None?
    ensures s in ItemStrings(item) <==> FromItem(item, s)
  {
    DrugStringsFrom(item.drug.value, s);
  }

  /** A string is in the set exactly when some record holds it as its
      condition, a drug's generic name (even an empty one), a non-empty brand
      name or a non-empty side effect: every such string enters, and nothing
      else. */
  lemma {:induction false} AllStringsFromItems(data: seq<ImageItem>, s: string)
    requires FirstMissing(data).None?
    ensures s in AllStrings(data) <==> exists i :: 0 <= i < |data| && FromItem(data[i], s)
    decreases |data|
  {
    if data != [] {
      var init, last := data[..|data| - 1], data[|data| - 1];
      AllStringsFromItems(init, s);
      ItemStringsFrom(last, s);
      if s in AllStrings(data) {
        if s in AllStrings(init) {
          var i :| 0 <= i < |init| && FromItem(init[i], s);
          assert data[i] == init[i];
        } else {
          assert FromItem(data[|data| - 1], s);
        }
      }
      if exists i :: 0 <= i < |data| && FromItem(data[i], s) {
        var i :| 0 <= i < |data| && FromItem(data[i], s);
        if i < |init| {
          assert FromItem(init[i], s);
        }
      }
    }
  }

  /** A record missing its `condition` key fails the extraction whatever
      the earlier records hold, as long as they are complete. */
  lemma MissingConditionReported(data: seq<ImageItem>, i: nat)
    requires i < |data| && FirstMissing(data[..i]).None? && data[i].condition.None?
    ensures FirstMissing(data) == Some("condition")
  {
    assert data[..i + 1][..i] == data[..i];
    FirstMissingPrefix(data, i + 1);
  }

  /** A key missing in the first `n` records is the first one missing in all. */
  lemma {:induction false} FirstMissingPrefix(data: seq<ImageItem>, n: nat)
    requires n <= |data| && FirstMissing(data[..n]).Some?
    ensures FirstMissing(data) == FirstMissing(data[..n])
    decreases |data| - n
  {
    if n < |data| {
      assert data[..n + 1][..n] == data[..n];
      FirstMissingPrefix(data, n + 1);
    } else {
      assert data[..n] == data;
    }
  }

  /** `evaluate_extraction` on the two loaded files: the human file's
      strings are collected first, so its missing key is reported first. */
  method EvaluateExtraction(human: seq<ImageItem>, extracted: seq<ImageItem>) returns (r: Result<Metrics, KeyError>)
    ensures r.Success? <==> FirstMissing(human).None? && FirstMissing(extracted).None?
    ensures FirstMissing(human).Some? ==> r == Failure(KeyError(FirstMissing(human).value))
    ensures FirstMissing(human).None? && FirstMissing(extracted).Some? ==>
      r == Failure(KeyError(FirstMissing(extracted).value))
    ensures r.Success? ==> r.value == Compare(AllStrings(human), AllStrings(extracted))
  {
    var humanStrings := ExtractAllStrings(human);
    if humanStrings.Failure? {
      return Failure(humanStrings.error);
    }
    var extractedStrings := ExtractAllStrings(extracted);
    if extractedStrings.Failure? {
      return Failure(extractedStrings.error);
    }
    return Success(Compare(humanStrings.value, extractedStrings.value));
  }
}
