/** The metrics both extraction evaluations compute from the human-annotated
    and the extracted string sets, and the totals over all evaluated files. */
module EvalMetrics {

  /** The `{"exact_match", "missing", "potential_hallucination"}` dictionary. */
  datatype Metrics = Metrics(exactMatch: nat, missing: nat, potentialHallucination: nat)

  const ExactMatch := "exact_match"
  const Missing := "missing"
  const PotentialHallucination := "potential_hallucination"

  /** What a missing key raises while the strings are collected. */
  datatype KeyError = KeyError(key: string)

  /** The non-empty strings of a list. */
  function NonEmpty(xs: seq<string>): (r: set<string>)
    ensures forall x :: x in r <==> x in xs && x != ""
  {
    set x | x in xs && x != ""
  }

  /** A set splits into its part inside `b` and its part outside `b`. */
  lemma SplitSize(a: set<string>, b: set<string>)
    ensures |a| == |a * b| + |a - b|
  {
    var inside, outside := a * b, a - b;
    assert a == inside + outside;
    assert inside * outside == {};
  }

  /** Nothing of `a` lies outside `b` exactly when `a` is a subset of `b`. */
  lemma NoneOutside(a: set<string>, b: set<string>)
    ensures |a - b| == 0 <==> a <= b
  {
    if a <= b {
      assert a - b == {};
    } else {
      var x :| x in a && x !in b;
      assert x in a - b;
    }
  }

  /** The size of the intersection, of the human-only strings and of the
      extracted-only strings. */
  function Compare(human: set<string>, extracted: set<string>): (m: Metrics)
    ensures m.exactMatch + m.missing == |human|
    ensures m.exactMatch + m.potentialHallucination == |extracted|
    ensures m.missing == 0 <==> human <= extracted
    ensures m.potentialHallucination == 0 <==> extracted <= human
    ensures human == extracted ==> m == Metrics(|human|, 0, 0)
  {
    SplitSize(human, extracted);
    SplitSize(extracted, human);
    assert extracted * human == human * extracted;
    NoneOutside(human, extracted);
    NoneOutside(extracted, human);
    Metrics(|human * extracted|, |human - extracted|, |extracted - human|)
  }

  /** The metric dictionary's items, in insertion order. */
  function Items(m: Metrics): seq<(string, nat)>
  {
    [(ExactMatch, m.exactMatch), (Missing, m.missing), (PotentialHallucination, m.potentialHallucination)]
  }

  /** The value a metric dictionary holds for `name`, 0 when it has none. */
  function Field(m: Metrics, name: string): nat
  {
    if name == ExactMatch then m.exactMatch
    else if name == Missing then m.missing
    else if name == PotentialHallucination then m.potentialHallucination
    else 0
  }

  /** The sum of one metric over the files. */
  function Total(results: seq<Metrics>, name: string): nat
  {
    if results == [] then 0 else Total(results[..|results| - 1], name) + Field(results[|results| - 1], name)
  }

  /** The value of `totals[name]` on the `defaultdict(int)`. */
  function Get(totals: map<string, nat>, name: string): nat
  {
    if name in totals then totals[name] else 0
  }

  /** The names among the first `k` items. */
  function Names(items: seq<(string, nat)>, k: nat): set<string>
    requires k <= |items|
  {
    if k == 0 then {} else Names(items, k - 1) + {items[k - 1].0}
  }

  /** What the first `k` items add to the total of `name`. */
  function Added(items: seq<(string, nat)>, k: nat, name: string): nat
    requires k <= |items|
  {
    if k == 0 then 0 else Added(items, k - 1, name) + (if items[k - 1].0 == name then items[k - 1].1 else 0)
  }

  /** A metric dictionary's items name the three metrics, each once. */
  lemma ItemsAddFields(m: Metrics)
    ensures Names(Items(m), 3) == {ExactMatch, Missing, PotentialHallucination}
    ensures forall name :: Added(Items(m), 3, name) == Field(m, name)
  {
    var items := Items(m);
    assert Names(items, 1) == {ExactMatch};
    assert Names(items, 2) == {ExactMatch, Missing};
    forall name ensures Added(items, 3, name) == Field(m, name) {
      assert Added(items, 1, name) == if name == ExactMatch then m.exactMatch else 0;
      assert Added(items, 2, name) == Added(items, 1, name) + if name == Missing then m.missing else 0;
    }
  }

  /** The totals loop of `main`: every metric of every file is added to the
      running total of its name. The keys exist once a file was seen. */
  method Totals(results: seq<Metrics>) returns (totals: map<string, nat>)
    ensures totals.Keys == if results == [] then {} else {ExactMatch, Missing, PotentialHallucination}
    ensures forall name :: Get(totals, name) == Total(results, name)
  {
    totals := map[];
    for f := 0 to |results|
      invariant totals.Keys == if f == 0 then {} else {ExactMatch, Missing, PotentialHallucination}
      invariant forall name :: Get(totals, name) == Total(results[..f], name)
    {
      var items := Items(results[f]);
      ghost var before := totals;
      for k := 0 to |items|
        invariant totals.Keys == before.Keys + Names(items, k)
        invariant forall name :: Get(totals, name) == Get(before, name) + Added(items, k, name)
      {
        var (metric, count) := items[k];
        totals := totals[metric := Get(totals, metric) + count];
      }
      ItemsAddFields(results[f]);
      assert results[..f + 1][..f] == results[..f];
    }
    assert results[..|results|] == results;
  }

  /** Totals over files one after the other add up. */
  lemma {:induction false} TotalAppend(a: seq<Metrics>, b: seq<Metrics>, name: string)
    ensures Total(a + b, name) == Total(a, name) + Total(b, name)
    decreases |b|
  {
    if b == [] {
      assert a + b == a;
    } else {
      var b0 := b[..|b| - 1];
      assert (a + b)[..|a + b| - 1] == a + b0;
      TotalAppend(a, b0, name);
    }
  }

  /** The sum of the human set sizes over the files. */
  function HumanSizes(pairs: seq<(set<string>, set<string>)>): nat
  {
    if pairs == [] then 0 else HumanSizes(pairs[..|pairs| - 1]) + |pairs[|pairs| - 1].0|
  }

  /** The sum of the extracted set sizes over the files. */
  function ExtractedSizes(pairs: seq<(set<string>, set<string>)>): nat
  {
    if pairs == [] then 0 else ExtractedSizes(pairs[..|pairs| - 1]) + |pairs[|pairs| - 1].1|
  }

  /** The per-file metrics of the given `(human, extracted)` pairs. */
  function CompareAll(pairs: seq<(set<string>, set<string>)>): (results: seq<Metrics>)
    ensures |results| == |pairs|
    ensures forall i :: 0 <= i < |pairs| ==> results[i] == Compare(pairs[i].0, pairs[i].1)
  {
    seq(|pairs|, i requires 0 <= i < |pairs| => Compare(pairs[i].0, pairs[i].1))
  }

  /** Over all files, exact matches plus missing strings count every human
      string once, and exact matches plus potential hallucinations count
      every extracted string once. */
  lemma {:induction false} TotalsCountStrings(pairs: seq<(set<string>, set<string>)>)
    ensures Total(CompareAll(pairs), ExactMatch) + Total(CompareAll(pairs), Missing) == HumanSizes(pairs)
    ensures Total(CompareAll(pairs), ExactMatch) + Total(CompareAll(pairs), PotentialHallucination) == ExtractedSizes(pairs)
    decreases |pairs|
  {
    if pairs != [] {
      var init := pairs[..|pairs| - 1];
      TotalsCountStrings(init);
      assert CompareAll(pairs)[..|pairs| - 1] == CompareAll(init);
    }
  }
}
