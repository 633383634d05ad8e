/**
 * `calculateBearParameters`: colours and nutrition summed over the recent
 * meals and turned back into top-5 percentages, characteristics concatenated.
 */
module BearCalculator {
  import opened NumericRecord
  import opened FunctionsModels
  import Seqs

  /** How many colours and nutrition entries the bear keeps. */
  const TopEntries: nat := 5

  /** `Math.round((value / total) * 100)`. */
  function Percent(value: real, total: real): real
    requires total != 0.0
  {
    Round(value / total * 100.0) as real
  }

  /** `[key, Math.round((value / total) * 100)]` for every accumulated entry, in order. */
  function Percentages(acc: Record, total: real): (r: Record)
    requires total != 0.0
    ensures |r| == |acc|
    ensures forall i :: 0 <= i < |r| ==> r[i].0 == acc[i].0 && r[i].1 == Percent(acc[i].1, total)
  {
    if |acc| == 0 then [] else [(acc[0].0, Percent(acc[0].1, total))] + Percentages(acc[1..], total)
  }

  /**
   * What `accumulateAndNormalize` returns for the accumulated record `acc`:
   * `{}` when the values add up to 0, otherwise the `topN` largest
   * percentages (all of them when there are fewer), largest first.
   */
  function Normalized(acc: Record, topN: nat): (r: Record)
    ensures Total(acc) == 0.0 ==> r == []
    ensures |r| <= topN && |r| <= |acc|
    ensures Total(acc) != 0.0 ==> |r| == if topN < |acc| then topN else |acc|
    ensures Total(acc) != 0.0 ==> SortedDesc(r, Value)
    ensures Total(acc) != 0.0 ==> forall i :: 0 <= i < |r| ==> r[i] in Percentages(acc, Total(acc))
  {
    var total := Total(acc);
    if total == 0.0 then []
    else
      var p := Percentages(acc, total);
      var sorted := SortDesc(p, Value);
      var r := Seqs.Take(sorted, topN);
      assert forall i :: 0 <= i < |r| ==> r[i] in p by {
        forall i | 0 <= i < |r| ensures r[i] in p {
          assert r[i] == sorted[i];
          assert sorted[i] in multiset(sorted);
        }
      }
      r
  }

  /**
   * Every kept entry is an accumulated key whose value is
   * `Math.round(accumulated[key] / total * 100)`, and no key is kept twice.
   */
  lemma NormalizedValues(acc: Record, topN: nat)
    requires UniqueKeys(acc) && Total(acc) != 0.0
    ensures forall i :: 0 <= i < |Normalized(acc, topN)| ==>
      HasKey(acc, Normalized(acc, topN)[i].0) &&
      Normalized(acc, topN)[i].1 == Percent(Get(acc, Normalized(acc, topN)[i].0), Total(acc))
    ensures UniqueKeys(Normalized(acc, topN))
  {
    var p := Percentages(acc, Total(acc));
    var r := Normalized(acc, topN);
    var sorted := SortDesc(p, Value);
    assert UniqueBy(p, KeyOf);
    PermutationUniqueBy(p, sorted, KeyOf);
    assert forall i :: 0 <= i < |r| ==> r[i] == sorted[i];
    forall i | 0 <= i < |r|
      ensures HasKey(acc, r[i].0) && r[i].1 == Percent(Get(acc, r[i].0), Total(acc))
    {
      var j :| 0 <= j < |p| && p[j] == r[i];
      GetAt(acc, j);
    }
  }

  /**
   * The kept entries are taken from the percentages without repetition: each
   * occurs in the result at most as often as among the percentages.
   */
  lemma NormalizedSubMultiset(acc: Record, topN: nat)
    requires Total(acc) != 0.0
    ensures multiset(Normalized(acc, topN)) <= multiset(Percentages(acc, Total(acc)))
  {
    var sorted := SortDesc(Percentages(acc, Total(acc)), Value);
    assert Normalized(acc, topN) == Seqs.Take(sorted, topN);
    Seqs.TakeSubMultiset(sorted, topN);
  }

  /** The top entries are the largest: none left out is bigger than one kept. */
  lemma NormalizedKeepsLargest(acc: Record, topN: nat)
    requires Total(acc) != 0.0
    ensures forall e, i :: e in Percentages(acc, Total(acc)) && e !in Normalized(acc, topN) && 0 <= i < |Normalized(acc, topN)| ==>
      e.1 <= Normalized(acc, topN)[i].1
  {
    var p := Percentages(acc, Total(acc));
    var sorted := SortDesc(p, Value);
    var r := Normalized(acc, topN);
    forall e, i | e in p && e !in r && 0 <= i < |r|
      ensures e.1 <= r[i].1
    {
      assert e in multiset(sorted);
      var q :| 0 <= q < |sorted| && sorted[q] == e;
      assert q >= |r|;
      assert r[i] == sorted[i];
      assert Value(sorted[i]) >= Value(sorted[q]);
    }
  }

  /**
   * The accumulation loop of `accumulateAndNormalize`: every entry of every
   * record added under its key, record after record.
   */
  method Accumulate(records: seq<Record>) returns (acc: Record)
    ensures acc == AccumulateAll(records)
  {
    acc := [];
    for i := 0 to |records|
      invariant acc == AccumulateAll(records[..i])
    {
      var record := records[i];
      assert records[..i + 1][..i] == records[..i];
      for j := 0 to |record|
        invariant acc == AddAll(AccumulateAll(records[..i]), record[..j])
      {
        assert record[..j + 1][..j] == record[..j];
        acc := Add(acc, record[j].0, record[j].1);
      }
      assert record[..|record|] == record;
    }
    assert records[..|records|] == records;
  }

  /** `accumulateAndNormalize(records, topN)`. */
  method AccumulateAndNormalize(records: seq<Record>, topN: nat) returns (r: Record)
    ensures r == Normalized(AccumulateAll(records), topN)
  {
    var acc := Accumulate(records);
    r := Normalized(acc, topN);
  }

  /** A summed value is the sum of that key's values over all meals, and only their keys appear. */
  lemma AccumulatedIsSum(records: seq<Record>, k: string)
    ensures Get(AccumulateAll(records), k) == SumAcross(records, k)
    ensures HasKey(AccumulateAll(records), k) <==> exists i :: 0 <= i < |records| && HasKey(records[i], k)
    ensures UniqueKeys(AccumulateAll(records))
  {
    AccumulateAllGet(records, k);
    AccumulateAllKeys(records, k);
  }

  /** The in-order concatenation of the lists. */
  function Concat(lists: seq<seq<string>>): seq<string>
  {
    if |lists| == 0 then [] else Concat(lists[..|lists| - 1]) + lists[|lists| - 1]
  }

  function TotalLength(lists: seq<seq<string>>): nat
  {
    if |lists| == 0 then 0 else TotalLength(lists[..|lists| - 1]) + |lists[|lists| - 1]|
  }

  /** Nothing is dropped or merged: the length is the sum of the lengths, duplicates kept. */
  lemma {:induction false} ConcatLength(lists: seq<seq<string>>)
    ensures |Concat(lists)| == TotalLength(lists)
  {
    if |lists| > 0 {
      ConcatLength(lists[..|lists| - 1]);
    }
  }

  /** `accumulateCharacteristics`: `all.push(...chars)` for every list in turn. */
  method AccumulateCharacteristics(lists: seq<seq<string>>) returns (all: seq<string>)
    ensures all == Concat(lists)
  {
    all := [];
    for i := 0 to |lists|
      invariant all == Concat(lists[..i])
    {
      assert lists[..i + 1][..i] == lists[..i];
      all := all + lists[i];
    }
    assert lists[..|lists|] == lists;
  }

  function Colors(meals: seq<MealAnalysis>): (r: seq<Record>)
    ensures |r| == |meals| && forall k :: 0 <= k < |meals| ==> r[k] == meals[k].colors
  {
    seq(|meals|, k requires 0 <= k < |meals| => meals[k].colors)
  }

  function Nutrition(meals: seq<MealAnalysis>): (r: seq<Record>)
    ensures |r| == |meals| && forall k :: 0 <= k < |meals| ==> r[k] == meals[k].nutrition
  {
    seq(|meals|, k requires 0 <= k < |meals| => meals[k].nutrition)
  }

  function Characteristics(meals: seq<MealAnalysis>): (r: seq<seq<string>>)
    ensures |r| == |meals| && forall k :: 0 <= k < |meals| ==> r[k] == meals[k].characteristics
  {
    seq(|meals|, k requires 0 <= k < |meals| => meals[k].characteristics)
  }

  /**
   * `calculateBearParameters`: the initial parameters (whose definition is a
   * parameter here) for no meals; otherwise the top-5 colours and nutrition
   * and every characteristic of every meal.
   */
  method CalculateBearParameters(recentMeals: seq<MealAnalysis>, initial: BearParameters) returns (p: BearParameters)
    ensures |recentMeals| == 0 ==> p == initial
    ensures |recentMeals| > 0 ==>
      p.colors == Normalized(AccumulateAll(Colors(recentMeals)), TopEntries) &&
      p.nutrition == Normalized(AccumulateAll(Nutrition(recentMeals)), TopEntries) &&
      p.characteristics == Concat(Characteristics(recentMeals))
    ensures |p.colors| <= TopEntries || p == initial
    ensures |p.nutrition| <= TopEntries || p == initial
  {
    if |recentMeals| == 0 {
      return initial;
    }
    var colors := AccumulateAndNormalize(Colors(recentMeals), TopEntries);
    var nutrition := AccumulateAndNormalize(Nutrition(recentMeals), TopEntries);
    var characteristics := AccumulateCharacteristics(Characteristics(recentMeals));
    p := BearParameters(colors, nutrition, characteristics);
  }
}
