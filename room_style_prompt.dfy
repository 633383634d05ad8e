/**
 * The first step of the room-style bear: every ingredient of the recent meals
 * gets an influence score, the sum over the dishes that list it of the dish's
 * category weight times its portion weight; the scores feed a prompt with the
 * meal history, the ten most influential ingredients and the dominant ones.
 */
module RoomStylePrompt {
  import opened Strings
  import opened Seqs
  import opened NumericRecord
  import opened FunctionsModels

  /** `CATEGORY_WEIGHTS`. */
  function CategoryWeight(c: DishCategory): real
  {
    match c
    case Main => 1.5
    case Side => 1.0
    case Staple => 0.3
    case Soup => 0.5
  }

  /** `PORTION_WEIGHTS`. */
  function PortionWeight(p: Portion): real
  {
    match p
    case Small => 0.5
    case Medium => 1.0
    case Large => 1.5
  }

  /** An ingredient whose unrounded score reaches this is dominant. */
  const DominantThreshold: real := 5.0
  /** How many ingredients the prompt lists. */
  const TopCount: nat := 10

  datatype Influence = Influence(name: string, score: real, isDominant: bool)

  /** What one dish adds to each of its ingredients: always positive, at most 2.25. */
  function DishScore(d: Dish): (s: real)
    ensures 0.15 <= s <= 2.25
  {
    CategoryWeight(d.category) * PortionWeight(d.portion)
  }

  // ---------------------------------------------------------------------------
  // The additions the accumulation loop performs, in order
  // ---------------------------------------------------------------------------

  function IngredientEntries(ingredients: seq<string>, score: real): (es: seq<Entry>)
    ensures |es| == |ingredients|
    ensures forall i :: 0 <= i < |es| ==> es[i] == (ingredients[i], score)
  {
    seq(|ingredients|, i requires 0 <= i < |ingredients| => (ingredients[i], score))
  }

  function DishEntries(dishes: seq<Dish>): seq<Entry>
  {
    if |dishes| == 0 then []
    else (DishEntries(dishes[..|dishes| - 1])
      + IngredientEntries(dishes[|dishes| - 1].ingredients, DishScore(dishes[|dishes| - 1])))
  }

  function MealEntries(meals: seq<MealAnalysis>): seq<Entry>
  {
    if |meals| == 0 then []
    else MealEntries(meals[..|meals| - 1]) + DishEntries(meals[|meals| - 1].dishes)
  }

  /** The `scores` record after the loops: first-seen order, one entry per ingredient. */
  function Scores(meals: seq<MealAnalysis>): Record
  {
    AddAll([], MealEntries(meals))
  }

  // ---------------------------------------------------------------------------
  // Reference: the weighted number of times an ingredient is listed
  // ---------------------------------------------------------------------------

  function Occurrences(s: seq<string>, x: string): nat
  {
    if |s| == 0 then 0
    else Occurrences(s[..|s| - 1], x) + (if s[|s| - 1] == x then 1 else 0)
  }

  function DishesWeight(dishes: seq<Dish>, x: string): real
  {
    if |dishes| == 0 then 0.0
    else (DishesWeight(dishes[..|dishes| - 1], x)
      + Occurrences(dishes[|dishes| - 1].ingredients, x) as real * DishScore(dishes[|dishes| - 1]))
  }

  /** The influence of `x`: every listing of `x` in a dish counts that dish's score. */
  function Weight(meals: seq<MealAnalysis>, x: string): real
  {
    if |meals| == 0 then 0.0
    else Weight(meals[..|meals| - 1], x) + DishesWeight(meals[|meals| - 1].dishes, x)
  }

  /** Some dish of some meal lists `x`. */
  ghost predicate Listed(meals: seq<MealAnalysis>, x: string)
  {
    exists i, j :: 0 <= i < |meals| && 0 <= j < |meals[i].dishes| && x in meals[i].dishes[j].ingredients
  }

  ghost predicate InEntries(es: seq<Entry>, x: string)
  {
    exists j :: 0 <= j < |es| && es[j].0 == x
  }

  lemma {:induction false} SumForAppend(a: seq<Entry>, b: seq<Entry>, k: string)
    ensures SumFor(a + b, k) == SumFor(a, k) + SumFor(b, k)
    decreases |b|
  {
    if |b| == 0 {
      assert a + b == a;
    } else {
      var b' := b[..|b| - 1];
      assert (a + b)[..|a + b| - 1] == a + b';
      assert (a + b)[|a + b| - 1] == b[|b| - 1];
      SumForAppend(a, b', k);
    }
  }

  lemma {:induction false} SumForIngredients(ingredients: seq<string>, score: real, k: string)
    ensures SumFor(IngredientEntries(ingredients, score), k) == Occurrences(ingredients, k) as real * score
    decreases |ingredients|
  {
    if |ingredients| > 0 {
      var init := ingredients[..|ingredients| - 1];
      var es := IngredientEntries(ingredients, score);
      assert es[..|es| - 1] == IngredientEntries(init, score);
      SumForIngredients(init, score, k);
    }
  }

  lemma {:induction false} SumForDishes(dishes: seq<Dish>, k: string)
    ensures SumFor(DishEntries(dishes), k) == DishesWeight(dishes, k)
    decreases |dishes|
  {
    if |dishes| > 0 {
      var last := dishes[|dishes| - 1];
      SumForDishes(dishes[..|dishes| - 1], k);
      SumForAppend(DishEntries(dishes[..|dishes| - 1]), IngredientEntries(last.ingredients, DishScore(last)), k);
      SumForIngredients(last.ingredients, DishScore(last), k);
    }
  }

  lemma {:induction false} SumForMeals(meals: seq<MealAnalysis>, k: string)
    ensures SumFor(MealEntries(meals), k) == Weight(meals, k)
    decreases |meals|
  {
    if |meals| > 0 {
      SumForMeals(meals[..|meals| - 1], k);
      SumForAppend(MealEntries(meals[..|meals| - 1]), DishEntries(meals[|meals| - 1].dishes), k);
      SumForDishes(meals[|meals| - 1].dishes, k);
    }
  }

  /** The accumulated score of every ingredient is its weighted count. */
  lemma ScoreIsWeight(meals: seq<MealAnalysis>, k: string)
    ensures Get(Scores(meals), k) == Weight(meals, k)
  {
    AddAllGet([], MealEntries(meals), k);
    SumForMeals(meals, k);
  }

  lemma InEntriesAppend(a: seq<Entry>, b: seq<Entry>, x: string)
    ensures InEntries(a + b, x) <==> InEntries(a, x) || InEntries(b, x)
  {
    if InEntries(a + b, x) {
      var j :| 0 <= j < |a + b| && (a + b)[j].0 == x;
      if j >= |a| {
        assert b[j - |a|].0 == x;
      }
    }
    if InEntries(a, x) {
      var j :| 0 <= j < |a| && a[j].0 == x;
      assert (a + b)[j].0 == x;
    }
    if InEntries(b, x) {
      var j :| 0 <= j < |b| && b[j].0 == x;
      assert (a + b)[|a| + j].0 == x;
    }
  }

  lemma {:induction false} DishEntriesKeys(dishes: seq<Dish>, x: string)
    ensures InEntries(DishEntries(dishes), x) <==> exists j :: 0 <= j < |dishes| && x in dishes[j].ingredients
    decreases |dishes|
  {
    if |dishes| > 0 {
      var init := dishes[..|dishes| - 1];
      var last := dishes[|dishes| - 1];
      DishEntriesKeys(init, x);
      InEntriesAppend(DishEntries(init), IngredientEntries(last.ingredients, DishScore(last)), x);
      var es := IngredientEntries(last.ingredients, DishScore(last));
      assert InEntries(es, x) <==> x in last.ingredients by {
        if x in last.ingredients {
          var m :| 0 <= m < |last.ingredients| && last.ingredients[m] == x;
          assert es[m].0 == x;
        }
      }
      assert forall j :: 0 <= j < |init| ==> init[j] == dishes[j];
    }
  }

  lemma {:induction false} MealEntriesKeys(meals: seq<MealAnalysis>, x: string)
    ensures InEntries(MealEntries(meals), x) <==> Listed(meals, x)
    decreases |meals|
  {
    if |meals| > 0 {
      var init := meals[..|meals| - 1];
      var last := meals[|meals| - 1];
      MealEntriesKeys(init, x);
      InEntriesAppend(MealEntries(init), DishEntries(last.dishes), x);
      DishEntriesKeys(last.dishes, x);
      assert forall i :: 0 <= i < |init| ==> init[i] == meals[i];
      if Listed(meals, x) && !Listed(init, x) {
        var i, j :| 0 <= i < |meals| && 0 <= j < |meals[i].dishes| && x in meals[i].dishes[j].ingredients;
        assert i == |meals| - 1;
      }
    }
  }

  /** The record has a key exactly for the ingredients some dish lists. */
  lemma ScoresKeys(meals: seq<MealAnalysis>, x: string)
    ensures HasKey(Scores(meals), x) <==> Listed(meals, x)
    ensures UniqueKeys(Scores(meals))
  {
    AddAllKeys([], MealEntries(meals), x);
    AddAllUnique([], MealEntries(meals));
    MealEntriesKeys(meals, x);
  }

  // ---------------------------------------------------------------------------
  // calculateInfluence
  // ---------------------------------------------------------------------------

  /** `Math.round(score * 10) / 10`: the score rounded to one decimal. */
  function OneDecimal(score: real): (r: real)
    ensures score - 0.05 < r <= score + 0.05
  {
    Round(score * 10.0) as real / 10.0
  }

  /** One entry of `scores` as it is shown. */
  function ToInfluence(e: Entry): Influence
  {
    Influence(e.0, OneDecimal(e.1), e.1 >= DominantThreshold)
  }

  function RoundedScore(i: Influence): real { i.score }
  function NameOf(i: Influence): string { i.name }

  function Unsorted(scores: Record): seq<Influence>
  {
    seq(|scores|, n requires 0 <= n < |scores| => ToInfluence(scores[n]))
  }

  /** The influences, highest rounded score first. */
  function InfluenceList(meals: seq<MealAnalysis>): seq<Influence>
  {
    SortDesc(Unsorted(Scores(meals)), RoundedScore)
  }

  lemma AddAllSnoc(r: Record, es: seq<Entry>, e: Entry)
    ensures AddAll(r, es + [e]) == Add(AddAll(r, es), e.0, e.1)
  {
    assert (es + [e])[..|es|] == es;
  }

  lemma IngredientEntriesStep(ingredients: seq<string>, k: nat, score: real)
    requires k < |ingredients|
    ensures IngredientEntries(ingredients[..k + 1], score)
      == IngredientEntries(ingredients[..k], score) + [(ingredients[k], score)]
  {
  }

  lemma DishEntriesStep(dishes: seq<Dish>, j: nat)
    requires j < |dishes|
    ensures DishEntries(dishes[..j + 1])
      == DishEntries(dishes[..j]) + IngredientEntries(dishes[j].ingredients, DishScore(dishes[j]))
  {
    assert dishes[..j + 1][..j] == dishes[..j];
  }

  lemma MealEntriesStep(meals: seq<MealAnalysis>, i: nat)
    requires i < |meals|
    ensures MealEntries(meals[..i + 1]) == MealEntries(meals[..i]) + DishEntries(meals[i].dishes)
  {
    assert meals[..i + 1][..i] == meals[..i];
  }

  lemma {:induction false} AddAllAppend(r: Record, a: seq<Entry>, b: seq<Entry>)
    ensures AddAll(r, a + b) == AddAll(AddAll(r, a), b)
    decreases |b|
  {
    if |b| == 0 {
      assert a + b == a;
    } else {
      var b' := b[..|b| - 1];
      assert (a + b)[..|a + b| - 1] == a + b';
      assert (a + b)[|a + b| - 1] == b[|b| - 1];
      AddAllAppend(r, a, b');
    }
  }

  /** The innermost loop of `calculateInfluence`: one dish's score added to each of its ingredients. */
  method AddDishScore(scores: Record, ingredients: seq<string>, dishScore: real) returns (r: Record)
    ensures r == AddAll(scores, IngredientEntries(ingredients, dishScore))
  {
    r := scores;
    for k := 0 to |ingredients|
      invariant r == AddAll(scores, IngredientEntries(ingredients[..k], dishScore))
    {
      r := Add(r, ingredients[k], dishScore);
      IngredientEntriesStep(ingredients, k, dishScore);
      AddAllSnoc(scores, IngredientEntries(ingredients[..k], dishScore), (ingredients[k], dishScore));
    }
    assert ingredients[..|ingredients|] == ingredients;
  }

  /** The loop over one meal's dishes. */
  method AddMealScores(scores: Record, dishes: seq<Dish>) returns (r: Record)
    ensures r == AddAll(scores, DishEntries(dishes))
  {
    r := scores;
    for j := 0 to |dishes|
      invariant r == AddAll(scores, DishEntries(dishes[..j]))
    {
      var dish := dishes[j];
      var dishScore := DishScore(dish);
      r := AddDishScore(r, dish.ingredients, dishScore);
      AddAllAppend(scores, DishEntries(dishes[..j]), IngredientEntries(dish.ingredients, dishScore));
      DishEntriesStep(dishes, j);
    }
    assert dishes[..|dishes|] == dishes;
  }

  /**
   * `calculateInfluence`: the loops over meals, dishes and ingredients (the
   * inner two as `AddMealScores` and `AddDishScore`), then the map and the sort.
   */
  method CalculateInfluence(meals: seq<MealAnalysis>) returns (influences: seq<Influence>)
    ensures influences == InfluenceList(meals)
    ensures SortedDesc(influences, RoundedScore)
  {
    var scores: Record := [];
    for i := 0 to |meals|
      invariant scores == Scores(meals[..i])
    {
      scores := AddMealScores(scores, meals[i].dishes);
      AddAllAppend([], MealEntries(meals[..i]), DishEntries(meals[i].dishes));
      MealEntriesStep(meals, i);
    }
    assert meals[..|meals|] == meals;
    influences := SortDesc(Unsorted(scores), RoundedScore);
  }

  /** No ingredient appears twice in the influence list. */
  lemma InfluencesUnique(meals: seq<MealAnalysis>)
    ensures UniqueBy(InfluenceList(meals), NameOf)
  {
    var scores := Scores(meals);
    ScoresKeys(meals, "");
    PermutationUniqueBy(Unsorted(scores), InfluenceList(meals), NameOf);
  }

  /**
   * Every influence belongs to a listed ingredient, carries its weighted count
   * rounded to one decimal, and is dominant exactly when the unrounded count
   * reaches the threshold.
   */
  lemma InfluenceScore(meals: seq<MealAnalysis>, x: Influence)
    requires x in InfluenceList(meals)
    ensures Listed(meals, x.name)
    ensures x.score == OneDecimal(Weight(meals, x.name))
    ensures x.isDominant <==> Weight(meals, x.name) >= DominantThreshold
  {
    var scores := Scores(meals);
    var u := Unsorted(scores);
    assert x in multiset(u);
    var n :| 0 <= n < |u| && u[n] == x;
    assert x.name == scores[n].0;
    ScoresKeys(meals, x.name);
    GetAt(scores, n);
    ScoreIsWeight(meals, x.name);
    assert scores[n].1 == Weight(meals, x.name);
  }

  /** Every listed ingredient has an influence. */
  lemma InfluenceComplete(meals: seq<MealAnalysis>, name: string)
    requires Listed(meals, name)
    ensures exists x :: x in InfluenceList(meals) && x.name == name
  {
    var scores := Scores(meals);
    ScoresKeys(meals, name);
    var n :| 0 <= n < |scores| && scores[n].0 == name;
    var x := Unsorted(scores)[n];
    assert x in multiset(InfluenceList(meals));
  }

  /** The influence list is empty exactly when no dish lists an ingredient. */
  lemma NoInfluences(meals: seq<MealAnalysis>)
    ensures |InfluenceList(meals)| == 0 <==> forall name :: !Listed(meals, name)
  {
    if |InfluenceList(meals)| > 0 {
      InfluenceScore(meals, InfluenceList(meals)[0]);
    }
    if exists name :: Listed(meals, name) {
      var name :| Listed(meals, name);
      InfluenceComplete(meals, name);
    }
  }

  // ---------------------------------------------------------------------------
  // buildRoomStylePrompt
  // ---------------------------------------------------------------------------

  /** `- ` followed by the meal's dish names. */
  function MealLine(m: MealAnalysis): string
  {
    "- " + Join(seq(|m.dishes|, j requires 0 <= j < |m.dishes| => m.dishes[j].name), ", ")
  }

  /** `formatMealHistory`: one line per meal. */
  function FormatMealHistory(meals: seq<MealAnalysis>): string
  {
    Join(seq(|meals|, i requires 0 <= i < |meals| => MealLine(meals[i])), "\n")
  }

  /** `- name: score`, the score shown by `show`. */
  function TopLine(i: Influence, show: real -> string): string
  {
    "- " + i.name + ": " + show(i.score)
  }

  /** `influences.filter((i) => i.isDominant)`. */
  function Dominant(influences: seq<Influence>): (r: seq<Influence>)
    ensures |r| <= |influences|
  {
    if |influences| == 0 then []
    else (Dominant(influences[..|influences| - 1])
      + (if influences[|influences| - 1].isDominant then [influences[|influences| - 1]] else []))
  }

  /** The filter keeps exactly the dominant influences. */
  lemma {:induction false} DominantMembers(influences: seq<Influence>, x: Influence)
    ensures x in Dominant(influences) <==> x in influences && x.isDominant
    decreases |influences|
  {
    if |influences| > 0 {
      var init := influences[..|influences| - 1];
      DominantMembers(init, x);
      assert influences == init + [influences[|influences| - 1]];
    }
  }

  /** The three data sections of the prompt; the instructions around them are fixed text. */
  datatype RoomStyleSections = RoomStyleSections(mealHistory: string, topIngredients: string, dominant: string)

  function Sections(meals: seq<MealAnalysis>, influences: seq<Influence>, show: real -> string): RoomStyleSections
  {
    var top := Take(influences, TopCount);
    var dominant := Dominant(influences);
    RoomStyleSections(
      OrDefault(FormatMealHistory(meals), "No meals yet"),
      OrDefault(Join(seq(|top|, i requires 0 <= i < |top| => TopLine(top[i], show)), "\n"), "None"),
      OrDefault(Join(seq(|dominant|, i requires 0 <= i < |dominant| => dominant[i].name), ", "), "None"))
  }

  /**
   * The top-ingredient section shows at most ten influences, and none left
   * out has a higher rounded score than one shown.
   */
  lemma TopAreHighest(influences: seq<Influence>)
    requires SortedDesc(influences, RoundedScore)
    ensures |Take(influences, TopCount)| <= TopCount
    ensures forall x, j :: x in Take(influences, TopCount) && TopCount <= j < |influences| ==>
      x.score >= influences[j].score
  {
    forall x, j | x in Take(influences, TopCount) && TopCount <= j < |influences|
      ensures x.score >= influences[j].score
    {
      var k :| 0 <= k < |Take(influences, TopCount)| && Take(influences, TopCount)[k] == x;
      assert RoundedScore(influences[k]) >= RoundedScore(influences[j]);
    }
  }

  /** `buildRoomStylePrompt`, reduced to its data sections. */
  method BuildRoomStylePrompt(meals: seq<MealAnalysis>, show: real -> string) returns (r: RoomStyleSections)
    ensures r == Sections(meals, InfluenceList(meals), show)
    ensures |meals| == 0 ==> r == RoomStyleSections("No meals yet", "None", "None")
  {
    var influences := CalculateInfluence(meals);
    r := Sections(meals, influences, show);
    if |meals| == 0 {
      assert Scores(meals) == [];
    }
  }

  /**
   * The history falls back to "No meals yet" exactly when there are no meals,
   * the top-ingredient section to "None" exactly when no dish lists an
   * ingredient, and the dominant section is "None" when nothing is dominant.
   */
  lemma SectionDefaults(meals: seq<MealAnalysis>, show: real -> string)
    ensures Sections(meals, InfluenceList(meals), show).mealHistory == "No meals yet" <==> |meals| == 0
    ensures Sections(meals, InfluenceList(meals), show).topIngredients == "None"
      <==> forall name :: !Listed(meals, name)
    ensures (forall x :: x in InfluenceList(meals) ==> !x.isDominant)
      ==> Sections(meals, InfluenceList(meals), show).dominant == "None"
  {
    var influences := InfluenceList(meals);
    if |meals| > 0 {
      var lines := seq(|meals|, i requires 0 <= i < |meals| => MealLine(meals[i]));
      JoinStarts(lines, "\n");
      assert Join(lines, "\n")[0] == '-';
    }
    NoInfluences(meals);
    if |influences| > 0 {
      var top := Take(influences, TopCount);
      var lines := seq(|top|, i requires 0 <= i < |top| => TopLine(top[i], show));
      JoinStarts(lines, "\n");
      assert Join(lines, "\n")[0] == '-';
    }
    if forall x :: x in influences ==> !x.isDominant {
      var d := Dominant(influences);
      if |d| > 0 {
        DominantMembers(influences, d[0]);
      }
      assert |d| == 0;
    }
  }

  /** `getDefaultRoomStyle`: the style used when there are no meals. */
  datatype RoomStyle = RoomStyle(
    roomStyle: string, wallpaper: string, floor: string, rug: string, furnitureStyle: string,
    outfit: string, activity: string, expression: string, lighting: string)

  const DefaultRoomStyle := RoomStyle(
    "Simple cozy", "soft cream with subtle texture", "light wooden planks", "small round cream rug",
    "simple and minimal", "plain comfortable sweater", "sitting and relaxing", "calm and peaceful",
    "soft natural daylight")
}
