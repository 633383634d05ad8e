/**
 * The data part of the first bear generator's image prompt: accumulated and
 * current colours and nutrition rendered as `key (value%)` lists, largest
 * first, and the accumulated characteristics with their fallback.
 */
module BearImagePrompt {
  import opened Strings
  import opened NumericRecord
  import opened FunctionsModels

  /** `${key} (${value}%)`, the number shown by `show`. */
  function Item(e: Entry, show: real -> string): string
  {
    e.0 + " (" + show(e.1) + "%)"
  }

  function Items(entries: seq<Entry>, show: real -> string): (items: seq<string>)
    ensures |items| == |entries|
  {
    seq(|entries|, i requires 0 <= i < |entries| => Item(entries[i], show))
  }

  /** `formatRecord`: the entries sorted by value, largest first, or "none"; an empty record and only that gives "none". */
  function FormatRecord(record: Record, show: real -> string): (r: string)
    ensures r == "none" <==> |record| == 0
  {
    if |record| > 0 then
      var items := Items(SortDesc(record, Value), show);
      JoinStarts(items, ", ");
      assert items[0][|SortDesc(record, Value)[0].0| + 1] == '(';
      Join(items, ", ")
    else "none"
  }

  /**
   * A non-empty record renders as one item per entry, joined by ", ", in an
   * order of the entries that is non-increasing in value.
   */
  lemma FormatRecordItems(record: Record, show: real -> string)
    requires |record| > 0
    ensures exists order: seq<Entry> ::
      multiset(order) == multiset(record) && SortedDesc(order, Value)
      && FormatRecord(record, show) == Join(Items(order, show), ", ")
  {
    var order := SortDesc(record, Value);
    assert multiset(order) == multiset(record) && SortedDesc(order, Value);
  }

  /** The accumulated characteristics, repetitions kept, or "なし" when the list is empty. */
  function AccumulatedCharacteristics(params: BearParameters): (r: string)
    ensures |params.characteristics| == 0 ==> r == "なし"
    ensures |params.characteristics| > 0 && params.characteristics[0] != "" ==> r == Join(params.characteristics, ", ")
  {
    if |params.characteristics| > 0 then
      JoinStarts(params.characteristics, ", ");
      OrDefault(Join(params.characteristics, ", "), "なし")
    else OrDefault(Join(params.characteristics, ", "), "なし")
  }

  /** The lines of `buildBearPrompt` that carry data, from the accumulated colours to today's nutrition. */
  function DataLines(params: BearParameters, currentMeal: MealAnalysis, show: real -> string): (lines: seq<string>)
    ensures |lines| == 10
  {
    [ "- Frequent colors in meals: " + FormatRecord(params.colors, show),
      "- Nutritional balance: " + FormatRecord(params.nutrition, show),
      "- Meal characteristics: " + AccumulatedCharacteristics(params),
      "",
      "=== TODAY'S MEAL ===",
      "- Menu: " + currentMeal.menuName,
      "- Ingredients: " + Join(currentMeal.ingredients, ", "),
      "- Characteristics: " + Join(currentMeal.characteristics, ", "),
      "- Colors: " + FormatRecord(currentMeal.colors, show),
      "- Nutrition: " + FormatRecord(currentMeal.nutrition, show) ]
  }

  /** `buildBearPrompt`, reduced to its data lines; the instructions around them are fixed text. */
  function BuildBearPrompt(params: BearParameters, currentMeal: MealAnalysis, show: real -> string): string
  {
    Join(DataLines(params, currentMeal, show), "\n")
  }

  /** The prompt names today's menu. */
  lemma PromptNamesMenu(params: BearParameters, currentMeal: MealAnalysis, show: real -> string)
    ensures Contains(BuildBearPrompt(params, currentMeal, show), "- Menu: " + currentMeal.menuName)
  {
    JoinContains(DataLines(params, currentMeal, show), "\n", 5);
  }

  /**
   * The prompt carries the accumulated colours, nutrition and characteristics
   * and today's ingredients, characteristics, colours and nutrition, each on
   * its labelled line.
   */
  lemma PromptCarriesData(params: BearParameters, currentMeal: MealAnalysis, show: real -> string)
    ensures Contains(BuildBearPrompt(params, currentMeal, show), "- Frequent colors in meals: " + FormatRecord(params.colors, show))
    ensures Contains(BuildBearPrompt(params, currentMeal, show), "- Nutritional balance: " + FormatRecord(params.nutrition, show))
    ensures Contains(BuildBearPrompt(params, currentMeal, show), "- Meal characteristics: " + AccumulatedCharacteristics(params))
    ensures Contains(BuildBearPrompt(params, currentMeal, show), "- Ingredients: " + Join(currentMeal.ingredients, ", "))
    ensures Contains(BuildBearPrompt(params, currentMeal, show), "- Characteristics: " + Join(currentMeal.characteristics, ", "))
    ensures Contains(BuildBearPrompt(params, currentMeal, show), "- Colors: " + FormatRecord(currentMeal.colors, show))
    ensures Contains(BuildBearPrompt(params, currentMeal, show), "- Nutrition: " + FormatRecord(currentMeal.nutrition, show))
  {
    var lines := DataLines(params, currentMeal, show);
    JoinContains(lines, "\n", 0);
    JoinContains(lines, "\n", 1);
    JoinContains(lines, "\n", 2);
    JoinContains(lines, "\n", 6);
    JoinContains(lines, "\n", 7);
    JoinContains(lines, "\n", 8);
    JoinContains(lines, "\n", 9);
  }
}
