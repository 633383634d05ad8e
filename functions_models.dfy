/**
 * The records of the first (single-user) bear generator: a meal analysis
 * with dishes, colours, nutrition and characteristics, and the bear
 * parameters accumulated from past meals.
 */
module FunctionsModels {
  import opened NumericRecord

  datatype DishCategory = Main | Side | Staple | Soup
  datatype Portion = Small | Medium | Large

  datatype Dish = Dish(name: string, category: DishCategory, ingredients: seq<string>, portion: Portion)

  /**
   * One analysed meal. `colors` and `nutrition` map a name to a percentage;
   * `characteristics` may repeat a word, which weights it.
   */
  datatype MealAnalysis = MealAnalysis(
    menuName: string,
    dishes: seq<Dish>,
    ingredients: seq<string>,
    characteristics: seq<string>,
    colors: Record,
    nutrition: Record)

  datatype BearParameters = BearParameters(colors: Record, nutrition: Record, characteristics: seq<string>)
}
