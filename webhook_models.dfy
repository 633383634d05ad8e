/**
 * The records the LINE webhook stores in Firestore: `bear_groups` (one per
 * life of the bear, the "timeline"), `bears` and `meals`, with the meal
 * analysis the repositories actually write.
 */
module WebhookModels {
  import opened Wrappers
  import EmbeddingService

  /** A document id. Firestore assigns unique ids on `add`; the model numbers them. */
  type Id = nat

  /** A Firestore timestamp, in milliseconds. */
  type Millis = int

  /** One day in milliseconds. */
  const DayMillis: int := 86400000

  /** The analysis of one meal photo: the main dish, its ingredients and mood tags. */
  datatype MealAnalysis = MealAnalysis(dish: string, ingredients: seq<string>, tags: seq<string>)

  /** A timeline: it is active until `endedAt` is set. */
  datatype BearGroup = BearGroup(id: Id, userId: string, createdAt: Millis, endedAt: Option<Millis>)

  datatype Bear = Bear(id: Id, userId: string, groupId: Id, imageUrl: string, createdAt: Millis)

  datatype Meal = Meal(
    id: Id,
    userId: string,
    groupId: Id,
    bearId: Id,
    analyzedData: MealAnalysis,
    imageUrl: Option<string>,
    dishEmbedding: Option<EmbeddingService.Vector>,
    createdAt: Millis)

  /** The group's `endedAt` is null. */
  predicate IsActive(g: BearGroup)
  {
    g.endedAt.None?
  }

  /** `g` is an active group of user `u`. */
  predicate ActiveOf(g: BearGroup, u: string)
  {
    g.userId == u && g.endedAt.None?
  }
}
