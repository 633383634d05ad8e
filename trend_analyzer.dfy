/**
 * The trend analysis of the LINE webhook: the dishes handed to clustering,
 * each with its own stored embedding, and the text-trend fallbacks around
 * the language-model call.
 */
module TrendAnalyzer {
  import opened Wrappers
  import opened WebhookModels
  import Seqs
  import EmbeddingService

  datatype DishWithEmbedding = DishWithEmbedding(dish: string, embedding: EmbeddingService.Vector)

  /** `dishEmbeddings[i]`, which is undefined past the end of the array. */
  function EmbeddingAt(embs: seq<Option<EmbeddingService.Vector>>, i: nat): Option<EmbeddingService.Vector>
  {
    if i < |embs| then embs[i] else None
  }

  /**
   * The `map` + `filter` of `analyzeTrends` over the first `n` meals: each meal
   * paired with the embedding at its own index, meals without one dropped.
   */
  function DishesWithEmbedding(meals: seq<MealAnalysis>, embs: seq<Option<EmbeddingService.Vector>>, n: nat): seq<DishWithEmbedding>
    requires n <= |meals|
  {
    if n == 0 then []
    else
      DishesWithEmbedding(meals, embs, n - 1)
      + match EmbeddingAt(embs, n - 1)
        case Some(v) => [DishWithEmbedding(meals[n - 1].dish, v)]
        case None => []
  }

  /** The indices below `n` whose embedding is defined, in increasing order. */
  function KeptIndices(embs: seq<Option<EmbeddingService.Vector>>, n: nat): (ks: seq<nat>)
    ensures forall k :: 0 <= k < |ks| ==> ks[k] < n
  {
    if n == 0 then [] else KeptIndices(embs, n - 1) + (if EmbeddingAt(embs, n - 1).Some? then [n - 1] else [])
  }

  /** `KeptIndices` holds exactly the indices with an embedding, in increasing order. */
  lemma {:induction false} KeptIndicesExact(embs: seq<Option<EmbeddingService.Vector>>, n: nat)
    ensures forall i: nat :: i in KeptIndices(embs, n) <==> i < n && EmbeddingAt(embs, i).Some?
    ensures forall p, q :: 0 <= p < q < |KeptIndices(embs, n)| ==> KeptIndices(embs, n)[p] < KeptIndices(embs, n)[q]
  {
    if n > 0 {
      KeptIndicesExact(embs, n - 1);
    }
  }

  /**
   * The dishes kept are exactly the meals with an embedding, in their original
   * order, each paired with the embedding stored at its own index.
   */
  lemma {:induction false} DishesAligned(meals: seq<MealAnalysis>, embs: seq<Option<EmbeddingService.Vector>>, n: nat)
    requires n <= |meals|
    ensures |DishesWithEmbedding(meals, embs, n)| == |KeptIndices(embs, n)|
    ensures forall k :: 0 <= k < |KeptIndices(embs, n)| ==>
      var i := KeptIndices(embs, n)[k];
      EmbeddingAt(embs, i).Some? &&
      DishesWithEmbedding(meals, embs, n)[k] == DishWithEmbedding(meals[i].dish, EmbeddingAt(embs, i).value)
  {
    if n > 0 {
      DishesAligned(meals, embs, n - 1);
    }
  }

  /**
   * No more dishes than meals reach the clustering, and only a meal whose
   * embedding is missing is dropped.
   */
  lemma DroppedOnlyWithoutEmbedding(meals: seq<MealAnalysis>, embs: seq<Option<EmbeddingService.Vector>>)
    ensures |DishesWithEmbedding(meals, embs, |meals|)| <= |meals|
    ensures (forall i :: 0 <= i < |meals| ==> EmbeddingAt(embs, i).Some?) ==>
      |DishesWithEmbedding(meals, embs, |meals|)| == |meals|
  {
    DishesAligned(meals, embs, |meals|);
    KeptIndicesBound(embs, |meals|);
  }

  lemma {:induction false} KeptIndicesBound(embs: seq<Option<EmbeddingService.Vector>>, n: nat)
    ensures |KeptIndices(embs, n)| <= n
    ensures (forall i :: 0 <= i < n ==> EmbeddingAt(embs, i).Some?) ==> |KeptIndices(embs, n)| == n
  {
    if n > 0 {
      KeptIndicesBound(embs, n - 1);
    }
  }

  /** What the trend prompt is built from: the number of meals and every tag and ingredient. */
  datatype TrendQuery = TrendQuery(mealCount: nat, tags: seq<string>, ingredients: seq<string>)

  /** The two fields parsed from the model's JSON reply; a missing or null field is None. */
  datatype ParsedTrends = ParsedTrends(moodTrend: Option<string>, ingredientTrend: Option<string>)

  datatype TextTrendResult = TextTrendResult(moodTrend: string, ingredientTrend: string)

  const NoneYet: string := "なし"
  const NothingInParticular: string := "特になし"

  function Tags(m: MealAnalysis): seq<string> { m.tags }
  function Ingredients(m: MealAnalysis): seq<string> { m.ingredients }

  /** The query `analyzeTextTrends` sends: tags and ingredients flattened in meal order. */
  function QueryOf(meals: seq<MealAnalysis>): TrendQuery
  {
    TrendQuery(|meals|, Seqs.FlatMap(meals, Tags), Seqs.FlatMap(meals, Ingredients))
  }

  /** JavaScript's `value || "特になし"` on a parsed string field. */
  function OrNothing(field: Option<string>): string
  {
    match field
    case Some(s) => if s == "" then NothingInParticular else s
    case None => NothingInParticular
  }

  /**
   * `analyzeTextTrends`: "なし" for both trends when there are no meals, otherwise
   * the model's answer, where a failed call or an unparsable reply (None) gives
   * "特になし" for both and a missing or empty field "特になし" for that one.
   */
  function AnalyzeTextTrends(meals: seq<MealAnalysis>, model: TrendQuery -> Option<ParsedTrends>): TextTrendResult
  {
    if |meals| == 0 then TextTrendResult(NoneYet, NoneYet)
    else
      match model(QueryOf(meals))
      case None => TextTrendResult(NothingInParticular, NothingInParticular)
      case Some(p) => TextTrendResult(OrNothing(p.moodTrend), OrNothing(p.ingredientTrend))
  }

  /** With no meals the result is "なし" twice whatever the model would say. */
  lemma EmptyHistory(model1: TrendQuery -> Option<ParsedTrends>, model2: TrendQuery -> Option<ParsedTrends>)
    ensures AnalyzeTextTrends([], model1) == AnalyzeTextTrends([], model2) == TextTrendResult(NoneYet, NoneYet)
  {
  }

  /** With meals, a trend is never empty: it is the model's non-empty answer or "特になし". */
  lemma TrendsNeverEmpty(meals: seq<MealAnalysis>, model: TrendQuery -> Option<ParsedTrends>)
    requires |meals| > 0
    ensures var r := AnalyzeTextTrends(meals, model);
      r.moodTrend != "" && r.ingredientTrend != "" &&
      (model(QueryOf(meals)).None? ==> r == TextTrendResult(NothingInParticular, NothingInParticular)) &&
      ((model(QueryOf(meals)).Some? && model(QueryOf(meals)).value.moodTrend.Some? &&
        model(QueryOf(meals)).value.moodTrend.value != "") ==> r.moodTrend == model(QueryOf(meals)).value.moodTrend.value)
  {
  }

  /** Extending the history appends the new meal's tags and ingredients at the end of the query. */
  lemma QueryAppend(meals: seq<MealAnalysis>, m: MealAnalysis)
    ensures QueryOf(meals + [m]).tags == QueryOf(meals).tags + m.tags
    ensures QueryOf(meals + [m]).ingredients == QueryOf(meals).ingredients + m.ingredients
  {
    Seqs.FlatMapAppend(meals, [m], Tags);
    Seqs.FlatMapAppend(meals, [m], Ingredients);
    assert Seqs.FlatMap([m], Tags) == m.tags;
    assert Seqs.FlatMap([m], Ingredients) == m.ingredients;
  }

  /** A tag is in the query exactly when some meal carries it; the same for ingredients. */
  lemma QueryMembers(meals: seq<MealAnalysis>, t: string)
    ensures t in QueryOf(meals).tags <==> exists k :: 0 <= k < |meals| && t in meals[k].tags
    ensures t in QueryOf(meals).ingredients <==> exists k :: 0 <= k < |meals| && t in meals[k].ingredients
  {
    Seqs.FlatMapMembers(meals, Tags, t);
    Seqs.FlatMapMembers(meals, Ingredients, t);
  }

  datatype TrendAnalysis<C> = TrendAnalysis(dishes: C, textTrends: TextTrendResult)

  /**
   * `analyzeTrends`: the clustering (a parameter; its body is not part of this
   * model) of the dishes with an embedding, and the text trends of all meals.
   */
  function AnalyzeTrends<C>(meals: seq<MealAnalysis>, embs: seq<Option<EmbeddingService.Vector>>,
                            cluster: seq<DishWithEmbedding> -> C, model: TrendQuery -> Option<ParsedTrends>): (r: TrendAnalysis<C>)
    ensures r.textTrends == AnalyzeTextTrends(meals, model)
  {
    TrendAnalysis(cluster(DishesWithEmbedding(meals, embs, |meals|)), AnalyzeTextTrends(meals, model))
  }

  /** Missing embeddings never make the analysis fail: the clustering sees only the kept dishes. */
  lemma AnalyzeTrendsClustersKept<C>(meals: seq<MealAnalysis>, embs: seq<Option<EmbeddingService.Vector>>,
                                     cluster: seq<DishWithEmbedding> -> C, model: TrendQuery -> Option<ParsedTrends>)
    ensures AnalyzeTrends(meals, embs, cluster, model).dishes == cluster(DishesWithEmbedding(meals, embs, |meals|))
    ensures |DishesWithEmbedding(meals, embs, |meals|)| <= |meals|
  {
    DroppedOnlyWithoutEmbedding(meals, embs);
  }
}
