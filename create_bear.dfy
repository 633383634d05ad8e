/**
 * The `createBear` use case: analyse the meal photo, make sure the user has
 * an active timeline, read the group's history and trends and the previous
 * bear, generate and upload the images, then save the bear and the meal.
 */
module CreateBear {
  import opened Wrappers
  import opened WebhookModels
  import opened Firestore
  import opened Strings
  import EmbeddingService
  import TrendAnalyzer
  import Storage
  import BearGroupRepository
  import MealRepository
  import BearRepository

  /** Why `analyzeMeal` failed: not food (`NotFoodError`), or any other error with its message. */
  datatype AnalyzeError = NotFoodImage | AnalyzeFailed(message: string)

  /**
   * The calls into code outside the model, each of which may fail: the meal
   * analysis and image generation models, Storage reads and writes, base64
   * decoding, the dish-name embedding, clustering and the trend-text model.
   */
  datatype Services<!Img, !C> = Services(
    analyzeMeal: string -> Result<MealAnalysis, AnalyzeError>,
    readObject: string -> Result<string, string>,
    generateBearImage: (seq<MealAnalysis>, Option<string>, TrendAnalyzer.TrendAnalysis<C>) -> Result<Img, string>,
    decodeBase64: string -> Img,
    upload: (Img, string) -> Result<(), string>,
    embed: string -> Result<EmbeddingService.Vector, string>,
    cluster: seq<TrendAnalyzer.DishWithEmbedding> -> C,
    trendModel: TrendAnalyzer.TrendQuery -> Option<TrendAnalyzer.ParsedTrends>)

  datatype ErrorType = NotFood | Unknown

  datatype CreateBearResponse =
    | Created(bearImageUrl: string, mealAnalysis: MealAnalysis, isFirstTime: bool)
    | Failed(errorType: ErrorType, message: string)

  const NotFoodMessage: string := "食べ物を認識できませんでした"

  /** The storage path of the meal photo, `meals/<userId>/<timestamp>.jpg`. */
  function MealImagePath(userId: string, timestamp: int): string
  {
    "meals/" + userId + "/" + IntToString(timestamp) + ".jpg"
  }

  /** The storage path of the bear image, `bears/<timestamp>.png`. */
  function BearImagePath(timestamp: int): string
  {
    "bears/" + IntToString(timestamp) + ".png"
  }

  /** `recentMeals.map((meal) => meal.analyzedData)`. */
  function Analyses(meals: seq<Meal>): (r: seq<MealAnalysis>)
    ensures |r| == |meals| && forall k :: 0 <= k < |meals| ==> r[k] == meals[k].analyzedData
  {
    seq(|meals|, k requires 0 <= k < |meals| => meals[k].analyzedData)
  }

  /** `recentMeals.map((meal) => meal.dishEmbedding)`. */
  function Embeddings(meals: seq<Meal>): (r: seq<Option<EmbeddingService.Vector>>)
    ensures |r| == |meals| && forall k :: 0 <= k < |meals| ==> r[k] == meals[k].dishEmbedding
  {
    seq(|meals|, k requires 0 <= k < |meals| => meals[k].dishEmbedding)
  }

  /**
   * The trend analysis sees every recent meal's analysis next to that meal's
   * own stored embedding, and a clustered dish is always a recent meal's
   * dish with that meal's embedding.
   */
  lemma TrendInputAligned(recent: seq<Meal>)
    ensures |TrendAnalyzer.DishesWithEmbedding(Analyses(recent), Embeddings(recent), |recent|)| ==
      |TrendAnalyzer.KeptIndices(Embeddings(recent), |recent|)|
    ensures forall k :: 0 <= k < |TrendAnalyzer.KeptIndices(Embeddings(recent), |recent|)| ==>
      var i := TrendAnalyzer.KeptIndices(Embeddings(recent), |recent|)[k];
      i < |recent| && recent[i].dishEmbedding.Some? &&
      TrendAnalyzer.DishesWithEmbedding(Analyses(recent), Embeddings(recent), |recent|)[k] ==
        TrendAnalyzer.DishWithEmbedding(recent[i].analyzedData.dish, recent[i].dishEmbedding.value)
  {
    TrendAnalyzer.DishesAligned(Analyses(recent), Embeddings(recent), |recent|);
  }

  /**
   * Step 2 of `createBear`: the user's active group, or, when there is none,
   * the group `reincarnate` creates (which then ends nothing).
   */
  method ActiveGroupFor(db: Db, userId: string, now: Millis) returns (g: BearGroup)
    requires db.Valid() && now >= db.clock
    modifies db
    ensures db.Valid() && db.clock <= now
    ensures BearGroupRepository.GetActiveGroup(db.groups, userId) == Some(g)
    ensures old(BearGroupRepository.GetActiveGroup(db.groups, userId)).Some? ==>
      g == old(BearGroupRepository.GetActiveGroup(db.groups, userId)).value && db.groups == old(db.groups)
    ensures old(BearGroupRepository.GetActiveGroup(db.groups, userId)).None? ==>
      db.groups == old(db.groups) + [g] && g == BearGroup(old(db.nextId), userId, now, None)
    ensures db.bears == old(db.bears) && db.meals == old(db.meals)
  {
    var activeGroup := BearGroupRepository.GetActiveGroup(db.groups, userId);
    if activeGroup.Some? {
      g := activeGroup.value;
    } else {
      BearGroupRepository.OnlyNewActive(db.groups, BearGroup(db.nextId, userId, now, None), userId);
      g := BearGroupRepository.Reincarnate(db, userId, now);
    }
  }

  /**
   * `bears` holds exactly one bear more than `oldBears`, appended at the end:
   * the bear of `userId` in `groupId` with the given image, created `now`.
   */
  ghost predicate BearAppended(oldBears: seq<Bear>, bears: seq<Bear>, userId: string, groupId: Id, bearImageUrl: string, now: Millis)
  {
    |bears| == |oldBears| + 1 && bears[..|oldBears|] == oldBears &&
    bears[|bears| - 1] == Bear(bears[|bears| - 1].id, userId, groupId, bearImageUrl, now)
  }

  /**
   * Steps 9 and 10 of `createBear`: the bear, then the meal naming it. When
   * the embedding of the meal fails the bear stays saved without its meal.
   */
  method SaveBearThenMeal(db: Db, bearImageUrl: string, mealImageUrl: string, mealAnalysis: MealAnalysis,
                          userId: string, groupId: Id, embed: string -> Result<EmbeddingService.Vector, string>, now: Millis)
    returns (r: Result<(), string>)
    requires db.Valid() && now >= db.clock
    requires BearGroupRepository.GetActiveGroup(db.groups, userId).Some?
    requires BearGroupRepository.GetActiveGroup(db.groups, userId).value.id == groupId
    modifies db
    ensures db.Valid()
    ensures db.groups == old(db.groups)
    ensures BearAppended(old(db.bears), db.bears, userId, groupId, bearImageUrl, now)
    ensures r.Err? <==> embed(mealAnalysis.dish).Err?
    ensures r.Err? ==> db.meals == old(db.meals) && r.error == embed(mealAnalysis.dish).error
    ensures r.Ok? ==>
      |db.meals| == |old(db.meals)| + 1 && db.meals[..|old(db.meals)|] == old(db.meals) &&
      db.meals[|db.meals| - 1].bearId == db.bears[|db.bears| - 1].id &&
      db.meals[|db.meals| - 1].groupId == groupId && db.meals[|db.meals| - 1].userId == userId &&
      db.meals[|db.meals| - 1].analyzedData == mealAnalysis &&
      db.meals[|db.meals| - 1].imageUrl == MealRepository.StoredImageUrl(Some(mealImageUrl))
  {
    var savedBear := BearRepository.SaveBear(db, bearImageUrl, userId, now);
    assert db.bears[..|old(db.bears)|] == old(db.bears);
    var savedMeal := MealRepository.SaveMeal(db, mealAnalysis, savedBear.id, groupId, userId, Some(mealImageUrl), embed, now);
    if savedMeal.Err? {
      r := Err(savedMeal.error);
    } else {
      assert db.meals[..|old(db.meals)|] == old(db.meals);
      r := Ok(());
    }
  }

  /**
   * Step 5's download: nothing when the group has no bear yet, otherwise the
   * previous bear's image read back from Storage, whose failure stops the
   * use case with its message.
   */
  function PreviousImage<Img, C>(svc: Services<Img, C>, latestBear: Option<Bear>): Result<Option<string>, string>
  {
    if latestBear.None? then Ok(None)
    else
      var downloaded := Storage.DownloadImageAsBase64(latestBear.value.imageUrl, svc.readObject);
      if downloaded.Err? then Err(downloaded.error) else Ok(Some(downloaded.value))
  }

  /**
   * Steps 5 to 8 all succeed: the previous image (if any) is read, the bear
   * is generated from `allMeals`, that previous image and `trendAnalysis`,
   * the decoded meal photo is uploaded to `MealImagePath` and the generated
   * bear to `BearImagePath`.
   */
  predicate Uploaded<Img, C>(svc: Services<Img, C>, imageBase64: string, userId: string, latestBear: Option<Bear>,
                             allMeals: seq<MealAnalysis>, trendAnalysis: TrendAnalyzer.TrendAnalysis<C>, timestamp: int)
  {
    PreviousImage(svc, latestBear).Ok? &&
    svc.generateBearImage(allMeals, PreviousImage(svc, latestBear).value, trendAnalysis).Ok? &&
    svc.upload(svc.decodeBase64(imageBase64), MealImagePath(userId, timestamp)).Ok? &&
    svc.upload(svc.generateBearImage(allMeals, PreviousImage(svc, latestBear).value, trendAnalysis).value,
               BearImagePath(timestamp)).Ok?
  }

  /** The message of the first of steps 5 to 8 that fails. */
  function RenderError<Img, C>(svc: Services<Img, C>, imageBase64: string, userId: string, latestBear: Option<Bear>,
                               allMeals: seq<MealAnalysis>, trendAnalysis: TrendAnalyzer.TrendAnalysis<C>, timestamp: int): string
    requires !Uploaded(svc, imageBase64, userId, latestBear, allMeals, trendAnalysis, timestamp)
  {
    var previous := PreviousImage(svc, latestBear);
    if previous.Err? then previous.error
    else
      var bearImage := svc.generateBearImage(allMeals, previous.value, trendAnalysis);
      if bearImage.Err? then bearImage.error
      else
        var mealUpload := svc.upload(svc.decodeBase64(imageBase64), MealImagePath(userId, timestamp));
        if mealUpload.Err? then mealUpload.error
        else svc.upload(bearImage.value, BearImagePath(timestamp)).error
  }

  /**
   * Steps 5 to 8 of `createBear`, which touch Storage and the image model
   * only: the previous bear's image when there is one, the generated bear,
   * and both uploads. The result is the meal photo's URL and the bear's URL,
   * or the message of the step that failed.
   */
  method RenderAndUpload<Img, C>(svc: Services<Img, C>, imageBase64: string, userId: string, latestBear: Option<Bear>,
                                 allMeals: seq<MealAnalysis>, trendAnalysis: TrendAnalyzer.TrendAnalysis<C>, timestamp: int)
    returns (r: Result<(string, string), string>)
    ensures r.Ok? <==> Uploaded(svc, imageBase64, userId, latestBear, allMeals, trendAnalysis, timestamp)
    ensures r.Ok? ==> r.value == (Storage.PublicUrl(MealImagePath(userId, timestamp)), Storage.PublicUrl(BearImagePath(timestamp)))
    ensures r.Err? ==> r.error == RenderError(svc, imageBase64, userId, latestBear, allMeals, trendAnalysis, timestamp)
  {
    var previousBearImageBase64: Option<string> := None;
    if latestBear.Some? {
      var downloaded := Storage.DownloadImageAsBase64(latestBear.value.imageUrl, svc.readObject);
      if downloaded.Err? {
        return Err(downloaded.error);
      }
      previousBearImageBase64 := Some(downloaded.value);
    }
    assert PreviousImage(svc, latestBear) == Ok(previousBearImageBase64);
    var bearImage := svc.generateBearImage(allMeals, previousBearImageBase64, trendAnalysis);
    if bearImage.Err? {
      return Err(bearImage.error);
    }
    var mealPath := MealImagePath(userId, timestamp);
    var mealUpload := svc.upload(svc.decodeBase64(imageBase64), mealPath);
    if mealUpload.Err? {
      return Err(mealUpload.error);
    }
    var bearPath := BearImagePath(timestamp);
    var bearUpload := svc.upload(bearImage.value, bearPath);
    if bearUpload.Err? {
      return Err(bearUpload.error);
    }
    r := Ok((Storage.PublicUrl(mealPath), Storage.PublicUrl(bearPath)));
  }

  /**
   * `bears` and `meals` are the old tables with exactly one bear and then
   * one meal appended: the bear of `userId` in `groupId` with the given
   * image, created `now`, and the meal that names it, with its analysis and
   * its photo's URL.
   */
  ghost predicate SavedOnce(oldBears: seq<Bear>, oldMeals: seq<Meal>, bears: seq<Bear>, meals: seq<Meal>, userId: string,
                            groupId: Id, bearImageUrl: string, mealImageUrl: string, analysis: MealAnalysis, now: Millis)
  {
    BearAppended(oldBears, bears, userId, groupId, bearImageUrl, now) &&
    |meals| == |oldMeals| + 1 && meals[..|oldMeals|] == oldMeals &&
    meals[|meals| - 1].bearId == bears[|bears| - 1].id &&
    meals[|meals| - 1].groupId == groupId && meals[|meals| - 1].userId == userId &&
    meals[|meals| - 1].analyzedData == analysis &&
    meals[|meals| - 1].imageUrl == Some(mealImageUrl)
  }

  /**
   * Steps 6 to 10 of `createBear` and its response: render and upload, then
   * save the bear and the meal. A failure is reported as `Unknown` with the
   * failing step's message: a failure while rendering or uploading saves
   * nothing, a failed embedding of the meal leaves only the bear saved.
   */
  method RenderAndSave<Img, C>(db: Db, groupId: Id, mealAnalysis: MealAnalysis, imageBase64: string, userId: string, svc: Services<Img, C>,
                               latestBear: Option<Bear>, allMeals: seq<MealAnalysis>, trendAnalysis: TrendAnalyzer.TrendAnalysis<C>,
                               isFirstTime: bool, now: Millis, timestamp: int)
    returns (res: CreateBearResponse)
    requires db.Valid() && now >= db.clock
    requires BearGroupRepository.GetActiveGroup(db.groups, userId).Some?
    requires BearGroupRepository.GetActiveGroup(db.groups, userId).value.id == groupId
    modifies db
    ensures db.Valid() && db.groups == old(db.groups)
    ensures !Uploaded(svc, imageBase64, userId, latestBear, allMeals, trendAnalysis, timestamp) ==>
      res == Failed(Unknown, RenderError(svc, imageBase64, userId, latestBear, allMeals, trendAnalysis, timestamp)) &&
      db.bears == old(db.bears) && db.meals == old(db.meals)
    ensures Uploaded(svc, imageBase64, userId, latestBear, allMeals, trendAnalysis, timestamp) && svc.embed(mealAnalysis.dish).Err? ==>
      res == Failed(Unknown, svc.embed(mealAnalysis.dish).error) && db.meals == old(db.meals) &&
      BearAppended(old(db.bears), db.bears, userId, groupId, Storage.PublicUrl(BearImagePath(timestamp)), now)
    ensures res.Created? <==> Uploaded(svc, imageBase64, userId, latestBear, allMeals, trendAnalysis, timestamp) && svc.embed(mealAnalysis.dish).Ok?
    ensures res.Created? ==>
      res == Created(Storage.PublicUrl(BearImagePath(timestamp)), mealAnalysis, isFirstTime) &&
      SavedOnce(old(db.bears), old(db.meals), db.bears, db.meals, userId, groupId, res.bearImageUrl,
        Storage.PublicUrl(MealImagePath(userId, timestamp)), mealAnalysis, now)
  {
    var uploaded := RenderAndUpload(svc, imageBase64, userId, latestBear, allMeals, trendAnalysis, timestamp);
    if uploaded.Err? {
      res := Failed(Unknown, uploaded.error);
      return;
    }
    var bearImageUrl := uploaded.value.1;
    // 9. and 10. save the bear, then the meal
    var saved := SaveBearThenMeal(db, bearImageUrl, uploaded.value.0, mealAnalysis, userId, groupId, svc.embed, now);
    if saved.Err? {
      res := Failed(Unknown, saved.error);
      return;
    }
    res := Created(bearImageUrl, mealAnalysis, isFirstTime);
  }

  /**
   * Steps 3 to 10 of `createBear`, in the user's active group `groupId`: the
   * last week's meals of the group, their trends and the group's previous
   * bear feed the generated bear. A failure is reported as `Unknown` with
   * the failing step's message: a failure while rendering or uploading
   * saves nothing, a failed embedding of the meal leaves only the bear
   * saved. On success exactly one bear and then one meal naming that bear
   * and that group have been saved, and `isFirstTime` says the group had no
   * meal before.
   */
  method CreateInGroup<Img, C>(db: Db, groupId: Id, mealAnalysis: MealAnalysis, imageBase64: string, userId: string, svc: Services<Img, C>, now: Millis, timestamp: int)
    returns (res: CreateBearResponse, ghost recent: seq<Meal>, ghost previous: Option<Bear>, ghost generatedFrom: seq<MealAnalysis>,
             ghost trends: TrendAnalyzer.TrendAnalysis<C>)
    requires db.Valid() && now >= db.clock
    requires BearGroupRepository.GetActiveGroup(db.groups, userId).Some?
    requires BearGroupRepository.GetActiveGroup(db.groups, userId).value.id == groupId
    modifies db
    ensures db.Valid() && db.groups == old(db.groups)
    ensures recent == MealRepository.GetRecentMeals(old(db.meals), userId, groupId, MealRepository.DefaultDays, now)
    ensures previous == BearRepository.GetLatestBear(old(db.bears), userId, Some(groupId))
    ensures generatedFrom == Analyses(recent) + [mealAnalysis]
    ensures trends == TrendAnalyzer.AnalyzeTrends(Analyses(recent), Embeddings(recent), svc.cluster, svc.trendModel)
    ensures res.Failed? ==> res.errorType == Unknown
    ensures !Uploaded(svc, imageBase64, userId, previous, generatedFrom, trends, timestamp) ==>
      res == Failed(Unknown, RenderError(svc, imageBase64, userId, previous, generatedFrom, trends, timestamp)) &&
      db.bears == old(db.bears) && db.meals == old(db.meals)
    ensures Uploaded(svc, imageBase64, userId, previous, generatedFrom, trends, timestamp) && svc.embed(mealAnalysis.dish).Err? ==>
      res == Failed(Unknown, svc.embed(mealAnalysis.dish).error) && db.meals == old(db.meals) &&
      BearAppended(old(db.bears), db.bears, userId, groupId, Storage.PublicUrl(BearImagePath(timestamp)), now)
    ensures res.Created? <==> Uploaded(svc, imageBase64, userId, previous, generatedFrom, trends, timestamp) && svc.embed(mealAnalysis.dish).Ok?
    ensures res.Created? ==>
      res.mealAnalysis == mealAnalysis &&
      (res.isFirstTime <==> forall m :: m in old(db.meals) ==> !MealRepository.InGroup(m, userId, groupId)) &&
      res.bearImageUrl == Storage.PublicUrl(BearImagePath(timestamp)) &&
      SavedOnce(old(db.bears), old(db.meals), db.bears, db.meals, userId, groupId, res.bearImageUrl,
        Storage.PublicUrl(MealImagePath(userId, timestamp)), res.mealAnalysis, now)
  {
    // 3. the meal count and the last week's history of the group
    var currentMealCount := MealRepository.GetMealCount(db.meals, userId, groupId);
    var recentMeals := MealRepository.GetRecentMeals(db.meals, userId, groupId, MealRepository.DefaultDays, now);
    recent := recentMeals;
    var pastMealAnalyses := Analyses(recentMeals);
    // 4. trends
    var trendAnalysis := TrendAnalyzer.AnalyzeTrends(pastMealAnalyses, Embeddings(recentMeals), svc.cluster, svc.trendModel);
    trends := trendAnalysis;
    // 5. the previous bear of this group
    var latestBear := BearRepository.GetLatestBear(db.bears, userId, Some(groupId));
    previous := latestBear;
    var allMeals := pastMealAnalyses + [mealAnalysis];
    generatedFrom := allMeals;
    res := RenderAndSave(db, groupId, mealAnalysis, imageBase64, userId, svc, latestBear, allMeals, trendAnalysis,
                         currentMealCount == 0, now, timestamp);
  }

  /**
   * `createBear`. A failure of the meal analysis changes nothing. Otherwise
   * the user's active group is found or, when there is none, created by
   * reincarnation, and its id is used for every read and write: the group's
   * last week of meals, their trends and its previous bear feed the
   * generated bear. A failure after that is reported as `Unknown` with the
   * failing step's message, and saves nothing when rendering or uploading
   * failed, or only the bear when the meal's embedding failed. On success
   * exactly one bear and then one meal naming that bear and that group have
   * been saved, and `isFirstTime` says the group had no meal before.
   */
  method CreateBear<Img, C>(db: Db, imageBase64: string, userId: string, svc: Services<Img, C>, now: Millis, timestamp: int)
    returns (res: CreateBearResponse, ghost groupId: Id, ghost recent: seq<Meal>, ghost previous: Option<Bear>,
             ghost generatedFrom: seq<MealAnalysis>, ghost trends: TrendAnalyzer.TrendAnalysis<C>)
    requires db.Valid() && now >= db.clock
    modifies db
    ensures db.Valid()
    ensures svc.analyzeMeal(imageBase64) == Err(NotFoodImage) ==>
      res == Failed(NotFood, NotFoodMessage) && db.groups == old(db.groups) && db.bears == old(db.bears) && db.meals == old(db.meals)
    ensures svc.analyzeMeal(imageBase64).Err? && svc.analyzeMeal(imageBase64).error.AnalyzeFailed? ==>
      res == Failed(Unknown, svc.analyzeMeal(imageBase64).error.message) &&
      db.groups == old(db.groups) && db.bears == old(db.bears) && db.meals == old(db.meals)
    ensures svc.analyzeMeal(imageBase64).Ok? ==>
      BearGroupRepository.GetActiveGroup(db.groups, userId).Some? &&
      BearGroupRepository.GetActiveGroup(db.groups, userId).value.id == groupId &&
      (old(BearGroupRepository.GetActiveGroup(db.groups, userId)).Some? ==>
        groupId == old(BearGroupRepository.GetActiveGroup(db.groups, userId)).value.id) &&
      recent == MealRepository.GetRecentMeals(old(db.meals), userId, groupId, MealRepository.DefaultDays, now) &&
      previous == BearRepository.GetLatestBear(old(db.bears), userId, Some(groupId)) &&
      generatedFrom == Analyses(recent) + [svc.analyzeMeal(imageBase64).value] &&
      trends == TrendAnalyzer.AnalyzeTrends(Analyses(recent), Embeddings(recent), svc.cluster, svc.trendModel)
    ensures svc.analyzeMeal(imageBase64).Ok? && !Uploaded(svc, imageBase64, userId, previous, generatedFrom, trends, timestamp) ==>
      res == Failed(Unknown, RenderError(svc, imageBase64, userId, previous, generatedFrom, trends, timestamp)) &&
      db.bears == old(db.bears) && db.meals == old(db.meals)
    ensures (svc.analyzeMeal(imageBase64).Ok? && Uploaded(svc, imageBase64, userId, previous, generatedFrom, trends, timestamp) &&
             svc.embed(svc.analyzeMeal(imageBase64).value.dish).Err?) ==>
      res == Failed(Unknown, svc.embed(svc.analyzeMeal(imageBase64).value.dish).error) && db.meals == old(db.meals) &&
      BearAppended(old(db.bears), db.bears, userId, groupId, Storage.PublicUrl(BearImagePath(timestamp)), now)
    ensures res.Failed? ==> (res.errorType == NotFood <==> svc.analyzeMeal(imageBase64) == Err(NotFoodImage))
    ensures res.Created? <==>
      svc.analyzeMeal(imageBase64).Ok? && Uploaded(svc, imageBase64, userId, previous, generatedFrom, trends, timestamp) &&
      svc.embed(svc.analyzeMeal(imageBase64).value.dish).Ok?
    ensures res.Created? ==>
      res.mealAnalysis == svc.analyzeMeal(imageBase64).value &&
      (res.isFirstTime <==> forall m :: m in old(db.meals) ==> !MealRepository.InGroup(m, userId, groupId)) &&
      res.bearImageUrl == Storage.PublicUrl(BearImagePath(timestamp)) &&
      SavedOnce(old(db.bears), old(db.meals), db.bears, db.meals, userId, groupId, res.bearImageUrl,
        Storage.PublicUrl(MealImagePath(userId, timestamp)), res.mealAnalysis, now)
  {
    groupId := 0;
    recent := [];
    previous := None;
    generatedFrom := [];
    trends := TrendAnalyzer.AnalyzeTrends([], [], svc.cluster, svc.trendModel);
    // 1. analyse the meal
    var analysis := svc.analyzeMeal(imageBase64);
    if analysis.Err? {
      if analysis.error.NotFoodImage? {
        res := Failed(NotFood, NotFoodMessage);
      } else {
        res := Failed(Unknown, analysis.error.message);
      }
      return;
    }
    // 2. the active group, created by reincarnation when there is none
    var group := ActiveGroupFor(db, userId, now);
    groupId := group.id;
    res, recent, previous, generatedFrom, trends := CreateInGroup(db, group.id, analysis.value, imageBase64, userId, svc, now, timestamp);
  }
}
