/**
 * The `meals` collection: saving an analysed meal with the embedding of its
 * dish name, and the group-partitioned history and count queries.
 */
module MealRepository {
  import opened Wrappers
  import opened WebhookModels
  import opened Firestore
  import Seqs
  import EmbeddingService

  /** The default history window of `getRecentMeals`, in days. */
  const DefaultDays: int := 7

  /** `createdAt` never decreases along `t`. */
  predicate Chronological(t: seq<Meal>)
  {
    forall i, j :: 0 <= i < j < |t| ==> t[i].createdAt <= t[j].createdAt
  }

  /** The `imageUrl` field written to the document: only a non-empty URL is (JavaScript truthiness). */
  function StoredImageUrl(imageUrl: Option<string>): (r: Option<string>)
    ensures r.Some? <==> imageUrl.Some? && imageUrl.value != ""
    ensures r.Some? ==> r == imageUrl
  {
    if imageUrl.Some? && imageUrl.value != "" then imageUrl else None
  }

  /**
   * `saveMeal`: the embedding of the dish name is computed first (`embed`, a
   * call that may fail, in which case nothing is written); then exactly one
   * meal is appended. The returned meal carries `imageUrl` as passed, the
   * stored one only a non-empty URL.
   */
  method SaveMeal(db: Db, analyzedData: MealAnalysis, bearId: Id, groupId: Id, userId: string,
                  imageUrl: Option<string>, embed: string -> Result<EmbeddingService.Vector, string>, now: Millis)
    returns (r: Result<Meal, string>)
    requires db.Valid() && now >= db.clock
    modifies db
    ensures db.Valid()
    ensures embed(analyzedData.dish).Err? ==>
      r == Err(embed(analyzedData.dish).error) && db.meals == old(db.meals) && db.nextId == old(db.nextId) && db.clock == old(db.clock)
    ensures embed(analyzedData.dish).Ok? ==>
      r == Ok(Meal(old(db.nextId), userId, groupId, bearId, analyzedData, imageUrl, Some(embed(analyzedData.dish).value), now)) &&
      db.meals == old(db.meals) + [r.value.(imageUrl := StoredImageUrl(imageUrl))] &&
      (forall i :: 0 <= i < |old(db.meals)| ==> old(db.meals)[i].id != r.value.id) &&
      db.clock == now
    ensures db.groups == old(db.groups) && db.bears == old(db.bears)
  {
    var e := embed(analyzedData.dish);
    if e.Err? {
      r := Err(e.error);
      return;
    }
    var stored := db.AddMeal(userId, groupId, bearId, analyzedData, StoredImageUrl(imageUrl), Some(e.value), now);
    r := Ok(stored.(imageUrl := imageUrl));
  }

  /** The meal belongs to that user and group. */
  predicate InGroup(m: Meal, userId: string, groupId: Id)
  {
    m.userId == userId && m.groupId == groupId
  }

  /** The meal belongs to that user and group and was created at or after `since`. */
  predicate RecentIn(m: Meal, userId: string, groupId: Id, since: Millis)
  {
    InGroup(m, userId, groupId) && m.createdAt >= since
  }

  /** The three `where` clauses of `getRecentMeals`, keeping table order. */
  function FilterRecent(meals: seq<Meal>, userId: string, groupId: Id, since: Millis): (r: seq<Meal>)
    ensures forall m :: m in r <==> m in meals && RecentIn(m, userId, groupId, since)
  {
    if |meals| == 0 then []
    else
      assert forall x :: x in meals[1..] ==> x in meals;
      (if RecentIn(meals[0], userId, groupId, since) then [meals[0]] else []) + FilterRecent(meals[1..], userId, groupId, since)
  }

  /** The filter keeps the table's order, so a chronological table gives a chronological result. */
  lemma {:induction false} FilterRecentChronological(meals: seq<Meal>, userId: string, groupId: Id, since: Millis)
    requires Chronological(meals)
    ensures Chronological(FilterRecent(meals, userId, groupId, since))
  {
    if |meals| > 0 {
      var tail := meals[1..];
      assert Chronological(tail) by {
        assert forall i :: 0 <= i < |tail| ==> tail[i] == meals[i + 1];
      }
      FilterRecentChronological(tail, userId, groupId, since);
      var rest := FilterRecent(tail, userId, groupId, since);
      forall x | x in rest
        ensures meals[0].createdAt <= x.createdAt
      {
        var k :| 0 <= k < |tail| && tail[k] == x;
        assert meals[k + 1] == x;
      }
      var r := FilterRecent(meals, userId, groupId, since);
      if RecentIn(meals[0], userId, groupId, since) {
        assert r == [meals[0]] + rest;
        forall i, j | 0 <= i < j < |r|
          ensures r[i].createdAt <= r[j].createdAt
        {
          assert r[j] == rest[j - 1];
          if i > 0 {
            assert r[i] == rest[i - 1];
          }
        }
      } else {
        assert r == rest;
      }
    }
  }

  /** The start of the window: `days` days before `now`. */
  function StartOf(now: Millis, days: int): Millis
  {
    now - days * DayMillis
  }

  /**
   * `getRecentMeals`: exactly the user's meals in that group created in the
   * last `days` days, newest first.
   */
  function GetRecentMeals(meals: seq<Meal>, userId: string, groupId: Id, days: int, now: Millis): (r: seq<Meal>)
    ensures forall m :: m in r <==> m in meals && RecentIn(m, userId, groupId, StartOf(now, days))
    ensures Chronological(meals) ==> forall i, j :: 0 <= i < j < |r| ==> r[i].createdAt >= r[j].createdAt
  {
    var f := FilterRecent(meals, userId, groupId, StartOf(now, days));
    assert Chronological(meals) ==> Chronological(f) by {
      if Chronological(meals) {
        FilterRecentChronological(meals, userId, groupId, StartOf(now, days));
      }
    }
    assert forall m :: m in Seqs.Reverse(f) <==> m in f by {
      forall m {
        Seqs.ReverseMembers(f, m);
      }
    }
    Seqs.Reverse(f)
  }

  /** `getMealCount`: the number of stored meals of that user and group. */
  function GetMealCount(meals: seq<Meal>, userId: string, groupId: Id): (n: nat)
    ensures n == 0 <==> forall m :: m in meals ==> !InGroup(m, userId, groupId)
    ensures n <= |meals|
  {
    if |meals| == 0 then 0
    else
      assert forall m :: m in meals[1..] ==> m in meals;
      (if InGroup(meals[0], userId, groupId) then 1 else 0) + GetMealCount(meals[1..], userId, groupId)
  }

  /** Saving a meal raises its own group's count by one and leaves every other group's. */
  lemma {:induction false} MealCountAppend(meals: seq<Meal>, m: Meal, userId: string, groupId: Id)
    ensures GetMealCount(meals + [m], userId, groupId) == GetMealCount(meals, userId, groupId) + (if InGroup(m, userId, groupId) then 1 else 0)
  {
    if |meals| == 0 {
      assert meals + [m] == [m];
    } else {
      assert (meals + [m])[1..] == meals[1..] + [m];
      MealCountAppend(meals[1..], m, userId, groupId);
    }
  }

  lemma {:induction false} FilterRecentAtMostCount(meals: seq<Meal>, userId: string, groupId: Id, since: Millis)
    ensures |FilterRecent(meals, userId, groupId, since)| <= GetMealCount(meals, userId, groupId)
  {
    if |meals| > 0 {
      FilterRecentAtMostCount(meals[1..], userId, groupId, since);
    }
  }

  /** The history of a group never holds more meals than the group's count. */
  lemma RecentAtMostCount(meals: seq<Meal>, userId: string, groupId: Id, days: int, now: Millis)
    ensures |GetRecentMeals(meals, userId, groupId, days, now)| <= GetMealCount(meals, userId, groupId)
  {
    FilterRecentAtMostCount(meals, userId, groupId, StartOf(now, days));
  }

  /** A meal saved into one group never shows up in another group's history. */
  lemma OtherGroupUnaffected(meals: seq<Meal>, m: Meal, userId: string, groupId: Id, days: int, now: Millis)
    requires !InGroup(m, userId, groupId)
    ensures forall x :: x in GetRecentMeals(meals + [m], userId, groupId, days, now) <==> x in GetRecentMeals(meals, userId, groupId, days, now)
  {
  }
}
