/**
 * The `bears` collection: the latest bear, the newest bears of a timeline,
 * the bear/meal join used for the video, and saving a bear into the user's
 * active timeline.
 */
module BearRepository {
  import opened Wrappers
  import opened WebhookModels
  import opened Firestore
  import Seqs
  import BearGroupRepository

  /** The largest number of bears `getRecentBearsWithMeals` fetches. */
  const MaxBearsWithMeals: nat := 30

  /** The default `limit` of `getRecentBears`. */
  const DefaultRecentBears: nat := 10

  /** `createdAt` never decreases along `t`. */
  predicate Chronological(t: seq<Bear>)
  {
    forall i, j :: 0 <= i < j < |t| ==> t[i].createdAt <= t[j].createdAt
  }

  /** The filter of `getLatestBear`: the user, and the group when one is given. */
  predicate Matches(b: Bear, userId: string, groupId: Option<Id>)
  {
    b.userId == userId && (groupId.Some? ==> b.groupId == groupId.value)
  }

  /**
   * `getLatestBear`: None when no bear matches, otherwise a matching bear that,
   * on a chronological table, is at least as new as every matching bear
   * (ties go to the one stored last).
   */
  function GetLatestBear(bears: seq<Bear>, userId: string, groupId: Option<Id>): (r: Option<Bear>)
    ensures r.None? <==> forall i :: 0 <= i < |bears| ==> !Matches(bears[i], userId, groupId)
    ensures r.Some? ==> r.value in bears && Matches(r.value, userId, groupId)
    ensures r.Some? && Chronological(bears) ==>
      forall i :: 0 <= i < |bears| && Matches(bears[i], userId, groupId) ==> bears[i].createdAt <= r.value.createdAt
  {
    if |bears| == 0 then None
    else if Matches(bears[|bears| - 1], userId, groupId) then Some(bears[|bears| - 1])
    else
      var init := bears[..|bears| - 1];
      assert forall i :: 0 <= i < |init| ==> init[i] == bears[i];
      GetLatestBear(init, userId, groupId)
  }

  /** Bears of another user never come back, and with a group given, neither do other groups' bears. */
  lemma LatestInScope(bears: seq<Bear>, userId: string, groupId: Id)
    ensures GetLatestBear(bears, userId, Some(groupId)).Some? ==>
      GetLatestBear(bears, userId, Some(groupId)).value.groupId == groupId &&
      GetLatestBear(bears, userId, Some(groupId)).value.userId == userId
    ensures GetLatestBear(bears, userId, Some(groupId)).Some? ==> GetLatestBear(bears, userId, None).Some?
  {
  }

  /** The bear belongs to that user and group. */
  predicate InGroup(b: Bear, userId: string, groupId: Id)
  {
    b.userId == userId && b.groupId == groupId
  }

  /** The bears of a user's group, in table order. */
  function GroupBears(bears: seq<Bear>, userId: string, groupId: Id): (r: seq<Bear>)
    ensures forall b :: b in r <==> b in bears && InGroup(b, userId, groupId)
  {
    if |bears| == 0 then []
    else
      assert forall x :: x in bears[1..] ==> x in bears;
      (if InGroup(bears[0], userId, groupId) then [bears[0]] else []) + GroupBears(bears[1..], userId, groupId)
  }

  /** The filter keeps the table's order, so a chronological table gives a chronological result. */
  lemma {:induction false} GroupBearsChronological(bears: seq<Bear>, userId: string, groupId: Id)
    requires Chronological(bears)
    ensures Chronological(GroupBears(bears, userId, groupId))
  {
    if |bears| > 0 {
      var tail := bears[1..];
      assert Chronological(tail) by {
        assert forall i :: 0 <= i < |tail| ==> tail[i] == bears[i + 1];
      }
      GroupBearsChronological(tail, userId, groupId);
      var rest := GroupBears(tail, userId, groupId);
      forall x | x in rest
        ensures bears[0].createdAt <= x.createdAt
      {
        var k :| 0 <= k < |tail| && tail[k] == x;
        assert bears[k + 1] == x;
      }
      var r := GroupBears(bears, userId, groupId);
      if InGroup(bears[0], userId, groupId) {
        assert r == [bears[0]] + rest;
        forall i, j | 0 <= i < j < |r|
          ensures r[i].createdAt <= r[j].createdAt
        {
          assert r[j] == rest[j - 1];
          if i > 0 {
            assert r[i] == rest[i - 1];
          }
        }
      } else {
        assert r == rest;
      }
    }
  }

  /** `orderBy("createdAt", "desc")` over the group's bears. */
  function NewestFirst(bears: seq<Bear>, userId: string, groupId: Id): (r: seq<Bear>)
    ensures forall b :: b in r <==> b in bears && InGroup(b, userId, groupId)
    ensures Chronological(bears) ==> forall i, j :: 0 <= i < j < |r| ==> r[i].createdAt >= r[j].createdAt
  {
    var f := GroupBears(bears, userId, groupId);
    assert Chronological(bears) ==> Chronological(f) by {
      if Chronological(bears) {
        GroupBearsChronological(bears, userId, groupId);
      }
    }
    assert forall b :: b in Seqs.Reverse(f) <==> b in f by {
      forall b {
        Seqs.ReverseMembers(f, b);
      }
    }
    Seqs.Reverse(f)
  }

  /**
   * `getRecentBears`: at most `limit` bears of the user's group, newest first;
   * fewer than `limit` only when the group has no more.
   */
  function GetRecentBears(bears: seq<Bear>, userId: string, groupId: Id, limit: nat): (r: seq<Bear>)
    ensures |r| <= limit
    ensures forall k :: 0 <= k < |r| ==> r[k] in bears && InGroup(r[k], userId, groupId)
    ensures |r| < limit ==> forall b :: b in bears && InGroup(b, userId, groupId) ==> b in r
    ensures Chronological(bears) ==> forall i, j :: 0 <= i < j < |r| ==> r[i].createdAt >= r[j].createdAt
  {
    var all := NewestFirst(bears, userId, groupId);
    assert forall k :: 0 <= k < |all| ==> all[k] in all;
    Seqs.Take(all, limit)
  }

  /** No bear of the group left out by the limit is newer than a bear returned. */
  lemma RecentAreNewest(bears: seq<Bear>, userId: string, groupId: Id, limit: nat)
    requires Chronological(bears)
    ensures forall b, k :: (b in bears && InGroup(b, userId, groupId) && b !in GetRecentBears(bears, userId, groupId, limit) &&
      0 <= k < |GetRecentBears(bears, userId, groupId, limit)|) ==> b.createdAt <= GetRecentBears(bears, userId, groupId, limit)[k].createdAt
  {
    var all := NewestFirst(bears, userId, groupId);
    var r := GetRecentBears(bears, userId, groupId, limit);
    forall b, k | b in bears && InGroup(b, userId, groupId) && b !in r && 0 <= k < |r|
      ensures b.createdAt <= r[k].createdAt
    {
      var q :| 0 <= q < |all| && all[q] == b;
      assert q >= |r|;
      assert r[k] == all[k];
    }
  }

  /** A fetched bear with the meal recorded for it, if any (`BearWithMeal`). */
  datatype BearWithMeal = BearWithMeal(bear: Bear, meal: Option<Meal>)

  /**
   * The meal for `bearId` a `Map.set` loop over `meals` keeps: the last one
   * it visits. The query fixes no order, so the model visits the table in
   * its stored order, and the contract promises only some meal naming the
   * bear.
   */
  function LastMealFor(meals: seq<Meal>, bearId: Id): (r: Option<Meal>)
    ensures r.None? <==> forall m :: m in meals ==> m.bearId != bearId
    ensures r.Some? ==> r.value in meals && r.value.bearId == bearId
  {
    if |meals| == 0 then None
    else if meals[|meals| - 1].bearId == bearId then Some(meals[|meals| - 1])
    else
      assert forall m :: m in meals ==> m in meals[..|meals| - 1] || m == meals[|meals| - 1];
      LastMealFor(meals[..|meals| - 1], bearId)
  }

  /** The `where("bearId", "in", bearIds)` query, in table order. */
  function MealsOfBears(meals: seq<Meal>, bearIds: set<Id>): (r: seq<Meal>)
    ensures forall m :: m in r ==> m in meals && m.bearId in bearIds
  {
    if |meals| == 0 then []
    else MealsOfBears(meals[..|meals| - 1], bearIds) + (if meals[|meals| - 1].bearId in bearIds then [meals[|meals| - 1]] else [])
  }

  /** Restricting the meals to the fetched bears changes no fetched bear's meal. */
  lemma {:induction false} LastMealOfBears(meals: seq<Meal>, bearIds: set<Id>, bearId: Id)
    requires bearId in bearIds
    ensures LastMealFor(MealsOfBears(meals, bearIds), bearId) == LastMealFor(meals, bearId)
  {
    if |meals| > 0 {
      var init := meals[..|meals| - 1];
      var last := meals[|meals| - 1];
      LastMealOfBears(init, bearIds, bearId);
      if last.bearId in bearIds {
        var f := MealsOfBears(init, bearIds) + [last];
        assert f[..|f| - 1] == MealsOfBears(init, bearIds);
      } else {
        assert MealsOfBears(init, bearIds) + [] == MealsOfBears(init, bearIds);
      }
    }
  }

  function Min(a: nat, b: nat): nat
  {
    if a < b then a else b
  }

  /**
   * `getRecentBearsWithMeals`: the newest `min(limit, 30)` bears of the group,
   * in that order and unchanged, each with a stored meal that names it (the
   * one `LastMealFor` keeps), or None when no meal does.
   */
  method GetRecentBearsWithMeals(db: Db, userId: string, groupId: Id, limit: nat) returns (r: seq<BearWithMeal>)
    ensures |r| == |GetRecentBears(db.bears, userId, groupId, Min(limit, MaxBearsWithMeals))|
    ensures |r| <= limit && |r| <= MaxBearsWithMeals
    ensures forall k :: 0 <= k < |r| ==> r[k].bear == GetRecentBears(db.bears, userId, groupId, Min(limit, MaxBearsWithMeals))[k]
    ensures forall k :: 0 <= k < |r| ==> r[k].meal == LastMealFor(db.meals, r[k].bear.id)
    ensures forall k :: 0 <= k < |r| && r[k].meal.Some? ==> r[k].meal.value in db.meals && r[k].meal.value.bearId == r[k].bear.id
    ensures forall k :: 0 <= k < |r| ==> (r[k].meal.None? <==> forall m :: m in db.meals ==> m.bearId != r[k].bear.id)
  {
    var maxLimit := Min(limit, MaxBearsWithMeals);
    var bears := GetRecentBears(db.bears, userId, groupId, maxLimit);
    if |bears| == 0 {
      return [];
    }
    var bearIds := set k | 0 <= k < |bears| :: bears[k].id;
    var fetched := MealsOfBears(db.meals, bearIds);
    var mealMap: map<Id, Meal> := map[];
    var i := 0;
    while i < |fetched|
      invariant 0 <= i <= |fetched|
      invariant forall b :: LastMealFor(fetched[..i], b) == (if b in mealMap then Some(mealMap[b]) else None)
    {
      assert fetched[..i + 1][..i] == fetched[..i];
      mealMap := mealMap[fetched[i].bearId := fetched[i]];
      i := i + 1;
    }
    assert fetched[..i] == fetched;
    r := seq(|bears|, k requires 0 <= k < |bears| =>
      BearWithMeal(bears[k], if bears[k].id in mealMap then Some(mealMap[bears[k].id]) else None));
    forall k | 0 <= k < |r|
      ensures r[k].meal == LastMealFor(db.meals, r[k].bear.id)
    {
      LastMealOfBears(db.meals, bearIds, bears[k].id);
    }
  }

  /**
   * `saveBear`: resolves the user's active group (creating one when none is
   * active) and appends one bear of the user in that group.
   */
  method SaveBear(db: Db, imageUrl: string, userId: string, now: Millis) returns (b: Bear)
    requires db.Valid() && now >= db.clock
    modifies db
    ensures db.Valid() && db.clock == now
    ensures b.userId == userId && b.imageUrl == imageUrl && b.createdAt == now
    ensures db.bears == old(db.bears) + [b]
    ensures forall i :: 0 <= i < |old(db.bears)| ==> old(db.bears)[i].id != b.id
    ensures BearGroupRepository.GetActiveGroup(db.groups, userId).Some? &&
      BearGroupRepository.GetActiveGroup(db.groups, userId).value.id == b.groupId
    ensures old(BearGroupRepository.GetActiveGroup(db.groups, userId)).Some? ==>
      b.groupId == old(BearGroupRepository.GetActiveGroup(db.groups, userId)).value.id && db.groups == old(db.groups)
    ensures old(BearGroupRepository.GetActiveGroup(db.groups, userId)).None? ==>
      db.groups == old(db.groups) + [BearGroup(b.groupId, userId, now, None)]
    ensures db.meals == old(db.meals)
  {
    var group := BearGroupRepository.GetOrCreateActiveGroup(db, userId, now);
    b := db.AddBear(userId, group.id, imageUrl, now);
  }
}
