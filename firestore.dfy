/**
 * The three Firestore collections the webhook uses, held in memory in
 * insertion order. Document ids come from a counter, so a new id is never
 * one already stored, and `clock` is the time of the latest write.
 */
module Firestore {
  import opened Wrappers
  import opened WebhookModels
  import EmbeddingService

  /** In a table ids are distinct and below `next`, and `createdAt` never decreases along the table. */
  ghost predicate GroupTable(t: seq<BearGroup>, next: nat, clock: Millis)
  {
    (forall i :: 0 <= i < |t| ==> t[i].id < next && t[i].createdAt <= clock) &&
    (forall i, j :: 0 <= i < j < |t| ==> t[i].id != t[j].id && t[i].createdAt <= t[j].createdAt)
  }

  ghost predicate BearTable(t: seq<Bear>, next: nat, clock: Millis)
  {
    (forall i :: 0 <= i < |t| ==> t[i].id < next && t[i].createdAt <= clock) &&
    (forall i, j :: 0 <= i < j < |t| ==> t[i].id != t[j].id && t[i].createdAt <= t[j].createdAt)
  }

  ghost predicate MealTable(t: seq<Meal>, next: nat, clock: Millis)
  {
    (forall i :: 0 <= i < |t| ==> t[i].id < next && t[i].createdAt <= clock) &&
    (forall i, j :: 0 <= i < j < |t| ==> t[i].id != t[j].id && t[i].createdAt <= t[j].createdAt)
  }

  /** The bear and meal tables stay valid when the clock moves forward. */
  lemma LaterClock(bears: seq<Bear>, meals: seq<Meal>, next: nat, clock: Millis, now: Millis)
    requires BearTable(bears, next, clock) && MealTable(meals, next, clock) && clock <= now
    ensures BearTable(bears, next, now) && MealTable(meals, next, now)
  {
  }

  class Db {
    /** The `bear_groups` collection. */
    var groups: seq<BearGroup>
    /** The `bears` collection. */
    var bears: seq<Bear>
    /** The `meals` collection. */
    var meals: seq<Meal>
    /** The next document id to hand out. */
    var nextId: nat
    /** The time of the latest write. */
    var clock: Millis

    ghost predicate Valid()
      reads this
    {
      GroupTable(groups, nextId, clock) && BearTable(bears, nextId, clock) && MealTable(meals, nextId, clock)
    }

    /** An empty database whose clock starts at `start`. */
    constructor (start: Millis)
      ensures Valid()
      ensures groups == [] && bears == [] && meals == [] && nextId == 0 && clock == start
    {
      groups := [];
      bears := [];
      meals := [];
      nextId := 0;
      clock := start;
    }

    /** `collection.add`: a fresh document id, and the clock moved to `now`. */
    method NewId(now: Millis) returns (id: Id)
      requires Valid() && now >= clock
      modifies this
      ensures Valid()
      ensures id == old(nextId) && nextId == id + 1 && clock == now
      ensures groups == old(groups) && bears == old(bears) && meals == old(meals)
    {
      id := nextId;
      nextId := nextId + 1;
      clock := now;
    }

    /** `bear_groups.add`: a new active group document with a fresh id. */
    method AddGroup(userId: string, now: Millis) returns (g: BearGroup)
      requires Valid() && now >= clock
      modifies this
      ensures Valid() && clock == now && nextId == old(nextId) + 1
      ensures g == BearGroup(old(nextId), userId, now, None)
      ensures forall i :: 0 <= i < |old(groups)| ==> old(groups)[i].id != g.id
      ensures groups == old(groups) + [g] && bears == old(bears) && meals == old(meals)
    {
      var id := NewId(now);
      g := BearGroup(id, userId, now, None);
      groups := groups + [g];
    }

    /** `bears.add`: a new bear document with a fresh id. */
    method AddBear(userId: string, groupId: Id, imageUrl: string, now: Millis) returns (b: Bear)
      requires Valid() && now >= clock
      modifies this
      ensures Valid() && clock == now && nextId == old(nextId) + 1
      ensures b == Bear(old(nextId), userId, groupId, imageUrl, now)
      ensures forall i :: 0 <= i < |old(bears)| ==> old(bears)[i].id != b.id
      ensures bears == old(bears) + [b] && groups == old(groups) && meals == old(meals)
    {
      var id := NewId(now);
      b := Bear(id, userId, groupId, imageUrl, now);
      bears := bears + [b];
    }

    /** `meals.add`: a new meal document with a fresh id. */
    method AddMeal(userId: string, groupId: Id, bearId: Id, analyzedData: MealAnalysis, imageUrl: Option<string>,
                   dishEmbedding: Option<EmbeddingService.Vector>, now: Millis) returns (m: Meal)
      requires Valid() && now >= clock
      modifies this
      ensures Valid() && clock == now && nextId == old(nextId) + 1
      ensures m == Meal(old(nextId), userId, groupId, bearId, analyzedData, imageUrl, dishEmbedding, now)
      ensures forall i :: 0 <= i < |old(meals)| ==> old(meals)[i].id != m.id
      ensures meals == old(meals) + [m] && groups == old(groups) && bears == old(bears)
    {
      var id := NewId(now);
      m := Meal(id, userId, groupId, bearId, analyzedData, imageUrl, dishEmbedding, now);
      meals := meals + [m];
    }
  }
}
