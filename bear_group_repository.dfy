/**
 * The per-user timeline ("bear group") lifecycle over the `bear_groups`
 * collection: at most one group of a user is meant to be active, and
 * reincarnation ends it and starts the next.
 */
module BearGroupRepository {
  import opened Wrappers
  import opened WebhookModels
  import opened Firestore

  /**
   * `getActiveGroup`: some group of the user with no `endedAt`, or None when
   * the user has none. The query has no order, so which of several active
   * groups comes back is not fixed; the model takes the first stored.
   */
  function GetActiveGroup(groups: seq<BearGroup>, userId: string): (r: Option<BearGroup>)
    ensures r.None? <==> forall i :: 0 <= i < |groups| ==> !ActiveOf(groups[i], userId)
    ensures r.Some? ==> r.value in groups && ActiveOf(r.value, userId)
  {
    if |groups| == 0 then None
    else if ActiveOf(groups[0], userId) then Some(groups[0])
    else GetActiveGroup(groups[1..], userId)
  }

  /** The user has at most one active group. */
  predicate AtMostOneActive(groups: seq<BearGroup>, userId: string)
  {
    forall i, j :: 0 <= i < |groups| && 0 <= j < |groups| && ActiveOf(groups[i], userId) && ActiveOf(groups[j], userId) ==> i == j
  }

  /** The table after `endGroup(id)` at time `now`: only the group(s) with that id get `endedAt`. */
  function EndedTable(groups: seq<BearGroup>, id: Id, now: Millis): (r: seq<BearGroup>)
    ensures |r| == |groups|
    ensures forall i :: 0 <= i < |r| ==> r[i].id == groups[i].id && r[i].userId == groups[i].userId && r[i].createdAt == groups[i].createdAt
    ensures forall i :: 0 <= i < |r| ==> (groups[i].id == id ==> r[i].endedAt == Some(now)) && (groups[i].id != id ==> r[i] == groups[i])
  {
    if |groups| == 0 then []
    else [if groups[0].id == id then groups[0].(endedAt := Some(now)) else groups[0]] + EndedTable(groups[1..], id, now)
  }

  /** Ending a group keeps ids, owners and creation times, so the table stays well formed. */
  lemma EndedTableKeepsTable(groups: seq<BearGroup>, id: Id, now: Millis, next: nat, clock: Millis)
    requires GroupTable(groups, next, clock) && clock <= now
    ensures GroupTable(EndedTable(groups, id, now), next, now)
  {
  }

  /** A group once found is found again when a group is appended after it. */
  lemma {:induction false} ActiveGroupAppend(groups: seq<BearGroup>, g: BearGroup, userId: string)
    ensures GetActiveGroup(groups, userId).Some? ==> GetActiveGroup(groups + [g], userId) == GetActiveGroup(groups, userId)
    ensures GetActiveGroup(groups, userId).None? ==> GetActiveGroup(groups + [g], userId) == (if ActiveOf(g, userId) then Some(g) else None)
  {
    if |groups| > 0 {
      assert (groups + [g])[1..] == groups[1..] + [g];
      ActiveGroupAppend(groups[1..], g, userId);
    } else {
      assert [] + [g] == [g];
    }
  }

  /** Ending the only active group leaves the user without one. */
  lemma EndOnlyActive(groups: seq<BearGroup>, userId: string, now: Millis)
    requires AtMostOneActive(groups, userId) && GetActiveGroup(groups, userId).Some?
    ensures forall i :: 0 <= i < |groups| ==> !ActiveOf(EndedTable(groups, GetActiveGroup(groups, userId).value.id, now)[i], userId)
  {
    var a := GetActiveGroup(groups, userId).value;
    var k :| 0 <= k < |groups| && groups[k] == a;
    var t := EndedTable(groups, a.id, now);
    forall i | 0 <= i < |groups|
      ensures !ActiveOf(t[i], userId)
    {
      if groups[i].id != a.id {
        assert i != k;
      }
    }
  }

  /** Appending an active group to a table where the user has none gives exactly one, the new one. */
  lemma OnlyNewActive(groups: seq<BearGroup>, g: BearGroup, userId: string)
    requires forall i :: 0 <= i < |groups| ==> !ActiveOf(groups[i], userId)
    requires ActiveOf(g, userId)
    ensures AtMostOneActive(groups + [g], userId)
    ensures forall i :: 0 <= i < |groups + [g]| && ActiveOf((groups + [g])[i], userId) ==> i == |groups|
    ensures GetActiveGroup(groups + [g], userId) == Some(g)
  {
    ActiveGroupAppend(groups, g, userId);
    var t := groups + [g];
    forall i | 0 <= i < |groups|
      ensures !ActiveOf(t[i], userId)
    {
      assert t[i] == groups[i];
    }
  }

  /** `createGroup`: one new active group of the user with a fresh id; nothing else changes. */
  method CreateGroup(db: Db, userId: string, now: Millis) returns (g: BearGroup)
    requires db.Valid() && now >= db.clock
    modifies db
    ensures db.Valid() && db.clock == now
    ensures g == BearGroup(old(db.nextId), userId, now, None)
    ensures forall i :: 0 <= i < |old(db.groups)| ==> old(db.groups)[i].id != g.id
    ensures db.groups == old(db.groups) + [g]
    ensures db.bears == old(db.bears) && db.meals == old(db.meals)
  {
    g := db.AddGroup(userId, now);
  }

  /** `endGroup`: sets `endedAt` on the group with the id; updating a missing document fails. */
  method EndGroup(db: Db, groupId: Id, now: Millis) returns (r: Result<(), string>)
    requires db.Valid() && now >= db.clock
    modifies db
    ensures db.Valid()
    ensures r.Ok? <==> exists i :: 0 <= i < |old(db.groups)| && old(db.groups)[i].id == groupId
    ensures r.Ok? ==> db.groups == EndedTable(old(db.groups), groupId, now) && db.clock == now
    ensures r.Err? ==> db.groups == old(db.groups) && db.clock == old(db.clock)
    ensures db.bears == old(db.bears) && db.meals == old(db.meals) && db.nextId == old(db.nextId)
  {
    if exists i :: 0 <= i < |db.groups| && db.groups[i].id == groupId {
      EndedTableKeepsTable(db.groups, groupId, now, db.nextId, db.clock);
      LaterClock(db.bears, db.meals, db.nextId, db.clock, now);
      db.groups := EndedTable(db.groups, groupId, now);
      db.clock := now;
      r := Ok(());
    } else {
      r := Err("NOT_FOUND: No document to update");
    }
  }

  /**
   * `getOrCreateActiveGroup`: the active group when there is one, with nothing
   * written; otherwise a new one. Either way the user then has an active group
   * and it is the one returned, so a second call creates nothing.
   */
  method GetOrCreateActiveGroup(db: Db, userId: string, now: Millis) returns (g: BearGroup)
    requires db.Valid() && now >= db.clock
    modifies db
    ensures db.Valid() && db.clock <= now
    ensures ActiveOf(g, userId) && g in db.groups
    ensures GetActiveGroup(db.groups, userId) == Some(g)
    ensures old(GetActiveGroup(db.groups, userId)).Some? ==>
      g == old(GetActiveGroup(db.groups, userId)).value &&
      db.groups == old(db.groups) && db.nextId == old(db.nextId) && db.clock == old(db.clock)
    ensures old(GetActiveGroup(db.groups, userId)).None? ==>
      db.groups == old(db.groups) + [g] && g == BearGroup(old(db.nextId), userId, now, None)
    ensures db.bears == old(db.bears) && db.meals == old(db.meals)
  {
    var existing := GetActiveGroup(db.groups, userId);
    if existing.Some? {
      g := existing.value;
    } else {
      g := CreateGroup(db, userId, now);
      ActiveGroupAppend(old(db.groups), g, userId);
    }
  }

  /**
   * `reincarnate`: ends the active group, if any, then creates a new one. A
   * user who had at most one active group has exactly one afterwards: the new one.
   */
  method Reincarnate(db: Db, userId: string, now: Millis) returns (g: BearGroup)
    requires db.Valid() && now >= db.clock
    modifies db
    ensures db.Valid() && db.clock == now
    ensures g == BearGroup(old(db.nextId), userId, now, None)
    ensures forall i :: 0 <= i < |old(db.groups)| ==> old(db.groups)[i].id != g.id
    ensures old(GetActiveGroup(db.groups, userId)).Some? ==>
      db.groups == EndedTable(old(db.groups), old(GetActiveGroup(db.groups, userId)).value.id, now) + [g]
    ensures old(GetActiveGroup(db.groups, userId)).None? ==> db.groups == old(db.groups) + [g]
    ensures old(AtMostOneActive(db.groups, userId)) ==>
      AtMostOneActive(db.groups, userId) && GetActiveGroup(db.groups, userId) == Some(g) &&
      forall i :: 0 <= i < |db.groups| && ActiveOf(db.groups[i], userId) ==> i == |db.groups| - 1
    ensures db.bears == old(db.bears) && db.meals == old(db.meals)
  {
    var active := GetActiveGroup(db.groups, userId);
    ghost var before := db.groups;
    if active.Some? {
      var ended := EndGroup(db, active.value.id, now);
      if AtMostOneActive(before, userId) {
        EndOnlyActive(before, userId, now);
      }
    }
    ghost var mid := db.groups;
    g := CreateGroup(db, userId, now);
    if AtMostOneActive(before, userId) {
      OnlyNewActive(mid, g, userId);
    }
  }
}
