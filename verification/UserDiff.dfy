/**
 The diff of two panel user lists (node/user_compare.go) and what it does to the limiter.

 The main results need nothing of the lists, not even distinct UUIDs: whatever the lists, applying the
 diff to the table built from the old list gives the table built from the new one, and live connections
 stay registered exactly for the users that the new list keeps.
 */
module UserDiff {
  import opened Common
  import opened Identities
  import opened Users
  import Limiter

  datatype Changes = Changes(
    deleted: seq<UserInfo>, added: seq<UserInfo>,
    limiterDeleted: seq<UserInfo>, limiterAdded: seq<UserInfo>)

  /** `userLimitFieldsChanged`. */
  predicate LimitFieldsChanged(o: UserInfo, n: UserInfo) {
    o.id != n.id || o.speedLimit != n.speedLimit || o.deviceLimit != n.deviceLimit
  }

  /** What the limiter keeps of two users is the same. */
  predicate SameLimits(o: UserInfo, n: UserInfo) {
    o.id == n.id && o.speedLimit == n.speedLimit && o.deviceLimit == n.deviceLimit
  }

  /** The last user listed under a UUID. */
  function Last(users: seq<UserInfo>, uuid: Uuid): (r: Option<UserInfo>)
    ensures r.None? <==> uuid !in Uuids(users)
    ensures r.Some? ==> r.value in users && r.value.uuid == uuid
  {
    if users == [] then None
    else
      var n := |users| - 1;
      assert users == users[..n] + [users[n]];
      if users[n].uuid == uuid then Some(users[n]) else Last(users[..n], uuid)
  }

  /** The first user listed under a UUID. */
  function First(users: seq<UserInfo>, uuid: Uuid): (r: Option<UserInfo>)
    ensures r.None? <==> uuid !in Uuids(users)
    ensures r.Some? ==> r.value in users && r.value.uuid == uuid
  {
    if users == [] then None
    else
      var n := |users| - 1;
      assert users == users[..n] + [users[n]];
      var earlier := First(users[..n], uuid);
      if earlier.None? && users[n].uuid == uuid then Some(users[n]) else earlier
  }

  /** The last user of every UUID. */
  ghost function ByUuid(users: seq<UserInfo>): map<Uuid, UserInfo> {
    map uuid | uuid in Uuids(users) :: Last(users, uuid).value
  }

  ghost predicate DistinctUuids(users: seq<UserInfo>) {
    forall i, j | 0 <= i < j < |users| :: users[i].uuid != users[j].uuid
  }

  // ----- what the diff promises

  /** What is added to the limiter for a UUID: the last new user, or nothing if it equals the old one. */
  ghost predicate AddedFor(old': map<Uuid, UserInfo>, new': seq<UserInfo>, added: seq<UserInfo>, uuid: Uuid) {
    || Last(added, uuid) == Last(new', uuid)
    || (Last(added, uuid).None? && uuid in old' && Last(new', uuid).Some?
        && SameLimits(old'[uuid], Last(new', uuid).value))
  }

  /** A limiter deletion names an old user, who is added again or is gone from the new list. */
  ghost predicate DeletedFor(old': map<Uuid, UserInfo>, new': seq<UserInfo>, added: seq<UserInfo>, d: UserInfo) {
    && d.uuid in old' && d == old'[d.uuid]
    && (d.uuid in Uuids(added) || d.uuid !in Uuids(new'))
  }

  /** The old list has this user with the same id and limits. */
  predicate Unchanged(old': map<Uuid, UserInfo>, u: UserInfo) {
    u.uuid in old' && SameLimits(old'[u.uuid], u)
  }

  /** An old user is dropped from the limiter: gone, or changed where the new list first names the UUID. */
  predicate Dropped(old': map<Uuid, UserInfo>, new': seq<UserInfo>, uuid: Uuid) {
    uuid in old' && (First(new', uuid).None? || !SameLimits(old'[uuid], First(new', uuid).value))
  }

  ghost predicate LimiterDiff(
      old': map<Uuid, UserInfo>, new': seq<UserInfo>, added: seq<UserInfo>, deleted: seq<UserInfo>)
  {
    && (forall uuid :: AddedFor(old', new', added, uuid))
    && (forall a | a in added :: a in new')
    && (forall u | u in new' :: u in added || Unchanged(old', u))
    && (forall d | d in deleted :: DeletedFor(old', new', added, d))
    && (forall uuid :: uuid in Uuids(deleted) <==> Dropped(old', new', uuid))
  }

  lemma UuidsSnoc(users: seq<UserInfo>, u: UserInfo)
    ensures Uuids(users + [u]) == Uuids(users) + {u.uuid}
    ensures forall uuid :: Last(users + [u], uuid) == if u.uuid == uuid then Some(u) else Last(users, uuid)
    ensures forall uuid :: First(users + [u], uuid) ==
              if First(users, uuid).None? && u.uuid == uuid then Some(u) else First(users, uuid)
  {
    assert (users + [u])[..|users|] == users;
  }

  /** The first loop: users of the old list by UUID. */
  method IndexByUuid(users: seq<UserInfo>) returns (m: map<Uuid, UserInfo>)
    ensures m == ByUuid(users)
  {
    m := map[];
    for i := 0 to |users|
      invariant m == ByUuid(users[..i])
    {
      UuidsSnoc(users[..i], users[i]);
      assert users[..i] + [users[i]] == users[..i + 1];
      m := m[users[i].uuid := users[i]];
    }
    assert users[..|users|] == users;
  }

  /** What the second loop has established about membership after the users seen so far. */
  ghost predicate Members(
      old': map<Uuid, UserInfo>, seen: seq<UserInfo>, left: map<Uuid, UserInfo>, added: seq<UserInfo>)
  {
    && left == old' - Uuids(seen)
    && Uuids(added) <= Uuids(seen) <= old'.Keys + Uuids(added)
    && (forall a | a in added :: a in seen)
    && (DistinctUuids(seen) ==> Uuids(added) !! old'.Keys)
  }

  /** An old user was dropped because the new list first names the UUID with other fields. */
  predicate Changed(old': map<Uuid, UserInfo>, seen: seq<UserInfo>, uuid: Uuid) {
    uuid in old' && First(seen, uuid).Some? && !SameLimits(old'[uuid], First(seen, uuid).value)
  }

  /** What it has established about the limiter's lists. */
  ghost predicate Limits(
      old': map<Uuid, UserInfo>, seen: seq<UserInfo>, added: seq<UserInfo>, deleted: seq<UserInfo>)
  {
    && (forall uuid :: AddedFor(old', seen, added, uuid))
    && (forall a | a in added :: a in seen)
    && (forall u | u in seen :: u in added || Unchanged(old', u))
    && (forall d | d in deleted :: d.uuid in old' && d == old'[d.uuid] && d.uuid in Uuids(added))
    && (forall uuid :: uuid in Uuids(deleted) <==> Changed(old', seen, uuid))
  }

  // ----- which users are added, exactly

  /** New users whose UUID the old list does not have, and users whose UUID the new list has named before. */
  ghost function AddedOf(old': map<Uuid, UserInfo>, new': seq<UserInfo>): seq<UserInfo> {
    if new' == [] then []
    else
      var n := |new'| - 1;
      var u, earlier := new'[n], new'[..n];
      AddedOf(old', earlier) + if u.uuid in old' && u.uuid !in Uuids(earlier) then [] else [u]
  }

  /** The same for the limiter, and users whose id or limits have changed. */
  ghost function LimiterAddedOf(old': map<Uuid, UserInfo>, new': seq<UserInfo>): seq<UserInfo> {
    if new' == [] then []
    else
      var n := |new'| - 1;
      var u, earlier := new'[n], new'[..n];
      LimiterAddedOf(old', earlier) + if Unchanged(old', u) && u.uuid !in Uuids(earlier) then [] else [u]
  }

  ghost predicate Exact(old': map<Uuid, UserInfo>, seen: seq<UserInfo>, c: Changes) {
    && c.added == AddedOf(old', seen) && c.limiterAdded == LimiterAddedOf(old', seen)
    && DistinctUuids(c.limiterDeleted)
  }

  lemma ExactStep(old': map<Uuid, UserInfo>, seen: seq<UserInfo>, c: Changes, u: UserInfo, c': Changes)
    requires Exact(old', seen, c)
    requires c'.added == c.added + if u.uuid in old' && u.uuid !in Uuids(seen) then [] else [u]
    requires c'.limiterAdded == c.limiterAdded + if Unchanged(old', u) && u.uuid !in Uuids(seen) then [] else [u]
    requires DistinctUuids(c'.limiterDeleted)
    ensures Exact(old', seen + [u], c')
  {
    assert (seen + [u])[..|seen|] == seen;
  }

  lemma DistinctSnoc(users: seq<UserInfo>, u: UserInfo)
    requires DistinctUuids(users) && u.uuid !in Uuids(users)
    ensures DistinctUuids(users + [u])
  {
    forall i | 0 <= i < |users| ensures users[i].uuid != u.uuid {
      assert users[i] in users;
    }
  }

  lemma MembersStep(
      old': map<Uuid, UserInfo>, seen: seq<UserInfo>, left: map<Uuid, UserInfo>, added: seq<UserInfo>, u: UserInfo)
    requires Members(old', seen, left, added)
    ensures Members(old', seen + [u], left - {u.uuid}, if u.uuid in left then added else added + [u])
  {
    UuidsSnoc(seen, u);
    UuidsSnoc(added, u);
    if DistinctUuids(seen + [u]) {
      assert forall i | 0 <= i < |seen| :: (seen + [u])[i] == seen[i];
      assert (seen + [u])[|seen|] == u;
    }
  }

  /** A user who is not in the old list, or was seen before, is added. */
  lemma LimitsAdd(
      old': map<Uuid, UserInfo>, seen: seq<UserInfo>, added: seq<UserInfo>, deleted: seq<UserInfo>, u: UserInfo)
    requires Limits(old', seen, added, deleted) && (u.uuid !in old' || u.uuid in Uuids(seen))
    ensures Limits(old', seen + [u], added + [u], deleted)
  {
    UuidsSnoc(seen, u);
    UuidsSnoc(added, u);
    forall uuid
      ensures AddedFor(old', seen + [u], added + [u], uuid)
      ensures Changed(old', seen + [u], uuid) <==> Changed(old', seen, uuid)
    {
      assert AddedFor(old', seen, added, uuid);
    }
  }

  /** A user who has changed is deleted and added. */
  lemma LimitsReplace(
      old': map<Uuid, UserInfo>, seen: seq<UserInfo>, added: seq<UserInfo>, deleted: seq<UserInfo>, u: UserInfo)
    requires Limits(old', seen, added, deleted)
    requires u.uuid in old' && u.uuid !in Uuids(seen) && !SameLimits(old'[u.uuid], u)
    requires old'[u.uuid].uuid == u.uuid
    ensures Limits(old', seen + [u], added + [u], deleted + [old'[u.uuid]])
  {
    UuidsSnoc(seen, u);
    UuidsSnoc(added, u);
    UuidsSnoc(deleted, old'[u.uuid]);
    forall uuid
      ensures AddedFor(old', seen + [u], added + [u], uuid)
      ensures Changed(old', seen + [u], uuid) <==> Changed(old', seen, uuid) || uuid == u.uuid
    {
      assert AddedFor(old', seen, added, uuid);
    }
  }

  /** A user who has not changed is skipped the first time. */
  lemma LimitsSkip(
      old': map<Uuid, UserInfo>, seen: seq<UserInfo>, added: seq<UserInfo>, deleted: seq<UserInfo>, u: UserInfo)
    requires Limits(old', seen, added, deleted)
    requires u.uuid in old' && u.uuid !in Uuids(seen) && SameLimits(old'[u.uuid], u)
    ensures Limits(old', seen + [u], added, deleted)
  {
    UuidsSnoc(seen, u);
    forall uuid
      ensures AddedFor(old', seen + [u], added, uuid)
      ensures Changed(old', seen + [u], uuid) <==> Changed(old', seen, uuid)
    {
      assert AddedFor(old', seen, added, uuid);
    }
  }

  /**
   `compareUserList`.  The last loop walks the remaining map in any order, so `deleted` is fixed up
   to order.
   */
  method CompareUserList(old': seq<UserInfo>, new': seq<UserInfo>) returns (c: Changes)
    ensures (Uuids(old') - Uuids(c.deleted)) + Uuids(c.added) == Uuids(new')
    ensures Uuids(c.deleted) == Uuids(old') - Uuids(new')
    ensures DistinctUuids(new') ==> Uuids(c.added) == Uuids(new') - Uuids(old')
    ensures (forall u | u in c.added :: u in new') && (forall u | u in c.deleted :: Last(old', u.uuid) == Some(u))
    ensures Exact(ByUuid(old'), new', c) && DistinctUuids(c.deleted)
    ensures LimiterDiff(ByUuid(old'), new', c.limiterAdded, c.limiterDeleted)
  {
    var byUuid := IndexByUuid(old');
    var left;
    left, c := CompareAll(byUuid, new');
    c := AppendDeleted(byUuid, new', left, c);
    Membership(Uuids(old'), Uuids(new'), Uuids(c.deleted), Uuids(c.added));
  }

  lemma NothingSeen(old': map<Uuid, UserInfo>)
    ensures Members(old', [], old', []) && Limits(old', [], [], [])
  {
  }

  lemma OneMore(users: seq<UserInfo>, i: nat)
    requires i < |users|
    ensures users[..i] + [users[i]] == users[..i + 1]
  {
  }

  /** The second loop. */
  method CompareAll(old': map<Uuid, UserInfo>, new': seq<UserInfo>) returns (left: map<Uuid, UserInfo>, c: Changes)
    requires forall uuid | uuid in old' :: old'[uuid].uuid == uuid
    ensures Members(old', new', left, c.added) && Limits(old', new', c.limiterAdded, c.limiterDeleted)
    ensures Exact(old', new', c) && c.deleted == []
  {
    NothingSeen(old');
    left, c := old', Changes([], [], [], []);
    ghost var seen := [];
    for i := 0 to |new'|
      invariant seen == new'[..i] && c.deleted == []
      invariant Members(old', seen, left, c.added) && Limits(old', seen, c.limiterAdded, c.limiterDeleted)
      invariant Exact(old', seen, c)
    {
      OneMore(new', i);
      left, c := Compare(old', seen, left, c, new'[i]);
      seen := seen + [new'[i]];
    }
    assert seen == new';
  }

  lemma Membership(old': set<Uuid>, new': set<Uuid>, deleted: set<Uuid>, added: set<Uuid>)
    requires deleted == old' - new' && added <= new' <= old' + added
    ensures (old' - deleted) + added == new'
    ensures added !! old' ==> added == new' - old'
  {
  }

  /** One round of the second loop. */
  method Compare(
      ghost old': map<Uuid, UserInfo>, ghost seen: seq<UserInfo>, left: map<Uuid, UserInfo>, c: Changes,
      user: UserInfo)
    returns (left': map<Uuid, UserInfo>, c': Changes)
    requires Members(old', seen, left, c.added) && Limits(old', seen, c.limiterAdded, c.limiterDeleted)
    requires Exact(old', seen, c) && forall uuid | uuid in old' :: old'[uuid].uuid == uuid
    ensures Members(old', seen + [user], left', c'.added) && Exact(old', seen + [user], c')
    ensures Limits(old', seen + [user], c'.limiterAdded, c'.limiterDeleted)
    ensures c'.deleted == c.deleted
  {
    MembersStep(old', seen, left, c.added, user);
    if user.uuid !in left {
      LimitsAdd(old', seen, c.limiterAdded, c.limiterDeleted, user);
      assert left - {user.uuid} == left;
      c' := c.(added := c.added + [user], limiterAdded := c.limiterAdded + [user]);
      ExactStep(old', seen, c, user, c');
      return left, c';
    }
    var oldUser := left[user.uuid];
    c' := c;
    if LimitFieldsChanged(oldUser, user) {
      LimitsReplace(old', seen, c.limiterAdded, c.limiterDeleted, user);
      DistinctSnoc(c.limiterDeleted, oldUser);
      c' := c.(limiterDeleted := c.limiterDeleted + [oldUser], limiterAdded := c.limiterAdded + [user]);
    } else {
      LimitsSkip(old', seen, c.limiterAdded, c.limiterDeleted, user);
    }
    left' := left - {user.uuid};
    assert c.added + [] == c.added && c.limiterAdded + [] == c.limiterAdded;
    ExactStep(old', seen, c, user, c');
  }

  /** The last loop. */
  method AppendDeleted(
      ghost old': map<Uuid, UserInfo>, ghost new': seq<UserInfo>, left: map<Uuid, UserInfo>, c0: Changes)
    returns (c: Changes)
    requires left == old' - Uuids(new') && Limits(old', new', c0.limiterAdded, c0.limiterDeleted) && c0.deleted == []
    requires forall uuid | uuid in old' :: old'[uuid].uuid == uuid
    requires DistinctUuids(c0.limiterDeleted)
    ensures c.added == c0.added && c.limiterAdded == c0.limiterAdded && Uuids(c.deleted) == left.Keys
    ensures DistinctUuids(c.deleted) && DistinctUuids(c.limiterDeleted)
    ensures forall u | u in c.deleted :: u.uuid in left && u == left[u.uuid]
    ensures LimiterDiff(old', new', c.limiterAdded, c.limiterDeleted)
  {
    c := c0;
    var todo := left.Keys;
    while todo != {}
      invariant todo <= left.Keys && c.added == c0.added && c.limiterAdded == c0.limiterAdded
      invariant Uuids(c.deleted) == left.Keys - todo && DistinctUuids(c.deleted) && DistinctUuids(c.limiterDeleted)
      invariant Uuids(c.limiterDeleted) == Uuids(c0.limiterDeleted) + (left.Keys - todo)
      invariant forall u | u in c.deleted :: u.uuid in left && u == left[u.uuid]
      invariant forall d | d in c.limiterDeleted :: DeletedFor(old', new', c.limiterAdded, d)
    {
      var uuid :| uuid in todo;
      todo := todo - {uuid};
      DistinctSnoc(c.deleted, left[uuid]);
      DistinctSnoc(c.limiterDeleted, left[uuid]);
      UuidsSnoc(c.deleted, left[uuid]);
      UuidsSnoc(c.limiterDeleted, left[uuid]);
      c := c.(deleted := c.deleted + [left[uuid]], limiterDeleted := c.limiterDeleted + [left[uuid]]);
    }
    forall uuid ensures Dropped(old', new', uuid) <==> Changed(old', new', uuid) || uuid in left {
    }
  }

  // ----- applying the diff to the limiter's table

  /** What a table holds under a key after users are stored into it. */
  lemma {:induction false} AddedAt(table: map<TagUuid, UserLimit>, tag: string, users: seq<UserInfo>, t: TagUuid)
    ensures var last := if t.tag == tag then Last(users, t.uuid) else None;
      && (t in Added(table, tag, users) <==> last.Some? || t in table)
      && (last.Some? ==> Added(table, tag, users)[t] == LimitOf(last.value))
      && (last.None? && t in table ==> Added(table, tag, users)[t] == table[t])
  {
    if users != [] {
      AddedAt(table, tag, users[..|users| - 1], t);
    }
  }

  /**
   Updating the table of the old list with the diff gives the table of the new list: the same users
   with the same uid, speed limit and device limit as `AddLimiter` would store from scratch.
   */
  lemma UpdateReachesNewTable(
      tag: string, old': seq<UserInfo>, new': seq<UserInfo>, added: seq<UserInfo>, deleted: seq<UserInfo>)
    requires LimiterDiff(ByUuid(old'), new', added, deleted)
    ensures Updated(Added(map[], tag, old'), tag, added, deleted) == Added(map[], tag, new')
  {
    var was, now := Added(map[], tag, old'), Added(map[], tag, new');
    var upd := Updated(was, tag, added, deleted);
    forall t: TagUuid ensures (t in upd <==> t in now) && (t in upd ==> upd[t] == now[t]) {
      AddedAt(map[], tag, old', t);
      AddedAt(map[], tag, new', t);
      AddedAt(Removed(was, tag, deleted), tag, added, t);
      CachesAt(was, tag, old', new', added, deleted, t);
      assert AddedFor(ByUuid(old'), new', added, t.uuid);
    }
  }

  /** What the table of numbers holds under a UUID after users are stored into it. */
  lemma {:induction false} NumberedAt(table: map<Uuid, Uid>, users: seq<UserInfo>, uuid: Uuid)
    ensures var last := Last(users, uuid);
      && (uuid in Numbered(table, users) <==> last.Some? || uuid in table)
      && (last.Some? ==> Numbered(table, users)[uuid] == last.value.id)
      && (last.None? && uuid in table ==> Numbered(table, users)[uuid] == table[uuid])
  {
    if users != [] {
      NumberedAt(table, users[..|users| - 1], uuid);
    }
  }

  lemma {:induction false} UnnumberedAt(table: map<Uuid, Uid>, users: seq<UserInfo>, uuid: Uuid)
    ensures var left := Unnumbered(table, users);
      && (uuid in left <==> uuid in table && uuid !in Uuids(users))
      && (uuid in left ==> left[uuid] == table[uuid])
  {
    if users != [] {
      var n := |users| - 1;
      UnnumberedAt(table, users[..n], uuid);
      assert users == users[..n] + [users[n]];
    }
  }

  /** The same for the table of numbers. */
  lemma UpdateReachesNewNumbers(old': seq<UserInfo>, new': seq<UserInfo>, added: seq<UserInfo>, deleted: seq<UserInfo>)
    requires LimiterDiff(ByUuid(old'), new', added, deleted)
    ensures Numbered(Unnumbered(Numbered(map[], old'), deleted), added) == Numbered(map[], new')
  {
    var was, now := Numbered(map[], old'), Numbered(map[], new');
    var upd := Numbered(Unnumbered(was, deleted), added);
    forall uuid ensures (uuid in upd <==> uuid in now) && (uuid in upd ==> upd[uuid] == now[uuid]) {
      NumberedAt(map[], old', uuid);
      NumberedAt(map[], new', uuid);
      NumberedAt(Unnumbered(was, deleted), added, uuid);
      UnnumberedAt(was, deleted, uuid);
      assert AddedFor(ByUuid(old'), new', added, uuid);
    }
  }

  lemma {:induction false} RetainedAt(tag: string, added: seq<UserInfo>, uuid: Uuid)
    ensures UserTag(tag, uuid) in Retained(tag, added) <==> Last(added, uuid).Some?
    ensures Last(added, uuid).Some? ==> Retained(tag, added)[UserTag(tag, uuid)] == Last(added, uuid).value.id
  {
    if added != [] {
      RetainedAt(tag, added[..|added| - 1], uuid);
    }
  }

  /** A list keeps a user: it has the UUID, and never with another id. */
  predicate Keeps(users: seq<UserInfo>, uuid: Uuid, uid: Uid) {
    uuid in Uuids(users) && forall u | u in users && u.uuid == uuid :: u.id == uid
  }

  /** With distinct UUIDs that is: the one entry of the UUID has this id. */
  lemma KeepsDistinct(users: seq<UserInfo>, u: UserInfo, uid: Uid)
    requires DistinctUuids(users) && u in users
    ensures Keeps(users, u.uuid, uid) <==> u.id == uid
  {
    var i :| 0 <= i < |users| && users[i] == u;
    if u.id == uid {
      forall v | v in users && v.uuid == u.uuid ensures v == u {
        var j :| 0 <= j < |users| && users[j] == v;
      }
    }
  }

  /**
   What is registered for an old user survives the update exactly when the new list keeps the user's
   UUID with the same id.
   */
  lemma SurvivesExactlyIfKept(
      tag: string, old': seq<UserInfo>, new': seq<UserInfo>, added: seq<UserInfo>, deleted: seq<UserInfo>,
      uuid: Uuid)
    requires LimiterDiff(ByUuid(old'), new', added, deleted) && uuid in Uuids(old')
    ensures var uid := Last(old', uuid).value.id;
      Kept(tag, UserTag(tag, uuid), uid, added, deleted) <==> Keeps(new', uuid, uid)
  {
    var uid := Last(old', uuid).value.id;
    var t := UserTag(tag, uuid);
    RetainedAt(tag, added, uuid);
    if Keeps(new', uuid, uid) {
      assert Spared(tag, t, added, deleted);
    } else if uuid !in Uuids(new') {
      assert uuid in Uuids(deleted);
      var d :| d in deleted && d.uuid == uuid;
      assert UserTag(tag, d.uuid) == t;
    } else {
      var u :| u in new' && u.uuid == uuid && u.id != uid;
      assert u in added && UserTag(tag, u.uuid) == t;
    }
  }

  /** The limiter holds what `AddLimiter` builds from this list. */
  ghost predicate Holds(l: Limiter.Limiter, users: seq<UserInfo>)
    reads l
  {
    && l.limits == Added(map[], l.tag, users) && l.uuidToUid == Numbered(map[], users)
  }

  /** The caches of a user survive a pull: the user is in no old list, or has kept id and limits. */
  ghost predicate CacheStays(tag: string, old': seq<UserInfo>, new': seq<UserInfo>, t: TagUuid) {
    t.tag == tag ==> !Dropped(ByUuid(old'), new', t.uuid)
  }

  lemma CachesAt<V>(
      cache: map<TagUuid, V>, tag: string, old': seq<UserInfo>, new': seq<UserInfo>, added: seq<UserInfo>,
      deleted: seq<UserInfo>, t: TagUuid)
    requires LimiterDiff(ByUuid(old'), new', added, deleted)
    ensures var left := Removed(cache, tag, deleted);
      (t in left <==> t in cache && CacheStays(tag, old', new', t)) && (t in left ==> left[t] == cache[t])
  {
    RemovedAt(cache, tag, deleted, t);
    assert t.uuid in Uuids(deleted) <==> Dropped(ByUuid(old'), new', t.uuid);
    if t.tag == tag && t.uuid in Uuids(deleted) {
      var d :| d in deleted && d.uuid == t.uuid;
      assert UserTag(tag, d.uuid) == t;
    }
  }

  /** The panel's device count of a user number stays: no old user with that number is dropped. */
  ghost predicate CountStays(old': seq<UserInfo>, new': seq<UserInfo>, uid: Uid) {
    forall uuid | Dropped(ByUuid(old'), new', uuid) :: ByUuid(old')[uuid].id != uid
  }

  lemma CountsAt(
      counts: map<Uid, int>, old': seq<UserInfo>, new': seq<UserInfo>, added: seq<UserInfo>, deleted: seq<UserInfo>,
      uid: Uid)
    requires LimiterDiff(ByUuid(old'), new', added, deleted)
    ensures var left := Forgotten(counts, deleted);
      (uid in left <==> uid in counts && CountStays(old', new', uid)) && (uid in left ==> left[uid] == counts[uid])
  {
    ForgottenAt(counts, deleted, uid);
    forall d | d in deleted ensures Dropped(ByUuid(old'), new', d.uuid) && d == ByUuid(old')[d.uuid] {
      assert d.uuid in Uuids(deleted);
    }
    forall uuid | Dropped(ByUuid(old'), new', uuid) ensures ByUuid(old')[uuid] in deleted {
      assert uuid in Uuids(deleted);
      var d :| d in deleted && d.uuid == uuid;
    }
  }

  /** What a pull leaves of the three caches. */
  ghost predicate CachesLeft(l: Limiter.Limiter, old': seq<UserInfo>, new': seq<UserInfo>,
                             speed: map<TagUuid, int>, online: map<TagUuid, set<Ip>>, alive: map<Uid, int>)
    reads l
  {
    && (forall t :: t in l.speedLimiter <==> t in speed && CacheStays(l.tag, old', new', t))
    && (forall t :: t in l.userOnlineIP <==> t in online && CacheStays(l.tag, old', new', t))
    && (forall uid :: uid in l.aliveList <==> uid in alive && CountStays(old', new', uid))
    && (forall t | t in l.speedLimiter && t in speed :: l.speedLimiter[t] == speed[t])
    && (forall t | t in l.userOnlineIP && t in online :: l.userOnlineIP[t] == online[t])
    && (forall uid | uid in l.aliveList && uid in alive :: l.aliveList[uid] == alive[uid])
  }

  /** `UpdateUser` with the diff. */
  method ApplyDiff(l: Limiter.Limiter, ghost old': seq<UserInfo>, ghost new': seq<UserInfo>, c: Changes)
    requires l.Valid() && Holds(l, old') && LimiterDiff(ByUuid(old'), new', c.limiterAdded, c.limiterDeleted)
    modifies l`limits, l`uuidToUid, l`onlineUsers, l`userOnlineIP, l`speedLimiter, l`aliveList
    ensures l.Valid() && Holds(l, new')
    ensures forall t :: t in l.onlineUsers <==>
              t in old(l.onlineUsers) && Keeps(new', t.uuid, old(l.onlineUsers)[t].uid)
    ensures forall t | t in l.onlineUsers :: l.onlineUsers[t] == old(l.onlineUsers)[t]
    ensures CachesLeft(l, old', new', old(l.speedLimiter), old(l.userOnlineIP), old(l.aliveList))
  {
    UpdateReachesNewTable(l.tag, old', new', c.limiterAdded, c.limiterDeleted);
    UpdateReachesNewNumbers(old', new', c.limiterAdded, c.limiterDeleted);
    KeptIffKeeps(l, old', new', c.limiterAdded, c.limiterDeleted);
    ghost var speed, online, alive := l.speedLimiter, l.userOnlineIP, l.aliveList;
    if |c.limiterAdded| > 0 || |c.limiterDeleted| > 0 {
      l.UpdateUser(c.limiterAdded, c.limiterDeleted);
    }
    forall t
      ensures t in l.speedLimiter <==> t in speed && CacheStays(l.tag, old', new', t)
      ensures t in l.userOnlineIP <==> t in online && CacheStays(l.tag, old', new', t)
      ensures t in l.speedLimiter && t in speed ==> l.speedLimiter[t] == speed[t]
      ensures t in l.userOnlineIP && t in online ==> l.userOnlineIP[t] == online[t]
    {
      CachesAt(speed, l.tag, old', new', c.limiterAdded, c.limiterDeleted, t);
      CachesAt(online, l.tag, old', new', c.limiterAdded, c.limiterDeleted, t);
    }
    forall uid
      ensures uid in l.aliveList <==> uid in alive && CountStays(old', new', uid)
      ensures uid in l.aliveList && uid in alive ==> l.aliveList[uid] == alive[uid]
    {
      CountsAt(alive, old', new', c.limiterAdded, c.limiterDeleted, uid);
    }
  }

  /**
   A pull of the user list: the diff is applied to a limiter that holds the list `old'`, unless the core
   fails to delete or to add users.  The result is the list the controller remembers, and the limiter
   always holds it.  After a pull that went through, the live connections of a user stay registered, under
   the same user object, exactly when the user is kept with the same id, and the caches of a user stay
   exactly when id and limits are unchanged.
   */
  method PullUsers(l: Limiter.Limiter, old': seq<UserInfo>, new': seq<UserInfo>, deletes: bool, adds: bool)
    returns (users: seq<UserInfo>, pulled: bool)
    requires l.Valid() && Holds(l, old')
    modifies l`limits, l`uuidToUid, l`onlineUsers, l`userOnlineIP, l`speedLimiter, l`aliveList
    ensures l.Valid() && Holds(l, users) && users == if pulled then new' else old'
    ensures Lists(l.limits, l.tag, users) && ListsNumbers(l.uuidToUid, users)
    ensures !pulled ==> unchanged(l)
    ensures deletes && adds ==> pulled
    ensures !deletes && !(Uuids(old') <= Uuids(new')) ==> !pulled
    ensures !adds && !(Uuids(new') <= Uuids(old')) ==> !pulled
    ensures pulled ==> forall t :: t in l.onlineUsers <==>
              t in old(l.onlineUsers) && Keeps(new', t.uuid, old(l.onlineUsers)[t].uid)
    ensures forall t | t in l.onlineUsers :: l.onlineUsers[t] == old(l.onlineUsers)[t]
    ensures pulled ==> CachesLeft(l, old', new', old(l.speedLimiter), old(l.userOnlineIP), old(l.aliveList))
  {
    var c := CompareUserList(old', new');
    AddedRewrites(map[], l.tag, old');
    AddedRewrites(map[], l.tag, new');
    NumberedLists(old');
    NumberedLists(new');
    if |c.deleted| > 0 && !deletes {
      return old', false;
    }
    if |c.added| > 0 && !adds {
      return old', false;
    }
    ApplyDiff(l, old', new', c);
    return new', true;
  }

  /** Which user objects of a limiter the diff keeps. */
  lemma KeptIffKeeps(
      l: Limiter.Limiter, old': seq<UserInfo>, new': seq<UserInfo>, added: seq<UserInfo>, deleted: seq<UserInfo>)
    requires l.Valid() && Holds(l, old') && LimiterDiff(ByUuid(old'), new', added, deleted)
    ensures forall t | t in l.onlineUsers ::
              Kept(l.tag, t, l.onlineUsers[t].uid, added, deleted) <==> Keeps(new', t.uuid, l.onlineUsers[t].uid)
  {
    forall t | t in l.onlineUsers
      ensures Kept(l.tag, t, l.onlineUsers[t].uid, added, deleted) <==> Keeps(new', t.uuid, l.onlineUsers[t].uid)
    {
      AddedAt(map[], l.tag, old', t);
      SurvivesExactlyIfKept(l.tag, old', new', added, deleted, t.uuid);
      assert t == UserTag(l.tag, t.uuid);
    }
  }
}
