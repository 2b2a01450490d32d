/** Users as the panel lists them, and the limit table built from such a list. */
module Users {
  import opened Identities

  datatype UserInfo = UserInfo(id: Uid, uuid: Uuid, speedLimit: int, deviceLimit: int)

  /** `UserLimitInfo` without the dynamic speed limit. */
  datatype UserLimit = UserLimit(uid: Uid, speedLimit: int, deviceLimit: int)

  /** The key a node's tag and a user's UUID make; one node has one tag. */
  datatype TagUuid = TagUuid(tag: string, uuid: Uuid)

  function UserTag(tag: string, uuid: Uuid): TagUuid {
    TagUuid(tag, uuid)
  }

  function LimitOf(u: UserInfo): UserLimit {
    UserLimit(u.id, u.speedLimit, u.deviceLimit)
  }

  /** The table after the users are stored into it one after the other. */
  function Added(table: map<TagUuid, UserLimit>, tag: string, users: seq<UserInfo>): map<TagUuid, UserLimit> {
    if users == [] then table
    else
      var n := |users| - 1;
      Added(table, tag, users[..n])[UserTag(tag, users[n].uuid) := LimitOf(users[n])]
  }

  function Numbered(table: map<Uuid, Uid>, users: seq<UserInfo>): map<Uuid, Uid> {
    if users == [] then table
    else
      var n := |users| - 1;
      Numbered(table, users[..n])[users[n].uuid := users[n].id]
  }

  /** The table after the users are deleted from it one after the other. */
  function Removed<V>(table: map<TagUuid, V>, tag: string, users: seq<UserInfo>): map<TagUuid, V> {
    if users == [] then table
    else
      var n := |users| - 1;
      Removed(table, tag, users[..n]) - {UserTag(tag, users[n].uuid)}
  }

  function Unnumbered(table: map<Uuid, Uid>, users: seq<UserInfo>): map<Uuid, Uid> {
    if users == [] then table
    else
      var n := |users| - 1;
      Unnumbered(table, users[..n]) - {users[n].uuid}
  }

  /** The panel's device counts after those of the users are deleted. */
  function Forgotten(counts: map<Uid, int>, users: seq<UserInfo>): map<Uid, int> {
    if users == [] then counts
    else
      var n := |users| - 1;
      Forgotten(counts, users[..n]) - {users[n].id}
  }

  /** The table after an update: all deletions first, then all additions. */
  function Updated(
      table: map<TagUuid, UserLimit>, tag: string, added: seq<UserInfo>, deleted: seq<UserInfo>)
    : map<TagUuid, UserLimit>
  {
    Added(Removed(table, tag, deleted), tag, added)
  }

  function Uuids(users: seq<UserInfo>): set<Uuid> {
    set u | u in users :: u.uuid
  }

  /** The id each tagged UUID is added with last. */
  function Retained(tag: string, added: seq<UserInfo>): map<TagUuid, Uid> {
    if added == [] then map[]
    else
      var n := |added| - 1;
      Retained(tag, added[..n])[UserTag(tag, added[n].uuid) := added[n].id]
  }

  /** No deletion drops what is registered under t: each one is followed by an addition of the same id. */
  predicate Spared(tag: string, t: TagUuid, added: seq<UserInfo>, deleted: seq<UserInfo>) {
    forall d | d in deleted && UserTag(tag, d.uuid) == t ::
      t in Retained(tag, added) && Retained(tag, added)[t] == d.id
  }

  /** No addition gives t another id. */
  predicate SameId(tag: string, t: TagUuid, uid: Uid, added: seq<UserInfo>) {
    forall a | a in added && UserTag(tag, a.uuid) == t :: a.id == uid
  }

  /** What is registered under t for user `uid` survives the update. */
  predicate Kept(tag: string, t: TagUuid, uid: Uid, added: seq<UserInfo>, deleted: seq<UserInfo>) {
    Spared(tag, t, added, deleted) && SameId(tag, t, uid, added)
  }

  lemma {:induction false} AddedUid(
      table: map<TagUuid, UserLimit>, tag: string, t: TagUuid, uid: Uid, added: seq<UserInfo>)
    requires SameId(tag, t, uid, added)
    requires t in Retained(tag, added) || (t in table && table[t].uid == uid)
    ensures t in Added(table, tag, added) && Added(table, tag, added)[t].uid == uid
  {
    if added != [] {
      var n := |added| - 1;
      if UserTag(tag, added[n].uuid) != t {
        AddedUid(table, tag, t, uid, added[..n]);
      }
    }
  }

  lemma OneMoreRemoved<V>(table: map<TagUuid, V>, tag: string, users: seq<UserInfo>, i: nat)
    requires i < |users|
    ensures Removed(table, tag, users[..i + 1]) == Removed(table, tag, users[..i]) - {UserTag(tag, users[i].uuid)}
  {
    assert users[..i + 1][..i] == users[..i];
  }

  lemma OneMoreForgotten(numbers: map<Uuid, Uid>, counts: map<Uid, int>, users: seq<UserInfo>, i: nat)
    requires i < |users|
    ensures Unnumbered(numbers, users[..i + 1]) == Unnumbered(numbers, users[..i]) - {users[i].uuid}
    ensures Forgotten(counts, users[..i + 1]) == Forgotten(counts, users[..i]) - {users[i].id}
  {
    assert users[..i + 1][..i] == users[..i];
  }

  lemma {:induction false} RemovedAt<V>(table: map<TagUuid, V>, tag: string, users: seq<UserInfo>, t: TagUuid)
    ensures var left := Removed(table, tag, users);
      && (t in left <==> t in table && forall u | u in users :: UserTag(tag, u.uuid) != t)
      && (t in left ==> left[t] == table[t])
  {
    if users != [] {
      var n := |users| - 1;
      RemovedAt(table, tag, users[..n], t);
      assert users == users[..n] + [users[n]];
    }
  }

  lemma {:induction false} ForgottenAt(counts: map<Uid, int>, users: seq<UserInfo>, uid: Uid)
    ensures var left := Forgotten(counts, users);
      && (uid in left <==> uid in counts && forall u | u in users :: u.id != uid)
      && (uid in left ==> left[uid] == counts[uid])
  {
    if users != [] {
      var n := |users| - 1;
      ForgottenAt(counts, users[..n], uid);
      assert users == users[..n] + [users[n]];
    }
  }

  /** A registered user object that is kept still has an entry with its uid. */
  lemma KeptStaysListed(
      table: map<TagUuid, UserLimit>, tag: string, t: TagUuid, uid: Uid, added: seq<UserInfo>,
      deleted: seq<UserInfo>)
    requires t in table && table[t].uid == uid && Kept(tag, t, uid, added, deleted)
    ensures t in Updated(table, tag, added, deleted) && Updated(table, tag, added, deleted)[t].uid == uid
  {
    RemovedAt(table, tag, deleted, t);
    AddedUid(Removed(table, tag, deleted), tag, t, uid, added);
  }

  // ----- what the tables hold, field by field

  /** Some user of the list has this key. */
  predicate Named(tag: string, users: seq<UserInfo>, t: TagUuid) {
    exists i :: 0 <= i < |users| && t == TagUuid(tag, users[i].uuid)
  }

  /** No later user of the list has the same UUID. */
  predicate IsLast(users: seq<UserInfo>, i: nat)
    requires i < |users|
  {
    forall j | i < j < |users| :: users[j].uuid != users[i].uuid
  }

  /** The table holds the user's number and limits. */
  predicate Stores(table: map<TagUuid, UserLimit>, tag: string, u: UserInfo) {
    var t := TagUuid(tag, u.uuid);
    t in table && table[t].uid == u.id && table[t].speedLimit == u.speedLimit && table[t].deviceLimit == u.deviceLimit
  }

  /**
   A table after some users were deleted and others added: the last user added under each key is stored,
   the other deleted ones are gone, and all others are as they were.
   */
  ghost predicate Rewritten(
      before: map<TagUuid, UserLimit>, after: map<TagUuid, UserLimit>, tag: string, added: seq<UserInfo>,
      deleted: seq<UserInfo>)
  {
    && (forall i | 0 <= i < |added| && IsLast(added, i) :: Stores(after, tag, added[i]))
    && (forall t | !Named(tag, added, t) ::
          (t in after <==> t in before && !Named(tag, deleted, t)) && (t in after ==> after[t] == before[t]))
  }

  /** The table of one list: the last user under each UUID, and nothing else. */
  ghost predicate Lists(table: map<TagUuid, UserLimit>, tag: string, users: seq<UserInfo>) {
    Rewritten(map[], table, tag, users, [])
  }

  lemma LastBefore(users: seq<UserInfo>, i: nat)
    requires i < |users| - 1 && IsLast(users, i)
    ensures IsLast(users[..|users| - 1], i) && users[|users| - 1].uuid != users[i].uuid
  {
  }

  lemma NamedSnoc(tag: string, users: seq<UserInfo>, t: TagUuid)
    requires users != []
    ensures var n := |users| - 1;
      Named(tag, users, t) <==> Named(tag, users[..n], t) || t == TagUuid(tag, users[n].uuid)
  {
    var n := |users| - 1;
    if i :| 0 <= i < n && t == TagUuid(tag, users[i].uuid) {
      assert users[..n][i] == users[i];
    }
  }

  /** Storing one more user under a key. */
  lemma StoredOneMore(table: map<TagUuid, UserLimit>, tag: string, v: UserInfo)
    ensures var after := table[UserTag(tag, v.uuid) := LimitOf(v)];
      Stores(after, tag, v) && forall u: UserInfo | u.uuid != v.uuid && Stores(table, tag, u) :: Stores(after, tag, u)
  {
  }

  lemma {:induction false} AddedRewrites(table: map<TagUuid, UserLimit>, tag: string, users: seq<UserInfo>)
    ensures Rewritten(table, Added(table, tag, users), tag, users, [])
  {
    if users != [] {
      var n := |users| - 1;
      var front, before, after := users[..n], Added(table, tag, users[..n]), Added(table, tag, users);
      AddedRewrites(table, tag, front);
      StoredOneMore(before, tag, users[n]);
      forall i | 0 <= i < n && IsLast(users, i) ensures Stores(after, tag, users[i]) {
        LastBefore(users, i);
        assert Stores(before, tag, front[i]);
      }
      forall t | !Named(tag, users, t)
        ensures (t in after <==> t in table) && (t in after ==> after[t] == table[t])
      {
        NamedSnoc(tag, users, t);
      }
    }
  }

  lemma UpdatedRewrites(table: map<TagUuid, UserLimit>, tag: string, added: seq<UserInfo>, deleted: seq<UserInfo>)
    ensures Rewritten(table, Updated(table, tag, added, deleted), tag, added, deleted)
  {
    var left := Removed(table, tag, deleted);
    AddedRewrites(left, tag, added);
    forall t ensures (t in left <==> t in table && !Named(tag, deleted, t)) && (t in left ==> left[t] == table[t]) {
      RemovedAt(table, tag, deleted, t);
      if d :| d in deleted && UserTag(tag, d.uuid) == t {
        var i :| 0 <= i < |deleted| && deleted[i] == d;
      }
    }
  }

  /** Every UUID of the list has the number of the last user listed under it, and no other UUID has one. */
  ghost predicate ListsNumbers(numbers: map<Uuid, Uid>, users: seq<UserInfo>) {
    && (forall i | 0 <= i < |users| && IsLast(users, i) ::
          users[i].uuid in numbers && numbers[users[i].uuid] == users[i].id)
    && (forall uuid | uuid in numbers :: uuid in Uuids(users))
  }

  lemma {:induction false} NumberedLists(users: seq<UserInfo>)
    ensures ListsNumbers(Numbered(map[], users), users)
  {
    if users != [] {
      var n := |users| - 1;
      NumberedLists(users[..n]);
      assert users == users[..n] + [users[n]];
      forall i | 0 <= i < n && IsLast(users, i)
        ensures users[i].uuid in Numbered(map[], users) && Numbered(map[], users)[users[i].uuid] == users[i].id
      {
        LastBefore(users, i);
        assert users[..n][i] == users[i];
      }
    }
  }
}
