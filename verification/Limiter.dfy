/**
 The limiter's user table and its registry of live connections (limiter/limiter.go,
 limiter/online.go).

 Every accepted connection gets a close callback that owns one registration: it captured the
 user object and the ip it was counted under, and may run long after that user object has been
 replaced.  The callback is the class `Registration`; `open` is the ghost set of registrations
 that have not been closed.  Each method is one section under `onlineMu`, so what `Valid()`
 says holds in every state between two such sections, in whatever order they come.
 */
module Limiter {
  import opened Common
  import opened Identities
  import opened Users

  class OnlineUser {
    const uid: Uid
    var ips: map<Ip, nat>
    ghost const home: TagUuid               // the only key this object is ever stored under
    ghost var holders: set<Registration>    // the registrations counted here

    constructor (uid: Uid, ghost home: TagUuid)
      ensures Books(this, ips, holders) && this.uid == uid && this.home == home && holders == {}
    {
      this.uid, this.home := uid, home;
      ips, holders := map[], {};
    }

    method Count(r: Registration)
      requires Books(this, ips, holders) && r !in holders && r.user == this
      modifies `ips, `holders
      ensures Books(this, ips, holders) && holders == old(holders) + {r}
    {
      ips := ips[r.ip := (if r.ip in ips then ips[r.ip] else 0) + 1];
      holders := holders + {r};
      LedgerWithout(holders, r);
      assert holders - {r} == old(holders);
    }

    method Uncount(r: Registration)
      requires Books(this, ips, holders) && r in holders
      modifies `ips, `holders
      ensures Books(this, ips, holders) && holders == old(holders) - {r}
    {
      LedgerWithout(holders, r);
      LedgerCounts(holders - {r}, r.ip);
      ips := ips[r.ip := ips[r.ip] - 1];
      if ips[r.ip] == 0 {
        ips := ips - {r.ip};
      }
      holders := holders - {r};
    }

    method IsIdle() returns (idle: bool)
      requires Books(this, ips, holders)
      ensures idle <==> holders == {}
    {
      idle := |ips| == 0;
      if r :| r in holders {
        LedgerCounts(holders, r.ip);
      }
    }
  }

  /** A close callback: what `TrackConnection` captured, and whether sync.OnceFunc has run it. */
  class Registration {
    const tagUUID: TagUuid
    const user: OnlineUser
    const ip: Ip
    var released: bool

    constructor (tagUUID: TagUuid, user: OnlineUser, ip: Ip)
      ensures this.tagUUID == tagUUID && this.user == user && this.ip == ip && !released
    {
      this.tagUUID, this.user, this.ip, released := tagUUID, user, ip, false;
    }
  }

  /** The registrations that stand for one ip. */
  ghost function For(holders: set<Registration>, ip: Ip): set<Registration> {
    set r | r in holders && r.ip == ip
  }

  function Bumped(ips: map<Ip, nat>, ip: Ip): map<Ip, nat> {
    ips[ip := (if ip in ips then ips[ip] else 0) + 1]
  }

  lemma BumpsCommute(ips: map<Ip, nat>, a: Ip, b: Ip)
    ensures Bumped(Bumped(ips, a), b) == Bumped(Bumped(ips, b), a)
  {
  }

  /** The counts that a set of registrations makes. */
  ghost function Ledger(holders: set<Registration>): map<Ip, nat> {
    if holders == {} then map[]
    else
      var r :| r in holders;
      Bumped(Ledger(holders - {r}), r.ip)
  }

  /** It does not matter in which order the registrations are counted. */
  lemma {:induction false} LedgerWithout(holders: set<Registration>, r: Registration)
    requires r in holders
    ensures Ledger(holders) == Bumped(Ledger(holders - {r}), r.ip)
    decreases holders
  {
    var o :| o in holders && Ledger(holders) == Bumped(Ledger(holders - {o}), o.ip);
    if o != r {
      LedgerWithout(holders - {o}, r);
      LedgerWithout(holders - {r}, o);
      assert holders - {o} - {r} == holders - {r} - {o};
      BumpsCommute(Ledger(holders - {o} - {r}), r.ip, o.ip);
    }
  }

  /** Each count is the number of registrations that stand for the ip, and none is zero. */
  lemma {:induction false} LedgerCounts(holders: set<Registration>, ip: Ip)
    ensures ip in Ledger(holders) <==> exists r :: r in holders && r.ip == ip
    ensures ip in Ledger(holders) ==> Ledger(holders)[ip] == |For(holders, ip)| > 0
    decreases holders
  {
    if r :| r in holders {
      LedgerWithout(holders, r);
      LedgerCounts(holders - {r}, ip);
      var fewer := For(holders - {r}, ip);
      if r.ip == ip {
        assert For(holders, ip) == fewer + {r};
        assert ip !in Ledger(holders - {r}) ==> fewer == {};
      } else {
        assert For(holders, ip) == fewer;
      }
    }
  }

  /** A user object's counts are right and the holders are registrations that captured it. */
  ghost predicate Books(user: OnlineUser, ips: map<Ip, nat>, holders: set<Registration>) {
    ips == Ledger(holders) && forall r | r in holders :: r.user == user
  }

  class Limiter {
    const tag: string
    var limits: map<TagUuid, UserLimit>          // UserLimitInfo, by tagged UUID
    var uuidToUid: map<Uuid, Uid>
    var onlineUsers: map<TagUuid, OnlineUser>
    var userOnlineIP: map<TagUuid, set<Ip>>      // the addresses admitted in this cycle
    var speedLimiter: map<TagUuid, int>          // the rate of each user's bucket
    var aliveList: map<Uid, int>                 // the devices the panel counts
    ghost var issued: set<Registration>         // every callback ever returned
    ghost var open: set<Registration>           // those not closed yet

    /**
     `Valid()`, but the user object of one tag may have no counts, and may still count the registrations in
     `closing`.
     */
    ghost predicate ValidExcept(tagUUID: Option<TagUuid>, closing: set<Registration>)
      reads this, onlineUsers.Values, issued
    {
      && open <= issued
      && (forall r | r in issued :: (r.released <==> r !in open) && r.user.home == r.tagUUID)
      && (forall t | t in onlineUsers :: onlineUsers[t].home == t && t in limits && limits[t].uid == onlineUsers[t].uid)
      && (forall t | t in onlineUsers ::
            && Books(onlineUsers[t], onlineUsers[t].ips, onlineUsers[t].holders)
            && onlineUsers[t].holders <= open + closing
            && (Some(t) != tagUUID ==> onlineUsers[t].holders != {}))
      && (forall r | r in open && Current(r) :: r in r.user.holders)
    }

    ghost predicate Valid()
      reads this, onlineUsers.Values, issued
    {
      ValidExcept(None, {})
    }

    /** The user object r captured is still the registered one. */
    ghost predicate Current(r: Registration)
      reads this
    {
      r.tagUUID in onlineUsers && onlineUsers[r.tagUUID] == r.user
    }

    /** r is open and counts. */
    ghost predicate Live(r: Registration)
      reads this
    {
      r in open && Current(r)
    }

    /** `AddLimiter`. */
    constructor (tag: string, users: seq<UserInfo>, alive: map<Uid, int>)
      ensures Valid() && issued == {} && onlineUsers == map[] && this.tag == tag
      ensures userOnlineIP == map[] && speedLimiter == map[]
      ensures aliveList == map uid | uid in alive && alive[uid] > 0 :: alive[uid]
      ensures limits == Added(map[], tag, users) && uuidToUid == Numbered(map[], users)
      ensures Lists(limits, tag, users) && ListsNumbers(uuidToUid, users)
    {
      this.tag := tag;
      var table, numbers := map[], map[];
      for i := 0 to |users|
        invariant table == Added(map[], tag, users[..i]) && numbers == Numbered(map[], users[..i])
      {
        assert users[..i + 1][..i] == users[..i];
        numbers := numbers[users[i].uuid := users[i].id];
        table := table[UserTag(tag, users[i].uuid) := LimitOf(users[i])];
      }
      assert users[..|users|] == users;
      AddedRewrites(map[], tag, users);
      NumberedLists(users);
      limits, uuidToUid, onlineUsers, issued, open := table, numbers, map[], {}, {};
      userOnlineIP, speedLimiter := map[], map[];
      aliveList := map uid | uid in alive && alive[uid] > 0 :: alive[uid];
    }

    /**
     `TrackConnection`.  `addr` is the parsed, unmapped address, or `None` if it does not parse.
     A null result is the callback that does nothing.
     */
    method TrackConnection(tagUUID: TagUuid, addr: Option<Ip>) returns (r: Registration?)
      requires Valid()
      modifies this`onlineUsers, this`issued, this`open, onlineUsers.Values
      ensures Valid()
      ensures r == null <==> addr.None? || tagUUID !in limits
      ensures r == null ==> unchanged(this) && unchanged(old(onlineUsers.Values))
      ensures r != null ==>
        && fresh(r) && r.tagUUID == tagUUID && Some(r.ip) == addr && r.user.uid == limits[tagUUID].uid
        && issued == old(issued) + {r} && open == old(open) + {r}
        && onlineUsers == old(onlineUsers)[tagUUID := r.user]
        && (tagUUID in old(onlineUsers) ==> r.user == old(onlineUsers)[tagUUID])
    {
      if addr.None? {
        return null;
      }
      var ip := addr.value;
      if tagUUID !in limits {
        return null;
      }
      var user := RegisteredUser(tagUUID);
      r := Enroll(tagUUID, user, ip);
    }

    /** The user object a new connection of a listed user is counted under. */
    method RegisteredUser(tagUUID: TagUuid) returns (user: OnlineUser)
      requires Valid() && tagUUID in limits
      modifies this`onlineUsers
      ensures ValidExcept(Some(tagUUID), {})
      ensures onlineUsers == old(onlineUsers)[tagUUID := user] && user.uid == limits[tagUUID].uid
      ensures if tagUUID in old(onlineUsers) then user == old(onlineUsers)[tagUUID] else fresh(user)
    {
      var uid := limits[tagUUID].uid;
      if tagUUID in onlineUsers && onlineUsers[tagUUID].uid == uid {
        user := onlineUsers[tagUUID];
      } else {
        user := new OnlineUser(uid, tagUUID);
        onlineUsers := onlineUsers[tagUUID := user];
      }
    }

    method Enroll(tagUUID: TagUuid, user: OnlineUser, ip: Ip) returns (r: Registration)
      requires ValidExcept(Some(tagUUID), {}) && tagUUID in onlineUsers && onlineUsers[tagUUID] == user
      modifies this`issued, this`open, user`ips, user`holders
      ensures Valid()
      ensures fresh(r) && r.tagUUID == tagUUID && r.ip == ip && r.user == user
      ensures issued == old(issued) + {r} && open == old(open) + {r}
    {
      r := new Registration(tagUUID, user, ip);
      CountIn(r);
      HandOut(r);
    }

    /** The callback is returned: from now on it is open. */
    ghost method HandOut(r: Registration)
      requires ValidExcept(None, {r}) && r in r.user.holders && r.user.home == r.tagUUID && !r.released
      modifies `issued, `open
      ensures Valid() && issued == old(issued) + {r} && open == old(open) + {r}
    {
      issued, open := issued + {r}, open + {r};
    }

    method CountIn(r: Registration)
      requires ValidExcept(Some(r.tagUUID), {}) && Current(r) && r !in issued
      modifies r.user`ips, r.user`holders
      ensures ValidExcept(None, {r}) && r in r.user.holders
    {
      r.user.Count(r);
    }

    /** The open registrations that captured one user object and stand for one ip. */
    ghost function Holders(user: OnlineUser, ip: Ip): set<Registration>
      reads this
    {
      set r | r in open && r.user == user && r.ip == ip
    }

    /** The stored count of a registered user object is the number of open registrations that captured it. */
    lemma CountsAreOpenRegistrations(t: TagUuid, ip: Ip)
      requires Valid() && t in onlineUsers
      ensures ip in onlineUsers[t].ips <==> Holders(onlineUsers[t], ip) != {}
      ensures ip in onlineUsers[t].ips ==> onlineUsers[t].ips[ip] == |Holders(onlineUsers[t], ip)|
    {
      var user := onlineUsers[t];
      assert Holders(user, ip) == For(user.holders, ip);
      LedgerCounts(user.holders, ip);
    }

    /**
     The close callback.  A second run does nothing, and a callback whose user object has been
     replaced or dropped touches nothing but its own flag.
     */
    method Close(r: Registration)
      requires Valid() && r in issued
      modifies this`onlineUsers, this`open, r`released, r.user`ips, r.user`holders
      ensures Valid() && open == old(open) - {r}
      ensures old(r.released) ==> unchanged(this) && unchanged(r.user)
      ensures !old(Live(r)) ==> onlineUsers == old(onlineUsers) && unchanged(r.user)
      ensures old(Live(r)) ==>
        onlineUsers ==
          if exists o :: o in open && o.user == r.user then old(onlineUsers) else old(onlineUsers) - {r.tagUUID}
    {
      if r.released {
        return;
      }
      Release(r);
      if r.tagUUID !in onlineUsers || onlineUsers[r.tagUUID] != r.user {
        return;
      }
      PayBack(r);
      DropIfEmpty(r.tagUUID);
    }

    /** sync.OnceFunc has started the callback. */
    method Release(r: Registration)
      requires Valid() && r in open
      modifies this`open, r`released
      ensures open == old(open) - {r}
      ensures ValidExcept(None, if Current(r) then {r} else {})
    {
      r.released, open := true, open - {r};
    }

    method PayBack(r: Registration)
      requires ValidExcept(None, {r}) && r !in open && r in r.user.holders && Current(r)
      modifies r.user`ips, r.user`holders
      ensures ValidExcept(Some(r.tagUUID), {})
    {
      r.user.Uncount(r);
    }

    method DropIfEmpty(tagUUID: TagUuid)
      requires ValidExcept(Some(tagUUID), {}) && tagUUID in onlineUsers
      modifies `onlineUsers
      ensures Valid()
      ensures onlineUsers ==
                if old(onlineUsers)[tagUUID].holders != {} then old(onlineUsers) else old(onlineUsers) - {tagUUID}
    {
      var idle := onlineUsers[tagUUID].IsIdle();
      if idle {
        onlineUsers := onlineUsers - {tagUUID};
      }
    }

    /** A device is shown when a live registration stands for it. */
    ghost predicate Shown(d: OnlineDevice)
      reads this, onlineUsers.Values
    {
      exists r :: r in open && Live(r) && r.user.uid == d.uid && r.ip == d.ip
    }

    /** `onlineDevicesLocked`, in whatever order the maps are walked. */
    method OnlineDevices() returns (devices: seq<OnlineDevice>)
      requires Valid()
      ensures Distinct(devices)
      ensures forall d :: d in devices <==> Shown(d)
    {
      ListedIffShown();
      devices := DevicesIn(Rows());
    }

    /** The uid and the counted ips of every registered user object. */
    function Rows(): map<TagUuid, (Uid, set<Ip>)>
      reads this, onlineUsers.Values
    {
      map t | t in onlineUsers :: (onlineUsers[t].uid, onlineUsers[t].ips.Keys)
    }

    lemma ListedIffShown()
      requires Valid()
      ensures forall d :: (exists t :: Listed(Rows(), t, d)) <==> Shown(d)
    {
      forall d, t | Listed(Rows(), t, d) ensures Shown(d) {
        CountsAreOpenRegistrations(t, d.ip);
        var r :| r in Holders(onlineUsers[t], d.ip);
        assert Live(r);
      }
      forall d | Shown(d) ensures exists t :: Listed(Rows(), t, d) {
        var r :| r in open && Live(r) && r.user.uid == d.uid && r.ip == d.ip;
        CountsAreOpenRegistrations(r.tagUUID, d.ip);
        assert r in Holders(r.user, d.ip) && Listed(Rows(), r.tagUUID, d);
      }
    }

    /** The devices shown whose address is not exempt. */
    ghost predicate Counted(devices: set<OnlineDevice>, exempt: Ip -> bool)
      reads this, onlineUsers.Values
    {
      forall d :: d in devices <==> Shown(d) && !exempt(d.ip)
    }

    /** `CountOnlineIP`: the number of those. */
    method CountOnlineIP(exempt: Ip -> bool) returns (count: nat)
      requires Valid()
      ensures exists counted :: Counted(counted, exempt) && count == |counted|
    {
      var devices := OnlineDevices();
      count := 0;
      ghost var counted := {};
      for i := 0 to |devices|
        invariant forall d :: d in counted <==> d in devices[..i] && !exempt(d.ip)
        invariant count == |counted|
      {
        if !exempt(devices[i].ip) {
          count := count + 1;
          counted := counted + {devices[i]};
        }
      }
      assert Counted(counted, exempt);
    }

    /**
     `UpdateUser`: the limit table is rewritten, and a registered user object stays exactly when
     `Kept` says so.
     */
    method UpdateUser(added: seq<UserInfo>, deleted: seq<UserInfo>)
      requires Valid()
      modifies this`limits, this`uuidToUid, this`onlineUsers, this`userOnlineIP, this`speedLimiter, this`aliveList
      ensures Valid()
      ensures limits == Updated(old(limits), tag, added, deleted)
      ensures Rewritten(old(limits), limits, tag, added, deleted)
      ensures uuidToUid == Numbered(Unnumbered(old(uuidToUid), deleted), added)
      ensures userOnlineIP == Removed(old(userOnlineIP), tag, deleted)
      ensures speedLimiter == Removed(old(speedLimiter), tag, deleted)
      ensures aliveList == Forgotten(old(aliveList), deleted)
      ensures forall t :: t in onlineUsers <==>
                t in old(onlineUsers) && Kept(tag, t, old(onlineUsers)[t].uid, added, deleted)
      ensures forall t | t in onlineUsers :: onlineUsers[t] == old(onlineUsers)[t]
    {
      RewriteTables(added, deleted);
      UpdatedRewrites(old(limits), tag, added, deleted);
      forall t | t in onlineUsers ensures t in limits && limits[t].uid == onlineUsers[t].uid {
        KeptStaysListed(old(limits), tag, t, onlineUsers[t].uid, added, deleted);
      }
    }

    /** The three loops of `UpdateUser`. */
    method RewriteTables(added: seq<UserInfo>, deleted: seq<UserInfo>)
      modifies this`limits, this`uuidToUid, this`onlineUsers, this`userOnlineIP, this`speedLimiter, this`aliveList
      ensures limits == Updated(old(limits), tag, added, deleted)
      ensures uuidToUid == Numbered(Unnumbered(old(uuidToUid), deleted), added)
      ensures userOnlineIP == Removed(old(userOnlineIP), tag, deleted)
      ensures speedLimiter == Removed(old(speedLimiter), tag, deleted)
      ensures aliveList == Forgotten(old(aliveList), deleted)
      ensures forall t :: t in onlineUsers <==>
                t in old(onlineUsers) && Kept(tag, t, old(onlineUsers)[t].uid, added, deleted)
      ensures forall t | t in onlineUsers :: onlineUsers[t] == old(onlineUsers)[t]
    {
      var retained := RetainedIds(tag, added);
      DropUsers(retained, deleted);
      StoreUsers(added);
      KeptOnline(old(onlineUsers), tag, added, deleted);
    }

    /** The loop over `deleted`. */
    method DropUsers(retained: map<TagUuid, Uid>, deleted: seq<UserInfo>)
      modifies this`limits, this`uuidToUid, this`onlineUsers, this`userOnlineIP, this`speedLimiter, this`aliveList
      ensures limits == Removed(old(limits), tag, deleted)
      ensures uuidToUid == Unnumbered(old(uuidToUid), deleted)
      ensures userOnlineIP == Removed(old(userOnlineIP), tag, deleted)
      ensures speedLimiter == Removed(old(speedLimiter), tag, deleted)
      ensures aliveList == Forgotten(old(aliveList), deleted)
      ensures onlineUsers == SparedOnline(old(onlineUsers), tag, retained, deleted)
    {
      for i := 0 to |deleted|
        invariant limits == Removed(old(limits), tag, deleted[..i])
        invariant uuidToUid == Unnumbered(old(uuidToUid), deleted[..i])
        invariant userOnlineIP == Removed(old(userOnlineIP), tag, deleted[..i])
        invariant speedLimiter == Removed(old(speedLimiter), tag, deleted[..i])
        invariant aliveList == Forgotten(old(aliveList), deleted[..i])
        invariant onlineUsers == SparedOnline(old(onlineUsers), tag, retained, deleted[..i])
      {
        OneMoreRemoved(old(limits), tag, deleted, i);
        OneMoreRemoved(old(userOnlineIP), tag, deleted, i);
        OneMoreRemoved(old(speedLimiter), tag, deleted, i);
        OneMoreForgotten(old(uuidToUid), old(aliveList), deleted, i);
        OneMoreSpared(old(onlineUsers), tag, retained, deleted, i);
        DropUser(retained, deleted[i]);
      }
      assert deleted[..|deleted|] == deleted;
    }

    /** The body of that loop. */
    method DropUser(retained: map<TagUuid, Uid>, user: UserInfo)
      modifies this`limits, this`uuidToUid, this`onlineUsers, this`userOnlineIP, this`speedLimiter, this`aliveList
      ensures var t := UserTag(tag, user.uuid);
        && limits == old(limits) - {t}
        && userOnlineIP == old(userOnlineIP) - {t} && speedLimiter == old(speedLimiter) - {t}
        && uuidToUid == old(uuidToUid) - {user.uuid} && aliveList == old(aliveList) - {user.id}
        && onlineUsers == SparedBy(old(onlineUsers), tag, retained, user)
    {
      var tagUUID := UserTag(tag, user.uuid);
      if tagUUID !in retained || retained[tagUUID] != user.id {
        onlineUsers := onlineUsers - {tagUUID};
      }
      limits := limits - {tagUUID};
      userOnlineIP := userOnlineIP - {tagUUID};
      speedLimiter := speedLimiter - {tagUUID};
      uuidToUid := uuidToUid - {user.uuid};
      aliveList := aliveList - {user.id};
    }

    /** The loop over `added`. */
    method StoreUsers(added: seq<UserInfo>)
      modifies this`limits, this`uuidToUid, this`onlineUsers
      ensures limits == Added(old(limits), tag, added)
      ensures uuidToUid == Numbered(old(uuidToUid), added)
      ensures onlineUsers == MatchingOnline(old(onlineUsers), tag, added)
    {
      for i := 0 to |added|
        invariant limits == Added(old(limits), tag, added[..i])
        invariant uuidToUid == Numbered(old(uuidToUid), added[..i])
        invariant onlineUsers == MatchingOnline(old(onlineUsers), tag, added[..i])
      {
        var tagUUID := UserTag(tag, added[i].uuid);
        assert added[..i + 1][..i] == added[..i];
        if tagUUID in onlineUsers && onlineUsers[tagUUID].uid != added[i].id {
          onlineUsers := onlineUsers - {tagUUID};
        }
        limits := limits[tagUUID := LimitOf(added[i])];
        uuidToUid := uuidToUid[added[i].uuid := added[i].id];
      }
      assert added[..|added|] == added;
    }
  }

  /** The user objects left by one deletion. */
  ghost function SparedBy(online: map<TagUuid, OnlineUser>, tag: string, retained: map<TagUuid, Uid>, user: UserInfo)
    : map<TagUuid, OnlineUser>
  {
    var t := UserTag(tag, user.uuid);
    if t !in retained || retained[t] != user.id then online - {t} else online
  }

  /** The user objects left by the loop over `deleted`. */
  ghost function SparedOnline(
      online: map<TagUuid, OnlineUser>, tag: string, retained: map<TagUuid, Uid>, deleted: seq<UserInfo>)
    : map<TagUuid, OnlineUser>
  {
    if deleted == [] then online
    else
      var n := |deleted| - 1;
      SparedBy(SparedOnline(online, tag, retained, deleted[..n]), tag, retained, deleted[n])
  }

  lemma OneMoreSpared(
      online: map<TagUuid, OnlineUser>, tag: string, retained: map<TagUuid, Uid>, deleted: seq<UserInfo>, i: nat)
    requires i < |deleted|
    ensures SparedOnline(online, tag, retained, deleted[..i + 1]) ==
              SparedBy(SparedOnline(online, tag, retained, deleted[..i]), tag, retained, deleted[i])
  {
    assert deleted[..i + 1][..i] == deleted[..i];
  }

  /** The user objects left by the loop over `added`. */
  ghost function MatchingOnline(
      online: map<TagUuid, OnlineUser>, tag: string, added: seq<UserInfo>)
    : map<TagUuid, OnlineUser>
  {
    if added == [] then online
    else
      var n := |added| - 1;
      var t := UserTag(tag, added[n].uuid);
      var left := MatchingOnline(online, tag, added[..n]);
      if t in left && left[t].uid != added[n].id then left - {t} else left
  }

  lemma {:induction false} SparedOnlineAt(
      online: map<TagUuid, OnlineUser>, tag: string, retained: map<TagUuid, Uid>, deleted: seq<UserInfo>, t: TagUuid)
    ensures var left := SparedOnline(online, tag, retained, deleted);
      && (t in left <==>
          t in online && forall d | d in deleted && UserTag(tag, d.uuid) == t :: t in retained && retained[t] == d.id)
      && (t in left ==> left[t] == online[t])
  {
    if deleted != [] {
      var n := |deleted| - 1;
      SparedOnlineAt(online, tag, retained, deleted[..n], t);
      assert deleted == deleted[..n] + [deleted[n]];
    }
  }

  lemma {:induction false} MatchingOnlineAt(
      online: map<TagUuid, OnlineUser>, tag: string, added: seq<UserInfo>, t: TagUuid)
    ensures var left := MatchingOnline(online, tag, added);
      && (t in left <==> t in online && SameId(tag, t, online[t].uid, added))
      && (t in left ==> left[t] == online[t])
  {
    if added != [] {
      var n := |added| - 1;
      MatchingOnlineAt(online, tag, added[..n], t);
      assert added == added[..n] + [added[n]];
    }
  }

  /** Both loops together leave exactly the user objects that are kept. */
  lemma KeptOnline(online: map<TagUuid, OnlineUser>, tag: string, added: seq<UserInfo>, deleted: seq<UserInfo>)
    ensures var left := MatchingOnline(SparedOnline(online, tag, Retained(tag, added), deleted), tag, added);
      && (forall t :: t in left <==> t in online && Kept(tag, t, online[t].uid, added, deleted))
      && (forall t | t in left :: left[t] == online[t])
  {
    var spared := SparedOnline(online, tag, Retained(tag, added), deleted);
    var left := MatchingOnline(spared, tag, added);
    forall t
      ensures t in left <==> t in online && Kept(tag, t, online[t].uid, added, deleted)
      ensures t in left ==> left[t] == online[t]
    {
      SparedOnlineAt(online, tag, Retained(tag, added), deleted, t);
      MatchingOnlineAt(spared, tag, added, t);
    }
  }

  /** The first loop of `UpdateUser`. */
  method RetainedIds(tag: string, added: seq<UserInfo>) returns (retained: map<TagUuid, Uid>)
    ensures retained == Retained(tag, added)
  {
    retained := map[];
    for i := 0 to |added|
      invariant retained == Retained(tag, added[..i])
    {
      assert added[..i + 1][..i] == added[..i];
      retained := retained[UserTag(tag, added[i].uuid) := added[i].id];
    }
    assert added[..|added|] == added;
  }

  ghost predicate Distinct<T>(s: seq<T>) {
    forall i, j | 0 <= i < j < |s| :: s[i] != s[j]
  }

  ghost predicate Listed(rows: map<TagUuid, (Uid, set<Ip>)>, t: TagUuid, d: OnlineDevice) {
    t in rows && rows[t].0 == d.uid && d.ip in rows[t].1
  }

  /** The outer loop of `onlineDevicesLocked`. */
  method DevicesIn(rows: map<TagUuid, (Uid, set<Ip>)>) returns (devices: seq<OnlineDevice>)
    ensures Distinct(devices)
    ensures forall d :: d in devices <==> exists t :: Listed(rows, t, d)
  {
    devices := [];
    var seen := {};
    var tags := rows.Keys;
    while tags != {}
      invariant tags <= rows.Keys
      invariant Distinct(devices) && (forall d :: d in devices <==> d in seen)
      invariant forall d | d in seen :: exists t :: Listed(rows, t, d)
      invariant forall t, d | t !in tags && Listed(rows, t, d) :: d in seen
    {
      var t :| t in tags;
      tags := tags - {t};
      ghost var seen0 := seen;
      devices, seen := DevicesOf(rows[t].0, rows[t].1, devices, seen);
      forall d | d in seen ensures exists t' :: Listed(rows, t', d) {
        assert d !in seen0 ==> Listed(rows, t, d);
      }
    }
  }

  /** The inner loop of `onlineDevicesLocked`: the devices of one user object that were not seen before are appended. */
  method DevicesOf(uid: Uid, counted: set<Ip>, shown: seq<OnlineDevice>, seen0: set<OnlineDevice>)
    returns (devices: seq<OnlineDevice>, seen: set<OnlineDevice>)
    requires Distinct(shown) && forall d :: d in shown <==> d in seen0
    ensures Distinct(devices) && forall d :: d in devices <==> d in seen
    ensures forall d :: d in seen <==> d in seen0 || (d.uid == uid && d.ip in counted)
  {
    devices, seen := shown, seen0;
    var ips := counted;
    while ips != {}
      invariant ips <= counted
      invariant Distinct(devices) && forall d :: d in devices <==> d in seen
      invariant forall d :: d in seen <==> d in seen0 || (d.uid == uid && d.ip in counted - ips)
    {
      var ip :| ip in ips;
      ips := ips - {ip};
      var device := OnlineDevice(uid, ip);
      if device !in seen {
        seen := seen + {device};
        devices := devices + [device];
      }
    }
  }
}
