/**
 The table of device kicks (`MergeKickedList`, `isKicked`, limiter/limiter.go): kicks arrive as
 remaining seconds, are kept as unix expiry times, and lapsed ones are pruned on every merge.
 */
module KickTable {
  import opened Common
  import opened Identities

  type Table = map<Uid, map<Ip, int>>

  /** What a table holds for a device; Go's zero for a missing entry. */
  function Entry(t: Table, uid: Uid, ip: Ip): (r: int)
    ensures uid in t && ip in t[uid] ==> r == t[uid][ip]
    ensures !(uid in t && ip in t[uid]) ==> r == 0
  {
    if uid in t && ip in t[uid] then t[uid][ip] else 0
  }

  // ----- one merge, device by device

  /** The expiry a merge at `now` asks for; nothing if the pair is not in it or its ttl is not positive. */
  function Asked(kicked: Table, now: int, uid: Uid, ip: Ip): int {
    if Entry(kicked, uid, ip) > 0 then now + Entry(kicked, uid, ip) else 0
  }

  function Pruned(expiry: int, now: int): int {
    if expiry <= now then 0 else expiry
  }

  /** An empty merge returns before pruning. */
  function Merged(before: int, kicked: Table, now: int, uid: Uid, ip: Ip): int {
    if kicked == map[] then before else Pruned(Max(before, Asked(kicked, now, uid, ip)), now)
  }

  class Kicks {
    var kickedIPs: Table

    /** Expiry times are unix times. */
    ghost predicate Valid()
      reads this
    {
      forall uid, ip :: Entry(kickedIPs, uid, ip) >= 0
    }

    constructor ()
      ensures Valid() && kickedIPs == map[]
    {
      kickedIPs := map[];
    }

    /** `MergeKickedList`, in whatever order the maps are walked. */
    method MergeKickedList(kicked: Table, now: nat)
      requires Valid()
      modifies this
      ensures Valid()
      ensures forall uid, ip ::
                Entry(kickedIPs, uid, ip) == Merged(old(Entry(kickedIPs, uid, ip)), kicked, now, uid, ip)
      ensures kicked != map[] ==> forall uid | uid in kickedIPs :: AnyKick(kickedIPs[uid])
      ensures kicked != map[] ==> forall uid, ip | uid in kickedIPs && ip in kickedIPs[uid] :: kickedIPs[uid][ip] > now
    {
      if kicked == map[] {
        return;
      }
      kickedIPs := MergeAll(kickedIPs, kicked, now);
      kickedIPs := PruneAll(kickedIPs, now);
    }

    /** `isKicked`. */
    method IsKicked(uid: Uid, ip: Ip, now: nat) returns (r: bool)
      ensures r <==> uid in kickedIPs && ip in kickedIPs[uid] && kickedIPs[uid][ip] > now
      ensures r <==> Entry(kickedIPs, uid, ip) > now
    {
      if uid !in kickedIPs || ip !in kickedIPs[uid] {
        return false;
      }
      return kickedIPs[uid][ip] > now;
    }
  }

  /** The entry after the loops over `kicked` have handled some of its pairs. */
  function Raised(before: int, kicked: Table, now: int, uid: Uid, ip: Ip, handled: bool): int {
    if handled then Max(before, Asked(kicked, now, uid, ip)) else before
  }

  /** The first pair of loops. */
  method MergeAll(t0: Table, kicked: Table, now: nat) returns (t: Table)
    requires forall uid, ip :: Entry(t0, uid, ip) >= 0
    ensures forall uid, ip :: Entry(t, uid, ip) == Max(Entry(t0, uid, ip), Asked(kicked, now, uid, ip))
  {
    t := t0;
    var uids := kicked.Keys;
    while uids != {}
      invariant uids <= kicked.Keys
      invariant forall uid, ip ::
          Entry(t, uid, ip) == Raised(Entry(t0, uid, ip), kicked, now, uid, ip, uid in kicked && uid !in uids)
    {
      var u :| u in uids;
      uids := uids - {u};
      t := MergeUser(t, t0, kicked, now, u);
    }
  }

  /** The inner loop, for one user. */
  method MergeUser(t1: Table, ghost t0: Table, kicked: Table, now: nat, u: Uid) returns (t: Table)
    requires u in kicked && forall uid, ip :: Entry(t0, uid, ip) >= 0
    requires forall ip :: Entry(t1, u, ip) == Entry(t0, u, ip)
    ensures forall ip :: Entry(t, u, ip) == Max(Entry(t0, u, ip), Asked(kicked, now, u, ip))
    ensures forall uid, ip | uid != u :: Entry(t, uid, ip) == Entry(t1, uid, ip)
  {
    t := t1;
    var ips := kicked[u].Keys;
    while ips != {}
      invariant ips <= kicked[u].Keys
      invariant forall ip ::
          Entry(t, u, ip) == Raised(Entry(t0, u, ip), kicked, now, u, ip, ip in kicked[u] && ip !in ips)
      invariant forall uid, ip | uid != u :: Entry(t, uid, ip) == Entry(t1, uid, ip)
    {
      var ip :| ip in ips;
      ips := ips - {ip};
      var ttl := kicked[u][ip];
      if ttl <= 0 {
        continue;
      }
      if u !in t {
        t := t[u := map[]];
      }
      var expiry := now + ttl;
      if expiry > Entry(t, u, ip) {
        t := t[u := t[u][ip := expiry]];
      }
    }
  }

  /** The second pair of loops; users without kicks are dropped. */
  method PruneAll(t0: Table, now: nat) returns (t: Table)
    ensures forall uid, ip :: Entry(t, uid, ip) == Pruned(Entry(t0, uid, ip), now)
    ensures forall uid | uid in t :: AnyKick(t[uid])
    ensures forall uid, ip | uid in t && ip in t[uid] :: t[uid][ip] > now
  {
    t := t0;
    var uids := t0.Keys;
    while uids != {}
      invariant uids <= t0.Keys && t.Keys <= t0.Keys
      invariant forall uid | uid in uids :: uid in t && t[uid] == t0[uid]
      invariant forall uid | uid in t && uid !in uids :: AnyKick(t[uid])
      invariant forall uid, ip | uid in t && uid !in uids && ip in t[uid] :: t[uid][ip] > now
      invariant forall uid, ip | uid !in uids :: Entry(t, uid, ip) == Pruned(Entry(t0, uid, ip), now)
    {
      var u :| u in uids;
      uids := uids - {u};
      var left, none := PruneUser(t[u], now);
      assert forall ip :: Entry(map[u := left], u, ip) == Pruned(Entry(t0, u, ip), now);
      assert none ==> forall ip :: Entry(map[u := left], u, ip) == 0;
      if none {
        t := t - {u};
      } else {
        t := t[u := left];
      }
    }
  }

  ghost predicate AnyKick(ips: map<Ip, int>) {
    exists ip :: ip in ips
  }

  method PruneUser(ips0: map<Ip, int>, now: nat) returns (ips: map<Ip, int>, none: bool)
    ensures none <==> !AnyKick(ips)
    ensures ips == map ip | ip in ips0 && ips0[ip] > now :: ips0[ip]
  {
    ips := ips0;
    var todo := ips0.Keys;
    while todo != {}
      invariant todo <= ips0.Keys
      invariant ips == map ip | ip in ips0 && (ip in todo || ips0[ip] > now) :: ips0[ip]
    {
      var ip :| ip in todo;
      todo := todo - {ip};
      if ips[ip] <= now {
        ips := ips - {ip};
      }
    }
    none := |ips| == 0;
  }

  // ----- runs of merges

  /** A kick list from the panel and the time it was merged. */
  datatype Merge = Merge(kicked: Table, at: nat)

  ghost predicate InOrder(merges: seq<Merge>) {
    forall i, j | 0 <= i < j < |merges| :: merges[i].at <= merges[j].at
  }

  /** What the table holds for a device after the first n merges into an empty table. */
  function After(merges: seq<Merge>, n: nat, uid: Uid, ip: Ip): int
    requires n <= |merges|
  {
    if n == 0 then 0 else Merged(After(merges, n - 1, uid, ip), merges[n - 1].kicked, merges[n - 1].at, uid, ip)
  }

  /** The latest expiry that any of the first n merges asked for, with no table at all. */
  function Latest(merges: seq<Merge>, n: nat, uid: Uid, ip: Ip): int
    requires n <= |merges|
  {
    if n == 0 then 0 else Max(Latest(merges, n - 1, uid, ip), Asked(merges[n - 1].kicked, merges[n - 1].at, uid, ip))
  }

  /** The latest expiry is the greatest of those asked for. */
  lemma {:induction false} LatestIsGreatest(merges: seq<Merge>, n: nat, uid: Uid, ip: Ip)
    requires n <= |merges|
    ensures forall i | 0 <= i < n :: Asked(merges[i].kicked, merges[i].at, uid, ip) <= Latest(merges, n, uid, ip)
    ensures Latest(merges, n, uid, ip) != 0 ==>
              exists i :: 0 <= i < n && Latest(merges, n, uid, ip) == Asked(merges[i].kicked, merges[i].at, uid, ip)
  {
    if n > 0 {
      LatestIsGreatest(merges, n - 1, uid, ip);
    }
  }

  lemma {:induction false} TableFollowsLatest(merges: seq<Merge>, n: nat, uid: Uid, ip: Ip, t: nat)
    requires InOrder(merges) && n <= |merges| && (n > 0 ==> merges[n - 1].at <= t)
    ensures After(merges, n, uid, ip) >= 0
    ensures After(merges, n, uid, ip) > t <==> Latest(merges, n, uid, ip) > t
    ensures After(merges, n, uid, ip) > t ==> After(merges, n, uid, ip) == Latest(merges, n, uid, ip)
  {
    if n > 0 {
      TableFollowsLatest(merges, n - 1, uid, ip, merges[n - 1].at);
    }
  }

  /** The merge kicks the device, with a positive ttl, until after time t. */
  predicate KicksBeyond(m: Merge, uid: Uid, ip: Ip, t: nat) {
    uid in m.kicked && ip in m.kicked[uid] && m.kicked[uid][ip] > 0 && m.at + m.kicked[uid][ip] > t
  }

  /**
   At any time at or after the last merge a device is kicked exactly when some merge asked, with a
   positive ttl, for an expiry after that time: pruning and stale full syncs never shorten a kick, and
   never bring a lapsed one back.
   */
  lemma KickedExactlyUntilLatestExpiry(merges: seq<Merge>, uid: Uid, ip: Ip, t: nat)
    requires InOrder(merges) && (merges != [] ==> merges[|merges| - 1].at <= t)
    ensures After(merges, |merges|, uid, ip) > t <==>
              exists i :: 0 <= i < |merges| && KicksBeyond(merges[i], uid, ip, t)
  {
    TableFollowsLatest(merges, |merges|, uid, ip, t);
    LatestIsGreatest(merges, |merges|, uid, ip);
    forall i | 0 <= i < |merges|
      ensures KicksBeyond(merges[i], uid, ip, t) <==> Asked(merges[i].kicked, merges[i].at, uid, ip) > t
    {
    }
  }
}
