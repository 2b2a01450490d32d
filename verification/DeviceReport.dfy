/**
 The online-device half of the user report (`reportUserTrafficTask`, node/user.go) against a panel
 whose replies can be lost.

 A report overwrites the addresses of exactly the users it names; an empty list takes a user off.
 A failed request may or may not have reached the panel, but it is not delivered late.
 */
module DeviceReport {
  import opened Identities

  datatype Traffic = Traffic(uid: Uid, upload: int, download: int)

  // ----- building a report

  /** Users too quiet to be shown for the first time. */
  function Quiet(traffic: seq<Traffic>, reported: set<Uid>, minTraffic: int): set<Uid> {
    set t | t in traffic && t.uid !in reported && t.upload + t.download < minTraffic * 1000 :: t.uid
  }

  /** The addresses of one user among the devices, in order. */
  function IpsOf(devices: seq<OnlineDevice>, uid: Uid): seq<Ip> {
    if devices == [] then []
    else
      var n := |devices| - 1;
      IpsOf(devices[..n], uid) + if devices[n].uid == uid then [devices[n].ip] else []
  }

  function UsersOf(devices: seq<OnlineDevice>): set<Uid> {
    set d | d in devices :: d.uid
  }

  lemma {:induction false} IpsOfUsers(devices: seq<OnlineDevice>, uid: Uid)
    ensures IpsOf(devices, uid) != [] <==> uid in UsersOf(devices)
  {
    if devices != [] {
      var n := |devices| - 1;
      IpsOfUsers(devices[..n], uid);
      assert devices == devices[..n] + [devices[n]];
    }
  }

  /** The devices of users who are not too quiet. */
  function Counted(devices: seq<OnlineDevice>, quiet: set<Uid>): seq<OnlineDevice> {
    if devices == [] then []
    else
      var n := |devices| - 1;
      Counted(devices[..n], quiet) + if devices[n].uid in quiet then [] else [devices[n]]
  }

  /** The user has not been reported yet, and some traffic record of the user is below the minimum. */
  predicate TooQuiet(traffic: seq<Traffic>, reported: set<Uid>, minTraffic: int, uid: Uid) {
    uid !in reported &&
    exists i :: 0 <= i < |traffic| && traffic[i].uid == uid &&
                traffic[i].upload + traffic[i].download < minTraffic * 1000
  }

  lemma QuietIff(traffic: seq<Traffic>, reported: set<Uid>, minTraffic: int, uid: Uid)
    ensures uid in Quiet(traffic, reported, minTraffic) <==> TooQuiet(traffic, reported, minTraffic, uid)
  {
    if t :| t in traffic && t.uid == uid && t.upload + t.download < minTraffic * 1000 {
      var i :| 0 <= i < |traffic| && traffic[i] == t;
    }
  }

  /** Each device is kept as often as it was listed, or not at all. */
  lemma {:induction false} CountedExactly(devices: seq<OnlineDevice>, quiet: set<Uid>, d: OnlineDevice)
    ensures multiset(Counted(devices, quiet))[d] == if d.uid in quiet then 0 else multiset(devices)[d]
  {
    if devices != [] {
      var n := |devices| - 1;
      CountedExactly(devices[..n], quiet, d);
      assert devices == devices[..n] + [devices[n]];
    }
  }

  /** A user's addresses are those of the devices, each as often as it was listed. */
  lemma {:induction false} IpsOfExactly(devices: seq<OnlineDevice>, uid: Uid, ip: Ip)
    ensures multiset(IpsOf(devices, uid))[ip] == multiset(devices)[OnlineDevice(uid, ip)]
  {
    if devices != [] {
      var n := |devices| - 1;
      IpsOfExactly(devices[..n], uid, ip);
      assert devices == devices[..n] + [devices[n]];
    }
  }

  /** The loops that filter the devices. */
  method CountedDevices(
      devices: seq<OnlineDevice>, traffic: seq<Traffic>, reported: set<Uid>, minTraffic: int)
    returns (result: seq<OnlineDevice>)
    ensures result == Counted(devices, Quiet(traffic, reported, minTraffic))
    ensures forall d :: multiset(result)[d] ==
              if TooQuiet(traffic, reported, minTraffic, d.uid) then 0 else multiset(devices)[d]
  {
    var nocount: set<Uid> := {};
    for i := 0 to |traffic|
      invariant nocount == Quiet(traffic[..i], reported, minTraffic)
    {
      assert traffic[..i + 1] == traffic[..i] + [traffic[i]];
      var total := traffic[i].upload + traffic[i].download;
      if traffic[i].uid !in reported && total < minTraffic * 1000 {
        nocount := nocount + {traffic[i].uid};
      }
    }
    assert traffic[..|traffic|] == traffic;
    result := [];
    for i := 0 to |devices|
      invariant result == Counted(devices[..i], nocount)
    {
      assert devices[..i + 1][..i] == devices[..i];
      if devices[i].uid !in nocount {
        result := result + [devices[i]];
      }
    }
    assert devices[..|devices|] == devices;
    forall d ensures multiset(result)[d] ==
               if TooQuiet(traffic, reported, minTraffic, d.uid) then 0 else multiset(devices)[d]
    {
      CountedExactly(devices, nocount, d);
      QuietIff(traffic, reported, minTraffic, d.uid);
    }
  }

  /** The payload names every user shown, and every user to be taken off. */
  predicate IsPayload(data: map<Uid, seq<Ip>>, result: seq<OnlineDevice>, reported: set<Uid>) {
    && data.Keys == UsersOf(result) + reported
    && forall uid | uid in data :: data[uid] == IpsOf(result, uid)
  }

  /** The loops that build the payload. */
  method BuildPayload(
      result: seq<OnlineDevice>, reported: set<Uid>)
    returns (data: map<Uid, seq<Ip>>, current: set<Uid>)
    ensures current == UsersOf(result) && IsPayload(data, result, reported)
  {
    data, current := map[], {};
    for i := 0 to |result|
      invariant current == UsersOf(result[..i]) == data.Keys
      invariant forall uid | uid in data :: data[uid] == IpsOf(result[..i], uid)
    {
      var OnlineDevice(uid, ip) := result[i];
      assert result[..i + 1] == result[..i] + [result[i]] && result[..i + 1][..i] == result[..i];
      IpsOfUsers(result[..i], uid);
      data := data[uid := (if uid in data then data[uid] else []) + [ip]];
      current := current + {uid};
    }
    assert result[..|result|] == result;
    data := AddRemovals(data, result, current, reported);
  }

  /** Users reported before and gone now are named with no addresses. */
  method AddRemovals(data0: map<Uid, seq<Ip>>, ghost result: seq<OnlineDevice>, current: set<Uid>, reported: set<Uid>)
    returns (data: map<Uid, seq<Ip>>)
    requires data0.Keys == current == UsersOf(result) && forall uid | uid in data0 :: data0[uid] == IpsOf(result, uid)
    ensures IsPayload(data, result, reported)
  {
    data := data0;
    var gone := reported;
    while gone != {}
      invariant gone <= reported && data.Keys == current + (reported - gone)
      invariant forall uid | uid in data :: data[uid] == IpsOf(result, uid)
    {
      var uid :| uid in gone;
      gone := gone - {uid};
      if uid !in current {
        IpsOfUsers(result, uid);
        data := data[uid := []];
      }
    }
  }

  // ----- the panel

  /** What the panel shows for this node, user by user. */
  type View = map<Uid, seq<Ip>>

  /** A report overwrites exactly the users it names. */
  function Applied(view: View, data: map<Uid, seq<Ip>>): View {
    map uid | uid in view.Keys + data.Keys && (uid in data ==> data[uid] != []) ::
      if uid in data then data[uid] else view[uid]
  }

  datatype Delivery =
    | Acknowledged        // applied, and the reply arrived
    | ReplyLost           // applied, but the caller sees an error
    | RequestLost         // not applied

  /** What the controller remembers and what the panel shows. */
  datatype State = State(reported: set<Uid>, view: View)

  /** One round: the devices online, the traffic since the last round, and how the request fared. */
  datatype Round = Round(devices: seq<OnlineDevice>, traffic: seq<Traffic>, delivery: Delivery)

  function Shown(s: State, r: Round, minTraffic: int): seq<OnlineDevice> {
    Counted(r.devices, Quiet(r.traffic, s.reported, minTraffic))
  }

  /** The payload as a function of the devices shown and the users reported before. */
  function Payload(result: seq<OnlineDevice>, reported: set<Uid>): map<Uid, seq<Ip>> {
    map uid | uid in UsersOf(result) + reported :: IpsOf(result, uid)
  }

  function After(s: State, r: Round, minTraffic: int): State {
    var result := Shown(s, r, minTraffic);
    var view := if r.delivery.RequestLost? then s.view else Applied(s.view, Payload(result, s.reported));
    State(if r.delivery.Acknowledged? then UsersOf(result) else s.reported + UsersOf(result), view)
  }

  class Controller {
    const minTraffic: int
    var reportedDeviceUsers: set<Uid>

    constructor (minTraffic: int)
      ensures reportedDeviceUsers == {} && this.minTraffic == minTraffic
    {
      this.minTraffic, reportedDeviceUsers := minTraffic, {};
    }

    /** One report, with what the panel shows before and after it. */
    method Report(r: Round, ghost view0: View) returns (ghost view: View)
      modifies this
      ensures State(reportedDeviceUsers, view) == After(State(old(reportedDeviceUsers), view0), r, minTraffic)
    {
      var result := CountedDevices(r.devices, r.traffic, reportedDeviceUsers, minTraffic);
      var data, current := BuildPayload(result, reportedDeviceUsers);
      assert data == Payload(result, reportedDeviceUsers);
      reportedDeviceUsers := reportedDeviceUsers + current;
      view := if r.delivery.RequestLost? then view0 else Applied(view0, data);
      if r.delivery.Acknowledged? {
        reportedDeviceUsers := current;
      }
    }
  }

  // ----- whole runs

  function At(rounds: seq<Round>, n: nat, minTraffic: int): State
    requires n <= |rounds|
  {
    if n == 0 then State({}, map[]) else After(At(rounds, n - 1, minTraffic), rounds[n - 1], minTraffic)
  }

  lemma RoundKeepsKnown(s: State, r: Round, minTraffic: int)
    requires s.view.Keys <= s.reported
    ensures After(s, r, minTraffic).view.Keys <= After(s, r, minTraffic).reported
  {
    var result := Shown(s, r, minTraffic);
    forall uid ensures IpsOf(result, uid) != [] <==> uid in UsersOf(result) {
      IpsOfUsers(result, uid);
    }
  }

  /** Whatever is lost on the way, every user the panel shows is one the controller will take off again. */
  lemma {:induction false} PanelShowsOnlyReportedUsers(rounds: seq<Round>, n: nat, minTraffic: int)
    requires n <= |rounds|
    ensures At(rounds, n, minTraffic).view.Keys <= At(rounds, n, minTraffic).reported
  {
    if n > 0 {
      PanelShowsOnlyReportedUsers(rounds, n - 1, minTraffic);
      RoundKeepsKnown(At(rounds, n - 1, minTraffic), rounds[n - 1], minTraffic);
    }
  }

  /**
   After every acknowledged report the panel shows exactly the users just sent, each with exactly the
   addresses just sent, however many reports before it were lost or half lost.
   */
  lemma AcknowledgedReportIsTheWholeTruth(rounds: seq<Round>, n: nat, minTraffic: int)
    requires n < |rounds| && rounds[n].delivery.Acknowledged?
    ensures var result := Shown(At(rounds, n, minTraffic), rounds[n], minTraffic);
      && At(rounds, n + 1, minTraffic).view.Keys == UsersOf(result) == At(rounds, n + 1, minTraffic).reported
      && forall uid | uid in UsersOf(result) :: At(rounds, n + 1, minTraffic).view[uid] == IpsOf(result, uid)
  {
    PanelShowsOnlyReportedUsers(rounds, n, minTraffic);
    var s := At(rounds, n, minTraffic);
    var result := Shown(s, rounds[n], minTraffic);
    forall uid ensures IpsOf(result, uid) != [] <==> uid in UsersOf(result) {
      IpsOfUsers(result, uid);
    }
    assert At(rounds, n + 1, minTraffic) == After(s, rounds[n], minTraffic);
  }

  // ----- the same on devices and traffic

  /** The user's device is online and the user is not too quiet to be shown. */
  predicate Due(rounds: seq<Round>, n: nat, minTraffic: int, uid: Uid, ip: Ip)
    requires n < |rounds|
  {
    && OnlineDevice(uid, ip) in rounds[n].devices
    && !TooQuiet(rounds[n].traffic, At(rounds, n, minTraffic).reported, minTraffic, uid)
  }

  lemma ShownIffDue(rounds: seq<Round>, n: nat, minTraffic: int, uid: Uid, ip: Ip)
    requires n < |rounds|
    ensures var result := Shown(At(rounds, n, minTraffic), rounds[n], minTraffic);
      && (ip in IpsOf(result, uid) <==> Due(rounds, n, minTraffic, uid, ip))
      && (OnlineDevice(uid, ip) in result <==> Due(rounds, n, minTraffic, uid, ip))
  {
    var s, r := At(rounds, n, minTraffic), rounds[n];
    var quiet := Quiet(r.traffic, s.reported, minTraffic);
    var result := Counted(r.devices, quiet);
    var d := OnlineDevice(uid, ip);
    QuietIff(r.traffic, s.reported, minTraffic, uid);
    CountedExactly(r.devices, quiet, d);
    IpsOfExactly(result, uid, ip);
    assert ip in IpsOf(result, uid) <==> multiset(IpsOf(result, uid))[ip] > 0;
    assert d in result <==> multiset(result)[d] > 0;
    assert d in r.devices <==> multiset(r.devices)[d] > 0;
  }

  /**
   After a report that reached the panel, whether or not its reply did, the panel shows exactly the devices
   that are online and whose users are not too quiet; after one that did not, what it showed before.
   */
  lemma DeliveredReportShowsExactly(rounds: seq<Round>, n: nat, minTraffic: int, uid: Uid, ip: Ip)
    requires n < |rounds|
    ensures var before, after := At(rounds, n, minTraffic).view, At(rounds, n + 1, minTraffic).view;
      if rounds[n].delivery.RequestLost? then after == before
      else uid in after && ip in after[uid] <==> Due(rounds, n, minTraffic, uid, ip)
  {
    var s := At(rounds, n, minTraffic);
    PanelShowsOnlyReportedUsers(rounds, n, minTraffic);
    ShownIffDue(rounds, n, minTraffic, uid, ip);
    assert At(rounds, n + 1, minTraffic) == After(s, rounds[n], minTraffic);
    var result := Shown(s, rounds[n], minTraffic);
    IpsOfUsers(result, uid);
  }

  /** After an acknowledged report exactly the users shown are remembered; after any other, the old ones too. */
  lemma RemembersExactly(rounds: seq<Round>, n: nat, minTraffic: int, uid: Uid)
    requires n < |rounds|
    ensures uid in At(rounds, n + 1, minTraffic).reported <==>
              || (exists ip :: Due(rounds, n, minTraffic, uid, ip))
              || (!rounds[n].delivery.Acknowledged? && uid in At(rounds, n, minTraffic).reported)
  {
    var s := At(rounds, n, minTraffic);
    var result := Shown(s, rounds[n], minTraffic);
    assert At(rounds, n + 1, minTraffic) == After(s, rounds[n], minTraffic);
    forall ip ensures OnlineDevice(uid, ip) in result <==> Due(rounds, n, minTraffic, uid, ip) {
      ShownIffDue(rounds, n, minTraffic, uid, ip);
    }
    if uid in UsersOf(result) {
      var d :| d in result && d.uid == uid;
      assert Due(rounds, n, minTraffic, uid, d.ip);
    }
    if ip :| Due(rounds, n, minTraffic, uid, ip) {
      assert OnlineDevice(uid, ip) in result;
    }
  }
}
