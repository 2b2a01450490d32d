/**
 Recognizing uTP packets (core/xray/common/protocol/bt/utp.go): the circular timestamp comparison and
 the walk over the extension headers of BEP 29.  The reference writes packets instead of reading them.
 */
module Utp {

  type Byte = b: int | 0 <= b < 256

  const MIN_LEN := 20
  const VERSION := 1
  const MAX_TYPE := 4
  const EXT_NONE := 0
  const EXT_SELACK := 1
  const CONN_ID_LEN := 2
  const TIME_LEN := 4
  const WRAP := 0x1_0000_0000             // the timestamp's 32 bits
  const TIME_WINDOW := 300_000_000        // five minutes in microseconds

  // ----- the timestamp

  /** The conversion and the subtraction of uint32. */
  function U32(x: int): (r: int)
    ensures 0 <= r < WRAP
  {
    x % WRAP
  }

  /** `utpTimestampPlausible`; `now` is the full microsecond clock. */
  predicate Plausible(timestamp: int, now: int)
    requires 0 <= timestamp < WRAP
  {
    var n := U32(now);
    U32(n - timestamp) <= TIME_WINDOW || U32(timestamp - n) <= TIME_WINDOW
  }

  /** Some clock that shows this timestamp is within the window of ours. */
  ghost predicate Near(timestamp: int, now: int, turns: int) {
    -300_000_000 <= now - (timestamp + turns * 4_294_967_296) <= 300_000_000
  }

  lemma U32Turns(x: int) returns (turns: int)
    ensures x == U32(x) + turns * WRAP
  {
    turns := x / WRAP;
  }

  lemma U32Unique(x: int, r: int, turns: int)
    requires x == r + turns * WRAP && 0 <= r < WRAP
    ensures U32(x) == r
  {
    var k := U32Turns(x);
    assert r - U32(x) == (k - turns) * WRAP;
  }

  /** A timestamp is plausible exactly when some whole number of turns brings it within the window of the clock. */
  lemma PlausibleIffNear(timestamp: int, now: int)
    requires 0 <= timestamp < WRAP
    ensures Plausible(timestamp, now) <==> exists turns :: Near(timestamp, now, turns)
  {
    var n := U32(now);
    var a := U32Turns(now);
    if U32(n - timestamp) <= TIME_WINDOW {
      var b := U32Turns(n - timestamp);
      assert Near(timestamp, now, a + b);
    }
    if U32(timestamp - n) <= TIME_WINDOW {
      var b := U32Turns(timestamp - n);
      assert Near(timestamp, now, a - b);
    }
    if turns :| Near(timestamp, now, turns) {
      var d := now - (timestamp + turns * WRAP);
      if d >= 0 {
        U32Unique(n - timestamp, d, turns - a);
      } else {
        U32Unique(timestamp - n, -d, a - turns);
      }
    }
  }

  // ----- the header

  datatype Verdict = NeedMore | Reject | Accept

  /** The big-endian timestamp behind the connection id. */
  function TimestampAt(b: seq<Byte>, offset: nat): (t: int)
    requires offset + CONN_ID_LEN + TIME_LEN <= |b|
    ensures 0 <= t < WRAP
    ensures var b0: int, b1: int, b2: int, b3: int := b[offset + 2], b[offset + 3], b[offset + 4], b[offset + 5];
      t == b0 * 16_777_216 + b1 * 65_536 + b2 * 256 + b3
  {
    var b0: int, b1: int, b2: int, b3: int := b[offset + 2], b[offset + 3], b[offset + 4], b[offset + 5];
    ((b0 * 256 + b1) * 256 + b2) * 256 + b3
  }

  /** What the bytes from an extension on decide. */
  function Walk(b: seq<Byte>, extension: Byte, offset: nat, now: int): Verdict
    requires offset <= |b|
    decreases |b| - offset
  {
    if extension == EXT_NONE then
      if offset + CONN_ID_LEN + TIME_LEN > |b| then NeedMore
      else if Plausible(TimestampAt(b, offset), now) then Accept
      else Reject
    else if extension != EXT_SELACK then Reject
    else if offset + 2 > |b| then NeedMore
    else if offset + 2 + b[offset + 1] > |b| then NeedMore
    else Walk(b, b[offset], offset + 2 + b[offset + 1], now)
  }

  function Sniff(b: seq<Byte>, now: int): Verdict {
    if |b| < MIN_LEN then NeedMore
    else if b[0] / 16 > MAX_TYPE || b[0] % 16 != VERSION then Reject
    else Walk(b, b[1], 2, now)
  }

  /** `SniffUTP`: the walk stays inside the packet and ends, and what it accepts are exactly the recent packets. */
  method SniffUTP(b: seq<Byte>, now: int) returns (v: Verdict)
    ensures v == Sniff(b, now)
    ensures v == Accept <==> |b| >= 20 && IsRecentPacket(b, now)
  {
    AcceptsExactlyRecentPackets(b, now);
    if |b| < MIN_LEN {
      return NeedMore;
    }
    if b[0] / 16 > MAX_TYPE || b[0] % 16 != VERSION {
      return Reject;
    }
    var extension, offset := b[1], 2;
    while extension != EXT_NONE
      invariant 2 <= offset <= |b| && Sniff(b, now) == Walk(b, extension, offset, now)
      decreases |b| - offset
    {
      if extension != EXT_SELACK {
        return Reject;
      }
      if offset + 2 > |b| {
        return NeedMore;
      }
      var next := offset + 2 + b[offset + 1];
      extension := b[offset];
      offset := next;
      if offset > |b| {
        return NeedMore;
      }
    }
    if offset + CONN_ID_LEN + TIME_LEN > |b| {
      return NeedMore;
    }
    var timestamp := TimestampAt(b, offset);
    if !Plausible(timestamp, now) {
      return Reject;
    }
    return Accept;
  }

  lemma {:induction false} WalkIsStable(b: seq<Byte>, more: seq<Byte>, extension: Byte, offset: nat, now: int)
    requires offset <= |b|
    ensures !Walk(b, extension, offset, now).NeedMore? ==>
              Walk(b + more, extension, offset, now) == Walk(b, extension, offset, now)
    decreases |b| - offset
  {
    if extension == EXT_SELACK && offset + 2 <= |b| && offset + 2 + b[offset + 1] <= |b| {
      WalkIsStable(b, more, b[offset], offset + 2 + b[offset + 1], now);
    }
  }

  /** At a fixed clock a definite verdict on a packet is the verdict on every longer packet that starts with it. */
  lemma VerdictIsStable(b: seq<Byte>, more: seq<Byte>, now: int)
    requires !Sniff(b, now).NeedMore?
    ensures Sniff(b + more, now) == Sniff(b, now)
  {
    WalkIsStable(b, more, b[1], 2, now);
  }

  // ----- what is accepted

  /**
   A packet as it is written: type and version, the kind of the first extension, the selective-ack
   extensions, each with the kind of the next one and its own length in front, the connection id and
   the timestamp.
   */
  datatype Packet = Packet(kind: int, extensions: seq<seq<Byte>>, tail: Tail)

  datatype Tail = Tail(connectionId: seq<Byte>, timestamp: int, rest: seq<Byte>)

  predicate ValidTail(t: Tail) {
    |t.connectionId| == 2 && 0 <= t.timestamp < 4_294_967_296
  }

  predicate Valid(p: Packet) {
    0 <= p.kind <= 4 && ValidExtensions(p.extensions) && ValidTail(p.tail)
  }

  predicate ValidExtensions(extensions: seq<seq<Byte>>) {
    forall i | 0 <= i < |extensions| :: |extensions[i]| < 256
  }

  function BigEndian(t: int): (b: seq<Byte>)
    requires 0 <= t < 4_294_967_296
    ensures |b| == 4
  {
    [t / 256 / 256 / 256, t / 256 / 256 % 256, t / 256 % 256, t % 256]
  }

  /** The kind that announces a list of extensions. */
  function Announced(extensions: seq<seq<Byte>>): Byte {
    if extensions == [] then 0 else 1
  }

  function EncodeFrom(extensions: seq<seq<Byte>>, t: Tail): seq<Byte>
    requires ValidExtensions(extensions) && ValidTail(t)
  {
    if extensions == [] then t.connectionId + BigEndian(t.timestamp) + t.rest
    else [Announced(extensions[1..]), |extensions[0]|] + extensions[0] + EncodeFrom(extensions[1..], t)
  }

  function Encode(p: Packet): seq<Byte>
    requires Valid(p)
  {
    [p.kind * 16 + 1, Announced(p.extensions)] + EncodeFrom(p.extensions, p.tail)
  }

  lemma Digit(q: int, r: int)
    requires 0 <= r < 256
    ensures (q * 256 + r) / 256 == q && (q * 256 + r) % 256 == r
  {
  }

  lemma TimestampReadsBack(b: seq<Byte>, offset: nat, t: int)
    requires offset + CONN_ID_LEN + TIME_LEN <= |b| && 0 <= t < WRAP
    requires b[offset + 2..offset + 6] == BigEndian(t)
    ensures TimestampAt(b, offset) == t
  {
    var w := b[offset + 2..offset + 6];
    assert b[offset + 2] == w[0] && b[offset + 3] == w[1] && b[offset + 4] == w[2] && b[offset + 5] == w[3];
  }

  lemma TimestampWritten(b: seq<Byte>, offset: nat)
    requires offset + CONN_ID_LEN + TIME_LEN <= |b|
    ensures BigEndian(TimestampAt(b, offset)) == b[offset + 2..offset + 6]
  {
    var b0: int, b1: int, b2: int, b3: int := b[offset + 2], b[offset + 3], b[offset + 4], b[offset + 5];
    Digit((b0 * 256 + b1) * 256 + b2, b3);
    Digit(b0 * 256 + b1, b2);
    Digit(b0, b1);
    assert b[offset + 2..offset + 6] == [b[offset + 2], b[offset + 3], b[offset + 4], b[offset + 5]];
  }

  /** The walk reads what was written. */
  lemma {:induction false} WalkReadsWritten(b: seq<Byte>, offset: nat, extensions: seq<seq<Byte>>, t: Tail, now: int)
    requires ValidExtensions(extensions) && ValidTail(t) && offset <= |b| && b[offset..] == EncodeFrom(extensions, t)
    ensures Walk(b, Announced(extensions), offset, now) == if Plausible(t.timestamp, now) then Accept else Reject
    decreases |extensions|
  {
    var tail := b[offset..];
    if extensions == [] {
      assert tail[2..6] == BigEndian(t.timestamp);
      assert b[offset + 2..offset + 6] == tail[2..6];
      TimestampReadsBack(b, offset, t.timestamp);
    } else {
      var size := |extensions[0]|;
      assert b[offset] == tail[0] && b[offset + 1] == tail[1] == size;
      assert b[offset + 2 + size..] == tail[2 + size..] == EncodeFrom(extensions[1..], t);
      WalkReadsWritten(b, offset + 2 + size, extensions[1..], t, now);
    }
  }

  /** What the walk accepts was written that way. */
  lemma {:induction false} AcceptedWasWritten(b: seq<Byte>, extension: Byte, offset: nat, now: int)
    returns (extensions: seq<seq<Byte>>, t: Tail)
    requires offset <= |b| && Walk(b, extension, offset, now) == Accept
    ensures ValidExtensions(extensions) && ValidTail(t) && Announced(extensions) == extension
    ensures b[offset..] == EncodeFrom(extensions, t) && Plausible(t.timestamp, now)
    decreases |b| - offset
  {
    if extension == EXT_NONE {
      extensions := [];
      t := Tail(b[offset..offset + 2], TimestampAt(b, offset), b[offset + 6..]);
      TimestampWritten(b, offset);
    } else {
      var next := offset + 2 + b[offset + 1];
      var more;
      more, t := AcceptedWasWritten(b, b[offset], next, now);
      var first := b[offset + 2..next];
      extensions := [first] + more;
      assert extensions[1..] == more;
      assert b[offset..] == [b[offset], b[offset + 1]] + first + b[next..];
    }
  }

  /** b is a packet sent at about this time. */
  ghost predicate IsRecentPacket(b: seq<Byte>, now: int) {
    exists p, turns :: Valid(p) && b == Encode(p) && Near(p.tail.timestamp, now, turns)
  }

  lemma AcceptedIsRecent(b: seq<Byte>, now: int)
    requires Sniff(b, now) == Accept
    ensures IsRecentPacket(b, now)
  {
    var extensions, t := AcceptedWasWritten(b, b[1], 2, now);
    var p := Packet(b[0] / 16, extensions, t);
    assert b == [b[0], b[1]] + b[2..];
    assert p.kind * 16 + VERSION == b[0];
    assert Valid(p) && Encode(p) == b;
    PlausibleIffNear(t.timestamp, now);
    var turns :| Near(t.timestamp, now, turns);
    assert Near(p.tail.timestamp, now, turns);
  }

  lemma RecentIsAccepted(b: seq<Byte>, now: int)
    requires |b| >= 20 && IsRecentPacket(b, now)
    ensures Sniff(b, now) == Accept
  {
    var p, turns :| Valid(p) && b == Encode(p) && Near(p.tail.timestamp, now, turns);
    PlausibleIffNear(p.tail.timestamp, now);
    assert b[0] == p.kind * 16 + VERSION && b[1] == Announced(p.extensions);
    assert b[2..] == EncodeFrom(p.extensions, p.tail);
    WalkReadsWritten(b, 2, p.extensions, p.tail, now);
  }

  /** What is accepted are exactly the packets of full length whose timestamp is near the clock. */
  lemma AcceptsExactlyRecentPackets(b: seq<Byte>, now: int)
    ensures Sniff(b, now) == Accept <==> |b| >= 20 && IsRecentPacket(b, now)
  {
    if Sniff(b, now) == Accept {
      AcceptedIsRecent(b, now);
    }
    if |b| >= 20 && IsRecentPacket(b, now) {
      RecentIsAccepted(b, now);
    }
  }

  // ----- every verdict

  /** The kind announced in front of some extensions and something of kind k behind them. */
  function Announces(extensions: seq<seq<Byte>>, k: Byte): Byte {
    if extensions == [] then k else 1
  }

  /** Complete selective-ack extensions, the last of which announces kind k. */
  function Chain(extensions: seq<seq<Byte>>, k: Byte): seq<Byte>
    requires ValidExtensions(extensions)
  {
    if extensions == [] then []
    else [Announces(extensions[1..], k), |extensions[0]|] + extensions[0] + Chain(extensions[1..], k)
  }

  /** What is left behind the extensions cannot be read as one more. */
  predicate Stuck(k: Byte, left: seq<Byte>) {
    k == 1 ==> |left| < 2 || |left| - 2 < left[1]
  }

  /** The bytes from an offset on are complete extensions and what is left behind them. */
  ghost predicate ReadsAs(b: seq<Byte>, offset: nat, extensions: seq<seq<Byte>>, k: Byte, left: seq<Byte>) {
    ValidExtensions(extensions) && offset <= |b| && b[offset..] == Chain(extensions, k) + left && Stuck(k, left)
  }

  /** The four bytes behind the connection id, the first weighing most. */
  function Weighed(left: seq<Byte>): int
    requires |left| >= 6
  {
    var b0: int, b1: int, b2: int, b3: int := left[2], left[3], left[4], left[5];
    b0 * 16_777_216 + b1 * 65_536 + b2 * 256 + b3
  }

  /** What is left decides: the timestamp if none is announced; more is needed for one that is not complete. */
  ghost predicate Decides(v: Verdict, k: Byte, left: seq<Byte>, now: int) {
    if k == 0 then
      if |left| < 6 then v == NeedMore
      else v == if exists turns :: Near(Weighed(left), now, turns) then Accept else Reject
    else if k == 1 then v == NeedMore
    else v == Reject
  }

  /** Without extensions in front. */
  lemma LeftDecides(b: seq<Byte>, offset: nat, k: Byte, left: seq<Byte>, now: int)
    requires offset <= |b| && b[offset..] == left && Stuck(k, left)
    ensures Decides(Walk(b, k, offset, now), k, left, now)
  {
    if |left| >= 2 {
      assert b[offset + 1] == left[1];
    }
    if k == 0 && |left| >= 6 {
      assert b[offset + 2] == left[2] && b[offset + 3] == left[3];
      assert b[offset + 4] == left[4] && b[offset + 5] == left[5];
      assert TimestampAt(b, offset) == Weighed(left);
      PlausibleIffNear(Weighed(left), now);
    }
  }

  lemma {:induction false} WalkDecides(
      b: seq<Byte>, offset: nat, extensions: seq<seq<Byte>>, k: Byte, left: seq<Byte>, now: int)
    requires ReadsAs(b, offset, extensions, k, left)
    ensures Decides(Walk(b, Announces(extensions, k), offset, now), k, left, now)
    decreases |extensions|
  {
    var tail := b[offset..];
    if extensions == [] {
      assert [] + left == left;
      LeftDecides(b, offset, k, left, now);
    } else {
      var size := |extensions[0]|;
      assert b[offset] == tail[0] && b[offset + 1] == tail[1] == size;
      assert b[offset + 2 + size..] == tail[2 + size..] == Chain(extensions[1..], k) + left;
      WalkDecides(b, offset + 2 + size, extensions[1..], k, left, now);
    }
  }

  /** All bytes can be read that way. */
  lemma {:induction false} EveryTailReads(b: seq<Byte>, offset: nat, kind: Byte)
    returns (extensions: seq<seq<Byte>>, k: Byte, left: seq<Byte>)
    requires offset <= |b|
    ensures ReadsAs(b, offset, extensions, k, left) && Announces(extensions, k) == kind
    decreases |b| - offset
  {
    var tail := b[offset..];
    if Stuck(kind, tail) {
      extensions, k, left := [], kind, tail;
      assert Chain([], kind) + tail == tail;
    } else {
      var next := offset + 2 + tail[1];
      var more;
      more, k, left := EveryTailReads(b, next, tail[0]);
      var first := b[offset + 2..next];
      extensions := [first] + more;
      assert extensions[1..] == more;
      assert tail == [tail[0], tail[1]] + first + b[next..];
    }
  }

  /**
   The verdict on any bytes: more is needed of fewer than 20, another version than 1 or a type above 4 is
   rejected, and else what is left behind the extensions decides.
   */
  lemma VerdictExactly(b: seq<Byte>, extensions: seq<seq<Byte>>, k: Byte, left: seq<Byte>, now: int)
    requires |b| >= 20 ==> b[1] == Announces(extensions, k) && ReadsAs(b, 2, extensions, k, left)
    ensures
      if |b| < 20 then Sniff(b, now) == NeedMore
      else if b[0] in {0x01, 0x11, 0x21, 0x31, 0x41} then Decides(Sniff(b, now), k, left, now)
      else Sniff(b, now) == Reject
  {
    if |b| >= 20 {
      WalkDecides(b, 2, extensions, k, left, now);
    }
  }
}
