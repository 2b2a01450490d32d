/**
 The cooldown of failed certificate orders (node/cert_cooldown.go) and the order flow that obeys it
 (`placeCertOrder`, node/cert.go).

 Times and durations are in nanoseconds.  Validating the config, the self-test, the order itself and
 the clock are the outside world; an `Attempt` carries what they returned.
 */
module CertCooldown {
  import opened Common

  const SECOND := 1_000_000_000
  const MINUTE := 60 * SECOND
  const HOUR := 60 * MINUTE

  const REJECTION_BASE := 5 * MINUTE
  const REJECTION_MAX := HOUR
  const LOCAL_BASE := MINUTE
  const LOCAL_MAX := 10 * MINUTE
  const DEFAULT_PAUSE := HOUR
  const MAX_PAUSE := 7 * 24 * HOUR

  // ----- backoff

  function Doubled(base: int, k: nat): int {
    if k == 0 then base else 2 * Doubled(base, k - 1)
  }

  /** The base, doubled with every failure after the first, but never above the limit. */
  function Backoff(base: int, limit: int, failures: int): int {
    Min(Doubled(base, if failures <= 1 then 0 else failures - 1), limit)
  }

  lemma {:induction false} DoubledGrows(base: int, j: nat, k: nat)
    requires base > 0 && j <= k
    ensures 0 < Doubled(base, j) <= Doubled(base, k)
  {
    if k > 0 {
      DoubledGrows(base, if j < k then j else k - 1, k - 1);
    }
  }

  /** `doublingBackoff`: the loop stops early, and still gives the closed form. */
  method DoublingBackoff(base: int, limit: int, failures: int) returns (delay: int)
    requires base > 0
    ensures delay == Backoff(base, limit, failures)
  {
    delay := base;
    var i := 1;
    while i < failures && delay < limit
      invariant 1 <= i && (i <= failures || i == 1) && delay == Doubled(base, i - 1)
    {
      delay := delay * 2;
      i := i + 1;
    }
    if i < failures {
      DoubledGrows(base, i - 1, failures - 1);
    }
    delay := Min(delay, limit);
  }

  lemma BackoffGrows(base: int, limit: int, m: int, n: int)
    requires base > 0 && limit > 0 && m <= n
    ensures 0 < Backoff(base, limit, m) <= Backoff(base, limit, n) <= limit
  {
    DoubledGrows(base, if m <= 1 then 0 else m - 1, if n <= 1 then 0 else n - 1);
  }

  // ----- failures

  /** An error message, and the time that retryAfterPattern and time.Parse read out of it, if any. */
  datatype Message = Message(text: string, retryAfter: Option<int>)

  /** A rate limit (with the retry time it names, if any), another ACME problem, or anything else. */
  datatype Failure = RateLimited(retryAfter: Option<int>) | Rejected | Local

  const PROBLEM_PREFIX := "urn:ietf:params:acme:error:"
  const RATE_LIMITED := PROBLEM_PREFIX + "rateLimited"

  /** strings.Contains. */
  predicate Contains(text: string, part: string) {
    exists i: nat :: i <= |text| && StandsAt(text, part, i)
  }

  predicate StandsAt(text: string, part: string, i: nat) {
    i + |part| <= |text| && text[i..i + |part|] == part
  }

  function Kind(m: Message): Failure {
    if Contains(m.text, RATE_LIMITED) then RateLimited(m.retryAfter)
    else if Contains(m.text, PROBLEM_PREFIX) then Rejected
    else Local
  }

  /** The text is the part with something in front of it and something behind it. */
  ghost predicate IsAround(text: string, front: string, part: string, back: string) {
    text == front + part + back
  }

  lemma ContainsIff(text: string, part: string)
    ensures Contains(text, part) <==> exists front, back :: IsAround(text, front, part, back)
  {
    if Contains(text, part) {
      var i: nat :| i <= |text| && StandsAt(text, part, i);
      assert IsAround(text, text[..i], part, text[i + |part|..]);
    }
    if front, back :| IsAround(text, front, part, back) {
      assert StandsAt(text, part, |front|);
    }
  }

  /**
   A rejection is an ACME problem that is no rate limit, a local failure is no ACME problem at all, and a
   rate limit comes with the time it names.
   */
  lemma KindIff(m: Message)
    ensures Kind(m) == Local <==>
              !exists front, back :: IsAround(m.text, front, "urn:ietf:params:acme:error:", back)
    ensures Kind(m) == RateLimited(m.retryAfter) <==>
              exists front, back :: IsAround(m.text, front, "urn:ietf:params:acme:error:rateLimited", back)
    ensures Kind(m).RateLimited? ==> Kind(m).retryAfter == m.retryAfter
  {
    assert RATE_LIMITED == "urn:ietf:params:acme:error:rateLimited";
    ContainsIff(m.text, PROBLEM_PREFIX);
    ContainsIff(m.text, RATE_LIMITED);
    if Contains(m.text, RATE_LIMITED) {
      var i: nat :| i <= |m.text| && StandsAt(m.text, RATE_LIMITED, i);
      assert m.text[i..i + |PROBLEM_PREFIX|] == m.text[i..i + |RATE_LIMITED|][..|PROBLEM_PREFIX|];
      assert StandsAt(m.text, PROBLEM_PREFIX, i);
    }
  }

  function RateLimitPause(retryAfter: Option<int>, now: int): int {
    if retryAfter.None? then DEFAULT_PAUSE else Min(Max(retryAfter.value - now, LOCAL_BASE), MAX_PAUSE)
  }

  /** The pause ends when the CA says, but is never shorter than a minute nor longer than a week. */
  lemma RateLimitPauseBounds(retryAfter: Option<int>, now: int)
    ensures MINUTE <= RateLimitPause(retryAfter, now) <= 7 * 24 * HOUR
    ensures retryAfter.Some? && MINUTE <= retryAfter.value - now <= 7 * 24 * HOUR ==>
              now + RateLimitPause(retryAfter, now) == retryAfter.value
  {
  }

  datatype Entry = Entry(acmeRejections: nat, localFailures: nat, retryAt: int, lastErr: string)

  const NO_ENTRY := Entry(0, 0, 0, "")

  function Recorded(entry: Option<Entry>, m: Message, now: int): Entry {
    var e := if entry.Some? then entry.value else NO_ENTRY;
    match Kind(m)
    case RateLimited(retryAfter) =>
      Entry(e.acmeRejections + 1, e.localFailures, now + RateLimitPause(retryAfter, now), m.text)
    case Rejected =>
      var pause := Backoff(REJECTION_BASE, REJECTION_MAX, e.acmeRejections + 1);
      Entry(e.acmeRejections + 1, e.localFailures, now + pause, m.text)
    case Local =>
      var pause := Backoff(LOCAL_BASE, LOCAL_MAX, e.localFailures + 1);
      Entry(e.acmeRejections, e.localFailures + 1, now + pause, m.text)
  }

  /** 5, 10, 20, 40 and then 60 minutes, in nanoseconds. */
  function RejectionPause(k: nat): int {
    (if k <= 1 then 5 else if k == 2 then 10 else if k == 3 then 20 else if k == 4 then 40 else 60) * 60_000_000_000
  }

  /** 1, 2, 4, 8 and then 10 minutes, in nanoseconds. */
  function LocalPause(k: nat): int {
    (if k <= 1 then 1 else if k == 2 then 2 else if k == 3 then 4 else if k == 4 then 8 else 10) * 60_000_000_000
  }

  lemma BackoffTable(k: nat)
    requires k >= 1
    ensures Backoff(REJECTION_BASE, REJECTION_MAX, k) == RejectionPause(k)
    ensures Backoff(LOCAL_BASE, LOCAL_MAX, k) == LocalPause(k)
  {
    assert forall base :: Doubled(base, 1) == 2 * Doubled(base, 0) && Doubled(base, 0) == base;
    assert forall base :: Doubled(base, 2) == 2 * Doubled(base, 1);
    assert forall base :: Doubled(base, 3) == 2 * Doubled(base, 2);
    assert forall base :: Doubled(base, 4) == 2 * Doubled(base, 3);
    if k >= 5 {
      BackoffGrows(REJECTION_BASE, REJECTION_MAX, 5, k);
      BackoffGrows(LOCAL_BASE, LOCAL_MAX, 5, k);
    }
  }

  /**
   What a failure is remembered as.  The k-th answer of the CA that is no rate limit pauses for 5, 10, 20,
   40 and then 60 minutes, and the k-th local failure for 1, 2, 4, 8 and then 10; a rate limit pauses for an
   hour if it names no time, and else until then, but no less than a minute and no more than a week.
   */
  lemma RecordedExactly(entry: Option<Entry>, m: Message, now: int)
    ensures var e, r := if entry.Some? then entry.value else Entry(0, 0, 0, ""), Recorded(entry, m, now);
      && r.lastErr == m.text
      && match Kind(m)
         case Rejected =>
           && r.acmeRejections == e.acmeRejections + 1 && r.localFailures == e.localFailures
           && r.retryAt == now + RejectionPause(e.acmeRejections + 1)
         case Local =>
           && r.acmeRejections == e.acmeRejections && r.localFailures == e.localFailures + 1
           && r.retryAt == now + LocalPause(e.localFailures + 1)
         case RateLimited(at) =>
           && r.acmeRejections == e.acmeRejections + 1 && r.localFailures == e.localFailures
           && r.retryAt ==
                if at.None? then now + 3_600_000_000_000
                else if at.value < now + 60_000_000_000 then now + 60_000_000_000
                else if at.value > now + 604_800_000_000_000 then now + 604_800_000_000_000
                else at.value
  {
    var e := if entry.Some? then entry.value else NO_ENTRY;
    BackoffTable(e.acmeRejections + 1);
    BackoffTable(e.localFailures + 1);
  }

  predicate Paused(entry: Option<Entry>, now: int) {
    entry.Some? && now < entry.value.retryAt
  }

  // ----- orders

  /** `certOrderCooldownKey`. */
  datatype Key = Key(text: string)

  /**
   One call of `placeCertOrder`: the config is valid, the clock when the cooldown is checked, the
   self-test passes, what the order returns and when the CA answered, and the clock when that is
   recorded.
   */
  datatype Attempt = Attempt(
    valid: bool, checked: int, selfTest: bool, result: Option<Message>, answered: int, recorded: int)

  predicate InOrder(a: Attempt) {
    a.checked <= a.answered <= a.recorded
  }

  /** The order is sent to the CA. */
  predicate Placed(entry: Option<Entry>, a: Attempt) {
    a.valid && !Paused(entry, a.checked) && a.selfTest
  }

  function After(entry: Option<Entry>, a: Attempt): Option<Entry> {
    if !Placed(entry, a) then entry
    else if a.result.None? then None
    else Some(Recorded(entry, a.result.value, a.recorded))
  }

  class Cooldown {
    var entries: map<Key, Entry>

    ghost function Of(key: Key): Option<Entry>
      reads this
    {
      if key in entries then Some(entries[key]) else None
    }

    constructor ()
      ensures entries == map[]
    {
      entries := map[];
    }

    method Check(key: Key, now: int) returns (paused: bool)
      ensures paused == Paused(Of(key), now) == (key in entries && now < entries[key].retryAt)
    {
      if key !in entries || !(now < entries[key].retryAt) {
        return false;
      }
      return true;
    }

    method RecordFailure(key: Key, m: Message, now: int)
      modifies this
      ensures entries == old(entries)[key := Recorded(old(Of(key)), m, now)]
    {
      var entry := if key in entries then entries[key] else NO_ENTRY;
      entry := entry.(lastErr := m.text);
      if Contains(m.text, RATE_LIMITED) {
        var pause := RateLimitPause(m.retryAfter, now);
        entry := entry.(acmeRejections := entry.acmeRejections + 1, retryAt := now + pause);
      } else if Contains(m.text, PROBLEM_PREFIX) {
        var delay := DoublingBackoff(REJECTION_BASE, REJECTION_MAX, entry.acmeRejections + 1);
        entry := entry.(acmeRejections := entry.acmeRejections + 1, retryAt := now + delay);
      } else {
        var delay := DoublingBackoff(LOCAL_BASE, LOCAL_MAX, entry.localFailures + 1);
        entry := entry.(localFailures := entry.localFailures + 1, retryAt := now + delay);
      }
      entries := entries[key := entry];
    }

    method RecordSuccess(key: Key)
      modifies this
      ensures entries == old(entries) - {key}
    {
      entries := entries - {key};
    }

    /** `placeCertOrder`: an order is sent only when nothing local stands in its way; only its own key is touched. */
    method PlaceCertOrder(key: Key, a: Attempt) returns (placed: bool, ok: bool)
      modifies this
      ensures placed == (a.valid && !(key in old(entries) && a.checked < old(entries)[key].retryAt) && a.selfTest)
      ensures ok == (placed && a.result.None?)
      ensures entries ==
                if !placed then old(entries)
                else if a.result.None? then old(entries) - {key}
                else old(entries)[key := Recorded(old(Of(key)), a.result.value, a.recorded)]
      ensures placed == old(Placed(Of(key), a)) && Of(key) == After(old(Of(key)), a)
      ensures forall other | other != key :: Of(other) == old(Of(other))
    {
      if !a.valid {
        return false, false;
      }
      var paused := Check(key, a.checked);
      if paused {
        return false, false;
      }
      if !a.selfTest {
        return false, false;
      }
      if a.result.Some? {
        RecordFailure(key, a.result.value, a.recorded);
        return true, false;
      }
      RecordSuccess(key);
      return true, true;
    }
  }

  // ----- runs of orders for one key

  /** The entry after the first n attempts. */
  function At(start: Option<Entry>, run: seq<Attempt>, n: nat): Option<Entry>
    requires n <= |run|
  {
    if n == 0 then start else After(At(start, run, n - 1), run[n - 1])
  }

  /** Attempt i reached the CA and was rejected, not for a rate limit, within the window. */
  predicate RejectedIn(start: Option<Entry>, run: seq<Attempt>, i: nat, from: int, to: int)
    requires i < |run|
  {
    var a := run[i];
    Placed(At(start, run, i), a) && a.result.Some? && Kind(a.result.value) == Rejected && from <= a.answered <= to
  }

  predicate Succeeded(start: Option<Entry>, run: seq<Attempt>, i: nat)
    requires i < |run|
  {
    Placed(At(start, run, i), run[i]) && run[i].result.None?
  }

  function RejectionsIn(start: Option<Entry>, run: seq<Attempt>, n: nat, from: int, to: int): nat
    requires n <= |run|
  {
    if n == 0 then 0
    else RejectionsIn(start, run, n - 1, from, to) + if RejectedIn(start, run, n - 1, from, to) then 1 else 0
  }

  /** The rejections in the window since the last order that succeeded. */
  function RejectionsSinceSuccess(start: Option<Entry>, run: seq<Attempt>, n: nat, from: int, to: int): nat
    requires n <= |run|
  {
    if n == 0 || Succeeded(start, run, n - 1) then 0
    else
      RejectionsSinceSuccess(start, run, n - 1, from, to) + if RejectedIn(start, run, n - 1, from, to) then 1 else 0
  }

  function Successes(start: Option<Entry>, run: seq<Attempt>, n: nat): nat
    requires n <= |run|
  {
    if n == 0 then 0 else Successes(start, run, n - 1) + if Succeeded(start, run, n - 1) then 1 else 0
  }

  /** The clock is monotone within each attempt; the cooldown orders the attempts themselves. */
  ghost predicate Timed(run: seq<Attempt>) {
    forall i | 0 <= i < |run| :: InOrder(run[i])
  }

  /** How long after the window's start the next order waits, once it has seen k rejections. */
  function Wait(k: nat): int
    requires 1 <= k <= 4
  {
    if k == 1 then 5 * MINUTE else if k == 2 then 15 * MINUTE else if k == 3 then 35 * MINUTE else 75 * MINUTE
  }

  /** A failure never brings the next order forward and never forgets a rejection. */
  lemma FailureOnlyDelays(entry: Option<Entry>, a: Attempt)
    requires InOrder(a) && Placed(entry, a) && a.result.Some?
    ensures After(entry, a).Some? && After(entry, a).value.retryAt >= a.recorded
    ensures entry.Some? ==>
      && After(entry, a).value.retryAt >= entry.value.retryAt
      && After(entry, a).value.acmeRejections >= entry.value.acmeRejections
  {
    var e := if entry.Some? then entry.value else NO_ENTRY;
    RateLimitPauseBounds(a.result.value.retryAfter, a.recorded);
    BackoffGrows(REJECTION_BASE, REJECTION_MAX, 1, e.acmeRejections + 1);
    BackoffGrows(LOCAL_BASE, LOCAL_MAX, 1, e.localFailures + 1);
  }

  lemma BackoffAtLeast(k: nat, rejections: nat)
    requires k <= 3 && rejections >= k + 1
    ensures Backoff(REJECTION_BASE, REJECTION_MAX, rejections) >= if k == 0 then 5 * MINUTE else Wait(k + 1) - Wait(k)
  {
    BackoffGrows(REJECTION_BASE, REJECTION_MAX, k + 1, rejections);
    assert Doubled(REJECTION_BASE, 0) == 5 * MINUTE;
    assert Doubled(REJECTION_BASE, 1) == 10 * MINUTE;
    assert Doubled(REJECTION_BASE, 2) == 20 * MINUTE;
    assert Doubled(REJECTION_BASE, 3) == 40 * MINUTE;
  }

  /** Once a window has seen k rejections, the entry holds the next order back long enough. */
  predicate HeldBack(entry: Option<Entry>, k: nat, from: int) {
    k <= 4 && (k >= 1 ==> entry.Some? && entry.value.acmeRejections >= k && entry.value.retryAt >= from + Wait(k))
  }

  lemma RejectionStep(entry: Option<Entry>, a: Attempt, k: nat, from: int)
    requires InOrder(a) && Placed(entry, a) && a.result.Some? && Kind(a.result.value) == Rejected
    requires from <= a.answered <= from + HOUR && HeldBack(entry, k, from)
    ensures HeldBack(After(entry, a), k + 1, from)
  {
    var rejections := (if entry.Some? then entry.value.acmeRejections else 0) + 1;
    assert k <= 3;
    BackoffAtLeast(k, rejections);
  }

  lemma {:induction false} WindowInvariant(start: Option<Entry>, run: seq<Attempt>, n: nat, from: int)
    requires Timed(run) && n <= |run|
    ensures HeldBack(At(start, run, n), RejectionsSinceSuccess(start, run, n, from, from + HOUR), from)
  {
    if n > 0 {
      WindowInvariant(start, run, n - 1, from);
      var entry, a := At(start, run, n - 1), run[n - 1];
      assert InOrder(a);
      if RejectedIn(start, run, n - 1, from, from + HOUR) {
        RejectionStep(entry, a, RejectionsSinceSuccess(start, run, n - 1, from, from + HOUR), from);
      } else if Placed(entry, a) && a.result.Some? {
        FailureOnlyDelays(entry, a);
      }
    }
  }

  /**
   Any window of one hour holds at most four rejections by the CA that are not rate-limit replies between
   one success and the next, whatever local failures and rate limits come in between and whatever the
   history before.
   */
  lemma AtMostFourBetweenSuccesses(start: Option<Entry>, run: seq<Attempt>, n: nat, from: int)
    requires Timed(run) && n <= |run|
    ensures RejectionsSinceSuccess(start, run, n, from, from + HOUR) <= 4
  {
    WindowInvariant(start, run, n, from);
  }

  /** So each success makes room for at most four more. */
  lemma {:induction false} AtMostFourForEachSuccess(start: Option<Entry>, run: seq<Attempt>, n: nat, from: int)
    requires Timed(run) && n <= |run|
    ensures RejectionsIn(start, run, n, from, from + HOUR) <=
              4 * Successes(start, run, n) + RejectionsSinceSuccess(start, run, n, from, from + HOUR)
  {
    if n > 0 {
      AtMostFourForEachSuccess(start, run, n - 1, from);
      AtMostFourBetweenSuccesses(start, run, n - 1, from);
    }
  }

  /** Without a success any window of one hour holds at most four. */
  lemma AtMostFourRejectionsAnHour(start: Option<Entry>, run: seq<Attempt>, from: int)
    requires Timed(run) && Successes(start, run, |run|) == 0
    ensures RejectionsIn(start, run, |run|, from, from + HOUR) <= 4
  {
    AtMostFourForEachSuccess(start, run, |run|, from);
    AtMostFourBetweenSuccesses(start, run, |run|, from);
  }

  // ----- the bound is attained

  const REJECTION := Message(PROBLEM_PREFIX, None)

  lemma RejectionIsRejected()
    ensures Kind(REJECTION) == Rejected
  {
    assert StandsAt(REJECTION.text, PROBLEM_PREFIX, 0);
    assert |RATE_LIMITED| > |REJECTION.text|;
  }

  function Rejection(at: int): Attempt {
    Attempt(true, at, true, Some(REJECTION), at, at)
  }

  function Success(at: int): Attempt {
    Attempt(true, at, true, None, at, at)
  }

  function RejectedEntry(k: nat, retryAt: int): Option<Entry> {
    Some(Entry(k, 0, retryAt, PROBLEM_PREFIX))
  }

  lemma FirstPauses()
    ensures Backoff(REJECTION_BASE, REJECTION_MAX, 1) == 5 * MINUTE
    ensures Backoff(REJECTION_BASE, REJECTION_MAX, 2) == 10 * MINUTE
    ensures Backoff(REJECTION_BASE, REJECTION_MAX, 3) == 20 * MINUTE
    ensures Backoff(REJECTION_BASE, REJECTION_MAX, 4) == 40 * MINUTE
  {
    assert Doubled(REJECTION_BASE, 0) == 5 * MINUTE;
    assert Doubled(REJECTION_BASE, 1) == 10 * MINUTE;
    assert Doubled(REJECTION_BASE, 2) == 20 * MINUTE;
    assert Doubled(REJECTION_BASE, 3) == 40 * MINUTE;
  }

  /** Four rejections in an hour do happen. */
  lemma FourIsAttained() returns (run: seq<Attempt>)
    ensures Timed(run) && Successes(None, run, |run|) == 0 && RejectionsIn(None, run, |run|, 0, HOUR) == 4
  {
    run := [Rejection(0), Rejection(5 * MINUTE), Rejection(15 * MINUTE), Rejection(35 * MINUTE)];
    RejectionIsRejected();
    FirstPauses();
    assert At(None, run, 0) == None;
    assert At(None, run, 1) == RejectedEntry(1, 5 * MINUTE);
    assert At(None, run, 2) == RejectedEntry(2, 15 * MINUTE);
    assert At(None, run, 3) == RejectedEntry(3, 35 * MINUTE);
    assert RejectionsIn(None, run, 1, 0, HOUR) == 1 && Successes(None, run, 1) == 0;
    assert RejectionsIn(None, run, 2, 0, HOUR) == 2 && Successes(None, run, 2) == 0;
    assert RejectionsIn(None, run, 3, 0, HOUR) == 3 && Successes(None, run, 3) == 0;
  }

  /** A success forgets the rejections before it: with one in the window there can be five. */
  lemma FiveAroundASuccess() returns (run: seq<Attempt>)
    ensures Timed(run) && Successes(None, run, |run|) == 1 && RejectionsIn(None, run, |run|, 0, HOUR) == 5
  {
    run := [Rejection(0), Success(5 * MINUTE), Rejection(6 * MINUTE), Rejection(11 * MINUTE),
            Rejection(21 * MINUTE), Rejection(41 * MINUTE)];
    RejectionIsRejected();
    FirstPauses();
    assert At(None, run, 0) == None;
    assert At(None, run, 1) == RejectedEntry(1, 5 * MINUTE);
    assert At(None, run, 2) == None;
    assert At(None, run, 3) == RejectedEntry(1, 11 * MINUTE);
    assert At(None, run, 4) == RejectedEntry(2, 21 * MINUTE);
    assert At(None, run, 5) == RejectedEntry(3, 41 * MINUTE);
    assert RejectionsIn(None, run, 1, 0, HOUR) == 1 && Successes(None, run, 1) == 0;
    assert RejectionsIn(None, run, 2, 0, HOUR) == 1 && Successes(None, run, 2) == 1;
    assert RejectionsIn(None, run, 3, 0, HOUR) == 2 && Successes(None, run, 3) == 1;
    assert RejectionsIn(None, run, 4, 0, HOUR) == 3 && Successes(None, run, 4) == 1;
    assert RejectionsIn(None, run, 5, 0, HOUR) == 4 && Successes(None, run, 5) == 1;
  }
}
