/**
 The event loop of the config watcher (conf/watch.go): file events, the settle and debounce
 timer, the reload goroutine with its `finished` channel, and `stop`.

 `Loop` holds the loop's local variables and `WatchLoop` the select cases that change them.  Around
 them `State` adds what runs beside the loop: the clock, the reload goroutines and the `done` and
 `exited` channels.  A timer that has expired keeps its value in the channel until it is received
 or drained, so a value that `schedule` forgot to drain would be visible here.
 */
module WatchLoop {
  import opened Common

  datatype Timings = Timings(settle: nat, debounce: nat)

  /** `Idle`: never started, stopped, or its value received.  `Fired`: the value is in the channel. */
  datatype Timer = Idle | Running(due: int) | Fired

  /** `listening` is timerC != nil; `previous` is None for the zero time. */
  datatype Loop = Loop(
    timer: Timer, listening: bool, previous: Option<int>, lastEvent: int, pending: bool, active: bool)

  // ----- the select cases, on values

  /** The earliest time a reload may start. */
  function Deadline(p: Timings, l: Loop): int {
    var settled := l.lastEvent + p.settle;
    if l.previous.Some? then Max(settled, l.previous.value + p.debounce) else settled
  }

  function Scheduled(p: Timings, l: Loop, now: int): Loop {
    l.(timer := Running(Max(now, Deadline(p, l))), listening := true)
  }

  /** An event is stamped at `at`, and the timer is set at `now`. */
  function AfterEvent(p: Timings, l: Loop, at: int, now: int): Loop {
    Scheduled(p, l.(lastEvent := at, pending := true), now)
  }

  predicate Starts(l: Loop) {
    l.pending && !l.active
  }

  function AfterTimer(l: Loop, now: int): Loop {
    var l' := l.(timer := Idle, listening := false);
    if Starts(l) then l'.(pending := false, active := true, previous := Some(now)) else l'
  }

  function AfterFinished(p: Timings, l: Loop, now: int): Loop {
    var l' := l.(active := false);
    if l'.pending then Scheduled(p, l', now) else l'
  }

  // ----- the loop's code

  class WatchLoop {
    const p: Timings
    var timer: Timer
    var listening: bool
    var previous: Option<int>
    var lastEvent: int
    var pending: bool
    var active: bool

    ghost function View(): Loop
      reads this
    {
      Loop(timer, listening, previous, lastEvent, pending, active)
    }

    constructor (p: Timings)
      ensures View() == INITIAL && this.p == p
    {
      this.p := p;
      timer, listening, previous, lastEvent, pending, active := Idle, false, None, 0, false, false;
    }

    method Schedule(now: int)
      modifies this
      ensures View() == Scheduled(p, old(View()), now)
    {
      var deadline := lastEvent + p.settle;
      if previous.Some? && previous.value + p.debounce > deadline {
        deadline := previous.value + p.debounce;
      }
      var delay := deadline - now;
      if delay < 0 {
        delay := 0;
      }
      if timer.Running? {
        timer := Idle;           // Stop
      } else if timer.Fired? {
        timer := Idle;           // Stop came too late: drain the channel
      }
      timer := Running(now + delay);
      listening := true;
    }

    method OnEvent(at: int, now: int)
      modifies this
      ensures View() == AfterEvent(p, old(View()), at, now)
    {
      lastEvent, pending := at, true;
      Schedule(now);
    }

    method OnTimer(now: int) returns (start: bool)
      modifies this
      ensures View() == AfterTimer(old(View()), now) && start == old(Starts(View()))
    {
      timer, listening := Idle, false;
      if !pending || active {
        return false;
      }
      pending, active, previous := false, true, Some(now);
      return true;
    }

    method OnFinished(now: int)
      modifies this
      ensures View() == AfterFinished(p, old(View()), now)
    {
      active := false;
      if pending {
        Schedule(now);
      }
    }
  }

  // ----- the loop and what runs beside it

  /** A reload goroutine is inside `reloadChanged`, or past it and about to report. */
  datatype Reload = Working | Reporting

  /** `reloads` holds the goroutines the wait group counts; `finished` says the channel's one slot is full. */
  datatype State = State(
    now: int, loop: Loop, reloads: seq<Reload>, finished: bool, done: bool, exited: bool, stopped: bool)

  datatype Action =
    | Tick(to: int)
    | Expire                        // the runtime puts the timer's value into its channel
    | Ignore                        // a chmod, an event about another file, or a watcher error
    | Event(at: int, now: int)
    | TimerCase(now: int)
    | FinishedCase(now: int)
    | ReloadReturns(k: nat)
    | Report(k: nat)
    | GiveUp(k: nat)                // the goroutine sees `done` instead of reporting
    | CloseDone                     // `stop` begins
    | Exit                          // the loop returns: `done`, or the watcher closed its channels
    | StopReturns

  const INITIAL := Loop(Idle, false, None, 0, false, false)
  const START := State(0, INITIAL, [], false, false, false, false)

  predicate Enabled(s: State, a: Action) {
    match a
    case Tick(to) => s.now <= to
    case Expire => s.loop.timer.Running? && s.loop.timer.due <= s.now
    case Ignore => !s.exited
    case Event(at, now) => !s.exited && s.now <= at <= now
    case TimerCase(now) => !s.exited && s.now <= now && s.loop.listening && s.loop.timer.Fired?
    case FinishedCase(now) => !s.exited && s.now <= now && s.finished
    case ReloadReturns(k) => k < |s.reloads| && s.reloads[k].Working?
    case Report(k) => k < |s.reloads| && s.reloads[k].Reporting? && !s.finished
    case GiveUp(k) => k < |s.reloads| && s.reloads[k].Reporting? && s.done
    case CloseDone => true
    case Exit => !s.exited
    case StopReturns => s.done && s.exited && s.reloads == []
  }

  function Next(p: Timings, s: State, a: Action): State
    requires Enabled(s, a)
  {
    match a
    case Tick(to) => s.(now := to)
    case Expire => s.(loop := s.loop.(timer := Fired))
    case Ignore => s
    case Event(at, now) => s.(now := now, loop := AfterEvent(p, s.loop, at, now))
    case TimerCase(now) =>
      s.(now := now, loop := AfterTimer(s.loop, now),
         reloads := if Starts(s.loop) then s.reloads + [Working] else s.reloads)
    case FinishedCase(now) => s.(now := now, loop := AfterFinished(p, s.loop, now), finished := false)
    case ReloadReturns(k) => s.(reloads := s.reloads[k := Reporting])
    case Report(k) => s.(reloads := s.reloads[..k] + s.reloads[k + 1..], finished := true)
    case GiveUp(k) => s.(reloads := s.reloads[..k] + s.reloads[k + 1..])
    case CloseDone => s.(done := true)
    case Exit => s.(exited := true, loop := s.loop.(timer := Idle))
    case StopReturns => s.(stopped := true)
  }

  /** The action is the loop's decision to start a reload. */
  predicate StartsReload(s: State, a: Action) {
    a.TimerCase? && Starts(s.loop)
  }

  ghost predicate StepAt(p: Timings, states: seq<State>, acts: seq<Action>, i: nat)
    requires |states| == |acts| + 1 && i < |acts|
  {
    Enabled(states[i], acts[i]) && states[i + 1] == Next(p, states[i], acts[i])
  }

  ghost predicate IsRun(p: Timings, states: seq<State>, acts: seq<Action>) {
    && |states| == |acts| + 1
    && states[0] == START
    && forall i | 0 <= i < |acts| :: StepAt(p, states, acts, i)
  }

  // ----- what every step keeps

  /** An armed timer is due no earlier than the deadline; once fired, the deadline has passed. */
  predicate Armed(p: Timings, s: State) {
    match s.loop.timer
    case Idle => !s.loop.listening
    case Running(due) => s.loop.listening && due >= Deadline(p, s.loop)
    case Fired => s.loop.listening && s.now >= Deadline(p, s.loop)
  }

  predicate Inv(p: Timings, s: State) {
    && s.loop.lastEvent <= s.now
    && (s.loop.previous.Some? ==> s.loop.previous.value <= s.now)
    && (s.exited || Armed(p, s))
    && (s.exited || (s.loop.pending ==> s.loop.timer != Idle || s.loop.active))
    && |s.reloads| <= 1
    && (s.reloads != [] ==> s.loop.active && !s.finished)
    && (s.finished ==> s.loop.active)
    && (s.loop.active ==> s.reloads != [] || s.finished || s.done)
    && (s.stopped ==> s.exited && s.reloads == [])
  }

  lemma StepKeepsInv(p: Timings, s: State, a: Action)
    requires Inv(p, s) && Enabled(s, a)
    ensures Inv(p, Next(p, s, a))
    ensures s.now <= Next(p, s, a).now && s.loop.lastEvent <= Next(p, s, a).loop.lastEvent
  {
  }

  lemma StepKeepsPending(p: Timings, s: State, a: Action)
    requires Enabled(s, a)
    ensures a.Event? || (s.loop.pending && !StartsReload(s, a)) ==> Next(p, s, a).loop.pending
  {
  }

  lemma {:induction false} Reachable(p: Timings, states: seq<State>, acts: seq<Action>, n: nat)
    requires IsRun(p, states, acts) && n < |states|
    ensures Inv(p, states[n])
  {
    if n > 0 {
      Reachable(p, states, acts, n - 1);
      assert StepAt(p, states, acts, n - 1);
      StepKeepsInv(p, states[n - 1], acts[n - 1]);
    }
  }

  // ----- safety over whole runs

  /** At most one reload runs at any time, also while its result waits to be noticed. */
  lemma OneReloadAtATime(p: Timings, states: seq<State>, acts: seq<Action>, n: nat)
    requires IsRun(p, states, acts) && n < |states|
    ensures |states[n].reloads| <= 1
    ensures n < |acts| && StartsReload(states[n], acts[n]) ==> states[n].reloads == [] && !states[n].finished
  {
    Reachable(p, states, acts, n);
  }

  lemma {:induction false} LastEventGrows(p: Timings, states: seq<State>, acts: seq<Action>, i: nat, j: nat)
    requires IsRun(p, states, acts) && i < j < |states| && acts[i].Event?
    ensures acts[i].at <= states[j].loop.lastEvent && acts[i].at <= states[j].now
  {
    if i + 1 < j {
      LastEventGrows(p, states, acts, i, j - 1);
      Reachable(p, states, acts, j - 1);
      assert StepAt(p, states, acts, j - 1);
      StepKeepsInv(p, states[j - 1], acts[j - 1]);
    } else {
      assert StepAt(p, states, acts, i);
    }
  }

  /** A reload starts no earlier than `settle` after every event before it. */
  lemma StartsAfterSettling(p: Timings, states: seq<State>, acts: seq<Action>, i: nat, j: nat)
    requires IsRun(p, states, acts) && i < j < |acts|
    requires acts[i].Event? && StartsReload(states[j], acts[j])
    ensures acts[j].now >= acts[i].at + p.settle
  {
    Reachable(p, states, acts, j);
    LastEventGrows(p, states, acts, i, j);
    assert StepAt(p, states, acts, j);
  }

  lemma {:induction false} PreviousGrows(p: Timings, states: seq<State>, acts: seq<Action>, i: nat, j: nat)
    requires IsRun(p, states, acts) && i < j < |states| && StartsReload(states[i], acts[i])
    ensures states[j].loop.previous.Some? && acts[i].now <= states[j].loop.previous.value <= states[j].now
  {
    assert StepAt(p, states, acts, j - 1);
    if i + 1 < j {
      PreviousGrows(p, states, acts, i, j - 1);
    }
  }

  /** Two reloads start at least `debounce` apart. */
  lemma StartsAreDebounced(p: Timings, states: seq<State>, acts: seq<Action>, i: nat, j: nat)
    requires IsRun(p, states, acts) && i < j < |acts|
    requires StartsReload(states[i], acts[i]) && StartsReload(states[j], acts[j])
    ensures acts[j].now >= acts[i].now + p.debounce
  {
    Reachable(p, states, acts, j);
    PreviousGrows(p, states, acts, i, j);
    assert StepAt(p, states, acts, j);
  }

  lemma {:induction false} StaysPending(p: Timings, states: seq<State>, acts: seq<Action>, i: nat, j: nat)
    requires IsRun(p, states, acts) && i < j < |states| && acts[i].Event?
    requires forall k | i < k < j :: !StartsReload(states[k], acts[k])
    ensures states[j].loop.pending
  {
    if i + 1 < j {
      StaysPending(p, states, acts, i, j - 1);
    }
    assert StepAt(p, states, acts, j - 1);
    StepKeepsPending(p, states[j - 1], acts[j - 1]);
  }

  /** An event that no later start covers stays pending, and the timer is armed or a reload is active. */
  lemma NoEventIsLost(p: Timings, states: seq<State>, acts: seq<Action>, i: nat, j: nat)
    requires IsRun(p, states, acts) && i < j < |states| && acts[i].Event? && !states[j].exited
    requires forall k | i < k < j :: !StartsReload(states[k], acts[k])
    ensures states[j].loop.pending
    ensures (states[j].loop.listening && states[j].loop.timer != Idle) || states[j].loop.active
  {
    StaysPending(p, states, acts, i, j);
    Reachable(p, states, acts, j);
  }

  lemma {:induction false} StoppedStays(p: Timings, states: seq<State>, acts: seq<Action>, i: nat, j: nat)
    requires IsRun(p, states, acts) && i < j < |states| && acts[i].StopReturns?
    ensures states[j].stopped
  {
    assert StepAt(p, states, acts, j - 1);
    if i + 1 < j {
      StoppedStays(p, states, acts, i, j - 1);
    }
  }

  /** Once `stop` has returned no reload is running, and none starts. */
  lemma NothingRunsAfterStop(p: Timings, states: seq<State>, acts: seq<Action>, i: nat, j: nat)
    requires IsRun(p, states, acts) && i < j < |states| && acts[i].StopReturns?
    ensures states[j].reloads == []
    ensures j < |acts| ==> !StartsReload(states[j], acts[j])
  {
    StoppedStays(p, states, acts, i, j);
    Reachable(p, states, acts, j);
    assert j < |acts| ==> StepAt(p, states, acts, j);
  }

  /** What is pending is an event that no start has covered yet. */
  lemma {:induction false} PendingHasEvent(p: Timings, states: seq<State>, acts: seq<Action>, j: nat) returns (i: nat)
    requires IsRun(p, states, acts) && j < |states| && states[j].loop.pending
    ensures i < j && acts[i].Event? && forall k | i < k < j :: !StartsReload(states[k], acts[k])
  {
    assert j > 0 && StepAt(p, states, acts, j - 1);
    if acts[j - 1].Event? {
      i := j - 1;
    } else {
      i := PendingHasEvent(p, states, acts, j - 1);
    }
  }

  /** A reload starts only for an event that has come since the start before it. */
  lemma StartsOnlyForEvents(p: Timings, states: seq<State>, acts: seq<Action>, j: nat)
    requires IsRun(p, states, acts) && j < |acts| && StartsReload(states[j], acts[j])
    ensures exists i :: 0 <= i < j && acts[i].Event? && forall k | i < k < j :: !StartsReload(states[k], acts[k])
  {
    var i := PendingHasEvent(p, states, acts, j);
  }

  // ----- no reload is put off longer than that

  /** The last event is remembered with its time. */
  lemma {:induction false} LastEventIs(p: Timings, states: seq<State>, acts: seq<Action>, i: nat, j: nat)
    requires IsRun(p, states, acts) && i < j < |states| && acts[i].Event?
    requires forall k | i < k < j :: !acts[k].Event?
    ensures states[j].loop.lastEvent == acts[i].at
  {
    assert StepAt(p, states, acts, j - 1);
    if i + 1 < j {
      LastEventIs(p, states, acts, i, j - 1);
    }
  }

  /** The last start is remembered with its time. */
  lemma {:induction false} LastStartIs(p: Timings, states: seq<State>, acts: seq<Action>, i: nat, j: nat)
    requires IsRun(p, states, acts) && i < j < |states| && StartsReload(states[i], acts[i])
    requires forall k | i < k < j :: !StartsReload(states[k], acts[k])
    ensures states[j].loop.previous == Some(acts[i].now)
  {
    assert StepAt(p, states, acts, j - 1);
    if i + 1 < j {
      LastStartIs(p, states, acts, i, j - 1);
    }
  }

  lemma {:induction false} NoStartYet(p: Timings, states: seq<State>, acts: seq<Action>, j: nat)
    requires IsRun(p, states, acts) && j < |states| && forall k | 0 <= k < j :: !StartsReload(states[k], acts[k])
    ensures states[j].loop.previous == None
  {
    if j > 0 {
      NoStartYet(p, states, acts, j - 1);
      assert StepAt(p, states, acts, j - 1);
    }
  }

  /** A timer that is due later waits for settling or for the debounce, and for nothing else. */
  ghost predicate Prompt(p: Timings, s: State) {
    !s.exited && s.loop.timer.Running? && s.loop.timer.due > s.now ==>
      || s.loop.timer.due == s.loop.lastEvent + p.settle
      || (s.loop.previous.Some? && s.loop.timer.due == s.loop.previous.value + p.debounce)
  }

  lemma {:induction false} TimerIsPrompt(p: Timings, states: seq<State>, acts: seq<Action>, n: nat)
    requires IsRun(p, states, acts) && n < |states|
    ensures Prompt(p, states[n])
  {
    if n > 0 {
      TimerIsPrompt(p, states, acts, n - 1);
      assert StepAt(p, states, acts, n - 1);
    }
  }

  /**
   While the timer runs it is due exactly when the last event i has settled and the last start, if there
   was one, is `debounce` ago; a timer set later than that is due at once.
   */
  lemma TimerIsDueExactly(p: Timings, states: seq<State>, acts: seq<Action>, i: nat, j: nat)
    requires IsRun(p, states, acts) && i < j < |states| && acts[i].Event? && !states[j].exited
    requires forall m | i < m < j :: !acts[m].Event?
    requires states[j].loop.timer.Running? && states[j].loop.timer.due > states[j].now
    ensures (forall k | 0 <= k < j :: !StartsReload(states[k], acts[k])) ==>
              states[j].loop.timer.due == acts[i].at + p.settle
    ensures forall k | 0 <= k < j && StartsReload(states[k], acts[k]) &&
                       (forall m | k < m < j :: !StartsReload(states[m], acts[m])) ::
              states[j].loop.timer.due ==
                if acts[k].now + p.debounce > acts[i].at + p.settle then acts[k].now + p.debounce
                else acts[i].at + p.settle
  {
    TimerIsPrompt(p, states, acts, j);
    Reachable(p, states, acts, j);
    LastEventIs(p, states, acts, i, j);
    if forall k | 0 <= k < j :: !StartsReload(states[k], acts[k]) {
      NoStartYet(p, states, acts, j);
    }
    forall k | 0 <= k < j && StartsReload(states[k], acts[k]) &&
               (forall m | k < m < j :: !StartsReload(states[m], acts[m]))
      ensures states[j].loop.previous == Some(acts[k].now)
    {
      LastStartIs(p, states, acts, k, j);
    }
  }

  // ----- a pending event can always be served

  /** The states that a list of actions leads through. */
  ghost predicate Leads(p: Timings, s: State, acts: seq<Action>, t: State)
    decreases |acts|
  {
    if acts == [] then s == t
    else Enabled(s, acts[0]) && Leads(p, Next(p, s, acts[0]), acts[1..], t)
  }

  lemma Lead1(p: Timings, s: State, a: Action, acts: seq<Action>, t: State)
    requires Enabled(s, a) && Leads(p, Next(p, s, a), acts, t)
    ensures Leads(p, s, [a] + acts, t)
  {
    assert ([a] + acts)[1..] == acts;
  }

  /** How far a pending event is from its reload. */
  function Distance(s: State): nat {
    (if s.loop.active then (if s.reloads == [] then 4 else if s.reloads[0].Working? then 6 else 5) else 0)
    + match s.loop.timer
      case Idle => 0
      case Fired => 1
      case Running(_) => 2
  }

  /**
   From every state the loop can be in, while nobody has asked it to stop, a pending event can
   still get its reload: by the passing of time, the return of the running reload and the loop's
   own steps alone.
   */
  lemma {:induction false} PendingCanStart(p: Timings, s: State) returns (acts: seq<Action>, t: State, now: int)
    requires Inv(p, s) && s.loop.pending && !s.done && !s.exited
    ensures Leads(p, s, acts, t)
    ensures forall a | a in acts ::
              a.Tick? || a.Expire? || a.TimerCase? || a.FinishedCase? || a.ReloadReturns? || a.Report?
    ensures Enabled(t, TimerCase(now)) && StartsReload(t, TimerCase(now))
    decreases Distance(s), s.loop.timer.Running? && s.loop.timer.due > s.now
  {
    var a: Action;
    if s.loop.active {
      a := if s.finished then FinishedCase(s.now) else if s.reloads[0].Working? then ReloadReturns(0) else Report(0);
    } else if s.loop.timer.Fired? {
      return [], s, s.now;
    } else if s.loop.timer.due <= s.now {
      a := Expire;
    } else {
      a := Tick(s.loop.timer.due);
    }
    StepKeepsInv(p, s, a);
    var rest;
    rest, t, now := PendingCanStart(p, Next(p, s, a));
    Lead1(p, s, a, rest, t);
    acts := [a] + rest;
  }
}
