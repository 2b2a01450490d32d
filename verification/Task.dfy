/**
 The periodic task (common/task/task.go): `Start`, `Close` and the goroutine of each run, which may
 outlive the run's place in the task.

 Every run gets a stop channel of its own, numbered in the order they are made.  Closing a closed
 channel panics, so `Close` on a channel is kept as an operation that can go wrong.
 */
module Task {

  /** The fields under `access`, the channels closed so far and whether one was closed twice. */
  datatype Fields = Fields(running: bool, stop: nat, made: nat, closed: set<nat>, panicked: bool)

  const NEW := Fields(false, 0, 0, {}, false)

  function ClosedChannel(f: Fields, c: nat): Fields {
    f.(closed := f.closed + {c}, panicked := f.panicked || c in f.closed)
  }

  function Started(f: Fields): Fields {
    if f.running then f else f.(running := true, stop := f.made, made := f.made + 1)
  }

  function Stopped(f: Fields): Fields {
    if f.running then ClosedChannel(f.(running := false), f.stop) else f
  }

  /** The deferred function of the goroutine that owns channel g. */
  function Exited(f: Fields, g: nat): Fields {
    if f.running && f.stop == g then ClosedChannel(f.(running := false), g) else f
  }

  class Task {
    var running: bool
    var stop: nat
    var made: nat
    var closed: set<nat>
    var panicked: bool

    ghost function View(): Fields
      reads this
    {
      Fields(running, stop, made, closed, panicked)
    }

    constructor ()
      ensures View() == NEW
    {
      running, stop, made, closed, panicked := false, 0, 0, {}, false;
    }

    method CloseChannel(c: nat)
      modifies `closed, `panicked
      ensures View() == ClosedChannel(old(View()), c)
    {
      if c in closed {
        panicked := true;
      }
      closed := closed + {c};
    }

    /** `launched` says that a goroutine was started, with channel `stop`. */
    method Start() returns (launched: bool)
      modifies this
      ensures View() == Started(old(View())) && launched == !old(running)
    {
      if running {
        return false;
      }
      running := true;
      stop, made := made, made + 1;
      return true;
    }

    method Close()
      modifies this
      ensures View() == Stopped(old(View()))
    {
      if running {
        running := false;
        CloseChannel(stop);
      }
    }

    method Exit(g: nat)
      modifies this
      ensures View() == Exited(old(View()), g)
    {
      if running && stop == g {
        running := false;
        CloseChannel(g);
      }
    }
  }

  // ----- the goroutines

  /** At the first select; behind it because the timer fired; in the callback; on the way out; gone. */
  datatype Phase = Waiting | Woken | Executing | Leaving | Gone

  /** One phase per run, in the order the runs were started. */
  datatype State = State(fields: Fields, phases: seq<Phase>)

  const IDLE := State(NEW, [])

  datatype Action =
    | Start
    | Close
    | Fire(g: nat)                     // the timer
    | Notice(g: nat)                   // the first select sees the stop channel
    | Check(g: nat)                    // the second select
    | Return(g: nat, failed: bool)     // the callback returns
    | Exit(g: nat)                     // the deferred function

  predicate Enabled(s: State, a: Action) {
    match a
    case Start => true
    case Close => true
    case Fire(g) => g < |s.phases| && s.phases[g].Waiting?
    case Notice(g) => g < |s.phases| && s.phases[g].Waiting? && g in s.fields.closed
    case Check(g) => g < |s.phases| && s.phases[g].Woken?
    case Return(g, _) => g < |s.phases| && s.phases[g].Executing?
    case Exit(g) => g < |s.phases| && s.phases[g].Leaving?
  }

  function Next(s: State, a: Action): State
    requires Enabled(s, a)
  {
    match a
    case Start => State(Started(s.fields), if s.fields.running then s.phases else s.phases + [Waiting])
    case Close => s.(fields := Stopped(s.fields))
    case Fire(g) => s.(phases := s.phases[g := Woken])
    case Notice(g) => s.(phases := s.phases[g := Leaving])
    case Check(g) => s.(phases := s.phases[g := if g in s.fields.closed then Leaving else Executing])
    case Return(g, failed) => s.(phases := s.phases[g := if failed then Leaving else Waiting])
    case Exit(g) => State(Exited(s.fields, g), s.phases[g := Gone])
  }

  ghost predicate StepAt(states: seq<State>, acts: seq<Action>, i: nat)
    requires |states| == |acts| + 1 && i < |acts|
  {
    Enabled(states[i], acts[i]) && states[i + 1] == Next(states[i], acts[i])
  }

  ghost predicate IsRun(states: seq<State>, acts: seq<Action>) {
    |states| == |acts| + 1 && states[0] == IDLE && forall i | 0 <= i < |acts| :: StepAt(states, acts, i)
  }

  // ----- what every interleaving keeps

  /** The channel of run g has been made and not been closed. */
  predicate Open(s: State, g: nat) {
    g < |s.phases| && g !in s.fields.closed
  }

  ghost predicate Inv(s: State) {
    var f := s.fields;
    && !f.panicked && f.made == |s.phases|
    && (f.running ==> f.stop + 1 == f.made && f.stop !in f.closed)
    && (forall c | c in f.closed :: c < f.made)
    && (forall c | 0 <= c < f.made && c !in f.closed :: f.running && c == f.stop)
    && (forall g | 0 <= g < |s.phases| && s.phases[g].Gone? :: g in f.closed)
  }

  lemma {:induction false} Reachable(states: seq<State>, acts: seq<Action>, n: nat)
    requires IsRun(states, acts) && n < |states|
    ensures Inv(states[n])
  {
    if n > 0 {
      Reachable(states, acts, n - 1);
      assert StepAt(states, acts, n - 1);
    }
  }

  /**
   Whatever the interleaving, no channel is closed twice, and a channel is open exactly while its run is the
   task's current one.
   */
  lemma ChannelsAreClosedOnce(states: seq<State>, acts: seq<Action>, n: nat)
    requires IsRun(states, acts) && n < |states|
    ensures !states[n].fields.panicked
    ensures forall g: nat :: Open(states[n], g) <==> states[n].fields.running && g == states[n].fields.stop
    ensures forall g: nat, g': nat | Open(states[n], g) && Open(states[n], g') :: g == g'
  {
    Reachable(states, acts, n);
  }

  /** A run that has been replaced changes nothing when it exits: its replacement stays the task's current run. */
  lemma ReplacedRunExitsQuietly(states: seq<State>, acts: seq<Action>, n: nat)
    requires IsRun(states, acts) && n < |acts| && acts[n].Exit?
    ensures acts[n].g + 1 < |states[n].phases| ==> states[n + 1].fields == states[n].fields
    ensures !(acts[n].g in states[n].fields.closed) ==> !states[n + 1].fields.running
  {
    Reachable(states, acts, n);
    assert StepAt(states, acts, n);
  }

  /** A run that has exited has left its channel closed, so that the task can be started again. */
  lemma GoneRunsAreClosed(states: seq<State>, acts: seq<Action>, n: nat, g: nat)
    requires IsRun(states, acts) && n < |states| && g < |states[n].phases| && states[n].phases[g].Gone?
    ensures !Open(states[n], g)
  {
    Reachable(states, acts, n);
  }

  lemma {:induction false} ClosedStaysClosed(states: seq<State>, acts: seq<Action>, g: nat, i: nat, j: nat)
    requires IsRun(states, acts) && i <= j < |states| && g in states[i].fields.closed
    ensures g in states[j].fields.closed
  {
    if i < j {
      ClosedStaysClosed(states, acts, g, i, j - 1);
      assert StepAt(states, acts, j - 1);
    }
  }

  /** Once its channel is closed, a run that reaches the second select leaves: it begins no further callback. */
  lemma NoCallbackBeginsAfterClose(states: seq<State>, acts: seq<Action>, g: nat, i: nat, j: nat)
    requires IsRun(states, acts) && i <= j < |acts| && g in states[i].fields.closed && acts[j] == Check(g)
    ensures g < |states[j + 1].phases| && states[j + 1].phases[g] == Leaving
  {
    ClosedStaysClosed(states, acts, g, i, j);
    assert StepAt(states, acts, j);
  }

  // ----- what each step is for

  /** After `Start` the task is running, with exactly one open channel; after `Close` it is not, with none. */
  lemma StartRunsAndCloseStops(states: seq<State>, acts: seq<Action>, n: nat)
    requires IsRun(states, acts) && n < |acts|
    ensures acts[n].Start? ==>
      && states[n + 1].fields.running && Open(states[n + 1], states[n + 1].fields.stop)
      && |states[n + 1].phases| == |states[n].phases| + if states[n].fields.running then 0 else 1
    ensures var s := states[n + 1]; acts[n].Close? ==> !s.fields.running && forall g: nat :: !Open(s, g)
  {
    Reachable(states, acts, n);
    Reachable(states, acts, n + 1);
    assert StepAt(states, acts, n);
  }

  /** A run that is still current and whose timer has fired calls back. */
  lemma CurrentRunCallsBack(states: seq<State>, acts: seq<Action>, n: nat, g: nat)
    requires IsRun(states, acts) && n < |acts| && acts[n] == Check(g) && Open(states[n], g)
    ensures g < |states[n + 1].phases| && states[n + 1].phases[g] == Executing
  {
    assert StepAt(states, acts, n);
  }

  /** After a callback that succeeds the run goes on: its timer can fire again. */
  lemma SuccessGoesOn(states: seq<State>, acts: seq<Action>, n: nat, g: nat)
    requires IsRun(states, acts) && n < |acts| && acts[n] == Return(g, false)
    ensures Enabled(states[n + 1], Fire(g)) && states[n + 1].fields == states[n].fields
  {
    assert StepAt(states, acts, n);
  }

  /** The run g is on its way out or gone. */
  predicate Ending(s: State, g: nat) {
    g < |s.phases| && (s.phases[g].Leaving? || s.phases[g].Gone?)
  }

  /** After a callback that fails the run ends: it never calls back again. */
  lemma {:induction false} FailureEndsTheRun(states: seq<State>, acts: seq<Action>, n: nat, g: nat, j: nat)
    requires IsRun(states, acts) && n < j < |states| && acts[n] == Return(g, true)
    ensures Ending(states[j], g)
    ensures j < |acts| ==> acts[j] != Check(g) && acts[j] != Fire(g)
  {
    assert StepAt(states, acts, j - 1);
    assert j < |acts| ==> StepAt(states, acts, j);
    if n + 1 < j {
      FailureEndsTheRun(states, acts, n, g, j - 1);
    }
  }

  /** And its exit stops the task, unless the run has been replaced or closed before. */
  lemma FailedRunStopsItsTask(states: seq<State>, acts: seq<Action>, n: nat, g: nat)
    requires IsRun(states, acts) && n < |acts| && acts[n] == Exit(g)
    ensures states[n].fields.running && states[n].fields.stop == g ==> !states[n + 1].fields.running
    ensures g < |states[n + 1].phases| && states[n + 1].phases[g] == Gone
  {
    Reachable(states, acts, n);
    assert StepAt(states, acts, n);
  }
}
