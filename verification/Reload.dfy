/**
 What a settled file write does to the running config: `reloadChanged` (conf/watch.go), the
 snapshot comparison `watchState.equal` and `addFile` (conf/watch_state.go).

 Loading and validating the files, taking the snapshot and rebuilding the cores are the outside
 world; an `Attempt` carries what they returned.
 */
module Reload {
  import opened Common

  datatype FileState = FileState(data: seq<int>, err: string)

  /** `watchState` without its retry flag. */
  datatype Snapshot = Snapshot(config: seq<int>, files: map<string, FileState>)

  /** A loaded config, and the paths of the warnings that came with it. */
  datatype Conf = Conf(content: int, warnings: set<string>)

  // ----- the snapshot

  lemma SubsetOfSameSize<T>(a: set<T>, b: set<T>)
    requires a <= b && |a| == |b|
    ensures a == b
  {
    assert b == a + (b - a);
  }

  /** `watchState.equal` walks one map only, in any order, and still decides equality of both. */
  method Equal(s: Snapshot, other: Snapshot) returns (r: bool)
    ensures r <==> s == other
  {
    if s.config != other.config || |s.files| != |other.files| {
      return false;
    }
    var paths := s.files.Keys;
    while paths != {}
      invariant paths <= s.files.Keys
      invariant forall path | path in s.files.Keys - paths :: path in other.files && other.files[path] == s.files[path]
    {
      var path :| path in paths;
      paths := paths - {path};
      var file := s.files[path];
      if path !in other.files || file.err != other.files[path].err || file.data != other.files[path].data {
        return false;
      }
    }
    SubsetOfSameSize(s.files.Keys, other.files.Keys);
    return true;
  }

  /** What reading a file gave: the content, canonical if it is JSON, or an error and the bytes read before it. */
  datatype Read = Content(data: seq<int>, canonical: Option<seq<int>>) | Unreadable(data: seq<int>, err: string)

  function Stored(r: Read): FileState {
    match r
    case Unreadable(data, err) => FileState(data, err)
    case Content(data, canonical) => FileState(if canonical.Some? then canonical.value else data, "")
  }

  /** What a snapshot keeps of a file: the error if there was one, and the canonical form or else the bytes read. */
  predicate IsStored(f: FileState, r: Read) {
    match r
    case Unreadable(data, err) => f.data == data && f.err == err
    case Content(data, None) => f.data == data && f.err == ""
    case Content(_, Some(canonical)) => f.data == canonical && f.err == ""
  }

  /** One of the first n calls is for this path. */
  predicate Asked(adds: seq<(string, Read)>, n: nat, path: string)
    requires n <= |adds|
  {
    exists i :: 0 <= i < n && adds[i].0 == path
  }

  /** No earlier call is for the same path. */
  predicate IsFirst(adds: seq<(string, Read)>, i: nat)
    requires i < |adds|
  {
    !Asked(adds, i, adds[i].0)
  }

  /** The files of a snapshot after the first n calls: each path asked for, as it was first read. */
  ghost predicate Holds(files: map<string, FileState>, adds: seq<(string, Read)>, n: nat)
    requires n <= |adds|
  {
    && (forall path :: path in files <==> path != "" && Asked(adds, n, path))
    && (forall i | 0 <= i < n && IsFirst(adds, i) && adds[i].0 != "" ::
          adds[i].0 in files && IsStored(files[adds[i].0], adds[i].1))
  }

  lemma AskedOneMore(adds: seq<(string, Read)>, n: nat, path: string)
    requires n < |adds|
    ensures Asked(adds, n + 1, path) <==> Asked(adds, n, path) || adds[n].0 == path
  {
  }

  lemma HoldsOneMore(files: map<string, FileState>, adds: seq<(string, Read)>, n: nat)
    requires n < |adds| && Holds(files, adds, n)
    ensures var (path, read) := adds[n];
      Holds(if path != "" && path !in files then files[path := Stored(read)] else files, adds, n + 1)
  {
    var (path, read) := adds[n];
    var after := if path != "" && path !in files then files[path := Stored(read)] else files;
    forall other ensures other in after <==> other != "" && Asked(adds, n + 1, other) {
      AskedOneMore(adds, n, other);
    }
    forall i | 0 <= i < n + 1 && IsFirst(adds, i) && adds[i].0 != ""
      ensures adds[i].0 in after && IsStored(after[adds[i].0], adds[i].1)
    {
      if i < n {
        assert Asked(adds, n, adds[i].0);
      }
    }
  }

  /** The calls of `addFile` that `snapshotWatchState` makes, in order. */
  method AddFiles(adds: seq<(string, Read)>) returns (files: map<string, FileState>)
    ensures Holds(files, adds, |adds|)
  {
    files := map[];
    for n := 0 to |adds|
      invariant Holds(files, adds, n)
    {
      HoldsOneMore(files, adds, n);
      var (path, read) := adds[n];
      if path != "" && path !in files {
        files := files[path := Stored(read)];
      }
    }
  }

  // ----- one reload

  /** `done` is closed, what loading gave, what the snapshot gave, and whether the rebuild succeeds. */
  datatype Attempt = Attempt(done: bool, loaded: Option<Conf>, snapshot: Option<Snapshot>, rebuilds: bool)

  datatype Outcome = Stopped | Rejected | Skipped | Applied | Failed

  /** The running config, the baseline, and whether a retry is owed. */
  datatype Watched = Watched(running: Conf, baseline: Snapshot, retry: bool)

  /** The write is not rejected: it loads, adds no warning to those of the running config, and can be snapshot. */
  predicate Accepted(w: Watched, a: Attempt) {
    !a.done && a.loaded.Some? && a.loaded.value.warnings <= w.running.warnings && a.snapshot.Some?
  }

  function OutcomeOf(w: Watched, a: Attempt): Outcome {
    if a.done then Stopped
    else if !Accepted(w, a) then Rejected
    else if !w.retry && w.baseline == a.snapshot.value then Skipped
    else if a.rebuilds then Applied
    else Failed
  }

  function After(w: Watched, a: Attempt): Watched {
    match OutcomeOf(w, a)
    case Applied => Watched(a.loaded.value, a.snapshot.value, false)
    case Failed => Watched(a.loaded.value, w.baseline, true)
    case _ => w
  }

  class Watcher {
    var running: Conf
    var baseline: Snapshot
    var retry: bool

    ghost function View(): Watched
      reads this
    {
      Watched(running, baseline, retry)
    }

    constructor (running: Conf, baseline: Snapshot)
      ensures View() == Watched(running, baseline, false)
    {
      this.running, this.baseline, retry := running, baseline, false;
    }

    method ReloadChanged(a: Attempt) returns (o: Outcome)
      modifies this
      ensures View() == After(old(View()), a) && o == OutcomeOf(old(View()), a)
    {
      if a.done {
        return Stopped;
      }
      if a.loaded.None? || !(a.loaded.value.warnings <= running.warnings) {
        return Rejected;
      }
      if a.snapshot.None? {
        return Rejected;
      }
      if !retry {
        var same := Equal(baseline, a.snapshot.value);
        if same {
          return Skipped;
        }
      }
      running := a.loaded.value;
      if !a.rebuilds {
        retry := true;
        return Failed;
      }
      baseline, retry := a.snapshot.value, false;
      return Applied;
    }
  }

  // ----- runs

  /** The watched config after the first n attempts. */
  function At(w: Watched, attempts: seq<Attempt>, n: nat): Watched
    requires n <= |attempts|
  {
    if n == 0 then w else After(At(w, attempts, n - 1), attempts[n - 1])
  }

  function OutcomeAt(w: Watched, attempts: seq<Attempt>, i: nat): Outcome
    requires i < |attempts|
  {
    OutcomeOf(At(w, attempts, i), attempts[i])
  }

  /** A rebuild before n failed and none has succeeded since. */
  ghost predicate Owed(w: Watched, attempts: seq<Attempt>, n: nat)
    requires n <= |attempts|
  {
    exists k :: 0 <= k < n && OutcomeAt(w, attempts, k) == Failed &&
      forall m | k < m < n :: OutcomeAt(w, attempts, m) != Applied
  }

  /** s is the snapshot of the last successful rebuild before n, or of the start. */
  ghost predicate LastApplied(w: Watched, attempts: seq<Attempt>, n: nat, s: Snapshot)
    requires n <= |attempts|
  {
    || (s == w.baseline && forall m | 0 <= m < n :: OutcomeAt(w, attempts, m) != Applied)
    || (exists k :: 0 <= k < n && OutcomeAt(w, attempts, k) == Applied && attempts[k].snapshot == Some(s) &&
          forall m | k < m < n :: OutcomeAt(w, attempts, m) != Applied)
  }

  lemma {:induction false} RetryIffOwed(w: Watched, attempts: seq<Attempt>, n: nat)
    requires n <= |attempts| && !w.retry
    ensures At(w, attempts, n).retry <==> Owed(w, attempts, n)
  {
    if n > 0 {
      RetryIffOwed(w, attempts, n - 1);
      assert OutcomeAt(w, attempts, n - 1) == OutcomeOf(At(w, attempts, n - 1), attempts[n - 1]);
      if OutcomeAt(w, attempts, n - 1) != Applied && Owed(w, attempts, n - 1) {
        var k :| 0 <= k < n - 1 && OutcomeAt(w, attempts, k) == Failed &&
                 forall m | k < m < n - 1 :: OutcomeAt(w, attempts, m) != Applied;
        assert forall m | k < m < n :: OutcomeAt(w, attempts, m) != Applied;
      }
      if Owed(w, attempts, n) {
        var k :| 0 <= k < n && OutcomeAt(w, attempts, k) == Failed &&
                 forall m | k < m < n :: OutcomeAt(w, attempts, m) != Applied;
        if k < n - 1 {
          assert Owed(w, attempts, n - 1);
        }
      }
    }
  }

  /** The attempt that set the baseline, or -1 for the start. */
  lemma {:induction false} BaselineSince(w: Watched, attempts: seq<Attempt>, n: nat) returns (k: int)
    requires n <= |attempts|
    ensures -1 <= k < n && forall m | k < m < n :: OutcomeAt(w, attempts, m) != Applied
    ensures k == -1 ==> At(w, attempts, n).baseline == w.baseline
    ensures k >= 0 ==> OutcomeAt(w, attempts, k) == Applied && attempts[k].snapshot == Some(At(w, attempts, n).baseline)
  {
    k := -1;
    if n > 0 {
      assert OutcomeAt(w, attempts, n - 1) == OutcomeOf(At(w, attempts, n - 1), attempts[n - 1]);
      if OutcomeAt(w, attempts, n - 1) == Applied {
        k := n - 1;
      } else {
        k := BaselineSince(w, attempts, n - 1);
      }
    }
  }

  lemma BaselineIsLastApplied(w: Watched, attempts: seq<Attempt>, n: nat)
    requires n <= |attempts|
    ensures LastApplied(w, attempts, n, At(w, attempts, n).baseline)
  {
    var _ := BaselineSince(w, attempts, n);
  }

  lemma {:induction false} LastAppliedUnique(w: Watched, attempts: seq<Attempt>, n: nat, s: Snapshot, t: Snapshot)
    requires n <= |attempts| && LastApplied(w, attempts, n, s) && LastApplied(w, attempts, n, t)
    ensures s == t
  {
    if i, j :|
        && 0 <= i < n && OutcomeAt(w, attempts, i) == Applied && attempts[i].snapshot == Some(s)
        && (forall m | i < m < n :: OutcomeAt(w, attempts, m) != Applied)
        && 0 <= j < n && OutcomeAt(w, attempts, j) == Applied && attempts[j].snapshot == Some(t)
        && (forall m | j < m < n :: OutcomeAt(w, attempts, m) != Applied)
    {
      assert i == j;
    }
  }

  /**
   A write that is not rejected is skipped exactly when no retry is owed and its snapshot equals that
   of the config last applied successfully.
   */
  lemma SkippedExactlyWhenCurrent(w: Watched, attempts: seq<Attempt>, i: nat)
    requires i < |attempts| && !w.retry && Accepted(At(w, attempts, i), attempts[i])
    ensures OutcomeAt(w, attempts, i) == Skipped <==>
              !Owed(w, attempts, i) && LastApplied(w, attempts, i, attempts[i].snapshot.value)
  {
    RetryIffOwed(w, attempts, i);
    BaselineIsLastApplied(w, attempts, i);
    if LastApplied(w, attempts, i, attempts[i].snapshot.value) {
      LastAppliedUnique(w, attempts, i, attempts[i].snapshot.value, At(w, attempts, i).baseline);
    }
  }

  /**
   When an attempt is stopped, rejected, applied and failed: a write is rejected exactly if it does not
   load, brings a warning at a path where the running config has none, or cannot be snapshot.
   */
  lemma OutcomeExactly(w: Watched, attempts: seq<Attempt>, i: nat)
    requires i < |attempts|
    ensures OutcomeAt(w, attempts, i) == Stopped <==> attempts[i].done
    ensures OutcomeAt(w, attempts, i) == Rejected <==>
              && !attempts[i].done
              && (|| attempts[i].loaded.None?
                  || attempts[i].snapshot.None?
                  || exists path :: path in attempts[i].loaded.value.warnings &&
                                    path !in At(w, attempts, i).running.warnings)
    ensures OutcomeAt(w, attempts, i) == Applied ==> attempts[i].rebuilds
    ensures OutcomeAt(w, attempts, i) == Failed ==> !attempts[i].rebuilds
  {
  }

  /** A rebuild was tried at k. */
  predicate Rebuilt(w: Watched, attempts: seq<Attempt>, k: nat)
    requires k < |attempts|
  {
    OutcomeAt(w, attempts, k) == Applied || OutcomeAt(w, attempts, k) == Failed
  }

  /** The attempt whose config is running, or -1 for the config of the start. */
  lemma {:induction false} RunningSince(w: Watched, attempts: seq<Attempt>, n: nat) returns (k: int)
    requires n <= |attempts|
    ensures -1 <= k < n && forall m | k < m < n :: !Rebuilt(w, attempts, m)
    ensures k == -1 ==> At(w, attempts, n).running == w.running
    ensures k >= 0 ==> Rebuilt(w, attempts, k) && attempts[k].loaded == Some(At(w, attempts, n).running)
  {
    k := -1;
    if n > 0 {
      assert OutcomeAt(w, attempts, n - 1) == OutcomeOf(At(w, attempts, n - 1), attempts[n - 1]);
      if Rebuilt(w, attempts, n - 1) {
        k := n - 1;
      } else {
        k := RunningSince(w, attempts, n - 1);
      }
    }
  }

  /**
   The running config is the one loaded by the last attempt before n that was rebuilt, whether or not the
   rebuild succeeded, or that of the start if there is none.
   */
  lemma RunningIsLastLoaded(w: Watched, attempts: seq<Attempt>, n: nat)
    requires n <= |attempts|
    ensures (forall m | 0 <= m < n :: !Rebuilt(w, attempts, m)) ==> At(w, attempts, n).running == w.running
    ensures forall k | 0 <= k < n && Rebuilt(w, attempts, k) && (forall m | k < m < n :: !Rebuilt(w, attempts, m)) ::
              attempts[k].loaded == Some(At(w, attempts, n).running)
  {
    var since := RunningSince(w, attempts, n);
    forall k | 0 <= k < n && Rebuilt(w, attempts, k) && (forall m | k < m < n :: !Rebuilt(w, attempts, m))
      ensures k == since
    {
    }
  }

  /** A write that is stopped, rejected or skipped leaves config, baseline and retry flag alone. */
  lemma OnlyReloadsChangeAnything(w: Watched, attempts: seq<Attempt>, i: nat)
    requires i < |attempts| && !OutcomeAt(w, attempts, i).Applied? && !OutcomeAt(w, attempts, i).Failed?
    ensures At(w, attempts, i + 1) == At(w, attempts, i)
  {
    assert At(w, attempts, i + 1) == After(At(w, attempts, i), attempts[i]);
  }

  /** After a failed rebuild the next write that is not rejected is rebuilt, also an identical or a restored one. */
  lemma FailureIsRetried(w: Watched, attempts: seq<Attempt>, k: nat, i: nat)
    requires k < i < |attempts| && !w.retry && OutcomeAt(w, attempts, k) == Failed
    requires forall m | k < m < i :: !Accepted(At(w, attempts, m), attempts[m])
    requires Accepted(At(w, attempts, i), attempts[i])
    ensures OutcomeAt(w, attempts, i) == if attempts[i].rebuilds then Applied else Failed
  {
    RetryIffOwed(w, attempts, i);
    assert forall m | k < m < i :: OutcomeAt(w, attempts, m) != Applied;
  }
}
