/**
 Lifetime of the HTTP connection binding. Its reference count starts at one, owned by whoever is creating
 the connection; a successful setup adds one for the connection thread and passes the first one to a
 capsule. Setup, shutdown and the capsule's destructor run on different threads and interleave.
 */
module ConnectionBinding {
  import opened Octets

  /** Where the creator, and then the setup callback, stands. */
  datatype Progress =
    | Creating                  // `aws_py_http_client_connection_new`, converting its options
    | Connecting                // `py_core` is held, `aws_http_client_connect` is called
    | AwaitingSetup
    | InSetup(success: bool)    // inside the setup callback, with Python running
    | Acquired                  // the connection thread's reference is taken
    | Capsuled                  // the capsule exists and owns the first reference
    | Uncapsuled                // the capsule could not be made
    | CalledWithCapsule         // `_on_connection_setup` has returned
    | CalledWithout             // `_on_connection_setup` has returned; native connection but no capsule
    | CalledWithError           // `_on_connection_setup` has returned; no native connection
    | ReleasedInitial           // no capsule: the first reference is released, the native connection not yet
    | NothingTaken              // over: the options were refused before `py_core` was taken
    | NotConnected              // over: no native connection came about
    | PythonGone                // over: the setup callback found Python shut down
    | WithoutCapsule            // over: connected, but no capsule
    | WithCapsule               // over: connected, the capsule was handed to Python

  /** The capsule: `refs` counts the references to it, the setup callback's own included. */
  datatype Capsule = NoCapsule | Live(refs: nat) | Dying | NativeReleased | Destroyed

  /** The connection thread: running, inside the shutdown callback, or done with it. */
  datatype Thread = NoThread | Running | InShutdown | ReleasedBinding | SkippedShutdown

  datatype State = State(
    refCount: nat,
    progress: Progress,
    capsule: Capsule,
    thread: Thread,
    nativeReleases: nat,         // releases of the native connection
    coreReleases: nat,           // releases of `py_core`
    frees: nat,                  // runs of `s_connection_destroy`
    pythonAlive: bool,
    misused: bool)               // the binding was used after it was freed

  datatype Action =
    | OptionsFail | TakeCore | ConnectFails | ConnectStarts
    | SetupEnters(success: bool)
    | SetupAcquires
    | MakeCapsule(ok: bool)
    | CallPython(copies: nat)
    | CleanUp
    | ReleaseNative
    | CopyCapsule | DropCapsule
    | DestructorReleasesNative | DestructorReleasesBinding
    | ShutdownCalls | ShutdownReleases
    | PythonExits

  /** `aws_mem_calloc` and `aws_ref_count_init`. */
  const NEW: State := State(1, Creating, NoCapsule, NoThread, 0, 0, 0, true, false)

  // ------------------------------------------------------------------ steps

  predicate CoreTaken(p: Progress) {
    !p.Creating? && !p.NothingTaken?
  }

  /** Any access to the binding. */
  function Use(s: State): State {
    s.(misused := s.misused || s.frees > 0)
  }

  /** `aws_ref_count_release`; the last release runs `s_connection_destroy`. */
  function Release(s: State): State {
    if s.refCount == 0 then s.(misused := true)
    else if s.refCount == 1 then
      if CoreTaken(s.progress) then s.(refCount := 0, frees := s.frees + 1, coreReleases := s.coreReleases + 1)
      else s.(refCount := 0, frees := s.frees + 1)
    else s.(refCount := s.refCount - 1)
  }

  /** Dropping the last reference to the capsule starts its destructor. */
  function DropRef(c: Capsule): Capsule {
    if c.Live? then if c.refs <= 1 then Dying else Live(c.refs - 1) else c
  }

  /** The setup callback has no capsule (yet) and has still to read `native`. */
  predicate BeforeNativeRead(p: Progress) {
    p.Acquired? || p.Uncapsuled? || p.CalledWithout? || p.ReleasedInitial?
  }

  predicate HoldsLocalRef(p: Progress) {
    p.Capsuled? || p.CalledWithCapsule?
  }

  predicate Enabled(s: State, a: Action) {
    match a
    case OptionsFail => s.progress.Creating?
    case TakeCore => s.progress.Creating?
    case ConnectFails => s.progress.Connecting?
    case ConnectStarts => s.progress.Connecting?
    case SetupEnters(_) => s.progress.AwaitingSetup?
    case SetupAcquires => s.progress == InSetup(true)
    case MakeCapsule(_) => s.progress.Acquired?
    case CallPython(_) => s.progress.Capsuled? || s.progress.Uncapsuled? || s.progress == InSetup(false)
    case CleanUp => s.progress.CalledWithCapsule? || s.progress.CalledWithout? || s.progress.CalledWithError?
    case ReleaseNative => s.progress.ReleasedInitial?
    case CopyCapsule => s.capsule.Live? && s.pythonAlive
    case DropCapsule => s.capsule.Live? && s.capsule.refs > (if HoldsLocalRef(s.progress) then 1 else 0)
    case DestructorReleasesNative => s.capsule.Dying?
    case DestructorReleasesBinding => s.capsule.NativeReleased?
    case ShutdownCalls => s.thread.Running?
    case ShutdownReleases => s.thread.InShutdown?
    case PythonExits => true
  }

  function Step(s: State, a: Action): State
    requires Enabled(s, a)
  {
    match a
    case OptionsFail => Release(s).(progress := NothingTaken)
    case TakeCore => Use(s).(progress := Connecting)
    case ConnectFails => Release(s).(progress := NotConnected)
    case ConnectStarts => s.(progress := AwaitingSetup)
    case SetupEnters(success) =>
      Use(s).(progress := if s.pythonAlive then InSetup(success) else PythonGone)
    case SetupAcquires => Use(s).(progress := Acquired, refCount := s.refCount + 1, thread := Running)
    case MakeCapsule(ok) =>
      if ok then s.(progress := Capsuled, capsule := Live(1))
      else s.(progress := Uncapsuled)
    case CallPython(copies) =>
      if s.progress.Capsuled? then
        Use(s).(progress := CalledWithCapsule,
                capsule := if s.capsule.Live? then Live(s.capsule.refs + copies) else s.capsule)
      else Use(s).(progress := if s.progress.Uncapsuled? then CalledWithout else CalledWithError)
    case CleanUp =>
      if s.progress.CalledWithCapsule? then s.(progress := WithCapsule, capsule := DropRef(s.capsule))
      else if s.progress.CalledWithout? then Release(s).(progress := ReleasedInitial)
      else Release(s).(progress := NotConnected)
    case ReleaseNative => Use(s).(progress := WithoutCapsule, nativeReleases := s.nativeReleases + 1)
    case CopyCapsule => s.(capsule := Live(s.capsule.refs + 1))
    case DropCapsule => s.(capsule := DropRef(s.capsule))
    case DestructorReleasesNative => Use(s).(capsule := NativeReleased, nativeReleases := s.nativeReleases + 1)
    case DestructorReleasesBinding => Release(s).(capsule := Destroyed)
    case ShutdownCalls => if s.pythonAlive then Use(s).(thread := InShutdown) else s.(thread := SkippedShutdown)
    case ShutdownReleases => Release(s).(thread := ReleasedBinding)
    case PythonExits => s.(pythonAlive := false)
  }

  ghost predicate IsRun(trace: seq<Action>, s: State, t: State)
    decreases |trace|
  {
    if trace == [] then s == t else Enabled(s, trace[0]) && IsRun(trace[1..], Step(s, trace[0]), t)
  }

  // -------------------------------------------------------------- invariant

  /** Which capsule and thread states go with each point of the setup. */
  predicate Fits(s: State) {
    && (s.thread.NoThread? <==> !HasAcquired(s.progress))
    && (s.capsule.NoCapsule? <==> !HasCapsule(s.progress))
    && (HoldsLocalRef(s.progress) ==> s.capsule.Live? && s.capsule.refs > 0)
  }

  predicate HasAcquired(p: Progress) {
    BeforeNativeRead(p) || p.WithoutCapsule? || HasCapsule(p)
  }

  predicate HasCapsule(p: Progress) {
    HoldsLocalRef(p) || p.WithCapsule?
  }

  predicate CreatorOwns(p: Progress) {
    !HasCapsule(p) && !p.ReleasedInitial? && !p.NothingTaken? && !p.NotConnected? && !p.WithoutCapsule?
  }

  predicate CapsuleOwns(c: Capsule) {
    c.Live? || c.Dying? || c.NativeReleased?
  }

  /** The reference the binding was made with is owned by the creator or by the capsule, never by both. */
  predicate FirstIsOwned(s: State) {
    CreatorOwns(s.progress) || CapsuleOwns(s.capsule)
  }

  predicate ThreadOwns(t: Thread) {
    t.Running? || t.InShutdown? || t.SkippedShutdown?
  }

  /** The count is the number of owners; without owners the binding and what it held are released once. */
  predicate Accounted(s: State) {
    && (FirstIsOwned(s) && ThreadOwns(s.thread) ==> s.refCount == 2)
    && (FirstIsOwned(s) && !ThreadOwns(s.thread) ==> s.refCount == 1)
    && (!FirstIsOwned(s) && ThreadOwns(s.thread) ==> s.refCount == 1)
    && (!FirstIsOwned(s) && !ThreadOwns(s.thread) ==> s.refCount == 0)
    && Counts(s.frees, s.refCount == 0)
    && Counts(s.coreReleases, s.refCount == 0 && CoreTaken(s.progress))
  }

  /** One if the condition holds, zero if not. */
  predicate Counts(n: nat, condition: bool) {
    (condition ==> n == 1) && (!condition ==> n == 0)
  }

  /** The native connection is released by the capsule's destructor, or by a setup without a capsule. */
  predicate NativeAccounted(s: State) {
    Counts(s.nativeReleases, s.capsule.NativeReleased? || s.capsule.Destroyed? || s.progress.WithoutCapsule?)
  }

  /** Use after free leaves its traces. */
  predicate Misuse(s: State) {
    s.misused ==> s.progress.WithoutCapsule? && s.thread.ReleasedBinding?
  }

  /** Python shut down is the only excuse for a callback that does not release what it owns. */
  predicate LeaksExcused(s: State) {
    s.thread.SkippedShutdown? || s.progress.PythonGone? ==> !s.pythonAlive
  }

  predicate Inv(s: State) {
    Fits(s) && Accounted(s) && NativeAccounted(s) && Misuse(s) && LeaksExcused(s)
  }

  lemma FailedCreationKeepsInv(s: State, a: Action)
    requires Inv(s) && Enabled(s, a) && (a.OptionsFail? || a.ConnectFails?)
    ensures Inv(Step(s, a))
  {
  }

  lemma CreationKeepsInv(s: State, a: Action)
    requires Inv(s) && Enabled(s, a) && (a.TakeCore? || a.ConnectStarts?)
    ensures Inv(Step(s, a))
  {
    hide ThreadOwns, CapsuleOwns;
  }

  lemma SetupEntersKeepsInv(s: State, a: Action)
    requires Inv(s) && Enabled(s, a) && a.SetupEnters?
    ensures Inv(Step(s, a))
  {
    assert s.frees == 0 && !s.misused;
    hide ThreadOwns, CapsuleOwns, CoreTaken;
  }

  lemma SetupAcquiresKeepsInv(s: State)
    requires Inv(s) && Enabled(s, SetupAcquires)
    ensures Inv(Step(s, SetupAcquires))
  {
    assert s.capsule.NoCapsule? && s.thread.NoThread? && FirstIsOwned(s) && !ThreadOwns(s.thread);
    assert s.refCount == 1 && s.frees == 0 && !s.misused;
    var t := Step(s, SetupAcquires);
    assert t == s.(progress := Acquired, refCount := 2, thread := Running);
    assert FirstIsOwned(t) && ThreadOwns(t.thread);
  }

  lemma MakeCapsuleKeepsInv(s: State, a: Action)
    requires Inv(s) && Enabled(s, a) && a.MakeCapsule?
    ensures Inv(Step(s, a))
  {
    hide ThreadOwns;
  }

  lemma CallPythonKeepsInv(s: State, a: Action)
    requires Inv(s) && Enabled(s, a) && a.CallPython?
    ensures Inv(Step(s, a))
  {
    hide ThreadOwns;
  }

  lemma CleanUpKeepsInv(s: State)
    requires Inv(s) && Enabled(s, CleanUp)
    ensures Inv(Step(s, CleanUp))
  {
    hide ThreadOwns;
  }

  lemma ReleaseNativeKeepsInv(s: State)
    requires Inv(s) && Enabled(s, ReleaseNative)
    ensures Inv(Step(s, ReleaseNative))
  {
    assert s.capsule.NoCapsule? && !FirstIsOwned(s);
    var t := Step(s, ReleaseNative);
    assert t.refCount == s.refCount && t.frees == s.frees && t.thread == s.thread && !FirstIsOwned(t);
    hide CapsuleOwns, CreatorOwns;
  }

  lemma CapsuleKeepsInv(s: State, a: Action)
    requires Inv(s) && Enabled(s, a)
    requires a.CopyCapsule? || a.DropCapsule? || a.DestructorReleasesNative?
    ensures Inv(Step(s, a))
  {
    hide HasAcquired, CreatorOwns, CoreTaken, ThreadOwns;
  }

  lemma DestructorKeepsInv(s: State)
    requires Inv(s) && Enabled(s, DestructorReleasesBinding)
    ensures Inv(Step(s, DestructorReleasesBinding))
  {
    hide ThreadOwns, HasAcquired;
  }

  lemma ShutdownKeepsInv(s: State, a: Action)
    requires Inv(s) && Enabled(s, a)
    requires a.ShutdownCalls? || a.ShutdownReleases? || a.PythonExits?
    ensures Inv(Step(s, a))
  {
    hide HasAcquired, HasCapsule, HoldsLocalRef, CreatorOwns, CapsuleOwns, CoreTaken, BeforeNativeRead;
  }

  lemma StepKeepsInv(s: State, a: Action)
    requires Inv(s) && Enabled(s, a)
    ensures Inv(Step(s, a))
  {
    hide Inv, Step, Enabled;
    match a
    case OptionsFail => FailedCreationKeepsInv(s, a);
    case ConnectFails => FailedCreationKeepsInv(s, a);
    case TakeCore => CreationKeepsInv(s, a);
    case ConnectStarts => CreationKeepsInv(s, a);
    case SetupEnters(_) => SetupEntersKeepsInv(s, a);
    case SetupAcquires => SetupAcquiresKeepsInv(s);
    case MakeCapsule(_) => MakeCapsuleKeepsInv(s, a);
    case CallPython(_) => CallPythonKeepsInv(s, a);
    case CleanUp => CleanUpKeepsInv(s);
    case ReleaseNative => ReleaseNativeKeepsInv(s);
    case DestructorReleasesBinding => DestructorKeepsInv(s);
    case ShutdownCalls => ShutdownKeepsInv(s, a);
    case ShutdownReleases => ShutdownKeepsInv(s, a);
    case PythonExits => ShutdownKeepsInv(s, a);
    case _ => CapsuleKeepsInv(s, a);
  }

  lemma {:induction false} RunKeepsInv(trace: seq<Action>, s: State, t: State)
    requires Inv(s) && IsRun(trace, s, t)
    ensures Inv(t)
    decreases |trace|
  {
    hide Inv, Step, Enabled;
    if trace != [] {
      StepKeepsInv(s, trace[0]);
      RunKeepsInv(trace[1..], Step(s, trace[0]), t);
    }
  }

  // --------------------------------------------------------------- theorems

  function Owners(s: State): nat {
    (if FirstIsOwned(s) then 1 else 0) + (if ThreadOwns(s.thread) then 1 else 0)
  }

  /**
   Every interleaving: the reference count is the number of live owners, the binding is freed exactly
   when there is none, and the binding, `py_core` and the native connection are released at most once.
   */
  lemma CountIsOwners(trace: seq<Action>, t: State)
    requires IsRun(trace, NEW, t)
    ensures t.refCount == Owners(t)
    ensures t.frees == (if Owners(t) == 0 then 1 else 0)
    ensures t.coreReleases <= t.frees && t.nativeReleases <= 1
  {
    RunKeepsInv(trace, NEW, t);
  }

  lemma StepThread(s: State, a: Action)
    requires Inv(s) && Enabled(s, a)
    ensures Step(s, a).thread.ReleasedBinding? <==> s.thread.ReleasedBinding? || a.ShutdownReleases?
  {
    hide Accounted, NativeAccounted, Misuse, LeaksExcused;
  }

  /** The one step that can touch a freed binding. */
  lemma StepMisused(s: State, a: Action)
    requires Inv(s) && Enabled(s, a)
    ensures Step(s, a).misused <==> s.misused || (a.ReleaseNative? && s.thread.ReleasedBinding?)
  {
    hide NativeAccounted, LeaksExcused;
  }

  /** A capsule-less setup reads `native` after a shutdown, or at all if `gone` says there was one before. */
  predicate ReadsAfterShutdown(trace: seq<Action>, gone: bool) {
    trace != [] &&
    ((gone && trace[0].ReleaseNative?) || ReadsAfterShutdown(trace[1..], gone || trace[0].ShutdownReleases?))
  }

  lemma {:induction false} MisusedAlongRun(trace: seq<Action>, s: State, t: State)
    requires Inv(s) && IsRun(trace, s, t)
    ensures t.misused <==> s.misused || ReadsAfterShutdown(trace, s.thread.ReleasedBinding?)
    decreases |trace|
  {
    hide Inv, Step, Enabled;
    if trace != [] {
      StepKeepsInv(s, trace[0]);
      StepThread(s, trace[0]);
      StepMisused(s, trace[0]);
      MisusedAlongRun(trace[1..], Step(s, trace[0]), t);
    }
  }

  /** Step `j` reads `native` after step `i` released the thread's reference. */
  ghost predicate Overtakes(trace: seq<Action>, i: int, j: int) {
    0 <= i < j < |trace| && trace[i].ShutdownReleases? && trace[j].ReleaseNative?
  }

  lemma {:induction false} ReadsAfterShutdownIff(trace: seq<Action>, gone: bool)
    ensures ReadsAfterShutdown(trace, gone) <==>
              || (exists i, j :: Overtakes(trace, i, j))
              || (gone && exists j :: 0 <= j < |trace| && trace[j].ReleaseNative?)
  {
    if trace != [] {
      var tail := trace[1..];
      ReadsAfterShutdownIff(tail, gone || trace[0].ShutdownReleases?);
      assert forall k :: 0 <= k < |tail| ==> tail[k] == trace[k + 1];
      if ReadsAfterShutdown(trace, gone) {
        if i, j :| Overtakes(tail, i, j) {
          assert Overtakes(trace, i + 1, j + 1);
        } else if !(gone && trace[0].ReleaseNative?) {
          var j :| 0 <= j < |tail| && tail[j].ReleaseNative?;
          assert trace[j + 1].ReleaseNative?;
          assert !gone ==> Overtakes(trace, 0, j + 1);
        }
      } else {
        forall i, j | Overtakes(trace, i, j) ensures false {
          assert tail[j - 1].ReleaseNative?;
          if i > 0 {
            assert Overtakes(tail, i - 1, j - 1);
          }
        }
        forall j | 0 <= j < |trace| && trace[j].ReleaseNative? ensures !gone {
          assert j > 0 ==> tail[j - 1].ReleaseNative?;
        }
      }
    }
  }

  /**
   The binding is used after it was freed if and only if, somewhere in the run, the shutdown callback
   releases the thread's reference before a setup without a capsule reads `native`.
   */
  lemma MisusedIff(trace: seq<Action>, t: State)
    requires IsRun(trace, NEW, t)
    ensures t.misused <==>
            exists i, j :: 0 <= i < j < |trace| && trace[i].ShutdownReleases? && trace[j].ReleaseNative?
  {
    MisusedAlongRun(trace, NEW, t);
    ReadsAfterShutdownIff(trace, false);
    if i, j :| Overtakes(trace, i, j) {
      assert trace[i].ShutdownReleases? && trace[j].ReleaseNative?;
    }
    if i, j :| 0 <= i < j < |trace| && trace[i].ShutdownReleases? && trace[j].ReleaseNative? {
      assert Overtakes(trace, i, j);
    }
  }

  /** On one event loop the shutdown callback does not run inside the setup callback. */
  predicate Serialised(trace: seq<Action>, s: State)
    decreases |trace|
  {
    trace == [] ||
    (&& (trace[0].ShutdownReleases? ==> !BeforeNativeRead(s.progress))
     && (Enabled(s, trace[0]) ==> Serialised(trace[1..], Step(s, trace[0]))))
  }

  /** A setup that has still to read `native` has not been overtaken. */
  predicate NotOvertaken(s: State) {
    !s.misused && (BeforeNativeRead(s.progress) ==> !s.thread.ReleasedBinding?)
  }

  lemma StaysNotOvertaken(s: State, a: Action)
    requires Inv(s) && Enabled(s, a) && NotOvertaken(s)
    requires a.ShutdownReleases? ==> !BeforeNativeRead(s.progress)
    ensures NotOvertaken(Step(s, a))
  {
    StepThread(s, a);
    StepMisused(s, a);
  }

  lemma {:induction false} SerialisedIsNotOvertaken(trace: seq<Action>, s: State, t: State)
    requires Inv(s) && IsRun(trace, s, t) && Serialised(trace, s) && NotOvertaken(s)
    ensures NotOvertaken(t)
    decreases |trace|
  {
    hide Step, Enabled, Inv, BeforeNativeRead, NotOvertaken;
    if trace != [] {
      StepKeepsInv(s, trace[0]);
      StaysNotOvertaken(s, trace[0]);
      SerialisedIsNotOvertaken(trace[1..], Step(s, trace[0]), t);
    }
  }

  /** As long as the callbacks of one connection are serialised, the binding is never used after free. */
  lemma SerialisedRunsAreSafe(trace: seq<Action>, t: State)
    requires IsRun(trace, NEW, t) && Serialised(trace, NEW)
    ensures !t.misused
  {
    SerialisedIsNotOvertaken(trace, NEW, t);
  }

  /**
   The condition on serialised callbacks is needed: when the capsule cannot be made and the shutdown callback
   runs to its end inside the setup's call into Python (which gives up the interpreter lock), the setup
   reads `native` from a freed binding.
   */
  lemma OverlappingShutdownIsUnsafe(s: State)
    requires s == NEW
    ensures exists trace, t :: IsRun(trace, s, t) && t.misused && t.pythonAlive
  {
    hide Step, Enabled, IsRun;
    var acquire := [TakeCore, ConnectStarts] + [SetupEnters(true), SetupAcquires];
    var overtake := [MakeCapsule(false), ShutdownCalls] + [ShutdownReleases, CallPython(0)] + [CleanUp, ReleaseNative];
    var t := Acquiring(s);
    var u := Overtaking(t);
    RunAppends(acquire, overtake, s, t, u);
  }

  lemma Acquiring(s: State) returns (t: State)
    requires s == NEW
    ensures IsRun([TakeCore, ConnectStarts] + [SetupEnters(true), SetupAcquires], s, t)
    ensures t.progress.Acquired? && t.thread.Running? && t.refCount == 2 && t.pythonAlive
  {
    var a := Step(Step(s, TakeCore), ConnectStarts);
    t := Step(Step(a, SetupEnters(true)), SetupAcquires);
    TwoSteps(s, TakeCore, ConnectStarts);
    TwoSteps(a, SetupEnters(true), SetupAcquires);
    hide Step, Enabled, IsRun;
    RunAppends([TakeCore, ConnectStarts], [SetupEnters(true), SetupAcquires], s, a, t);
  }

  lemma Overtaking(s: State) returns (t: State)
    requires s.progress.Acquired? && s.thread.Running? && s.refCount == 2 && s.pythonAlive
    ensures t.misused && t.pythonAlive
    ensures IsRun([MakeCapsule(false), ShutdownCalls] + [ShutdownReleases, CallPython(0)] + [CleanUp, ReleaseNative],
                  s, t)
  {
    var a := Step(Step(s, MakeCapsule(false)), ShutdownCalls);
    var b := Step(Step(a, ShutdownReleases), CallPython(0));
    t := Step(Step(b, CleanUp), ReleaseNative);
    assert Enabled(s, MakeCapsule(false)) && Enabled(Step(s, MakeCapsule(false)), ShutdownCalls);
    assert a.progress.Uncapsuled? && a.thread.InShutdown? && a.refCount == 2 && a.pythonAlive;
    assert b.progress.CalledWithout? && b.refCount == 1 && b.pythonAlive;
    var c := Step(b, CleanUp);
    assert c.progress.ReleasedInitial? && c.frees > 0 && c.pythonAlive;
    TwoSteps(s, MakeCapsule(false), ShutdownCalls);
    TwoSteps(a, ShutdownReleases, CallPython(0));
    TwoSteps(b, CleanUp, ReleaseNative);
    assert t.misused && t.pythonAlive;
    hide Step, Enabled, IsRun;
    RunAppends([MakeCapsule(false), ShutdownCalls], [ShutdownReleases, CallPython(0)], s, a, b);
    RunAppends([MakeCapsule(false), ShutdownCalls] + [ShutdownReleases, CallPython(0)], [CleanUp, ReleaseNative],
               s, b, t);
  }

  lemma TwoSteps(s: State, first: Action, second: Action)
    requires Enabled(s, first) && Enabled(Step(s, first), second)
    ensures IsRun([first, second], s, Step(Step(s, first), second))
  {
    hide Step, Enabled;
    var t := Step(Step(s, first), second);
    assert [first, second][1..] == [second] && [second][1..] == [];
    assert IsRun([], t, t);
    assert IsRun([second], Step(s, first), t);
  }

  lemma {:induction false} RunAppends(p: seq<Action>, q: seq<Action>, s: State, t: State, u: State)
    requires IsRun(p, s, t) && IsRun(q, t, u)
    ensures IsRun(p + q, s, u)
    decreases |p|
  {
    hide Step, Enabled;
    if p == [] {
      assert p + q == q;
    } else {
      assert (p + q)[1..] == p[1..] + q;
      RunAppends(p[1..], q, Step(s, p[0]), t, u);
    }
  }

  /** Nothing is left to happen: the setup is over, and so are the capsule and the thread if they ever were. */
  predicate Complete(s: State) {
    && (s.progress.NothingTaken? || s.progress.NotConnected? || s.progress.PythonGone?
        || s.progress.WithoutCapsule? || s.progress.WithCapsule?)
    && (s.capsule.NoCapsule? || s.capsule.Destroyed?)
    && (s.thread.NoThread? || s.thread.ReleasedBinding? || s.thread.SkippedShutdown?)
  }

  /**
   A run that completes while Python is alive releases everything exactly once: the binding always,
   `py_core` if it was taken, the native connection if there was one.
   */
  lemma CompleteRunReleasesOnce(trace: seq<Action>, t: State)
    requires IsRun(trace, NEW, t) && Complete(t) && t.pythonAlive
    ensures t.refCount == 0 && t.frees == 1
    ensures t.coreReleases == (if t.progress.NothingTaken? then 0 else 1)
    ensures t.nativeReleases == (if t.progress.WithCapsule? || t.progress.WithoutCapsule? then 1 else 0)
  {
    RunKeepsInv(trace, NEW, t);
  }

  lemma RunExtends(trace: seq<Action>, s: State, t: State, a: Action)
    requires IsRun(trace, s, t) && Enabled(t, a)
    ensures IsRun(trace + [a], s, Step(t, a))
  {
    hide Step, Enabled;
    assert [a][1..] == [];
    assert IsRun([], Step(t, a), Step(t, a));
    RunAppends(trace, [a], s, t, Step(t, a));
  }

  /** Whoever owns a reference has one to release, and finds the binding in place. */
  lemma OwnerHasReference(trace: seq<Action>, s: State)
    requires IsRun(trace, NEW, s)
    ensures Inv(s)
    ensures FirstIsOwned(s) || ThreadOwns(s.thread) ==> s.refCount > 0 && s.frees == 0
    ensures s.progress.Creating? || s.progress.Connecting? ==> s.refCount == 1 && s.frees == 0
  {
    RunKeepsInv(trace, NEW, s);
  }

  /** What is left when creation is abandoned. */
  lemma AbandonLeaves(s: State, a: Action)
    requires Inv(s) && Enabled(s, a) && (a.OptionsFail? || a.ConnectFails?)
    ensures s.refCount == 1 && s.frees == 0
    ensures var t := Step(s, a);
            && t.refCount == 0 && t.frees == 1 && SameOutside(s, t)
            && t.coreReleases == (if CoreTaken(s.progress) then s.coreReleases + 1 else s.coreReleases)
            && t.progress == (if a.OptionsFail? then NothingTaken else NotConnected)
  {
  }

  /** What a setup without a capsule leaves when it has released the first reference. */
  lemma ReleaseInitialLeaves(s: State)
    requires Inv(s) && (s.progress.CalledWithout? || s.progress.CalledWithError?)
    ensures Enabled(s, CleanUp) && s.refCount > 0 && s.frees == 0
    ensures var t := Step(s, CleanUp);
            && t.refCount == s.refCount - 1 && t.frees == (if t.refCount == 0 then 1 else 0) && SameOutside(s, t)
            && t.coreReleases == (if t.refCount == 0 then s.coreReleases + 1 else s.coreReleases)
            && t.progress == (if s.progress.CalledWithout? then ReleasedInitial else NotConnected)
  {
  }

  /** What the call of `_on_connection_setup` leaves. */
  lemma CallPythonLeaves(s: State, copies: nat)
    requires Inv(s) && Enabled(s, CallPython(copies))
    ensures s.capsule.Live? || s.capsule.NoCapsule?
    ensures s.capsule.Live? <==> s.progress.Capsuled?
    ensures var t := Step(s, CallPython(copies));
            && t == s.(progress := t.progress, capsule := t.capsule, misused := t.misused)
            && t.capsule == (if s.capsule.Live? then Live(s.capsule.refs + copies) else s.capsule)
            && t.progress == (if s.progress.Capsuled? then CalledWithCapsule
                              else if s.progress.Uncapsuled? then CalledWithout else CalledWithError)
            && SamePointers(s.progress, t.progress) && CoreTaken(s.progress)
  {
    hide Accounted, NativeAccounted, Misuse, LeaksExcused;
  }

  /** What the shutdown callback's release leaves. */
  lemma ReleaseThreadLeaves(s: State)
    requires Inv(s) && s.thread.InShutdown?
    ensures Enabled(s, ShutdownReleases) && s.refCount > 0 && s.frees == 0 && CoreTaken(s.progress)
    ensures var t := Step(s, ShutdownReleases);
            && t.refCount == s.refCount - 1 && t.frees == (if t.refCount == 0 then 1 else 0)
            && t.coreReleases == (if t.refCount == 0 then s.coreReleases + 1 else s.coreReleases)
            && t.capsule == s.capsule && t.nativeReleases == s.nativeReleases && t.pythonAlive == s.pythonAlive
            && t.progress == s.progress && t.thread == ReleasedBinding
  {
    hide CapsuleOwns, CreatorOwns;
  }

  predicate SameOutside(s: State, t: State) {
    && t.capsule == s.capsule && t.nativeReleases == s.nativeReleases && t.pythonAlive == s.pythonAlive
    && SamePointers(s.progress, t.progress)
  }

  /** Setup has been given a native connection. */
  predicate Connected(p: Progress) {
    p == InSetup(true) || HasAcquired(p)
  }

  /** The pointers of the binding are set at one point exactly if they are at the other. */
  predicate SamePointers(p: Progress, q: Progress) {
    && !p.PythonGone? && !q.PythonGone?
    && (Connected(p) <==> Connected(q)) && (CoreTaken(p) <==> CoreTaken(q))
  }

  // -------------------------------------------------------------- callbacks

  function SetupSteps(alive: bool, connected: bool, capsuleOk: bool, copies: nat): seq<Action> {
    if !alive then [SetupEnters(connected)]
    else if !connected then [SetupEnters(false), CallPython(0), CleanUp]
    else if capsuleOk then [SetupEnters(true), SetupAcquires, MakeCapsule(true), CallPython(copies), CleanUp]
    else [SetupEnters(true), SetupAcquires, MakeCapsule(false), CallPython(copies), CleanUp, ReleaseNative]
  }

  lemma SetupHistory(h: seq<Action>, ok: bool, copies: nat)
    ensures forall connected: bool :: h + [SetupEnters(connected)] == h + SetupSteps(false, connected, ok, copies)
    ensures h + [SetupEnters(false)] + [CallPython(0)] + [CleanUp] == h + SetupSteps(true, false, ok, copies)
    ensures var middle := [SetupAcquires, MakeCapsule(ok), CallPython(copies)];
            var end := if ok then [CleanUp] else [CleanUp, ReleaseNative];
            h + [SetupEnters(true)] + middle + end == h + SetupSteps(true, true, ok, copies)
  {
    var middle := [SetupAcquires, MakeCapsule(ok), CallPython(copies)];
    var end := if ok then [CleanUp] else [CleanUp, ReleaseNative];
    assert SetupSteps(true, true, ok, copies) == [SetupEnters(true)] + middle + end;
    assert SetupSteps(true, false, ok, copies) == [SetupEnters(false)] + [CallPython(0)] + [CleanUp];
  }

  /** What a pointer field points to. */
  type Handle = nat

  /**
   The binding: its own fields, the capsule made for it, and what it has done to the objects behind its
   pointers. Each callback is proved to be a sequence of steps of the protocol.
   */
  class HttpConnectionBinding {
    var native: Option<Handle>
    var pyCore: Option<Handle>
    var refCount: nat
    var capsule: Capsule
    var nativeReleases: nat      // calls of `aws_http_connection_release`
    var coreReleases: nat        // decrements of `py_core`
    var freed: bool              // the memory of the binding is given back
    var pythonAlive: bool
    ghost var s: State
    ghost var history: seq<Action>

    /** The real fields are what the protocol says they are. */
    ghost predicate Mirrors()
      reads this
    {
      && refCount == s.refCount && pythonAlive == s.pythonAlive && capsule == s.capsule
      && nativeReleases == s.nativeReleases && coreReleases == s.coreReleases && (freed <==> s.frees > 0)
      && (pyCore.Some? <==> CoreTaken(s.progress))
      && (!s.progress.PythonGone? ==> (native.Some? <==> Connected(s.progress)))
    }

    ghost predicate Valid()
      reads this
    {
      Mirrors() && IsRun(history, NEW, s)
    }

    /** `aws_mem_calloc` and `aws_ref_count_init`. */
    constructor ()
      ensures Valid() && s == NEW && history == []
    {
      native, pyCore, refCount, capsule := None, None, 1, NoCapsule;
      nativeReleases, coreReleases, freed, pythonAlive := 0, 0, false, true;
      s, history := NEW, [];
    }

    /** Records a step of the protocol. */
    ghost method Record(a: Action)
      requires IsRun(history, NEW, s) && Enabled(s, a)
      modifies this`s, this`history
      ensures IsRun(history, NEW, s) && s == Step(old(s), a) && history == old(history) + [a]
    {
      RunExtends(history, NEW, s, a);
      s := Step(s, a);
      history := history + [a];
    }

    // ---- what the callbacks are made of ----

    /** `s_connection_destroy`. */
    method Destroy()
      requires !freed
      modifies this`coreReleases, this`freed
      ensures freed && coreReleases == if pyCore.Some? then old(coreReleases) + 1 else old(coreReleases)
    {
      if pyCore.Some? {
        coreReleases := coreReleases + 1;
      }
      freed := true;
    }

    /** `aws_ref_count_release` on the count of the binding. */
    method RefCountRelease()
      requires refCount > 0 && !freed
      modifies this`refCount, this`coreReleases, this`freed
      ensures refCount == old(refCount) - 1 && freed == (refCount == 0)
      ensures coreReleases == if refCount == 0 && pyCore.Some? then old(coreReleases) + 1 else old(coreReleases)
    {
      refCount := refCount - 1;
      if refCount == 0 {
        Destroy();
      }
    }

    /** `aws_http_connection_release(connection->native)`. */
    method ReleaseNativeConnection()
      requires native.Some?
      modifies this`nativeReleases
      ensures nativeReleases == old(nativeReleases) + 1
    {
      nativeReleases := nativeReleases + 1;
    }

    // ---- creation ----

    method HoldCore(core: Handle)
      requires Valid() && s == NEW
      modifies this`pyCore, this`s, this`history
      ensures Valid() && pyCore == Some(core) && history == old(history) + [TakeCore]
      ensures s == Step(NEW, TakeCore) && s.progress == Connecting
    {
      hide IsRun;
      pyCore := Some(core);
      Record(TakeCore);
    }

    /** The failure exit: the only reference is released, and with it whatever was taken. */
    method Abandon(a: Action)
      requires Valid() && Enabled(s, a) && (a.OptionsFail? || a.ConnectFails?)
      modifies this`refCount, this`coreReleases, this`freed, this`s, this`history
      ensures Valid() && history == old(history) + [a] && freed && refCount == 0
      ensures s.progress == if a.OptionsFail? then NothingTaken else NotConnected
      ensures coreReleases == if pyCore.Some? then old(coreReleases) + 1 else old(coreReleases)
    {
      OwnerHasReference(history, s);
      AbandonLeaves(s, a);
      hide IsRun, Inv, FirstIsOwned, ThreadOwns, Step, Enabled, CoreTaken, Connected;
      RefCountRelease();
      Record(a);
    }

    method StartConnecting()
      requires Valid() && s.progress.Connecting?
      modifies this`s, this`history
      ensures Valid() && history == old(history) + [ConnectStarts] && s.progress == AwaitingSetup
    {
      hide IsRun;
      Record(ConnectStarts);
    }

    /** What creation starts from. */
    lemma NewHas()
      requires Valid() && s == NEW
      ensures refCount == 1 && !freed && nativeReleases == 0 && coreReleases == 0
      ensures native == None && pyCore == None && capsule == NoCapsule
      ensures Enabled(s, OptionsFail)
    {
    }

    /** `aws_py_http_client_connection_new`. */
    method New(optionsOk: bool, core: Handle, connectOk: bool) returns (ok: bool)
      requires Valid() && s == NEW
      modifies this
      ensures Valid() && ok == (optionsOk && connectOk)
      ensures pyCore == if optionsOk then Some(core) else None
      ensures freed == !ok && coreReleases == if optionsOk && !connectOk then 1 else 0
      ensures refCount == (if ok then 1 else 0) && native == None && capsule == NoCapsule && nativeReleases == 0
      ensures s.progress == if ok then AwaitingSetup else if optionsOk then NotConnected else NothingTaken
      ensures history == old(history) + (if !optionsOk then [OptionsFail]
                                         else if !connectOk then [TakeCore, ConnectFails]
                                         else [TakeCore, ConnectStarts])
    {
      NewHas();
      hide IsRun, Step, Mirrors;
      if !optionsOk {
        Abandon(OptionsFail);
        return false;
      }
      HoldCore(core);
      if !connectOk {
        Abandon(ConnectFails);
        return false;
      }
      StartConnecting();
      return true;
    }

    // ---- the setup callback ----

    /** Its first lines: `native` is set even when Python turns out to be gone. */
    method EnterSetup(connection: Option<Handle>)
      requires Valid() && s.progress.AwaitingSetup?
      modifies this`native, this`s, this`history
      ensures Valid() && native == connection && history == old(history) + [SetupEnters(connection.Some?)]
      ensures s.progress == if pythonAlive then InSetup(connection.Some?) else PythonGone
      ensures s.frees == old(s.frees) && s.thread == old(s.thread)
    {
      hide IsRun;
      native := connection;
      Record(SetupEnters(connection.Some?));
    }

    /** `aws_ref_count_acquire` for the connection thread. */
    method AcquireForThread()
      requires Valid() && s.progress == InSetup(true)
      modifies this`refCount, this`s, this`history
      ensures Valid() && refCount == old(refCount) + 1 && history == old(history) + [SetupAcquires]
      ensures s.progress == Acquired && s.frees == old(s.frees) && s.thread == Running
    {
      hide IsRun;
      refCount := refCount + 1;
      Record(SetupAcquires);
    }

    /** `PyCapsule_New`, which can fail. */
    method TryCapsule(ok: bool)
      requires Valid() && s.progress.Acquired?
      modifies this`capsule, this`s, this`history
      ensures Valid() && history == old(history) + [MakeCapsule(ok)]
      ensures s.progress == if ok then Capsuled else Uncapsuled
      ensures capsule == if ok then Live(1) else old(capsule)
      ensures s.frees == old(s.frees) && s.thread == old(s.thread)
    {
      hide IsRun;
      if ok {
        capsule := Live(1);
      }
      Record(MakeCapsule(ok));
    }

    /** `_on_connection_setup` on `py_core`; Python keeps so many references to the capsule. */
    method CallSetup(copies: nat)
      requires Valid() && (s.progress.Capsuled? || s.progress.Uncapsuled? || s.progress == InSetup(false))
      modifies this`capsule, this`s, this`history
      ensures Valid() && pyCore.Some? && history == old(history) + [CallPython(copies)]
      ensures s.progress == if old(s.progress).Capsuled? then CalledWithCapsule
                            else if old(s.progress).Uncapsuled? then CalledWithout else CalledWithError
      ensures capsule == if old(capsule).Live? then Live(old(capsule).refs + copies) else old(capsule)
      ensures s.frees == old(s.frees) && s.thread == old(s.thread)
    {
      OwnerHasReference(history, s);
      CallPythonLeaves(s, copies);
      hide IsRun, Inv, FirstIsOwned, ThreadOwns, Step, Enabled, CoreTaken, Connected;
      if capsule.Live? {
        capsule := Live(capsule.refs + copies);
      }
      Record(CallPython(copies));
    }

    /** The end of a setup whose capsule exists: its own reference to the capsule goes. */
    method DropLocalCapsule()
      requires Valid() && s.progress.CalledWithCapsule?
      modifies this`capsule, this`s, this`history
      ensures Valid() && history == old(history) + [CleanUp] && s.progress == WithCapsule
      ensures capsule == DropRef(old(capsule)) && s.thread == old(s.thread)
    {
      hide IsRun;
      capsule := DropRef(capsule);
      Record(CleanUp);
    }

    /** The end of a setup without a capsule: the first reference has no owner and is released. */
    method ReleaseInitial()
      requires Valid() && (s.progress.CalledWithout? || s.progress.CalledWithError?)
      modifies this`refCount, this`coreReleases, this`freed, this`s, this`history
      ensures Valid() && history == old(history) + [CleanUp]
      ensures s.progress == if old(s.progress).CalledWithout? then ReleasedInitial else NotConnected
      ensures refCount == old(refCount) - 1 && (freed <==> refCount == 0) && s.thread == old(s.thread)
      ensures coreReleases == if refCount == 0 then old(coreReleases) + 1 else old(coreReleases)
    {
      OwnerHasReference(history, s);
      ReleaseInitialLeaves(s);
      hide IsRun, Inv, FirstIsOwned, ThreadOwns, Step, Enabled, CoreTaken, Connected;
      RefCountRelease();
      Record(CleanUp);
    }

    /** And then, with a native connection, that is released too. */
    method ReleaseUncapsuled()
      requires Valid() && s.progress.ReleasedInitial?
      modifies this`nativeReleases, this`s, this`history
      ensures Valid() && history == old(history) + [ReleaseNative] && s.progress == WithoutCapsule
      ensures nativeReleases == old(nativeReleases) + 1 && s.thread == old(s.thread)
    {
      hide IsRun;
      ReleaseNativeConnection();
      Record(ReleaseNative);
    }

    /** The middle of the callback when there is a connection: acquire, make the capsule, call Python. */
    method Introduce(capsuleOk: bool, copies: nat)
      requires Valid() && s.progress == InSetup(true) && capsule == NoCapsule
      modifies this`refCount, this`capsule, this`s, this`history
      ensures Valid() && refCount == old(refCount) + 1 && s.thread == Running
      ensures s.progress == if capsuleOk then CalledWithCapsule else CalledWithout
      ensures capsule == if capsuleOk then Live(1 + copies) else NoCapsule
      ensures history == old(history) + [SetupAcquires, MakeCapsule(capsuleOk), CallPython(copies)]
    {
      hide IsRun, Step, Mirrors;
      AcquireForThread();
      TryCapsule(capsuleOk);
      CallSetup(copies);
    }

    /** The end of the callback without a capsule but with a connection. */
    method GiveUpConnection()
      requires Valid() && s.progress.CalledWithout?
      modifies this`refCount, this`coreReleases, this`freed, this`nativeReleases, this`s, this`history
      ensures Valid() && s.progress == WithoutCapsule && s.thread == old(s.thread)
      ensures refCount == old(refCount) - 1 && (freed <==> refCount == 0)
      ensures coreReleases == if refCount == 0 then old(coreReleases) + 1 else old(coreReleases)
      ensures nativeReleases == old(nativeReleases) + 1
      ensures history == old(history) + [CleanUp, ReleaseNative]
    {
      hide IsRun, Step, Mirrors;
      ReleaseInitial();
      ReleaseUncapsuled();
    }

    /** The callback from the point where the connection is known to exist. */
    method FinishConnected(capsuleOk: bool, copies: nat)
      requires Valid() && s.progress == InSetup(true) && capsule == NoCapsule && refCount == 1 && !freed
      modifies this`refCount, this`capsule, this`coreReleases, this`freed, this`nativeReleases, this`s, this`history
      ensures Valid() && s.thread == Running && !freed && coreReleases == old(coreReleases)
      ensures s.progress == (if capsuleOk then WithCapsule else WithoutCapsule)
      ensures refCount == (if capsuleOk then 2 else 1)
      ensures capsule == (if !capsuleOk then NoCapsule else if copies == 0 then Dying else Live(copies))
      ensures nativeReleases == (if capsuleOk then old(nativeReleases) else old(nativeReleases) + 1)
      ensures history == old(history) + [SetupAcquires, MakeCapsule(capsuleOk), CallPython(copies)]
                         + (if capsuleOk then [CleanUp] else [CleanUp, ReleaseNative])
    {
      hide IsRun, Step, Mirrors;
      Introduce(capsuleOk, copies);
      if !capsuleOk {
        GiveUpConnection();
      } else {
        DropLocalCapsule();
      }
    }

    /** What the setup callback finds. */
    lemma AwaitingSetupHas()
      requires Valid() && s.progress.AwaitingSetup?
      ensures refCount == 1 && !freed && capsule == NoCapsule && s.thread == NoThread
    {
      OwnerHasReference(history, s);
    }

    /** `s_on_client_connection_setup`, undisturbed by the other callbacks. */
    method OnClientConnectionSetup(connection: Option<Handle>, capsuleOk: bool, copies: nat)
      requires Valid() && s.progress.AwaitingSetup?
      modifies this`native, this`refCount, this`capsule, this`nativeReleases, this`coreReleases, this`freed
      modifies this`s, this`history
      ensures Valid() && native == connection && pyCore == old(pyCore)
      // Python is gone: nothing but `native` changes
      ensures !pythonAlive ==>
                && s.progress == PythonGone && s.thread == NoThread
                && refCount == old(refCount) && capsule == old(capsule) && freed == old(freed)
                && nativeReleases == old(nativeReleases) && coreReleases == old(coreReleases)
      // no connection: the only reference goes, and with it the binding and `py_core`
      ensures pythonAlive && connection.None? ==>
                && s.progress == NotConnected && s.thread == NoThread
                && refCount == old(refCount) - 1 == 0 && freed && capsule == NoCapsule
                && nativeReleases == old(nativeReleases) && coreReleases == old(coreReleases) + 1
      // a connection and a capsule: one reference each, and only Python's references to the capsule
      ensures pythonAlive && connection.Some? && capsuleOk ==>
                && s.progress == WithCapsule && s.thread == Running
                && refCount == old(refCount) + 1 == 2 && !freed
                && capsule == (if copies == 0 then Dying else Live(copies))
                && nativeReleases == old(nativeReleases) && coreReleases == old(coreReleases)
      // a connection without a capsule: the thread's reference is left, the native connection is released
      ensures pythonAlive && connection.Some? && !capsuleOk ==>
                && s.progress == WithoutCapsule && s.thread == Running
                && refCount == old(refCount) == 1 && !freed && capsule == NoCapsule
                && nativeReleases == old(nativeReleases) + 1 && coreReleases == old(coreReleases)
      ensures history == old(history) + SetupSteps(old(pythonAlive), connection.Some?, capsuleOk, copies)
    {
      AwaitingSetupHas();
      SetupHistory(history, capsuleOk, copies);
      hide IsRun, Step, Mirrors, SetupSteps;
      EnterSetup(connection);
      if !pythonAlive {
        return;
      }
      if connection.Some? {
        FinishConnected(capsuleOk, copies);
      } else {
        CallSetup(0);
        ReleaseInitial();
      }
    }

    // ---- the surroundings ----

    /** The interpreter ends; callbacks that start later do not reach it. */
    method ExitPython()
      requires Valid()
      modifies this`pythonAlive, this`s, this`history
      ensures Valid() && !pythonAlive && history == old(history) + [PythonExits]
      ensures s.progress == old(s.progress) && s.thread == old(s.thread) && s.capsule == old(s.capsule)
    {
      hide IsRun;
      pythonAlive := false;
      Record(PythonExits);
    }

    /** Python takes another reference to the capsule. */
    method ShareCapsule()
      requires Valid() && capsule.Live? && pythonAlive
      modifies this`capsule, this`s, this`history
      ensures Valid() && capsule == Live(old(capsule).refs + 1) && history == old(history) + [CopyCapsule]
    {
      OwnerHasReference(history, s);
      hide IsRun, Accounted, NativeAccounted, Misuse, LeaksExcused;
      capsule := Live(capsule.refs + 1);
      Record(CopyCapsule);
    }

    /** Python drops one of its references; the last of all starts the destructor. */
    method ForgetCapsule()
      requires Valid() && Enabled(s, DropCapsule)
      modifies this`capsule, this`s, this`history
      ensures Valid() && history == old(history) + [DropCapsule]
      ensures old(capsule).Live? && capsule == if old(capsule).refs == 1 then Dying else Live(old(capsule).refs - 1)
    {
      OwnerHasReference(history, s);
      hide IsRun, Accounted, NativeAccounted, Misuse, LeaksExcused;
      capsule := DropRef(capsule);
      Record(DropCapsule);
    }

    // ---- the other callbacks ----

    /** `_on_shutdown` on `py_core`, if Python is still there. */
    method CallShutdown()
      requires Valid() && s.thread.Running?
      modifies this`s, this`history
      ensures Valid() && history == old(history) + [ShutdownCalls]
      ensures s.thread == if pythonAlive then InShutdown else SkippedShutdown
    {
      hide IsRun;
      Record(ShutdownCalls);
    }

    method ReleaseThread()
      requires Valid() && s.thread.InShutdown?
      modifies this`refCount, this`coreReleases, this`freed, this`s, this`history
      ensures Valid() && history == old(history) + [ShutdownReleases] && s.thread == ReleasedBinding
      ensures refCount == old(refCount) - 1 && (freed <==> refCount == 0)
      ensures coreReleases == if refCount == 0 then old(coreReleases) + 1 else old(coreReleases)
    {
      OwnerHasReference(history, s);
      ReleaseThreadLeaves(s);
      hide IsRun, Inv, FirstIsOwned, ThreadOwns, Step, Enabled, CoreTaken, Connected;
      RefCountRelease();
      Record(ShutdownReleases);
    }

    /** `s_on_connection_shutdown`. */
    method OnConnectionShutdown()
      requires Valid() && s.thread.Running?
      modifies this`refCount, this`coreReleases, this`freed, this`s, this`history
      ensures Valid() && s.thread == if pythonAlive then ReleasedBinding else SkippedShutdown
      ensures !pythonAlive ==>
                refCount == old(refCount) && freed == old(freed) && coreReleases == old(coreReleases)
      ensures pythonAlive ==>
                && refCount == old(refCount) - 1 && (freed <==> refCount == 0)
                && coreReleases == if refCount == 0 then old(coreReleases) + 1 else old(coreReleases)
      ensures history == old(history) + if pythonAlive then [ShutdownCalls, ShutdownReleases] else [ShutdownCalls]
    {
      hide IsRun, Step, Mirrors;
      CallShutdown();
      if !pythonAlive {
        return;
      }
      ReleaseThread();
    }

    method DestroyingReleasesNative()
      requires Valid() && s.capsule.Dying?
      modifies this`capsule, this`nativeReleases, this`s, this`history
      ensures Valid() && history == old(history) + [DestructorReleasesNative]
      ensures s.capsule == NativeReleased && nativeReleases == old(nativeReleases) + 1
    {
      OwnerHasReference(history, s);
      hide IsRun, Accounted, NativeAccounted, Misuse, LeaksExcused;
      ReleaseNativeConnection();
      capsule := NativeReleased;
      Record(DestructorReleasesNative);
    }

    method DestroyingReleasesBinding()
      requires Valid() && s.capsule.NativeReleased?
      modifies this`capsule, this`refCount, this`coreReleases, this`freed, this`s, this`history
      ensures Valid() && history == old(history) + [DestructorReleasesBinding]
      ensures capsule == Destroyed && refCount == old(refCount) - 1 && (freed <==> refCount == 0)
      ensures coreReleases == if refCount == 0 then old(coreReleases) + 1 else old(coreReleases)
    {
      OwnerHasReference(history, s);
      hide IsRun, Inv, CreatorOwns;
      RefCountRelease();
      capsule := Destroyed;
      Record(DestructorReleasesBinding);
    }

    /** `s_connection_capsule_destructor`. */
    method CapsuleDestructor()
      requires Valid() && s.capsule.Dying?
      modifies this
      ensures Valid() && capsule == Destroyed && nativeReleases == old(nativeReleases) + 1
      ensures refCount == old(refCount) - 1 && (freed <==> refCount == 0)
      ensures coreReleases == if refCount == 0 then old(coreReleases) + 1 else old(coreReleases)
      ensures history == old(history) + [DestructorReleasesNative, DestructorReleasesBinding]
    {
      hide IsRun, Step, Mirrors;
      DestroyingReleasesNative();
      DestroyingReleasesBinding();
    }
  }
}
