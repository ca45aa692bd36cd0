/**
 The lazy cross-language reference of the Python-backed input stream. C code counts its references in the
 atomic `c_ref`; only the first of them takes a reference to the Python object and only the last drops it.
 The atomic step and the Python step of one call are separate, so calls on several threads interleave.
 */
module InputStreamRef {

  /**
   `held` counts the Python references taken by the stream itself (increments minus decrements) and
   `external` those of everybody else. `returned` counts the C references whose acquire has returned;
   `acquiring` and `releasing` the calls between their two steps; the `lost` fields the Python steps that
   were skipped because Python had shut down. `freed` is set when the Python object loses its last
   reference, `misused` when a Python step touches it after that.
   */
  datatype State = State(
    cRef: nat, held: int, external: nat,
    returned: nat, acquiring: nat, releasing: nat,
    lostIncrements: nat, lostDecrements: nat,
    pythonAlive: bool, freed: bool, misused: bool)

  datatype Action =
    | AcquireAtomic      // fetch_add; returns at once unless the count was zero
    | AcquirePython      // Py_INCREF of an acquire from zero, which then returns
    | ReleaseAtomic      // fetch_sub; returns at once unless the count was one
    | ReleasePython      // Py_DECREF of a release to zero, which then returns
    | ExternalTake       // somebody else copies a Python reference
    | ExternalDrop       // somebody else drops one
    | Shutdown           // Python shuts down

  /** `aws_py_input_stream_new`: no C reference, and the caller's reference to the Python object. */
  function Created(external: nat): State
    requires external > 0
  {
    State(0, 0, external, 0, 0, 0, 0, 0, true, false, false)
  }

  /** A change of the Python reference count. */
  function Touch(s: State, dHeld: int, external: nat): State {
    var held := s.held + dHeld;
    s.(held := held, external := external,
       freed := s.freed || held + external == 0,
       misused := s.misused || s.freed)
  }

  function Step(s: State, a: Action): State {
    match a
    case AcquireAtomic =>
      if s.cRef == 0 then s.(cRef := 1, acquiring := s.acquiring + 1)
      else s.(cRef := s.cRef + 1, returned := s.returned + 1)
    case AcquirePython =>
      if s.acquiring == 0 then s
      else
        var t := s.(acquiring := s.acquiring - 1, returned := s.returned + 1);
        if s.pythonAlive then Touch(t, 1, t.external) else t.(lostIncrements := t.lostIncrements + 1)
    case ReleaseAtomic =>
      if s.cRef == 0 then s
      else
        var t := s.(cRef := s.cRef - 1, returned := if s.returned > 0 then s.returned - 1 else 0);
        if s.cRef == 1 then t.(releasing := t.releasing + 1) else t
    case ReleasePython =>
      if s.releasing == 0 then s
      else
        var t := s.(releasing := s.releasing - 1);
        if s.pythonAlive then Touch(t, -1, t.external) else t.(lostDecrements := t.lostDecrements + 1)
    case ExternalTake => Touch(s, 0, s.external + 1)
    case ExternalDrop => if s.external == 0 then s else Touch(s, 0, s.external - 1)
    case Shutdown => s.(pythonAlive := false)
  }

  /**
   How callers behave: a release gives back a reference whose acquire has returned; whoever acquires
   from zero holds a Python reference, and keeps it until the acquire returns; Python references are
   copied from existing ones, and not at all once Python is gone.
   */
  predicate Allowed(s: State, a: Action) {
    match a
    case AcquireAtomic => s.cRef > 0 || s.external > s.acquiring
    case ReleaseAtomic => s.returned > 0
    case ExternalTake => s.pythonAlive && s.external > 0
    case ExternalDrop => s.pythonAlive && s.external > s.acquiring
    case _ => true
  }

  function Run(s: State, trace: seq<Action>): State
    decreases |trace|
  {
    if trace == [] then s else Run(Step(s, trace[0]), trace[1..])
  }

  predicate AllAllowed(s: State, trace: seq<Action>)
    decreases |trace|
  {
    trace == [] || (Allowed(s, trace[0]) && AllAllowed(Step(s, trace[0]), trace[1..]))
  }

  function Positive(n: nat): int {
    if n > 0 then 1 else 0
  }

  /**
   The identity behind the lazy reference: the Python references held are one if C holds any, plus the
   decrements still to come, minus the increments still to come (or lost to a shutdown).
   */
  predicate Balanced(s: State) {
    && s.held == Positive(s.cRef) + s.releasing + s.lostDecrements - s.acquiring - s.lostIncrements
    && (s.pythonAlive ==> s.lostIncrements == 0 && s.lostDecrements == 0)
  }

  /** The identity, and that every C reference is one whose acquire has returned or is still running. */
  predicate Accounted(s: State) {
    Balanced(s) && s.cRef == s.returned + s.acquiring
  }

  predicate Safe(s: State) {
    && s.external >= s.acquiring
    && !s.misused
    && (s.freed ==>
          s.cRef == 0 && s.releasing == 0 && s.external == 0 && s.held == 0)
    && (s.pythonAlive && !s.freed ==> s.held + s.external > 0)
  }

  lemma StepKeepsBalanced(s: State, a: Action)
    requires Balanced(s)
    ensures Balanced(Step(s, a))
  {
  }

  /**
   In every interleaving whatsoever, callers keeping the rules or not, the identity holds: also while a
   release overtakes its acquire and the references held drop below zero.
   */
  lemma {:induction false} EveryRunIsBalanced(s: State, trace: seq<Action>)
    requires Balanced(s)
    ensures Balanced(Run(s, trace))
    decreases |trace|
  {
    hide Step, Balanced;
    if trace != [] {
      StepKeepsBalanced(s, trace[0]);
      EveryRunIsBalanced(Step(s, trace[0]), trace[1..]);
    }
  }

  /** The same for a newly created stream: only a shutdown can unbalance calls that are all over. */
  lemma CreatedStreamIsBalanced(external: nat, trace: seq<Action>)
    requires external > 0
    ensures var s := Run(Created(external), trace);
            s.pythonAlive ==> s.held == Positive(s.cRef) + s.releasing - s.acquiring
  {
    EveryRunIsBalanced(Created(external), trace);
  }

  lemma AcquireKeepsSafe(s: State, a: Action)
    requires Accounted(s) && Safe(s) && Allowed(s, a) && (a.AcquireAtomic? || a.AcquirePython?)
    ensures Accounted(Step(s, a)) && Safe(Step(s, a))
  {
  }

  lemma ReleaseKeepsSafe(s: State, a: Action)
    requires Accounted(s) && Safe(s) && Allowed(s, a) && (a.ReleaseAtomic? || a.ReleasePython?)
    ensures Accounted(Step(s, a)) && Safe(Step(s, a))
  {
  }

  lemma OthersKeepSafe(s: State, a: Action)
    requires Accounted(s) && Safe(s) && Allowed(s, a) && (a.ExternalTake? || a.ExternalDrop? || a.Shutdown?)
    ensures Accounted(Step(s, a)) && Safe(Step(s, a))
  {
  }

  lemma StepKeepsSafe(s: State, a: Action)
    requires Accounted(s) && Safe(s) && Allowed(s, a)
    ensures Accounted(Step(s, a)) && Safe(Step(s, a))
  {
    hide *;
    match a
    case AcquireAtomic => AcquireKeepsSafe(s, a);
    case AcquirePython => AcquireKeepsSafe(s, a);
    case ReleaseAtomic => ReleaseKeepsSafe(s, a);
    case ReleasePython => ReleaseKeepsSafe(s, a);
    case _ => OthersKeepSafe(s, a);
  }

  /**
   In every interleaving of acquires, releases, other owners and a shutdown in which callers keep the rules:
   while C holds a reference the Python object is alive, and no Python step ever touches a freed object.
   */
  lemma {:induction false} EveryRunIsSafe(s: State, trace: seq<Action>)
    requires Accounted(s) && Safe(s) && AllAllowed(s, trace)
    ensures Accounted(Run(s, trace)) && Safe(Run(s, trace))
    ensures Run(s, trace).cRef > 0 || Run(s, trace).releasing > 0 ==> !Run(s, trace).freed
    decreases |trace|
  {
    if trace != [] {
      StepKeepsSafe(s, trace[0]);
      EveryRunIsSafe(Step(s, trace[0]), trace[1..]);
    }
  }

  /** The same from the start: runs of a newly created stream. */
  lemma CreatedStreamIsSafe(external: nat, trace: seq<Action>)
    requires external > 0 && AllAllowed(Created(external), trace)
    ensures var s := Run(Created(external), trace);
            && !s.misused
            && (s.cRef > 0 ==> !s.freed)
            && s.cRef == s.returned + s.acquiring
  {
    EveryRunIsSafe(Created(external), trace);
  }

  /**
   At rest with Python running, the stream holds exactly one Python reference while C holds any, and none
   otherwise: nothing is leaked and nothing is released twice.
   */
  lemma AtRestOneReference(external: nat, trace: seq<Action>)
    requires external > 0 && AllAllowed(Created(external), trace)
    requires var s := Run(Created(external), trace); s.pythonAlive && s.acquiring == 0 && s.releasing == 0
    ensures Run(Created(external), trace).held == Positive(Run(Created(external), trace).cRef)
  {
    EveryRunIsSafe(Created(external), trace);
  }

  /** A shutdown can only leak: from then on neither the references nor `freed` change any more. */
  lemma {:induction false} ShutdownOnlyLeaks(s: State, trace: seq<Action>)
    requires Accounted(s) && Safe(s) && !s.pythonAlive && AllAllowed(s, trace)
    ensures Run(s, trace).held == s.held && Run(s, trace).external == s.external
    ensures Run(s, trace).freed == s.freed && !Run(s, trace).misused
    decreases |trace|
  {
    if trace != [] {
      StepKeepsSafe(s, trace[0]);
      ShutdownOnlyLeaks(Step(s, trace[0]), trace[1..]);
    }
  }

  // ------------------------------------------------ both rules are needed

  /** If the acquirer from zero drops its own reference before acquire returns, the object dies under C. */
  lemma UnpinnedAcquirerIsUnsafe(s: State)
    requires s == Created(1)
    ensures Run(s, [AcquireAtomic, ExternalDrop]).cRef > 0 && Run(s, [AcquireAtomic, ExternalDrop]).freed
    ensures Run(s, [AcquireAtomic, ExternalDrop, AcquirePython]).misused
  {
    hide Run;
    TwoSteps(s, AcquireAtomic, ExternalDrop);
    ThreeSteps(s, AcquireAtomic, ExternalDrop, AcquirePython);
  }

  /** If a release overtakes the acquire it belongs to, the decrement can come first and free the object. */
  lemma OvertakingReleaseIsUnsafe(s: State)
    requires s == Created(1)
    ensures Run(s, [AcquireAtomic, ReleaseAtomic, ReleasePython]).freed
    ensures Run(s, [AcquireAtomic, ReleaseAtomic, ReleasePython] + [AcquirePython]).misused
  {
    hide Run;
    ThreeSteps(s, AcquireAtomic, ReleaseAtomic, ReleasePython);
    RunAppends(s, [AcquireAtomic, ReleaseAtomic, ReleasePython], AcquirePython);
  }

  // ---------------------------------------------------------- the callbacks

  /** The binding: the callbacks below are exactly sequences of the steps above. */
  class InputStreamImpl {
    var cRef: nat
    var pyRefs: int              // the Python references this stream has taken
    var pythonAlive: bool
    ghost var s: State

    ghost predicate Valid()
      reads this
    {
      s.cRef == cRef && s.held == pyRefs && s.pythonAlive == pythonAlive && Accounted(s) && Safe(s)
    }

    constructor (ghost external: nat)
      requires external > 0
      ensures Valid() && s == Created(external) && pythonAlive
    {
      cRef, pyRefs, pythonAlive := 0, 0, true;
      s := Created(external);
    }

    /** The interpreter ends; from here on the callbacks cannot reach it. */
    method ShutDownPython()
      requires Valid()
      modifies this`pythonAlive, this`s
      ensures Valid() && !pythonAlive && s == Step(old(s), Shutdown)
    {
      StepKeepsSafe(s, Shutdown);
      pythonAlive := false;
      s := Step(s, Shutdown);
    }

    /** `s_aws_input_stream_py_acquire`, undisturbed. */
    method Acquire()
      requires Valid() && Allowed(s, AcquireAtomic)
      modifies this`cRef, this`pyRefs, this`s
      ensures Valid()
      ensures s == if old(cRef) == 0 then Run(old(s), [AcquireAtomic, AcquirePython]) else Run(old(s), [AcquireAtomic])
      ensures cRef == old(cRef) + 1
      ensures pyRefs == if old(cRef) == 0 && pythonAlive then old(pyRefs) + 1 else old(pyRefs)
    {
      var preRef := cRef;
      cRef := cRef + 1;
      StepKeepsSafe(s, AcquireAtomic);
      TwoSteps(s, AcquireAtomic, AcquirePython);
      s := Step(s, AcquireAtomic);
      if preRef == 0 {
        if pythonAlive {
          pyRefs := pyRefs + 1;
        }
        StepKeepsSafe(s, AcquirePython);
        s := Step(s, AcquirePython);
      }
    }

    /** `s_aws_input_stream_py_release`, undisturbed. */
    method Release()
      requires Valid() && Allowed(s, ReleaseAtomic)
      modifies this`cRef, this`pyRefs, this`s
      ensures Valid()
      ensures s == if old(cRef) == 1 then Run(old(s), [ReleaseAtomic, ReleasePython]) else Run(old(s), [ReleaseAtomic])
      ensures cRef == old(cRef) - 1
      ensures pyRefs == if old(cRef) == 1 && pythonAlive then old(pyRefs) - 1 else old(pyRefs)
    {
      var preRef := cRef;
      cRef := cRef - 1;
      StepKeepsSafe(s, ReleaseAtomic);
      TwoSteps(s, ReleaseAtomic, ReleasePython);
      s := Step(s, ReleaseAtomic);
      if preRef == 1 {
        if pythonAlive {
          pyRefs := pyRefs - 1;
        }
        StepKeepsSafe(s, ReleasePython);
        s := Step(s, ReleasePython);
      }
    }
  }

  lemma TwoSteps(s: State, a: Action, b: Action)
    ensures Run(s, [a]) == Step(s, a)
    ensures Run(s, [a, b]) == Step(Step(s, a), b)
  {
    hide Step;
    assert [a][1..] == [] && [a, b] == [a] + [b];
    RunAppends(s, [a], b);
  }

  lemma ThreeSteps(s: State, a: Action, b: Action, c: Action)
    ensures Run(s, [a, b, c]) == Step(Step(Step(s, a), b), c)
  {
    hide Step;
    assert [a, b, c] == [a, b] + [c];
    RunAppends(s, [a, b], c);
    TwoSteps(s, a, b);
  }

  lemma {:induction false} RunAppends(s: State, trace: seq<Action>, a: Action)
    ensures Run(s, trace + [a]) == Step(Run(s, trace), a)
    decreases |trace|
  {
    hide Step;
    if trace == [] {
      assert trace + [a] == [a] && [a][1..] == [];
    } else {
      assert (trace + [a])[1..] == trace[1..] + [a];
      RunAppends(Step(s, trace[0]), trace[1..], a);
    }
  }
}
