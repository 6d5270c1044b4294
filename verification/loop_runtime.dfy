// The flags of project loops under interleaving. JavaScript runs one stretch of code between two
// awaits without interruption, so every step below is such a stretch: an entry up to the first await,
// the end of a body, the end of the hooks. Between the steps of one invocation any others may happen.

module LoopRuntime {
  import opened JsText

  datatype Runtime = Runtime(running: bool, busy: bool, child: bool)

  datatype Kind = Once | Task | TaskBatches

  /** An invocation between its entry and its end; runOnce awaits hooks before it clears `busy`. */
  datatype Invocation = Body(kind: Kind, project: nat) | Hooks(project: nat)

  /**
   * Workspaces of the projects that exist, runtimes, invocations under way, and for the record the
   * projects whose `busy` was left set by an invocation that is over.
   */
  datatype Service = Service(
    workspaces: map<nat, string>,
    runtimes: map<nat, Runtime>,
    invocations: map<nat, Invocation>,
    leaked: set<nat>)

  /** `workspaceKey`: trims, resolves and on Windows lower-cases a path; empty for an empty one. */
  type KeyOf = string -> string

  const IDLE := Runtime(false, false, false)

  function RuntimeOf(s: Service, p: nat): Runtime {
    if p in s.runtimes then s.runtimes[p] else IDLE
  }

  function Key(key: KeyOf, s: Service, p: nat): string {
    if p in s.workspaces then key(s.workspaces[p]) else ""
  }

  predicate IsActive(r: Runtime) {
    r.running || r.busy || r.child
  }

  /** Another active project has this workspace. */
  predicate Owned(key: KeyOf, s: Service, workspace: string, p: nat) {
    key(workspace) != "" &&
    exists q | q in s.runtimes :: q != p && IsActive(s.runtimes[q]) && Key(key, s, q) == key(workspace)
  }

  function SetRuntime(s: Service, p: nat, r: Runtime): Service {
    s.(runtimes := s.runtimes[p := r])
  }

  /** The start of a body: `busy` is set before anything can happen in between. */
  function Occupy(s: Service, i: nat, kind: Kind, p: nat): Service {
    SetRuntime(s, p, RuntimeOf(s, p).(busy := true)).(invocations := s.invocations[i := Body(kind, p)])
  }

  /** `runOnce` up to its first await. */
  function EnterOnce(s: Service, i: nat, p: nat): Service {
    if RuntimeOf(s, p).busy then s else Occupy(s, i, Once, p)
  }

  /** `runTask` and `runTaskBatches` up to theirs; `valid` is whether task, plan and batches stand the checks. */
  function EnterExclusive(key: KeyOf, s: Service, i: nat, kind: Kind, p: nat, valid: bool): Service {
    if RuntimeOf(s, p).busy || p !in s.workspaces || s.workspaces[p] == "" || !valid
       || Owned(key, s, s.workspaces[p], p)
    then s
    else Occupy(s, i, kind, p)
  }

  /** `start` sets `running` and enters runOnce. */
  function Started(key: KeyOf, s: Service, i: nat, p: nat): Service {
    if p !in s.workspaces || s.workspaces[p] == "" || RuntimeOf(s, p).running || Owned(key, s, s.workspaces[p], p) then s
    else EnterOnce(SetRuntime(s, p, RuntimeOf(s, p).(running := true)), i, p)
  }

  function Stopped(s: Service, p: nat): Service {
    SetRuntime(s, p, RuntimeOf(s, p).(running := false))
  }

  /** `configure`; None keeps the workspace. */
  function Configured(key: KeyOf, s: Service, p: nat, workspace: Option<string>): Service {
    var next := if workspace.Some? then workspace.value else if p in s.workspaces then s.workspaces[p] else "";
    if (RuntimeOf(s, p).running || RuntimeOf(s, p).busy) && Owned(key, s, next, p) then s
    else if p !in s.workspaces then s
    else s.(workspaces := s.workspaces[p := next])
  }

  function Release(s: Service, i: nat, p: nat): Service {
    SetRuntime(s, p, RuntimeOf(s, p).(busy := false)).(invocations := s.invocations - {i})
  }

  function Leak(s: Service, i: nat, p: nat): Service {
    s.(invocations := s.invocations - {i}, leaked := s.leaked + {p})
  }

  /**
   * The body of invocation i returns, throws or is cancelled. The finally block of runOnce first reads
   * the phase; if that throws, the rest of the block is skipped.
   */
  function EndBody(s: Service, i: nat, phaseReadThrows: bool): Service
    requires i in s.invocations && s.invocations[i].Body?
  {
    var p := s.invocations[i].project;
    if !s.invocations[i].kind.Once? then Release(s, i, p)
    else if phaseReadThrows then Leak(s, i, p)
    else s.(invocations := s.invocations[i := Hooks(p)])
  }

  /** The hooks of runOnce are over; a hook error is written as an event, which may throw itself. */
  function EndHooks(s: Service, i: nat, hookThrows: bool, eventThrows: bool): Service
    requires i in s.invocations && s.invocations[i].Hooks?
  {
    var p := s.invocations[i].project;
    if hookThrows && eventThrows then Leak(s, i, p) else Release(s, i, p)
  }

  datatype Step =
    | StartStep(i: nat, p: nat)
    | StopStep(p: nat)
    | ConfigureStep(p: nat, workspace: Option<string>)
    | OnceStep(i: nat, p: nat)
    | ExclusiveStep(i: nat, kind: Kind, p: nat, valid: bool)
    | EndBodyStep(i: nat, phaseReadThrows: bool)
    | EndHooksStep(i: nat, hookThrows: bool, eventThrows: bool)
    | ChildStep(p: nat, child: bool)
    | CreateStep(p: nat, path: string)

  /** Invocation numbers are fresh, projects are created once, and only what is under way can end. */
  predicate Enabled(s: Service, t: Step) {
    match t
    case StartStep(i, _) => i !in s.invocations
    case OnceStep(i, _) => i !in s.invocations
    case ExclusiveStep(i, kind, _, _) => i !in s.invocations && !kind.Once?
    case EndBodyStep(i, _) => i in s.invocations && s.invocations[i].Body?
    case EndHooksStep(i, _, _) => i in s.invocations && s.invocations[i].Hooks?
    case CreateStep(p, _) => p !in s.workspaces && p !in s.runtimes
    case _ => true
  }

  function Next(key: KeyOf, s: Service, t: Step): Service
    requires Enabled(s, t)
  {
    match t
    case StartStep(i, p) => Started(key, s, i, p)
    case StopStep(p) => Stopped(s, p)
    case ConfigureStep(p, workspace) => Configured(key, s, p, workspace)
    case OnceStep(i, p) => EnterOnce(s, i, p)
    case ExclusiveStep(i, kind, p, valid) => EnterExclusive(key, s, i, kind, p, valid)
    case EndBodyStep(i, phaseReadThrows) => EndBody(s, i, phaseReadThrows)
    case EndHooksStep(i, hookThrows, eventThrows) => EndHooks(s, i, hookThrows, eventThrows)
    case ChildStep(p, child) => SetRuntime(s, p, RuntimeOf(s, p).(child := child))
    case CreateStep(p, path) => s.(workspaces := s.workspaces[p := path])
  }

  const INITIAL := Service(map[], map[], map[], {})

  function Run(key: KeyOf, steps: seq<Step>): Service {
    if steps == [] then INITIAL
    else
      var s := Run(key, steps[..|steps| - 1]);
      var t := steps[|steps| - 1];
      if Enabled(s, t) then Next(key, s, t) else s
  }

  // Mutual exclusion by `busy`.

  ghost predicate Inside(s: Service, p: nat) {
    exists i | i in s.invocations :: s.invocations[i].project == p
  }

  /** One invocation per project; `busy` says that one is inside or that one has left it set. */
  ghost predicate Exclusive(s: Service) {
    && (forall i, j | i in s.invocations && j in s.invocations ::
          s.invocations[i].project == s.invocations[j].project ==> i == j)
    && (forall i | i in s.invocations :: RuntimeOf(s, s.invocations[i].project).busy && s.invocations[i].project !in s.leaked)
    && (forall p: nat :: RuntimeOf(s, p).busy ==> Inside(s, p) || p in s.leaked)
    && (forall p | p in s.leaked :: RuntimeOf(s, p).busy)
  }

  lemma OccupyKeepsExclusive(s: Service, i: nat, kind: Kind, p: nat)
    requires Exclusive(s) && i !in s.invocations && !RuntimeOf(s, p).busy
    ensures Exclusive(Occupy(s, i, kind, p))
  {
    var t := Occupy(s, i, kind, p);
    assert t.invocations[i].project == p;
    forall q: nat | RuntimeOf(t, q).busy ensures Inside(t, q) || q in t.leaked {
      if q != p && q !in s.leaked {
        var j :| j in s.invocations && s.invocations[j].project == q;
        assert t.invocations[j].project == q;
      }
    }
  }

  lemma FlagsKeepExclusive(s: Service, p: nat, r: Runtime)
    requires Exclusive(s) && r.busy == RuntimeOf(s, p).busy
    ensures Exclusive(SetRuntime(s, p, r))
  {
  }

  /** Where another project is busy, its invocation is still inside when this one is gone. */
  lemma OthersStayInside(s: Service, i: nat, t: Service, q: nat)
    requires Exclusive(s) && i in s.invocations && t.invocations == s.invocations - {i}
    requires q != s.invocations[i].project && RuntimeOf(s, q).busy
    ensures Inside(t, q) || q in s.leaked
  {
    if q !in s.leaked {
      var j :| j in s.invocations && s.invocations[j].project == q;
      assert j in t.invocations && t.invocations[j].project == q;
    }
  }

  lemma EndKeepsExclusive(s: Service, i: nat, t: Service)
    requires Exclusive(s) && i in s.invocations
    requires var p := s.invocations[i].project; t == Release(s, i, p) || t == Leak(s, i, p)
    ensures Exclusive(t)
  {
    forall q: nat | RuntimeOf(t, q).busy ensures Inside(t, q) || q in t.leaked {
      if q != s.invocations[i].project {
        OthersStayInside(s, i, t, q);
      }
    }
  }

  lemma StepKeepsExclusive(key: KeyOf, s: Service, t: Step)
    requires Exclusive(s) && Enabled(s, t)
    ensures Exclusive(Next(key, s, t))
  {
    match t
    case StartStep(i, p) =>
      var r := RuntimeOf(s, p).(running := true);
      FlagsKeepExclusive(s, p, r);
      if !r.busy {
        OccupyKeepsExclusive(SetRuntime(s, p, r), i, Once, p);
      }
    case StopStep(p) => FlagsKeepExclusive(s, p, RuntimeOf(s, p).(running := false));
    case ConfigureStep(p, workspace) => WorkspacesKeepExclusive(s, Configured(key, s, p, workspace));
    case OnceStep(i, p) =>
      if !RuntimeOf(s, p).busy {
        OccupyKeepsExclusive(s, i, Once, p);
      }
    case ExclusiveStep(i, kind, p, valid) =>
      if !RuntimeOf(s, p).busy {
        OccupyKeepsExclusive(s, i, kind, p);
      }
    case EndBodyStep(i, phaseReadThrows) =>
      if s.invocations[i].kind.Once? && !phaseReadThrows {
        HooksKeepExclusive(s, i);
      } else {
        EndKeepsExclusive(s, i, EndBody(s, i, phaseReadThrows));
      }
    case EndHooksStep(i, hookThrows, eventThrows) => EndKeepsExclusive(s, i, EndHooks(s, i, hookThrows, eventThrows));
    case ChildStep(p, child) => FlagsKeepExclusive(s, p, RuntimeOf(s, p).(child := child));
    case CreateStep(p, path) => WorkspacesKeepExclusive(s, s.(workspaces := s.workspaces[p := path]));
  }

  lemma WorkspacesKeepExclusive(s: Service, t: Service)
    requires Exclusive(s) && t == s.(workspaces := t.workspaces)
    ensures Exclusive(t)
  {
  }

  lemma HooksKeepExclusive(s: Service, i: nat)
    requires Exclusive(s) && i in s.invocations
    ensures Exclusive(s.(invocations := s.invocations[i := Hooks(s.invocations[i].project)]))
  {
    var t := s.(invocations := s.invocations[i := Hooks(s.invocations[i].project)]);
    assert forall j | j in t.invocations :: j in s.invocations && t.invocations[j].project == s.invocations[j].project;
    forall q: nat | RuntimeOf(t, q).busy ensures Inside(t, q) || q in t.leaked {
      if q !in s.leaked {
        assert RuntimeOf(s, q).busy;
        var j :| j in s.invocations && s.invocations[j].project == q;
        assert t.invocations[j].project == q;
      }
    }
  }

  lemma {:induction false} RunIsExclusive(key: KeyOf, steps: seq<Step>)
    ensures Exclusive(Run(key, steps))
  {
    if steps == [] {
    } else {
      var s := Run(key, steps[..|steps| - 1]);
      RunIsExclusive(key, steps[..|steps| - 1]);
      if Enabled(s, steps[|steps| - 1]) {
        StepKeepsExclusive(key, s, steps[|steps| - 1]);
      }
    }
  }

  /** In every interleaving at most one invocation of a project is between entry and end. */
  lemma MutualExclusion(key: KeyOf, steps: seq<Step>, i: nat, j: nat)
    requires var s := Run(key, steps);
             i in s.invocations && j in s.invocations && s.invocations[i].project == s.invocations[j].project
    ensures i == j
  {
    RunIsExclusive(key, steps);
  }

  /** `busy` is true exactly when an invocation is inside, unless an earlier one has left it set. */
  lemma BusyMeansInside(key: KeyOf, steps: seq<Step>, p: nat)
    ensures var s := Run(key, steps);
            && (RuntimeOf(s, p).busy <==> Inside(s, p) || p in s.leaked)
            && !(Inside(s, p) && p in s.leaked)
  {
    RunIsExclusive(key, steps);
  }

  /**
   * While an invocation is inside, nothing but its own end lets go of the project: whatever else is called,
   * and refused or not, it stays inside and `busy` stays set.
   */
  lemma InsideIsUndisturbed(key: KeyOf, steps: seq<Step>, i: nat, t: Step)
    requires var s := Run(key, steps); i in s.invocations && Enabled(s, t)
    requires (t.EndBodyStep? || t.EndHooksStep?) ==> t.i != i
    ensures var s, s' := Run(key, steps), Next(key, Run(key, steps), t);
            i in s'.invocations && s'.invocations[i] == s.invocations[i] && RuntimeOf(s', s.invocations[i].project).busy
  {
    RunIsExclusive(key, steps);
  }

  /**
   * An end of a body or of the hooks that lets go of the project clears `busy`, except exactly when
   * runOnce's finally block throws on reading the phase, or on recording the error of a hook.
   */
  lemma ReleasedExactly(key: KeyOf, steps: seq<Step>, t: Step)
    requires Enabled(Run(key, steps), t) && (t.EndBodyStep? || t.EndHooksStep?)
    ensures var s := Run(key, steps);
            var p := s.invocations[t.i].project;
            var s' := Next(key, s, t);
            t.i !in s'.invocations ==>
              (RuntimeOf(s', p).busy <==> if t.EndBodyStep? then s.invocations[t.i].kind.Once? && t.phaseReadThrows
                                          else t.hookThrows && t.eventThrows)
  {
    RunIsExclusive(key, steps);
  }

  /** Such a run: a cycle is asked for and its finally block cannot read the phase. */
  lemma PhaseReadLeaks(key: KeyOf, path: string)
    ensures var s := Run(key, [CreateStep(0, path), OnceStep(0, 0), EndBodyStep(0, true)]);
            0 in s.leaked && RuntimeOf(s, 0).busy && s.invocations == map[]
  {
    var a, b, c := CreateStep(0, path), OnceStep(0, 0), EndBodyStep(0, true);
    assert [a, b, c][..2] == [a, b] && [a, b][..1] == [a] && [a][..0] == [];
    assert Run(key, []) == INITIAL;
    assert Run(key, [a]) == Next(key, INITIAL, a);
    assert Run(key, [a, b]) == Next(key, Run(key, [a]), b);
    assert Run(key, [a, b, c]) == Next(key, Run(key, [a, b]), c);
  }

  /** A project whose `busy` was left set is refused for good: no step clears it again. */
  lemma {:induction false} LeakIsForever(key: KeyOf, steps: seq<Step>, more: seq<Step>, p: nat)
    requires p in Run(key, steps).leaked
    ensures var s := Run(key, steps + more);
            p in s.leaked && RuntimeOf(s, p).busy && !Inside(s, p)
    decreases |more|
  {
    if more == [] {
      assert steps + more == steps;
    } else {
      LeakIsForever(key, steps, more[..|more| - 1], p);
      assert (steps + more)[..|steps + more| - 1] == steps + more[..|more| - 1];
      assert (steps + more)[|steps + more| - 1] == more[|more| - 1];
    }
    RunIsExclusive(key, steps + more);
  }

  // Exclusiveness of workspaces.

  /** The projects that count: the running ones, or the busy ones as well. */
  predicate Counts(r: Runtime, withBusy: bool) {
    r.running || (withBusy && r.busy)
  }

  /** Another project that counts has this workspace. */
  ghost predicate Taken(key: KeyOf, s: Service, withBusy: bool, workspace: string, p: nat) {
    workspace != "" &&
    exists q | q in s.runtimes :: q != p && Counts(s.runtimes[q], withBusy) && Key(key, s, q) == workspace
  }

  /** No two projects that count have the same workspace. */
  ghost predicate Apart(key: KeyOf, s: Service, withBusy: bool) {
    forall p | p in s.runtimes && Counts(s.runtimes[p], withBusy) :: !Taken(key, s, withBusy, Key(key, s, p), p)
  }

  /** A change of one project keeps workspaces apart if it does not make the project count in a taken one. */
  lemma ChangeKeepsApart(key: KeyOf, s: Service, t: Service, withBusy: bool, p: nat)
    requires Apart(key, s, withBusy)
    requires forall q | q in t.runtimes && q != p :: q in s.runtimes && t.runtimes[q] == s.runtimes[q] && Key(key, t, q) == Key(key, s, q)
    requires p in t.runtimes && Counts(t.runtimes[p], withBusy) ==>
               || (p in s.runtimes && Counts(s.runtimes[p], withBusy) && Key(key, t, p) == Key(key, s, p))
               || !Taken(key, s, withBusy, Key(key, t, p), p)
    ensures Apart(key, t, withBusy)
  {
  }

  /** An unowned workspace is not taken. */
  lemma OwnedIfTaken(key: KeyOf, s: Service, withBusy: bool, workspace: string, p: nat)
    requires Taken(key, s, withBusy, key(workspace), p)
    ensures Owned(key, s, workspace, p)
  {
  }

  lemma StartKeepsApart(key: KeyOf, s: Service, withBusy: bool, i: nat, p: nat)
    requires Apart(key, s, withBusy)
    ensures Apart(key, Started(key, s, i, p), withBusy)
  {
    if p in s.workspaces && Taken(key, s, withBusy, key(s.workspaces[p]), p) {
      OwnedIfTaken(key, s, withBusy, s.workspaces[p], p);
    }
    ChangeKeepsApart(key, s, Started(key, s, i, p), withBusy, p);
  }

  lemma ExclusiveKeepsApart(key: KeyOf, s: Service, withBusy: bool, i: nat, kind: Kind, p: nat, valid: bool)
    requires Apart(key, s, withBusy)
    ensures Apart(key, EnterExclusive(key, s, i, kind, p, valid), withBusy)
  {
  }

  lemma ConfigureKeepsApart(key: KeyOf, s: Service, withBusy: bool, p: nat, workspace: Option<string>)
    requires Apart(key, s, withBusy)
    ensures Apart(key, Configured(key, s, p, workspace), withBusy)
  {
  }

  /** The one entry that does not ask who has the workspace: runOnce outside a running loop. */
  ghost predicate EntersTaken(key: KeyOf, s: Service, withBusy: bool, t: Step) {
    withBusy && t.OnceStep? && !Counts(RuntimeOf(s, t.p), true) && Taken(key, s, true, Key(key, s, t.p), t.p)
  }

  lemma EntryIntoTaken(key: KeyOf, s: Service, t: Step)
    requires EntersTaken(key, s, true, t) && Enabled(s, t)
    ensures !Apart(key, Next(key, s, t), true)
  {
    var s' := Next(key, s, t);
    var q :| q in s.runtimes && q != t.p && Counts(s.runtimes[q], true) && Key(key, s, q) == Key(key, s, t.p);
    assert s'.runtimes[q] == s.runtimes[q] && Key(key, s', q) == Key(key, s', t.p);
    assert Taken(key, s', true, Key(key, s', t.p), t.p);
  }

  /**
   * A step keeps the projects that count apart exactly unless runOnce enters, outside a running loop, a
   * project whose workspace another running or busy project has. For running projects alone no step does.
   */
  lemma StepKeepsApartExactly(key: KeyOf, s: Service, withBusy: bool, t: Step)
    requires Apart(key, s, withBusy) && Enabled(s, t)
    ensures Apart(key, Next(key, s, t), withBusy) <==> !EntersTaken(key, s, withBusy, t)
  {
    if EntersTaken(key, s, withBusy, t) {
      EntryIntoTaken(key, s, t);
    } else {
      match t
      case StartStep(i, p) => StartKeepsApart(key, s, withBusy, i, p);
      case ExclusiveStep(i, kind, p, valid) => ExclusiveKeepsApart(key, s, withBusy, i, kind, p, valid);
      case ConfigureStep(p, workspace) => ConfigureKeepsApart(key, s, withBusy, p, workspace);
      case EndBodyStep(i, _) => ChangeKeepsApart(key, s, Next(key, s, t), withBusy, s.invocations[i].project);
      case EndHooksStep(i, _, _) => ChangeKeepsApart(key, s, Next(key, s, t), withBusy, s.invocations[i].project);
      case _ => ChangeKeepsApart(key, s, Next(key, s, t), withBusy, t.p);
    }
  }

  /** So busy projects may share one: two projects at one path, a single cycle asked for in each. */
  lemma BusyProjectsMayShare(key: KeyOf, path: string)
    requires key(path) != ""
    ensures var s := Run(key, [CreateStep(0, path), CreateStep(1, path), OnceStep(0, 0), OnceStep(1, 1)]);
            RuntimeOf(s, 0).busy && RuntimeOf(s, 1).busy && Key(key, s, 0) == Key(key, s, 1) != ""
  {
    var a, b, c, d := CreateStep(0, path), CreateStep(1, path), OnceStep(0, 0), OnceStep(1, 1);
    assert [a, b, c, d][..3] == [a, b, c] && [a, b, c][..2] == [a, b] && [a, b][..1] == [a] && [a][..0] == [];
    assert Run(key, []) == INITIAL;
    assert Run(key, [a]) == Next(key, INITIAL, a);
    assert Run(key, [a, b]) == Next(key, Run(key, [a]), b);
    assert Run(key, [a, b, c]) == Next(key, Run(key, [a, b]), c);
  }

  /** Over any run, running projects never share a workspace, not even after one is reconfigured. */
  lemma {:induction false} RunningApart(key: KeyOf, steps: seq<Step>)
    ensures Apart(key, Run(key, steps), false)
  {
    if steps == [] {
    } else {
      var s := Run(key, steps[..|steps| - 1]);
      RunningApart(key, steps[..|steps| - 1]);
      if Enabled(s, steps[|steps| - 1]) {
        StepKeepsApartExactly(key, s, false, steps[|steps| - 1]);
      }
    }
  }

  /** No two distinct running projects of a reachable state have one non-empty workspace key. */
  lemma WorkspaceExclusivity(key: KeyOf, steps: seq<Step>, p: nat, q: nat)
    requires var s := Run(key, steps); RuntimeOf(s, p).running && RuntimeOf(s, q).running
    requires var s := Run(key, steps); Key(key, s, p) == Key(key, s, q) != ""
    ensures p == q
  {
    RunningApart(key, steps);
    var s := Run(key, steps);
    assert Taken(key, s, false, Key(key, s, p), p) || p == q;
  }

  /** The object that owns the flags; each method is the stretch of code up to the next await. */
  class LoopService {
    const key: KeyOf
    var workspaces: map<nat, string>
    var runtimes: map<nat, Runtime>
    ghost var invocations: map<nat, Invocation>
    ghost var leaked: set<nat>

    constructor (key: KeyOf)
      ensures State() == INITIAL && this.key == key
    {
      this.key := key;
      workspaces, runtimes, invocations, leaked := map[], map[], map[], {};
    }

    ghost function State(): Service
      reads this
    {
      Service(workspaces, runtimes, invocations, leaked)
    }

    /** Looks through the runtimes for another active project with this workspace. */
    method ActiveProjectForWorkspace(workspace: string, p: nat) returns (owned: bool)
      ensures owned == Owned(key, State(), workspace, p)
    {
      var wanted := key(workspace);
      owned := false;
      var rest := runtimes.Keys;
      while rest != {} && wanted != "" && !owned
        invariant rest <= runtimes.Keys
        invariant forall q | q in runtimes.Keys - rest ::
                    owned || q == p || !IsActive(runtimes[q]) || Key(key, State(), q) != wanted
        invariant owned ==> Owned(key, State(), workspace, p)
        decreases |rest|, !owned
      {
        var q :| q in rest;
        if q != p && IsActive(runtimes[q]) && q in workspaces && key(workspaces[q]) == wanted {
          owned := true;
        }
        rest := rest - {q};
      }
    }

    /** `start`: refused unless the project has a workspace that no other active project has. */
    method Start(ghost i: nat, p: nat)
      modifies this
      ensures State() == Started(key, old(State()), i, p)
    {
      if p in workspaces && workspaces[p] != "" && (p !in runtimes || !runtimes[p].running) {
        var owned := ActiveProjectForWorkspace(workspaces[p], p);
        if !owned {
          runtimes := runtimes[p := (if p in runtimes then runtimes[p] else IDLE).(running := true)];
          RunOnce(i, p);
        }
      }
    }

    method Stop(p: nat)
      modifies this`runtimes
      ensures State() == Stopped(old(State()), p)
    {
      runtimes := runtimes[p := (if p in runtimes then runtimes[p] else IDLE).(running := false)];
    }

    method Configure(p: nat, workspace: Option<string>)
      modifies this`workspaces
      ensures State() == Configured(key, old(State()), p, workspace)
    {
      var next := "";
      if workspace.Some? {
        next := workspace.value;
      } else if p in workspaces {
        next := workspaces[p];
      }
      var owned := ActiveProjectForWorkspace(next, p);
      if p in runtimes && (runtimes[p].running || runtimes[p].busy) && owned {
        return;
      }
      if p in workspaces {
        workspaces := workspaces[p := next];
      }
    }

    /** `runOnce` up to its first await: nothing but `busy` keeps it out. */
    method RunOnce(ghost i: nat, p: nat)
      modifies this`runtimes, this`invocations
      ensures State() == EnterOnce(old(State()), i, p)
    {
      if p in runtimes && runtimes[p].busy {
        return;
      }
      runtimes := runtimes[p := (if p in runtimes then runtimes[p] else IDLE).(busy := true)];
      invocations := invocations[i := Body(Once, p)];
    }

    /** `runTask` and `runTaskBatches` up to theirs; the outcome tells whether the call throws. */
    method RunExclusive(ghost i: nat, kind: Kind, p: nat, valid: bool) returns (refused: bool)
      modifies this`runtimes, this`invocations
      ensures State() == EnterExclusive(key, old(State()), i, kind, p, valid)
      ensures refused ==> State() == old(State())
    {
      if p in runtimes && runtimes[p].busy {
        return true;
      }
      if p !in workspaces || !valid || workspaces[p] == "" {
        return true;
      }
      var owned := ActiveProjectForWorkspace(workspaces[p], p);
      if owned {
        return true;
      }
      runtimes := runtimes[p := (if p in runtimes then runtimes[p] else IDLE).(busy := true)];
      invocations := invocations[i := Body(kind, p)];
      return false;
    }

    /** The end of a body; the finally block of runOnce goes on to the hooks if the phase can be read. */
    method FinishBody(ghost i: nat, kind: Kind, p: nat, phaseReadThrows: bool)
      requires i in invocations && invocations[i] == Body(kind, p)
      modifies this`runtimes, this`invocations, this`leaked
      ensures State() == EndBody(old(State()), i, phaseReadThrows)
    {
      if kind.Once? && !phaseReadThrows {
        invocations := invocations[i := Hooks(p)];
        return;
      }
      if kind.Once? {
        leaked := leaked + {p};
      } else {
        runtimes := runtimes[p := (if p in runtimes then runtimes[p] else IDLE).(busy := false)];
      }
      invocations := invocations - {i};
    }

    /** The rest of runOnce's finally block after the hooks. */
    method FinishHooks(ghost i: nat, p: nat, hookThrows: bool, eventThrows: bool)
      requires i in invocations && invocations[i] == Hooks(p)
      modifies this`runtimes, this`invocations, this`leaked
      ensures State() == EndHooks(old(State()), i, hookThrows, eventThrows)
    {
      invocations := invocations - {i};
      if hookThrows && eventThrows {
        leaked := leaked + {p};
        return;
      }
      runtimes := runtimes[p := (if p in runtimes then runtimes[p] else IDLE).(busy := false)];
    }
  }
}
