// When a project is running, and when a call gets in: what each step of the loop service does, said in
// terms of the calls of a run and of who else is active.

module LoopEntries {
  import opened JsText
  import opened LoopRuntime

  /** No other project that is running, busy or with a child process has this workspace. */
  ghost predicate NobodyElse(key: KeyOf, s: Service, workspace: string, p: nat) {
    key(workspace) == "" ||
    forall q | q in s.runtimes && q in s.workspaces && q != p ::
      s.runtimes[q].running || s.runtimes[q].busy || s.runtimes[q].child ==> key(s.workspaces[q]) != key(workspace)
  }

  /** The project exists and has a workspace, which it has to itself. */
  ghost predicate MayStart(key: KeyOf, s: Service, p: nat) {
    p in s.workspaces && s.workspaces[p] != "" && NobodyElse(key, s, s.workspaces[p], p)
  }

  lemma OwnedExactly(key: KeyOf, s: Service, workspace: string, p: nat)
    ensures Owned(key, s, workspace, p) <==> !NobodyElse(key, s, workspace, p)
  {
  }

  /** Step number k starts the project, and none after it stops it. */
  ghost predicate RunsSince(key: KeyOf, steps: seq<Step>, k: nat, p: nat) {
    && k < |steps| && Starts(key, Run(key, steps[..k]), steps[k], p)
    && forall m | k < m < |steps| :: steps[m] != StopStep(p)
  }

  ghost predicate Starts(key: KeyOf, s: Service, t: Step, p: nat) {
    t.StartStep? && t.p == p && Enabled(s, t) && MayStart(key, s, p)
  }

  /** What one step does to `running`. */
  lemma StepRunning(key: KeyOf, s: Service, t: Step, p: nat)
    requires Enabled(s, t)
    ensures RuntimeOf(Next(key, s, t), p).running
            <==> Starts(key, s, t, p) || (RuntimeOf(s, p).running && t != StopStep(p))
  {
    if t.StartStep? && p in s.workspaces {
      OwnedExactly(key, s, s.workspaces[p], p);
    }
  }

  lemma SinceEarlier(key: KeyOf, steps: seq<Step>, t: Step, k: nat, p: nat)
    requires k < |steps|
    ensures RunsSince(key, steps + [t], k, p) <==> RunsSince(key, steps, k, p) && t != StopStep(p)
  {
    var more := steps + [t];
    assert more[..k] == steps[..k] && more[k] == steps[k] && more[|steps|] == t;
    assert forall m | k < m < |steps| :: more[m] == steps[m];
  }

  lemma SinceLast(key: KeyOf, steps: seq<Step>, t: Step, p: nat)
    ensures RunsSince(key, steps + [t], |steps|, p) <==> Starts(key, Run(key, steps), t, p)
  {
    assert (steps + [t])[..|steps|] == steps;
  }

  /**
   * A project is running exactly if some call of `start` found it with a workspace that no other active
   * project had, and it has not been stopped since.
   */
  lemma {:induction false} RunningExactly(key: KeyOf, steps: seq<Step>, p: nat)
    ensures RuntimeOf(Run(key, steps), p).running <==> exists k: nat :: RunsSince(key, steps, k, p)
  {
    if steps == [] {
    } else {
      var n := |steps| - 1;
      var front, t := steps[..n], steps[n];
      assert steps == front + [t];
      RunningExactly(key, front, p);
      RunningOneMore(key, front, t, p);
    }
  }

  lemma RunOneMore(key: KeyOf, steps: seq<Step>, t: Step)
    ensures var s := Run(key, steps); Run(key, steps + [t]) == if Enabled(s, t) then Next(key, s, t) else s
  {
    assert (steps + [t])[..|steps|] == steps;
  }

  lemma RunningOneMore(key: KeyOf, steps: seq<Step>, t: Step, p: nat)
    requires RuntimeOf(Run(key, steps), p).running <==> exists k: nat :: RunsSince(key, steps, k, p)
    ensures RuntimeOf(Run(key, steps + [t]), p).running <==> exists k: nat :: RunsSince(key, steps + [t], k, p)
  {
    var s := Run(key, steps);
    RunOneMore(key, steps, t);
    if Enabled(s, t) {
      StepRunning(key, s, t, p);
    }
    SinceLast(key, steps, t, p);
    if k: nat :| RunsSince(key, steps, k, p) {
      SinceEarlier(key, steps, t, k, p);
    }
    if k: nat :| RunsSince(key, steps + [t], k, p) && k != |steps| {
      SinceEarlier(key, steps, t, k, p);
    }
  }

  // Who gets in.

  predicate IsEntry(t: Step) {
    t.StartStep? || t.OnceStep? || t.ExclusiveStep?
  }

  function KindOf(t: Step): Kind
    requires IsEntry(t)
  {
    if t.ExclusiveStep? then t.kind else Once
  }

  /** The checks of an entry before it looks at `busy`. */
  ghost predicate StandsChecks(key: KeyOf, s: Service, t: Step) {
    match t
    case StartStep(_, p) => MayStart(key, s, p) && !RuntimeOf(s, p).running
    case ExclusiveStep(_, _, p, valid) => MayStart(key, s, p) && valid
    case _ => true
  }

  /**
   * A call gets in exactly if its project is not busy and it stands its checks; then it is the one new
   * invocation and the project is busy. A call that does not get in changes nothing, except that a start that
   * stands its checks leaves a busy project running.
   */
  lemma EntersExactly(key: KeyOf, s: Service, t: Step)
    requires IsEntry(t) && Enabled(s, t)
    ensures var s', r := Next(key, s, t), RuntimeOf(s, t.p);
            && (t.i in s'.invocations <==> !r.busy && StandsChecks(key, s, t))
            && (t.i in s'.invocations ==> s'.invocations == s.invocations[t.i := Body(KindOf(t), t.p)] && RuntimeOf(s', t.p).busy)
            && (t.i !in s'.invocations ==>
                  s' == if t.StartStep? && StandsChecks(key, s, t) then SetRuntime(s, t.p, r.(running := true)) else s)
            && s'.workspaces == s.workspaces && s'.leaked == s.leaked
            && (forall q: nat | q != t.p :: RuntimeOf(s', q) == RuntimeOf(s, q))
  {
    if t.p in s.workspaces {
      OwnedExactly(key, s, s.workspaces[t.p], t.p);
    }
  }

  /** So an accepted start leaves the project running and busy. */
  lemma AcceptedStart(key: KeyOf, s: Service, i: nat, p: nat)
    requires Enabled(s, StartStep(i, p)) && MayStart(key, s, p) && !RuntimeOf(s, p).running
    ensures var s' := Next(key, s, StartStep(i, p));
            && RuntimeOf(s', p).running && RuntimeOf(s', p).busy
            && (i in s'.invocations <==> !RuntimeOf(s, p).busy)
  {
    EntersExactly(key, s, StartStep(i, p));
    StepRunning(key, s, StartStep(i, p), p);
  }

  /** The end of a body lets go of the project, except that runOnce goes on to its hooks; their end lets go always. */
  lemma EndsExactly(key: KeyOf, s: Service, t: Step)
    requires Enabled(s, t) && (t.EndBodyStep? || t.EndHooksStep?)
    ensures var s', v := Next(key, s, t), s.invocations[t.i];
            && (t.i in s'.invocations <==> t.EndBodyStep? && v.kind.Once? && !t.phaseReadThrows)
            && (t.i in s'.invocations ==> s' == s.(invocations := s.invocations[t.i := Hooks(v.project)]))
            && (t.i !in s'.invocations ==> s'.invocations == s.invocations - {t.i})
            && s'.workspaces == s.workspaces
            && (forall q: nat | q != v.project :: RuntimeOf(s', q) == RuntimeOf(s, q))
  {
  }

  /**
   * A project gets the workspace asked for exactly if it exists and is not at work, or goes to or stays in one that
   * no other active project has; asking for none changes nothing.
   */
  lemma ConfiguredExactly(key: KeyOf, s: Service, p: nat, workspace: Option<string>)
    ensures var s', r := Next(key, s, ConfigureStep(p, workspace)), RuntimeOf(s, p);
            s' == if workspace.Some? && p in s.workspaces
                     && ((!r.running && !r.busy) || NobodyElse(key, s, workspace.value, p))
                  then s.(workspaces := s.workspaces[p := workspace.value]) else s
  {
    if workspace.Some? {
      OwnedExactly(key, s, workspace.value, p);
    } else if p in s.workspaces {
      assert s.workspaces[p := s.workspaces[p]] == s.workspaces;
    }
  }

  // Two runs.

  /** A created project, alone or as the second, with nothing done yet. */
  lemma Created(key: KeyOf, steps: seq<Step>, p: nat, a: string)
    requires var s := Run(key, steps); p !in s.workspaces && p !in s.runtimes
    ensures var s := Run(key, steps); Run(key, steps + [CreateStep(p, a)]) == s.(workspaces := s.workspaces[p := a])
  {
    RunOneMore(key, steps, CreateStep(p, a));
  }

  /** A start by a fresh invocation in a workspace of its own. */
  lemma Begun(key: KeyOf, steps: seq<Step>, i: nat, p: nat)
    requires var s := Run(key, steps); i !in s.invocations && MayStart(key, s, p) && RuntimeOf(s, p) == IDLE
    ensures var s, s' := Run(key, steps), Run(key, steps + [StartStep(i, p)]);
            && RuntimeOf(s', p).running && RuntimeOf(s', p).busy && i in s'.invocations
            && s'.workspaces == s.workspaces && s'.invocations == s.invocations[i := Body(Once, p)]
            && forall q: nat | q != p :: RuntimeOf(s', q) == RuntimeOf(s, q)
  {
    var s, t := Run(key, steps), StartStep(i, p);
    RunOneMore(key, steps, t);
    AcceptedStart(key, s, i, p);
    EntersExactly(key, s, t);
  }

  function TwoStarts(a: string, b: string): seq<Step> {
    [CreateStep(0, a)] + [CreateStep(1, b)] + [StartStep(0, 0)] + [StartStep(1, 1)]
  }

  /** Two projects run side by side in different workspaces. */
  lemma TwoMayRun(key: KeyOf, a: string, b: string)
    requires a != "" && b != "" && key(a) != key(b)
    ensures var s := Run(key, TwoStarts(a, b));
            RuntimeOf(s, 0).running && RuntimeOf(s, 1).running && Key(key, s, 0) == key(a) && Key(key, s, 1) == key(b)
  {
    Created(key, [], 0, a);
    assert [] + [CreateStep(0, a)] == [CreateStep(0, a)];
    var one := [CreateStep(0, a)];
    Created(key, one, 1, b);
    var two := one + [CreateStep(1, b)];
    Begun(key, two, 0, 0);
    Begun(key, two + [StartStep(0, 0)], 1, 1);
  }

  /** A project that is started and stopped: it runs in between, and its cycle is still inside afterwards. */
  lemma StartedAndStopped(key: KeyOf, a: string)
    requires a != ""
    ensures var started := [CreateStep(0, a)] + [StartStep(0, 0)];
            var s := Run(key, started + [StopStep(0)]);
            && RuntimeOf(Run(key, started), 0).running
            && !RuntimeOf(s, 0).running && RuntimeOf(s, 0).busy && 0 in s.invocations
  {
    Created(key, [], 0, a);
    assert [] + [CreateStep(0, a)] == [CreateStep(0, a)];
    var one := [CreateStep(0, a)];
    Begun(key, one, 0, 0);
    RunOneMore(key, one + [StartStep(0, 0)], StopStep(0));
  }
}
