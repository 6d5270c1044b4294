// Accounting of the time that plan tasks spend running. Times are in milliseconds.

module TaskTime {
  import opened JsText

  datatype Status = Pending | Running | Completed | Blocked | Failed

  /** The columns of a plan_tasks row that the accounting uses. */
  datatype Task = Task(status: Status, startedAt: Option<nat>, finishedAt: Option<nat>, durationMs: int)

  datatype Event =
    | Start(at: nat)
    | Finish(status: Status, at: nat, onlyIfRunning: bool)
    | Fail(at: nat)  // recordTaskFailure
    | Write(writer: Writer, at: nat)  // a writer that sets nothing but the status

  /**
   * Those that set nothing but the status: a plan that is interrupted, resumed (after a failed validation, its
   * failed tasks too) or executed again, a task that is redone, the reset when the program starts, and the plan
   * file, in which the box of the task is checked or not.
   */
  datatype Writer = Interrupt | Resume(failedToo: bool) | Rerun | Redo | Reset | Sync(checked: bool)

  function Written(w: Writer, status: Status): Status {
    match w
    case Interrupt => if status.Pending? || status.Running? then Blocked else status
    case Resume(failedToo) => if status.Blocked? || (failedToo && status.Failed?) then Pending else status
    case Rerun => if status.Completed? then Pending else status
    case Redo => Pending
    case Reset => if status.Running? then Pending else status
    case Sync(checked) =>
      if checked || status.Completed? then Completed
      else if status.Running? || status.Blocked? then status
      else Pending
  }

  function NormalizeDurationMs(ms: int): nat {
    if ms <= 0 then 0 else ms
  }

  function TaskRunDurationMs(startedAt: Option<nat>, finishedAt: nat): nat {
    if startedAt.None? || finishedAt <= startedAt.value then 0 else finishedAt - startedAt.value
  }

  function Started(t: Task, at: nat): Task {
    t.(status := Running,
       startedAt := if t.status.Running? && t.startedAt.Some? then t.startedAt else Some(at),
       finishedAt := None)
  }

  function Finished(t: Task, status: Status, at: nat, onlyIfRunning: bool): Task {
    if onlyIfRunning && !t.status.Running? then t
    else
      var run := if t.status.Running? then TaskRunDurationMs(t.startedAt, at) else 0;
      t.(status := status, durationMs := NormalizeDurationMs(t.durationMs) + run, finishedAt := Some(at))
  }

  function Apply(t: Task, e: Event): Task {
    match e
    case Start(at) => Started(t, at)
    case Finish(status, at, onlyIfRunning) => Finished(t, status, at, onlyIfRunning)
    case Fail(at) => if t.status.Running? then Finished(t, Pending, at, true) else t
    case Write(writer, _) => t.(status := Written(writer, t.status))
  }

  function ApplyAll(t: Task, es: seq<Event>): Task
    decreases |es|
  {
    if es == [] then t else ApplyAll(Apply(t, es[0]), es[1..])
  }

  // The reference: time passes between events, and counts while the status is running.

  function Elapsed(t: Task, since: nat, until: nat): nat
    requires since <= until
  {
    if t.status.Running? then until - since else 0
  }

  ghost predicate Ordered(now: nat, es: seq<Event>, until: nat)
    decreases |es|
  {
    if es == [] then now <= until else now <= es[0].at && Ordered(es[0].at, es[1..], until)
  }

  /** The total time in running status from `now` to `until`, with the events happening in between. */
  ghost function TimeRunning(t: Task, now: nat, es: seq<Event>, until: nat): nat
    requires Ordered(now, es, until)
    decreases |es|
  {
    if es == [] then Elapsed(t, now, until)
    else Elapsed(t, now, es[0].at) + TimeRunning(Apply(t, es[0]), es[0].at, es[1..], until)
  }

  /** What the row accounts for at a time: the stored duration and the interval still open. */
  ghost function Credit(t: Task, at: nat): nat {
    NormalizeDurationMs(t.durationMs) + if t.status.Running? then TaskRunDurationMs(t.startedAt, at) else 0
  }

  /** A running task knows when it was started. */
  ghost predicate Consistent(t: Task, now: nat) {
    t.status.Running? ==> t.startedAt.Some? && t.startedAt.value <= now
  }

  /** No caller finishes a task into running. */
  ghost predicate Finishes(e: Event) {
    e.Finish? ==> !e.status.Running?
  }

  /** The event takes a running task out of running and drops the interval since it was started. */
  predicate Loses(t: Task, e: Event) {
    && e.Write? && t.status.Running? && !Written(e.writer, t.status).Running?
    && t.startedAt.Some? && t.startedAt.value < e.at
  }

  function Lost(t: Task, e: Event): nat {
    if Loses(t, e) then e.at - t.startedAt.value else 0
  }

  function TotalLost(t: Task, es: seq<Event>): nat
    decreases |es|
  {
    if es == [] then 0 else Lost(t, es[0]) + TotalLost(Apply(t, es[0]), es[1..])
  }

  /** An event changes the account at its time exactly by what it drops. */
  lemma EventKeepsCredit(t: Task, e: Event)
    requires Consistent(t, e.at) && Finishes(e)
    ensures Consistent(Apply(t, e), e.at) && Credit(Apply(t, e), e.at) + Lost(t, e) == Credit(t, e.at)
  {
  }

  /**
   * Conservation: over any events in time order, what is accounted for, the stored duration and the open
   * interval, grows by exactly the time spent running, less the intervals that status writes have dropped.
   * So restarts lose nothing and racing finishes count nothing twice.
   */
  lemma {:induction false} Conservation(t: Task, now: nat, es: seq<Event>, until: nat)
    requires Ordered(now, es, until) && Consistent(t, now)
    requires forall e | e in es :: Finishes(e)
    ensures Credit(ApplyAll(t, es), until) + TotalLost(t, es) == Credit(t, now) + TimeRunning(t, now, es, until)
    decreases |es|
  {
    if es == [] {
    } else {
      EventKeepsCredit(t, es[0]);
      Conservation(Apply(t, es[0]), es[0].at, es[1..], until);
    }
  }

  /** The event number i loses time. */
  predicate LosesAt(t: Task, es: seq<Event>, i: nat)
    requires i < |es|
  {
    Loses(ApplyAll(t, es[..i]), es[i])
  }

  lemma LosesLater(t: Task, es: seq<Event>, i: nat)
    requires 0 < i < |es|
    ensures LosesAt(t, es, i) == LosesAt(Apply(t, es[0]), es[1..], i - 1)
  {
    assert es[..i][1..] == es[1..][..i - 1];
  }

  lemma {:induction false} NothingLostExactly(t: Task, es: seq<Event>)
    ensures TotalLost(t, es) == 0 <==> forall i: nat | i < |es| :: !LosesAt(t, es, i)
    decreases |es|
  {
    if es == [] {
    } else {
      var rest := Apply(t, es[0]);
      NothingLostExactly(rest, es[1..]);
      assert LosesAt(t, es, 0) == Loses(t, es[0]);
      forall i: nat | i < |es| ensures LosesAt(t, es, i) == if i == 0 then Loses(t, es[0]) else LosesAt(rest, es[1..], i - 1) {
        if i > 0 {
          LosesLater(t, es, i);
        }
      }
      if TotalLost(rest, es[1..]) != 0 {
        var k: nat :| k < |es| - 1 && LosesAt(rest, es[1..], k);
        assert LosesAt(t, es, k + 1);
      }
    }
  }

  /** The account is exactly the time spent running if and only if no event drops an interval. */
  lemma ConservedExactly(t: Task, now: nat, es: seq<Event>, until: nat)
    requires Ordered(now, es, until) && Consistent(t, now)
    requires forall e | e in es :: Finishes(e)
    ensures Credit(ApplyAll(t, es), until) == Credit(t, now) + TimeRunning(t, now, es, until)
            <==> forall i: nat | i < |es| :: !LosesAt(t, es, i)
  {
    Conservation(t, now, es, until);
    NothingLostExactly(t, es);
  }

  /**
   * The writers that end a run: interrupting, redoing, resetting, and a checked box. An interruption that has
   * finished the task first, as it does for one with an operation, loses nothing; none makes a task running.
   */
  lemma EndsRunExactly(w: Writer, t: Task, at: nat)
    ensures t.status.Running? ==> (!Written(w, t.status).Running? <==> w.Interrupt? || w.Redo? || w.Reset? || w == Sync(true))
    ensures !t.status.Running? ==> !Written(w, t.status).Running?
    ensures !Loses(Apply(t, Finish(Blocked, at, true)), Write(Interrupt, at))
  {
  }

  /** Who can leave a task in which status: of the writers only resuming, redoing and a plan file make one pending again. */
  lemma WritersExactly(w: Writer, status: Status)
    ensures var r := Written(w, status);
            && (r.Running? <==> status.Running? && (w.Resume? || w.Rerun? || w == Sync(false)))
            && (r.Blocked? <==> (w.Interrupt? && (status.Pending? || status.Running? || status.Blocked?))
                                || (status.Blocked? && (w.Rerun? || w.Reset? || w == Sync(false))))
            && (r.Completed? <==> w == Sync(true) || (status.Completed? && !w.Rerun? && !w.Redo?))
            && (r.Failed? <==> status.Failed? && !w.Redo? && !w.Sync? && w != Resume(true))
  {
  }

  /** A plan that is interrupted and resumed has no task running or blocked; what was completed or failed stays. */
  lemma InterruptIsUndone(status: Status)
    ensures Written(Resume(false), Written(Interrupt, status))
            == if status.Completed? || status.Failed? then status else Pending
  {
  }

  /**
   * One run of a task: begun at one time and finished or failed at a later one, it adds the time between to the
   * account, keeps both times, and ends in the status that it was finished with; a failed one ends pending.
   */
  lemma OneRunExactly(t: Task, begun: nat, ended: nat, status: Status, ifRunning: bool)
    requires begun <= ended && !t.status.Running? && t.durationMs >= 0
    ensures var running := Apply(t, Start(begun));
            && running == Task(Running, Some(begun), None, t.durationMs)
            && Apply(running, Finish(status, ended, ifRunning))
               == Task(status, Some(begun), Some(ended), t.durationMs + (ended - begun))
            && Apply(running, Fail(ended)) == Task(Pending, Some(begun), Some(ended), t.durationMs + (ended - begun))
  {
  }

  /** A start in the middle of a run does not begin it anew, and a second end of a run counts nothing. */
  lemma OneRunCountsOnce(t: Task, begun: nat, again: nat, ended: nat, later: nat, status: Status, other: Status)
    requires begun <= again <= ended && !t.status.Running? && t.durationMs >= 0 && !status.Running?
    ensures var done := Apply(Apply(Apply(t, Start(begun)), Start(again)), Finish(status, ended, true));
            && done == Task(status, Some(begun), Some(ended), t.durationMs + (ended - begun))
            && Apply(done, Finish(other, later, true)) == done && Apply(done, Fail(later)) == done
            && Apply(done, Finish(other, later, false)) == Task(other, Some(begun), Some(later), done.durationMs)
  {
  }

  /** The end, the order and the time of three events. */
  lemma ThreeEvents(t: Task, a: Event, b: Event, c: Event)
    requires a.at <= b.at <= c.at
    ensures var es, u, v := [a, b, c], Apply(t, a), Apply(Apply(t, a), b);
            && ApplyAll(t, es) == Apply(v, c) && Ordered(a.at, es, c.at)
            && TimeRunning(t, a.at, es, c.at) == Elapsed(u, a.at, b.at) + Elapsed(v, b.at, c.at)
  {
    var es, u, v := [a, b, c], Apply(t, a), Apply(Apply(t, a), b);
    assert es[1..] == [b, c] && [b, c][1..] == [c] && [c][1..] == [];
    assert Ordered(c.at, [c][1..], c.at);
    assert [c][0] == c && Ordered(b.at, [c], c.at);
    assert [b, c][0] == b && Ordered(b.at, [b, c], c.at);
    assert ApplyAll(v, [c]) == ApplyAll(Apply(v, c), [c][1..]) == Apply(v, c);
    assert ApplyAll(u, [b, c]) == ApplyAll(v, [b, c][1..]) == Apply(v, c);
    assert TimeRunning(v, b.at, [c], c.at) == Elapsed(v, b.at, c.at);
    assert TimeRunning(u, a.at, [b, c], c.at) == Elapsed(u, a.at, b.at) + Elapsed(v, b.at, c.at);
  }

  /** A task whose box is checked in its plan file before it is finished: the whole run is lost. */
  lemma CheckedBoxLosesRun(begun: nat, synced: nat, ended: nat)
    requires begun < synced <= ended
    ensures var t, es := Task(Pending, None, None, 0), [Start(begun), Write(Sync(true), synced), Finish(Completed, ended, false)];
            && Ordered(begun, es, ended) && TimeRunning(t, begun, es, ended) == synced - begun
            && ApplyAll(t, es) == Task(Completed, Some(begun), Some(ended), 0)
  {
    var t := Task(Pending, None, None, 0);
    ThreeEvents(t, Start(begun), Write(Sync(true), synced), Finish(Completed, ended, false));
  }

  /**
   * Why finishing into running is excluded: it keeps the account exactly when the call does nothing, or no
   * time has passed since the last start. On a running task the interval would be stored and stay open, on
   * another one an interval that was stored, or never ran, would be opened again.
   */
  lemma FinishIntoRunning(t: Task, at: nat, onlyIfRunning: bool)
    ensures Credit(Apply(t, Finish(Running, at, onlyIfRunning)), at) == Credit(t, at)
            <==> (onlyIfRunning && !t.status.Running?) || t.startedAt.None? || t.startedAt.value >= at
  {
  }

  class PlanTasks {
    var rows: map<nat, Task>

    constructor (rows: map<nat, Task>)
      ensures this.rows == rows
    {
      this.rows := rows;
    }

    method StartTaskRun(taskId: nat, startedAt: nat) returns (task: Option<Task>)
      modifies this
      ensures taskId in old(rows) ==>
                rows == old(rows)[taskId := Apply(old(rows)[taskId], Start(startedAt))] && task == Some(rows[taskId])
      ensures taskId !in old(rows) ==> rows == old(rows) && task.None?
    {
      if taskId !in rows {
        return None;
      }
      var t := rows[taskId];
      var start := if t.status == Running && t.startedAt.Some? then t.startedAt else Some(startedAt);
      rows := rows[taskId := t.(status := Running, startedAt := start, finishedAt := None)];
      return Some(rows[taskId]);
    }

    method FinishTaskRun(taskId: nat, status: Status, finishedAt: nat, onlyIfRunning: bool)
      returns (task: Option<Task>, runDurationMs: Option<nat>)
      modifies this
      ensures taskId in old(rows) ==>
                && rows == old(rows)[taskId := Apply(old(rows)[taskId], Finish(status, finishedAt, onlyIfRunning))]
                && task == Some(rows[taskId])
                && (runDurationMs.Some? <==> old(rows)[taskId].status.Running?)
                && (runDurationMs.Some? ==> rows[taskId].durationMs
                                            == NormalizeDurationMs(old(rows)[taskId].durationMs) + runDurationMs.value)
      ensures taskId !in old(rows) ==> rows == old(rows) && task.None?
    {
      if taskId !in rows {
        return None, None;
      }
      var t := rows[taskId];
      var isRunning := t.status == Running;
      if onlyIfRunning && !isRunning {
        assert rows == rows[taskId := t];
        return Some(t), None;
      }
      runDurationMs := if isRunning then Some(TaskRunDurationMs(t.startedAt, finishedAt)) else None;
      var duration := NormalizeDurationMs(t.durationMs) + if runDurationMs.Some? then runDurationMs.value else 0;
      rows := rows[taskId := t.(status := status, durationMs := duration, finishedAt := Some(finishedAt))];
      task := Some(rows[taskId]);
    }

    /** The status writes, each of them to the rows it selects; no other column of the account changes. */
    method WriteStatuses(selected: set<nat>, writer: Writer, updatedAt: nat)
      modifies this
      ensures rows.Keys == old(rows).Keys
      ensures forall id | id in rows ::
                rows[id] == if id in selected then Apply(old(rows)[id], Write(writer, updatedAt)) else old(rows)[id]
    {
      rows := map id | id in rows :: if id in selected then rows[id].(status := Written(writer, rows[id].status)) else rows[id];
    }

    /** `given` is the caller's copy of the row, used when the row has been deleted. */
    method RecordTaskFailure(taskId: nat, given: Task, finishedAt: nat) returns (task: Option<Task>)
      modifies this
      ensures taskId in old(rows) ==>
                && rows == old(rows)[taskId := Apply(old(rows)[taskId], Fail(finishedAt))]
                && task == (if old(rows)[taskId].status.Running? then Some(rows[taskId]) else None)
      ensures taskId !in old(rows) ==> rows == old(rows) && task == if given.status.Running? then Some(given) else None
    {
      var current := if taskId in rows then rows[taskId] else given;
      if current.status != Running {
        assert taskId in rows ==> rows == rows[taskId := rows[taskId]];
        return None;
      }
      var duration;
      task, duration := FinishTaskRun(taskId, Pending, finishedAt, true);
      if task.None? {
        task := Some(current);
      }
    }
  }
}
