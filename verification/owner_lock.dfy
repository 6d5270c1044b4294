// The single-owner lock of a database: an exclusively bound port guards a metadata file that names the
// owner. Any number of processes acquire, fail, release and crash, one file system or network call at
// a time in any order.

module OwnerLock {
  import opened JsText

  /** What the metadata path holds; a record is known by the random digest of its owner. */
  datatype Meta = Absent | Record(owner: nat) | Unreadable | NotAFile

  /** Where a process stands in acquireDatabaseOwner and releaseDatabaseOwner. */
  datatype Phase =
    | Idle
    | Listening  // the port is bound, the metadata not looked at
    | Clearing   // a regular file is there and will be unlinked
    | Writing    // nothing is there, the record will be written with flag wx
    | Aborting   // something failed, the port will be closed
    | Holding
    | Reading    // released is set, the metadata will be read
    | Unlinking  // the record read is the own one
    | Closing    // the port will be closed
    | Finished   // released, or refused
    | Dead

  datatype WriteOutcome = Written | NotCreated | Partial

  datatype Action =
    | Listen
    | Inspect(ok: bool)
    | Clear(ok: bool)
    | Write(outcome: WriteOutcome)
    | Abort
    | Release
    | Read(ok: bool)
    | Unlink(ok: bool)
    | Close
    | Crash

  datatype Lock = Lock(port: Option<nat>, meta: Meta, phases: map<nat, Phase>) {
    function Phase(p: nat): Phase {
      if p in phases then phases[p] else Idle
    }

    function To(p: nat, ph: Phase): Lock {
      this.(phases := phases[p := ph])
    }
  }

  predicate HasPort(ph: Phase) {
    ph in {Listening, Clearing, Writing, Aborting, Holding, Reading, Unlinking, Closing}
  }

  predicate Enabled(s: Lock, p: nat, a: Action) {
    var ph := s.Phase(p);
    match a
    case Listen => ph == Idle
    case Inspect(_) => ph == Listening
    case Clear(_) => ph == Clearing
    case Write(_) => ph == Writing
    case Abort => ph == Aborting
    case Release => ph in {Holding, Reading, Unlinking, Closing, Finished}
    case Read(_) => ph == Reading
    case Unlink(_) => ph == Unlinking
    case Close => ph == Closing
    case Crash => ph != Dead
  }

  /** One call of process p. */
  function Step(s: Lock, p: nat, a: Action): Lock
    requires Enabled(s, p, a)
  {
    match a
    case Listen => if s.port.None? then s.(port := Some(p)).To(p, Listening) else s.To(p, Finished)
    case Inspect(ok) =>
      if !ok || s.meta == NotAFile then s.To(p, Aborting)
      else s.To(p, if s.meta == Absent then Writing else Clearing)
    case Clear(ok) => if ok then s.(meta := Absent).To(p, Writing) else s.To(p, Aborting)
    case Write(outcome) =>
      if s.meta != Absent || outcome == NotCreated then s.To(p, Aborting)
      else if outcome == Partial then s.(meta := Unreadable).To(p, Aborting)
      else s.(meta := Record(p)).To(p, Holding)
    case Abort => s.(port := None).To(p, Finished)
    case Release => if s.Phase(p) == Holding then s.To(p, Reading) else s
    case Read(ok) => s.To(p, if ok && s.meta == Record(p) then Unlinking else Closing)
    case Unlink(ok) => (if ok then s.(meta := Absent) else s).To(p, Closing)
    case Close => s.(port := None).To(p, Finished)
    case Crash => (if HasPort(s.Phase(p)) then s.(port := None) else s).To(p, Dead)
  }

  /** A run from any leftover metadata; calls out of turn do not happen. */
  function Run(meta: Meta, calls: seq<(nat, Action)>): Lock {
    if calls == [] then Lock(None, meta, map[])
    else
      var s := Run(meta, calls[..|calls| - 1]);
      var (p, a) := calls[|calls| - 1];
      if Enabled(s, p, a) then Step(s, p, a) else s
  }

  ghost predicate Inv(s: Lock) {
    && (forall q: nat :: s.port == Some(q) <==> HasPort(s.Phase(q)))
    && (forall q: nat :: s.Phase(q) in {Holding, Reading, Unlinking} ==> s.meta == Record(q))
    && (forall q: nat :: s.Phase(q) == Writing ==> s.meta == Absent)
  }

  lemma StepKeepsInv(s: Lock, p: nat, a: Action)
    requires Inv(s) && Enabled(s, p, a)
    ensures Inv(Step(s, p, a))
  {
  }

  lemma {:induction false} RunInv(meta: Meta, calls: seq<(nat, Action)>)
    ensures Inv(Run(meta, calls))
  {
    if calls == [] {
    } else {
      RunInv(meta, calls[..|calls| - 1]);
      var s := Run(meta, calls[..|calls| - 1]);
      var (p, a) := calls[|calls| - 1];
      if Enabled(s, p, a) {
        StepKeepsInv(s, p, a);
      }
    }
  }

  /** At most one process holds the database, and a holder finds its own record in the metadata file. */
  lemma AtMostOneHolder(meta: Meta, calls: seq<(nat, Action)>, p: nat, q: nat)
    requires Run(meta, calls).Phase(p) == Holding
    ensures Run(meta, calls).meta == Record(p)
    ensures HasPort(Run(meta, calls).Phase(q)) ==> p == q
  {
    RunInv(meta, calls);
    var s := Run(meta, calls);
    assert s.port == Some(p);
  }

  /** No call of another process touches the record of a holder. */
  lemma HolderIsUndisturbed(meta: Meta, calls: seq<(nat, Action)>, holder: nat, p: nat, a: Action)
    requires var s := Run(meta, calls); s.Phase(holder) == Holding && Enabled(s, p, a) && p != holder
    ensures var t := Step(Run(meta, calls), p, a); t.meta == Record(holder) && t.port == Some(holder)
  {
    RunInv(meta, calls);
    var s := Run(meta, calls);
    assert s.port == Some(holder) && s.port != Some(p);
  }

  /** Releasing, however often, deletes nothing but the record of the process that releases. */
  lemma ReleaseDeletesOnlyItsOwn(meta: Meta, calls: seq<(nat, Action)>, p: nat, a: Action)
    requires var s := Run(meta, calls); Enabled(s, p, a) && s.Phase(p) in {Holding, Reading, Unlinking, Closing, Finished}
    ensures var s := Run(meta, calls);
            Step(s, p, a).meta != s.meta ==> s.meta == Record(p) && s.port == Some(p)
  {
    RunInv(meta, calls);
    var s := Run(meta, calls);
    assert s.port == Some(p) <==> HasPort(s.Phase(p));
  }

  /** The calls by which an unhindered process takes the lock. */
  function Taking(meta: Meta, p: nat): seq<(nat, Action)> {
    [(p, Listen), (p, Inspect(true))] + (if meta == Absent then [] else [(p, Clear(true))]) + [(p, Write(Written))]
  }

  lemma LooksAtMetadata(meta: Meta, calls: seq<(nat, Action)>, p: nat)
    requires var s := Run(meta, calls); s.port.None? && s.Phase(p) == Idle && s.meta != NotAFile
    ensures var s, t := Run(meta, calls), Run(meta, calls + [(p, Listen)] + [(p, Inspect(true))]);
            t.meta == s.meta && t.Phase(p) == if s.meta == Absent then Writing else Clearing
  {
    RunSnoc(meta, calls, (p, Listen));
    RunSnoc(meta, calls + [(p, Listen)], (p, Inspect(true)));
  }

  /**
   * Whatever a crash left behind, a free port suffices: unless the metadata path is no regular file, a
   * new process that is not hindered becomes the holder.
   */
  lemma CrashedLockCanBeTaken(meta: Meta, calls: seq<(nat, Action)>, p: nat)
    requires var s := Run(meta, calls); s.port.None? && s.Phase(p) == Idle && s.meta != NotAFile
    ensures Run(meta, calls + Taking(Run(meta, calls).meta, p)).Phase(p) == Holding
  {
    var s := Run(meta, calls);
    var looked := calls + [(p, Listen)] + [(p, Inspect(true))];
    LooksAtMetadata(meta, calls, p);
    if s.meta == Absent {
      RunSnoc(meta, looked, (p, Write(Written)));
      assert looked + [(p, Write(Written))] == calls + Taking(s.meta, p);
    } else {
      RunSnoc(meta, looked, (p, Clear(true)));
      RunSnoc(meta, looked + [(p, Clear(true))], (p, Write(Written)));
      assert looked + [(p, Clear(true))] + [(p, Write(Written))] == calls + Taking(s.meta, p);
    }
  }

  lemma RunSnoc(meta: Meta, calls: seq<(nat, Action)>, c: (nat, Action))
    ensures var s := Run(meta, calls);
            Run(meta, calls + [c]) == if Enabled(s, c.0, c.1) then Step(s, c.0, c.1) else s
  {
    assert (calls + [c])[..|calls|] == calls;
  }

  // Letting go.

  /** The calls by which an unhindered holder lets go. */
  function Releasing(p: nat): seq<(nat, Action)> {
    [(p, Release)] + [(p, Read(true))] + [(p, Unlink(true))] + [(p, Close)]
  }

  /** After an unhindered release there is no metadata, the port is free, and nobody holds the database. */
  lemma ReleaseIsClean(meta: Meta, calls: seq<(nat, Action)>, p: nat)
    requires Run(meta, calls).Phase(p) == Holding
    ensures var t := Run(meta, calls + Releasing(p));
            t.meta == Absent && t.port.None? && t.Phase(p) == Finished && forall q: nat :: !HasPort(t.Phase(q))
  {
    RunInv(meta, calls);
    var one := calls + [(p, Release)];
    var two := one + [(p, Read(true))];
    var three := two + [(p, Unlink(true))];
    RunSnoc(meta, calls, (p, Release));
    RunSnoc(meta, one, (p, Read(true)));
    RunSnoc(meta, two, (p, Unlink(true)));
    RunSnoc(meta, three, (p, Close));
    assert calls + Releasing(p) == three + [(p, Close)];
    RunInv(meta, calls + Releasing(p));
  }

  /** Where the record cannot be read, it stays, but the port is free: a release always lets go. */
  lemma UnreadReleaseLetsGo(meta: Meta, calls: seq<(nat, Action)>, p: nat)
    requires Run(meta, calls).Phase(p) == Holding
    ensures var t := Run(meta, calls + [(p, Release)] + [(p, Read(false))] + [(p, Close)]);
            t.meta == Record(p) && t.port.None? && t.Phase(p) == Finished
  {
    RunInv(meta, calls);
    var one := calls + [(p, Release)];
    RunSnoc(meta, calls, (p, Release));
    RunSnoc(meta, one, (p, Read(false)));
    RunSnoc(meta, one + [(p, Read(false))], (p, Close));
  }

  /** The same where it cannot be deleted. */
  lemma UndeletedReleaseLetsGo(meta: Meta, calls: seq<(nat, Action)>, p: nat)
    requires Run(meta, calls).Phase(p) == Holding
    ensures var t := Run(meta, calls + [(p, Release)] + [(p, Read(true))] + [(p, Unlink(false))] + [(p, Close)]);
            t.meta == Record(p) && t.port.None? && t.Phase(p) == Finished
  {
    RunInv(meta, calls);
    var one := calls + [(p, Release)];
    var two := one + [(p, Read(true))];
    RunSnoc(meta, calls, (p, Release));
    RunSnoc(meta, one, (p, Read(true)));
    RunSnoc(meta, two, (p, Unlink(false)));
    RunSnoc(meta, two + [(p, Unlink(false))], (p, Close));
  }

  /** A release that is asked for again, while it goes on or afterwards, does nothing more. */
  lemma SecondReleaseDoesNothing(meta: Meta, calls: seq<(nat, Action)>, p: nat)
    requires Run(meta, calls).Phase(p) == Holding
    ensures var released := calls + Releasing(p);
            && Run(meta, released + [(p, Release)]) == Run(meta, released)
            && Run(meta, calls + [(p, Release)] + [(p, Release)]) == Run(meta, calls + [(p, Release)])
  {
    ReleaseIsClean(meta, calls, p);
    RunSnoc(meta, calls + Releasing(p), (p, Release));
    RunSnoc(meta, calls, (p, Release));
    RunSnoc(meta, calls + [(p, Release)], (p, Release));
  }

  /** A crash in any phase frees the port that the process had, and leaves the metadata as it is. */
  lemma CrashFreesPort(meta: Meta, calls: seq<(nat, Action)>, p: nat)
    requires Run(meta, calls).Phase(p) != Dead
    ensures var s, t := Run(meta, calls), Run(meta, calls + [(p, Crash)]);
            && t.meta == s.meta && t.Phase(p) == Dead && t.port != Some(p)
            && (s.port != Some(p) ==> t.port == s.port)
            && (forall a: Action :: !Enabled(t, p, a))
  {
    RunInv(meta, calls);
    RunSnoc(meta, calls, (p, Crash));
  }

  /** So whoever crashes while it holds the database, another process takes it, if it is not hindered. */
  lemma CrashedHolderIsReplaced(meta: Meta, calls: seq<(nat, Action)>, p: nat, q: nat)
    requires Run(meta, calls).Phase(p) == Holding && Run(meta, calls).Phase(q) == Idle
    ensures Run(meta, calls + [(p, Crash)] + Taking(Record(p), q)).Phase(q) == Holding
  {
    RunInv(meta, calls);
    CrashFreesPort(meta, calls, p);
    RunSnoc(meta, calls, (p, Crash));
    CrashedLockCanBeTaken(meta, calls + [(p, Crash)], q);
  }

  // Who becomes the holder, and who does not.

  /** A process becomes the holder exactly by writing its record where there is none. */
  lemma HolderExactly(s: Lock, p: nat, a: Action)
    requires Enabled(s, p, a)
    ensures Step(s, p, a).Phase(p) == Holding <==> s.Phase(p) == Writing && a == Write(Written) && s.meta == Absent
  {
  }

  /** While one process holds the database, any other that asks for it is refused, and nothing else changes. */
  lemma HolderKeepsOthersOut(meta: Meta, calls: seq<(nat, Action)>, holder: nat, p: nat)
    requires var s := Run(meta, calls); s.Phase(holder) == Holding && s.Phase(p) == Idle
    ensures var s := Run(meta, calls);
            Run(meta, calls + [(p, Listen)]) == s.(phases := s.phases[p := Finished])
  {
    RunInv(meta, calls);
    assert Run(meta, calls).port == Some(holder);
    RunSnoc(meta, calls, (p, Listen));
  }

  /** The calls up to the one that hinders: the look at the metadata, or one after it. */
  function FailingCalls(p: nat, failure: Action): seq<(nat, Action)> {
    if failure.Inspect? then [(p, failure)] else [(p, Inspect(true))] + [(p, failure)]
  }

  /**
   * A process that is hindered after it has the port gives the port back and is no holder. A failing look or
   * removal leaves the metadata as it was, and so does a path that is no regular file; a failing write leaves
   * none, or one that cannot be read.
   */
  lemma HinderedTakingLetsGo(meta: Meta, calls: seq<(nat, Action)>, p: nat, failure: Action)
    requires Run(meta, calls).Phase(p) == Listening
    requires var m := Run(meta, calls).meta;
             || failure == Inspect(false) || (failure == Inspect(true) && m == NotAFile)
             || (failure == Clear(false) && m != Absent && m != NotAFile)
             || (failure.Write? && failure.outcome != Written && m == Absent)
    ensures var s, t := Run(meta, calls), Run(meta, calls + FailingCalls(p, failure) + [(p, Abort)]);
            && t.port.None? && t.Phase(p) == Finished
            && t.meta == if failure == Write(Partial) then Unreadable else s.meta
  {
    RunInv(meta, calls);
    var s := Run(meta, calls);
    if failure.Inspect? {
      RunSnoc(meta, calls, (p, failure));
      RunSnoc(meta, calls + [(p, failure)], (p, Abort));
    } else {
      var looked := calls + [(p, Inspect(true))];
      RunSnoc(meta, calls, (p, Inspect(true)));
      RunSnoc(meta, looked, (p, failure));
      RunSnoc(meta, looked + [(p, failure)], (p, Abort));
      assert calls + FailingCalls(p, failure) == looked + [(p, failure)];
    }
  }
}
