// When `persist` succeeds, what the files hold then, and what the backup is good for.

module Backups {
  import opened JsText
  import opened Disks
  import opened CrashSafety

  /** From call `tick` on, the calls up to `t` fail and may be tried again, and `t` is the last that is tried. */
  ghost predicate GivesUpAt(faults: Faults, tick: nat, t: nat, retries: nat) {
    && tick <= t <= tick + retries
    && (forall k | tick <= k < t :: faults(k).Fails? && faults(k).retryable)
    && faults(t).Fails? && (t == tick + retries || !faults(t).retryable)
  }

  /** An operation tried from call `tick` on fails for good: its first failure of another kind, or its sixth. */
  ghost predicate GivesUp(faults: Faults, tick: nat) {
    exists t: nat :: GivesUpAt(faults, tick, t, 5)
  }

  lemma {:induction false} RetryFrom<D>(op: Op<D>, disk: Disk<D>, faults: Faults, tick: nat, attempt: nat, left: nat)
    requires attempt + left == 5 == MAX_ATTEMPT
    ensures Retry(op, disk, faults, tick, attempt).ok <==> !exists t: nat :: GivesUpAt(faults, tick, t, left)
    decreases left
  {
    var o := faults(tick);
    if o.Ok? {
      assert forall t: nat :: GivesUpAt(faults, tick, t, left) ==> faults(tick).Fails?;
    } else if !o.retryable || left == 0 {
      assert GivesUpAt(faults, tick, tick, left);
    } else {
      var after, next := AfterFailure(op, disk, o), tick + 1;
      RetryFrom(op, after, faults, next, attempt + 1, left - 1);
      GivesUpLater(faults, tick, left);
    }
  }

  lemma GivesUpLater(faults: Faults, tick: nat, left: nat)
    requires left > 0 && faults(tick).Fails? && faults(tick).retryable
    ensures var next, fewer: nat := tick + 1, left - 1;
            (exists t: nat :: GivesUpAt(faults, tick, t, left)) <==> exists t: nat :: GivesUpAt(faults, next, t, fewer)
  {
    var next, fewer: nat := tick + 1, left - 1;
    if t: nat :| GivesUpAt(faults, tick, t, left) {
      assert GivesUpAt(faults, next, t, fewer);
    }
    if t: nat :| GivesUpAt(faults, next, t, fewer) {
      assert GivesUpAt(faults, tick, t, left);
    }
  }

  /** An operation succeeds exactly unless it is given up. */
  lemma RetryExactly<D>(op: Op<D>, disk: Disk<D>, faults: Faults, tick: nat)
    ensures Retry(op, disk, faults, tick, 0).ok <==> !GivesUp(faults, tick)
  {
    RetryFrom(op, disk, faults, tick, 0, 5);
  }

  /** The last call of an operation tried from call `tick` on: the first that succeeds or ends the attempts. */
  ghost predicate LastTry(faults: Faults, tick: nat, t: nat, retries: nat) {
    && tick <= t <= tick + retries
    && (forall k | tick <= k < t :: faults(k).Fails? && faults(k).retryable)
    && (faults(t).Ok? || !faults(t).retryable || t == tick + retries)
  }

  /** An operation makes its calls one after the other up to the last try, whose answer is its own. */
  lemma {:induction false} RetryEndsAtLastTry<D>(op: Op<D>, disk: Disk<D>, faults: Faults, tick: nat, attempt: nat, left: nat)
    requires attempt + left == 5 == MAX_ATTEMPT
    ensures var s := Retry(op, disk, faults, tick, attempt);
            s.tick > tick && LastTry(faults, tick, s.tick - 1, left) && (s.ok <==> faults(s.tick - 1).Ok?)
    decreases left
  {
    var o := faults(tick);
    if o.Fails? && o.retryable && left > 0 {
      RetryEndsAtLastTry(op, AfterFailure(op, disk, o), faults, tick + 1, attempt + 1, left - 1);
    }
  }

  // The calls of a persist begin at `tick`, with the directory.

  ghost function MirrorTick<D>(faults: Faults, tick: nat, disk: Disk<D>, data: D): nat {
    Retry(Write(Tmp, data), disk, faults, tick + 1, 0).tick
  }

  ghost function BackupTick<D>(faults: Faults, tick: nat, disk: Disk<D>, data: D): nat {
    Retry(Write(Mirror, data), disk.(tmp := Intact(data)), faults, MirrorTick(faults, tick, disk, data), 0).tick
  }

  ghost function SwapTick<D>(faults: Faults, tick: nat, disk: Disk<D>, data: D): nat {
    var t := BackupTick(faults, tick, disk, data);
    if disk.main.Missing? then t
    else Retry(Copy(Main, Bak), disk.(tmp := Intact(data), mirror := Intact(data)), faults, t, 0).tick
  }

  /** The backup that is to be: the main file of before, if there was one. */
  function BackedUp<D>(disk: Disk<D>): Content<D> {
    if disk.main.Missing? then disk.bak else disk.main
  }

  lemma BackupEnd<D>(disk: Disk<D>, faults: Faults, tick: nat)
    ensures var s := Backup(disk, faults, tick);
            s.disk == disk.(bak := s.disk.bak) && (s.disk.bak == BackedUp(disk) || GivesUp(faults, tick))
  {
    BackupSeen(disk, faults, tick, Backup(disk, faults, tick).disk);
    RetryEnd(Copy(Main, Bak), disk, faults, tick, 0);
    RetryExactly(Copy(Main, Bak), disk, faults, tick);
  }

  /** The swap touches neither the mirror nor the backup. */
  lemma SwapKeeps<D>(win32: bool, disk: Disk<D>, faults: Faults, tick: nat, v: Disk<D>)
    requires Seen(Swap(win32, disk, faults, tick), v)
    ensures v.bak == disk.bak && v.mirror == disk.mirror
  {
    var op := if win32 then Copy(Tmp, Main) else Rename(Tmp, Main);
    var s := Retry(op, disk, faults, tick, 0);
    var w := v;
    if !Seen(s, v) {
      SeenAfter(s, Unlink(s.ok, s.disk, faults, s.tick), v);
      UnlinkSeen(s.ok, s.disk, faults, s.tick, v);
      w := s.disk;
    }
    if win32 {
      RetrySeen(op, disk, faults, tick, 0, w);
    } else {
      RenameSeen(Tmp, Main, disk, faults, tick, 0, w);
    }
  }

  lemma SwapExactly<D>(win32: bool, disk: Disk<D>, faults: Faults, tick: nat)
    ensures var s := Swap(win32, disk, faults, tick);
            && (s.ok <==> !GivesUp(faults, tick))
            && (s.ok ==> s.disk.main == disk.tmp && (s.disk.tmp.Missing? || (win32 && s.disk.tmp == disk.tmp)))
  {
    var op := if win32 then Copy(Tmp, Main) else Rename(Tmp, Main);
    var s := Retry(op, disk, faults, tick, 0);
    RetryExactly(op, disk, faults, tick);
    if win32 {
      RetryEnd(op, disk, faults, tick, 0);
    } else {
      RenameSeen(Tmp, Main, disk, faults, tick, 0, s.disk);
    }
  }

  /** From the backup on: no state has another main file without a backup of the old one. */
  lemma BackupComesFirst<D>(win32: bool, faults: Faults, tick: nat, disk: Disk<D>, v: Disk<D>)
    requires Seen(FromBackup(win32, faults, tick, disk), v)
    ensures v.main != disk.main ==> v.bak == BackedUp(disk) || GivesUp(faults, tick)
  {
    var bak := Backup(disk, faults, tick);
    BackupEnd(disk, faults, tick);
    SeenAfter(bak, Swap(win32, bak.disk, faults, bak.tick), v);
    if Seen(bak, v) {
      BackupSeen(disk, faults, tick, v);
    } else {
      SwapKeeps(win32, bak.disk, faults, bak.tick, v);
    }
  }

  lemma FromBackupExactly<D>(win32: bool, faults: Faults, tick: nat, disk: Disk<D>)
    ensures var s, bak := FromBackup(win32, faults, tick, disk), Backup(disk, faults, tick);
            && (s.ok <==> !GivesUp(faults, bak.tick))
            && (s.ok ==> s.disk.main == disk.tmp && s.disk.mirror == disk.mirror
                         && (s.disk.bak == BackedUp(disk) || GivesUp(faults, tick))
                         && (s.disk.tmp.Missing? || (win32 && s.disk.tmp == disk.tmp)))
  {
    var bak := Backup(disk, faults, tick);
    BackupEnd(disk, faults, tick);
    SwapExactly(win32, bak.disk, faults, bak.tick);
    SwapKeeps(win32, bak.disk, faults, bak.tick, Swap(win32, bak.disk, faults, bak.tick).disk);
  }

  /** The disk when both writes have succeeded. */
  function Exported<D>(disk: Disk<D>, data: D): Disk<D> {
    disk.(tmp := Intact(data), mirror := Intact(data))
  }

  lemma WritesExactly<D>(faults: Faults, tick: nat, disk: Disk<D>, data: D)
    ensures var tmp := Retry(Write(Tmp, data), disk, faults, tick + 1, 0);
            var mirror := Retry(Write(Mirror, data), tmp.disk, faults, tmp.tick, 0);
            && (tmp.ok <==> !GivesUp(faults, tick + 1))
            && (tmp.ok ==> (mirror.ok <==> !GivesUp(faults, tmp.tick)) && (mirror.ok ==> mirror.disk == Exported(disk, data)))
            && (tmp.ok ==> mirror.tick == BackupTick(faults, tick, disk, data))
  {
    var tmp := Retry(Write(Tmp, data), disk, faults, tick + 1, 0);
    RetryExactly(Write(Tmp, data), disk, faults, tick + 1);
    RetryEnd(Write(Tmp, data), disk, faults, tick + 1, 0);
    RetryExactly(Write(Mirror, data), tmp.disk, faults, tmp.tick);
    RetryEnd(Write(Mirror, data), tmp.disk, faults, tmp.tick, 0);
  }

  /**
   * A persist succeeds exactly if the directory can be made and neither write nor the swap is given up; a
   * failed backup is tolerated. Then main file and mirror hold the new data, and unless its copying was given
   * up, the backup holds the main file of before; the temporary file is gone after a rename.
   */
  lemma PersistExactly<D>(win32: bool, faults: Faults, tick: nat, disk: Disk<D>, data: D)
    ensures var s := PersistSteps(win32, faults, tick, disk, data);
            && (s.ok <==> faults(tick).Ok? && !GivesUp(faults, tick + 1) && !GivesUp(faults, MirrorTick(faults, tick, disk, data))
                          && !GivesUp(faults, SwapTick(faults, tick, disk, data)))
            && (s.ok ==> s.disk.main == s.disk.mirror == Intact(data)
                         && (s.disk.bak == BackedUp(disk) || GivesUp(faults, BackupTick(faults, tick, disk, data)))
                         && (s.disk.tmp.Missing? || (win32 && s.disk.tmp == Intact(data))))
  {
    if faults(tick).Ok? {
      WritesExactly(faults, tick, disk, data);
      FromBackupExactly(win32, faults, BackupTick(faults, tick, disk, data), Exported(disk, data));
    }
  }

  /** In no state of any persist is there another main file without a backup of the old one, unless that was given up. */
  lemma MainIsBackedUp<D>(win32: bool, faults: Faults, tick: nat, disk: Disk<D>, data: D, v: Disk<D>)
    requires Seen(PersistSteps(win32, faults, tick, disk, data), v)
    ensures v.main != disk.main ==> v.bak == BackedUp(disk) || GivesUp(faults, BackupTick(faults, tick, disk, data))
  {
    var tmp := Retry(Write(Tmp, data), disk, faults, tick + 1, 0);
    var mirror := Retry(Write(Mirror, data), tmp.disk, faults, tmp.tick, 0);
    WritesExactly(faults, tick, disk, data);
    if faults(tick).Ok? && tmp.ok && mirror.ok {
      FromMirrorBacksUp(win32, faults, tick, disk, data, v);
    } else {
      FailedWriteKeepsMain(win32, faults, tick, disk, data, v);
    }
  }

  lemma WritesSeen<D>(faults: Faults, tick: nat, disk: Disk<D>, data: D, v: Disk<D>)
    requires var tmp := Retry(Write(Tmp, data), disk, faults, tick + 1, 0);
             Seen(tmp, v) || Seen(Retry(Write(Mirror, data), tmp.disk, faults, tmp.tick, 0), v)
    ensures v.main == disk.main
  {
    var tmp := Retry(Write(Tmp, data), disk, faults, tick + 1, 0);
    RetrySeen(Write(Tmp, data), disk, faults, tick + 1, 0, tmp.disk);
    if Seen(tmp, v) {
      RetrySeen(Write(Tmp, data), disk, faults, tick + 1, 0, v);
    } else {
      RetrySeen(Write(Mirror, data), tmp.disk, faults, tmp.tick, 0, v);
    }
  }

  lemma FromMirrorBacksUp<D>(win32: bool, faults: Faults, tick: nat, disk: Disk<D>, data: D, v: Disk<D>)
    requires var tmp := Retry(Write(Tmp, data), disk, faults, tick + 1, 0);
             faults(tick).Ok? && tmp.ok && Retry(Write(Mirror, data), tmp.disk, faults, tmp.tick, 0).ok
    requires Seen(PersistSteps(win32, faults, tick, disk, data), v)
    ensures v.main != disk.main ==> v.bak == BackedUp(disk) || GivesUp(faults, BackupTick(faults, tick, disk, data))
  {
    var tmp := Retry(Write(Tmp, data), disk, faults, tick + 1, 0);
    var mirror := Retry(Write(Mirror, data), tmp.disk, faults, tmp.tick, 0);
    WritesExactly(faults, tick, disk, data);
    var rest := FromBackup(win32, faults, mirror.tick, mirror.disk);
    SeenAfter(tmp, After(mirror, rest), v);
    if Seen(tmp, v) || Seen(mirror, v) {
      WritesSeen(faults, tick, disk, data, v);
    } else {
      SeenAfter(mirror, rest, v);
      BackupComesFirst(win32, faults, mirror.tick, mirror.disk, v);
    }
  }

  lemma FailedWriteKeepsMain<D>(win32: bool, faults: Faults, tick: nat, disk: Disk<D>, data: D, v: Disk<D>)
    requires var tmp := Retry(Write(Tmp, data), disk, faults, tick + 1, 0);
             !(faults(tick).Ok? && tmp.ok && Retry(Write(Mirror, data), tmp.disk, faults, tmp.tick, 0).ok)
    requires Seen(PersistSteps(win32, faults, tick, disk, data), v)
    ensures v.main == disk.main
  {
    var tmp := Retry(Write(Tmp, data), disk, faults, tick + 1, 0);
    var mirror := Retry(Write(Mirror, data), tmp.disk, faults, tmp.tick, 0);
    if !faults(tick).Ok? {
    } else if !tmp.ok {
      WritesSeen(faults, tick, disk, data, if Seen(tmp, v) then v else tmp.disk);
    } else {
      SeenAfter(tmp, After(mirror, Unlink(false, mirror.disk, faults, mirror.tick)), v);
      WritesSeen(faults, tick, disk, data, if Seen(tmp, v) || Seen(mirror, v) then v else mirror.disk);
    }
  }

  lemma UnlinkExactly<D>(ok: bool, disk: Disk<D>, faults: Faults, tick: nat)
    ensures var s := Unlink(ok, disk, faults, tick);
            && s.ok == ok && s.tick == (if disk.tmp.Missing? then tick else tick + 1)
            && s.disk == (if disk.tmp.Missing? || faults(tick).Ok? then disk.(tmp := Missing) else disk)
  {
  }

  /** No temporary file is left, unless the last call, its removal, has failed. */
  ghost predicate Cleaned<D>(faults: Faults, tick: nat, s: Steps<D>) {
    s.tick > tick && (s.disk.tmp.Missing? || faults(s.tick - 1).Fails?)
  }

  lemma UnlinkCleans<D>(ok: bool, disk: Disk<D>, faults: Faults, tick: nat, begun: nat)
    requires begun < tick
    ensures Cleaned(faults, begun, Unlink(ok, disk, faults, tick))
  {
    UnlinkExactly(ok, disk, faults, tick);
  }

  lemma StagesClean<D>(faults: Faults, begun: nat, first: Steps<D>, rest: Steps<D>)
    requires begun <= first.tick && Cleaned(faults, first.tick, rest)
    ensures Cleaned(faults, begun, After(first, rest))
  {
  }

  lemma RetryTakesCalls<D>(op: Op<D>, disk: Disk<D>, faults: Faults, tick: nat)
    ensures Retry(op, disk, faults, tick, 0).tick > tick
  {
    RetryEndsAtLastTry(op, disk, faults, tick, 0, 5);
  }

  lemma SwapCleans<D>(win32: bool, disk: Disk<D>, faults: Faults, tick: nat)
    ensures Cleaned(faults, tick, Swap(win32, disk, faults, tick))
  {
    var op := if win32 then Copy(Tmp, Main) else Rename(Tmp, Main);
    var s := Retry(op, disk, faults, tick, 0);
    RetryEndsAtLastTry(op, disk, faults, tick, 0, 5);
    SwapExactly(win32, disk, faults, tick);
    UnlinkExactly(s.ok, s.disk, faults, s.tick);
  }

  lemma BackupTakesCalls<D>(disk: Disk<D>, faults: Faults, tick: nat)
    ensures Backup(disk, faults, tick).tick >= tick
  {
    RetryTakesCalls(Copy(Main, Bak), disk, faults, tick);
  }

  lemma FromBackupCleans<D>(win32: bool, faults: Faults, tick: nat, disk: Disk<D>)
    ensures Cleaned(faults, tick, FromBackup(win32, faults, tick, disk))
  {
    var bak := Backup(disk, faults, tick);
    BackupTakesCalls(disk, faults, tick);
    SwapCleans(win32, bak.disk, faults, bak.tick);
    StagesClean(faults, tick, bak, Swap(win32, bak.disk, faults, bak.tick));
  }

  function AfterMirror<D>(win32: bool, faults: Faults, mirror: Steps<D>): Steps<D> {
    if mirror.ok then FromBackup(win32, faults, mirror.tick, mirror.disk) else Unlink(false, mirror.disk, faults, mirror.tick)
  }

  lemma AfterMirrorCleans<D>(win32: bool, faults: Faults, mirror: Steps<D>, begun: nat)
    requires begun < mirror.tick
    ensures Cleaned(faults, begun, After(mirror, AfterMirror(win32, faults, mirror)))
  {
    if mirror.ok {
      FromBackupCleans(win32, faults, mirror.tick, mirror.disk);
    } else {
      UnlinkCleans(false, mirror.disk, faults, mirror.tick, begun);
    }
  }

  lemma FromMirrorCleans<D>(win32: bool, faults: Faults, tick: nat, disk: Disk<D>, data: D)
    ensures Cleaned(faults, tick, FromMirror(win32, faults, tick, disk, data))
  {
    RetryTakesCalls(Write(Mirror, data), disk, faults, tick);
    AfterMirrorCleans(win32, faults, Retry(Write(Mirror, data), disk, faults, tick, 0), tick);
  }

  lemma AfterTmpCleans<D>(win32: bool, faults: Faults, tmp: Steps<D>, begun: nat, data: D)
    requires begun < tmp.tick
    ensures Cleaned(faults, begun, After(tmp, if tmp.ok then FromMirror(win32, faults, tmp.tick, tmp.disk, data)
                                              else Unlink(false, tmp.disk, faults, tmp.tick)))
  {
    if tmp.ok {
      FromMirrorCleans(win32, faults, tmp.tick, tmp.disk, data);
      StagesClean(faults, begun, tmp, FromMirror(win32, faults, tmp.tick, tmp.disk, data));
    } else {
      UnlinkCleans(false, tmp.disk, faults, tmp.tick, begun);
    }
  }

  /** Whether it succeeds or not, a persist leaves no temporary file unless its last call, the removal, fails. */
  lemma TmpIsRemoved<D>(win32: bool, faults: Faults, tick: nat, disk: Disk<D>, data: D)
    ensures Cleaned(faults, tick, PersistSteps(win32, faults, tick, disk, data))
  {
    if faults(tick).Ok? {
      RetryTakesCalls(Write(Tmp, data), disk, faults, tick + 1);
      AfterTmpCleans(win32, faults, Retry(Write(Tmp, data), disk, faults, tick + 1, 0), tick, data);
    } else {
      UnlinkCleans(false, disk, faults, tick + 1, tick);
    }
  }

  /** A persist without failures, on either platform. */
  lemma FaultlessPersist<D>(win32: bool, tick: nat, disk: Disk<D>, data: D)
    ensures var s := PersistSteps(win32, NoFaults(), tick, disk, data);
            s.ok && s.disk == Disk(Intact(data), Intact(data), if disk.main.Missing? then disk.bak else disk.main, Missing)
  {
  }

  /**
   * Over two persists that succeed, and unless the second gave up its backup, the backup holds the data of the
   * first: it is one generation behind.
   */
  lemma BackupIsOneBehind<D>(win32: bool, disk: Disk<D>, early: D, late: D, f: Faults, s: nat, g: Faults, t: nat)
    requires PersistSteps(win32, f, s, disk, early).ok
    requires var between := PersistSteps(win32, f, s, disk, early).disk;
             PersistSteps(win32, g, t, between, late).ok && !GivesUp(g, BackupTick(g, t, between, late))
    ensures var between := PersistSteps(win32, f, s, disk, early).disk;
            var end := PersistSteps(win32, g, t, between, late).disk;
            end.main == end.mirror == Intact(late) && end.bak == Intact(early)
  {
    PersistExactly(win32, f, s, disk, early);
    PersistExactly(win32, g, t, PersistSteps(win32, f, s, disk, early).disk, late);
  }

  // What is read at a start.

  /** A start reads the main file, the mirror where there is no main file, and the backup where there is neither. */
  lemma ReadsFirstThatExists<D>(disk: Disk<D>, f: File)
    ensures ReadSnapshot(disk) == Some(f)
            <==> !disk.Get(f).Missing? && (f.Main? || (f.Mirror? && disk.main.Missing?)
                                           || (f.Bak? && disk.main.Missing? && disk.mirror.Missing?))
  {
  }

  /** What was read is the main file then, unless its copying is given up; the other files stay as they are. */
  lemma RestoredExactly<D>(disk: Disk<D>, faults: Faults, tick: nat, f: File)
    requires ReadSnapshot(disk) == Some(f)
    ensures var s := Restore(disk, faults, tick);
            && (s.ok <==> f == Main || !GivesUp(faults, tick))
            && s.disk == disk.(main := s.disk.main)
            && (s.ok ==> s.disk.main == disk.Get(f))
  {
    if f != Main {
      RetryExactly(Copy(f, Main), disk, faults, tick);
      RetryEnd(Copy(f, Main), disk, faults, tick, 0);
      RetrySeen(Copy(f, Main), disk, faults, tick, 0, Restore(disk, faults, tick).disk);
    }
  }

  // Durability over runs.

  /**
   * What is persisted once is there for good: where the swap is a rename, after a persist that succeeded every
   * later start, over any run of changes, persists, crashes and starts, reads contents at least as new.
   */
  lemma PersistedStays(w: World, faults: Faults, tick: nat, es: seq<Event>)
    requires Sound(w) && w.memory.Some? && PersistSteps(false, faults, tick, w.disk, w.memory.value).ok
    ensures var now := Happen(false, w, Persisted(faults, tick));
            && now.memory == w.memory && Loaded(now.disk) == w.memory
            && Loaded(Run(false, now, es).disk).Some? && Loaded(Run(false, now, es).disk).value >= w.memory.value
  {
    var now := Happen(false, w, Persisted(faults, tick));
    HappenKeepsSound(w, Persisted(faults, tick));
    PersistExactly(false, faults, tick, w.disk, w.memory.value);
    MainNeverGoesBack(now, es, 0);
  }

  function Changes(es: seq<Event>): nat {
    if es == [] then 0 else Changes(es[..|es| - 1]) + if es[|es| - 1].Changed? then 1 else 0
  }

  /** A program that does not crash counts its changes, whatever its persists do. */
  lemma {:induction false} MemoryCountsChanges(win32: bool, w: World, es: seq<Event>)
    requires w.memory.Some? && forall e | e in es :: e.Changed? || e.Persisted?
    ensures Run(win32, w, es).memory == Some(w.memory.value + Changes(es))
  {
    if es == [] {
    } else {
      MemoryCountsChanges(win32, w, es[..|es| - 1]);
      assert es[|es| - 1] in es;
    }
  }

  /**
   * A crash while a persist runs leaves a state that the persist passes through, and no memory. Where the swap is
   * a rename, the next start has what was persisted before or what was to be, and nothing else.
   */
  lemma CrashLosesTheLastChanges(w: World, faults: Faults, tick: nat, at: nat, g: Faults, t: nat)
    requires Sound(w) && w.memory.Some?
    ensures var visited := PersistSteps(false, faults, tick, w.disk, w.memory.value).visited;
            var crashed := Happen(false, w, Crashed(faults, tick, at));
            var started := Happen(false, crashed, Restarted(g, t));
            && crashed.memory.None? && (at < |visited| ==> crashed.disk == visited[at])
            && started.memory in {Some(w.disk.main.data), w.memory} && started.disk == crashed.disk
  {
    var s := PersistSteps(false, faults, tick, w.disk, w.memory.value);
    if at < |s.visited| {
      CrashIsRecoverable(false, faults, tick, w.disk, w.disk.main.data, w.memory.value, s.visited[at]);
    }
  }
}
