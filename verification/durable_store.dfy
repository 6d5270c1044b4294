// How AppDatabase writes its in-memory contents to disk, and what a crash can leave behind.
//
// A file is missing, intact with some data, or torn. Writing and copying a file pass through a torn
// state and may leave it when they fail; renaming is atomic. A crash is an end after any of the disk
// states that a call passes through, so those states are collected.

module Disks {
  import opened JsText

  datatype File = Main | Mirror | Bak | Tmp

  datatype Content<D> = Missing | Torn | Intact(data: D)

  /** The database file, its mirror, its backup and the temporary file of `persist`. */
  datatype Disk<D> = Disk(main: Content<D>, mirror: Content<D>, bak: Content<D>, tmp: Content<D>) {
    function Get(f: File): Content<D> {
      match f
      case Main => main
      case Mirror => mirror
      case Bak => bak
      case Tmp => tmp
    }

    function Set(f: File, c: Content<D>): Disk<D> {
      match f
      case Main => this.(main := c)
      case Mirror => this.(mirror := c)
      case Bak => this.(bak := c)
      case Tmp => this.(tmp := c)
    }
  }

  /** How the operating system answers one call. */
  datatype Outcome = Ok | Fails(retryable: bool, tears: bool)

  /** The answers to the calls of a process, in the order it makes them. */
  type Faults = nat -> Outcome

  datatype Op<D> = Write(file: File, data: D) | Copy(src: File, dst: File) | Rename(src: File, dst: File)

  /** A stretch of file operations: whether it succeeded, where it led, and all states on the way. */
  datatype Steps<D> = Steps(ok: bool, disk: Disk<D>, tick: nat, visited: seq<Disk<D>>)

  const MAX_ATTEMPT := 5  // one try and one for every retry delay

  function Mid<D>(op: Op<D>, disk: Disk<D>): Disk<D> {
    match op
    case Write(f, _) => disk.Set(f, Torn)
    case Copy(_, dst) => disk.Set(dst, Torn)
    case Rename(_, _) => disk
  }

  function Applied<D>(op: Op<D>, disk: Disk<D>): Disk<D> {
    match op
    case Write(f, data) => disk.Set(f, Intact(data))
    case Copy(src, dst) => disk.Set(dst, disk.Get(src))
    case Rename(src, dst) => disk.Set(dst, disk.Get(src)).Set(src, Missing)
  }

  function AfterFailure<D>(op: Op<D>, disk: Disk<D>, o: Outcome): Disk<D>
    requires o.Fails?
  {
    if o.tears then Mid(op, disk) else disk
  }

  /** `retryFileOperation`, from the given attempt on. */
  function Retry<D>(op: Op<D>, disk: Disk<D>, faults: Faults, tick: nat, attempt: nat): Steps<D>
    requires attempt <= MAX_ATTEMPT
    decreases MAX_ATTEMPT - attempt
  {
    var o := faults(tick);
    if o.Ok? then Steps(true, Applied(op, disk), tick + 1, [Mid(op, disk), Applied(op, disk)])
    else
      var after := AfterFailure(op, disk, o);
      if !o.retryable || attempt >= MAX_ATTEMPT then Steps(false, after, tick + 1, [after])
      else
        var rest := Retry(op, after, faults, tick + 1, attempt + 1);
        rest.(visited := [after] + rest.visited)
  }

  /** Best-effort removal of the temporary file. */
  function Unlink<D>(ok: bool, disk: Disk<D>, faults: Faults, tick: nat): Steps<D> {
    if disk.tmp.Missing? then Steps(ok, disk, tick, [])
    else if faults(tick).Ok? then Steps(ok, disk.(tmp := Missing), tick + 1, [disk.(tmp := Missing)])
    else Steps(ok, disk, tick + 1, [disk])
  }

  function After<D>(first: Steps<D>, second: Steps<D>): Steps<D> {
    second.(visited := first.visited + second.visited)
  }

  function Backup<D>(disk: Disk<D>, faults: Faults, tick: nat): Steps<D> {
    if disk.main.Missing? then Steps(true, disk, tick, []) else Retry(Copy(Main, Bak), disk, faults, tick, 0)
  }

  function Swap<D>(win32: bool, disk: Disk<D>, faults: Faults, tick: nat): Steps<D> {
    var s := Retry(if win32 then Copy(Tmp, Main) else Rename(Tmp, Main), disk, faults, tick, 0);
    if !s.ok || win32 then After(s, Unlink(s.ok, s.disk, faults, s.tick)) else s
  }

  function FromBackup<D>(win32: bool, faults: Faults, tick: nat, disk: Disk<D>): Steps<D> {
    var bak := Backup(disk, faults, tick);
    After(bak, Swap(win32, bak.disk, faults, bak.tick))
  }

  function FromMirror<D>(win32: bool, faults: Faults, tick: nat, disk: Disk<D>, data: D): Steps<D> {
    var mirror := Retry(Write(Mirror, data), disk, faults, tick, 0);
    After(mirror, if mirror.ok then FromBackup(win32, faults, mirror.tick, mirror.disk)
                  else Unlink(false, mirror.disk, faults, mirror.tick))
  }

  /** The file operations of `persist` for the exported `data`, the first being the making of the directory. */
  function PersistSteps<D>(win32: bool, faults: Faults, tick: nat, disk: Disk<D>, data: D): Steps<D> {
    if !faults(tick).Ok? then Unlink(false, disk, faults, tick + 1)
    else
      var tmp := Retry(Write(Tmp, data), disk, faults, tick + 1, 0);
      After(tmp, if tmp.ok then FromMirror(win32, faults, tmp.tick, tmp.disk, data)
                 else Unlink(false, tmp.disk, faults, tmp.tick))
  }

  /** The file that `readPersistedSnapshot` takes: the first that exists. */
  function ReadSnapshot<D>(disk: Disk<D>): Option<File> {
    if !disk.main.Missing? then Some(Main)
    else if !disk.mirror.Missing? then Some(Mirror)
    else if !disk.bak.Missing? then Some(Bak)
    else None
  }

  /** `restorePersistedSnapshot`: copies a fallback to the main file. */
  function Restore<D>(disk: Disk<D>, faults: Faults, tick: nat): Steps<D> {
    match ReadSnapshot(disk)
    case None => Steps(true, disk, tick, [])
    case Some(file) =>
      if file == Main then Steps(true, disk, tick, []) else Retry(Copy(file, Main), disk, faults, tick, 0)
  }

  predicate SomeIntact<D>(disk: Disk<D>) {
    disk.main.Intact? || disk.mirror.Intact? || disk.bak.Intact?
  }

  /** One of the three lasting files holds the whole old or the whole new data. */
  ghost predicate Recoverable<D>(disk: Disk<D>, was: D, data: D) {
    exists f :: f != Tmp && (disk.Get(f) == Intact(was) || disk.Get(f) == Intact(data))
  }

  function Target<D>(op: Op<D>): File
    requires !op.Rename?
  {
    if op.Write? then op.file else op.dst
  }

  ghost predicate SourceKept<D>(op: Op<D>) {
    op.Write? || (op.Copy? && op.src != op.dst)
  }

  /** The states of a stretch, its last included. */
  ghost predicate Seen<D>(s: Steps<D>, v: Disk<D>) {
    v in s.visited || v == s.disk
  }

  lemma SeenAfter<D>(a: Steps<D>, b: Steps<D>, v: Disk<D>)
    requires Seen(After(a, b), v)
    ensures Seen(a, v) || Seen(b, v)
  {
  }

  /** A successful operation has its full effect, however many attempts it took. */
  lemma {:induction false} RetryEnd<D>(op: Op<D>, disk: Disk<D>, faults: Faults, tick: nat, attempt: nat)
    requires SourceKept(op) && attempt <= MAX_ATTEMPT
    ensures var s := Retry(op, disk, faults, tick, attempt); s.ok ==> s.disk == Applied(op, disk)
    decreases MAX_ATTEMPT - attempt
  {
    var o := faults(tick);
    if o.Fails? && o.retryable && attempt < MAX_ATTEMPT {
      RetryEnd(op, AfterFailure(op, disk, o), faults, tick + 1, attempt + 1);
    }
  }

  /** Writing and copying touch no file but their target. */
  lemma {:induction false} RetrySeen<D>(op: Op<D>, disk: Disk<D>, faults: Faults, tick: nat, attempt: nat, v: Disk<D>)
    requires SourceKept(op) && attempt <= MAX_ATTEMPT
    requires Seen(Retry(op, disk, faults, tick, attempt), v)
    ensures v == disk.Set(Target(op), v.Get(Target(op)))
    decreases MAX_ATTEMPT - attempt
  {
    var o := faults(tick);
    if o.Fails? && o.retryable && attempt < MAX_ATTEMPT {
      var after := AfterFailure(op, disk, o);
      if v != after {
        RetrySeen(op, after, faults, tick + 1, attempt + 1, v);
      }
    }
  }

  /** Renaming happens or does not. */
  lemma {:induction false} RenameSeen<D>(src: File, dst: File, disk: Disk<D>, faults: Faults, tick: nat, attempt: nat, v: Disk<D>)
    requires attempt <= MAX_ATTEMPT
    requires Seen(Retry(Rename(src, dst), disk, faults, tick, attempt), v)
    ensures v == disk || v == Applied(Rename(src, dst), disk)
    ensures var s := Retry(Rename(src, dst), disk, faults, tick, attempt);
            s.disk == (if s.ok then Applied(Rename(src, dst), disk) else disk)
    decreases MAX_ATTEMPT - attempt
  {
    var o := faults(tick);
    if o.Fails? && o.retryable && attempt < MAX_ATTEMPT {
      var rest := Retry(Rename(src, dst), disk, faults, tick + 1, attempt + 1);
      RenameSeen(src, dst, disk, faults, tick + 1, attempt + 1, if Seen(rest, v) then v else rest.disk);
    }
  }

  lemma UnlinkSeen<D>(ok: bool, disk: Disk<D>, faults: Faults, tick: nat, v: Disk<D>)
    requires Seen(Unlink(ok, disk, faults, tick), v)
    ensures v == disk || v == disk.(tmp := Missing)
  {
  }

  /** Before the mirror is complete: the main file and the backup are as at first. */
  ghost predicate Early<D>(v: Disk<D>, disk: Disk<D>) {
    v.main == disk.main && v.bak == disk.bak
  }

  /** From then on the mirror has the new data, and a renamed main file is old or new. */
  ghost predicate Late<D>(win32: bool, v: Disk<D>, disk: Disk<D>, data: D) {
    v.mirror == Intact(data) && (win32 || v.main == disk.main || v.main == Intact(data))
  }

  ghost predicate EndsWell<D>(win32: bool, s: Steps<D>, disk: Disk<D>, data: D) {
    && (s.ok ==> s.disk.main == Intact(data))
    && (!s.ok && !win32 ==> s.disk.main == disk.main)
  }

  /** While the swap runs, the mirror keeps the new data; a renamed main file is old or new. */
  lemma SwapSeen<D>(win32: bool, disk: Disk<D>, faults: Faults, tick: nat, data: D, v: Disk<D>)
    requires disk.tmp == disk.mirror == Intact(data)
    requires Seen(Swap(win32, disk, faults, tick), v)
    ensures Late(win32, v, disk, data)
  {
    var op := if win32 then Copy(Tmp, Main) else Rename(Tmp, Main);
    var s := Retry(op, disk, faults, tick, 0);
    var w := v;
    if !Seen(s, v) {
      SeenAfter(s, Unlink(s.ok, s.disk, faults, s.tick), v);
      UnlinkSeen(s.ok, s.disk, faults, s.tick, v);
      w := s.disk;
    }
    if win32 {
      RetrySeen(op, disk, faults, tick, 0, w);
    } else {
      RenameSeen(Tmp, Main, disk, faults, tick, 0, w);
    }
  }

  lemma SwapEnd<D>(win32: bool, disk: Disk<D>, faults: Faults, tick: nat, data: D)
    requires disk.tmp == Intact(data)
    ensures EndsWell(win32, Swap(win32, disk, faults, tick), disk, data)
  {
    var op := if win32 then Copy(Tmp, Main) else Rename(Tmp, Main);
    var s := Retry(op, disk, faults, tick, 0);
    if win32 {
      RetryEnd(op, disk, faults, tick, 0);
    } else {
      RenameSeen(Tmp, Main, disk, faults, tick, 0, s.disk);
    }
  }

  lemma BackupSeen<D>(disk: Disk<D>, faults: Faults, tick: nat, v: Disk<D>)
    requires Seen(Backup(disk, faults, tick), v)
    ensures v == disk.(bak := v.bak)
  {
    if !disk.main.Missing? {
      RetrySeen(Copy(Main, Bak), disk, faults, tick, 0, v);
    }
  }

  /** The second half of persist, from a complete mirror on. */
  lemma FromBackupSeen<D>(win32: bool, faults: Faults, tick: nat, disk: Disk<D>, data: D, v: Disk<D>)
    requires disk.tmp == disk.mirror == Intact(data)
    requires Seen(FromBackup(win32, faults, tick, disk), v)
    ensures Late(win32, v, disk, data)
    ensures EndsWell(win32, FromBackup(win32, faults, tick, disk), disk, data)
  {
    var bak := Backup(disk, faults, tick);
    BackupSeen(disk, faults, tick, bak.disk);
    SwapEnd(win32, bak.disk, faults, bak.tick, data);
    var swap := Swap(win32, bak.disk, faults, bak.tick);
    SeenAfter(bak, swap, v);
    if Seen(bak, v) {
      BackupSeen(disk, faults, tick, v);
    } else {
      SwapSeen(win32, bak.disk, faults, bak.tick, data, v);
    }
  }

  lemma FromMirrorSeen<D>(win32: bool, faults: Faults, tick: nat, disk: Disk<D>, data: D, v: Disk<D>)
    requires disk.tmp == Intact(data)
    requires Seen(FromMirror(win32, faults, tick, disk, data), v)
    ensures Early(v, disk) || Late(win32, v, disk, data)
    ensures EndsWell(win32, FromMirror(win32, faults, tick, disk, data), disk, data)
  {
    var op := Write(Mirror, data);
    var mirror := Retry(op, disk, faults, tick, 0);
    RetryEnd(op, disk, faults, tick, 0);
    RetrySeen(op, disk, faults, tick, 0, mirror.disk);
    if Seen(mirror, v) {
      RetrySeen(op, disk, faults, tick, 0, v);
    }
    if mirror.ok {
      var rest := FromBackup(win32, faults, mirror.tick, mirror.disk);
      SeenAfter(mirror, rest, v);
      FromBackupSeen(win32, faults, mirror.tick, mirror.disk, data, if Seen(mirror, v) then rest.disk else v);
    } else {
      var rest := Unlink(false, mirror.disk, faults, mirror.tick);
      SeenAfter(mirror, rest, v);
      UnlinkSeen(false, mirror.disk, faults, mirror.tick, if Seen(mirror, v) then rest.disk else v);
      UnlinkSeen(false, mirror.disk, faults, mirror.tick, rest.disk);
    }
  }

  /** All states of persist, and what its end says about the main file. */
  lemma PersistSeen<D>(win32: bool, faults: Faults, tick: nat, disk: Disk<D>, data: D, v: Disk<D>)
    requires Seen(PersistSteps(win32, faults, tick, disk, data), v)
    ensures Early(v, disk) || Late(win32, v, disk, data)
    ensures EndsWell(win32, PersistSteps(win32, faults, tick, disk, data), disk, data)
  {
    if !faults(tick).Ok? {
      UnlinkSeen(false, disk, faults, tick + 1, v);
      UnlinkSeen(false, disk, faults, tick + 1, Unlink(false, disk, faults, tick + 1).disk);
      return;
    }
    var op := Write(Tmp, data);
    var tmp := Retry(op, disk, faults, tick + 1, 0);
    RetryEnd(op, disk, faults, tick + 1, 0);
    RetrySeen(op, disk, faults, tick + 1, 0, tmp.disk);
    if Seen(tmp, v) {
      RetrySeen(op, disk, faults, tick + 1, 0, v);
    }
    if tmp.ok {
      var rest := FromMirror(win32, faults, tmp.tick, tmp.disk, data);
      SeenAfter(tmp, rest, v);
      FromMirrorSeen(win32, faults, tmp.tick, tmp.disk, data, if Seen(tmp, v) then rest.disk else v);
    } else {
      var rest := Unlink(false, tmp.disk, faults, tmp.tick);
      SeenAfter(tmp, rest, v);
      UnlinkSeen(false, tmp.disk, faults, tmp.tick, if Seen(tmp, v) then rest.disk else v);
      UnlinkSeen(false, tmp.disk, faults, tmp.tick, rest.disk);
    }
  }
}

module CrashSafety {
  import opened JsText
  import opened Disks

  /**
   * From an intact main file, a crash anywhere in persist leaves the old or the new data whole in one
   * of the three files; when the swap is a rename, the main file itself is old or new.
   */
  lemma CrashIsRecoverable<D>(win32: bool, faults: Faults, tick: nat, disk: Disk<D>, was: D, data: D, v: Disk<D>)
    requires disk.main == Intact(was)
    requires Seen(PersistSteps(win32, faults, tick, disk, data), v)
    ensures Recoverable(v, was, data)
    ensures !win32 ==> v.main == Intact(was) || v.main == Intact(data)
  {
    PersistSeen(win32, faults, tick, disk, data, v);
    assert v.Get(Main) == v.main && v.Get(Mirror) == v.mirror;
  }

  /** Faultless calls: every operation succeeds at once. */
  function NoFaults(): Faults {
    (i: nat) => Ok
  }

  /** The states of a faultless persist. */
  lemma FaultlessVisits<D>(win32: bool, disk: Disk<D>, data: D)
    ensures var s := PersistSteps(win32, NoFaults(), 0, disk, data);
            && Seen(s, disk.(tmp := Intact(data), mirror := Torn))
            && (win32 ==> Seen(s, Disk(Torn, Intact(data), if disk.main.Missing? then disk.bak else disk.main, Intact(data))))
  {
  }

  /**
   * Without an intact main file the promise is not unconditional: every crash of every persist leaves
   * some whole copy exactly when the main file or the backup is intact to begin with, because the
   * mirror is overwritten first.
   */
  lemma SafeExactly<D>(win32: bool, disk: Disk<D>, data: D)
    ensures (forall faults, tick, v | Seen(PersistSteps(win32, faults, tick, disk, data), v) :: SomeIntact(v))
            <==> disk.main.Intact? || disk.bak.Intact?
  {
    if disk.main.Intact? || disk.bak.Intact? {
      forall faults, tick, v | Seen(PersistSteps(win32, faults, tick, disk, data), v) ensures SomeIntact(v) {
        PersistSeen(win32, faults, tick, disk, data, v);
      }
    } else {
      FaultlessVisits(win32, disk, data);
      var v := disk.(tmp := Intact(data), mirror := Torn);
      assert Seen(PersistSteps(win32, NoFaults(), 0, disk, data), v) && !SomeIntact(v);
    }
  }

  /**
   * Readers take the main file when it exists. They find old or new data after every crash exactly
   * when the swap is a rename: a torn copy is read although the mirror is intact.
   */
  lemma ReaderSafeExactly<D>(win32: bool, disk: Disk<D>, was: D, data: D)
    requires disk.main == Intact(was)
    ensures (forall faults, tick, v | Seen(PersistSteps(win32, faults, tick, disk, data), v) ::
               ReadSnapshot(v) == Some(Main) && (v.main == Intact(was) || v.main == Intact(data)))
            <==> !win32
  {
    if win32 {
      FaultlessVisits(win32, disk, data);
      var torn: Disk<D> := Disk(Torn, Intact(data), disk.main, Intact(data));
      assert Seen(PersistSteps(win32, NoFaults(), 0, disk, data), torn);
      assert torn.main != Intact(was);
    } else {
      forall faults, tick, v | Seen(PersistSteps(win32, faults, tick, disk, data), v)
        ensures ReadSnapshot(v) == Some(Main) && (v.main == Intact(was) || v.main == Intact(data))
      {
        CrashIsRecoverable(win32, faults, tick, disk, was, data, v);
      }
    }
  }

  /**
   * Where the swap is a copy, one persist that fails in the backup and in the swap is enough for the
   * next to be able to lose everything.
   */
  lemma TwoFailuresLoseAll<D>(disk: Disk<D>, was: D, first: D, second: D) returns (faults: Faults, v: Disk<D>)
    requires disk.main == Intact(was)
    ensures var s := PersistSteps(true, faults, 0, disk, first);
            !s.ok && exists g, t :: Seen(PersistSteps(true, g, t, s.disk, second), v)
    ensures !SomeIntact(v)
  {
    faults := (i: nat) => if i < 3 then Ok else Fails(false, true);
    var d1 := disk.(tmp := Intact(first));
    var d2 := d1.(mirror := Intact(first));
    assert Retry(Write(Tmp, first), disk, faults, 1, 0).disk == d1;
    assert Retry(Write(Mirror, first), d1, faults, 2, 0).disk == d2;
    assert Backup(d2, faults, 3).disk == d2.(bak := Torn);
    var s := PersistSteps(true, faults, 0, disk, first);
    assert !s.ok && s.disk.main == Torn && s.disk.bak == Torn;
    v := s.disk.(tmp := Intact(second), mirror := Torn);
    FaultlessVisits(true, s.disk, second);
    assert Seen(PersistSteps(true, NoFaults(), 0, s.disk, second), v);
  }

  // Runs. Contents are known by their generation, which every change of the memory raises.

  /** The disk, and the generation in memory while the program runs. */
  datatype World = World(disk: Disk<nat>, memory: Option<nat>)

  datatype Event =
    | Changed
    | Persisted(faults: Faults, tick: nat)
    | Crashed(faults: Faults, tick: nat, at: nat)  // during a persist, in its state number `at`
    | Restarted(faults: Faults, tick: nat)

  /** The contents that a start reads; None when there are none or the file is torn. */
  function Loaded(disk: Disk<nat>): Option<nat> {
    match ReadSnapshot(disk)
    case None => None
    case Some(file) => if disk.Get(file).Intact? then Some(disk.Get(file).data) else None
  }

  /** Only a running program changes its memory, exports it, or crashes while exporting it. */
  function Happen(win32: bool, w: World, e: Event): World {
    match e
    case Restarted(faults, tick) => World(Restore(w.disk, faults, tick).disk, Loaded(w.disk))
    case Changed => if w.memory.None? then w else w.(memory := Some(w.memory.value + 1))
    case Persisted(faults, tick) =>
      if w.memory.None? then w
      else w.(disk := PersistSteps(win32, faults, tick, w.disk, w.memory.value).disk)
    case Crashed(faults, tick, at) =>
      if w.memory.None? then w
      else
        var s := PersistSteps(win32, faults, tick, w.disk, w.memory.value);
        World(if at < |s.visited| then s.visited[at] else w.disk, None)
  }

  function Run(win32: bool, w: World, es: seq<Event>): World {
    if es == [] then w else Happen(win32, Run(win32, w, es[..|es| - 1]), es[|es| - 1])
  }

  /** The main file is whole, and the memory is not older. */
  ghost predicate Sound(w: World) {
    w.disk.main.Intact? && (w.memory.Some? ==> w.disk.main.data <= w.memory.value)
  }

  /** No event takes the main file back to an earlier generation. */
  lemma HappenKeepsSound(w: World, e: Event)
    requires Sound(w)
    ensures var w' := Happen(false, w, e); Sound(w') && w.disk.main.data <= w'.disk.main.data
  {
    if !e.Restarted? && !e.Changed? && w.memory.Some? {
      var s := PersistSteps(false, e.faults, e.tick, w.disk, w.memory.value);
      CrashIsRecoverable(false, e.faults, e.tick, w.disk, w.disk.main.data, w.memory.value, s.disk);
      if e.Crashed? && e.at < |s.visited| {
        CrashIsRecoverable(false, e.faults, e.tick, w.disk, w.disk.main.data, w.memory.value, s.visited[e.at]);
      }
    }
  }

  /**
   * Where the swap is a rename, over any run of changes, persists, crashes and restarts the main file is
   * always intact, is what readers take, is never newer than the memory, and never goes back.
   */
  lemma {:induction false} MainNeverGoesBack(w: World, es: seq<Event>, n: nat)
    requires Sound(w) && n <= |es|
    ensures var early, late := Run(false, w, es[..n]), Run(false, w, es);
            && Sound(early) && Sound(late)
            && early.disk.main.data <= late.disk.main.data
            && ReadSnapshot(late.disk) == Some(Main) && Loaded(late.disk) == Some(late.disk.main.data)
    decreases |es|
  {
    if n == |es| {
      assert es[..n] == es;
      if es == [] {
      } else {
        var before := es[..|es| - 1];
        MainNeverGoesBack(w, before, |before|);
        assert before[..|before|] == before;
        HappenKeepsSound(Run(false, w, before), es[|es| - 1]);
      }
    } else {
      var before := es[..|es| - 1];
      MainNeverGoesBack(w, before, n);
      assert before[..n] == es[..n];
      HappenKeepsSound(Run(false, w, before), es[|es| - 1]);
    }
  }
}

module AppDatabaseModel {
  import opened JsText
  import opened Disks
  import opened SqlCommands

  /** What a statement does to the contents: an error, or new contents and sqlite3_changes. */
  datatype Effect<D> = Threw | Ran(mem: D, rowsModified: nat)

  /** The SQL engine and the schema guard, and the platform. */
  datatype Engine<!D> = Engine(win32: bool, exec: (D, string) -> Effect<D>, compatible: D -> bool)

  datatype Reply = Completed | StatementFailed | PersistRefused

  datatype Db<D> = Db(mem: D, disk: Disk<D>, tick: nat, failed: bool)

  /** A batch comes with the fate of its BEGIN and its COMMIT. */
  datatype Call = Run(sql: string) | Insert(sql: string) | Batch(sqls: seq<string>, begins: bool, commits: bool)

  /** Those of the statements that only read, or are row statements and report no row, change nothing. */
  ghost predicate Faithful<D(!new)>(e: Engine<D>, sqls: seq<string>) {
    forall m, sql | sql in sqls && e.exec(m, sql).Ran? && Quiet(sql, e.exec(m, sql).rowsModified)
      :: e.exec(m, sql).mem == m
  }

  /** None of the statements leads from contents that the schema guard accepts to others. */
  ghost predicate KeepsSchema<D(!new)>(e: Engine<D>, sqls: seq<string>) {
    forall m, sql | sql in sqls && e.compatible(m) && e.exec(m, sql).Ran? :: e.compatible(e.exec(m, sql).mem)
  }

  function PersistDb<D>(e: Engine<D>, faults: Faults, db: Db<D>): (Db<D>, Reply) {
    if !e.compatible(db.mem) then (db, PersistRefused)
    else
      var s := PersistSteps(e.win32, faults, db.tick, db.disk, db.mem);
      (Db(db.mem, s.disk, s.tick, !s.ok), Completed)
  }

  function RunDb<D>(e: Engine<D>, faults: Faults, db: Db<D>, sql: string): (Db<D>, Reply) {
    match e.exec(db.mem, sql)
    case Threw => (db, StatementFailed)
    case Ran(mem, rows) =>
      if ShouldPersistAfterStatement(sql, rows) then PersistDb(e, faults, db.(mem := mem))
      else (db.(mem := mem), Completed)
  }

  /** The statements of a batch in order, `changed` telling whether one asks for persisting. */
  function ExecAll<D>(e: Engine<D>, mem: D, changed: bool, sqls: seq<string>): Option<(D, bool)>
    decreases |sqls|
  {
    if sqls == [] then Some((mem, changed))
    else
      match e.exec(mem, sqls[0])
      case Threw => None
      case Ran(mem', rows) =>
        ExecAll(e, mem', changed || ShouldPersistAfterStatement(sqls[0], rows), sqls[1..])
  }

  function NonBlank(sqls: seq<string>): seq<string> {
    if sqls == [] then []
    else (if Trim(sqls[0]) != "" then [sqls[0]] else []) + NonBlank(sqls[1..])
  }

  function BatchDb<D>(e: Engine<D>, faults: Faults, db: Db<D>, sqls: seq<string>, begins: bool, commits: bool): (Db<D>, Reply) {
    if NonBlank(sqls) == [] then (db, Completed)
    else if !begins then (db, StatementFailed)
    else
      match ExecAll(e, db.mem, false, NonBlank(sqls))
      case None => (db, StatementFailed)  // rolled back
      case Some((mem, changed)) =>
        if !commits then (db, StatementFailed)
        else if changed then PersistDb(e, faults, db.(mem := mem))
        else (db.(mem := mem), Completed)
  }

  function Apply<D>(e: Engine<D>, faults: Faults, db: Db<D>, c: Call): (Db<D>, Reply) {
    match c
    case Run(sql) => RunDb(e, faults, db, sql)
    case Insert(sql) => RunDb(e, faults, db, sql)
    case Batch(sqls, begins, commits) => BatchDb(e, faults, db, sqls, begins, commits)
  }

  /** Where a call leads before anything is persisted: the contents, and whether it asks to persist them. */
  function Led<D>(e: Engine<D>, mem: D, c: Call): Option<(D, bool)> {
    match c
    case Run(sql) => LedByOne(e, mem, sql)
    case Insert(sql) => LedByOne(e, mem, sql)
    case Batch(sqls, begins, commits) =>
      if NonBlank(sqls) == [] then Some((mem, false))
      else if begins && commits then ExecAll(e, mem, false, NonBlank(sqls))
      else None
  }

  function LedByOne<D>(e: Engine<D>, mem: D, sql: string): Option<(D, bool)> {
    match e.exec(mem, sql)
    case Threw => None
    case Ran(after, rows) => Some((after, ShouldPersistAfterStatement(sql, rows)))
  }

  /** Without a recorded persist error, the main file is the memory. */
  ghost predicate Agrees<D>(db: Db<D>) {
    !db.failed ==> db.disk.main == Intact(db.mem)
  }

  lemma PersistAgrees<D>(e: Engine<D>, faults: Faults, db: Db<D>)
    requires e.compatible(db.mem)
    ensures Agrees(PersistDb(e, faults, db).0)
  {
    var s := PersistSteps(e.win32, faults, db.tick, db.disk, db.mem);
    PersistSeen(e.win32, faults, db.tick, db.disk, db.mem, s.disk);
  }

  lemma {:induction false} UnchangedBatch<D(!new)>(e: Engine<D>, mem: D, changed: bool, sqls: seq<string>)
    requires Faithful(e, sqls)
    ensures var r := ExecAll(e, mem, changed, sqls); r.Some? && !r.value.1 ==> !changed && r.value.0 == mem
    decreases |sqls|
  {
    if sqls != [] && e.exec(mem, sqls[0]).Ran? {
      var r := e.exec(mem, sqls[0]);
      AsksExactly(sqls[0], r.rowsModified);
      assert sqls[0] in sqls;
      UnchangedBatch(e, r.mem, changed || ShouldPersistAfterStatement(sqls[0], r.rowsModified), sqls[1..]);
    }
  }

  /**
   * A call throws exactly when it leads nowhere, or asks to persist contents that the schema guard does
   * not accept. Then the disk is untouched, but the memory only exactly when nothing had changed in it:
   * the guard comes after the statement or the COMMIT.
   */
  lemma ThrowChangesNothingExactly<D>(e: Engine<D>, faults: Faults, db: Db<D>, c: Call)
    ensures var (after, reply) := Apply(e, faults, db, c);
            var led := Led(e, db.mem, c);
            && (reply == StatementFailed <==> led.None?)
            && (reply == PersistRefused <==> led.Some? && led.value.1 && !e.compatible(led.value.0))
            && (reply != Completed ==> after == db.(mem := after.mem)
                                       && (after == db <==> led.None? || led.value.0 == db.mem))
  {
  }

  /** The statements of a call. */
  function Statements(c: Call): seq<string> {
    match c
    case Run(sql) => [sql]
    case Insert(sql) => [sql]
    case Batch(sqls, _, _) => sqls
  }

  lemma NonBlankAreOfList(sqls: seq<string>)
    ensures forall sql | sql in NonBlank(sqls) :: sql in sqls
  {
  }

  lemma UnchangedCall<D(!new)>(e: Engine<D>, mem: D, c: Call)
    requires Faithful(e, Statements(c))
    ensures var led := Led(e, mem, c); led.Some? && !led.value.1 ==> led.value.0 == mem
  {
    if c.Batch? {
      NonBlankAreOfList(c.sqls);
      UnchangedBatch(e, mem, false, NonBlank(c.sqls));
    } else {
      assert Statements(c)[0] == c.sql;
      if e.exec(mem, c.sql).Ran? {
        AsksExactly(c.sql, e.exec(mem, c.sql).rowsModified);
      }
    }
  }

  /**
   * A call keeps the agreement exactly unless it changes the contents and does not get as far as persisting
   * them: it does not ask for it, or the schema guard does not accept them. Neither leaves a record in
   * `lastPersistError`.
   */
  lemma AgreementExactly<D(!new)>(e: Engine<D>, faults: Faults, db: Db<D>, c: Call)
    requires Agrees(db)
    ensures var led := Led(e, db.mem, c);
            Agrees(Apply(e, faults, db, c).0)
            <==> db.failed || led.None? || led.value.0 == db.mem || (led.value.1 && e.compatible(led.value.0))
  {
    var led := Led(e, db.mem, c);
    if led.Some? && e.compatible(led.value.0) {
      PersistAgrees(e, faults, db.(mem := led.value.0));
    }
  }

  /** An engine on numbers: every statement adds one, and the guard accepts only zero. */
  function Counting(): Engine<int> {
    Engine(false, (m: int, sql: string) => Ran(m + 1, 1), (m: int) => m == 0)
  }

  /** A batch that throws after its COMMIT: the memory has changed, the disk has not, and no error is recorded. */
  lemma RefusedBatch(faults: Faults, disk: Disk<int>)
    requires disk.main == Intact(0)
    ensures var db := Db(0, disk, 0, false);
            var (after, reply) := Apply(Counting(), faults, db, Batch(["UPDATE"], true, true));
            reply == PersistRefused && after == db.(mem := 1) && Agrees(db) && !Agrees(after)
  {
    CommandOfUpdate();
    var sqls := ["UPDATE"];
    assert NonBlank(sqls) == sqls && sqls[1..] == [];
    assert ExecAll(Counting(), 1, true, []) == Some((1, true));
  }

  lemma CommandOfUpdate()
    ensures Trim("UPDATE") == "UPDATE" && FirstSqlCommand("UPDATE") == "UPDATE"
  {
    var s := "UPDATE";
    assert TrimStart(s) == s && TrimEnd(s) == s;
    assert FirstWord("E") == "E" && FirstWord("TE") == "TE" && FirstWord("ATE") == "ATE" by {
      assert "E"[1..] == "" && "TE"[1..] == "E" && "ATE"[1..] == "TE";
    }
    assert s[1..] == "PDATE" && "PDATE"[1..] == "DATE" && "DATE"[1..] == "ATE";
    assert FirstWord("DATE") == "DATE" && FirstWord("PDATE") == "PDATE" && FirstWord(s) == s;
    assert UpperAscii("E") == "E" && UpperAscii("TE") == "TE" && UpperAscii("ATE") == "ATE" by {
      assert "E"[1..] == "" && "TE"[1..] == "E" && "ATE"[1..] == "TE";
    }
    assert UpperAscii("DATE") == "DATE" && UpperAscii("PDATE") == "PDATE" && UpperAscii(s) == s;
  }

  function ApplyAll<D>(e: Engine<D>, faults: Faults, db: Db<D>, cs: seq<Call>): Db<D> {
    if cs == [] then db else Apply(e, faults, ApplyAll(e, faults, db, cs[..|cs| - 1]), cs[|cs| - 1]).0
  }

  lemma {:induction false} BatchKeepsSchema<D(!new)>(e: Engine<D>, mem: D, changed: bool, sqls: seq<string>)
    requires KeepsSchema(e, sqls) && e.compatible(mem)
    ensures var r := ExecAll(e, mem, changed, sqls); r.Some? ==> e.compatible(r.value.0)
    decreases |sqls|
  {
    if sqls == [] || e.exec(mem, sqls[0]).Threw? {
    } else {
      var r := e.exec(mem, sqls[0]);
      assert sqls[0] in sqls;
      BatchKeepsSchema(e, r.mem, changed || ShouldPersistAfterStatement(sqls[0], r.rowsModified), sqls[1..]);
    }
  }

  lemma CallKeepsSchema<D(!new)>(e: Engine<D>, faults: Faults, db: Db<D>, c: Call)
    requires KeepsSchema(e, Statements(c)) && e.compatible(db.mem)
    ensures e.compatible(Apply(e, faults, db, c).0.mem)
    ensures Led(e, db.mem, c).Some? ==> e.compatible(Led(e, db.mem, c).value.0)
  {
    if c.Batch? {
      NonBlankAreOfList(c.sqls);
      BatchKeepsSchema(e, db.mem, false, NonBlank(c.sqls));
    } else {
      assert Statements(c)[0] == c.sql;
    }
  }

  /**
   * Over any run of calls after a start, if its own statements keep the schema, and those that only read or
   * report no changed row change nothing, memory and disk agree unless an error is recorded.
   */
  lemma {:induction false} AgreementOverRuns<D(!new)>(e: Engine<D>, faults: Faults, loaded: Db<D>, cs: seq<Call>)
    requires forall c | c in cs :: Faithful(e, Statements(c)) && KeepsSchema(e, Statements(c))
    requires e.compatible(loaded.mem)
    ensures var db := ApplyAll(e, faults, PersistDb(e, faults, loaded).0, cs);
            Agrees(db) && e.compatible(db.mem)
  {
    var start := PersistDb(e, faults, loaded).0;
    if cs == [] {
      PersistAgrees(e, faults, loaded);
    } else {
      var before := cs[..|cs| - 1];
      AgreementOverRuns(e, faults, loaded, before);
      var db, c := ApplyAll(e, faults, start, before), cs[|cs| - 1];
      assert c in cs;
      CallKeepsSchema(e, faults, db, c);
      UnchangedCall(e, db.mem, c);
      AgreementExactly(e, faults, db, c);
    }
  }

  // What is executed, and what is persisted.

  /** The contents after the statements, one after the other; None if one of them throws. */
  ghost function MemAfter<D>(e: Engine<D>, mem: D, sqls: seq<string>): Option<D> {
    if sqls == [] then Some(mem)
    else
      match MemAfter(e, mem, sqls[..|sqls| - 1])
      case None => None
      case Some(m) =>
        match e.exec(m, sqls[|sqls| - 1])
        case Threw => None
        case Ran(m', _) => Some(m')
  }

  /** Statement number i is executed and may have changed something. */
  ghost predicate AsksAt<D>(e: Engine<D>, mem: D, sqls: seq<string>, i: nat)
    requires i < |sqls|
  {
    var m := MemAfter(e, mem, sqls[..i]);
    m.Some? && e.exec(m.value, sqls[i]).Ran? && !Quiet(sqls[i], e.exec(m.value, sqls[i]).rowsModified)
  }

  lemma {:induction false} ExecOneMore<D>(e: Engine<D>, mem: D, changed: bool, sqls: seq<string>, sql: string)
    ensures ExecAll(e, mem, changed, sqls + [sql])
            == match ExecAll(e, mem, changed, sqls)
               case None => None
               case Some((m, c)) =>
                 if e.exec(m, sql).Threw? then None
                 else Some((e.exec(m, sql).mem, c || ShouldPersistAfterStatement(sql, e.exec(m, sql).rowsModified)))
    decreases |sqls|
  {
    if sqls == [] {
      assert sqls + [sql] == [sql] && [sql][1..] == [];
    } else {
      assert (sqls + [sql])[1..] == sqls[1..] + [sql];
      if e.exec(mem, sqls[0]).Ran? {
        var r := e.exec(mem, sqls[0]);
        ExecOneMore(e, r.mem, changed || ShouldPersistAfterStatement(sqls[0], r.rowsModified), sqls[1..], sql);
      }
    }
  }

  lemma AsksBefore<D>(e: Engine<D>, mem: D, sqls: seq<string>, n: nat, i: nat)
    requires i < n <= |sqls|
    ensures AsksAt(e, mem, sqls[..n], i) == AsksAt(e, mem, sqls, i)
  {
    assert sqls[..n][..i] == sqls[..i];
  }

  /**
   * A batch executes its statements one after the other, and asks for one persist exactly if one of them
   * neither only reads nor is a row statement without a changed row.
   */
  lemma {:induction false} ExecAllExactly<D>(e: Engine<D>, mem: D, sqls: seq<string>)
    ensures var r := ExecAll(e, mem, false, sqls);
            && (r.Some? <==> MemAfter(e, mem, sqls).Some?)
            && (r.Some? ==> r.value.0 == MemAfter(e, mem, sqls).value
                            && (r.value.1 <==> exists i: nat | i < |sqls| :: AsksAt(e, mem, sqls, i)))
  {
    if sqls == [] {
    } else {
      var n := |sqls| - 1;
      var front := sqls[..n];
      ExecAllExactly(e, mem, front);
      assert sqls == front + [sqls[n]];
      ExecOneMore(e, mem, false, front, sqls[n]);
      forall i: nat | i < n ensures AsksAt(e, mem, front, i) == AsksAt(e, mem, sqls, i) {
        AsksBefore(e, mem, sqls, n, i);
      }
      if ExecAll(e, mem, false, sqls).Some? {
        var r := e.exec(MemAfter(e, mem, front).value, sqls[n]);
        AsksExactly(sqls[n], r.rowsModified);
        assert AsksAt(e, mem, sqls, n) <==> !Quiet(sqls[n], r.rowsModified);
      }
    }
  }

  /** The statements of a batch are those that are not blank, in their order. */
  lemma {:induction false} NonBlankOneMore(sqls: seq<string>, sql: string)
    ensures NonBlank(sqls + [sql]) == NonBlank(sqls) + if Blank(sql) then [] else [sql]
  {
    BlankIsTrimmed(sql);
    if sqls == [] {
      assert sqls + [sql] == [sql] && [sql][1..] == [];
    } else {
      NonBlankOneMore(sqls[1..], sql);
      assert (sqls + [sql])[1..] == sqls[1..] + [sql];
    }
  }

  ghost function Runs(sqls: seq<string>): (r: seq<Call>)
    ensures |r| == |sqls| && forall i | 0 <= i < |sqls| :: r[i] == Run(sqls[i])
  {
    seq(|sqls|, i requires 0 <= i < |sqls| => Run(sqls[i]))
  }

  lemma {:induction false} RunsOneByOne<D>(e: Engine<D>, faults: Faults, db: Db<D>, sqls: seq<string>)
    requires MemAfter(e, db.mem, sqls).Some?
    ensures ApplyAll(e, faults, db, Runs(sqls)).mem == MemAfter(e, db.mem, sqls).value
  {
    if sqls == [] {
    } else {
      var front := sqls[..|sqls| - 1];
      RunsOneByOne(e, faults, db, front);
      assert Runs(sqls)[..|sqls| - 1] == Runs(front);
    }
  }

  /** A batch that completes leaves the contents that its statements leave when they are run one by one. */
  lemma BatchIsOneByOne<D>(e: Engine<D>, faults: Faults, db: Db<D>, sqls: seq<string>, begins: bool, commits: bool)
    requires Apply(e, faults, db, Batch(sqls, begins, commits)).1 == Completed
    ensures Apply(e, faults, db, Batch(sqls, begins, commits)).0.mem == ApplyAll(e, faults, db, Runs(NonBlank(sqls))).mem
  {
    ExecAllExactly(e, db.mem, NonBlank(sqls));
    if NonBlank(sqls) != [] {
      RunsOneByOne(e, faults, db, NonBlank(sqls));
    }
  }

  /** The call may have changed something: some statement of it that is executed is not quiet. */
  ghost predicate Asks<D>(e: Engine<D>, mem: D, c: Call) {
    match c
    case Batch(sqls, _, _) => exists i: nat | i < |NonBlank(sqls)| :: AsksAt(e, mem, NonBlank(sqls), i)
    case _ => AsksAt(e, mem, Statements(c), 0)
  }

  lemma OneAsksExactly<D>(e: Engine<D>, mem: D, c: Call)
    requires !c.Batch?
    ensures Led(e, mem, c).Some? ==> (Led(e, mem, c).value.1 <==> Asks(e, mem, c))
  {
    assert Statements(c) == [c.sql] && [c.sql][..0] == [];
    if e.exec(mem, c.sql).Ran? {
      AsksExactly(c.sql, e.exec(mem, c.sql).rowsModified);
    }
  }

  /**
   * A call that does not throw writes to disk exactly if it may have changed something: otherwise the disk, its
   * calls and the error record stay as they are, and if so the files are those of one persist of the new
   * contents, which memory and disk then agree on or whose failure is recorded.
   */
  lemma PersistsExactly<D>(e: Engine<D>, faults: Faults, db: Db<D>, c: Call)
    ensures var (after, reply) := Apply(e, faults, db, c);
            && (reply == Completed && !Asks(e, db.mem, c) ==> after == db.(mem := after.mem))
            && (reply == Completed && Asks(e, db.mem, c) ==>
                  var s := PersistSteps(e.win32, faults, db.tick, db.disk, after.mem);
                  e.compatible(after.mem) && after == Db(after.mem, s.disk, s.tick, !s.ok) && Agrees(after))
  {
    if c.Batch? {
      ExecAllExactly(e, db.mem, NonBlank(c.sqls));
    } else {
      OneAsksExactly(e, db.mem, c);
    }
    var after := Apply(e, faults, db, c).0;
    if e.compatible(after.mem) {
      PersistAgrees(e, faults, db.(mem := after.mem));
    }
  }

  lemma Assoc<T>(a: seq<T>, b: seq<T>, c: seq<T>)
    ensures (a + b) + c == a + (b + c)
  {
  }

  class AppDatabase<!D(!new)> {
    const engine: Engine<D>
    const faults: Faults
    var db: D
    var disk: Disk<D>
    var tick: nat
    var lastPersistError: bool
    ghost var visited: seq<Disk<D>>  // all states the disk has been in, for a crash to end in

    ghost function State(): Db<D>
      reads this
    {
      Db(db, disk, tick, lastPersistError)
    }

    /** Opens the contents read from disk, which migrate has already brought up to date. */
    constructor (engine: Engine<D>, faults: Faults, loaded: D, disk: Disk<D>)
      ensures this.engine == engine && this.faults == faults
      ensures State() == Db(loaded, disk, 0, false) && visited == []
    {
      this.engine, this.faults := engine, faults;
      this.db, this.disk, this.tick, this.lastPersistError := loaded, disk, 0, false;
      visited := [];
    }

    method RetryFileOperation(op: Op<D>) returns (ok: bool)
      modifies `disk, `tick, `visited
      ensures var s := Retry(op, old(disk), faults, old(tick), 0);
              ok == s.ok && disk == s.disk && tick == s.tick && visited == old(visited) + s.visited
    {
      ghost var all := Retry(op, disk, faults, tick, 0);
      ghost var earlier := visited;
      var attempt := 0;
      while attempt <= MAX_ATTEMPT
        invariant attempt <= MAX_ATTEMPT
        invariant var s := Retry(op, disk, faults, tick, attempt);
                  s.ok == all.ok && s.disk == all.disk && s.tick == all.tick
                  && visited + s.visited == earlier + all.visited
        decreases MAX_ATTEMPT - attempt
      {
        ghost var s := Retry(op, disk, faults, tick, attempt);
        ghost var seen := visited;
        var o := faults(tick);
        tick := tick + 1;
        if o.Ok? {
          visited := visited + [Mid(op, disk), Applied(op, disk)];
          disk := Applied(op, disk);
          return true;
        }
        disk := AfterFailure(op, disk, o);
        visited := visited + [disk];
        if !o.retryable || attempt >= MAX_ATTEMPT {
          return false;
        }
        attempt := attempt + 1;
        assert s.visited == [disk] + Retry(op, disk, faults, tick, attempt).visited;
        Assoc(seen, [disk], Retry(op, disk, faults, tick, attempt).visited);
      }
    }

    method TryUnlinkTmp()
      modifies `disk, `tick, `visited
      ensures var s := Unlink(true, old(disk), faults, old(tick));
              disk == s.disk && tick == s.tick && visited == old(visited) + s.visited
    {
      if !disk.tmp.Missing? {
        if faults(tick).Ok? {
          disk := disk.(tmp := Missing);
        }
        tick := tick + 1;
        visited := visited + [disk];
      }
    }

    /** The swap of the temporary file into place. */
    method SwapIn() returns (ok: bool)
      modifies `disk, `tick, `visited
      ensures var s := Swap(engine.win32, old(disk), faults, old(tick));
              ok == s.ok && disk == s.disk && tick == s.tick && visited == old(visited) + s.visited
    {
      if engine.win32 {
        ok := RetryFileOperation(Copy(Tmp, Main));
        TryUnlinkTmp();
      } else {
        ok := RetryFileOperation(Rename(Tmp, Main));
        if !ok {
          TryUnlinkTmp();
        }
      }
    }

    /** `persist` from the backup on; a failed backup is only reported. */
    method BackUpAndSwap() returns (ok: bool)
      modifies `disk, `tick, `visited
      ensures var s := FromBackup(engine.win32, faults, old(tick), old(disk));
              ok == s.ok && disk == s.disk && tick == s.tick && visited == old(visited) + s.visited
    {
      ghost var s := Backup(disk, faults, tick);
      if !disk.main.Missing? {
        var backedUp := RetryFileOperation(Copy(Main, Bak));
      }
      assert disk == s.disk && tick == s.tick && visited == old(visited) + s.visited;
      ok := SwapIn();
      Assoc(old(visited), s.visited, Swap(engine.win32, s.disk, faults, s.tick).visited);
    }

    /** `persist` from the mirror on. */
    method MirrorAndSwap(data: D) returns (ok: bool)
      modifies `disk, `tick, `visited
      ensures var s := FromMirror(engine.win32, faults, old(tick), old(disk), data);
              ok == s.ok && disk == s.disk && tick == s.tick && visited == old(visited) + s.visited
    {
      ghost var s := Retry(Write(Mirror, data), disk, faults, tick, 0);
      ok := RetryFileOperation(Write(Mirror, data));
      if ok {
        ok := BackUpAndSwap();
        Assoc(old(visited), s.visited, FromBackup(engine.win32, faults, s.tick, s.disk).visited);
      } else {
        TryUnlinkTmp();
        Assoc(old(visited), s.visited, Unlink(false, s.disk, faults, s.tick).visited);
      }
    }

    method WriteFiles(data: D) returns (ok: bool)
      modifies `disk, `tick, `visited
      ensures var s := PersistSteps(engine.win32, faults, old(tick), old(disk), data);
              ok == s.ok && disk == s.disk && tick == s.tick && visited == old(visited) + s.visited
    {
      ok := faults(tick).Ok?;
      tick := tick + 1;
      if !ok {
        TryUnlinkTmp();
        return;
      }
      ghost var s := Retry(Write(Tmp, data), disk, faults, tick, 0);
      ok := RetryFileOperation(Write(Tmp, data));
      if ok {
        ok := MirrorAndSwap(data);
        Assoc(old(visited), s.visited, FromMirror(engine.win32, faults, s.tick, s.disk, data).visited);
      } else {
        TryUnlinkTmp();
        Assoc(old(visited), s.visited, Unlink(false, s.disk, faults, s.tick).visited);
      }
    }

    method Persist() returns (reply: Reply)
      modifies this
      ensures (State(), reply) == PersistDb(engine, faults, old(State()))
      ensures reply == PersistRefused ==> visited == old(visited)
      ensures reply == Completed ==>
                visited == old(visited) + PersistSteps(engine.win32, faults, old(tick), old(disk), old(db)).visited
    {
      if !engine.compatible(db) {
        return PersistRefused;
      }
      var ok := WriteFiles(db);
      lastPersistError := !ok;
      reply := Completed;
    }

    method RunStatement(sql: string) returns (reply: Reply)
      modifies this
      ensures (State(), reply) == Apply(engine, faults, old(State()), Run(sql))
    {
      match engine.exec(db, sql) {
        case Threw => return StatementFailed;
        case Ran(mem, rows) =>
          db := mem;
          reply := Completed;
          if ShouldPersistAfterStatement(sql, rows) {
            reply := Persist();
          }
      }
    }

    method RunBatch(sqls: seq<string>, begins: bool, commits: bool) returns (reply: Reply)
      modifies this
      ensures (State(), reply) == Apply(engine, faults, old(State()), Batch(sqls, begins, commits))
    {
      var valid := NonBlank(sqls);
      if valid == [] {
        return Completed;
      }
      if !begins {
        return StatementFailed;
      }
      var before := db;
      var changed := false;
      for i := 0 to |valid|
        invariant tick == old(tick) && disk == old(disk) && lastPersistError == old(lastPersistError)
        invariant ExecAll(engine, db, changed, valid[i..]) == ExecAll(engine, before, false, valid)
      {
        assert valid[i..][1..] == valid[i + 1..];
        match engine.exec(db, valid[i]) {
          case Threw =>
            db := before;
            return StatementFailed;
          case Ran(mem, rows) =>
            db := mem;
            changed := changed || ShouldPersistAfterStatement(valid[i], rows);
        }
      }
      if !commits {
        db := before;
        return StatementFailed;
      }
      reply := Completed;
      if changed {
        reply := Persist();
      }
    }
  }
}
