/** The sandbox in `--inPlace` mode: every changed file is backed up and overwritten, file by file in any
    interleaving, and the backup is moved back on disposal, which may be interrupted. */
module Sandbox {
  import opened Options

  /** A path relative to the working directory, or to the backup directory. */
  type Path = seq<string>

  /** The files and directories under the working directory and under the backup directory. */
  datatype Disk = Disk(work: map<Path, string>, workDirs: set<Path>, backup: map<Path, string>, backupDirs: set<Path>)

  function Parent(p: Path): Path
    requires p != []
  {
    p[..|p| - 1]
  }

  function Prefixes(p: Path): set<Path> {
    set k: nat | k <= |p| :: p[..k]
  }

  /** Every file and directory is in a directory, and no path is both. */
  ghost predicate WellFormed(files: map<Path, string>, dirs: set<Path>) {
    && (forall p <- dirs :: p != [] ==> Parent(p) in dirs)
    && (forall p <- files :: p != [] && Parent(p) in dirs && p !in dirs)
  }

  // ----- `ProjectFile`

  datatype Phase = Waiting | DirectoryMade | BackedUp | Finished

  datatype FileState = FileState(name: Path, current: Option<string>, original: Option<string>, phase: Phase)

  predicate HasChanges(f: FileState) {
    f.current != f.original
  }

  function MakeDirectory(d: Disk, f: FileState): Disk {
    d.(backupDirs := d.backupDirs + (if f.name == [] then {} else Prefixes(Parent(f.name))))
  }

  /** The content as it was read, or else a copy of the file on disk. */
  function StoreBackup(d: Disk, f: FileState): Disk
    requires f.name in d.work
  {
    d.(backup := d.backup[f.name := if f.original.Some? then f.original.value else d.work[f.name]])
  }

  function WriteInPlace(d: Disk, f: FileState): Disk {
    if f.current.Some? && HasChanges(f) then d.(work := d.work[f.name := f.current.value]) else d
  }

  /** One atomic operation of `sandboxFile`. */
  function FileStep(d: Disk, f: FileState): (Disk, FileState)
    requires f.name in d.work
  {
    match f.phase
    case Waiting =>
      if HasChanges(f) then (MakeDirectory(d, f), f.(phase := DirectoryMade)) else (d, f.(phase := Finished))
    case DirectoryMade => (StoreBackup(d, f), f.(phase := BackedUp))
    case BackedUp => (WriteInPlace(d, f), f.(phase := Finished))
    case Finished => (d, f)
  }

  datatype State = State(disk: Disk, files: seq<FileState>)

  function Step(s: State, i: nat): State
    requires i < |s.files| && s.files[i].name in s.disk.work
  {
    var (d, f) := FileStep(s.disk, s.files[i]);
    State(d, s.files[i := f])
  }

  // ----- crash safety

  /** Every file is unchanged, or has its original in the backup, and the backup holds nothing else. */
  ghost predicate Safe(d: Disk, originals: map<Path, string>) {
    && d.work.Keys == originals.Keys
    && WellFormed(d.work, d.workDirs) && WellFormed(d.backup, d.backupDirs)
    && (forall p <- d.work :: d.work[p] == originals[p] || p in d.backup)
    && (forall p <- d.backup :: p in originals && d.backup[p] == originals[p])
    && d.backupDirs <= d.workDirs
  }

  /** What a project file knows agrees with the disk: what it has read is the original content, and it is
      not written before its backup exists. */
  ghost predicate Agrees(f: FileState, d: Disk, originals: map<Path, string>) {
    && f.name != [] && f.name in originals && f.name in d.work
    && (f.original.Some? ==> f.original.value == originals[f.name])
    && (f.phase.Waiting? || f.phase.DirectoryMade? ==> d.work[f.name] == originals[f.name] && f.name !in d.backup)
    && (f.phase.DirectoryMade? ==> Parent(f.name) in d.backupDirs)
    && (f.phase.BackedUp? ==> f.name in d.backup)
  }

  ghost predicate Invariant(s: State, originals: map<Path, string>) {
    && Safe(s.disk, originals)
    && (forall f <- s.files :: Agrees(f, s.disk, originals))
    && (forall i, j :: 0 <= i < j < |s.files| ==> s.files[i].name != s.files[j].name)
  }

  lemma {:induction false} PrefixesExist(p: Path, dirs: set<Path>)
    requires p in dirs && forall q <- dirs :: q != [] ==> Parent(q) in dirs
    ensures Prefixes(p) <= dirs
    decreases |p|
  {
    if p != [] {
      PrefixesExist(Parent(p), dirs);
      forall k: nat | k < |p|
        ensures p[..k] in dirs
      {
        assert p[..k] == Parent(p)[..k];
      }
      assert p[..|p|] == p;
    } else {
      assert forall k: nat :: k <= |p| ==> p[..k] == p;
    }
  }

  lemma MakeDirectoryKeeps(d: Disk, f: FileState, originals: map<Path, string>)
    requires Safe(d, originals) && f.name in d.work && f.name != []
    ensures Safe(MakeDirectory(d, f), originals) && Parent(f.name) in MakeDirectory(d, f).backupDirs
  {
    var t := MakeDirectory(d, f);
    var p := Parent(f.name);
    PrefixesExist(p, d.workDirs);
    assert p[..|p|] == p;
    forall q | q in Prefixes(p) && q != []
      ensures Parent(q) in Prefixes(p)
    {
      var k: nat :| k <= |p| && q == p[..k];
      assert Parent(q) == p[..k - 1];
    }
  }

  lemma StoreBackupKeeps(d: Disk, f: FileState, originals: map<Path, string>)
    requires Safe(d, originals) && Agrees(f, d, originals) && f.phase.DirectoryMade?
    ensures Safe(StoreBackup(d, f), originals)
  {
    var t := StoreBackup(d, f);
    assert t.backup[f.name] == originals[f.name];
    assert forall p <- t.backup :: p == f.name || p in d.backup;
  }

  lemma WriteInPlaceKeeps(d: Disk, f: FileState, originals: map<Path, string>)
    requires Safe(d, originals) && f.name in d.backup
    ensures Safe(WriteInPlace(d, f), originals)
  {
    var t := WriteInPlace(d, f);
    assert t.work.Keys == d.work.Keys;
  }

  lemma FileStepKeeps(d: Disk, f: FileState, originals: map<Path, string>)
    requires Safe(d, originals) && Agrees(f, d, originals)
    ensures Safe(FileStep(d, f).0, originals) && Agrees(FileStep(d, f).1, FileStep(d, f).0, originals)
    ensures FileStep(d, f).1.name == f.name
  {
    hide Safe;
    match f.phase
    case Waiting =>
      if HasChanges(f) {
        MakeDirectoryKeeps(d, f, originals);
      }
    case DirectoryMade => StoreBackupKeeps(d, f, originals);
    case BackedUp => WriteInPlaceKeeps(d, f, originals);
    case Finished =>
  }

  lemma OthersAgree(d: Disk, f: FileState, g: FileState, originals: map<Path, string>)
    requires f.name in d.work && Agrees(g, d, originals) && g.name != f.name
    ensures Agrees(g, FileStep(d, f).0, originals)
  {
  }

  /** Every atomic operation of every file keeps the invariant, in any interleaving. */
  lemma StepKeeps(s: State, i: nat, originals: map<Path, string>)
    requires Invariant(s, originals) && i < |s.files|
    ensures s.files[i].name in s.disk.work
    ensures Invariant(Step(s, i), originals)
  {
    hide Safe, Agrees, FileStep;
    var f := s.files[i];
    assert f in s.files && f.name in s.disk.work by {
      FileIsThere(f, s.disk, originals);
    }
    FileStepKeeps(s.disk, f, originals);
    var t := Step(s, i);
    forall g | g in t.files
      ensures Agrees(g, t.disk, originals)
    {
      var j :| 0 <= j < |t.files| && t.files[j] == g;
      if j != i {
        assert g == s.files[j] && g in s.files && g.name != f.name;
        OthersAgree(s.disk, f, g, originals);
      }
    }
  }

  lemma FileIsThere(f: FileState, d: Disk, originals: map<Path, string>)
    requires Agrees(f, d, originals)
    ensures f.name in d.work
  {
  }

  // ----- moving the backup back

  /** Some files of the backup were moved to the working directory, and nothing else has changed. */
  ghost predicate Moved(d: Disk, t: Disk) {
    && WellFormed(t.work, t.workDirs) && WellFormed(t.backup, t.backupDirs)
    && t.backup.Keys <= d.backup.Keys && t.backupDirs <= d.backupDirs
    && d.workDirs <= t.workDirs <= d.workDirs + d.backupDirs
    && (forall p <- t.backup :: t.backup[p] == d.backup[p])
    && t.work.Keys == d.work.Keys + (d.backup.Keys - t.backup.Keys)
    && (forall p <- t.work :: t.work[p] == if p in d.backup && p !in t.backup then d.backup[p] else d.work[p])
  }

  ghost predicate MovedAll(d: Disk, t: Disk) {
    Moved(d, t) && t.backup == map[] && t.backupDirs == {}
  }

  lemma MovedNothing(d: Disk)
    requires WellFormed(d.work, d.workDirs) && WellFormed(d.backup, d.backupDirs)
    ensures Moved(d, d)
  {
  }

  lemma MovedMore(a: Disk, b: Disk, c: Disk)
    requires Moved(a, b) && Moved(b, c)
    ensures Moved(a, c)
  {
    hide WellFormed;
    assert c.work.Keys == a.work.Keys + (a.backup.Keys - c.backup.Keys);
  }

  /** How many file operations moving the backup back takes: every missing directory is made, every file is
      renamed, and every directory of the backup is removed. */
  function Work(d: Disk): nat {
    |d.backupDirs - d.workDirs| + |d.backup.Keys| + |d.backupDirs|
  }

  lemma MkdirWork(d: Disk, p: Path)
    requires p in d.backupDirs && p !in d.workDirs
    ensures Work(d.(workDirs := d.workDirs + {p})) == Work(d) - 1
  {
    assert d.backupDirs - (d.workDirs + {p}) == (d.backupDirs - d.workDirs) - {p};
  }

  lemma RenameWork(d: Disk, p: Path)
    requires p in d.backup
    ensures Work(d.(work := d.work[p := d.backup[p]], backup := d.backup - {p})) == Work(d) - 1
  {
    assert (d.backup - {p}).Keys == d.backup.Keys - {p};
  }

  lemma RmdirWork(d: Disk, p: Path)
    requires p in d.backupDirs && p in d.workDirs
    ensures Work(d.(backupDirs := d.backupDirs - {p})) == Work(d) - 1
  {
    assert (d.backupDirs - {p}) - d.workDirs == d.backupDirs - d.workDirs;
  }

  /** An interrupted disposal keeps every original; a complete one restores all files. */
  lemma DisposeRestores(d: Disk, t: Disk, originals: map<Path, string>)
    requires Safe(d, originals) && Moved(d, t)
    ensures Safe(t, originals)
    ensures MovedAll(d, t) ==> t.work == originals
  {
    assert t.work.Keys == originals.Keys;
  }

  /** Wherever the work has stopped, there is a disposal that completes. */
  lemma DisposalCanComplete(d: Disk, originals: map<Path, string>)
    requires Safe(d, originals)
    ensures MovedAll(d, Disk(originals, d.workDirs, map[], {}))
  {
    assert originals.Keys == d.work.Keys + d.backup.Keys;
  }

  /** Disposing again changes nothing. */
  lemma SecondDisposeIsNoOp(d: Disk, t: Disk, u: Disk)
    requires MovedAll(d, t) && Moved(t, u)
    ensures u == t
  {
    assert u.work.Keys == t.work.Keys && u.backup == map[];
  }

  // ----- whole runs

  predicate IsRun(s: State, steps: seq<nat>)
    decreases |steps|
  {
    steps == [] || (steps[0] < |s.files| && s.files[steps[0]].name in s.disk.work && IsRun(Step(s, steps[0]), steps[1..]))
  }

  function After(s: State, steps: seq<nat>): State
    requires IsRun(s, steps)
    decreases |steps|
  {
    if steps == [] then s else After(Step(s, steps[0]), steps[1..])
  }

  ghost predicate Disposals(ds: seq<Disk>) {
    |ds| > 0 && forall i :: 0 <= i < |ds| - 1 ==> Moved(ds[i], ds[i + 1])
  }

  lemma {:induction false} StepsKeep(s: State, steps: seq<nat>, originals: map<Path, string>)
    requires Invariant(s, originals) && IsRun(s, steps)
    ensures Invariant(After(s, steps), originals)
    decreases |steps|
  {
    hide Invariant, Step;
    if steps != [] {
      assert steps[0] < |s.files| && Invariant(Step(s, steps[0]), originals) by {
        StepKeeps(s, steps[0], originals);
      }
      StepsKeep(Step(s, steps[0]), steps[1..], originals);
    }
  }

  lemma {:induction false} DisposalsKeep(ds: seq<Disk>, originals: map<Path, string>)
    requires Disposals(ds) && Safe(ds[0], originals)
    ensures Safe(ds[|ds| - 1], originals)
    decreases |ds|
  {
    hide Safe, Moved;
    if |ds| > 1 {
      var init := ds[..|ds| - 1];
      assert Disposals(init);
      DisposalsKeep(init, originals);
      assert Moved(ds[|ds| - 2], ds[|ds| - 2 + 1]);
      DisposeRestores(init[|init| - 1], ds[|ds| - 1], originals);
    }
  }

  /** A project before the sandbox is filled: nothing is backed up, and no file is touched. */
  ghost predicate Untouched(originals: map<Path, string>, dirs: set<Path>, files: seq<FileState>) {
    && WellFormed(originals, dirs) && [] in dirs
    && (forall f <- files ::
          && f.name in originals && f.phase.Waiting?
          && (f.original.Some? ==> f.original.value == originals[f.name]))
    && forall i, j :: 0 <= i < j < |files| ==> files[i].name != files[j].name
  }

  function NewSandbox(originals: map<Path, string>, dirs: set<Path>, files: seq<FileState>): State {
    State(Disk(originals, dirs, map[], {[]}), files)
  }

  lemma InvariantInitially(originals: map<Path, string>, dirs: set<Path>, files: seq<FileState>)
    requires Untouched(originals, dirs, files)
    ensures Invariant(NewSandbox(originals, dirs, files), originals)
  {
  }

  /** From any state that keeps the invariant. */
  lemma {:induction false} CrashSafeFrom(s: State, steps: seq<nat>, ds: seq<Disk>, last: Disk,
                                         originals: map<Path, string>)
    requires Invariant(s, originals) && IsRun(s, steps)
    requires Disposals(ds) && ds[0] == After(s, steps).disk && MovedAll(ds[|ds| - 1], last)
    ensures last.work == originals
  {
    StepsKeep(s, steps, originals);
    DisposalsKeep(ds, originals);
    DisposeRestores(ds[|ds| - 1], last, originals);
  }

  /** Whenever the run of the sandbox is stopped, and however often the disposal is interrupted, one that
      completes restores the content of every file. */
  lemma {:induction false} InPlaceIsCrashSafe(originals: map<Path, string>, dirs: set<Path>, files: seq<FileState>,
                                              steps: seq<nat>, ds: seq<Disk>, last: Disk)
    requires Untouched(originals, dirs, files)
    requires var s := NewSandbox(originals, dirs, files);
             IsRun(s, steps) && Disposals(ds) && ds[0] == After(s, steps).disk
    requires MovedAll(ds[|ds| - 1], last)
    ensures last.work == originals
  {
    InvariantInitially(originals, dirs, files);
    CrashSafeFrom(NewSandbox(originals, dirs, files), steps, ds, last, originals);
  }

  /** A file that is written only after the backup was moved back loses its original, unless the new
      content is the same. */
  lemma WriteAfterDisposeIff(d: Disk, t: Disk, f: FileState, originals: map<Path, string>)
    requires Safe(d, originals) && Agrees(f, d, originals) && f.phase.BackedUp? && MovedAll(d, t)
    ensures Safe(FileStep(t, f).0, originals) <==> f.current.None? || !HasChanges(f) || f.current.value == originals[f.name]
  {
    DisposeRestores(d, t, originals);
    var u := FileStep(t, f).0;
    assert u.work.Keys == t.work.Keys;
    assert f.name in t.work && f.name in u.work;
  }

  // ----- what the sandbox holds

  /** What the operations on one file have done after `steps` of them; `f` is the file as it was at the start. */
  ghost predicate Progress(f: FileState, steps: nat, g: FileState, d: Disk, originals: map<Path, string>) {
    && g == f.(phase := g.phase) && f.name in originals && f.name in d.work
    && (g.phase.Finished? <==> steps >= if f.current == f.original then 1 else 3)
    && (g.phase.BackedUp? <==> f.current != f.original && steps == 2)
    && (g.phase.DirectoryMade? <==> f.current != f.original && steps == 1)
    && (f.name in d.backup <==> f.current != f.original && steps >= 2)
    && d.work[f.name] == if f.current != f.original && f.current.Some? && steps >= 3 then f.current.value
                         else originals[f.name]
  }

  /** Every file has made its progress, and no other file is touched. */
  ghost predicate Filled(files: seq<FileState>, steps: seq<nat>, s: State, originals: map<Path, string>) {
    && |s.files| == |files|
    && (forall i :: 0 <= i < |files| ==> Progress(files[i], multiset(steps)[i], s.files[i], s.disk, originals))
    && (forall p <- originals :: (forall f <- files :: f.name != p) ==> NotTouched(s.disk, p, originals))
  }

  ghost predicate NotTouched(d: Disk, p: Path, originals: map<Path, string>) {
    p !in d.backup && p in d.work && p in originals && d.work[p] == originals[p]
  }

  lemma FileProgresses(f: FileState, steps: nat, g: FileState, d: Disk, originals: map<Path, string>)
    requires Progress(f, steps, g, d, originals)
    ensures Progress(f, steps + 1, FileStep(d, g).1, FileStep(d, g).0, originals)
  {
  }

  lemma OthersStay(f: FileState, steps: nat, g: FileState, d: Disk, h: FileState, originals: map<Path, string>)
    requires Progress(f, steps, g, d, originals) && h.name in d.work && h.name != f.name
    ensures Progress(f, steps, g, FileStep(d, h).0, originals)
  {
  }

  lemma StepFills(files: seq<FileState>, past: seq<nat>, s: State, i: nat, originals: map<Path, string>)
    requires Filled(files, past, s, originals) && i < |s.files| && s.files[i].name in s.disk.work
    requires forall j, k :: 0 <= j < k < |files| ==> files[j].name != files[k].name
    ensures Filled(files, past + [i], Step(s, i), originals)
  {
    hide FileStep, Progress;
    var t := Step(s, i);
    forall j | 0 <= j < |files|
      ensures Progress(files[j], multiset(past + [i])[j], t.files[j], t.disk, originals)
    {
      SameName(files[i], multiset(past)[i], s.files[i], s.disk, originals);
      if j == i {
        FileProgresses(files[i], multiset(past)[i], s.files[i], s.disk, originals);
      } else {
        OthersStay(files[j], multiset(past)[j], s.files[j], s.disk, s.files[i], originals);
      }
    }
    forall p | p in originals && forall f <- files :: f.name != p
      ensures NotTouched(t.disk, p, originals)
    {
      SameName(files[i], multiset(past)[i], s.files[i], s.disk, originals);
      assert files[i] in files;
      StillNotTouched(s.disk, s.files[i], p, originals);
    }
  }

  lemma SameName(f: FileState, steps: nat, g: FileState, d: Disk, originals: map<Path, string>)
    requires Progress(f, steps, g, d, originals)
    ensures g.name == f.name
  {
  }

  lemma StillNotTouched(d: Disk, f: FileState, p: Path, originals: map<Path, string>)
    requires NotTouched(d, p, originals) && f.name in d.work && f.name != p
    ensures NotTouched(FileStep(d, f).0, p, originals)
  {
  }

  lemma {:induction false} RunFills(files: seq<FileState>, past: seq<nat>, s: State, steps: seq<nat>,
                                    originals: map<Path, string>)
    requires Filled(files, past, s, originals) && IsRun(s, steps)
    requires forall j, k :: 0 <= j < k < |files| ==> files[j].name != files[k].name
    ensures Filled(files, past + steps, After(s, steps), originals)
    decreases |steps|
  {
    hide Filled, Step;
    if steps == [] {
      assert past + steps == past;
    } else {
      StepFills(files, past, s, steps[0], originals);
      RunFills(files, past + [steps[0]], Step(s, steps[0]), steps[1..], originals);
      assert past + [steps[0]] + steps[1..] == past + steps;
    }
  }

  lemma FilledInitially(originals: map<Path, string>, dirs: set<Path>, files: seq<FileState>)
    requires Untouched(originals, dirs, files)
    ensures Filled(files, [], NewSandbox(originals, dirs, files), originals)
    ensures forall j, k :: 0 <= j < k < |files| ==> files[j].name != files[k].name
  {
    assert forall i :: 0 <= i < |files| ==> files[i] in files;
  }

  lemma FinishedHoldsCurrent(files: seq<FileState>, steps: seq<nat>, s: State, i: nat, originals: map<Path, string>)
    requires Filled(files, steps, s, originals) && Invariant(s, originals) && i < |files| && s.files[i].phase.Finished?
    ensures files[i].name in s.disk.work
    ensures files[i].current.Some? ==> s.disk.work[files[i].name] == files[i].current.value
  {
    assert s.files[i] in s.files;
    assert Progress(files[i], multiset(steps)[i], s.files[i], s.disk, originals);
  }

  /** In any interleaving: a file is finished after one operation if its content is not changed and after
      three if it is, and then the working directory holds its current content.  A file that is changed has
      its original in the backup; all other files are neither backed up nor written. */
  lemma {:induction false} SandboxIsFilled(originals: map<Path, string>, dirs: set<Path>, files: seq<FileState>,
                                           steps: seq<nat>)
    requires Untouched(originals, dirs, files) && IsRun(NewSandbox(originals, dirs, files), steps)
    ensures var s := After(NewSandbox(originals, dirs, files), steps);
            && Filled(files, steps, s, originals)
            && (forall p <- s.disk.backup :: p in originals && s.disk.backup[p] == originals[p])
            && (forall i: nat | i < |files| && s.files[i].phase.Finished? && files[i].current.Some? ::
                  files[i].name in s.disk.work && s.disk.work[files[i].name] == files[i].current.value)
  {
    hide Filled, Step, Agrees, WellFormed, Untouched;
    var start := NewSandbox(originals, dirs, files);
    FilledInitially(originals, dirs, files);
    RunFills(files, [], start, steps, originals);
    assert [] + steps == steps;
    InvariantInitially(originals, dirs, files);
    StepsKeep(start, steps, originals);
    var s := After(start, steps);
    assert |s.files| == |files| by {
      AsManyFiles(files, steps, s, originals);
    }
    forall i: nat | i < |files| && s.files[i].phase.Finished?
      ensures files[i].name in s.disk.work
      ensures files[i].current.Some? ==> s.disk.work[files[i].name] == files[i].current.value
    {
      FinishedHoldsCurrent(files, steps, s, i, originals);
    }
  }

  lemma AsManyFiles(files: seq<FileState>, steps: seq<nat>, s: State, originals: map<Path, string>)
    requires Filled(files, steps, s, originals)
    ensures |s.files| == |files|
  {
  }

  // ----- the classes

  /** The file system; the process is interrupted when no operation is left. */
  class FileSystem {
    var work: map<Path, string>
    var workDirs: set<Path>
    var backup: map<Path, string>
    var backupDirs: set<Path>
    var operationsLeft: nat

    ghost function Contents(): Disk
      reads this
    {
      Disk(work, workDirs, backup, backupDirs)
    }

    ghost predicate Valid()
      reads this
    {
      && WellFormed(work, workDirs) && WellFormed(backup, backupDirs)
      && (forall p <- backup :: p !in workDirs)
      && (forall p <- backupDirs :: p !in work)
    }

    /** The names in a directory of the backup. */
    method ReaddirSync(p: Path) returns (names: set<string>)
      ensures forall n :: n in names <==> p + [n] in backup || p + [n] in backupDirs
    {
      names := set q <- backup.Keys + backupDirs | |q| == |p| + 1 && p <= q :: q[|p|];
      forall n
        ensures n in names <==> p + [n] in backup || p + [n] in backupDirs
      {
        assert forall q :: |q| == |p| + 1 && p <= q && q[|p|] == n ==> q == p + [n];
        assert (p + [n])[|p|] == n;
      }
    }

    method MkdirSync(p: Path)
      requires Valid() && operationsLeft > 0 && p in backupDirs && p !in workDirs && (p == [] || Parent(p) in workDirs)
      modifies this
      ensures Valid() && operationsLeft == old(operationsLeft) - 1
      ensures Contents() == old(Contents()).(workDirs := old(workDirs) + {p})
    {
      workDirs := workDirs + {p};
      operationsLeft := operationsLeft - 1;
    }

    method RenameSync(p: Path)
      requires Valid() && operationsLeft > 0 && p in backup && Parent(p) in workDirs
      modifies this
      ensures Valid() && operationsLeft == old(operationsLeft) - 1
      ensures Contents() == old(Contents()).(work := old(work)[p := old(backup)[p]], backup := old(backup) - {p})
    {
      work := work[p := backup[p]];
      backup := backup - {p};
      operationsLeft := operationsLeft - 1;
    }

    /** Only an empty directory can be removed. */
    method RmdirSync(p: Path)
      requires Valid() && operationsLeft > 0 && p in backupDirs
      requires forall q :: q in backup || q in backupDirs ==> q == p || !(p <= q)
      modifies this
      ensures Valid() && operationsLeft == old(operationsLeft) - 1
      ensures Contents() == old(Contents()).(backupDirs := old(backupDirs) - {p})
    {
      backupDirs := backupDirs - {p};
      operationsLeft := operationsLeft - 1;
      forall q | q in backupDirs && q != []
        ensures Parent(q) in backupDirs
      {
        assert Parent(q) <= q;
      }
      assert forall q <- backup :: Parent(q) <= q;
    }
  }

  /** The entries of the backup in or below a directory. */
  ghost function Below(fs: FileSystem, p: Path): set<Path>
    reads fs
  {
    set q | q in fs.backup.Keys + fs.backupDirs && p <= q
  }

  lemma {:induction false} AncestorExists(files: map<Path, string>, dirs: set<Path>, p: Path, q: Path)
    requires WellFormed(files, dirs) && (q in files || q in dirs) && p <= q
    ensures p in files || p in dirs
    ensures p != q ==> p in dirs
    decreases |q|
  {
    if p != q {
      assert p <= Parent(q);
      AncestorExists(files, dirs, p, Parent(q));
    }
  }

  /** `moveDirectoryRecursiveSync`: false when it is interrupted, which it is only when no operation is left.
      Every operation does some of the work. */
  method MoveDirectoryRecursiveSync(fs: FileSystem, p: Path) returns (completed: bool)
    requires fs.Valid() && p !in fs.backup && (p == [] || Parent(p) in fs.workDirs)
    modifies fs
    ensures fs.Valid() && Moved(old(fs.Contents()), fs.Contents())
    ensures old(fs.backup.Keys + fs.backupDirs) - old(Below(fs, p)) <= fs.backup.Keys + fs.backupDirs
    ensures completed ==> Below(fs, p) == {}
    ensures !completed ==> fs.operationsLeft == 0 && p in fs.backupDirs
    ensures fs.operationsLeft - Work(fs.Contents()) == old(fs.operationsLeft - Work(fs.Contents()))
    decreases Below(fs, p)
  {
    MovedNothing(fs.Contents());
    if p !in fs.backupDirs {
      forall q | q in fs.backup.Keys + fs.backupDirs
        ensures !(p <= q)
      {
        if p <= q {
          AncestorExists(fs.backup, fs.backupDirs, p, q);
        }
      }
      return true;
    }
    if p !in fs.workDirs {
      if fs.operationsLeft == 0 {
        return false;
      }
      MkdirWork(fs.Contents(), p);
      fs.MkdirSync(p);
    }
    completed := MoveEntries(fs, p);
    if completed {
      if fs.operationsLeft == 0 {
        return false;
      }
      assert forall q :: (q in fs.backup || q in fs.backupDirs) && p <= q ==> q in Below(fs, p);
      RmdirWork(fs.Contents(), p);
      fs.RmdirSync(p);
    }
  }

  /** Everything below a directory is below one of its entries. */
  ghost predicate Remaining(fs: FileSystem, p: Path, todo: set<string>)
    reads fs
  {
    forall r <- Below(fs, p) :: r == p || (|r| > |p| && r[|p|] in todo)
  }

  lemma AllRemain(fs: FileSystem, p: Path, names: set<string>)
    requires fs.Valid() && forall n :: n in names <==> p + [n] in fs.backup || p + [n] in fs.backupDirs
    ensures Remaining(fs, p, names)
  {
    forall r | r in Below(fs, p) && r != p
      ensures |r| > |p| && r[|p|] in names
    {
      assert r[..|p| + 1] == p + [r[|p|]];
      AncestorExists(fs.backup, fs.backupDirs, p + [r[|p|]], r);
    }
  }

  lemma EntryDone(fs: FileSystem, p: Path, todo: set<string>, name: string)
    requires fs.Valid() && Remaining(fs, p, todo) && Below(fs, p + [name]) == {}
    ensures Remaining(fs, p, todo - {name})
  {
    forall r | r in Below(fs, p) && r != p
      ensures r[|p|] != name
    {
      BelowEntry(fs, p, r);
    }
  }

  lemma BelowEntry(fs: FileSystem, p: Path, r: Path)
    requires r in Below(fs, p) && |r| > |p|
    ensures r in Below(fs, p + [r[|p|]])
  {
    assert r[..|p| + 1] == p + [r[|p|]];
  }

  lemma MovedDirs(d: Disk, t: Disk)
    requires Moved(d, t)
    ensures d.workDirs <= t.workDirs && t.backupDirs <= d.backupDirs && t.backup.Keys <= d.backup.Keys
  {
  }

  lemma RenameMoves(a: Disk, d: Disk, q: Path)
    requires Moved(a, d) && q in d.backup
    ensures var t := d.(work := d.work[q := d.backup[q]], backup := d.backup - {q});
            WellFormed(t.work, t.workDirs) && WellFormed(t.backup, t.backupDirs) ==> Moved(a, t)
  {
    var t := d.(work := d.work[q := d.backup[q]], backup := d.backup - {q});
    assert t.work.Keys == a.work.Keys + (a.backup.Keys - t.backup.Keys);
  }

  lemma NothingBelowFile(fs: FileSystem, q: Path)
    requires fs.Valid() && q !in fs.backup && q !in fs.backupDirs
    ensures Below(fs, q) == {}
  {
    forall r | r in Below(fs, q)
      ensures false
    {
      AncestorExists(fs.backup, fs.backupDirs, q, r);
    }
  }

  /** The loop over the entries of one directory. */
  method MoveEntries(fs: FileSystem, p: Path) returns (completed: bool)
    requires fs.Valid() && p in fs.backupDirs && p !in fs.backup && p in fs.workDirs
    modifies fs
    ensures fs.Valid() && Moved(old(fs.Contents()), fs.Contents())
    ensures p in fs.backupDirs && p in fs.workDirs
    ensures old(fs.backup.Keys + fs.backupDirs) - old(Below(fs, p)) <= fs.backup.Keys + fs.backupDirs
    ensures completed ==> Below(fs, p) == {p}
    ensures !completed ==> fs.operationsLeft == 0
    ensures fs.operationsLeft - Work(fs.Contents()) == old(fs.operationsLeft - Work(fs.Contents()))
    decreases Below(fs, p), 0
  {
    hide Moved, WellFormed, Work;
    MovedNothing(fs.Contents());
    var todo := fs.ReaddirSync(p);
    AllRemain(fs, p, todo);
    while todo != {}
      invariant Remaining(fs, p, todo) && Below(fs, p) <= old(Below(fs, p))
      invariant fs.Valid() && Moved(old(fs.Contents()), fs.Contents())
      invariant p in fs.backupDirs && p !in fs.backup && p in fs.workDirs
      invariant fs.operationsLeft - Work(fs.Contents()) == old(fs.operationsLeft - Work(fs.Contents()))
      invariant old(fs.backup.Keys + fs.backupDirs) - old(Below(fs, p)) <= fs.backup.Keys + fs.backupDirs
      decreases |todo|
    {
      var name :| name in todo;
      var q := p + [name];
      ghost var before := fs.Contents();
      if q in fs.backup {
        if fs.operationsLeft == 0 {
          return false;
        }
        RenameWork(fs.Contents(), q);
        fs.RenameSync(q);
        RenameMoves(old(fs.Contents()), before, q);
        NothingBelowFile(fs, q);
      } else {
        assert p in old(Below(fs, p)) && p !in Below(fs, q) && Below(fs, q) <= Below(fs, p);
        var moved := MoveDirectoryRecursiveSync(fs, q);
        MovedMore(old(fs.Contents()), before, fs.Contents());
        MovedDirs(before, fs.Contents());
        assert p in fs.backup.Keys + fs.backupDirs;
        if !moved {
          return false;
        }
      }
      EntryDone(fs, p, todo, name);
      todo := todo - {name};
    }
    completed := true;
  }

  class ProjectFile {
    const name: Path
    var currentContent: Option<string>
    var originalContent: Option<string>

    ghost function State(phase: Phase): FileState
      reads this
    {
      FileState(name, currentContent, originalContent, phase)
    }

    constructor (name: Path)
      ensures this.name == name && currentContent == None && originalContent == None
    {
      this.name := name;
      currentContent, originalContent := None, None;
    }

    method SetContent(content: string)
      modifies this
      ensures currentContent == Some(content) && originalContent == old(originalContent)
    {
      currentContent := Some(content);
    }

    /** None when the file cannot be read. */
    method ReadOriginal(fs: FileSystem) returns (content: Option<string>)
      modifies this
      ensures content.None? <==> old(originalContent).None? && name !in fs.work
      ensures originalContent == content
      ensures content.Some? ==> content.value == if old(originalContent).Some? then old(originalContent).value else fs.work[name]
      ensures currentContent == if old(currentContent).None?
              && old(originalContent).None? then content else old(currentContent)
    {
      if originalContent.None? && name in fs.work {
        originalContent := Some(fs.work[name]);
        if currentContent.None? {
          currentContent := originalContent;
        }
      }
      content := originalContent;
    }

    method ReadContent(fs: FileSystem) returns (content: Option<string>)
      modifies this
      ensures content == currentContent
      ensures old(currentContent).Some? ==> currentContent == old(currentContent) && originalContent == old(originalContent)
      ensures old(currentContent).None? && old(originalContent).None? ==>
                currentContent == originalContent && (content.Some? <==> name in fs.work)
    {
      if currentContent.None? {
        currentContent := ReadOriginal(fs);
      }
      content := currentContent;
    }

    method MakeBackupDirectory(fs: FileSystem)
      modifies fs
      ensures fs.Contents() == MakeDirectory(old(fs.Contents()), State(DirectoryMade))
              && fs.operationsLeft == old(fs.operationsLeft)
    {
      if name != [] {
        fs.backupDirs := fs.backupDirs + Prefixes(Parent(name));
      }
    }

    method BackupTo(fs: FileSystem)
      requires name in fs.work
      modifies fs
      ensures fs.Contents() == StoreBackup(old(fs.Contents()), State(DirectoryMade))
              && fs.operationsLeft == old(fs.operationsLeft)
    {
      if originalContent.None? {
        fs.backup := fs.backup[name := fs.work[name]];
      } else {
        fs.backup := fs.backup[name := originalContent.value];
      }
    }

    method WriteToDisk(fs: FileSystem)
      modifies fs
      ensures fs.Contents() == WriteInPlace(old(fs.Contents()), State(BackedUp))
              && fs.operationsLeft == old(fs.operationsLeft)
    {
      if currentContent.Some? && currentContent != originalContent {
        fs.work := fs.work[name := currentContent.value];
      }
    }
  }

  lemma NoDirectoryMissing(d: Disk)
    requires d.backupDirs <= d.workDirs
    ensures Work(d) == |d.backup.Keys| + |d.backupDirs|
  {
    assert d.backupDirs - d.workDirs == {};
  }

  class InPlaceSandbox {
    const fs: FileSystem
    const files: seq<ProjectFile>
    var phases: seq<Phase>

    ghost predicate Valid()
      reads this
    {
      && |phases| == |files|
      && forall i, j :: 0 <= i < j < |files| ==> files[i] != files[j]
    }

    ghost function Contents(): State
      requires Valid()
      reads this, fs, files
    {
      State(fs.Contents(), seq(|files|, i requires 0 <= i < |files| && Valid() reads this, files => files[i].State(phases[i])))
    }

    constructor (fs: FileSystem, files: seq<ProjectFile>)
      requires forall i, j :: 0 <= i < j < |files| ==> files[i] != files[j]
      ensures this.fs == fs && this.files == files && Valid() && phases == seq(|files|, i => Waiting)
    {
      this.fs, this.files := fs, files;
      phases := seq(|files|, i => Waiting);
    }

    /** The next atomic operation of `sandboxFile` for one of the files. */
    method SandboxFile(i: nat)
      requires Valid() && i < |files| && files[i].name in fs.work
      modifies this, fs
      ensures Valid() && Contents() == Step(old(Contents()), i)
      ensures old(phases[i]).Waiting? ==> fs.work == old(fs.work) && fs.backup == old(fs.backup)
      ensures old(phases[i]).Waiting? ==>
                (phases[i].Finished? <==> files[i].currentContent == files[i].originalContent)
      ensures old(phases[i]).Waiting? && !phases[i].Finished? ==> phases[i].DirectoryMade?
      ensures old(phases[i]).DirectoryMade? ==> phases[i].BackedUp? && fs.work == old(fs.work)
      ensures old(phases[i]).DirectoryMade? ==> fs.backup == old(fs.backup)[files[i].name :=
                if files[i].originalContent.Some? then files[i].originalContent.value else fs.work[files[i].name]]
      ensures old(phases[i]).BackedUp? ==> phases[i].Finished? && fs.backup == old(fs.backup)
      ensures old(phases[i]).BackedUp? && files[i].currentContent.Some?
              && files[i].currentContent != files[i].originalContent ==>
                fs.work == old(fs.work)[files[i].name := files[i].currentContent.value]
    {
      var file := files[i];
      match phases[i] {
        case Waiting =>
          if file.currentContent != file.originalContent {
            file.MakeBackupDirectory(fs);
            phases := phases[i := DirectoryMade];
          } else {
            phases := phases[i := Finished];
          }
        case DirectoryMade =>
          file.BackupTo(fs);
          phases := phases[i := BackedUp];
        case BackedUp =>
          file.WriteToDisk(fs);
          phases := phases[i := Finished];
        case Finished =>
      }
    }

    /** False when it is interrupted; a later call goes on where it stopped.  It completes exactly if there
        are enough operations for all files and directories of the backup. */
    method Dispose(ghost originals: map<Path, string>) returns (completed: bool)
      requires Valid() && Safe(fs.Contents(), originals) && [] in fs.workDirs
      modifies fs
      ensures Safe(fs.Contents(), originals) && [] in fs.workDirs
      ensures Moved(old(fs.Contents()), fs.Contents())
      ensures completed ==> MovedAll(old(fs.Contents()), fs.Contents()) && fs.work == originals
      ensures completed <==> old(fs.operationsLeft) >= old(|fs.backup.Keys| + |fs.backupDirs|)
      ensures fs.operationsLeft == 0 || completed
    {
      NoDirectoryMissing(fs.Contents());
      completed := MoveDirectoryRecursiveSync(fs, []);
      if completed {
        assert forall q <- fs.backup :: q in Below(fs, []);
        assert forall q <- fs.backupDirs :: q in Below(fs, []);
      }
      DisposeRestores(old(fs.Contents()), fs.Contents(), originals);
    }
  }
}
