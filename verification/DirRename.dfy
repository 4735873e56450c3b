/** renameDirRobust (ops_rename.go): a rename retried up to eight times, then copy, verify and
    delete up to three times. Every call into the operating system may fail, as a schedule says, and
    a failing removal or copy may have done part of its work. */
module DirRenaming {
  import opened Options

  const MAX_RENAMES: nat := 8
  const MAX_COPIES: nat := 3
  const MAX_FILE_COPIES: nat := 3

  /** The regular files under a directory: relative path to content. */
  type Files = map<string, string>

  datatype Dirs = Dirs(source: Option<Files>, target: Option<Files>)

  datatype RenameOutcome = Moved | Transient | Permanent

  datatype VerifyError = WalkFailed | TooFew(source: nat, target: nat)

  datatype CopyError = CopyFailed | NotVerified(error: VerifyError)

  /** What happens to one attempt at copying a file. */
  datatype FileOutcome = Copied | CannotCreate | CutShort(written: nat) | NotSynced

  /** How the operating system behaves: per rename attempt, per round of the copy, per file and attempt. */
  datatype Schedule = Schedule(
    rename: nat -> RenameOutcome,
    mkdirs: nat -> bool,
    walks: (nat, string) -> bool,
    copies: (nat, string, nat) -> FileOutcome,
    counts: nat -> bool,
    clears: (nat, string) -> bool,
    removes: string -> bool)

  /** How a call ended: one of the renames worked, a copy was verified (and the old directory removed,
      or not), or neither. */
  datatype Route = ByRename | ByCopy(copies: nat, removed: bool) | NotRenamed

  ghost predicate Covers(files: Files, t: Option<Files>) {
    t.Some? && forall p :: p in files ==> p in t.value && t.value[p] == files[p]
  }

  /** Nothing is lost: one of the directories holds every file. */
  ghost predicate Complete(files: Files, d: Dirs) {
    d.source == Some(files) || Covers(files, d.target)
  }

  ghost predicate AlwaysComplete(files: Files, seen: seq<Dirs>) {
    forall i :: 0 <= i < |seen| ==> Complete(files, seen[i])
  }

  function Paths(t: Option<Files>): set<string> {
    if t.Some? then t.value.Keys else {}
  }

  // ---- what a schedule amounts to ----

  /** Attempt i of the renames is reached and works; a directory with files in the way never lets it. */
  predicate MovesAt(s: Schedule, free: bool, i: nat) {
    free && s.rename(i) == Moved && forall j :: 0 <= j < i ==> s.rename(j) == Transient
  }

  predicate RenameWorks(s: Schedule, free: bool) {
    exists i :: 0 <= i < MAX_RENAMES && MovesAt(s, free, i)
  }

  predicate FileCopies(s: Schedule, round: nat, p: string) {
    s.walks(round, p) && exists a :: 0 <= a < MAX_FILE_COPIES && s.copies(round, p, a) == Copied
  }

  /** Every one of these paths can be cleared away before the round. */
  ghost predicate Clears(s: Schedule, round: nat, paths: set<string>) {
    forall p :: p in paths ==> s.clears(round, p)
  }

  lemma ClearsPart(s: Schedule, round: nat, paths: set<string>)
    ensures Clears(s, round, paths) ==> forall part: set<string> :: part <= paths ==> Clears(s, round, part)
  {
  }

  ghost predicate RoundCopies(s: Schedule, round: nat, files: Files) {
    s.mkdirs(round) && forall p :: p in files ==> FileCopies(s, round, p)
  }

  ghost predicate RoundWorks(s: Schedule, round: nat, files: Files) {
    RoundCopies(s, round, files) && s.counts(round)
  }

  /** A target holding the files and no other path is the original directory. */
  lemma CoversExactly(files: Files, t: Option<Files>)
    requires Covers(files, t) && Paths(t) <= files.Keys
    ensures t == Some(files)
  {
    assert t.value.Keys == files.Keys;
    assert t.value == files;
  }

  /** Counting is enough after a copy that reported no error: it cannot come out too low. */
  lemma CoversCounts(files: Files, t: Files)
    requires Covers(files, Some(t))
    ensures |files| <= |t|
  {
    Larger(files.Keys, t.Keys);
  }

  lemma {:induction false} Larger(a: set<string>, b: set<string>)
    requires a <= b
    ensures |a| <= |b|
  {
    if x :| x in a {
      Larger(a - {x}, b - {x});
    }
  }

  lemma HeldByTarget(files: Files, t: Option<Files>)
    requires t == Some(files)
    ensures Covers(files, t)
  {
  }

  /** The two directories as the operating system sees them. */
  class Disk {
    const schedule: Schedule
    var source: Option<Files>
    var target: Option<Files>
    ghost var seen: seq<Dirs>                     // the states after every system call

    constructor (schedule: Schedule, source: Option<Files>, target: Option<Files>)
      ensures this.schedule == schedule && this.source == source && this.target == target && seen == []
    {
      this.schedule, this.source, this.target, seen := schedule, source, target, [];
    }

    ghost method See()
      modifies this`seen
      ensures seen == old(seen) + [Dirs(source, target)]
    {
      seen := seen + [Dirs(source, target)];
    }

    /** A rename moves everything or nothing, and replaces no directory that holds files. */
    method Rename(attempt: nat) returns (outcome: RenameOutcome)
      requires source.Some?
      modifies this
      ensures outcome == if schedule.rename(attempt) == Moved && Paths(old(target)) != {} then Permanent else schedule.rename(attempt)
      ensures outcome == Moved ==> target == old(source) && source == None
      ensures outcome != Moved ==> source == old(source) && target == old(target)
      ensures seen == old(seen) + [Dirs(source, target)]
    {
      outcome := schedule.rename(attempt);
      if outcome == Moved {
        if target == None || target == Some(map[]) {
          source, target := None, source;
        } else {
          outcome := Permanent;
        }
      }
      See();
    }

    /** Removes file by file, in any order, and stops at the first that cannot be removed. */
    method RemoveTarget(round: nat, ghost files: Files) returns (ok: bool)
      requires source == Some(files) && AlwaysComplete(files, seen)
      modifies this`target, this`seen
      ensures AlwaysComplete(files, seen)
      ensures ok <==> target == None
      ensures ok <==> Clears(schedule, round, Paths(old(target)))
      ensures Paths(target) <= Paths(old(target))
    {
      if target == None {
        return true;
      }
      var left := target.value.Keys;
      while left != {}
        invariant target.Some? && target.value.Keys == left <= Paths(old(target))
        invariant AlwaysComplete(files, seen)
        invariant forall p :: p in Paths(old(target)) && p !in left ==> schedule.clears(round, p)
      {
        var p :| p in left;
        if !schedule.clears(round, p) {
          return false;
        }
        target := Some(target.value - {p});
        left := left - {p};
        See();
      }
      target := None;
      See();
      return true;
    }

    method RemoveSource(ghost files: Files) returns (ok: bool)
      requires source == Some(files) && Covers(files, target) && AlwaysComplete(files, seen)
      modifies this`source, this`seen
      ensures AlwaysComplete(files, seen)
      ensures ok <==> source == None
      ensures ok <==> forall p :: p in files ==> schedule.removes(p)
      ensures Paths(source) <= files.Keys
    {
      var left := source.value.Keys;
      while left != {}
        invariant source.Some? && source.value.Keys == left <= files.Keys
        invariant AlwaysComplete(files, seen)
        invariant forall p :: p in files && p !in left ==> schedule.removes(p)
      {
        var p :| p in left;
        if !schedule.removes(p) {
          return false;
        }
        source := Some(source.value - {p});
        left := left - {p};
        See();
      }
      source := None;
      See();
      return true;
    }

    /** copyFileWithRetry: create or truncate, write some of the content, sync. */
    method CopyFile(round: nat, p: string, attempt: nat, ghost files: Files) returns (ok: bool)
      requires source == Some(files) && AlwaysComplete(files, seen)
      requires p in files && target.Some?
      modifies this`target, this`seen
      ensures AlwaysComplete(files, seen) && target.Some?
      ensures ok <==> schedule.copies(round, p, attempt) == Copied
      ensures ok ==> target == Some(old(target).value[p := files[p]])
      ensures !ok ==> target == old(target) || exists k: nat :: k <= |files[p]| && target == Some(old(target).value[p := files[p][..k]])
    {
      var outcome := schedule.copies(round, p, attempt);
      if outcome == CannotCreate {
        return false;
      }
      ghost var before := target.value;
      var content := source.value[p];
      target := Some(target.value[p := content[..0]]);
      See();
      if outcome.CutShort? && outcome.written < |content| {
        target := Some(target.value[p := content[..outcome.written]]);
        See();
        assert target.value == before[p := content[..outcome.written]];
        return false;
      }
      assert content[..|content|] == content;
      target := Some(target.value[p := content]);
      See();
      assert target.value == before[p := content[..|content|]];
      return outcome == Copied;
    }

    /** Up to three attempts at one file. */
    method CopyWithRetries(round: nat, p: string, ghost files: Files) returns (ok: bool)
      requires source == Some(files) && AlwaysComplete(files, seen)
      requires p in files && target.Some?
      modifies this`target, this`seen
      ensures AlwaysComplete(files, seen) && target.Some?
      ensures ok <==> exists a :: 0 <= a < MAX_FILE_COPIES && schedule.copies(round, p, a) == Copied
      ensures ok ==> p in target.value && target.value[p] == files[p]
      ensures Paths(target) <= Paths(old(target)) + {p}
      ensures forall q :: q != p && q in old(target).value ==> q in target.value && target.value[q] == old(target).value[q]
    {
      var attempt := 0;
      while attempt < MAX_FILE_COPIES
        invariant target.Some? && AlwaysComplete(files, seen)
        invariant forall a :: 0 <= a < attempt ==> schedule.copies(round, p, a) != Copied
        invariant Paths(target) <= Paths(old(target)) + {p}
        invariant forall q :: q != p && q in old(target).value ==> q in target.value && target.value[q] == old(target).value[q]
      {
        ok := CopyFile(round, p, attempt, files);
        if ok { return; }
        attempt := attempt + 1;
      }
      return false;
    }

    /** copyDatabaseFilesComplete: the first file that cannot be walked to or copied ends the walk. */
    method CopyFiles(round: nat, ghost files: Files) returns (ok: bool)
      requires source == Some(files) && AlwaysComplete(files, seen)
      modifies this`target, this`seen
      ensures AlwaysComplete(files, seen)
      ensures ok <==> RoundCopies(schedule, round, files)
      ensures ok ==> Covers(files, target)
      ensures Paths(target) <= Paths(old(target)) + files.Keys
    {
      if !schedule.mkdirs(round) {
        return false;
      }
      if target == None {
        target := Some(map[]);
        See();
      }
      var left := source.value.Keys;
      while left != {}
        invariant left <= files.Keys && target.Some? && AlwaysComplete(files, seen)
        invariant forall p :: p in files && p !in left ==> p in target.value && target.value[p] == files[p] && FileCopies(schedule, round, p)
        invariant Paths(target) <= Paths(old(target)) + files.Keys
      {
        var p :| p in left;
        if !schedule.walks(round, p) {
          assert !FileCopies(schedule, round, p);
          return false;
        }
        var copied := CopyWithRetries(round, p, files);
        if !copied {
          assert !FileCopies(schedule, round, p);
          return false;
        }
        left := left - {p};
      }
      return true;
    }

    /** verifyDirCopy: compares the numbers of files; either count may fail. */
    method VerifyCopy(round: nat) returns (err: Option<VerifyError>)
      requires source.Some?
      ensures err == Some(WalkFailed) <==> !schedule.counts(round) || target == None
      ensures err == None ==> target.Some? && |source.value| <= |target.value|
      ensures err.Some? && err.value.TooFew? ==> target.Some? && |target.value| < |source.value|
    {
      if !schedule.counts(round) || target == None {
        return Some(WalkFailed);
      }
      if |target.value| < |source.value| {
        return Some(TooFew(|source.value|, |target.value|));
      }
      return None;
    }

    /** All attempts but the last fail transiently, and only eight of those end the retries. */
    method RenameWithRetries(ghost files: Files) returns (moved: bool)
      requires source == Some(files) && seen == []
      modifies this
      ensures AlwaysComplete(files, seen)
      ensures moved <==> RenameWorks(schedule, Paths(old(target)) == {})
      ensures moved ==> source == None && target == Some(files)
      ensures !moved ==> source == Some(files) && target == old(target)
    {
      ghost var free := Paths(target) == {};
      var attempt := 0;
      while attempt < MAX_RENAMES
        invariant attempt <= MAX_RENAMES && free == (Paths(target) == {})
        invariant source == Some(files) && target == old(target) && AlwaysComplete(files, seen)
        invariant forall i :: 0 <= i < attempt ==> schedule.rename(i) == Transient
      {
        var outcome := Rename(attempt);
        if outcome == Moved {
          assert MovesAt(schedule, free, attempt);
          return true;
        }
        if outcome != Transient {
          assert forall i :: 0 <= i < MAX_RENAMES && MovesAt(schedule, free, i) ==> i == attempt;
          return false;
        }
        attempt := attempt + 1;
      }
      return false;
    }

    /** One round of the fallback. It fails by an error of the system alone: after a copy without one the
        numbers of files never disagree. */
    method CopyAndVerify(round: nat, ghost files: Files) returns (failure: Option<CopyError>)
      requires source == Some(files) && AlwaysComplete(files, seen)
      modifies this`target, this`seen
      ensures AlwaysComplete(files, seen)
      ensures failure == None ==> Covers(files, target)
      ensures failure == None <==> RoundWorks(schedule, round, files)
      ensures failure.Some? ==> failure == Some(CopyFailed) || failure == Some(NotVerified(WalkFailed))
      ensures Paths(target) <= Paths(old(target)) + files.Keys
    {
      hide AlwaysComplete, RoundCopies;
      var copied := CopyFiles(round, files);
      if !copied {
        return Some(CopyFailed);
      }
      var err := VerifyCopy(round);
      CoversCounts(files, target.value);
      return if err == None then None else Some(NotVerified(err.value));
    }

    /** renameDirRobust, from the first rename on. */
    method RenameDirRobust(ghost files: Files) returns (ok: bool, route: Route)
      requires source == Some(files) && seen == []
      modifies this
      // at every moment one of the directories held all the files
      ensures AlwaysComplete(files, seen)
      // success: the new directory holds all of them, and whatever it held besides was there before
      ensures ok ==> Covers(files, target) && Paths(target) <= Paths(old(target)) + files.Keys
      ensures ok && Paths(old(target)) == {} ==> target == Some(files)
      // error: the old directory is untouched
      ensures !ok ==> source == Some(files) && Paths(target) <= Paths(old(target)) + files.Keys
      // what a failed round left is cleared before the next, and after the last, as far as it can be
      ensures route.ByCopy? && route.copies >= 2 && Clears(schedule, route.copies - 1, Paths(old(target)) + files.Keys) ==> target == Some(files)
      ensures !ok && Clears(schedule, MAX_COPIES, Paths(old(target)) + files.Keys) ==> target == None
      // it succeeds exactly when one of eight renames or one of three rounds of the copy works
      ensures route == ByRename <==> RenameWorks(schedule, Paths(old(target)) == {})
      ensures ok <==> RenameWorks(schedule, Paths(old(target)) == {}) || SomeRoundWorks(files, MAX_COPIES)
      ensures ok <==> route != NotRenamed
      ensures route.ByCopy? ==> 1 <= route.copies <= MAX_COPIES && RoundWorks(schedule, route.copies - 1, files) &&
                                !SomeRoundWorks(files, route.copies - 1)
      // and after a success the old directory is gone exactly when a rename worked or every file of it could be removed
      ensures ok ==> (source == None <==> route == ByRename || route.removed)
      ensures route.ByCopy? ==> (route.removed <==> forall p :: p in files ==> schedule.removes(p))
      ensures Paths(source) <= files.Keys
    {
      hide Covers, AlwaysComplete, RenameWorks, RoundWorks, Clears, Disk.SomeRoundWorks;
      NoRounds(files);
      var moved := RenameWithRetries(files);
      if moved {
        HeldByTarget(files, target);
        return true, ByRename;
      }
      var round := 0;
      while round < MAX_COPIES
        invariant round <= MAX_COPIES && source == Some(files) && AlwaysComplete(files, seen)
        invariant Paths(target) <= Paths(old(target)) + files.Keys && !SomeRoundWorks(files, round)
      {
        if round > 0 {
          var ignored := RemoveTarget(round, files);
          ClearsPart(schedule, round, Paths(old(target)) + files.Keys);
        }
        ghost var clean := target == None;
        var failure := CopyAndVerify(round, files);
        OneMoreRound(files, round);
        if failure == None {
          if Paths(old(target)) == {} || clean {
            CoversExactly(files, target);
          }
          MoreRounds(files, round + 1, MAX_COPIES);
          var removed := RemoveSource(files);
          return true, ByCopy(round + 1, removed);
        }
        round := round + 1;
      }
      var ignored := RemoveTarget(round, files);
      ClearsPart(schedule, round, Paths(old(target)) + files.Keys);
      return false, NotRenamed;
    }

    lemma NoRounds(files: Files)
      ensures !SomeRoundWorks(files, 0)
    {
    }

    lemma OneMoreRound(files: Files, rounds: nat)
      ensures SomeRoundWorks(files, rounds + 1) <==> SomeRoundWorks(files, rounds) || RoundWorks(schedule, rounds, files)
    {
      hide RoundWorks;
    }

    lemma MoreRounds(files: Files, few: nat, many: nat)
      requires few <= many && SomeRoundWorks(files, few)
      ensures SomeRoundWorks(files, many)
    {
      hide RoundWorks;
    }

    ghost predicate SomeRoundWorks(files: Files, rounds: nat) {
      exists r :: 0 <= r < rounds && RoundWorks(schedule, r, files)
    }

    /** RENAME DATABASE: a new name that exists is refused, so that an error leaves the database as it
        was and success gives the new name exactly its files. The old name is then gone exactly when a
        rename worked or the old directory could be removed. */
    method RenameDB() returns (r: Result<Route, RenameError>)
      requires seen == []
      modifies this
      ensures old(source) == None <==> r == Err(NotFound)
      ensures old(source).Some? && old(target).Some? <==> r == Err(AlreadyExists)
      ensures r.Err? ==> source == old(source)
      ensures r == Err(Failed) ==> Paths(target) <= Paths(source)
      ensures r == Err(Failed) && Clears(schedule, MAX_COPIES, Paths(source)) ==> target == None
      ensures r.Ok? ==> target == old(source) && Paths(source) <= Paths(target)
      ensures r.Ok? ==> (source == None <==> r.value == ByRename || (r.value.ByCopy? && r.value.removed))
      ensures old(source).Some? && old(target) == None ==>
                (r.Ok? <==> RenameWorks(schedule, true) || SomeRoundWorks(old(source).value, MAX_COPIES))
      ensures r.Ok? && r.value.ByCopy? ==> (r.value.removed <==> forall p :: p in old(source).value ==> schedule.removes(p))
      ensures r.Ok? ==> (r.value == ByRename <==> RenameWorks(schedule, true))
      ensures r.Ok? || r == Err(Failed) ==> AlwaysComplete(old(source).value, seen)
    {
      hide Covers, AlwaysComplete, RenameWorks, RoundWorks;
      if source == None {
        return Err(NotFound);
      }
      if target.Some? {
        return Err(AlreadyExists);
      }
      var ok, route := RenameDirRobust(source.value);
      return if ok then Ok(route) else Err(Failed);
    }
  }

  datatype RenameError = NotFound | AlreadyExists | Failed

  /** No rename works, every copy does, and no file can be removed. */
  function NothingRemovable(): Schedule {
    Schedule(i => Permanent, r => true, (r, p) => true, (r, p, a) => Copied, r => true, (r, p) => true, p => false)
  }

  /** A rename reported as done with all files left under the old name as well. */
  method OldDirectoryStays(files: Files) returns (disk: Disk, r: Result<Route, RenameError>)
    requires files != map[]
    ensures fresh(disk) && r.Ok? && disk.target == Some(files) && disk.source.Some?
  {
    disk := new Disk(NothingRemovable(), Some(files), None);
    assert RoundWorks(disk.schedule, 0, files) by { CopiesAtOnce(files); }
    assert !RenameWorks(disk.schedule, true);
    assert disk.SomeRoundWorks(files, MAX_COPIES);
    hide RoundWorks, RenameWorks;
    r := disk.RenameDB();
    var p :| p in files;
    assert !disk.schedule.removes(p);
  }

  lemma CopiesAtOnce(files: Files)
    ensures RoundWorks(NothingRemovable(), 0, files)
  {
    forall p | p in files ensures FileCopies(NothingRemovable(), 0, p) {
      assert NothingRemovable().copies(0, p, 0) == Copied;
    }
  }
}
