/**
 * organize_by_type and organize_by_date: every yielded file is moved to
 * folder/<key>/<base name>, unless it already is there.
 */
module Organize {
  import opened Paths
  import opened Classify
  import opened Enumeration
  import opened Fs

  /**
   * How the subfolder is chosen: the key of each file, and whether computing it
   * stats the file (os.path.getmtime raises for a missing file).
   */
  datatype Classifier = Classifier(key: Path -> string, stats: bool)

  /** organize_by_type: the extension key, computed from the name alone. */
  function ByType(): Classifier
  {
    Classifier(TypeKey, false)
  }

  /** organize_by_date: the YYYY-MM of the month `modified` gives for the file. */
  function ByDate(modified: Path -> YearMonth): Classifier
  {
    Classifier(p => DateKey(modified(p)), true)
  }

  function TargetDir(folder: Path, c: Classifier, p: Path): Path
  {
    Join(folder, c.key(p))
  }

  function Target(folder: Path, c: Classifier, p: Path): Path
  {
    Join(TargetDir(folder, c, p), Basename(p))
  }

  /** The moves the source intends for a file list: one per file not already at its target, in order. */
  function Plan(folder: Path, c: Classifier, paths: seq<Path>): seq<Action>
  {
    if paths == [] then []
    else
      var p := paths[|paths| - 1];
      var t := Target(folder, c, p);
      Plan(folder, c, paths[..|paths| - 1]) + (if p == t then [] else [Move(p, t)])
  }

  /** One iteration of the loop body for file p. */
  function Step(s: FsState, folder: Path, c: Classifier, p: Path, dryRun: bool): Run
  {
    if c.stats && !s.Exists(p) then Run(s, [], Raised(FileNotFound(p)))
    else
      var made := s.MakeDirs(TargetDir(folder, c, p));
      var target := Target(folder, c, p);
      if made.outcome.Raised? then Run(made.fs, [], made.outcome)
      else if p == target then Run(made.fs, [], Done)
      else if dryRun then Run(made.fs, [Move(p, target)], Done)
      else
        var moved := made.fs.Move(p, target);
        Run(moved.fs, [Move(p, target)], moved.outcome)
  }

  /** The whole loop over paths from s0; an exception ends it where it was raised. */
  function Organized(s0: FsState, folder: Path, c: Classifier, paths: seq<Path>, dryRun: bool): Run
  {
    if paths == [] then Run(s0, [], Done)
    else
      var prev := Organized(s0, folder, c, paths[..|paths| - 1], dryRun);
      if prev.outcome.Raised? then prev
      else
        var step := Step(prev.fs, folder, c, paths[|paths| - 1], dryRun);
        Run(step.fs, prev.log + step.log, step.outcome)
  }

  /** Once a prefix of the loop has raised, the rest of the list changes nothing. */
  lemma {:induction false} RaisedStops(s0: FsState, folder: Path, c: Classifier, paths: seq<Path>, dryRun: bool, n: nat)
    requires n <= |paths|
    requires Organized(s0, folder, c, paths[..n], dryRun).outcome.Raised?
    ensures Organized(s0, folder, c, paths, dryRun) == Organized(s0, folder, c, paths[..n], dryRun)
    decreases |paths| - n
  {
    if n < |paths| {
      assert paths[..n + 1][..n] == paths[..n];
      RaisedStops(s0, folder, c, paths, dryRun, n + 1);
    } else {
      assert paths[..n] == paths;
    }
  }

  /** One more iteration after a prefix that completed. */
  lemma OrganizedNext(s0: FsState, folder: Path, c: Classifier, paths: seq<Path>, dryRun: bool, i: nat)
    requires i < |paths| && Organized(s0, folder, c, paths[..i], dryRun).outcome.Done?
    ensures var prev := Organized(s0, folder, c, paths[..i], dryRun);
      var st := Step(prev.fs, folder, c, paths[i], dryRun);
      Organized(s0, folder, c, paths[..i + 1], dryRun) == Run(st.fs, prev.log + st.log, st.outcome)
  {
    assert paths[..i + 1][..i] == paths[..i];
  }

  /** The loop body for one file: stat (by date only), makedirs, compare, report, move. */
  method OrganizeOne(fs: FileSystem, folder: Path, c: Classifier, path: Path, dryRun: bool)
    returns (log: seq<Action>, outcome: Outcome)
    modifies fs
    ensures Run(fs.State(), log, outcome) == Step(old(fs.State()), folder, c, path, dryRun)
  {
    ghost var s := fs.State();
    log := [];
    if c.stats && !fs.State().Exists(path) {
      outcome := Raised(FileNotFound(path));
      return;
    }
    var targetDir := TargetDir(folder, c, path);
    outcome := fs.MakeDirs(targetDir);
    ghost var made := s.MakeDirs(targetDir);
    assert fs.State() == made.fs && outcome == made.outcome;
    if outcome.Raised? {
      return;
    }
    var target := Target(folder, c, path);
    if path == target {
      return;
    }
    log := [Move(path, target)];
    if !dryRun {
      outcome := fs.Move(path, target);
    }
  }

  /** The loop shared by organize_by_type and organize_by_date. */
  method Organize(fs: FileSystem, folder: Path, c: Classifier, walked: seq<Path>, skipHidden: bool, dryRun: bool)
    returns (log: seq<Action>, outcome: Outcome)
    modifies fs
    ensures Run(fs.State(), log, outcome) == Organized(old(fs.State()), folder, c, Visible(walked, skipHidden), dryRun)
  {
    var paths := GetFiles(walked, skipHidden);
    log, outcome := [], Done;
    var i := 0;
    while i < |paths| && outcome.Done?
      invariant 0 <= i <= |paths|
      invariant Run(fs.State(), log, outcome) == Organized(old(fs.State()), folder, c, paths[..i], dryRun)
    {
      OrganizedNext(old(fs.State()), folder, c, paths, dryRun, i);
      var stepLog;
      stepLog, outcome := OrganizeOne(fs, folder, c, paths[i], dryRun);
      log := log + stepLog;
      i := i + 1;
    }
    if outcome.Raised? {
      RaisedStops(old(fs.State()), folder, c, paths, dryRun, i);
    } else {
      assert paths[..i] == paths;
    }
  }

  /** organize_by_type. */
  method OrganizeByType(fs: FileSystem, folder: Path, walked: seq<Path>, dryRun: bool, skipHidden: bool)
    returns (log: seq<Action>, outcome: Outcome)
    modifies fs
    ensures Run(fs.State(), log, outcome) == Organized(old(fs.State()), folder, ByType(), Visible(walked, skipHidden), dryRun)
  {
    log, outcome := Organize(fs, folder, ByType(), walked, skipHidden, dryRun);
  }

  /** organize_by_date; `modified` gives the local year and month of each file's modification time. */
  method OrganizeByDate(fs: FileSystem, folder: Path, walked: seq<Path>, modified: Path -> YearMonth, dryRun: bool, skipHidden: bool)
    returns (log: seq<Action>, outcome: Outcome)
    modifies fs
    ensures Run(fs.State(), log, outcome) == Organized(old(fs.State()), folder, ByDate(modified), Visible(walked, skipHidden), dryRun)
  {
    log, outcome := Organize(fs, folder, ByDate(modified), walked, skipHidden, dryRun);
  }
}

module OrganizeProperties {
  import opened Paths
  import opened Classify
  import opened Fs
  import opened Organize

  /** By type, two files share a subfolder exactly when their extension keys are equal. */
  lemma SameTypeSameFolder(folder: Path, p: Path, q: Path)
    ensures TargetDir(folder, ByType(), p) == TargetDir(folder, ByType(), q) <==> TypeKey(p) == TypeKey(q)
  {
    JoinInjective(folder, TypeKey(p), TypeKey(q));
  }

  /** By date, two files share a subfolder exactly when they were modified in the same month. */
  lemma SameMonthSameFolder(folder: Path, modified: Path -> YearMonth, p: Path, q: Path)
    ensures TargetDir(folder, ByDate(modified), p) == TargetDir(folder, ByDate(modified), q) <==> modified(p) == modified(q)
  {
    JoinInjective(folder, DateKey(modified(p)), DateKey(modified(q)));
    DateKeyInjective(modified(p), modified(q));
  }

  // Facts about a single iteration, so that the lemmas about whole runs need not unfold it.

  lemma StepLog(s: FsState, folder: Path, c: Classifier, p: Path, dryRun: bool)
    ensures var st, t := Step(s, folder, c, p, dryRun), Target(folder, c, p);
      && (st.log == [] || (st.log == [Move(p, t)] && p != t))
      && (st.outcome.Done? && st.log == [] ==> p == t)
  {
  }

  lemma StepDry(s: FsState, folder: Path, c: Classifier, p: Path)
    ensures Step(s, folder, c, p, true).fs.files == s.files
    ensures !c.stats ==> (Step(s, folder, c, p, true).outcome.Done? <==> TargetDir(folder, c, p) !in s.files)
  {
  }

  lemma StepDirs(s: FsState, folder: Path, c: Classifier, p: Path, dryRun: bool)
    ensures var st := Step(s, folder, c, p, dryRun);
      st.fs.dirs == s.dirs || st.fs.dirs == s.dirs + {TargetDir(folder, c, p)}
  {
  }

  lemma StepMakesDir(s: FsState, folder: Path, c: Classifier, p: Path, dryRun: bool)
    ensures Step(s, folder, c, p, dryRun).outcome.Done? ==> TargetDir(folder, c, p) in Step(s, folder, c, p, dryRun).fs.dirs
  {
  }

  lemma StepFrame(s: FsState, folder: Path, c: Classifier, p: Path, dryRun: bool, q: Path)
    requires q != p && q != Target(folder, c, p)
    ensures SameAt(s.files, Step(s, folder, c, p, dryRun).fs.files, q)
  {
  }

  lemma StepPlaced(s: FsState, folder: Path, c: Classifier, p: Path, dryRun: bool)
    requires p == Target(folder, c, p)
    ensures Step(s, folder, c, p, dryRun).log == [] && Step(s, folder, c, p, dryRun).fs.files == s.files
  {
  }

  lemma StepMoves(s: FsState, folder: Path, c: Classifier, p: Path)
    requires Step(s, folder, c, p, false).outcome.Done?
    requires p != Target(folder, c, p)
    ensures var files, t := Step(s, folder, c, p, false).fs.files, Target(folder, c, p);
      p in s.files && t in files && files[t] == s.files[p] && p !in files
  {
  }

  /** The log is always a prefix of the plan, and all of it when the run completes (dry or live). */
  lemma {:induction false} LogFollowsPlan(s0: FsState, folder: Path, c: Classifier, paths: seq<Path>, dryRun: bool)
    ensures Organized(s0, folder, c, paths, dryRun).log <= Plan(folder, c, paths)
    ensures Organized(s0, folder, c, paths, dryRun).outcome.Done? ==> Organized(s0, folder, c, paths, dryRun).log == Plan(folder, c, paths)
  {
    if paths != [] {
      var init := paths[..|paths| - 1];
      LogFollowsPlan(s0, folder, c, init, dryRun);
      var prev := Organized(s0, folder, c, init, dryRun);
      StepLog(prev.fs, folder, c, paths[|paths| - 1], dryRun);
    }
  }

  /** Runs that complete, one dry and one live from any states, report the very same moves. */
  lemma DryAndLiveAgree(s0: FsState, s1: FsState, folder: Path, c: Classifier, paths: seq<Path>)
    requires Organized(s0, folder, c, paths, true).outcome.Done?
    requires Organized(s1, folder, c, paths, false).outcome.Done?
    ensures Organized(s0, folder, c, paths, true).log == Organized(s1, folder, c, paths, false).log
  {
    LogFollowsPlan(s0, folder, c, paths, true);
    LogFollowsPlan(s1, folder, c, paths, false);
  }

  /** A dry run moves no file; it may only add directories, and those are target directories. */
  lemma {:induction false} DryRunKeepsFiles(s0: FsState, folder: Path, c: Classifier, paths: seq<Path>)
    ensures Organized(s0, folder, c, paths, true).fs.files == s0.files
  {
    if paths != [] {
      var init := paths[..|paths| - 1];
      DryRunKeepsFiles(s0, folder, c, init);
      StepDry(Organized(s0, folder, c, init, true).fs, folder, c, paths[|paths| - 1]);
    }
  }

  /** Dry or live, the only directories a run creates are target directories of its files. */
  lemma {:induction false} DirsCreated(s0: FsState, folder: Path, c: Classifier, paths: seq<Path>, dryRun: bool)
    ensures s0.dirs <= Organized(s0, folder, c, paths, dryRun).fs.dirs
    ensures forall d :: d in Organized(s0, folder, c, paths, dryRun).fs.dirs ==>
      d in s0.dirs || exists p :: p in paths && d == TargetDir(folder, c, p)
  {
    if paths != [] {
      var init := paths[..|paths| - 1];
      DirsCreated(s0, folder, c, init, dryRun);
      StepDirs(Organized(s0, folder, c, init, dryRun).fs, folder, c, paths[|paths| - 1], dryRun);
      forall d | d in Organized(s0, folder, c, paths, dryRun).fs.dirs
        ensures d in s0.dirs || exists p :: p in paths && d == TargetDir(folder, c, p)
      {
        var p := paths[|paths| - 1];
        if d in Organized(s0, folder, c, init, dryRun).fs.dirs {
          if d !in s0.dirs {
            var q :| q in init && d == TargetDir(folder, c, q);
            assert q in paths;
          }
        } else {
          assert d == TargetDir(folder, c, p);
        }
      }
    }
  }

  /**
   * Dry or live, a run that completes has made the target directory of every
   * file: makedirs runs before the dry-run test and before the already-placed test.
   */
  lemma {:induction false} DirsMade(s0: FsState, folder: Path, c: Classifier, paths: seq<Path>, dryRun: bool)
    requires Organized(s0, folder, c, paths, dryRun).outcome.Done?
    ensures forall p :: p in paths ==> TargetDir(folder, c, p) in Organized(s0, folder, c, paths, dryRun).fs.dirs
  {
    if paths != [] {
      var n := |paths| - 1;
      var init, last := paths[..n], paths[n];
      var prev := Organized(s0, folder, c, init, dryRun);
      assert prev.outcome.Done?;
      DirsMade(s0, folder, c, init, dryRun);
      StepDirs(prev.fs, folder, c, last, dryRun);
      StepMakesDir(prev.fs, folder, c, last, dryRun);
      forall p | p in paths
        ensures TargetDir(folder, c, p) in Organized(s0, folder, c, paths, dryRun).fs.dirs
      {
        if p != last {
          var i :| 0 <= i < |paths| && paths[i] == p;
          assert init[i] == p;
        }
      }
    }
  }

  /**
   * A dry run whose key needs no stat (by type) completes exactly when no regular
   * file stands where one of its subfolders must be made.
   */
  lemma {:induction false} DryRunCompletes(s0: FsState, folder: Path, c: Classifier, paths: seq<Path>)
    requires !c.stats
    ensures Organized(s0, folder, c, paths, true).outcome.Done? <==>
      forall p :: p in paths ==> TargetDir(folder, c, p) !in s0.files
  {
    if paths != [] {
      var init := paths[..|paths| - 1];
      DryRunCompletes(s0, folder, c, init);
      DryRunKeepsFiles(s0, folder, c, init);
      StepDry(Organized(s0, folder, c, init, true).fs, folder, c, paths[|paths| - 1]);
      assert paths == init + [paths[|paths| - 1]];
    }
  }

  /** A path that is neither one of the files nor any file's target keeps its content, dry or live. */
  lemma {:induction false} Untouched(s0: FsState, folder: Path, c: Classifier, paths: seq<Path>, dryRun: bool, q: Path)
    requires q !in paths
    requires forall p :: p in paths ==> q != Target(folder, c, p)
    ensures SameAt(s0.files, Organized(s0, folder, c, paths, dryRun).fs.files, q)
  {
    if paths != [] {
      var init := paths[..|paths| - 1];
      Untouched(s0, folder, c, init, dryRun, q);
      assert paths[|paths| - 1] in paths;
      StepFrame(Organized(s0, folder, c, init, dryRun).fs, folder, c, paths[|paths| - 1], dryRun, q);
    }
  }

  /** A moved file sits at t with its old bytes and is gone from p; an unmoved one (p == t) kept its content. */
  ghost predicate Relocated(before: map<Path, Bytes>, after: map<Path, Bytes>, p: Path, t: Path)
  {
    if p == t then SameAt(before, after, p)
    else p in before && t in after && after[t] == before[p] && p !in after
  }

  /** Each file is enumerated once, no two files share a target, and no target is another enumerated file. */
  ghost predicate CollisionFree(folder: Path, c: Classifier, paths: seq<Path>)
  {
    && (forall i, j :: 0 <= i < j < |paths| ==> paths[i] != paths[j])
    && (forall i, j :: 0 <= i < |paths| && 0 <= j < |paths| && i != j ==>
          Target(folder, c, paths[i]) != Target(folder, c, paths[j]))
    && (forall i, j :: 0 <= i < |paths| && 0 <= j < |paths| && i != j ==>
          Target(folder, c, paths[i]) != paths[j])
  }

  /**
   * A completed live run without collisions leaves each file that was not at its
   * target at exactly that target, with its bytes, and gone from its old path;
   * a file already at its target keeps its content.
   */
  lemma {:induction false} LiveRunRelocates(s0: FsState, folder: Path, c: Classifier, paths: seq<Path>)
    requires CollisionFree(folder, c, paths)
    requires Organized(s0, folder, c, paths, false).outcome.Done?
    ensures forall i :: 0 <= i < |paths| ==> Relocated(s0.files, Organized(s0, folder, c, paths, false).fs.files, paths[i], Target(folder, c, paths[i]))
  {
    if paths != [] {
      var n := |paths| - 1;
      var init := paths[..n];
      var prev := Organized(s0, folder, c, init, false);
      assert CollisionFree(folder, c, init);
      LiveRunRelocates(s0, folder, c, init);
      var p, t := paths[n], Target(folder, c, paths[n]);
      Untouched(s0, folder, c, init, false, p);
      if p != t {
        StepMoves(prev.fs, folder, c, p);
      } else {
        StepPlaced(prev.fs, folder, c, p, false);
      }
      var files := Organized(s0, folder, c, paths, false).fs.files;
      forall i | 0 <= i < n
        ensures Relocated(s0.files, files, paths[i], Target(folder, c, paths[i]))
      {
        var p', t' := paths[i], Target(folder, c, paths[i]);
        assert p' == init[i] && t' == Target(folder, c, init[i]);
        assert Relocated(s0.files, prev.fs.files, p', t');
        assert t' != p && t' != t && p' != t && p' != p;
        StepFrame(prev.fs, folder, c, p, false, p');
        StepFrame(prev.fs, folder, c, p, false, t');
      }
    }
  }

  /** By type, a file's target is its own target again: a second run has nothing to move. */
  lemma TypeTargetIsPlaced(folder: Path, p: Path)
    ensures Target(folder, ByType(), Target(folder, ByType(), p)) == Target(folder, ByType(), p)
  {
    BasenameOfJoin(TargetDir(folder, ByType(), p), Basename(p));
  }

  /** By date, the same holds as long as moving a file keeps its modification month. */
  lemma DateTargetIsPlaced(folder: Path, modified: Path -> YearMonth, p: Path)
    requires modified(Target(folder, ByDate(modified), p)) == modified(p)
    ensures Target(folder, ByDate(modified), Target(folder, ByDate(modified), p)) == Target(folder, ByDate(modified), p)
  {
    BasenameOfJoin(TargetDir(folder, ByDate(modified), p), Basename(p));
  }

  /** Files all at their targets produce no report and no move, dry or live. */
  lemma {:induction false} PlacedFilesStay(s0: FsState, folder: Path, c: Classifier, paths: seq<Path>, dryRun: bool)
    requires forall p :: p in paths ==> p == Target(folder, c, p)
    ensures Organized(s0, folder, c, paths, dryRun).log == []
    ensures Organized(s0, folder, c, paths, dryRun).fs.files == s0.files
  {
    if paths != [] {
      var init := paths[..|paths| - 1];
      PlacedFilesStay(s0, folder, c, init, dryRun);
      assert paths[|paths| - 1] in paths;
      StepPlaced(Organized(s0, folder, c, init, dryRun).fs, folder, c, paths[|paths| - 1], dryRun);
    }
  }
}
