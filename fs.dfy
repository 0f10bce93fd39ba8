/**
 * The filesystem the tool acts on: regular files with their bytes and a set of
 * directories, the primitives the tool calls on it (os.makedirs with
 * exist_ok=True, shutil.move, os.remove, shutil.copy2), the actions it
 * reports, and the error that stops a run.
 */
module Fs {
  import opened Paths

  type Bytes = seq<bv8>

  /** The exception that ends a run. */
  datatype Error =
    | FileExists(path: Path)        // makedirs where a regular file stands
    | FileNotFound(path: Path)      // move, remove, copy or stat of a missing file
    | SameFile(path: Path)          // copy of a file onto itself
    | EmptyGroup                    // group[0] of an empty duplicate group
    | UnknownMethod(name: string)   // find_duplicates with a method it does not know

  datatype Outcome = Done | Raised(error: Error)

  /** One reported line: "Move src -> dst", "Delete path" or "Copy src -> dst". */
  datatype Action =
    | Move(src: Path, dst: Path)
    | Delete(path: Path)
    | Copy(src: Path, dst: Path)
  {
    /** The paths whose presence or content the action may change. */
    function Touches(): set<Path>
    {
      match this
      case Move(src, dst) => {src, dst}
      case Delete(path) => {path}
      case Copy(_, dst) => {dst}
    }
  }

  /** Path p is present in both maps with the same content, or absent from both. */
  predicate SameAt(m: map<Path, Bytes>, m': map<Path, Bytes>, p: Path)
  {
    (p in m <==> p in m') && (p in m ==> m[p] == m'[p])
  }

  datatype Effect = Effect(fs: FsState, outcome: Outcome)

  datatype FsState = FsState(files: map<Path, Bytes>, dirs: set<Path>)
  {
    /** os.path.getmtime succeeds on any existing entry. */
    predicate Exists(p: Path)
    {
      p in files || p in dirs
    }

    /** os.makedirs(d, exist_ok=True): fails only where a regular file already has that name. */
    function MakeDirs(d: Path): (e: Effect)
      ensures e.outcome.Done? <==> d !in files
      ensures e.fs.files == files
      ensures e.outcome.Done? ==> e.fs.dirs == dirs + {d}
      ensures e.outcome.Raised? ==> e.fs == this && e.outcome.error == FileExists(d)
    {
      if d in files then Effect(this, Raised(FileExists(d)))
      else Effect(FsState(files, dirs + {d}), Done)
    }

    /** shutil.move(src, dst) of a regular file: dst takes src's bytes and src is gone. */
    function Move(src: Path, dst: Path): (e: Effect)
      ensures e.fs.dirs == dirs
      ensures e.outcome.Done? <==> src in files
      ensures e.outcome.Raised? ==> e.fs == this && e.outcome.error == FileNotFound(src)
      ensures e.outcome.Done? ==> dst in e.fs.files && e.fs.files[dst] == files[src]
      ensures e.outcome.Done? && src != dst ==> src !in e.fs.files
      ensures forall p :: p != src && p != dst ==> SameAt(files, e.fs.files, p)
    {
      if src !in files then Effect(this, Raised(FileNotFound(src)))
      else Effect(FsState((files - {src})[dst := files[src]], dirs), Done)
    }

    /** os.remove(p). */
    function Remove(p: Path): (e: Effect)
      ensures e.fs.dirs == dirs
      ensures e.outcome.Done? <==> p in files
      ensures e.outcome.Raised? ==> e.fs == this && e.outcome.error == FileNotFound(p)
      ensures e.outcome.Done? ==> e.fs.files == files - {p}
    {
      if p !in files then Effect(this, Raised(FileNotFound(p)))
      else Effect(FsState(files - {p}, dirs), Done)
    }

    /** shutil.copy2(src, dst): dst gets src's bytes; src stays; copying a file onto itself fails. */
    function Copy(src: Path, dst: Path): (e: Effect)
      ensures e.fs.dirs == dirs
      ensures e.outcome.Done? <==> src in files && src != dst
      ensures e.outcome.Raised? ==> e.fs == this
      ensures e.outcome.Raised? ==> e.outcome.error == if src in files then SameFile(src) else FileNotFound(src)
      ensures e.outcome.Done? ==> e.fs.files == files[dst := files[src]]
    {
      if src !in files then Effect(this, Raised(FileNotFound(src)))
      else if src == dst then Effect(this, Raised(SameFile(src)))
      else Effect(FsState(files[dst := files[src]], dirs), Done)
    }

    /** Carries out one reported action. */
    function Perform(a: Action): (e: Effect)
      ensures e.fs.dirs == dirs
      ensures forall p :: p !in a.Touches() ==> SameAt(files, e.fs.files, p)
    {
      match a
      case Move(src, dst) => Move(src, dst)
      case Delete(path) => Remove(path)
      case Copy(src, dst) => Copy(src, dst)
    }
  }

  /** Where a run ended: the filesystem, the actions reported so far, and whether it raised. */
  datatype Run = Run(fs: FsState, log: seq<Action>, outcome: Outcome)

  /** The filesystem as a mutable object; each method is one primitive call. */
  class FileSystem {
    var files: map<Path, Bytes>
    var dirs: set<Path>

    function State(): FsState
      reads this
    {
      FsState(files, dirs)
    }

    constructor (s: FsState)
      ensures State() == s
    {
      files := s.files;
      dirs := s.dirs;
    }

    method MakeDirs(d: Path) returns (outcome: Outcome)
      modifies this
      ensures Effect(State(), outcome) == old(State()).MakeDirs(d)
    {
      if d in files {
        outcome := Raised(FileExists(d));
      } else {
        dirs := dirs + {d};
        outcome := Done;
      }
    }

    method Move(src: Path, dst: Path) returns (outcome: Outcome)
      modifies this
      ensures Effect(State(), outcome) == old(State()).Move(src, dst)
    {
      if src !in files {
        outcome := Raised(FileNotFound(src));
      } else {
        files := (files - {src})[dst := files[src]];
        outcome := Done;
      }
    }

    method Remove(p: Path) returns (outcome: Outcome)
      modifies this
      ensures Effect(State(), outcome) == old(State()).Remove(p)
    {
      if p !in files {
        outcome := Raised(FileNotFound(p));
      } else {
        files := files - {p};
        outcome := Done;
      }
    }

    method Copy(src: Path, dst: Path) returns (outcome: Outcome)
      modifies this
      ensures Effect(State(), outcome) == old(State()).Copy(src, dst)
    {
      if src !in files {
        outcome := Raised(FileNotFound(src));
      } else if src == dst {
        outcome := Raised(SameFile(src));
      } else {
        files := files[dst := files[src]];
        outcome := Done;
      }
    }
  }
}
