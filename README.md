# Smart File Tool, modelled in Dafny

Smart File Tool is a single Python script, `smartfiletool.py`. It does two jobs
on a folder:

- It **organizes** the folder: every file is moved into a subfolder named after
  its extension (`organize_by_type`) or after its modification month, as
  `YYYY-MM` (`organize_by_date`).
- It **deduplicates** the folder:
  - `find_duplicates` groups the files by base name and size, or by SHA-256
    digest.
  - `handle_duplicates` keeps the first file of each group. Every later member
    is deleted, moved to `<first>.DUPLICATE`, or copied there.

Both jobs have a dry-run mode. A dry run of deduplication only reports. A dry
run of organize moves no file, but it still creates the target subfolders with
`os.makedirs`. Both jobs can skip hidden files, meaning files whose base name
starts with a dot.

This project models those operations and proves what they do:

| file | module | what it holds |
|---|---|---|
| `paths.dfy` | `Paths` | `os.path.basename` and `os.path.join` on POSIX paths |
| `classify.dfy` | `Classify` | the extension key (`splitext(path)[1][1:] or 'no_ext'`) and the `YYYY-MM` key |
| `enumeration.dfy` | `Enumeration` | the hidden-name test and the `skip_hidden` filter of `get_files` |
| `fs.dfy` | `Fs` | the filesystem: a value `FsState` (a map from file paths to bytes, plus a set of directories), its primitives, and a `FileSystem` class whose methods update that map and set in place |
| `organize.dfy` | `Organize`, `OrganizeProperties` | the organize loop, and what it is proved to do |
| `duplicates.dfy` | `Duplicates`, `DuplicatesProperties` | the grouping of `find_duplicates`, and what it is proved to do |
| `resolve.dfy` | `Resolve`, `ResolveProperties` | the nested loops of `handle_duplicates`, and what they are proved to do |
| `dedupe.dfy` | `Dedupe` | `handle_duplicates` run on what `find_duplicates` returned |
| `wrappers.dfy` | `Wrappers` | `Option` and `Result` |

The looping code of the source becomes methods with loops and loop invariants:
`get_files`, the bucket-filling loop of `find_duplicates`, the organize loop and
the two nested loops of `handle_duplicates`. Each method is proved equal to a
recursive specification function:

- `Visible` for `get_files`
- `Grouped` for `find_duplicates`
- `Organized` for the organize loop
- `Resolved` for `handle_duplicates`

The properties are proved as lemmas about those functions.

A run reports a log of actions (`Move`, `Delete`, `Copy`), one per line the
script prints. A run ends in `Done` or `Raised(error)`. An exception stops the
loop where it is raised, with the filesystem as it was left at that point.

The following errors are modelled:

- `os.makedirs` where a regular file has the directory's name. This also
  happens in dry-run.
- `shutil.move`, `os.remove` or `shutil.copy2` of a missing file.
- `shutil.copy2` of a file onto itself.
- `os.path.getmtime` of a missing path (organize by date).
- `group[0]` of an empty group.
- An unknown `find_duplicates` method.

Two behaviours of the code are worth stating plainly:

- The type key keeps the extension's case. The code never lower-cases it, so
  `a.JPG` goes to `JPG/`.
- An action other than `delete`, `move` or `copy` matches no branch of
  `handle_duplicates`. It reports nothing and changes nothing; it is not
  rejected. Only the command-line parser restricts the choices. The
  specification functions take the branch the string selects as a `Choice`
  (`DeleteEach`, `MoveEach`, `CopyEach` or `Ignore`); `Resolve.ChoiceOf` maps
  the string to it.

## Model

| member | source | states |
|---|---|---|
| Paths.Basename | smartfiletool.py:15 | the base name holds no '/' |
| Paths.BasenameSuffix | smartfiletool.py:15 | the base name is a suffix of the path: all of it, or the part after its last '/' |
| Paths.JoinParts | smartfiletool.py:44 | `os.path.join(folder, key)`: an absolute key replaces the folder; otherwise the join is the folder, then one '/' unless the folder is empty or already ends with one, then the key |
| Paths.BasenameOfJoin | smartfiletool.py:44-46 | joining a directory with a slash-free name gives a path whose base name is that name |
| Paths.BasenameIdempotent | smartfiletool.py:46 | the base name of a base name is itself |
| Paths.JoinInjective | smartfiletool.py:44 | joining the folder with two relative non-empty keys gives the same path exactly when the keys are equal |
| Classify.LastDot | smartfiletool.py:43 | the index found holds '.' and no '.' follows it; None means the name has no '.' |
| Classify.NameExtension | smartfiletool.py:43 | the extension splitext gives a base name is empty or a '.' followed by text with no '.' and no '/' |
| Classify.NameKey | smartfiletool.py:43 | the type key of a base name is non-empty and holds neither '/' nor '.' |
| Classify.TypeKey | smartfiletool.py:43-44 | the type key of a path is non-empty, does not start with '/' and holds no '/' or '.', so joining it to the folder makes a direct subfolder |
| Classify.ExtensionKey | smartfiletool.py:43 | "stem.ext", where ext is non-empty without '.' and the stem is not all dots, is keyed by ext exactly as written (case kept) |
| Classify.NoExtensionKey | smartfiletool.py:43 | leading dots followed by dot-free text (".bashrc", "README") are keyed "no_ext" |
| Classify.TrailingDotKey | smartfiletool.py:43 | a name ending in '.' ("file.") is keyed "no_ext" |
| Classify.Digits | smartfiletool.py:57 | zero-padded decimal text has exactly the requested width and only digits |
| Classify.DigitsValue | smartfiletool.py:57 | zero-padded digits read back give the number, when it fits the width |
| Classify.DateKey | smartfiletool.py:57 | strftime('%Y-%m') gives seven characters with '-' at index 4 and no '/' |
| Classify.DateKeyInjective | smartfiletool.py:57 | two months give the same folder name exactly when they are the same year and month |
| Enumeration.GetFiles | smartfiletool.py:27-34 | the loop yields exactly Visible(walked, skip_hidden): the walked paths in order, without hidden ones when asked |
| Enumeration.HiddenByName | smartfiletool.py:13-16 | `is_hidden` on POSIX: a path is hidden exactly when a '.' starts it or follows a '/' and no '/' comes after that dot, that is, when its base name starts with '.' |
| Enumeration.BasenameStart | smartfiletool.py:15 | the only position that starts the path or follows a '/', with no '/' after it, is where the base name starts |
| Enumeration.VisibleMembers | smartfiletool.py:13-16 | a path is yielded exactly when it was walked and is not a hidden path while hidden ones are skipped |
| Enumeration.VisibleAppend | smartfiletool.py:29-34 | filtering distributes over concatenation: yielded paths keep walk order |
| Enumeration.VisibleAll | smartfiletool.py:32-34 | without skip_hidden every walked path is yielded |
| Fs.FsState.MakeDirs | smartfiletool.py:45 | makedirs with exist_ok fails exactly when a regular file has the name; otherwise the directory exists after, files unchanged |
| Fs.FsState.Move | smartfiletool.py:51 | a move fails exactly when the source is missing; otherwise the destination holds the source's bytes, the source is gone and every other path is unchanged |
| Fs.FsState.Remove | smartfiletool.py:113 | removal fails exactly when the file is missing; otherwise exactly that file is gone |
| Fs.FsState.Copy | smartfiletool.py:123 | copy2 fails exactly on a missing source (FileNotFound) or a copy onto itself (SameFile); otherwise only the destination changes, to the source's bytes |
| Fs.FsState.Perform | smartfiletool.py:110-123 | carrying out a reported action never touches directories, and changes no path outside the ones that action names |
| Fs.FileSystem.MakeDirs | smartfiletool.py:45 | the in-place update and outcome are those of FsState.MakeDirs |
| Fs.FileSystem.Move | smartfiletool.py:51 | the in-place update and outcome are those of FsState.Move |
| Fs.FileSystem.Remove | smartfiletool.py:113 | the in-place update and outcome are those of FsState.Remove |
| Fs.FileSystem.Copy | smartfiletool.py:123 | the in-place update and outcome are those of FsState.Copy |
| Organize.RaisedStops | smartfiletool.py:42-51 | once an iteration has raised, the rest of the file list changes nothing |
| Organize.OrganizedNext | smartfiletool.py:42 | one more iteration after a completed prefix is one more step |
| Organize.OrganizeOne | smartfiletool.py:43-65 | one loop body: stat (by date only), makedirs, skip a file already at its target, report, move unless dry-run; the new state is that of Step |
| Organize.Organize | smartfiletool.py:40-65 | the organize loop over the yielded files leaves exactly the state, log and outcome of Organized |
| Organize.OrganizeByType | smartfiletool.py:40-51 | organize_by_type is the organize loop keyed by extension |
| Organize.OrganizeByDate | smartfiletool.py:53-65 | organize_by_date is the organize loop keyed by YYYY-MM, which stats every file |
| OrganizeProperties.SameTypeSameFolder | smartfiletool.py:43-44 | by type, two files share a subfolder exactly when their extension keys are equal |
| OrganizeProperties.SameMonthSameFolder | smartfiletool.py:56-58 | by date, two files share a subfolder exactly when they were modified in the same month |
| OrganizeProperties.StepMoves | smartfiletool.py:46-51 | a completed live iteration for a file not at its target leaves it at the target with its bytes and gone from its old path |
| OrganizeProperties.LogFollowsPlan | smartfiletool.py:47-49 | the log is always a prefix of the planned moves (one per file not already at its target), and all of them when the run completes, dry or live |
| OrganizeProperties.DryAndLiveAgree | smartfiletool.py:49-51 | a completed dry run and a completed live run report the same moves |
| OrganizeProperties.DryRunKeepsFiles | smartfiletool.py:50-51 | a dry run moves no file |
| OrganizeProperties.DirsCreated | smartfiletool.py:45 | dry or live, directories are only added, and only target directories of the files |
| OrganizeProperties.StepMakesDir | smartfiletool.py:45 | an iteration that completes has made the file's target directory |
| OrganizeProperties.DirsMade | smartfiletool.py:41-51 | a run that completes, dry or live, has made the target directory of every file, because makedirs runs before the dry-run test |
| OrganizeProperties.DryRunCompletes | smartfiletool.py:43-45 | a dry run by type completes exactly when no regular file stands where one of its subfolders must be made |
| OrganizeProperties.Untouched | smartfiletool.py:44-51 | a path that is neither a yielded file nor any file's target keeps its content |
| OrganizeProperties.LiveRunRelocates | smartfiletool.py:46-51 | a completed live run without collisions leaves every file not at its target at exactly folder/key/basename with its bytes, gone from its old path; a file already there keeps its content |
| OrganizeProperties.TypeTargetIsPlaced | smartfiletool.py:43-48 | by type, a target is its own target: a second run skips it |
| OrganizeProperties.DateTargetIsPlaced | smartfiletool.py:56-62 | by date, the same holds when the move keeps the modification month |
| OrganizeProperties.PlacedFilesStay | smartfiletool.py:47-48 | files all at their targets produce no report and no move, dry or live |
| Duplicates.Bucket | smartfiletool.py:86-97 | the loop's dict has exactly the keys met, in first-seen order, and each key's list holds exactly the files with that key, in enumeration order |
| Duplicates.KeyOfShared | smartfiletool.py:87-97 | the keys of lines 89 and 94: a file has no key exactly when hashing it raised; two files share a key exactly when base name and size are equal (name-size) or their digests are present and equal (checksum) |
| Duplicates.KeepShared | smartfiletool.py:100 | the kept lists are exactly the buckets with more than one file, in dict order |
| Duplicates.FindDuplicates | smartfiletool.py:79-100 | "name-size" and "checksum" return Grouped for that keying over the yielded files; any other method raises UnknownMethod |
| DuplicatesProperties.MembersKeyed | smartfiletool.py:87-97 | a bucket holds a file exactly when it was yielded and has that key |
| DuplicatesProperties.PositionsCount | smartfiletool.py:88-90 | a bucket records one index per member |
| DuplicatesProperties.PositionsPoint | smartfiletool.py:88-90 | the i-th member of a bucket is the yielded file at its i-th index |
| DuplicatesProperties.PositionsAscend | smartfiletool.py:88-90 | a bucket's indices strictly ascend: members keep enumeration order |
| DuplicatesProperties.PositionsExact | smartfiletool.py:87-97 | a bucket's indices are exactly those of the files with its key |
| DuplicatesProperties.MembersDistinct | smartfiletool.py:85-90 | when the walk yields each path once, no bucket holds a path twice |
| DuplicatesProperties.FirstPosFacts | smartfiletool.py:86-97 | a key is met exactly when its bucket is non-empty, and the bucket's first file is the first file with that key |
| DuplicatesProperties.FirstPosLeast | smartfiletool.py:86-97 | no file before a key's first position has that key |
| DuplicatesProperties.FirstPosStays | smartfiletool.py:86-90 | later files do not change where a key was first met |
| DuplicatesProperties.KeyOrderFacts | smartfiletool.py:86-100 | the dict's keys are exactly the keys of the files, each once, in order of first occurrence |
| DuplicatesProperties.SharedFacts | smartfiletool.py:100 | the filter keeps exactly the keys with more than one file, in their order |
| DuplicatesProperties.GroupKeysFacts | smartfiletool.py:100 | the groups' keys are exactly those with more than one file, in first-seen order |
| DuplicatesProperties.GroupsAreDuplicates | smartfiletool.py:85-100 | every group has at least two files, all yielded, all with the group's key |
| DuplicatesProperties.GroupsAreDisjoint | smartfiletool.py:86-100 | no file is in two groups |
| DuplicatesProperties.GroupedTogether | smartfiletool.py:87-100 | two different yielded files share a group exactly when both have a key and the keys are equal |
| DuplicatesProperties.GroupsInFirstSeenOrder | smartfiletool.py:86-100 | groups come out in order of their key's first occurrence, and each group starts with the first file with its key |
| DuplicatesProperties.NameSizeTogether | smartfiletool.py:87-90 | by name-size, two different files share a group exactly when their base names and sizes are equal |
| DuplicatesProperties.ChecksumTogether | smartfiletool.py:91-97 | by checksum, two different files share a group exactly when both were hashed and their digests are equal |
| DuplicatesProperties.UnreadableInNoGroup | smartfiletool.py:93-97 | by checksum, a file whose hashing raised is in no group |
| Resolve.DuplicateTarget | smartfiletool.py:115 | the target is the kept path followed by the ten characters ".DUPLICATE" |
| Resolve.PairsFacts | smartfiletool.py:108-109 | the visits of a group pair its first file with each later member in turn, one visit per later member |
| Resolve.ChoiceOf | smartfiletool.py:110-123 | an action string selects no branch exactly when it is none of "delete", "move" and "copy" |
| Resolve.VisitedRaised | smartfiletool.py:107-123 | after an exception, the remaining later members change nothing |
| Resolve.VisitedAppend | smartfiletool.py:107-109 | visiting two lists of later members in turn is visiting their concatenation |
| Resolve.VisitedNext | smartfiletool.py:109 | one more iteration of the inner loop extends the run by that visit |
| Resolve.VisitedRaisedStops | smartfiletool.py:109-123 | once a prefix of the inner loop has raised, the remaining later members change nothing |
| Resolve.ResolvedNext | smartfiletool.py:107-108 | one more outer iteration after a completed prefix is one more group step |
| Resolve.ResolvedRaisedStops | smartfiletool.py:107-108 | after an exception, the remaining groups change nothing |
| Resolve.HandleOne | smartfiletool.py:110-123 | one inner-loop body: report and, unless dry-run, delete, move or copy; nothing for another action; the new state is that of Visit |
| Resolve.HandleGroup | smartfiletool.py:107-123 | one outer iteration: an empty group raises IndexError, else the inner loop over group[1:] runs as Visited says |
| Resolve.HandleDuplicates | smartfiletool.py:102-123 | the nested loops leave exactly the state, log and outcome of Resolved |
| ResolveProperties.PlanAppend | smartfiletool.py:107-109 | the reports for two runs of visits in turn are the two reports in turn |
| ResolveProperties.PlanMembers | smartfiletool.py:109-123 | an action is reported exactly when some later member's visit reports it |
| ResolveProperties.PlanShape | smartfiletool.py:109-123 | delete, move and copy report exactly one action per later member, in order; any other action reports nothing |
| ResolveProperties.LaterPairsMembers | smartfiletool.py:107-109 | the visits are exactly the pairs (group[0], group[j]) for j >= 1: all later members of a group share that group's first file, hence one target |
| ResolveProperties.LaterPairsComplete | smartfiletool.py:107-109 | every pair (group[0], group[j]) with j >= 1 is visited |
| ResolveProperties.LaterPairsSound | smartfiletool.py:107-109 | every visit is such a pair |
| ResolveProperties.VisitFacts | smartfiletool.py:110-123 | one visit reports its action, never touches directories, and changes nothing when dry or unknown |
| ResolveProperties.VisitFrame | smartfiletool.py:110-123 | one visit leaves every path its action does not name unchanged |
| ResolveProperties.VisitedLog | smartfiletool.py:109-123 | the lines reported by the visits are a prefix of their plan, all of it when the run completes |
| ResolveProperties.VisitedFrame | smartfiletool.py:109-123 | visits never touch directories nor any path no reported action names |
| ResolveProperties.VisitedDry | smartfiletool.py:112-122 | dry visits only report |
| ResolveProperties.VisitedUnknown | smartfiletool.py:110-123 | visits under an unknown action do nothing |
| ResolveProperties.ResolvedDone | smartfiletool.py:108 | a completed run met no empty group |
| ResolveProperties.ResolvedFlat | smartfiletool.py:107-109 | without empty groups the nested loops are one loop over the (first file, later member) pairs |
| ResolveProperties.LogFollowsPlan | smartfiletool.py:110-121 | the log is a prefix of the plan, and the whole plan when the run completes, dry or live |
| ResolveProperties.DryAndLiveAgree | smartfiletool.py:110-123 | a completed dry run and a completed live run report the same lines |
| ResolveProperties.DryRunReportsOnly | smartfiletool.py:112-122 | a dry run changes nothing and raises only on an empty group, exactly when there is one |
| ResolveProperties.UnknownActionDoesNothing | smartfiletool.py:110-123 | an unknown action reports and changes nothing, and raises exactly when a group is empty |
| ResolveProperties.ResolvedFrame | smartfiletool.py:110-123 | directories are never touched, and a path no planned action names keeps its content |
| ResolveProperties.KeptFileSurvives | smartfiletool.py:108 | a group's first file keeps its content when it is neither a later member nor a ".DUPLICATE" target |
| ResolveProperties.VisitedDelete | smartfiletool.py:110-113 | live delete visits complete exactly when the later members are distinct and present, and then remove exactly them |
| ResolveProperties.DistinctPresentLast | smartfiletool.py:109-113 | one more later member keeps the members distinct and present exactly when it is present and new |
| ResolveProperties.DeleteRemovesLaterMembers | smartfiletool.py:110-113 | live delete completes exactly when no group is empty and the later members are distinct and present; then exactly they are removed |
| ResolveProperties.DistinctPresentInit | smartfiletool.py:109 | distinct present later members stay so without the last one |
| ResolveProperties.MoveSourceUntouched | smartfiletool.py:114-118 | before its own visit, a later member of a collision-free move is untouched |
| ResolveProperties.MoveVisit | smartfiletool.py:114-118 | one live move visit moves the later member's bytes to its group's target |
| ResolveProperties.MoveStepGone | smartfiletool.py:114-118 | after one more collision-free move no later member seen so far is present |
| ResolveProperties.MoveStepHolds | smartfiletool.py:114-118 | after one more collision-free move every target seen so far holds the bytes of one of its later members |
| ResolveProperties.VisitedMove | smartfiletool.py:114-118 | collision-free live move visits complete; every later member is gone and every target holds the bytes of a later member of its group |
| ResolveProperties.MoveRelocatesLaterMembers | smartfiletool.py:114-118 | live move with distinct, present later members that are no target completes; they are all gone, and each target holds the bytes of one of its group's later members |
| ResolveProperties.LaterPairsOfOne | smartfiletool.py:107-109 | the group [keep, d1, d2] is visited as (keep, d1) then (keep, d2) |
| ResolveProperties.MoveTwice | smartfiletool.py:114-118 | two moves onto one target leave the second file's bytes there |
| ResolveProperties.MoveKeepsLastDuplicate | smartfiletool.py:114-118 | moving the group [keep, d1, d2] leaves only d2's bytes at keep.DUPLICATE, and neither d1 nor d2 |
| ResolveProperties.VisitedCopy | smartfiletool.py:119-123 | copy visits of present members that are not their own target complete, remove nothing, and create every target |
| ResolveProperties.CopySourceUntouched | smartfiletool.py:119-123 | before its own visit, a later member of a copy whose members are no target is untouched |
| ResolveProperties.CopyVisit | smartfiletool.py:119-123 | one live copy visit writes the later member's bytes to its group's target and changes nothing else |
| ResolveProperties.CopyStepKeeps | smartfiletool.py:119-123 | after one more copy onto no later member, every later member seen so far keeps its bytes |
| ResolveProperties.CopyStepHolds | smartfiletool.py:119-123 | after one more copy, every target seen so far holds the bytes of one of its later members |
| ResolveProperties.VisitedCopyContents | smartfiletool.py:119-123 | live copy visits of present later members none of which is a target complete; every later member keeps its own bytes and every target holds the bytes of one of its later members |
| ResolveProperties.VisitedCopyNotOntoItself | smartfiletool.py:119-123 | a completed live copy never copied a member onto itself |
| ResolveProperties.CopyKeepsEverything | smartfiletool.py:119-123 | live copy with present later members that are not their own target completes, loses no file and creates every target; when no later member is any group's target, every later member keeps its own bytes and every target holds the bytes of one of its group's later members; a completed copy never copied a member onto itself |
| Dedupe.LaterMembersDistinct | smartfiletool.py:107-109 | when no path repeats across the groups, the later members visited are pairwise distinct |
| Dedupe.FirstIsNoLaterMember | smartfiletool.py:107-109 | when no path repeats, no group's first file is a later member of any group |
| Dedupe.DeleteUniqueGroups | smartfiletool.py:107-113 | live delete over groups that repeat no path, hold no empty group and name only files completes, removes exactly the later members and keeps every first file with its bytes |
| Dedupe.GroupsUnique | smartfiletool.py:85-100 | when the walk yields each path once, no path repeats in find_duplicates' groups |
| Dedupe.DeleteAfterFind | smartfiletool.py:149-154 | live delete of what find_duplicates returned, over a walk of distinct existing files, completes, removes exactly the later members and keeps every group's first file with its bytes |

## Left out

- The directory walk (`os.walk`, smartfiletool.py:29-31) is an input: the
  sequence of joined paths it yields, in its order. The walk runs lazily while
  organize moves files. A top-down walk lists a directory's subfolders and
  files before it yields them, so a subfolder that `os.makedirs` creates
  during the run is never walked. A moved file is yielded again only when its
  key subfolder existed before the run and is walked after the move. Such a
  file is already at its target and is skipped. `PlacedFilesStay` covers that
  case, but the interleaving is not modelled.
- `sha256sum` (smartfiletool.py:71-77) is a parameter `digest` that gives a
  hex digest, or None where reading the file raises. SHA-256 itself and the
  chunked reading are not modelled.
- `os.path.getsize` is a total parameter `size`.
- Duplicates.Keying.KeyOf: a missing file under name-size would raise in the
  source. Here it gets a size instead.
- `datetime.fromtimestamp(os.path.getmtime(path))` is a parameter `modified`
  that gives the local year and month. Time zones are not modelled. Neither is
  the clock.
- Classify.DateKey: years before 1000 are zero-padded to four digits. Some C
  libraries' strftime print them unpadded.
- The Windows hidden attribute (`has_hidden_attribute`, smartfiletool.py:18-25)
  is a foreign call. Only the leading-dot test is modelled, as on POSIX.
- Paths are POSIX strings. Windows separators and drive letters are not
  modelled.
- Fs.FsState.Move models `shutil.move` of a regular file onto a file path, with
  overwrite. Three cases are not modelled:
  - a destination that is an existing directory (the file would go inside it);
  - cross-device copies;
  - a missing parent directory of the destination.
- Fs.FsState.Copy models `shutil.copy2` onto a file path. When the
  destination is an existing directory, `copy2` copies into it. The model
  instead writes a file at the directory's own path. Metadata copying is not
  modelled either.
- Fs.FsState.MakeDirs records only the leaf directory. Parent directories and
  permission errors are not modelled.
- ResolveProperties.KeptFileSurvives requires that the first file is neither a
  later member nor a `.DUPLICATE` target. The source keeps group[0] only in
  that sense. Take a group whose first file is `x.DUPLICATE`, and another
  group whose first file is `x`. A move or copy in the second group
  overwrites `x.DUPLICATE`.
- ResolveProperties.MoveRelocatesLaterMembers and
  ResolveProperties.VisitedMove show only that each target holds the bytes of
  one of its group's later members. Which member depends on order; for a
  three-file group, MoveKeepsLastDuplicate pins it to the last one.
- ResolveProperties.CopyKeepsEverything and
  ResolveProperties.VisitedCopyContents likewise show only that each target
  holds the bytes of one of its group's later members. They state the
  contents only when no later member is any group's target.
- ResolveProperties.CopyKeepsEverything states completion in one direction
  only. A member created earlier in the same run as another group's target
  can also be copied.
- Progress bars (`tqdm`), the wording of printed lines and the "[DRY RUN] "
  prefix are not modelled. Each printed line is one `Action` in the log.
- The command-line parser and `main` (smartfiletool.py:129-154) are not
  modelled; `Dedupe.DeleteAfterFind` stands in for the `--dedupe` path.
