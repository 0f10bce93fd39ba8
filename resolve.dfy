/**
 * handle_duplicates: in every duplicate group the first file is kept, and each
 * later member is deleted, or moved or copied to the kept file's path with
 * ".DUPLICATE" appended.
 */
module Resolve {
  import opened Paths
  import opened Fs

  /** Where a moved or copied duplicate goes: keep + ".DUPLICATE". */
  function DuplicateTarget(keep: Path): (t: Path)
    ensures |t| == |keep| + 10 && t[..|keep|] == keep && t[|keep|..] == ".DUPLICATE"
  {
    keep + ".DUPLICATE"
  }

  /** One visit of the inner loop: a later member `dup` of the group whose first file is `keep`. */
  datatype Pending = Pending(keep: Path, dup: Path)

  /** The visits of one group's inner loop: its first file paired with each of group[1:]. */
  function Pairs(keep: Path, dups: seq<Path>): seq<Pending>
  {
    if dups == [] then []
    else Pairs(keep, dups[..|dups| - 1]) + [Pending(keep, dups[|dups| - 1])]
  }

  lemma {:induction false} PairsFacts(keep: Path, dups: seq<Path>)
    ensures |Pairs(keep, dups)| == |dups|
    ensures forall i :: 0 <= i < |dups| ==> Pairs(keep, dups)[i] == Pending(keep, dups[i])
  {
    if dups != [] {
      PairsFacts(keep, dups[..|dups| - 1]);
    }
  }

  /** The visits of one outer iteration; none for an empty group, which raises before its inner loop. */
  function GroupPairs(g: seq<Path>): seq<Pending>
  {
    if g == [] then [] else Pairs(g[0], g[1..])
  }

  /** The visits of both loops over all groups, in order. */
  function LaterPairs(groups: seq<seq<Path>>): seq<Pending>
  {
    if groups == [] then []
    else LaterPairs(groups[..|groups| - 1]) + GroupPairs(groups[|groups| - 1])
  }

  /** Which branch of the loop body an action string selects; Ignore for none of them. */
  datatype Choice = DeleteEach | MoveEach | CopyEach | Ignore

  function ChoiceOf(action: string): (c: Choice)
    ensures c == Ignore <==> action != "delete" && action != "move" && action != "copy"
  {
    if action == "delete" then DeleteEach
    else if action == "move" then MoveEach
    else if action == "copy" then CopyEach
    else Ignore
  }

  /** What one visit reports: one line for the three known actions, nothing otherwise. */
  function ActionFor(action: Choice, q: Pending): seq<Action>
  {
    match action
    case DeleteEach => [Delete(q.dup)]
    case MoveEach => [Move(q.dup, DuplicateTarget(q.keep))]
    case CopyEach => [Copy(q.dup, DuplicateTarget(q.keep))]
    case Ignore => []
  }

  /** Everything the loops would report, visit by visit. */
  function Plan(action: Choice, qs: seq<Pending>): seq<Action>
  {
    if qs == [] then []
    else Plan(action, qs[..|qs| - 1]) + ActionFor(action, qs[|qs| - 1])
  }

  /** One visit from state s: report, then carry the action out unless dry-running. */
  function Visit(s: FsState, action: Choice, q: Pending, dryRun: bool): Run
  {
    var acts := ActionFor(action, q);
    if acts == [] || dryRun then Run(s, acts, Done)
    else
      var e := s.Perform(acts[0]);
      Run(e.fs, acts, e.outcome)
  }

  /** The visits qs continuing the run r0; an exception ends it where it was raised. */
  function Visited(r0: Run, action: Choice, qs: seq<Pending>, dryRun: bool): Run
  {
    if qs == [] then r0
    else
      var prev := Visited(r0, action, qs[..|qs| - 1], dryRun);
      if prev.outcome.Raised? then prev
      else
        var st := Visit(prev.fs, action, qs[|qs| - 1], dryRun);
        Run(st.fs, prev.log + st.log, st.outcome)
  }

  /** One iteration of the outer loop: group[0] raises IndexError on an empty group, else the inner loop runs. */
  function GroupStep(prev: Run, group: seq<Path>, action: Choice, dryRun: bool): Run
  {
    if group == [] then Run(prev.fs, prev.log, Raised(EmptyGroup))
    else Visited(prev, action, GroupPairs(group), dryRun)
  }

  /** The whole of handle_duplicates from state s0. */
  function Resolved(s0: FsState, groups: seq<seq<Path>>, action: Choice, dryRun: bool): Run
  {
    if groups == [] then Run(s0, [], Done)
    else
      var prev := Resolved(s0, groups[..|groups| - 1], action, dryRun);
      if prev.outcome.Raised? then prev
      else GroupStep(prev, groups[|groups| - 1], action, dryRun)
  }

  /** A raised run stays as it is whatever visits follow. */
  lemma {:induction false} VisitedRaised(r0: Run, action: Choice, qs: seq<Pending>, dryRun: bool)
    requires r0.outcome.Raised?
    ensures Visited(r0, action, qs, dryRun) == r0
  {
    if qs != [] {
      VisitedRaised(r0, action, qs[..|qs| - 1], dryRun);
    }
  }

  /** Visiting a then b is continuing the run of a with b. */
  lemma {:induction false} VisitedAppend(r0: Run, action: Choice, a: seq<Pending>, b: seq<Pending>, dryRun: bool)
    ensures Visited(r0, action, a + b, dryRun) == Visited(Visited(r0, action, a, dryRun), action, b, dryRun)
  {
    if b == [] {
      assert a + b == a;
    } else {
      var init := b[..|b| - 1];
      VisitedAppend(r0, action, a, init, dryRun);
      assert (a + b)[..|a + b| - 1] == a + init;
      assert (a + b)[|a + b| - 1] == b[|b| - 1];
    }
  }

  /** Visiting one more pending pair after a run that has not raised. */
  lemma VisitedNext(r0: Run, action: Choice, qs: seq<Pending>, j: nat, dryRun: bool)
    requires j < |qs| && Visited(r0, action, qs[..j], dryRun).outcome.Done?
    ensures var prev := Visited(r0, action, qs[..j], dryRun);
      var st := Visit(prev.fs, action, qs[j], dryRun);
      Visited(r0, action, qs[..j + 1], dryRun) == Run(st.fs, prev.log + st.log, st.outcome)
  {
    assert qs[..j + 1][..j] == qs[..j];
  }

  /** Once a prefix of the visits has raised, the remaining visits change nothing. */
  lemma {:induction false} VisitedRaisedStops(r0: Run, action: Choice, qs: seq<Pending>, dryRun: bool, n: nat)
    requires n <= |qs|
    requires Visited(r0, action, qs[..n], dryRun).outcome.Raised?
    ensures Visited(r0, action, qs, dryRun) == Visited(r0, action, qs[..n], dryRun)
    decreases |qs| - n
  {
    if n < |qs| {
      assert qs[..n + 1][..n] == qs[..n];
      VisitedRaisedStops(r0, action, qs, dryRun, n + 1);
    } else {
      assert qs[..n] == qs;
    }
  }

  /** One more iteration of the outer loop after a prefix that completed. */
  lemma ResolvedNext(s0: FsState, groups: seq<seq<Path>>, action: Choice, dryRun: bool, i: nat)
    requires i < |groups| && Resolved(s0, groups[..i], action, dryRun).outcome.Done?
    ensures Resolved(s0, groups[..i + 1], action, dryRun) == GroupStep(Resolved(s0, groups[..i], action, dryRun), groups[i], action, dryRun)
  {
    assert groups[..i + 1][..i] == groups[..i];
  }

  /** Once a prefix of the outer loop has raised, the remaining groups change nothing. */
  lemma {:induction false} ResolvedRaisedStops(s0: FsState, groups: seq<seq<Path>>, action: Choice, dryRun: bool, n: nat)
    requires n <= |groups|
    requires Resolved(s0, groups[..n], action, dryRun).outcome.Raised?
    ensures Resolved(s0, groups, action, dryRun) == Resolved(s0, groups[..n], action, dryRun)
    decreases |groups| - n
  {
    if n < |groups| {
      assert groups[..n + 1][..n] == groups[..n];
      ResolvedRaisedStops(s0, groups, action, dryRun, n + 1);
    } else {
      assert groups[..n] == groups;
    }
  }

  /** The inner loop body for one later member. */
  method HandleOne(fs: FileSystem, action: string, keep: Path, dup: Path, dryRun: bool)
    returns (acts: seq<Action>, outcome: Outcome)
    modifies fs
    ensures Run(fs.State(), acts, outcome) == Visit(old(fs.State()), ChoiceOf(action), Pending(keep, dup), dryRun)
  {
    acts, outcome := [], Done;
    if action == "delete" {
      acts := [Delete(dup)];
      if !dryRun {
        outcome := fs.Remove(dup);
      }
    } else if action == "move" {
      var target := keep + ".DUPLICATE";
      acts := [Move(dup, target)];
      if !dryRun {
        outcome := fs.Move(dup, target);
      }
    } else if action == "copy" {
      var target := keep + ".DUPLICATE";
      acts := [Copy(dup, target)];
      if !dryRun {
        outcome := fs.Copy(dup, target);
      }
    }
  }

  /** One iteration of the outer loop, continuing a run that has reported log0 so far. */
  method HandleGroup(fs: FileSystem, group: seq<Path>, action: string, dryRun: bool, log0: seq<Action>)
    returns (log: seq<Action>, outcome: Outcome)
    modifies fs
    ensures Run(fs.State(), log, outcome) == GroupStep(Run(old(fs.State()), log0, Done), group, ChoiceOf(action), dryRun)
  {
    if group == [] {
      log, outcome := log0, Raised(EmptyGroup);
      return;
    }
    var keep := group[0];
    var dups := group[1..];
    ghost var start := Run(fs.State(), log0, Done);
    ghost var qs := GroupPairs(group);
    PairsFacts(keep, dups);
    log, outcome := log0, Done;
    var j := 0;
    while j < |dups| && outcome.Done?
      invariant 0 <= j <= |dups|
      invariant Run(fs.State(), log, outcome) == Visited(start, ChoiceOf(action), qs[..j], dryRun)
    {
      VisitedNext(start, ChoiceOf(action), qs, j, dryRun);
      assert qs[j] == Pending(keep, dups[j]);
      var acts;
      acts, outcome := HandleOne(fs, action, keep, dups[j], dryRun);
      log := log + acts;
      j := j + 1;
    }
    if outcome.Raised? {
      VisitedRaisedStops(start, ChoiceOf(action), qs, dryRun, j);
    } else {
      assert qs[..j] == qs;
    }
  }

  /** handle_duplicates. */
  method HandleDuplicates(fs: FileSystem, groups: seq<seq<Path>>, action: string, dryRun: bool)
    returns (log: seq<Action>, outcome: Outcome)
    modifies fs
    ensures Run(fs.State(), log, outcome) == Resolved(old(fs.State()), groups, ChoiceOf(action), dryRun)
  {
    log, outcome := [], Done;
    var i := 0;
    while i < |groups| && outcome.Done?
      invariant 0 <= i <= |groups|
      invariant Run(fs.State(), log, outcome) == Resolved(old(fs.State()), groups[..i], ChoiceOf(action), dryRun)
    {
      ResolvedNext(old(fs.State()), groups, ChoiceOf(action), dryRun, i);
      log, outcome := HandleGroup(fs, groups[i], action, dryRun, log);
      i := i + 1;
    }
    if outcome.Raised? {
      ResolvedRaisedStops(old(fs.State()), groups, ChoiceOf(action), dryRun, i);
    } else {
      assert groups[..i] == groups;
    }
  }
}

module ResolveProperties {
  import opened Paths
  import opened Fs
  import opened Resolve

  /** The three actions handle_duplicates acts on. */
  predicate Known(action: Choice)
  {
    action != Ignore
  }

  /** No reported action touches p. */
  predicate NotTouchedBy(acts: seq<Action>, p: Path)
  {
    forall a :: a in acts ==> p !in a.Touches()
  }

  /** The run handle_duplicates starts from. */
  function Start(s0: FsState): Run
  {
    Run(s0, [], Done)
  }

  // ---------------------------------------------------------------------------
  // Plans
  // ---------------------------------------------------------------------------

  /** The plan of a concatenation is the concatenation of the plans. */
  lemma {:induction false} PlanAppend(action: Choice, a: seq<Pending>, b: seq<Pending>)
    ensures Plan(action, a + b) == Plan(action, a) + Plan(action, b)
  {
    if b == [] {
      assert a + b == a;
    } else {
      var init, last := b[..|b| - 1], b[|b| - 1];
      PlanAppend(action, a, init);
      var ab := a + b;
      assert ab[..|ab| - 1] == a + init && ab[|ab| - 1] == last;
      assert b[..|b| - 1] == init;
      assert Plan(action, ab) == Plan(action, a + init) + ActionFor(action, last);
      assert Plan(action, b) == Plan(action, init) + ActionFor(action, last);
    }
  }

  /** Nothing in a concatenation touches p exactly when nothing in either part does. */
  lemma NotTouchedAppend(a: seq<Action>, b: seq<Action>, p: Path)
    ensures NotTouchedBy(a + b, p) <==> NotTouchedBy(a, p) && NotTouchedBy(b, p)
  {
    if NotTouchedBy(a + b, p) {
      forall x | x in a ensures p !in x.Touches() { assert x in a + b; }
      forall x | x in b ensures p !in x.Touches() { assert x in a + b; }
    }
  }

  /** An action is planned exactly when it is what some visit reports. */
  lemma {:induction false} PlanMembers(action: Choice, qs: seq<Pending>, x: Action)
    ensures x in Plan(action, qs) <==> exists q :: q in qs && x in ActionFor(action, q)
  {
    if qs != [] {
      var init := qs[..|qs| - 1];
      PlanMembers(action, init, x);
      assert qs == init + [qs[|qs| - 1]];
    }
  }

  /** A known action reports exactly one line per later member, in order; any other action reports nothing. */
  lemma {:induction false} PlanShape(action: Choice, qs: seq<Pending>)
    ensures Known(action) ==> |Plan(action, qs)| == |qs|
    ensures Known(action) ==> forall i :: 0 <= i < |qs| && i < |Plan(action, qs)| ==> [Plan(action, qs)[i]] == ActionFor(action, qs[i])
    ensures !Known(action) ==> Plan(action, qs) == []
  {
    if qs != [] {
      PlanShape(action, qs[..|qs| - 1]);
    }
  }

  lemma LaterPairsNext(groups: seq<seq<Path>>)
    requires groups != []
    ensures LaterPairs(groups) == LaterPairs(groups[..|groups| - 1]) + GroupPairs(groups[|groups| - 1])
  {
  }

  /** Every pair (group[0], group[j]) with j >= 1 is visited. */
  lemma {:induction false} LaterPairsComplete(groups: seq<seq<Path>>, i: nat, j: nat)
    requires i < |groups| && 1 <= j < |groups[i]|
    ensures Pending(groups[i][0], groups[i][j]) in LaterPairs(groups)
  {
    var n := |groups| - 1;
    var init, g := groups[..n], groups[n];
    LaterPairsNext(groups);
    if i < n {
      assert init[i] == groups[i];
      LaterPairsComplete(init, i, j);
    } else {
      PairsFacts(g[0], g[1..]);
      assert GroupPairs(g)[j - 1] == Pending(groups[i][0], groups[i][j]);
    }
  }

  /** Every visit is a pair (group[0], group[j]) with j >= 1. */
  lemma {:induction false} LaterPairsSound(groups: seq<seq<Path>>, q: Pending)
    requires q in LaterPairs(groups)
    ensures exists i, j :: 0 <= i < |groups| && 1 <= j < |groups[i]| && q == Pending(groups[i][0], groups[i][j])
  {
    var n := |groups| - 1;
    var init, g := groups[..n], groups[n];
    LaterPairsNext(groups);
    var ps := GroupPairs(g);
    if q in ps {
      PairsFacts(g[0], g[1..]);
      var k :| 0 <= k < |ps| && ps[k] == q;
      assert q == Pending(groups[n][0], groups[n][k + 1]);
    } else {
      LaterPairsSound(init, q);
      var i, j :| 0 <= i < |init| && 1 <= j < |init[i]| && q == Pending(init[i][0], init[i][j]);
      assert groups[i] == init[i];
    }
  }

  /** The visits are exactly the pairs (group[0], group[j]) for j >= 1, over all groups. */
  lemma LaterPairsMembers(groups: seq<seq<Path>>, q: Pending)
    ensures q in LaterPairs(groups) <==>
      exists i, j :: 0 <= i < |groups| && 1 <= j < |groups[i]| && q == Pending(groups[i][0], groups[i][j])
  {
    if q in LaterPairs(groups) {
      LaterPairsSound(groups, q);
    }
    if exists i, j :: 0 <= i < |groups| && 1 <= j < |groups[i]| && q == Pending(groups[i][0], groups[i][j]) {
      var i, j :| 0 <= i < |groups| && 1 <= j < |groups[i]| && q == Pending(groups[i][0], groups[i][j]);
      LaterPairsComplete(groups, i, j);
    }
  }

  // ---------------------------------------------------------------------------
  // Visits
  // ---------------------------------------------------------------------------

  /** One visit reports what ActionFor says, never touches directories, and changes nothing when dry or unknown. */
  lemma VisitFacts(s: FsState, action: Choice, q: Pending, dryRun: bool)
    ensures Visit(s, action, q, dryRun).log == ActionFor(action, q)
    ensures Visit(s, action, q, dryRun).fs.dirs == s.dirs
    ensures dryRun || !Known(action) ==> Visit(s, action, q, dryRun) == Run(s, ActionFor(action, q), Done)
  {
  }

  /** One visit leaves alone every path its reported action does not name. */
  lemma VisitFrame(s: FsState, action: Choice, q: Pending, dryRun: bool, p: Path)
    requires NotTouchedBy(ActionFor(action, q), p)
    ensures SameAt(s.files, Visit(s, action, q, dryRun).fs.files, p)
  {
    var acts := ActionFor(action, q);
    if acts != [] && !dryRun {
      assert acts[0] in acts;
    }
  }

  /** A run continued by visits reports its old lines followed by a prefix of the plan, all of it when it completes. */
  lemma {:induction false} VisitedLog(r0: Run, action: Choice, qs: seq<Pending>, dryRun: bool)
    ensures var v := Visited(r0, action, qs, dryRun);
      r0.log <= v.log && v.log[|r0.log|..] <= Plan(action, qs) &&
      (v.outcome.Done? ==> v.log == r0.log + Plan(action, qs))
  {
    if qs != [] {
      var init := qs[..|qs| - 1];
      VisitedLog(r0, action, init, dryRun);
      var prev := Visited(r0, action, init, dryRun);
      VisitFacts(prev.fs, action, qs[|qs| - 1], dryRun);
      if prev.outcome.Done? {
        assert prev.log == r0.log + Plan(action, init);
        assert Visited(r0, action, qs, dryRun).log == r0.log + Plan(action, qs);
      }
    } else {
      assert r0.log[|r0.log|..] == [];
    }
  }

  /** Visits never touch directories, and leave every path no reported action names as it was. */
  lemma {:induction false} VisitedFrame(r0: Run, action: Choice, qs: seq<Pending>, dryRun: bool, p: Path)
    ensures Visited(r0, action, qs, dryRun).fs.dirs == r0.fs.dirs
    ensures NotTouchedBy(Plan(action, qs), p) ==> SameAt(r0.fs.files, Visited(r0, action, qs, dryRun).fs.files, p)
  {
    if qs != [] {
      var init := qs[..|qs| - 1];
      VisitedFrame(r0, action, init, dryRun, p);
      var prev := Visited(r0, action, init, dryRun);
      VisitFacts(prev.fs, action, qs[|qs| - 1], dryRun);
      if NotTouchedBy(Plan(action, qs), p) && prev.outcome.Done? {
        VisitFrame(prev.fs, action, qs[|qs| - 1], dryRun, p);
      }
    }
  }

  /** Dry visits only report. */
  lemma {:induction false} VisitedDry(r0: Run, action: Choice, qs: seq<Pending>)
    requires r0.outcome.Done?
    ensures Visited(r0, action, qs, true) == Run(r0.fs, r0.log + Plan(action, qs), Done)
  {
    if qs != [] {
      var init := qs[..|qs| - 1];
      VisitedDry(r0, action, init);
      VisitFacts(r0.fs, action, qs[|qs| - 1], true);
    } else {
      assert r0.log + [] == r0.log;
    }
  }

  /** Visits under an action the loop does not know do nothing at all. */
  lemma {:induction false} VisitedUnknown(r0: Run, action: Choice, qs: seq<Pending>, dryRun: bool)
    requires r0.outcome.Done? && !Known(action)
    ensures Visited(r0, action, qs, dryRun) == r0
  {
    if qs != [] {
      VisitedUnknown(r0, action, qs[..|qs| - 1], dryRun);
      VisitFacts(r0.fs, action, qs[|qs| - 1], dryRun);
      assert r0.log + [] == r0.log;
    }
  }

  // ---------------------------------------------------------------------------
  // The whole run
  // ---------------------------------------------------------------------------

  /** A run that completes met no empty group. */
  lemma {:induction false} ResolvedDone(s0: FsState, groups: seq<seq<Path>>, action: Choice, dryRun: bool)
    requires Resolved(s0, groups, action, dryRun).outcome.Done?
    ensures [] !in groups
  {
    if groups != [] {
      var n := |groups| - 1;
      var init, last := groups[..n], groups[n];
      var prev := Resolved(s0, init, action, dryRun);
      assert prev.outcome.Done? && last != [];
      ResolvedDone(s0, init, action, dryRun);
      forall h | h in groups
        ensures h != []
      {
        var i :| 0 <= i < |groups| && groups[i] == h;
        if i < n {
          assert init[i] == h;
        }
      }
    }
  }


  /** Without empty groups the nested loops are one loop over the later-member visits. */
  lemma {:induction false} ResolvedFlat(s0: FsState, groups: seq<seq<Path>>, action: Choice, dryRun: bool)
    requires [] !in groups
    ensures Resolved(s0, groups, action, dryRun) == Visited(Start(s0), action, LaterPairs(groups), dryRun)
  {
    if groups != [] {
      var n := |groups| - 1;
      var init, g := groups[..n], groups[n];
      assert g in groups;
      assert forall h :: h in init ==> h in groups;
      ResolvedFlat(s0, init, action, dryRun);
      var prev := Resolved(s0, init, action, dryRun);
      VisitedAppend(Start(s0), action, LaterPairs(init), GroupPairs(g), dryRun);
      if prev.outcome.Raised? {
        VisitedRaised(prev, action, GroupPairs(g), dryRun);
      }
    }
  }

  /** A prefix of p stays a prefix of p followed by anything. */
  lemma PrefixExtend(l: seq<Action>, p: seq<Action>, q: seq<Action>)
    requires l <= p
    ensures l <= p + q
  {
    assert (p + q)[..|l|] == p[..|l|];
  }

  /** p1 followed by a prefix of p2 is a prefix of p1 + p2. */
  lemma PrefixConcat(p1: seq<Action>, p2: seq<Action>, l: seq<Action>)
    requires p1 <= l && l[|p1|..] <= p2
    ensures l <= p1 + p2
  {
    assert l == p1 + l[|p1|..];
  }

  /** The log is always a prefix of the plan, and all of it when the run completes (dry or live). */
  lemma {:induction false} LogFollowsPlan(s0: FsState, groups: seq<seq<Path>>, action: Choice, dryRun: bool)
    ensures Resolved(s0, groups, action, dryRun).log <= Plan(action, LaterPairs(groups))
    ensures Resolved(s0, groups, action, dryRun).outcome.Done? ==>
      Resolved(s0, groups, action, dryRun).log == Plan(action, LaterPairs(groups))
  {
    if groups != [] {
      var n := |groups| - 1;
      var init, g := groups[..n], groups[n];
      LogFollowsPlan(s0, init, action, dryRun);
      var prev := Resolved(s0, init, action, dryRun);
      var extra := GroupPairs(g);
      var p1, p2 := Plan(action, LaterPairs(init)), Plan(action, extra);
      LaterPairsNext(groups);
      PlanAppend(action, LaterPairs(init), extra);
      assert Plan(action, LaterPairs(groups)) == p1 + p2;
      if prev.outcome.Raised? {
        assert Resolved(s0, groups, action, dryRun) == prev;
        PrefixExtend(prev.log, p1, p2);
      } else if g == [] {
        assert Resolved(s0, groups, action, dryRun) == Run(prev.fs, prev.log, Raised(EmptyGroup));
        PrefixExtend(prev.log, p1, p2);
      } else {
        var v := Visited(prev, action, extra, dryRun);
        assert Resolved(s0, groups, action, dryRun) == v;
        VisitedLog(prev, action, extra, dryRun);
        PrefixConcat(p1, p2, v.log);
      }
    }
  }

  /** Completed runs, one dry and one live from any states, report the very same lines. */
  lemma DryAndLiveAgree(s0: FsState, s1: FsState, groups: seq<seq<Path>>, action: Choice)
    requires Resolved(s0, groups, action, true).outcome.Done?
    requires Resolved(s1, groups, action, false).outcome.Done?
    ensures Resolved(s0, groups, action, true).log == Resolved(s1, groups, action, false).log
  {
    LogFollowsPlan(s0, groups, action, true);
    LogFollowsPlan(s1, groups, action, false);
  }

  /** A dry run changes nothing, reports the whole plan, and fails only on an empty group. */
  lemma {:induction false} DryRunReportsOnly(s0: FsState, groups: seq<seq<Path>>, action: Choice)
    ensures Resolved(s0, groups, action, true).fs == s0
    ensures Resolved(s0, groups, action, true).outcome.Done? <==> [] !in groups
    ensures Resolved(s0, groups, action, true).outcome.Raised? ==>
      Resolved(s0, groups, action, true).outcome.error == EmptyGroup
  {
    if groups != [] {
      var n := |groups| - 1;
      var init, g := groups[..n], groups[n];
      DryRunReportsOnly(s0, init, action);
      assert groups == init + [g];
      var prev := Resolved(s0, init, action, true);
      if prev.outcome.Done? && g != [] {
        VisitedDry(prev, action, GroupPairs(g));
      }
    }
  }

  /** An action other than delete, move and copy changes and reports nothing; only an empty group raises. */
  lemma {:induction false} UnknownActionDoesNothing(s0: FsState, groups: seq<seq<Path>>, action: Choice, dryRun: bool)
    requires !Known(action)
    ensures Resolved(s0, groups, action, dryRun).fs == s0
    ensures Resolved(s0, groups, action, dryRun).log == []
    ensures Resolved(s0, groups, action, dryRun).outcome.Done? <==> [] !in groups
  {
    if groups != [] {
      var n := |groups| - 1;
      var init, g := groups[..n], groups[n];
      UnknownActionDoesNothing(s0, init, action, dryRun);
      assert groups == init + [g];
      var prev := Resolved(s0, init, action, dryRun);
      if prev.outcome.Done? && g != [] {
        VisitedUnknown(prev, action, GroupPairs(g), dryRun);
      }
    }
  }

  /** Directories are never touched, and a path no planned action names keeps its content. */
  lemma {:induction false} ResolvedFrame(s0: FsState, groups: seq<seq<Path>>, action: Choice, dryRun: bool, p: Path)
    ensures Resolved(s0, groups, action, dryRun).fs.dirs == s0.dirs
    ensures NotTouchedBy(Plan(action, LaterPairs(groups)), p) ==> SameAt(s0.files, Resolved(s0, groups, action, dryRun).fs.files, p)
  {
    if groups != [] {
      var n := |groups| - 1;
      var init, g := groups[..n], groups[n];
      ResolvedFrame(s0, init, action, dryRun, p);
      var prev := Resolved(s0, init, action, dryRun);
      var extra := GroupPairs(g);
      LaterPairsNext(groups);
      PlanAppend(action, LaterPairs(init), extra);
      NotTouchedAppend(Plan(action, LaterPairs(init)), Plan(action, extra), p);
      if prev.outcome.Raised? {
        assert Resolved(s0, groups, action, dryRun) == prev;
      } else if g == [] {
        assert Resolved(s0, groups, action, dryRun).fs == prev.fs;
      } else {
        assert Resolved(s0, groups, action, dryRun) == Visited(prev, action, extra, dryRun);
        VisitedFrame(prev, action, extra, dryRun, p);
      }
    }
  }

  /**
   * The first file of a group survives with its content, whatever the action,
   * as long as it is not also a later member or a ".DUPLICATE" target.
   */
  lemma KeptFileSurvives(s0: FsState, groups: seq<seq<Path>>, action: Choice, dryRun: bool, i: nat)
    requires i < |groups| && groups[i] != []
    requires forall q :: q in LaterPairs(groups) ==> q.dup != groups[i][0] && DuplicateTarget(q.keep) != groups[i][0]
    ensures SameAt(s0.files, Resolved(s0, groups, action, dryRun).fs.files, groups[i][0])
  {
    var k := groups[i][0];
    forall x | x in Plan(action, LaterPairs(groups))
      ensures k !in x.Touches()
    {
      PlanMembers(action, LaterPairs(groups), x);
    }
    ResolvedFrame(s0, groups, action, dryRun, k);
  }

  // ---------------------------------------------------------------------------
  // What each action does to the files
  // ---------------------------------------------------------------------------

  /** The later members named by the visits. */
  function Dups(qs: seq<Pending>): set<Path>
  {
    set q | q in qs :: q.dup
  }

  /** The later members are pairwise distinct and all present in files. */
  predicate DistinctPresent(qs: seq<Pending>, files: map<Path, Bytes>)
  {
    && (forall i, j :: 0 <= i < j < |qs| ==> qs[i].dup != qs[j].dup)
    && (forall q :: q in qs ==> q.dup in files)
  }

  /** The later members of qs are those of all but its last visit, plus the last one's. */
  lemma DupsLast(qs: seq<Pending>)
    requires qs != []
    ensures Dups(qs) == Dups(qs[..|qs| - 1]) + {qs[|qs| - 1].dup}
  {
    var n := |qs| - 1;
    assert qs == qs[..n] + [qs[n]];
  }

  /** The members stay distinct and present with the last visit exactly when its member is present and new. */
  lemma DistinctPresentLast(qs: seq<Pending>, files: map<Path, Bytes>)
    requires qs != []
    ensures var n := |qs| - 1;
      DistinctPresent(qs, files) <==> DistinctPresent(qs[..n], files) && qs[n].dup in files && qs[n].dup !in Dups(qs[..n])
  {
    var n := |qs| - 1;
    var init, q := qs[..n], qs[n];
    if DistinctPresent(qs, files) {
      forall i, j | 0 <= i < j < n
        ensures init[i].dup != init[j].dup
      {
        assert init[i] == qs[i] && init[j] == qs[j];
      }
      forall w | w in init
        ensures w.dup != q.dup
      {
        var i :| 0 <= i < n && init[i] == w;
        assert qs[i] == w;
      }
      assert q in qs;
    }
    if DistinctPresent(init, files) && q.dup in files && q.dup !in Dups(init) {
      forall i, j | 0 <= i < j < |qs|
        ensures qs[i].dup != qs[j].dup
      {
        if j == n {
          assert qs[i] in init;
        } else {
          assert qs[i] == init[i] && qs[j] == init[j];
        }
      }
      forall w | w in qs
        ensures w.dup in files
      {
        if w != q {
          var i :| 0 <= i < |qs| && qs[i] == w;
          assert init[i] == w;
        }
      }
    }
  }

  /** Removing a set and then one more path is removing both. */
  lemma RemoveOneMore(m: map<Path, Bytes>, d: set<Path>, p: Path)
    ensures (m - d) - {p} == m - (d + {p})
  {
  }

  /** One live delete visit. */
  lemma DeleteVisit(s: FsState, q: Pending)
    ensures var st := Visit(s, DeleteEach, q, false);
      (st.outcome.Done? <==> q.dup in s.files) && (st.outcome.Done? ==> st.fs.files == s.files - {q.dup})
  {
  }

  /** Live delete visits: they complete exactly on distinct present members, and remove exactly those. */
  lemma {:induction false} VisitedDelete(s0: FsState, qs: seq<Pending>)
    ensures var v := Visited(Start(s0), DeleteEach, qs, false);
      (v.outcome.Done? <==> DistinctPresent(qs, s0.files)) &&
      (v.outcome.Done? ==> v.fs.files == s0.files - Dups(qs))
  {
    if qs != [] {
      var n := |qs| - 1;
      var init, q := qs[..n], qs[n];
      VisitedDelete(s0, init);
      DistinctPresentLast(qs, s0.files);
      var prev := Visited(Start(s0), DeleteEach, init, false);
      if prev.outcome.Done? {
        DeleteVisit(prev.fs, q);
        DupsLast(qs);
        RemoveOneMore(s0.files, Dups(init), q.dup);
      }
    }
  }

  /**
   * Live delete completes exactly when there is no empty group and the later
   * members are pairwise distinct and present; it then removes exactly them.
   */
  lemma DeleteRemovesLaterMembers(s0: FsState, groups: seq<seq<Path>>)
    ensures var r, qs := Resolved(s0, groups, DeleteEach, false), LaterPairs(groups);
      (r.outcome.Done? <==> [] !in groups && DistinctPresent(qs, s0.files)) &&
      (r.outcome.Done? ==> r.fs.files == s0.files - Dups(qs))
  {
    if [] !in groups {
      ResolvedFlat(s0, groups, DeleteEach, false);
      VisitedDelete(s0, LaterPairs(groups));
    } else if Resolved(s0, groups, DeleteEach, false).outcome.Done? {
      ResolvedDone(s0, groups, DeleteEach, false);
    }
  }

  /** No later member is the ".DUPLICATE" target of any group. */
  predicate NoDupIsTarget(qs: seq<Pending>)
  {
    forall q, q' :: q in qs && q' in qs ==> q.dup != DuplicateTarget(q'.keep)
  }

  /** Target t holds the bytes some later member of a group with target t had at the start. */
  ghost predicate HoldsDuplicateOf(qs: seq<Pending>, before: map<Path, Bytes>, after: map<Path, Bytes>, t: Path)
  {
    t in after && exists q :: q in qs && DuplicateTarget(q.keep) == t && q.dup in before && after[t] == before[q.dup]
  }

  /** No later member is a target still holds when the last visit is dropped. */
  lemma NoDupIsTargetInit(qs: seq<Pending>)
    requires qs != [] && NoDupIsTarget(qs)
    ensures NoDupIsTarget(qs[..|qs| - 1])
  {
    var n := |qs| - 1;
    var init := qs[..n];
    forall w, w' | w in init && w' in init
      ensures w.dup != DuplicateTarget(w'.keep)
    {
      var i :| 0 <= i < n && init[i] == w;
      var i' :| 0 <= i' < n && init[i'] == w';
      assert qs[i] == w && qs[i'] == w';
      assert w in qs && w' in qs;
    }
  }

  /** Distinct and present later members stay so when the last one is dropped. */
  lemma DistinctPresentInit(qs: seq<Pending>, files: map<Path, Bytes>)
    requires qs != [] && DistinctPresent(qs, files)
    ensures DistinctPresent(qs[..|qs| - 1], files)
  {
    var init := qs[..|qs| - 1];
    forall i, j | 0 <= i < j < |init|
      ensures init[i].dup != init[j].dup
    {
      assert init[i] == qs[i] && init[j] == qs[j];
    }
  }

  /** Before the last visit of a distinct, target-free move, its later member is still untouched. */
  lemma MoveSourceUntouched(s0: FsState, qs: seq<Pending>)
    requires qs != [] && DistinctPresent(qs, s0.files) && NoDupIsTarget(qs)
    ensures var n := |qs| - 1;
      SameAt(s0.files, Visited(Start(s0), MoveEach, qs[..n], false).fs.files, qs[n].dup)
  {
    var n := |qs| - 1;
    var init, q := qs[..n], qs[n];
    forall x | x in Plan(MoveEach, init)
      ensures q.dup !in x.Touches()
    {
      PlanMembers(MoveEach, init, x);
      var q' :| q' in init && x in ActionFor(MoveEach, q');
      assert x == Move(q'.dup, DuplicateTarget(q'.keep));
      var i :| 0 <= i < n && init[i] == q';
      assert qs[i].dup != qs[n].dup;
    }
    VisitedFrame(Start(s0), MoveEach, init, false, q.dup);
  }

  /** One live move visit of a present later member that is not its own target. */
  lemma MoveVisit(s: FsState, q: Pending)
    requires q.dup in s.files && q.dup != DuplicateTarget(q.keep)
    ensures Visit(s, MoveEach, q, false) ==
      Run(FsState((s.files - {q.dup})[DuplicateTarget(q.keep) := s.files[q.dup]], s.dirs), [Move(q.dup, DuplicateTarget(q.keep))], Done)
  {
  }

  /** After one more move, no later member seen so far is present. */
  lemma MoveStepGone(qs: seq<Pending>, prevFiles: map<Path, Bytes>, files: map<Path, Bytes>, v: Bytes)
    requires qs != [] && NoDupIsTarget(qs)
    requires var n := |qs| - 1;
      && (forall w :: w in qs[..n] ==> w.dup !in prevFiles)
      && files == (prevFiles - {qs[n].dup})[DuplicateTarget(qs[n].keep) := v]
    ensures forall w :: w in qs ==> w.dup !in files
  {
    var n := |qs| - 1;
    forall w | w in qs
      ensures w.dup !in files
    {
      assert w.dup != DuplicateTarget(qs[n].keep);
      if w != qs[n] {
        var i :| 0 <= i < |qs| && qs[i] == w;
        assert qs[..n][i] == w;
      }
    }
  }

  /** A target the last visit leaves alone keeps what it held. */
  lemma HoldsCarried(qs: seq<Pending>, before: map<Path, Bytes>, prevFiles: map<Path, Bytes>, files: map<Path, Bytes>, t: Path)
    requires qs != []
    requires HoldsDuplicateOf(qs[..|qs| - 1], before, prevFiles, t)
    requires SameAt(prevFiles, files, t)
    ensures HoldsDuplicateOf(qs, before, files, t)
  {
    var n := |qs| - 1;
    var init := qs[..n];
    var u :| u in init && DuplicateTarget(u.keep) == t && u.dup in before && prevFiles[t] == before[u.dup];
    var k :| 0 <= k < n && init[k] == u;
    assert qs[k] == u;
  }

  /** After one more move, every target seen so far holds the bytes of one of its later members. */
  lemma MoveStepHolds(qs: seq<Pending>, before: map<Path, Bytes>, prevFiles: map<Path, Bytes>, files: map<Path, Bytes>)
    requires qs != [] && NoDupIsTarget(qs)
    requires var n := |qs| - 1;
      && qs[n].dup in before
      && (forall w :: w in qs[..n] ==> HoldsDuplicateOf(qs[..n], before, prevFiles, DuplicateTarget(w.keep)))
      && files == (prevFiles - {qs[n].dup})[DuplicateTarget(qs[n].keep) := before[qs[n].dup]]
    ensures forall w :: w in qs ==> HoldsDuplicateOf(qs, before, files, DuplicateTarget(w.keep))
  {
    var n := |qs| - 1;
    var init, q := qs[..n], qs[n];
    var t := DuplicateTarget(q.keep);
    forall w | w in qs
      ensures HoldsDuplicateOf(qs, before, files, DuplicateTarget(w.keep))
    {
      var t' := DuplicateTarget(w.keep);
      if t' == t {
        assert q in qs && files[t'] == before[q.dup];
      } else {
        var i :| 0 <= i < |qs| && qs[i] == w;
        assert init[i] == w;
        assert q in qs && q.dup != t';
        assert SameAt(prevFiles, files, t');
        HoldsCarried(qs, before, prevFiles, files, t');
      }
    }
  }

  /** Live move visits over distinct present members that are no target: each is gone and each target holds one of them. */
  lemma {:induction false} VisitedMove(s0: FsState, qs: seq<Pending>)
    requires DistinctPresent(qs, s0.files) && NoDupIsTarget(qs)
    ensures var v := Visited(Start(s0), MoveEach, qs, false);
      && v.outcome.Done?
      && (forall q :: q in qs ==> q.dup !in v.fs.files)
      && (forall q :: q in qs ==> HoldsDuplicateOf(qs, s0.files, v.fs.files, DuplicateTarget(q.keep)))
  {
    if qs != [] {
      var n := |qs| - 1;
      var init, q := qs[..n], qs[n];
      DistinctPresentInit(qs, s0.files);
      NoDupIsTargetInit(qs);
      VisitedMove(s0, init);
      var prev := Visited(Start(s0), MoveEach, init, false);
      MoveSourceUntouched(s0, qs);
      assert q in qs;
      MoveVisit(prev.fs, q);
      var files := (prev.fs.files - {q.dup})[DuplicateTarget(q.keep) := s0.files[q.dup]];
      MoveStepGone(qs, prev.fs.files, files, s0.files[q.dup]);
      MoveStepHolds(qs, s0.files, prev.fs.files, files);
    }
  }

  /**
   * Live move completes when the later members are distinct, present and none
   * of them is a ".DUPLICATE" target; then every later member is gone, and each
   * group's target holds the bytes of one of that group's later members.
   */
  lemma MoveRelocatesLaterMembers(s0: FsState, groups: seq<seq<Path>>)
    requires [] !in groups
    requires DistinctPresent(LaterPairs(groups), s0.files) && NoDupIsTarget(LaterPairs(groups))
    ensures var r, qs := Resolved(s0, groups, MoveEach, false), LaterPairs(groups);
      && r.outcome.Done?
      && (forall q :: q in qs ==> q.dup !in r.fs.files)
      && (forall q :: q in qs ==> HoldsDuplicateOf(qs, s0.files, r.fs.files, DuplicateTarget(q.keep)))
  {
    ResolvedFlat(s0, groups, MoveEach, false);
    VisitedMove(s0, LaterPairs(groups));
  }

  /** The visits of the single group [keep, d1, d2]. */
  lemma LaterPairsOfOne(keep: Path, d1: Path, d2: Path)
    ensures LaterPairs([[keep, d1, d2]]) == [Pending(keep, d1), Pending(keep, d2)]
  {
    var groups := [[keep, d1, d2]];
    assert groups[..0] == [];
    assert [keep, d1, d2][1..] == [d1, d2];
    PairsFacts(keep, [d1, d2]);
  }

  /** Two live move visits onto the same target: the second overwrites the first. */
  lemma MoveTwice(s0: FsState, keep: Path, d1: Path, d2: Path)
    requires d1 != d2 && d1 in s0.files && d2 in s0.files
    requires d1 != DuplicateTarget(keep) && d2 != DuplicateTarget(keep)
    ensures var v := Visited(Start(s0), MoveEach, [Pending(keep, d1), Pending(keep, d2)], false);
      && v.outcome.Done?
      && v.fs.files == (s0.files - {d1, d2})[DuplicateTarget(keep) := s0.files[d2]]
  {
    var qs := [Pending(keep, d1), Pending(keep, d2)];
    var t := DuplicateTarget(keep);
    assert qs[..0] == [] && qs[..2] == qs;
    VisitedNext(Start(s0), MoveEach, qs, 0, false);
    MoveVisit(s0, qs[0]);
    var r1 := Visited(Start(s0), MoveEach, qs[..1], false);
    VisitedNext(Start(s0), MoveEach, qs, 1, false);
    MoveVisit(r1.fs, qs[1]);
    assert ((s0.files - {d1})[t := s0.files[d1]] - {d2})[t := s0.files[d2]] == (s0.files - {d1, d2})[t := s0.files[d2]];
  }

  /**
   * All later members of a group are moved to the same target, each over the
   * previous one: of a group [keep, d1, d2] only d2's bytes are left.
   */
  lemma MoveKeepsLastDuplicate(s0: FsState, keep: Path, d1: Path, d2: Path)
    requires d1 != d2 && d1 in s0.files && d2 in s0.files
    requires d1 != DuplicateTarget(keep) && d2 != DuplicateTarget(keep)
    ensures var r := Resolved(s0, [[keep, d1, d2]], MoveEach, false);
      && r.outcome.Done?
      && d1 !in r.fs.files && d2 !in r.fs.files
      && DuplicateTarget(keep) in r.fs.files && r.fs.files[DuplicateTarget(keep)] == s0.files[d2]
  {
    ResolvedFlat(s0, [[keep, d1, d2]], MoveEach, false);
    LaterPairsOfOne(keep, d1, d2);
    MoveTwice(s0, keep, d1, d2);
  }

  /** Copying never removes a file, and every later member's copy lands on its group's target. */
  lemma {:induction false} VisitedCopy(s0: FsState, qs: seq<Pending>)
    requires forall q :: q in qs ==> q.dup in s0.files && q.dup != DuplicateTarget(q.keep)
    ensures var v := Visited(Start(s0), CopyEach, qs, false);
      && v.outcome.Done?
      && s0.files.Keys <= v.fs.files.Keys
      && (forall q :: q in qs ==> DuplicateTarget(q.keep) in v.fs.files)
  {
    if qs != [] {
      var init := qs[..|qs| - 1];
      assert qs == init + [qs[|qs| - 1]];
      VisitedCopy(s0, init);
    }
  }

  /** Before the last visit of a copy where no later member is a target, that member is untouched. */
  lemma CopySourceUntouched(s0: FsState, qs: seq<Pending>)
    requires qs != [] && NoDupIsTarget(qs)
    ensures var n := |qs| - 1;
      SameAt(s0.files, Visited(Start(s0), CopyEach, qs[..n], false).fs.files, qs[n].dup)
  {
    var n := |qs| - 1;
    var init, q := qs[..n], qs[n];
    forall x | x in Plan(CopyEach, init)
      ensures q.dup !in x.Touches()
    {
      PlanMembers(CopyEach, init, x);
      var q' :| q' in init && x in ActionFor(CopyEach, q');
      assert x == Copy(q'.dup, DuplicateTarget(q'.keep));
      var i :| 0 <= i < n && init[i] == q';
      assert qs[i] == q' && q in qs;
    }
    VisitedFrame(Start(s0), CopyEach, init, false, q.dup);
  }

  /** One live copy visit of a present later member that is not its own target. */
  lemma CopyVisit(s: FsState, q: Pending)
    requires q.dup in s.files && q.dup != DuplicateTarget(q.keep)
    ensures Visit(s, CopyEach, q, false) ==
      Run(FsState(s.files[DuplicateTarget(q.keep) := s.files[q.dup]], s.dirs), [Copy(q.dup, DuplicateTarget(q.keep))], Done)
  {
  }

  /** After one more copy onto no later member, every later member seen so far keeps its bytes. */
  lemma CopyStepKeeps(qs: seq<Pending>, before: map<Path, Bytes>, prevFiles: map<Path, Bytes>, files: map<Path, Bytes>, v: Bytes)
    requires qs != [] && NoDupIsTarget(qs)
    requires var n := |qs| - 1;
      && (forall w :: w in qs ==> SameAt(before, prevFiles, w.dup))
      && files == prevFiles[DuplicateTarget(qs[n].keep) := v]
    ensures forall w :: w in qs ==> SameAt(before, files, w.dup)
  {
    var n := |qs| - 1;
    forall w | w in qs
      ensures SameAt(before, files, w.dup)
    {
      assert qs[n] in qs;
      assert w.dup != DuplicateTarget(qs[n].keep);
    }
  }

  /** After one more copy, every target seen so far holds the bytes of one of its later members. */
  lemma CopyStepHolds(qs: seq<Pending>, before: map<Path, Bytes>, prevFiles: map<Path, Bytes>, files: map<Path, Bytes>)
    requires qs != []
    requires var n := |qs| - 1;
      && qs[n].dup in before
      && (forall w :: w in qs[..n] ==> HoldsDuplicateOf(qs[..n], before, prevFiles, DuplicateTarget(w.keep)))
      && files == prevFiles[DuplicateTarget(qs[n].keep) := before[qs[n].dup]]
    ensures forall w :: w in qs ==> HoldsDuplicateOf(qs, before, files, DuplicateTarget(w.keep))
  {
    var n := |qs| - 1;
    var init, q := qs[..n], qs[n];
    var t := DuplicateTarget(q.keep);
    forall w | w in qs
      ensures HoldsDuplicateOf(qs, before, files, DuplicateTarget(w.keep))
    {
      var t' := DuplicateTarget(w.keep);
      if t' == t {
        assert q in qs && files[t'] == before[q.dup];
      } else {
        var i :| 0 <= i < |qs| && qs[i] == w;
        assert init[i] == w;
        assert SameAt(prevFiles, files, t');
        HoldsCarried(qs, before, prevFiles, files, t');
      }
    }
  }

  /**
   * Live copy visits of present later members none of which is a target: they
   * complete, every later member keeps its own bytes, and every target holds
   * the bytes of one of its later members.
   */
  lemma {:induction false} VisitedCopyContents(s0: FsState, qs: seq<Pending>)
    requires (forall q :: q in qs ==> q.dup in s0.files) && NoDupIsTarget(qs)
    ensures var v := Visited(Start(s0), CopyEach, qs, false);
      && v.outcome.Done?
      && (forall q :: q in qs ==> SameAt(s0.files, v.fs.files, q.dup))
      && (forall q :: q in qs ==> HoldsDuplicateOf(qs, s0.files, v.fs.files, DuplicateTarget(q.keep)))
  {
    if qs != [] {
      var n := |qs| - 1;
      var init, q := qs[..n], qs[n];
      assert forall w :: w in init ==> w in qs;
      NoDupIsTargetInit(qs);
      VisitedCopyContents(s0, init);
      var prev := Visited(Start(s0), CopyEach, init, false);
      CopySourceUntouched(s0, qs);
      assert q in qs;
      CopyVisit(prev.fs, q);
      var files := prev.fs.files[DuplicateTarget(q.keep) := s0.files[q.dup]];
      assert forall w :: w in qs ==> SameAt(s0.files, prev.fs.files, w.dup);
      CopyStepKeeps(qs, s0.files, prev.fs.files, files, s0.files[q.dup]);
      CopyStepHolds(qs, s0.files, prev.fs.files, files);
    }
  }

  /** A live copy that completes copied no later member onto itself. */
  lemma {:induction false} VisitedCopyNotOntoItself(s0: FsState, qs: seq<Pending>)
    requires Visited(Start(s0), CopyEach, qs, false).outcome.Done?
    ensures forall q :: q in qs ==> q.dup != DuplicateTarget(q.keep)
  {
    if qs != [] {
      var init := qs[..|qs| - 1];
      assert qs == init + [qs[|qs| - 1]];
      VisitedCopyNotOntoItself(s0, init);
    }
  }

  /**
   * Live copy completes when every later member is present and is not its own
   * target; then no file is lost and every group's target exists. When moreover
   * no later member is any group's target, every later member keeps its bytes
   * and every target holds the bytes of one of its group's later members.
   * Conversely a completed copy never had a later member equal to its own target.
   */
  lemma CopyKeepsEverything(s0: FsState, groups: seq<seq<Path>>)
    ensures var r, qs := Resolved(s0, groups, CopyEach, false), LaterPairs(groups);
      && ([] !in groups && (forall q :: q in qs ==> q.dup in s0.files && q.dup != DuplicateTarget(q.keep)) ==>
            r.outcome.Done? && s0.files.Keys <= r.fs.files.Keys &&
            forall q :: q in qs ==> DuplicateTarget(q.keep) in r.fs.files)
      && ([] !in groups && (forall q :: q in qs ==> q.dup in s0.files) && NoDupIsTarget(qs) ==>
            && (forall q :: q in qs ==> SameAt(s0.files, r.fs.files, q.dup))
            && (forall q :: q in qs ==> HoldsDuplicateOf(qs, s0.files, r.fs.files, DuplicateTarget(q.keep))))
      && (r.outcome.Done? ==> forall q :: q in qs ==> q.dup != DuplicateTarget(q.keep))
  {
    var qs := LaterPairs(groups);
    if [] !in groups {
      ResolvedFlat(s0, groups, CopyEach, false);
      if forall q :: q in qs ==> q.dup in s0.files && q.dup != DuplicateTarget(q.keep) {
        VisitedCopy(s0, qs);
      }
      if (forall q :: q in qs ==> q.dup in s0.files) && NoDupIsTarget(qs) {
        VisitedCopyContents(s0, qs);
      }
      if Resolved(s0, groups, CopyEach, false).outcome.Done? {
        VisitedCopyNotOntoItself(s0, qs);
      }
    } else if Resolved(s0, groups, CopyEach, false).outcome.Done? {
      ResolvedDone(s0, groups, CopyEach, false);
    }
  }
}
