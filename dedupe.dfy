/**
 * The --dedupe path of main: handle_duplicates applied to what find_duplicates
 * returned.
 */
module Dedupe {
  import opened Paths
  import opened Fs
  import opened Duplicates
  import opened DuplicatesProperties
  import opened Resolve
  import opened ResolveProperties

  /** No path occurs twice anywhere in the groups, within one group or across two. */
  ghost predicate Unique(groups: seq<seq<Path>>)
  {
    forall i, a, j, b ::
      0 <= i < |groups| && 0 <= a < |groups[i]| && 0 <= j < |groups| && 0 <= b < |groups[j]| && (i != j || a != b) ==>
        groups[i][a] != groups[j][b]
  }

  /** Dropping the last group keeps the paths unrepeated. */
  lemma UniqueInit(groups: seq<seq<Path>>)
    requires groups != [] && Unique(groups)
    ensures Unique(groups[..|groups| - 1])
  {
    var init := groups[..|groups| - 1];
    forall i, a, j, b | 0 <= i < |init| && 0 <= a < |init[i]| && 0 <= j < |init| && 0 <= b < |init[j]| && (i != j || a != b)
      ensures init[i][a] != init[j][b]
    {
      assert init[i] == groups[i] && init[j] == groups[j];
    }
  }

  /** A later member of the earlier groups is no member of the last group. */
  lemma EarlierNotInLast(groups: seq<seq<Path>>, w: Pending, b: nat)
    requires groups != [] && Unique(groups)
    requires w in LaterPairs(groups[..|groups| - 1]) && b < |groups[|groups| - 1]|
    ensures w.dup != groups[|groups| - 1][b]
  {
    var init := groups[..|groups| - 1];
    LaterPairsSound(init, w);
    var i, j :| 0 <= i < |init| && 1 <= j < |init[i]| && w == Pending(init[i][0], init[i][j]);
    assert init[i] == groups[i];
  }

  /** Without repeated paths, the later members the loops visit are pairwise distinct. */
  lemma {:induction false} LaterMembersDistinct(groups: seq<seq<Path>>)
    requires Unique(groups)
    ensures forall x, y :: 0 <= x < y < |LaterPairs(groups)| ==> LaterPairs(groups)[x].dup != LaterPairs(groups)[y].dup
  {
    if groups != [] {
      var n := |groups| - 1;
      var init, g := groups[..n], groups[n];
      UniqueInit(groups);
      LaterMembersDistinct(init);
      var prev := LaterPairs(init);
      var extra := GroupPairs(g);
      if g != [] {
        PairsFacts(g[0], g[1..]);
      }
      var qs := LaterPairs(groups);
      LaterPairsNext(groups);
      forall x, y | 0 <= x < y < |qs|
        ensures qs[x].dup != qs[y].dup
      {
        if y < |prev| {
          assert qs[x] == prev[x] && qs[y] == prev[y];
        } else if x >= |prev| {
          assert qs[x].dup == g[x - |prev| + 1] && qs[y].dup == g[y - |prev| + 1];
        } else {
          assert qs[x] == prev[x] && prev[x] in prev;
          assert qs[y].dup == g[y - |prev| + 1];
          EarlierNotInLast(groups, prev[x], y - |prev| + 1);
        }
      }
    }
  }

  /** No group's first path is a later member of any group. */
  lemma FirstIsNoLaterMember(groups: seq<seq<Path>>, i: nat, q: Pending)
    requires Unique(groups) && i < |groups| && groups[i] != [] && q in LaterPairs(groups)
    ensures q.dup != groups[i][0]
  {
    LaterPairsMembers(groups, q);
  }

  /** The groups find_duplicates returns repeat no path, provided the walk yields each path once. */
  lemma GroupsUnique(files: seq<Path>, kg: Keying)
    requires forall i, j :: 0 <= i < j < |files| ==> files[i] != files[j]
    ensures Unique(Grouped(files, kg))
  {
    var gs := Grouped(files, kg);
    forall i, a, j, b | 0 <= i < |gs| && 0 <= a < |gs[i]| && 0 <= j < |gs| && 0 <= b < |gs[j]| && (i != j || a != b)
      ensures gs[i][a] != gs[j][b]
    {
      if i == j {
        MembersDistinct(files, kg, GroupKeys(files, kg)[i]);
        if a > b {
          assert gs[i][b] != gs[i][a];
        }
      } else if i < j {
        GroupsAreDisjoint(files, kg, i, j, gs[i][a]);
      } else {
        GroupsAreDisjoint(files, kg, j, i, gs[j][b]);
      }
    }
  }

  /**
   * handle_duplicates with delete, live, on groups that repeat no path, hold no
   * empty group and name only files: the run completes, exactly the later
   * members are removed, and the first file of every group keeps its bytes.
   */
  lemma DeleteUniqueGroups(s0: FsState, gs: seq<seq<Path>>)
    requires Unique(gs) && [] !in gs
    requires forall i, a :: 0 <= i < |gs| && 0 <= a < |gs[i]| ==> gs[i][a] in s0.files
    ensures var r := Resolved(s0, gs, DeleteEach, false);
      && r.outcome.Done?
      && r.fs.files == s0.files - Dups(LaterPairs(gs))
      && forall i :: 0 <= i < |gs| ==> gs[i] != [] && SameAt(s0.files, r.fs.files, gs[i][0])
  {
    var qs := LaterPairs(gs);
    LaterMembersDistinct(gs);
    forall q | q in qs
      ensures q.dup in s0.files
    {
      LaterPairsSound(gs, q);
    }
    DeleteRemovesLaterMembers(s0, gs);
    forall i | 0 <= i < |gs|
      ensures gs[i] != [] && gs[i][0] !in Dups(qs)
    {
      assert gs[i] in gs;
      if gs[i][0] in Dups(qs) {
        var q :| q in qs && q.dup == gs[i][0];
        FirstIsNoLaterMember(gs, i, q);
      }
    }
  }

  /**
   * find_duplicates then handle_duplicates with delete, live: when the walk
   * yields each path once and every yielded path is a file, the run completes,
   * exactly the later members of the groups are removed, and the first file of
   * every group is still there with its bytes.
   */
  lemma DeleteAfterFind(s0: FsState, files: seq<Path>, kg: Keying)
    requires forall i, j :: 0 <= i < j < |files| ==> files[i] != files[j]
    requires forall f :: f in files ==> f in s0.files
    ensures var gs := Grouped(files, kg);
      var r := Resolved(s0, gs, DeleteEach, false);
      && r.outcome.Done?
      && r.fs.files == s0.files - Dups(LaterPairs(gs))
      && forall i :: 0 <= i < |gs| ==> gs[i] != [] && SameAt(s0.files, r.fs.files, gs[i][0])
  {
    var gs := Grouped(files, kg);
    GroupsAreDuplicates(files, kg);
    GroupsUnique(files, kg);
    forall i, a | 0 <= i < |gs| && 0 <= a < |gs[i]|
      ensures gs[i][a] in s0.files
    {
      assert gs[i][a] in gs[i];
    }
    assert [] !in gs;
    DeleteUniqueGroups(s0, gs);
  }
}
