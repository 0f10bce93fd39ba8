/**
 * Which walked paths an operation sees: the hidden-name test of is_hidden and
 * the skip_hidden filter of get_files. The directory walk itself is an input.
 */
module Enumeration {
  import opened Paths

  /** A file is hidden when its base name starts with '.'. */
  predicate IsHidden(p: Path)
  {
    var name := Basename(p);
    |name| > 0 && name[0] == '.'
  }

  /** A non-empty suffix of p holds p's last element. */
  lemma LastInSuffix(p: Path, k: nat)
    requires p != [] && k <= |p|
    ensures k < |p| ==> p[|p| - 1] in p[k..]
  {
    if k < |p| {
      assert p[k..][|p| - 1 - k] == p[|p| - 1];
    }
  }

  /** A position that starts the path or follows a '/', with no '/' after it, is where the base name starts. */
  lemma {:induction false} BasenameStart(p: Path, k: nat)
    requires k <= |p| && (k == 0 || p[k - 1] == '/') && '/' !in p[k..]
    ensures k == |p| - |Basename(p)|
  {
    if p != [] {
      var n := |p| - 1;
      if p[n] == '/' {
        LastInSuffix(p, k);
      } else {
        var init := p[..n];
        assert k <= n;
        assert forall i :: 0 <= i < n - k ==> init[k..][i] == p[k..][i];
        BasenameStart(init, k);
      }
    }
  }

  /** A path is hidden exactly when some '.' starts it or follows a '/', with no '/' after that dot. */
  lemma HiddenByName(p: Path)
    ensures IsHidden(p) <==>
      exists k :: 0 <= k < |p| && p[k] == '.' && (k == 0 || p[k - 1] == '/') && '/' !in p[k..]
  {
    var name := Basename(p);
    BasenameSuffix(p);
    var k := |p| - |name|;
    if IsHidden(p) {
      assert p[k] == name[0] && p[k..] == name;
    }
    if exists k' :: 0 <= k' < |p| && p[k'] == '.' && (k' == 0 || p[k' - 1] == '/') && '/' !in p[k'..] {
      var k' :| 0 <= k' < |p| && p[k'] == '.' && (k' == 0 || p[k' - 1] == '/') && '/' !in p[k'..];
      BasenameStart(p, k');
      assert name[0] == p[k];
    }
  }

  /** The walked paths that get_files yields, in walk order. */
  function Visible(walked: seq<Path>, skipHidden: bool): seq<Path>
  {
    if walked == [] then []
    else
      var p := walked[|walked| - 1];
      Visible(walked[..|walked| - 1], skipHidden) + (if skipHidden && IsHidden(p) then [] else [p])
  }

  /** get_files: one pass over the walk, dropping hidden paths when asked to. */
  method GetFiles(walked: seq<Path>, skipHidden: bool) returns (files: seq<Path>)
    ensures files == Visible(walked, skipHidden)
  {
    files := [];
    var i := 0;
    while i < |walked|
      invariant 0 <= i <= |walked|
      invariant files == Visible(walked[..i], skipHidden)
    {
      var path := walked[i];
      assert walked[..i + 1][..i] == walked[..i];
      if !(skipHidden && IsHidden(path)) {
        files := files + [path];
      }
      i := i + 1;
    }
    assert walked[..i] == walked;
  }

  /** A path is yielded exactly when it was walked and is not a hidden one that is skipped. */
  lemma {:induction false} VisibleMembers(walked: seq<Path>, skipHidden: bool, p: Path)
    ensures p in Visible(walked, skipHidden) <==> p in walked && !(skipHidden && IsHidden(p))
  {
    if walked != [] {
      var init := walked[..|walked| - 1];
      VisibleMembers(init, skipHidden, p);
      assert walked == init + [walked[|walked| - 1]];
    }
  }

  /** Filtering distributes over concatenation, so yielded paths keep their walk order. */
  lemma {:induction false} VisibleAppend(a: seq<Path>, b: seq<Path>, skipHidden: bool)
    ensures Visible(a + b, skipHidden) == Visible(a, skipHidden) + Visible(b, skipHidden)
  {
    if b != [] {
      var init := b[..|b| - 1];
      VisibleAppend(a, init, skipHidden);
      assert (a + b)[..|a + b| - 1] == a + init;
    } else {
      assert a + b == a;
    }
  }

  /** Without skip_hidden every walked path is yielded. */
  lemma {:induction false} VisibleAll(walked: seq<Path>)
    ensures Visible(walked, false) == walked
  {
    if walked != [] {
      VisibleAll(walked[..|walked| - 1]);
    }
  }
}
