/**
 * POSIX path strings as Python's os.path treats them: base names and joins.
 */
module Paths {

  type Path = string

  /** os.path.basename: the longest suffix of p that holds no '/'. */
  function Basename(p: Path): (r: Path)
    ensures '/' !in r
  {
    if p == [] then []
    else if p[|p| - 1] == '/' then []
    else Basename(p[..|p| - 1]) + [p[|p| - 1]]
  }

  /** The base name is a suffix of p, and it is all of p or follows a '/'. */
  lemma {:induction false} BasenameSuffix(p: Path)
    ensures |Basename(p)| <= |p| && Basename(p) == p[|p| - |Basename(p)|..]
    ensures |Basename(p)| < |p| ==> p[|p| - |Basename(p)| - 1] == '/'
  {
    if p == [] {
    } else if p[|p| - 1] == '/' {
      assert Basename(p) == [];
    } else {
      var init, c := p[..|p| - 1], p[|p| - 1];
      BasenameSuffix(init);
      var b := Basename(init);
      var k := |init| - |b|;
      assert Basename(p) == b + [c];
      assert |p| - |Basename(p)| == k;
      SliceSnoc(p, k);
      assert p[k..] == b + [c];
      if k > 0 {
        assert p[k - 1] == init[k - 1];
      }
    }
  }

  /** A suffix of p is the same suffix of p without its last element, followed by that element. */
  lemma SliceSnoc(p: Path, k: nat)
    requires k < |p|
    ensures p[k..] == p[..|p| - 1][k..] + [p[|p| - 1]]
  {
  }

  /** os.path.join of two components: an absolute b replaces a, otherwise one '/' separates them. */
  function Join(a: Path, b: Path): Path
  {
    if |b| > 0 && b[0] == '/' then b
    else if a == [] || a[|a| - 1] == '/' then a + b
    else a + "/" + b
  }

  /**
   * An absolute b is the whole join. Otherwise the join starts with a, ends
   * with b, and between them is one added '/' exactly when a is non-empty and
   * does not already end with one.
   */
  lemma JoinParts(a: Path, b: Path)
    ensures |b| > 0 && b[0] == '/' ==> Join(a, b) == b
    ensures !(|b| > 0 && b[0] == '/') ==>
      var j := Join(a, b);
      var k := |j| - |b|;
      && a <= j && k >= |a| && j[k..] == b
      && (k == |a| <==> a == [] || a[|a| - 1] == '/')
      && (k > |a| ==> k == |a| + 1 && j[|a|] == '/')
  {
    if !(|b| > 0 && b[0] == '/') {
      var j := Join(a, b);
      if a == [] || a[|a| - 1] == '/' {
        assert j == a + b;
        assert j[|a|..] == b;
      } else {
        assert j == (a + "/") + b;
        assert j[|a| + 1..] == b;
      }
    }
  }

  /** A slash-free b that follows a separator (or nothing) is the base name of the whole. */
  lemma BasenameAfterSeparator(x: Path, b: Path)
    requires '/' !in b
    requires x == [] || x[|x| - 1] == '/'
    ensures Basename(x + b) == b
  {
    var s := x + b;
    var r := Basename(s);
    BasenameSuffix(s);
    assert |r| == |b|;
    assert r == s[|x|..] == b;
  }

  /** Joining a directory with a slash-free name gives a path whose base name is that name. */
  lemma BasenameOfJoin(a: Path, b: Path)
    requires '/' !in b
    ensures Basename(Join(a, b)) == b
  {
    if a == [] || a[|a| - 1] == '/' {
      BasenameAfterSeparator(a, b);
    } else {
      BasenameAfterSeparator(a + "/", b);
      assert a + "/" + b == (a + "/") + b;
    }
  }

  /** The base name of a base name is itself. */
  lemma BasenameIdempotent(p: Path)
    ensures Basename(Basename(p)) == Basename(p)
  {
    BasenameAfterSeparator([], Basename(p));
    assert [] + Basename(p) == Basename(p);
  }

  /** Joining one directory with two relative components gives equal paths exactly when the components are equal. */
  lemma JoinInjective(a: Path, b1: Path, b2: Path)
    requires b1 != [] && b1[0] != '/'
    requires b2 != [] && b2[0] != '/'
    ensures Join(a, b1) == Join(a, b2) <==> b1 == b2
  {
    if Join(a, b1) == Join(a, b2) {
      var x := if a == [] || a[|a| - 1] == '/' then a else a + "/";
      assert Join(a, b1) == x + b1 && Join(a, b2) == x + b2;
      assert b1 == (x + b1)[|x|..];
      assert b2 == (x + b2)[|x|..];
    }
  }
}
