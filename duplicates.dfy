/**
 * find_duplicates: an order-keeping group-by of the yielded files, by
 * (base name, size) or by content digest, keeping only buckets with more than
 * one file.
 */
module Duplicates {
  import opened Wrappers
  import opened Paths
  import opened Enumeration
  import opened Fs

  /** The hex digest of a file's content. */
  type Digest = string

  datatype Method = NameSize | Checksum

  /** The bucket key of a file. */
  datatype Key = NameSizeKey(name: string, size: nat) | ChecksumKey(digest: Digest)

  /**
   * How files are keyed. `size` stands for os.path.getsize and `digest` for
   * sha256sum, which yields None where reading the file raises.
   */
  datatype Keying = Keying(scheme: Method, size: Path -> nat, digest: Path -> Option<Digest>)
  {
    /** The key of f, or None when f is left out of every bucket. */
    function KeyOf(f: Path): Option<Key>
    {
      match scheme
      case NameSize => Some(NameSizeKey(Basename(f), size(f)))
      case Checksum =>
        match digest(f)
        case Some(d) => Some(ChecksumKey(d))
        case None => None
    }
  }

  /**
   * A file gets no key exactly when hashing it failed; two files share a key
   * exactly when their base names and sizes are equal (name-size), or their
   * digests are present and equal (checksum).
   */
  lemma KeyOfShared(kg: Keying, f: Path, g: Path)
    ensures kg.KeyOf(f).None? <==> kg.scheme == Checksum && kg.digest(f).None?
    ensures kg.scheme == NameSize ==>
      (kg.KeyOf(f) == kg.KeyOf(g) <==> Basename(f) == Basename(g) && kg.size(f) == kg.size(g))
    ensures kg.scheme == Checksum ==>
      (kg.KeyOf(f).Some? && kg.KeyOf(f) == kg.KeyOf(g) <==> kg.digest(f).Some? && kg.digest(f) == kg.digest(g))
  {
  }

  /** The bucket of key k: the files keyed k, in enumeration order. */
  function Members(files: seq<Path>, kg: Keying, k: Key): seq<Path>
  {
    if files == [] then []
    else
      var f := files[|files| - 1];
      Members(files[..|files| - 1], kg, k) + (if kg.KeyOf(f) == Some(k) then [f] else [])
  }

  /** The indices in files of the members of bucket k, ascending. */
  function Positions(files: seq<Path>, kg: Keying, k: Key): seq<nat>
  {
    if files == [] then []
    else
      Positions(files[..|files| - 1], kg, k) + (if kg.KeyOf(files[|files| - 1]) == Some(k) then [|files| - 1] else [])
  }

  /** The first index of a file keyed k, or |files| when there is none. */
  function FirstPos(files: seq<Path>, kg: Keying, k: Key): nat
  {
    if files == [] then 0
    else
      var n := |files| - 1;
      var prev := FirstPos(files[..n], kg, k);
      if prev < n then prev
      else if kg.KeyOf(files[n]) == Some(k) then n
      else |files|
  }

  /** The distinct keys in the order they were first met: the dict's insertion order. */
  function KeyOrder(files: seq<Path>, kg: Keying): seq<Key>
  {
    if files == [] then []
    else
      var order := KeyOrder(files[..|files| - 1], kg);
      match kg.KeyOf(files[|files| - 1])
      case Some(k) => if k in order then order else order + [k]
      case None => order
  }

  /** The keys of ks whose bucket has more than one file, in the order of ks. */
  function Shared(files: seq<Path>, kg: Keying, ks: seq<Key>): seq<Key>
  {
    if ks == [] then []
    else
      var k := ks[|ks| - 1];
      Shared(files, kg, ks[..|ks| - 1]) + (if |Members(files, kg, k)| > 1 then [k] else [])
  }

  /** The keys of the groups find_duplicates returns, in the order it returns them. */
  function GroupKeys(files: seq<Path>, kg: Keying): seq<Key>
  {
    Shared(files, kg, KeyOrder(files, kg))
  }

  /** [group for group in dups.values() if len(group) > 1]. */
  function Grouped(files: seq<Path>, kg: Keying): seq<seq<Path>>
  {
    var ks := GroupKeys(files, kg);
    seq(|ks|, i requires 0 <= i < |ks| => Members(files, kg, ks[i]))
  }

  /** The loop of lines 87-97: dups[key].append(f) for every file that has a key; the dict is its key order plus its buckets. */
  method Bucket(files: seq<Path>, kg: Keying) returns (order: seq<Key>, buckets: map<Key, seq<Path>>)
    ensures order == KeyOrder(files, kg)
    ensures forall k :: k in buckets <==> k in order
    ensures forall k :: k in buckets ==> buckets[k] == Members(files, kg, k)
  {
    order, buckets := [], map[];
    var i := 0;
    while i < |files|
      invariant 0 <= i <= |files|
      invariant order == KeyOrder(files[..i], kg)
      invariant forall k :: k in buckets <==> k in order
      invariant forall k :: k in buckets ==> buckets[k] == Members(files[..i], kg, k)
      invariant forall k :: k !in buckets ==> Members(files[..i], kg, k) == []
    {
      var f := files[i];
      assert files[..i + 1][..i] == files[..i];
      var key := kg.KeyOf(f);
      if key.Some? {
        var k := key.value;
        if k in buckets {
          buckets := buckets[k := buckets[k] + [f]];
        } else {
          order := order + [k];
          buckets := buckets[k := [f]];
        }
      }
      i := i + 1;
    }
    assert files[..i] == files;
  }

  /** Line 100: the buckets with more than one file, in insertion order. */
  method KeepShared(ghost files: seq<Path>, ghost kg: Keying, order: seq<Key>, buckets: map<Key, seq<Path>>)
    returns (groups: seq<seq<Path>>)
    requires forall k :: k in order ==> k in buckets && buckets[k] == Members(files, kg, k)
    ensures |groups| == |Shared(files, kg, order)|
    ensures forall n :: 0 <= n < |groups| ==> groups[n] == Members(files, kg, Shared(files, kg, order)[n])
  {
    groups := [];
    ghost var kept: seq<Key> := [];
    var j := 0;
    while j < |order|
      invariant 0 <= j <= |order|
      invariant kept == Shared(files, kg, order[..j])
      invariant |groups| == |kept|
      invariant forall n :: 0 <= n < |groups| ==> groups[n] == Members(files, kg, kept[n])
    {
      assert order[..j + 1][..j] == order[..j];
      var group := buckets[order[j]];
      if |group| > 1 {
        groups := groups + [group];
        kept := kept + [order[j]];
      }
      j := j + 1;
    }
    assert order[..j] == order;
  }

  /** find_duplicates: list the files, bucket them by key, keep the buckets holding more than one file. */
  method FindDuplicates(walked: seq<Path>, methodName: string, skipHidden: bool, size: Path -> nat, digest: Path -> Option<Digest>)
    returns (r: Result<seq<seq<Path>>, Error>)
    ensures methodName == "name-size" ==> r == Success(Grouped(Visible(walked, skipHidden), Keying(NameSize, size, digest)))
    ensures methodName == "checksum" ==> r == Success(Grouped(Visible(walked, skipHidden), Keying(Checksum, size, digest)))
    ensures methodName != "name-size" && methodName != "checksum" ==> r == Failure(UnknownMethod(methodName))
  {
    var files := GetFiles(walked, skipHidden);
    var m: Method;
    if methodName == "name-size" {
      m := NameSize;
    } else if methodName == "checksum" {
      m := Checksum;
    } else {
      return Failure(UnknownMethod(methodName));
    }
    var kg := Keying(m, size, digest);
    var order, buckets := Bucket(files, kg);
    var groups := KeepShared(files, kg, order, buckets);
    assert groups == Grouped(files, kg);
    return Success(groups);
  }
}

module DuplicatesProperties {
  import opened Wrappers
  import opened Paths
  import opened Duplicates

  // ---------------------------------------------------------------------------
  // Buckets
  // ---------------------------------------------------------------------------

  /** A bucket holds exactly the enumerated files with its key. */
  lemma {:induction false} MembersKeyed(files: seq<Path>, kg: Keying, k: Key, f: Path)
    ensures f in Members(files, kg, k) <==> f in files && kg.KeyOf(f) == Some(k)
  {
    if files != [] {
      var init := files[..|files| - 1];
      MembersKeyed(init, kg, k, f);
      assert files == init + [files[|files| - 1]];
    }
  }

  /** A bucket records one index per member. */
  lemma {:induction false} PositionsCount(files: seq<Path>, kg: Keying, k: Key)
    ensures |Positions(files, kg, k)| == |Members(files, kg, k)|
  {
    if files != [] {
      PositionsCount(files[..|files| - 1], kg, k);
    }
  }

  /** The i-th member of a bucket is the file at its i-th recorded index. */
  lemma {:induction false} PositionsPoint(files: seq<Path>, kg: Keying, k: Key, i: nat)
    requires i < |Positions(files, kg, k)|
    ensures |Positions(files, kg, k)| == |Members(files, kg, k)|
    ensures Positions(files, kg, k)[i] < |files| && files[Positions(files, kg, k)[i]] == Members(files, kg, k)[i]
  {
    PositionsCount(files, kg, k);
    var n := |files| - 1;
    var init := files[..n];
    var ps0, ms0 := Positions(init, kg, k), Members(init, kg, k);
    PositionsCount(init, kg, k);
    if i < |ps0| {
      PositionsPoint(init, kg, k, i);
      assert Positions(files, kg, k)[i] == ps0[i];
      assert Members(files, kg, k)[i] == ms0[i];
      assert files[ps0[i]] == init[ps0[i]];
    }
  }

  /** The recorded indices of a bucket ascend strictly: members keep enumeration order. */
  lemma {:induction false} PositionsAscend(files: seq<Path>, kg: Keying, k: Key)
    ensures forall i :: 0 <= i < |Positions(files, kg, k)| ==> Positions(files, kg, k)[i] < |files|
    ensures forall i, j :: 0 <= i < j < |Positions(files, kg, k)| ==> Positions(files, kg, k)[i] < Positions(files, kg, k)[j]
  {
    if files != [] {
      var init := files[..|files| - 1];
      PositionsAscend(init, kg, k);
      var ps0, ps := Positions(init, kg, k), Positions(files, kg, k);
      assert forall i :: 0 <= i < |ps0| ==> ps[i] == ps0[i];
    }
  }

  /** The recorded indices are exactly the indices of the files keyed k. */
  lemma {:induction false} PositionsExact(files: seq<Path>, kg: Keying, k: Key, n: nat)
    requires n < |files|
    ensures n in Positions(files, kg, k) <==> kg.KeyOf(files[n]) == Some(k)
  {
    var last := |files| - 1;
    var init := files[..last];
    var ps0 := Positions(init, kg, k);
    var extra: seq<nat> := if kg.KeyOf(files[last]) == Some(k) then [last] else [];
    assert Positions(files, kg, k) == ps0 + extra;
    PositionsAscend(init, kg, k);
    if n < last {
      PositionsExact(init, kg, k, n);
      assert files[n] == init[n];
      assert n !in extra;
    } else {
      assert n !in ps0;
    }
  }

  /** When no file is enumerated twice, no bucket holds a file twice. */
  lemma MembersDistinct(files: seq<Path>, kg: Keying, k: Key)
    requires forall i, j :: 0 <= i < j < |files| ==> files[i] != files[j]
    ensures forall a, b :: 0 <= a < b < |Members(files, kg, k)| ==> Members(files, kg, k)[a] != Members(files, kg, k)[b]
  {
    PositionsAscend(files, kg, k);
    forall a, b | 0 <= a < b < |Members(files, kg, k)|
      ensures Members(files, kg, k)[a] != Members(files, kg, k)[b]
    {
      PositionsCount(files, kg, k);
      PositionsPoint(files, kg, k, a);
      PositionsPoint(files, kg, k, b);
    }
  }

  /** The first member of a non-empty bucket is the first file keyed k. */
  lemma {:induction false} FirstPosFacts(files: seq<Path>, kg: Keying, k: Key)
    ensures FirstPos(files, kg, k) <= |files|
    ensures FirstPos(files, kg, k) < |files| <==> Members(files, kg, k) != []
    ensures FirstPos(files, kg, k) < |files| ==>
      kg.KeyOf(files[FirstPos(files, kg, k)]) == Some(k) && Members(files, kg, k)[0] == files[FirstPos(files, kg, k)]
  {
    if files != [] {
      var n := |files| - 1;
      var init := files[..n];
      FirstPosFacts(init, kg, k);
      var prev := FirstPos(init, kg, k);
      if prev < n {
        assert files[prev] == init[prev];
      }
    }
  }

  /** No file before FirstPos is keyed k. */
  lemma {:induction false} FirstPosLeast(files: seq<Path>, kg: Keying, k: Key, m: nat)
    requires m < FirstPos(files, kg, k) && m < |files|
    ensures kg.KeyOf(files[m]) != Some(k)
  {
    var n := |files| - 1;
    var init := files[..n];
    var prev := FirstPos(init, kg, k);
    FirstPosFacts(init, kg, k);
    if prev < n {
      assert FirstPos(files, kg, k) == prev;
      FirstPosLeast(init, kg, k, m);
      assert files[m] == init[m];
    } else if m < n {
      FirstPosLeast(init, kg, k, m);
      assert files[m] == init[m];
    }
  }

  /** Files appended after a key was first seen do not move its first position. */
  lemma FirstPosStays(files: seq<Path>, kg: Keying, k: Key)
    requires files != [] && Members(files[..|files| - 1], kg, k) != []
    ensures FirstPos(files, kg, k) == FirstPos(files[..|files| - 1], kg, k)
  {
    FirstPosFacts(files[..|files| - 1], kg, k);
  }

  // ---------------------------------------------------------------------------
  // Key order
  // ---------------------------------------------------------------------------

  /** Keys listed in strictly increasing order of first occurrence (hence distinct). */
  ghost predicate FirstSeenOrder(files: seq<Path>, kg: Keying, ks: seq<Key>)
  {
    forall a, b :: 0 <= a < b < |ks| ==> FirstPos(files, kg, ks[a]) < FirstPos(files, kg, ks[b])
  }

  /** The dict's keys are the keys of the files, each once, in order of first occurrence. */
  lemma {:induction false} KeyOrderFacts(files: seq<Path>, kg: Keying)
    ensures forall k :: k in KeyOrder(files, kg) <==> Members(files, kg, k) != []
    ensures FirstSeenOrder(files, kg, KeyOrder(files, kg))
  {
    if files != [] {
      var n := |files| - 1;
      var init := files[..n];
      KeyOrderFacts(init, kg);
      var prev := KeyOrder(init, kg);
      forall x | x in prev
        ensures FirstPos(files, kg, x) == FirstPos(init, kg, x) < n
      {
        FirstPosStays(files, kg, x);
        FirstPosFacts(init, kg, x);
      }
      match kg.KeyOf(files[n])
      case Some(k) =>
        if k !in prev {
          FirstPosFacts(init, kg, k);
          assert FirstPos(files, kg, k) == n;
          var order := KeyOrder(files, kg);
          forall a, b | 0 <= a < b < |order|
            ensures FirstPos(files, kg, order[a]) < FirstPos(files, kg, order[b])
          {
            assert order[a] in prev;
            if b < |prev| {
              assert order[b] in prev;
            }
          }
        } else {
          assert FirstSeenOrder(files, kg, prev);
        }
      case None =>
        assert FirstSeenOrder(files, kg, prev);
    }
  }

  /** Keeping only the shared keys keeps exactly those and keeps their order. */
  lemma {:induction false} SharedFacts(files: seq<Path>, kg: Keying, ks: seq<Key>)
    ensures forall k :: k in Shared(files, kg, ks) <==> k in ks && |Members(files, kg, k)| > 1
    ensures FirstSeenOrder(files, kg, ks) ==> FirstSeenOrder(files, kg, Shared(files, kg, ks))
  {
    if ks != [] {
      var init := ks[..|ks| - 1];
      SharedFacts(files, kg, init);
      assert ks == init + [ks[|ks| - 1]];
      if FirstSeenOrder(files, kg, ks) {
        var sh := Shared(files, kg, ks);
        var prev := Shared(files, kg, init);
        forall a, b | 0 <= a < b < |sh|
          ensures FirstPos(files, kg, sh[a]) < FirstPos(files, kg, sh[b])
        {
          if b >= |prev| {
            assert sh[a] in prev;
            var i :| 0 <= i < |init| && init[i] == sh[a];
            assert ks[i] == sh[a] && ks[|ks| - 1] == sh[b];
          }
        }
      }
    }
  }

  // ---------------------------------------------------------------------------
  // The groups find_duplicates returns
  // ---------------------------------------------------------------------------

  lemma GroupKeysFacts(files: seq<Path>, kg: Keying)
    ensures forall k :: k in GroupKeys(files, kg) <==> |Members(files, kg, k)| > 1
    ensures FirstSeenOrder(files, kg, GroupKeys(files, kg))
  {
    KeyOrderFacts(files, kg);
    SharedFacts(files, kg, KeyOrder(files, kg));
  }

  /** Every group has at least two files, all enumerated, all with a key: the group's key. */
  lemma GroupsAreDuplicates(files: seq<Path>, kg: Keying)
    ensures forall i :: 0 <= i < |Grouped(files, kg)| ==>
      |Grouped(files, kg)[i]| >= 2 &&
      forall f :: f in Grouped(files, kg)[i] ==> f in files && kg.KeyOf(f) == Some(GroupKeys(files, kg)[i])
  {
    GroupKeysFacts(files, kg);
    forall i, f | 0 <= i < |Grouped(files, kg)| && f in Grouped(files, kg)[i]
      ensures f in files && kg.KeyOf(f) == Some(GroupKeys(files, kg)[i])
    {
      MembersKeyed(files, kg, GroupKeys(files, kg)[i], f);
    }
    forall i | 0 <= i < |Grouped(files, kg)|
      ensures |Grouped(files, kg)[i]| >= 2
    {
      assert GroupKeys(files, kg)[i] in GroupKeys(files, kg);
    }
  }

  /** No file is in two groups. */
  lemma GroupsAreDisjoint(files: seq<Path>, kg: Keying, i: nat, j: nat, f: Path)
    requires i < j < |Grouped(files, kg)|
    ensures !(f in Grouped(files, kg)[i] && f in Grouped(files, kg)[j])
  {
    GroupKeysFacts(files, kg);
    var ks := GroupKeys(files, kg);
    MembersKeyed(files, kg, ks[i], f);
    MembersKeyed(files, kg, ks[j], f);
  }

  /** A sequence holding two different paths has at least two elements. */
  lemma TwoDistinct(s: seq<Path>, f: Path, g: Path)
    requires f in s && g in s && f != g
    ensures |s| >= 2
  {
    var i :| 0 <= i < |s| && s[i] == f;
    var j :| 0 <= j < |s| && s[j] == g;
    assert i != j;
  }

  /** Two different enumerated files share a group exactly when both have a key and the keys are equal. */
  lemma GroupedTogether(files: seq<Path>, kg: Keying, f: Path, g: Path)
    requires f in files && g in files && f != g
    ensures (exists i :: 0 <= i < |Grouped(files, kg)| && f in Grouped(files, kg)[i] && g in Grouped(files, kg)[i])
      <==> kg.KeyOf(f).Some? && kg.KeyOf(f) == kg.KeyOf(g)
  {
    var gs, ks := Grouped(files, kg), GroupKeys(files, kg);
    GroupKeysFacts(files, kg);
    if exists i :: 0 <= i < |gs| && f in gs[i] && g in gs[i] {
      var i :| 0 <= i < |gs| && f in gs[i] && g in gs[i];
      MembersKeyed(files, kg, ks[i], f);
      MembersKeyed(files, kg, ks[i], g);
    }
    if kg.KeyOf(f).Some? && kg.KeyOf(f) == kg.KeyOf(g) {
      var k := kg.KeyOf(f).value;
      MembersKeyed(files, kg, k, f);
      MembersKeyed(files, kg, k, g);
      TwoDistinct(Members(files, kg, k), f, g);
      assert k in ks;
      var i :| 0 <= i < |ks| && ks[i] == k;
      assert f in gs[i] && g in gs[i];
    }
  }

  /**
   * Groups come out in the order their keys were first met, and each group's
   * first file is the first enumerated file with that key.
   */
  lemma GroupsInFirstSeenOrder(files: seq<Path>, kg: Keying)
    ensures forall i, j :: 0 <= i < j < |GroupKeys(files, kg)| ==>
      FirstPos(files, kg, GroupKeys(files, kg)[i]) < FirstPos(files, kg, GroupKeys(files, kg)[j])
    ensures forall i :: 0 <= i < |Grouped(files, kg)| ==>
      FirstPos(files, kg, GroupKeys(files, kg)[i]) < |files| && |Grouped(files, kg)[i]| > 0 &&
      Grouped(files, kg)[i][0] == files[FirstPos(files, kg, GroupKeys(files, kg)[i])]
  {
    GroupKeysFacts(files, kg);
    forall i | 0 <= i < |Grouped(files, kg)|
      ensures FirstPos(files, kg, GroupKeys(files, kg)[i]) < |files| && |Grouped(files, kg)[i]| > 0 &&
        Grouped(files, kg)[i][0] == files[FirstPos(files, kg, GroupKeys(files, kg)[i])]
    {
      assert GroupKeys(files, kg)[i] in GroupKeys(files, kg);
      FirstPosFacts(files, kg, GroupKeys(files, kg)[i]);
    }
  }

  /** By name-size, two different files share a group exactly when their base names and sizes agree. */
  lemma NameSizeTogether(files: seq<Path>, size: Path -> nat, digest: Path -> Option<Digest>, f: Path, g: Path)
    requires f in files && g in files && f != g
    ensures var gs := Grouped(files, Keying(NameSize, size, digest));
      (exists i :: 0 <= i < |gs| && f in gs[i] && g in gs[i]) <==> Basename(f) == Basename(g) && size(f) == size(g)
  {
    GroupedTogether(files, Keying(NameSize, size, digest), f, g);
  }

  /** By checksum, two different files share a group exactly when both were hashed and their digests agree. */
  lemma ChecksumTogether(files: seq<Path>, size: Path -> nat, digest: Path -> Option<Digest>, f: Path, g: Path)
    requires f in files && g in files && f != g
    ensures var gs := Grouped(files, Keying(Checksum, size, digest));
      (exists i :: 0 <= i < |gs| && f in gs[i] && g in gs[i]) <==> digest(f).Some? && digest(f) == digest(g)
  {
    GroupedTogether(files, Keying(Checksum, size, digest), f, g);
  }

  /** By checksum, a file whose hashing raised is in no group. */
  lemma UnreadableInNoGroup(files: seq<Path>, size: Path -> nat, digest: Path -> Option<Digest>, f: Path)
    requires digest(f).None?
    ensures forall i :: 0 <= i < |Grouped(files, Keying(Checksum, size, digest))| ==>
      f !in Grouped(files, Keying(Checksum, size, digest))[i]
  {
    GroupsAreDuplicates(files, Keying(Checksum, size, digest));
  }
}
