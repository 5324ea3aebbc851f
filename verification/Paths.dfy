/**
 Workspace paths: the strings a sorted map of files is keyed by, with `/` between components.
 */
module Paths {
  import opened Wrappers

  type Path = string

  // ---- Order ------------------------------------------------------------------------------

  /** The strict order of the keys of a sorted map; on UTF-8 it is also the byte order. */
  predicate Below(a: Path, b: Path) {
    b != "" && (a == "" || a[0] < b[0] || (a[0] == b[0] && Below(a[1..], b[1..])))
  }

  lemma {:induction false} BelowIsStrict(a: Path, b: Path)
    requires Below(a, b)
    ensures a != b && !Below(b, a)
  {
    if a == "" || a[0] != b[0] {
    } else {
      BelowIsStrict(a[1..], b[1..]);
    }
  }

  lemma {:induction false} BelowIsTransitive(a: Path, b: Path, c: Path)
    requires Below(a, b) && Below(b, c)
    ensures Below(a, c)
  {
    if a == "" || a[0] != b[0] || b[0] != c[0] {
    } else {
      BelowIsTransitive(a[1..], b[1..], c[1..]);
    }
  }

  lemma {:induction false} BelowIsTotal(a: Path, b: Path)
    ensures a == b || Below(a, b) || Below(b, a)
  {
    if a == "" || b == "" || a[0] != b[0] {
    } else {
      BelowIsTotal(a[1..], b[1..]);
      assert a == [a[0]] + a[1..] && b == [b[0]] + b[1..];
    }
  }

  lemma {:induction false} PrefixIsBelow(a: Path, b: Path)
    requires a < b
    ensures Below(a, b)
  {
    if a == "" {
    } else {
      assert a[0] == b[0] && a[1..] < b[1..];
      PrefixIsBelow(a[1..], b[1..]);
    }
  }

  predicate Ascending(paths: seq<Path>) {
    forall i, j :: 0 <= i < j < |paths| ==> Below(paths[i], paths[j])
  }

  predicate IsLeast(m: Path, s: set<Path>) {
    m in s && forall q :: q in s && q != m ==> Below(m, q)
  }

  lemma {:induction false} LeastExists(s: set<Path>)
    requires s != {}
    ensures exists m :: IsLeast(m, s)
  {
    var x :| x in s;
    var rest := s - {x};
    if rest == {} {
      assert forall q :: q in s && q != x ==> q in rest;
      assert IsLeast(x, s);
    } else {
      LeastExists(rest);
      var m :| IsLeast(m, rest);
      BelowIsTotal(x, m);
      if Below(x, m) {
        assert forall q :: q in s && q != x ==> q in rest;
        forall q | q in s && q != x
          ensures Below(x, q)
        {
          if q != m {
            BelowIsTransitive(x, m, q);
          }
        }
        assert IsLeast(x, s);
      } else {
        assert IsLeast(m, s);
      }
    }
  }

  lemma LeastIsUnique(s: set<Path>)
    ensures forall m, n :: IsLeast(m, s) && IsLeast(n, s) ==> m == n
  {
    forall m, n | IsLeast(m, s) && IsLeast(n, s)
      ensures m == n
    {
      if m != n {
        BelowIsStrict(m, n);
      }
    }
  }

  /** The keys of a sorted map, in its iteration order. */
  function SortedKeys(s: set<Path>): (r: seq<Path>)
    ensures forall p :: p in r <==> p in s
    ensures Ascending(r)
    ensures |r| == |s|
    decreases |s|
  {
    if s == {} then []
    else
      LeastExists(s);
      LeastIsUnique(s);
      var m :| IsLeast(m, s);
      var rest := SortedKeys(s - {m});
      assert forall j :: 0 <= j < |rest| ==> rest[j] in rest;
      [m] + rest
  }

  /** Position in an ascending list follows the order. */
  lemma AscendingIndex(paths: seq<Path>, i: nat, j: nat)
    requires Ascending(paths) && i < |paths| && j < |paths| && Below(paths[i], paths[j])
    ensures i < j
  {
    if j < i {
      BelowIsStrict(paths[i], paths[j]);
    } else if i == j {
      BelowIsStrict(paths[i], paths[j]);
    }
  }

  lemma AscendingIsDistinct(paths: seq<Path>)
    requires Ascending(paths)
    ensures forall i, j :: 0 <= i < j < |paths| ==> paths[i] != paths[j]
  {
    forall i, j | 0 <= i < j < |paths|
      ensures paths[i] != paths[j]
    {
      BelowIsStrict(paths[i], paths[j]);
    }
  }

  lemma SingleKey(s: set<Path>, p: Path)
    requires s == {p}
    ensures SortedKeys(s) == [p]
  {
    assert SortedKeys(s)[0] in SortedKeys(s);
  }

  lemma TwoKeys(s: set<Path>, p: Path, q: Path)
    requires s == {p, q} && Below(p, q)
    ensures SortedKeys(s) == [p, q]
  {
    BelowIsStrict(p, q);
    var keys := SortedKeys(s);
    assert |s| == 2;
    assert p in keys && q in keys;
    AscendingIsDistinct(keys);
    var i, j :| 0 <= i < 2 && 0 <= j < 2 && keys[i] == p && keys[j] == q;
    AscendingIndex(keys, i, j);
  }

  // ---- Ancestors --------------------------------------------------------------------------

  /** Is a a directory on the way to p? The root is the empty path. */
  predicate IsAncestor(a: Path, p: Path) {
    p != "" && (a == "" || (|a| < |p| && p[..|a|] == a && p[|a|] == '/'))
  }

  function Ancestors(p: Path): (r: set<Path>)
    ensures forall a :: a in r <==> IsAncestor(a, p)
  {
    if p == "" then {}
    else
      var r := {""} + set i | 0 <= i < |p| && p[i] == '/' :: p[..i];
      assert forall a :: IsAncestor(a, p) && a != "" ==> p[..|a|] == a;
      r
  }

  lemma AncestorIsBelow(a: Path, p: Path)
    requires IsAncestor(a, p)
    ensures Below(a, p) && a != p
  {
    assert a < p;
    PrefixIsBelow(a, p);
  }

  lemma NoneAbove()
    ensures forall a :: !IsAncestor(a, "")
  {
  }

  lemma NotOwnAncestor(p: Path)
    ensures !IsAncestor(p, p)
  {
  }

  lemma AncestorIsShorter(a: Path, p: Path)
    requires IsAncestor(a, p)
    ensures |a| < |p|
  {
  }

  lemma AncestorsNest(a: Path, b: Path, p: Path)
    requires IsAncestor(a, b) && IsAncestor(b, p)
    ensures IsAncestor(a, p)
  {
  }

  /** Two ancestors of one path lie on one branch. */
  lemma AncestorsAlign(a: Path, b: Path, p: Path)
    requires IsAncestor(a, p) && IsAncestor(b, p)
    ensures a == b || IsAncestor(a, b) || IsAncestor(b, a)
  {
    if a != "" && b != "" {
      if |a| < |b| {
        assert b[..|a|] == p[..|b|][..|a|] == p[..|a|];
        assert b[|a|] == p[..|b|][|a|];
      } else if |b| < |a| {
        assert a[..|b|] == p[..|a|][..|b|] == p[..|b|];
        assert a[|b|] == p[..|a|][|b|];
      }
    }
  }

  function LastSlash(p: Path): (r: Option<nat>)
    ensures r.Some? ==> r.value < |p| && p[r.value] == '/' && '/' !in p[r.value + 1..]
    ensures r.None? ==> '/' !in p
  {
    if p == "" then None
    else if p[|p| - 1] == '/' then Some(|p| - 1)
    else
      var shorter := LastSlash(p[..|p| - 1]);
      assert p == p[..|p| - 1] + [p[|p| - 1]];
      assert shorter.Some? ==> p[shorter.value + 1..] == p[..|p| - 1][shorter.value + 1..] + [p[|p| - 1]];
      shorter
  }

  function Parent(p: Path): (r: Path)
    requires p != ""
    ensures IsAncestor(r, p)
  {
    match LastSlash(p)
    case None => ""
    case Some(i) => p[..i]
  }

  /** The parent is the nearest ancestor. */
  lemma ParentIsNearest(a: Path, p: Path)
    requires IsAncestor(a, p)
    ensures a == Parent(p) || IsAncestor(a, Parent(p))
  {
    AncestorsAlign(a, Parent(p), p);
    if a != "" {
      LastSlashIsLast(p, |a|);
    }
  }

  lemma {:induction false} LastSlashIsLast(p: Path, i: nat)
    requires i < |p| && p[i] == '/'
    ensures LastSlash(p).Some? && i <= LastSlash(p).value
  {
    if i == |p| - 1 {
    } else {
      LastSlashIsLast(p[..|p| - 1], i);
    }
  }

  // ---- Paths below a prefix ---------------------------------------------------------------

  /** The place of entry p below a prefix. */
  function Under(prefix: Path, p: Path): Path {
    if prefix == "" then p else if p == "" then prefix else prefix + "/" + p
  }

  lemma UnderIsInjective(prefix: Path, p: Path, q: Path)
    requires Under(prefix, p) == Under(prefix, q)
    ensures p == q
  {
    if prefix != "" && p != "" && q != "" {
      assert p == (prefix + "/" + p)[|prefix| + 1..];
      assert q == (prefix + "/" + q)[|prefix| + 1..];
    }
  }

  /** The directories on the way to an entry are those on the way to the prefix, or come from the tree. */
  lemma AncestorsUnder(prefix: Path, p: Path, a: Path)
    requires p != "" && p[0] != '/' && IsAncestor(a, Under(prefix, p))
    ensures IsAncestor(a, prefix) || exists b :: IsAncestor(b, p) && a == Under(prefix, b)
  {
    if prefix == "" {
      assert a == Under(prefix, a);
    } else if |a| < |prefix| {
      assert a != "" ==> prefix[..|a|] == Under(prefix, p)[..|a|];
    } else if |a| == |prefix| {
      assert a == Under(prefix, p)[..|a|] == prefix == Under(prefix, "");
    } else {
      var full := Under(prefix, p);
      var b := p[..|a| - |prefix| - 1];
      assert full[|prefix| + 1..] == p;
      assert a == full[..|a|] == prefix + "/" + b;
      assert full[|a|] == p[|b|];
      assert IsAncestor(b, p);
    }
  }

  lemma ParentUnder(prefix: Path, p: Path)
    requires p != "" && p[0] != '/'
    ensures Under(prefix, p) != "" && Parent(Under(prefix, p)) == Under(prefix, Parent(p))
  {
    var full, up := Under(prefix, p), Under(prefix, Parent(p));
    UnderAncestor(prefix, Parent(p), p);
    ParentIsNearest(up, full);
    AncestorsUnderAreShort(prefix, p, Parent(full));
  }

  lemma AncestorsUnderAreShort(prefix: Path, p: Path, a: Path)
    requires p != "" && p[0] != '/' && IsAncestor(a, Under(prefix, p))
    ensures |a| <= |Under(prefix, Parent(p))|
  {
    AncestorsUnder(prefix, p, a);
    if !IsAncestor(a, prefix) {
      var b :| IsAncestor(b, p) && a == Under(prefix, b);
      ParentIsNearest(b, p);
    }
  }

  lemma UnderAncestor(prefix: Path, a: Path, p: Path)
    requires IsAncestor(a, p)
    ensures IsAncestor(Under(prefix, a), Under(prefix, p))
  {
    if prefix != "" {
      var full, up := Under(prefix, p), Under(prefix, a);
      if a == "" {
        assert full[..|prefix|] == prefix;
      } else {
        assert full[..|up|] == prefix + "/" + p[..|a|];
        assert full[|up|] == p[|a|];
      }
    }
  }

  // ---- Git metadata -----------------------------------------------------------------------

  const GIT: string := ".git"

  /** The root repository's metadata. */
  predicate RootGit(p: Path) {
    p == GIT || GIT + "/" <= p
  }

  predicate GitAt(p: Path, i: nat) {
    && i + 4 <= |p| && p[i..i + 4] == GIT
    && (i == 0 || p[i - 1] == '/')
    && (i + 4 == |p| || p[i + 4] == '/')
  }

  /** Some component of the path is named `.git`. */
  predicate Hidden(p: Path) {
    exists i :: 0 <= i < |p| && GitAt(p, i)
  }

  lemma HiddenBelow(a: Path, p: Path)
    requires IsAncestor(a, p) && Hidden(a)
    ensures Hidden(p)
  {
    var i :| 0 <= i < |a| && GitAt(a, i);
    assert p[i..i + 4] == p[..|a|][i..i + 4];
    assert i + 4 < |a| ==> p[i + 4] == p[..|a|][i + 4];
    assert i > 0 ==> p[i - 1] == p[..|a|][i - 1];
    assert GitAt(p, i);
  }

  lemma RootGitBelow(a: Path, p: Path)
    requires IsAncestor(a, p)
    ensures RootGit(a) ==> RootGit(p)
  {
    if a == GIT {
      assert p[..5] == GIT + "/";
    } else if RootGit(a) {
      assert p[..5] == a[..5];
    }
  }

  // ---- Normal form ------------------------------------------------------------------------

  function IndexOfSlash(s: string): (r: Option<nat>)
    ensures r.Some? ==> r.value < |s| && s[r.value] == '/' && '/' !in s[..r.value]
    ensures r.None? ==> '/' !in s
  {
    if s == "" then None
    else if s[0] == '/' then Some(0)
    else
      match IndexOfSlash(s[1..])
      case None => None
      case Some(i) => assert s[..i + 1] == [s[0]] + s[1..][..i]; Some(i + 1)
  }

  function Segments(s: string): (r: seq<string>)
    ensures r != []
    ensures forall i :: 0 <= i < |r| ==> '/' !in r[i]
    decreases |s|
  {
    match IndexOfSlash(s)
    case None => [s]
    case Some(i) => [s[..i]] + Segments(s[i + 1..])
  }

  function JoinSegments(segments: seq<string>): string {
    if segments == [] then ""
    else if |segments| == 1 then segments[0]
    else segments[0] + "/" + JoinSegments(segments[1..])
  }

  predicate Normal(segment: string) {
    segment != "" && segment != "." && segment != ".."
  }

  predicate Canonical(p: Path) {
    forall i :: 0 <= i < |Segments(p)| ==> Normal(Segments(p)[i])
  }

  /** Empty and `.` components after the first are what path iteration skips. */
  function DropEmpty(segments: seq<string>): (r: seq<string>)
    ensures forall i :: 0 <= i < |r| ==> r[i] in segments && r[i] != "" && r[i] != "."
    ensures forall s :: s in segments && s != "" && s != "." ==> s in r
  {
    if segments == [] then []
    else if segments[0] == "" || segments[0] == "." then DropEmpty(segments[1..])
    else [segments[0]] + DropEmpty(segments[1..])
  }

  /** The relative path a declaration names, unless it is empty, absolute or steps out. */
  function Normalize(path: string): Option<Path> {
    if path == "" || path[0] == '/' || Segments(path)[0] == "." || ".." in Segments(path) then None
    else Some(JoinSegments(DropEmpty(Segments(path))))
  }

  lemma {:induction false} SegmentsOfJoin(segments: seq<string>)
    requires segments != []
    requires forall i :: 0 <= i < |segments| ==> '/' !in segments[i]
    ensures Segments(JoinSegments(segments)) == segments
  {
    var s := JoinSegments(segments);
    if |segments| <= 1 {
    } else {
      var n := |segments[0]|;
      assert s[..n] == segments[0];
      SlashAt(s, n);
      assert s[n + 1..] == JoinSegments(segments[1..]);
      SegmentsOfJoin(segments[1..]);
    }
  }

  lemma {:induction false} SlashAt(s: string, n: nat)
    requires n < |s| && s[n] == '/' && '/' !in s[..n]
    ensures IndexOfSlash(s) == Some(n)
  {
    if n == 0 {
    } else {
      assert s[..n] == [s[0]] + s[1..][..n - 1];
      SlashAt(s[1..], n - 1);
    }
  }

  lemma {:induction false} JoinOfSegments(s: string)
    ensures JoinSegments(Segments(s)) == s
    decreases |s|
  {
    var slash := IndexOfSlash(s);
    if slash.None? {
    } else {
      JoinOfSegments(s[slash.value + 1..]);
      assert Segments(s)[1..] == Segments(s[slash.value + 1..]);
    }
  }

  lemma {:induction false} DropEmptyKeeps(segments: seq<string>)
    requires forall i :: 0 <= i < |segments| ==> Normal(segments[i])
    ensures DropEmpty(segments) == segments
  {
    if segments == [] {
    } else {
      DropEmptyKeeps(segments[1..]);
    }
  }

  /** Normalisation lands on canonical paths, and these are exactly its fixed points. */
  lemma NormalizeIsCanonical(path: string)
    ensures Normalize(path).Some? ==> Canonical(Normalize(path).value)
    ensures Normalize(path) == Some(path) <==> Canonical(path)
  {
    var segments := Segments(path);
    JoinOfSegments(path);
    if Normalize(path).Some? {
      var kept := DropEmpty(segments);
      assert segments[0] in segments;
      FirstSegment(path);
      assert segments[0] in kept;
      SegmentsOfJoin(kept);
    }
    if Canonical(path) {
      DropEmptyKeeps(segments);
      FirstSegment(path);
      assert path != "" by {
        assert Normal(Segments(path)[0]);
      }
      assert ".." !in segments;
    }
  }

  lemma FirstSegment(path: string)
    requires path != ""
    ensures Segments(path)[0] == "" <==> path[0] == '/'
  {
  }
}
