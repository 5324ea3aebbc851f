/**
 Where a path leads when what is on its way may be spelled differently, but is no link: exactly when
 the path is found, when its directories can be made, and when a file can be written there.
 */
module Spellings {
  import opened Wrappers
  import opened Paths
  import opened FileTree
  import opened Obstacles

  ghost predicate AnyNamed(up: Fold, nodes: Nodes, a: Path) {
    exists x :: x in nodes && SameName(up, x, a)
  }

  ghost predicate DirNamed(up: Fold, nodes: Nodes, a: Path) {
    exists x :: IsDir(nodes, x) && SameName(up, x, a)
  }

  ghost predicate LeafNamed(up: Fold, nodes: Nodes, a: Path) {
    exists x :: IsLeaf(nodes, x) && SameName(up, x, a)
  }

  /** Every directory on the way to p is there, under some spelling. */
  ghost predicate WayIsNamed(up: Fold, nodes: Nodes, p: Path) {
    forall a :: IsAncestor(a, p) ==> DirNamed(up, nodes, a)
  }

  /** What is spelled is the one entry of its name. */
  lemma SpelledIs(up: Fold, nodes: Nodes, p: Path, q: Path)
    requires OnFileSystem(up, nodes) && SameName(up, p, q)
    ensures var r := Spelled(up, nodes, p);
            && SameName(up, r, q)
            && (r in nodes <==> AnyNamed(up, nodes, q))
            && (IsDir(nodes, r) <==> DirNamed(up, nodes, q))
            && (IsLeaf(nodes, r) <==> LeafNamed(up, nodes, q))
            && (r !in nodes ==> r == p)
  {
    hide Spelled, IsTree;
    var r := Spelled(up, nodes, p);
    forall x | x in nodes && SameName(up, x, q)
      ensures x == r
    {
      assert x in NamesOf(nodes) && SameName(up, x, p);
      assert r in nodes ==> r in NamesOf(nodes);
    }
  }

  /** A free name for p: its last component as it is given, in a directory that may be spelled differently. */
  ghost predicate NamedLike(up: Fold, nodes: Nodes, r: Path, p: Path) {
    exists b, g, s ::
      PlainSegments([s]) && IsDir(nodes, b) && SameName(up, b, g) && r == Under(b, s) && p == Under(g, s)
  }

  lemma {:induction false} WalkFinds(
    up: Fold, nodes: Nodes, base: Path, given: Path, segments: seq<string>, last: bool, whole: bool, links: nat)
    requires OnFileSystem(up, nodes) && PlainSegments(segments) && segments != [] && SameName(up, base, given)
    requires IsDir(nodes, base)
    requires NoLinkAlong(up, nodes, Descend(given, segments))
    ensures var r, full := Walk(up, nodes, base, segments, last, whole, links), Descend(given, segments);
            && (r.Some? <==> forall a :: IsAncestor(a, full) && |a| > |given| ==> DirNamed(up, nodes, a))
            && (r.Some? ==> r.value == Spelled(up, nodes, r.value) && SameName(up, r.value, full))
            && (r.Some? && r.value !in nodes ==> NamedLike(up, nodes, r.value, full))
    decreases |segments|
  {
    hide Spelled, IsAncestor, FollowLink, Under, NoLinkAlong, SameName, OnFileSystem;
    hide DirNamed, LeafNamed, AnyNamed, NamedLike;
    var s, rest := segments[0], segments[1..];
    var next, full := Under(given, s), Descend(given, segments);
    var child := Spelled(up, nodes, Under(base, s));
    assert Normal(s);
    SameChild(up, base, given, s);
    SpelledIs(up, nodes, Under(base, s), next);
    SpelledAgain(up, nodes, Under(base, s));
    NextIsBelow(given, segments);
    NoLinkHere(up, nodes, full, child, next);
    forall a | IsAncestor(a, full) && |a| > |given|
      ensures a == next || IsAncestor(next, a)
    {
      DeeperIsBelow(given, s, full, a);
    }
    if rest == [] {
      NamedLikeIs(up, nodes, base, given, s);
      forall a | IsAncestor(a, full) && |a| > |given|
        ensures false
      {
        AncestorIsShorter(a, full);
        if IsAncestor(next, a) {
          AncestorIsShorter(next, a);
        }
      }
    } else if IsDir(nodes, child) {
      WalkFinds(up, nodes, child, next, rest, last, whole, links);
      forall a | IsAncestor(a, full) && |a| > |given|
        ensures a == next || |a| > |next|
      {
        if IsAncestor(next, a) {
          AncestorIsShorter(next, a);
        }
      }
    }
  }

  lemma NamedLikeIs(up: Fold, nodes: Nodes, b: Path, g: Path, s: string)
    requires Normal(s) && '/' !in s && IsDir(nodes, b) && SameName(up, b, g)
    ensures NamedLike(up, nodes, Under(b, s), Under(g, s))
  {
    assert PlainSegments([s]);
  }

  lemma SpelledAgain(up: Fold, nodes: Nodes, p: Path)
    ensures var r := Spelled(up, nodes, p); OnFileSystem(up, nodes) ==> Spelled(up, nodes, r) == r
  {
    hide Spelled, IsTree;
    var r := Spelled(up, nodes, p);
    if OnFileSystem(up, nodes) {
      SpelledIs(up, nodes, p, r);
      SpelledIs(up, nodes, r, r);
      assert r in nodes ==> r in NamesOf(nodes);
    }
  }

  /** What a path without links on its way leads to, if anything. */
  ghost predicate Finds(up: Fold, nodes: Nodes, p: Path, r: Option<Path>) {
    && (r.Some? <==> WayIsNamed(up, nodes, p))
    && (r.Some? ==>
          && SameName(up, r.value, p)
          && (r.value in nodes <==> AnyNamed(up, nodes, p))
          && (IsDir(nodes, r.value) <==> DirNamed(up, nodes, p))
          && (IsLeaf(nodes, r.value) <==> LeafNamed(up, nodes, p))
          && (r.value in nodes || NamedLike(up, nodes, r.value, p)))
  }

  /** A path without links on its way is found exactly when its directories are there. */
  lemma LookupFinds(up: Fold, nodes: Nodes, p: Path)
    requires OnFileSystem(up, nodes) && Canonical(p) && NoLinkAlong(up, nodes, p)
    ensures Finds(up, nodes, p, Lookup(up, nodes, p)) && Finds(up, nodes, p, Destination(up, nodes, p))
  {
    hide Walk, IsAncestor, Canonical, NoLinkAlong, PlainSegments, SameName, DirNamed, Spelled, OnFileSystem;
    hide NamedLike, LeafNamed, AnyNamed;
    CanonicalSegments(p);
    RootIsNamed(up, nodes);
    assert Segments(p) != [];
    WalkFinds(up, nodes, "", "", Segments(p), false, false, MAX_LINKS);
    WalkFinds(up, nodes, "", "", Segments(p), true, false, MAX_LINKS);
    var r, t := Lookup(up, nodes, p), Destination(up, nodes, p);
    if r.Some? {
      SpelledIs(up, nodes, r.value, p);
    }
    if t.Some? {
      SpelledIs(up, nodes, t.value, p);
    }
  }

  lemma RootIsNamed(up: Fold, nodes: Nodes)
    requires OnFileSystem(up, nodes)
    ensures IsDir(nodes, "") && SameName(up, "", "") && DirNamed(up, nodes, "")
  {
  }

  // ---- Making directories -----------------------------------------------------------------

  /** No file stands on the way to p, under any spelling. */
  ghost predicate WayIsFree(up: Fold, nodes: Nodes, p: Path) {
    forall a :: IsAncestor(a, p) ==> !LeafNamed(up, nodes, a)
  }

  /** Entries stay as they are, and new ones are directories. */
  ghost predicate AddsDirs(before: Nodes, after: Nodes) {
    && (forall x :: x in before ==> x in after && after[x] == before[x])
    && (forall x :: x in after && x !in before ==> IsDir(after, x))
  }

  /** A directory is made exactly where the way is there and no file is in the place. */
  lemma EnsuredFinds(up: Fold, nodes: Nodes, p: Path)
    requires OnFileSystem(up, nodes) && Named(p) && NoLinkAlong(up, nodes, p)
    ensures var r := DirEnsured(up, nodes, p);
            && (r.Some? <==> WayIsNamed(up, nodes, p) && !LeafNamed(up, nodes, p))
            && (r.Some? ==> AddsDirs(nodes, r.value) && DirNamed(up, r.value, p))
  {
    hide Lookup, Destination, IsAncestor, NoLinkAlong, SameName, Canonical, OnFileSystem, WayIsNamed, NamedLike;
    if p == "" {
      RootIsNamed(up, nodes);
      RootLeads(up, nodes);
      RootHasNoWay(up, nodes);
    } else {
      LookupFinds(up, nodes, p);
      OneKind(up, nodes, p);
    }
  }

  lemma OneKind(up: Fold, nodes: Nodes, p: Path)
    requires OnFileSystem(up, nodes)
    ensures !(DirNamed(up, nodes, p) && LeafNamed(up, nodes, p))
    ensures AnyNamed(up, nodes, p) <==> DirNamed(up, nodes, p) || LeafNamed(up, nodes, p)
  {
    hide IsTree;
    forall x, y | x in nodes && y in nodes && SameName(up, x, p) && SameName(up, y, p)
      ensures x == y
    {
      assert x in NamesOf(nodes) && y in NamesOf(nodes);
    }
  }

  lemma RootHasNoWay(up: Fold, nodes: Nodes)
    requires OnFileSystem(up, nodes)
    ensures WayIsNamed(up, nodes, "") && WayIsFree(up, nodes, "") && !LeafNamed(up, nodes, "")
  {
    forall x | x in nodes && SameName(up, x, "")
      ensures x == ""
    {
      SameNameLength(up, x, "");
    }
  }

  /** Directories can be made exactly where no file stands, under any spelling. */
  lemma {:induction false} DirsFinds(up: Fold, nodes: Nodes, p: Path)
    requires OnFileSystem(up, nodes) && Named(p) && NoLinkAlong(up, nodes, p)
    ensures var r := DirsEnsured(up, nodes, p);
            && (r.Some? <==> WayIsFree(up, nodes, p) && !LeafNamed(up, nodes, p))
            && (r.Some? ==> AddsDirs(nodes, r.value) && DirNamed(up, r.value, p) && WayIsNamed(up, r.value, p))
    decreases |p|
  {
    hide DirEnsured, IsAncestor, NoLinkAlong, SameName, Canonical, OnFileSystem, LeafNamed, DirNamed, AddsDirs;
    EnsuredFinds(up, nodes, p);
    if p == "" {
      RootHasNoWay(up, nodes);
      DirsKeepTree(up, nodes, p);
      RootHasNoWay(up, DirsEnsured(up, nodes, p).value);
    } else if DirEnsured(up, nodes, p).Some? {
      NamedDirsStay(up, nodes, DirEnsured(up, nodes, p).value, p);
    } else {
      var parent := Parent(p);
      AncestorIsShorter(parent, p);
      NamedAbove(p);
      NoLinkAbove(up, nodes, p, parent);
      DirsFinds(up, nodes, parent);
      WayByParent(up, nodes, p);
      var made := DirsEnsured(up, nodes, parent);
      if made.Some? {
        DirsKeepTree(up, nodes, parent);
        NoNewLinks(up, nodes, made.value, p);
        EnsuredFinds(up, made.value, p);
        WayByParent(up, made.value, p);
        if DirEnsured(up, made.value, p).Some? {
          NamedDirsStay(up, made.value, DirEnsured(up, made.value, p).value, p);
          AddsTwice(nodes, made.value, DirEnsured(up, made.value, p).value);
        }
      }
    }
  }

  /** What a way through p's parent is, in terms of the parent. */
  lemma WayByParent(up: Fold, nodes: Nodes, p: Path)
    requires p != ""
    ensures WayIsNamed(up, nodes, p) <==> WayIsNamed(up, nodes, Parent(p)) && DirNamed(up, nodes, Parent(p))
    ensures WayIsFree(up, nodes, p) <==> WayIsFree(up, nodes, Parent(p)) && !LeafNamed(up, nodes, Parent(p))
  {
    hide IsAncestor, DirNamed, LeafNamed;
    var parent := Parent(p);
    forall a
      ensures IsAncestor(a, p) <==> a == parent || IsAncestor(a, parent)
    {
      if IsAncestor(a, p) {
        ParentIsNearest(a, p);
      } else if IsAncestor(a, parent) {
        AncestorsNest(a, parent, p);
      }
    }
  }

  /** Added directories take no way away and put no file in it. */
  lemma NamedDirsStay(up: Fold, before: Nodes, after: Nodes, p: Path)
    requires OnFileSystem(up, before) && AddsDirs(before, after) && WayIsNamed(up, before, p)
    ensures WayIsNamed(up, after, p) && WayIsFree(up, before, p)
  {
    hide IsAncestor, SameName, OnFileSystem;
    forall a | IsAncestor(a, p)
      ensures DirNamed(up, after, a) && !LeafNamed(up, before, a)
    {
      OneKind(up, before, a);
      var x :| IsDir(before, x) && SameName(up, x, a);
      assert IsDir(after, x);
    }
  }

  lemma NoNewLinks(up: Fold, before: Nodes, after: Nodes, p: Path)
    requires AddsDirs(before, after) && NoLinkAlong(up, before, p)
    ensures NoLinkAlong(up, after, p) && (LeafNamed(up, after, p) <==> LeafNamed(up, before, p))
  {
    hide IsAncestor, SameName;
    NoLinkLater(up, before, after, p);
    forall x
      ensures IsLeaf(after, x) <==> IsLeaf(before, x)
    {
    }
  }

  lemma AddsTwice(a: Nodes, b: Nodes, c: Nodes)
    requires AddsDirs(a, b) && AddsDirs(b, c)
    ensures AddsDirs(a, c)
  {
  }
}
