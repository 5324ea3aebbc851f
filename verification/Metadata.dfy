/**
 What a replay, failed or not, does to the root repository's metadata. A change list never names it,
 but on a file system that folds names a write can lead into it under another spelling of `.git`.
 */
module Metadata {
  import opened Wrappers
  import opened Paths
  import opened FileTree
  import opened Replay
  import opened Obstacles
  import opened Spellings
  import opened Snapshots
  import opened Commit
  import W = Workspace

  ghost predicate SameGit(before: Nodes, after: Nodes) {
    forall q :: RootGit(q) ==> W.Get(after, q) == W.Get(before, q)
  }

  /** The first component of the path is another spelling of the metadata's name. */
  ghost predicate Respells(up: Fold, nodes: Nodes, p: Path) {
    GIT in nodes && Alias(up, GIT, p)
  }

  /**
   A write to p lands in the metadata and makes a difference there: p respells it, no file is on the
   way and no directory in the place, under any spelling, and no file with the new content either.
   */
  ghost predicate Strikes(up: Fold, staged: Nodes, nodes: Nodes, p: Path) {
    && Respells(up, nodes, p)
    && WayIsFree(up, nodes, p) && !DirNamed(up, nodes, p)
    && forall x :: x in nodes && SameName(up, x, p) ==> W.Get(staged, p) != Some(nodes[x])
  }

  // ---- Names below another spelling -------------------------------------------------------

  /** What shares its folded name with metadata and is none itself starts with another spelling. */
  lemma OtherSpelling(up: Fold, x: Path, a: Path)
    requires IsFold(up) && SameName(up, x, a) && RootGit(x) && !RootGit(a)
    ensures Alias(up, GIT, a)
    ensures GIT == x || IsAncestor(GIT, x)
  {
    if x == GIT {
    } else {
      assert x[..5][..4] == GIT && x[4] == x[..5][4];
      SameNameAncestor(up, a, x, GIT);
      SameNameIsSymmetric(up, a[..4], GIT);
      RootGitBelow(a[..4], a);
    }
  }

  lemma AliasBelow(up: Fold, x: Path, a: Path, p: Path)
    requires Alias(up, x, a) && IsAncestor(a, p)
    ensures Alias(up, x, p)
  {
    hide IsAncestor, SameName;
    var b :| (b == a || IsAncestor(b, a)) && SameName(up, x, b) && x != b;
    if b != a {
      AncestorsNest(b, a, p);
    }
  }

  lemma GitIsThere(up: Fold, nodes: Nodes, x: Path)
    requires OnFileSystem(up, nodes) && x in nodes && RootGit(x)
    ensures GIT in nodes
  {
    if x != GIT {
      assert x[..5][..4] == GIT && x[4] == x[..5][4];
      assert IsAncestor(GIT, x);
    }
  }

  /** A path that is no metadata leads into metadata only by respelling it. */
  lemma LeadsByRespelling(up: Fold, nodes: Nodes, p: Path, r: Path)
    requires IsFold(up) && OnFileSystem(up, nodes) && !RootGit(p)
    requires SameName(up, r, p) && RootGit(r) && (r in nodes || NamedLike(up, nodes, r, p))
    ensures Respells(up, nodes, p)
  {
    hide OnFileSystem, Alias, SameName;
    if r in nodes {
      GitIsThere(up, nodes, r);
      OtherSpelling(up, r, p);
    } else {
      var b, g, s :| PlainSegments([s]) && IsDir(nodes, b) && SameName(up, b, g)
                     && r == Under(b, s) && p == Under(g, s);
      assert Normal([s][0]) && '/' !in [s][0];
      ChildBelow(g, s);
      RootGitBelow(g, p);
      SameNameLength(up, b, g);
      GitAbove(b, s);
      if b != "" {
        GitIsThere(up, nodes, b);
        OtherSpelling(up, b, g);
        AliasBelow(up, GIT, g, p);
      }
    }
  }

  lemma GitAbove(b: Path, s: string)
    requires s != "" && '/' !in s && RootGit(Under(b, s))
    ensures b == "" || RootGit(b)
  {
    if b != "" {
      var r := b + "/" + s;
      assert r[|b|] == '/';
      assert r != GIT;
      assert r[..5] == GIT + "/";
      assert |b| >= 4 ==> b[..4] == r[..4];
      assert |b| > 4 ==> b[..5] == r[..5];
    }
  }

  /** Under another spelling of `.git`, every entry of the tree is metadata. */
  lemma BelowRespelling(up: Fold, nodes: Nodes, p: Path, x: Path, a: Path)
    requires IsFold(up) && OnFileSystem(up, nodes) && Respells(up, nodes, p) && !RootGit(p)
    requires x in nodes && SameName(up, x, a) && a != "" && (a == p || IsAncestor(a, p))
    ensures RootGit(x)
  {
    hide IsTree, IsAncestor, SameName;
    var first :| (first == p || IsAncestor(first, p)) && SameName(up, GIT, first) && GIT != first;
    SameNameLength(up, GIT, first);
    NoSlashFolded(up, GIT, first, a);
    if a == first {
      SameNameLength(up, x, a);
      SameNameIsSymmetric(up, GIT, first);
      SameNameChain(up, x, first, GIT);
      OneEntry(up, nodes, x, GIT);
    } else {
      if first != p && a != p {
        AncestorsAlign(first, a, p);
      }
      SameNameLength(up, x, a);
      AncestorIsShorter(first, a);
      SameNameAncestor(up, x, a, first);
      var y := x[..4];
      SameNameIsSymmetric(up, GIT, first);
      SameNameChain(up, y, first, GIT);
      OneEntry(up, nodes, y, GIT);
      RootGitBelow(GIT, x);
    }
  }

  lemma OneEntry(up: Fold, nodes: Nodes, x: Path, y: Path)
    requires OnFileSystem(up, nodes) && y in nodes && SameName(up, x, y)
    requires x in nodes || exists z :: z in nodes && IsAncestor(x, z)
    ensures x == y
  {
    hide IsAncestor, SameName;
    assert x in NamesOf(nodes) && y in NamesOf(nodes);
  }

  lemma NoSlashFolded(up: Fold, x: Path, first: Path, a: Path)
    requires IsFold(up) && SameName(up, x, first) && '/' !in x
    ensures !(a != "" && IsAncestor(a, first))
  {
    SameNameLength(up, x, first);
    forall i | 0 <= i < |first|
      ensures first[i] != '/'
    {
      assert Folded(up, x)[i] == Folded(up, first)[i] && x[i] in x;
    }
  }

  // ---- One change -------------------------------------------------------------------------

  /** Directories that are made on the way to what is no metadata, nor respells it, are none either. */
  lemma EnsuredSparesGit(up: Fold, nodes: Nodes, p: Path)
    requires IsFold(up) && OnFileSystem(up, nodes) && Named(p) && NoLinkAlong(up, nodes, p)
    requires !RootGit(p) && !Respells(up, nodes, p)
    ensures var r := DirEnsured(up, nodes, p); r.Some? ==> SameGit(nodes, r.value)
  {
    hide Lookup, Destination, IsAncestor, NoLinkAlong, SameName, Canonical, OnFileSystem, NamedLike, RootGit, Alias;
    if p == "" {
      RootIsNamed(up, nodes);
      RootLeads(up, nodes);
    } else {
      LookupFinds(up, nodes, p);
      var r := Lookup(up, nodes, p);
      if r.Some? && RootGit(r.value) {
        LeadsByRespelling(up, nodes, p, r.value);
      }
    }
  }

  lemma {:induction false} DirsSpareGit(up: Fold, nodes: Nodes, p: Path)
    requires IsFold(up) && OnFileSystem(up, nodes) && Named(p) && NoLinkAlong(up, nodes, p)
    requires !RootGit(p) && !Respells(up, nodes, p)
    ensures var r := DirsEnsured(up, nodes, p); r.Some? ==> SameGit(nodes, r.value)
    decreases |p|
  {
    hide DirEnsured, IsAncestor, NoLinkAlong, SameName, Canonical, OnFileSystem, RootGit, Alias, AddsDirs;
    EnsuredSparesGit(up, nodes, p);
    if p == "" {
    } else {
      var parent := Parent(p);
      AncestorIsShorter(parent, p);
      NamedAbove(p);
      NoLinkAbove(up, nodes, p, parent);
      RootGitBelow(parent, p);
      if Respells(up, nodes, parent) {
        AliasBelow(up, GIT, parent, p);
      }
      DirsSpareGit(up, nodes, parent);
      DirsFinds(up, nodes, parent);
      var made := DirsEnsured(up, nodes, parent);
      if made.Some? {
        DirsKeepTree(up, nodes, parent);
        NoNewLinks(up, nodes, made.value, p);
        StillNotRespelled(up, nodes, made.value, p);
        EnsuredSparesGit(up, made.value, p);
      }
    }
  }

  lemma StillNotRespelled(up: Fold, before: Nodes, after: Nodes, p: Path)
    requires SameGit(before, after)
    ensures Respells(up, after, p) <==> Respells(up, before, p)
  {
    assert RootGit(GIT);
    assert W.Get(after, GIT) == W.Get(before, GIT);
  }

  /** A file created under a path that is no metadata changes metadata exactly when it strikes. */
  lemma CreateTouchesGitIff(up: Fold, staged: Nodes, nodes: Nodes, change: W.WorkspaceChange)
    requires IsFold(up) && OnFileSystem(up, nodes) && change.kind.Create?
    requires Canonical(change.path) && NoLinkAlong(up, nodes, change.path) && !RootGit(change.path)
    requires change.path in staged && staged[change.path].Regular?
    ensures SameGit(nodes, Apply(up, staged, nodes, change).nodes) <==> !Strikes(up, staged, nodes, change.path)
  {
    hide DirsEnsured, IsAncestor, NoLinkAlong, SameName, Canonical, OnFileSystem, RootGit, Alias, Placed;
    hide WayIsFree, LeafNamed, DirNamed, WayIsNamed, SameGit, AddsDirs, Strikes, ApplyCopy;
    var p := change.path;
    CanonicalSegments(p);
    var parent := Parent(p);
    NamedAbove(p);
    NoLinkAbove(up, nodes, p, parent);
    DirsFinds(up, nodes, parent);
    WayByParent(up, nodes, p);
    var made := DirsEnsured(up, nodes, parent);
    if made.None? {
      NothingLeft(up, nodes, parent);
      Unchanged(nodes);
      NoWayNoStrike(up, staged, nodes, p);
    } else {
      DirsKeepTree(up, nodes, parent);
      NoNewLinks(up, nodes, made.value, p);
      WayByParent(up, made.value, p);
      if Respells(up, nodes, p) {
        PlacedTouchesGitIff(up, staged, nodes, made.value, p);
      } else {
        RootGitBelow(parent, p);
        if Respells(up, nodes, parent) {
          AliasBelow(up, GIT, parent, p);
        }
        DirsSpareGit(up, nodes, parent);
        StillNotRespelled(up, nodes, made.value, p);
        PlacedSparesGit(up, staged, made.value, p);
        SparedTwice(nodes, made.value, ApplyCopy(up, staged, made.value, p).nodes);
        NoWayNoStrike(up, staged, nodes, p);
      }
    }
  }

  lemma SparedTwice(a: Nodes, b: Nodes, c: Nodes)
    requires SameGit(a, b) && SameGit(b, c)
    ensures SameGit(a, c)
  {
  }

  lemma PlacedSparesGit(up: Fold, staged: Nodes, nodes: Nodes, p: Path)
    requires IsFold(up) && OnFileSystem(up, nodes) && Canonical(p) && NoLinkAlong(up, nodes, p)
    requires !RootGit(p) && !Respells(up, nodes, p)
    ensures SameGit(nodes, ApplyCopy(up, staged, nodes, p).nodes)
  {
    hide Destination, IsAncestor, NoLinkAlong, SameName, Canonical, OnFileSystem, NamedLike, RootGit, Alias;
    LookupFinds(up, nodes, p);
    var r := Destination(up, nodes, p);
    if r.Some? && RootGit(r.value) {
      LeadsByRespelling(up, nodes, p, r.value);
    }
  }

  /** Once the directories are made, the file goes into the metadata unless the place is taken. */
  lemma PlacedTouchesGitIff(up: Fold, staged: Nodes, nodes: Nodes, made: Nodes, p: Path)
    requires IsFold(up) && OnFileSystem(up, nodes) && OnFileSystem(up, made)
    requires Canonical(p) && p != "" && NoLinkAlong(up, nodes, p) && NoLinkAlong(up, made, p) && !RootGit(p)
    requires p in staged && staged[p].Regular? && DirsEnsured(up, nodes, Parent(p)) == Some(made)
    requires WayIsNamed(up, made, p) && WayIsFree(up, nodes, p) && Respells(up, nodes, p)
    requires AddsDirs(nodes, made)
    ensures SameGit(nodes, ApplyCopy(up, staged, made, p).nodes) <==> !Strikes(up, staged, nodes, p)
  {
    hide DirsEnsured, IsAncestor, NoLinkAlong, SameName, Canonical, OnFileSystem, RootGit, Alias, Destination;
    hide WayIsFree, LeafNamed, DirNamed, WayIsNamed, NamedLike, Respells, SameGit, Strikes;
    LookupFinds(up, made, p);
    var r := Destination(up, made, p).value;
    if x :| x in nodes && SameName(up, x, p) {
      NothingMade(up, nodes, p, x);
      TakenTouchesGitIff(up, staged, nodes, p);
    } else {
      NoDirBesides(up, nodes, made, p);
      FreeTouchesGit(up, staged, nodes, made, p);
    }
  }

  /** Where something stands in the place, so do all directories on the way. */
  lemma NothingMade(up: Fold, nodes: Nodes, p: Path, x: Path)
    requires IsFold(up) && OnFileSystem(up, nodes) && Canonical(p) && p != "" && NoLinkAlong(up, nodes, p)
    requires x in nodes && SameName(up, x, p)
    ensures WayIsNamed(up, nodes, p) && DirsEnsured(up, nodes, Parent(p)) == Some(nodes)
  {
    hide IsAncestor, NoLinkAlong, SameName, Canonical, OnFileSystem, Lookup, Destination, NamedLike;
    forall a | IsAncestor(a, p)
      ensures DirNamed(up, nodes, a)
    {
      SameNameLength(up, x, p);
      AncestorIsShorter(a, p);
      SameNameAncestor(up, x, p, a);
      DirAbove(up, nodes, x, x[..|a|]);
    }
    var parent := Parent(p);
    NamedAbove(p);
    if parent == "" {
      RootIsNamed(up, nodes);
      RootLeads(up, nodes);
    } else {
      WayByParent(up, nodes, p);
      NoLinkAbove(up, nodes, p, parent);
      LookupFinds(up, nodes, parent);
    }
  }

  /** Without links on the way, directories that cannot all be made are not made in part. */
  lemma {:induction false} NothingLeft(up: Fold, nodes: Nodes, p: Path)
    requires IsFold(up) && OnFileSystem(up, nodes) && Named(p) && NoLinkAlong(up, nodes, p)
    requires DirsEnsured(up, nodes, p).None?
    ensures DirsLeft(up, nodes, p) == nodes
    decreases |p|
  {
    hide DirEnsured, IsAncestor, NoLinkAlong, SameName, Canonical, OnFileSystem, LeafNamed, WayIsNamed, AddsDirs;
    if p == "" {
    } else {
      var parent := Parent(p);
      AncestorIsShorter(parent, p);
      NamedAbove(p);
      NoLinkAbove(up, nodes, p, parent);
      var made := DirsEnsured(up, nodes, parent);
      if made.None? {
        NothingLeft(up, nodes, parent);
      } else {
        DirsFinds(up, nodes, parent);
        DirsKeepTree(up, nodes, parent);
        NoNewLinks(up, nodes, made.value, p);
        WayByParent(up, made.value, p);
        EnsuredFinds(up, made.value, p);
        SomeLeaf(up, nodes, p);
      }
    }
  }

  lemma SomeLeaf(up: Fold, nodes: Nodes, p: Path)
    requires IsFold(up) && OnFileSystem(up, nodes) && Canonical(p) && p != "" && NoLinkAlong(up, nodes, p)
    requires LeafNamed(up, nodes, p)
    ensures DirsEnsured(up, nodes, Parent(p)) == Some(nodes)
  {
    hide IsAncestor, NoLinkAlong, SameName, Canonical, OnFileSystem;
    var x :| IsLeaf(nodes, x) && SameName(up, x, p);
    NothingMade(up, nodes, p, x);
  }

  lemma DirAbove(up: Fold, nodes: Nodes, x: Path, a: Path)
    requires OnFileSystem(up, nodes) && x in nodes && IsAncestor(a, x)
    ensures IsDir(nodes, a)
  {
  }

  lemma TakenTouchesGitIff(up: Fold, staged: Nodes, nodes: Nodes, p: Path)
    requires IsFold(up) && OnFileSystem(up, nodes) && Canonical(p) && p != "" && NoLinkAlong(up, nodes, p)
    requires p in staged && staged[p].Regular? && !RootGit(p)
    requires WayIsNamed(up, nodes, p) && WayIsFree(up, nodes, p) && Respells(up, nodes, p) && AnyNamed(up, nodes, p)
    ensures SameGit(nodes, ApplyCopy(up, staged, nodes, p).nodes) <==> !Strikes(up, staged, nodes, p)
  {
    hide DirsEnsured, IsAncestor, NoLinkAlong, SameName, Canonical, OnFileSystem, Destination;
    hide WayIsFree, WayIsNamed, NamedLike, Respells, RootGit;
    LookupFinds(up, nodes, p);
    var r := Destination(up, nodes, p).value;
    forall x | x in nodes && SameName(up, x, p)
      ensures x == r
    {
      SameNameIsSymmetric(up, r, p);
      SameNameChain(up, x, p, r);
      OneEntry(up, nodes, x, r);
    }
    BelowRespelling(up, nodes, p, r, p);
    NoLinkHere(up, nodes, p, r, p);
    SameNameLength(up, r, p);
    DirAbove(up, nodes, r, Parent(r));
    assert W.Get(nodes, r) == Some(nodes[r]);
  }

  lemma FreeTouchesGit(up: Fold, staged: Nodes, nodes: Nodes, made: Nodes, p: Path)
    requires IsFold(up) && OnFileSystem(up, made) && Canonical(p) && p != "" && NoLinkAlong(up, made, p)
    requires p in staged && staged[p].Regular? && !RootGit(p)
    requires WayIsNamed(up, made, p) && WayIsFree(up, nodes, p) && Respells(up, nodes, p) && AddsDirs(nodes, made)
    requires !AnyNamed(up, made, p) && !AnyNamed(up, nodes, p)
    ensures !SameGit(nodes, ApplyCopy(up, staged, made, p).nodes) && Strikes(up, staged, nodes, p)
  {
    hide DirsEnsured, IsAncestor, NoLinkAlong, SameName, Canonical, OnFileSystem, Destination;
    hide WayIsFree, WayIsNamed, NamedLike, RootGit, Alias;
    LookupFinds(up, made, p);
    var r := Destination(up, made, p).value;
    FreeIsWritable(up, made, p, r);
    var after := made[r := staged[p]];
    WriteKeepsTree(up, made, r, staged[p]);
    BelowRespelling(up, after, p, r, p);
    assert W.Get(after, r) == Some(staged[p]) && W.Get(nodes, r) == None;
  }

  lemma FreeIsWritable(up: Fold, nodes: Nodes, p: Path, r: Path)
    requires OnFileSystem(up, nodes) && Destination(up, nodes, p) == Some(r) && r !in nodes
    ensures Lands(up, nodes, r) && CanWrite(nodes, r)
  {
    hide Destination, Lookup, IsAncestor, Canonical;
    LookupLands(up, nodes, p);
  }

  lemma ShorterDiffers(up: Fold, x: Path, p: Path)
    requires |x| < |p|
    ensures !SameName(up, x, p)
  {
  }

  /** The directories made on the way to p do not take p's place. */
  lemma NoDirBesides(up: Fold, nodes: Nodes, made: Nodes, p: Path)
    requires OnFileSystem(up, nodes) && Canonical(p) && p != "" && NoLinkAlong(up, nodes, p)
    requires DirsEnsured(up, nodes, Parent(p)) == Some(made) && !AnyNamed(up, nodes, p)
    ensures !AnyNamed(up, made, p)
  {
    hide DirsEnsured, IsAncestor, NoLinkAlong, SameName, Canonical, OnFileSystem;
    var parent := Parent(p);
    NamedAbove(p);
    NoLinkAbove(up, nodes, p, parent);
    RootIsNamed(up, nodes);
    DirsNames(up, nodes, parent);
    AncestorIsShorter(parent, p);
    forall x | x in made && x !in nodes
      ensures !SameName(up, x, p)
    {
      var a :| (a == parent || IsAncestor(a, parent)) && SameName(up, x, a);
      SameNameLength(up, x, a);
      if a != parent {
        AncestorIsShorter(a, parent);
      }
      ShorterDiffers(up, x, p);
    }
  }

  lemma Unchanged(nodes: Nodes)
    ensures SameGit(nodes, nodes)
  {
  }

  lemma NoWayNoStrike(up: Fold, staged: Nodes, nodes: Nodes, p: Path)
    requires !WayIsFree(up, nodes, p) || !Respells(up, nodes, p)
    ensures !Strikes(up, staged, nodes, p)
  {
  }

  /** Deleting or replacing a file that is there, and is no metadata, touches none. */
  lemma OtherChangesSpareGit(up: Fold, staged: Nodes, nodes: Nodes, change: W.WorkspaceChange)
    requires OnFileSystem(up, nodes) && !change.kind.Create? && IsLeaf(nodes, change.path) && !RootGit(change.path)
    requires change.kind.Modify? ==> change.path in staged && staged[change.path].Regular?
    ensures SameGit(nodes, Apply(up, staged, nodes, change).nodes)
    ensures !Strikes(up, staged, nodes, change.path)
  {
    hide OnFileSystem, Canonical, Clear, IsAncestor, RootGit, Removed, DirsEnsured, Placed, MakeDirs, Respells;
    hide WayIsFree, DirNamed;
    var p := change.path;
    PresentIsClear(up, nodes, p);
    NotAliased(up, nodes, p);
    if change.kind.Delete? {
      RemovedExact(up, nodes, p);
    } else {
      RootStands(up, nodes);
      NamedThere(up, nodes, p);
      WriteExact(up, staged, nodes, change);
      forall q
        ensures q != p ==> W.Get(PlainWrite(staged, nodes, change), q) == W.Get(nodes, q)
      {
        MadeDirs(nodes, p, q);
      }
    }
  }

  lemma NamedThere(up: Fold, nodes: Nodes, p: Path)
    requires OnFileSystem(up, nodes) && p in nodes && p != ""
    ensures Canonical(p) && forall a :: IsAncestor(a, p) ==> IsDir(nodes, a)
  {
    hide IsAncestor, Canonical;
    NamedOnTheWay(nodes, p);
  }

  lemma NotAliased(up: Fold, nodes: Nodes, p: Path)
    requires Clear(up, nodes, p)
    ensures !Respells(up, nodes, p)
  {
  }

  /** What strikes is the same as long as the metadata is. */
  lemma StrikesSame(up: Fold, staged: Nodes, orig: Nodes, nodes: Nodes, p: Path)
    requires IsFold(up) && OnFileSystem(up, orig) && OnFileSystem(up, nodes) && SameGit(orig, nodes)
    requires p != "" && !RootGit(p)
    ensures Strikes(up, staged, nodes, p) <==> Strikes(up, staged, orig, p)
  {
    hide OnFileSystem, IsAncestor, SameName, RootGit, Alias, SameGit;
    StillNotRespelled(up, orig, nodes, p);
    if Respells(up, orig, p) {
      forall a | a == p || IsAncestor(a, p)
        ensures LeafNamed(up, nodes, a) <==> LeafNamed(up, orig, a)
      {
        EntriesSame(up, orig, nodes, p, a);
      }
      EntriesSame(up, orig, nodes, p, p);
    }
  }

  /** The entries under another spelling of `.git` are metadata, and so the same in both trees. */
  lemma EntriesSame(up: Fold, orig: Nodes, nodes: Nodes, p: Path, a: Path)
    requires IsFold(up) && OnFileSystem(up, orig) && OnFileSystem(up, nodes) && SameGit(orig, nodes)
    requires Respells(up, orig, p) && Respells(up, nodes, p) && !RootGit(p) && (a == p || IsAncestor(a, p))
    ensures a != "" ==> forall x :: SameName(up, x, a) ==> W.Get(nodes, x) == W.Get(orig, x)
    ensures LeafNamed(up, nodes, a) <==> LeafNamed(up, orig, a)
    ensures a != "" ==> (DirNamed(up, nodes, a) <==> DirNamed(up, orig, a))
  {
    hide OnFileSystem, IsAncestor, SameName, RootGit, Alias, Respells;
    if a == "" {
      RootHasNoWay(up, orig);
      RootHasNoWay(up, nodes);
    } else {
      forall x | SameName(up, x, a)
        ensures W.Get(nodes, x) == W.Get(orig, x)
      {
        if x in nodes {
          BelowRespelling(up, nodes, p, x, a);
        } else if x in orig {
          BelowRespelling(up, orig, p, x, a);
        }
      }
      forall x | SameName(up, x, a)
        ensures (IsLeaf(nodes, x) <==> IsLeaf(orig, x)) && (IsDir(nodes, x) <==> IsDir(orig, x))
      {
        assert W.Get(nodes, x) == W.Get(orig, x);
      }
    }
  }

  // ---- A whole replay ---------------------------------------------------------------------

  /** Changes of files of the original tree, writes of files of the target, none named as metadata. */
  ghost predicate SparingPlan(up: Fold, orig: Nodes, target: Nodes, changes: Changes) {
    && OnFileSystem(up, orig) && OnFileSystem(up, target)
    && Ascending(W.PathsOf(changes)) && ChangesFiles(orig, changes) && NoLinkInTheWay(up, orig, changes)
    && forall i :: 0 <= i < |changes| ==> SparingItem(target, changes[i])
  }

  predicate SparingItem(target: Nodes, change: W.WorkspaceChange) {
    && !RootGit(change.path)
    && (!change.kind.Delete? ==> change.path in target && target[change.path].Regular?)
  }

  /** Change k is reached, and writes into the metadata of the original tree. */
  ghost predicate StrikesAt(up: Fold, orig: Nodes, target: Nodes, changes: Changes, k: nat)
    requires k < |changes|
  {
    && ReplayAll(up, target, orig, changes[..k]).ok
    && !changes[k].kind.Delete? && Strikes(up, target, orig, changes[k].path)
  }

  /** As long as the metadata is as it was, a change touches it exactly when it strikes. */
  lemma StepTouchesGitIff(up: Fold, orig: Nodes, target: Nodes, changes: Changes, k: nat)
    requires IsFold(up) && SparingPlan(up, orig, target, changes) && k < |changes|
    requires SameGit(orig, ReplayAll(up, target, orig, changes[..k]).nodes)
    ensures SameGit(orig, ReplayAll(up, target, orig, changes[..k + 1]).nodes)
       <==> !StrikesAt(up, orig, target, changes, k)
  {
    hide OnFileSystem, Ascending, Apply, Strikes, SameGit, NoLinkAlong, Canonical, RootGit, Standing;
    assert changes[..k + 1][..k] == changes[..k];
    var w, change := ReplayAll(up, target, orig, changes[..k]), changes[k];
    assert SparingItem(target, change);
    if w.ok {
      ReplayKeepsTree(up, target, orig, changes[..k]);
      StandingAfter(up, target, orig, changes, k);
      NotYetDone(changes, k);
      StandingLeaf(orig, changes, k, w.nodes);
      SameGitChain(orig, w.nodes, Apply(up, target, w.nodes, change).nodes);
      if change.kind.Create? {
        LinksAreOld(orig, changes[..k], w.nodes);
        NoLinkLater(up, orig, w.nodes, change.path);
        TargetIsNamed(up, target, change.path);
        CreateTouchesGitIff(up, target, w.nodes, change);
      } else {
        OtherChangesSpareGit(up, target, w.nodes, change);
      }
      if !change.kind.Delete? {
        TargetIsNamed(up, target, change.path);
        CanonicalSegments(change.path);
        StrikesSame(up, target, orig, w.nodes, change.path);
      }
    }
  }

  lemma SameGitChain(a: Nodes, b: Nodes, c: Nodes)
    requires SameGit(a, b)
    ensures SameGit(a, c) <==> SameGit(b, c)
  {
    if SameGit(a, c) {
      forall q | RootGit(q)
        ensures W.Get(c, q) == W.Get(b, q)
      {
      }
    }
  }

  lemma {:induction false} GitAfterPrefix(up: Fold, orig: Nodes, target: Nodes, changes: Changes, n: nat)
    requires IsFold(up) && SparingPlan(up, orig, target, changes) && n <= |changes|
    requires forall k :: 0 <= k < n ==> !StrikesAt(up, orig, target, changes, k)
    ensures SameGit(orig, ReplayAll(up, target, orig, changes[..n]).nodes)
  {
    hide OnFileSystem, SparingPlan, Apply, StrikesAt;
    if n == 0 {
      Unchanged(orig);
      assert changes[..0] == [];
    } else {
      GitAfterPrefix(up, orig, target, changes, n - 1);
      StepTouchesGitIff(up, orig, target, changes, n - 1);
    }
  }

  /** The metadata stays as it was throughout a replay, failed or not, exactly when no change strikes. */
  lemma ReplaySparesGitIff(up: Fold, orig: Nodes, target: Nodes, changes: Changes)
    requires IsFold(up) && SparingPlan(up, orig, target, changes)
    ensures (forall n :: 0 <= n <= |changes| ==> SameGit(orig, ReplayAll(up, target, orig, changes[..n]).nodes))
       <==> (forall k :: 0 <= k < |changes| ==> !StrikesAt(up, orig, target, changes, k))
  {
    hide SparingPlan, StrikesAt, SameGit, ReplayAll;
    if forall n :: 0 <= n <= |changes| ==> SameGit(orig, ReplayAll(up, target, orig, changes[..n]).nodes) {
      forall k | 0 <= k < |changes|
        ensures !StrikesAt(up, orig, target, changes, k)
      {
        StepTouchesGitIff(up, orig, target, changes, k);
        assert SameGit(orig, ReplayAll(up, target, orig, changes[..k + 1]).nodes);
      }
    }
    if forall k :: 0 <= k < |changes| ==> !StrikesAt(up, orig, target, changes, k) {
      forall n | 0 <= n <= |changes|
        ensures SameGit(orig, ReplayAll(up, target, orig, changes[..n]).nodes)
      {
        GitAfterPrefix(up, orig, target, changes, n);
      }
    }
  }

  // ---- A run of a plugin ------------------------------------------------------------------

  lemma AcceptedIsSparing(hash: Hash, up: Fold, orig: Nodes, target: Nodes)
    requires Permitted(hash, orig, target) && OnFileSystem(up, orig) && OnFileSystem(up, target)
    requires NoLinkInTheWay(up, orig, PluginChanges(hash, orig, target))
    ensures SparingPlan(up, orig, target, PluginChanges(hash, orig, target))
  {
    hide OnFileSystem, PluginChanges, Permitted, NoLinkInTheWay, Ascending, RootGit, Visible;
    var changes := PluginChanges(hash, orig, target);
    PluginChangesAreAscending(hash, orig, target);
    ChangeKinds(hash, orig, target);
    forall i | 0 <= i < |changes|
      ensures SparingItem(target, changes[i])
    {
      ItemIs(hash, orig, target, i);
    }
  }

  /**
   A run whose report was accepted leaves the root metadata as it was, whether it is committed or fails
   midway, exactly when no write that is reached leads into it under another spelling of `.git`.
   */
  lemma MetadataIsSparedIff(
    hash: Hash, up: Fold, orig: Nodes, target: Nodes, declared: seq<W.DeclaredChange>, limits: W.DiffLimits)
    requires IsFold(up) && PluginAccepted(hash, up, orig, target, declared, limits)
    requires NoLinkInTheWay(up, orig, PluginChanges(hash, orig, target))
    ensures var changes := PluginChanges(hash, orig, target);
            (forall n :: 0 <= n <= |changes| ==> SameGit(orig, ReplayAll(up, target, orig, changes[..n]).nodes))
            <==> (forall k :: 0 <= k < |changes| ==> !StrikesAt(up, orig, target, changes, k))
  {
    hide PluginAccepted, PluginChanges, SparingPlan, NoLinkInTheWay, OnFileSystem, Permitted;
    AcceptedIsPermitted(hash, up, orig, target, declared, limits);
    AcceptedOnFileSystem(hash, up, orig, target, declared, limits);
    AcceptedIsSparing(hash, up, orig, target);
    ReplaySparesGitIff(up, orig, target, PluginChanges(hash, orig, target));
  }

  lemma AcceptedOnFileSystem(
    hash: Hash, up: Fold, orig: Nodes, target: Nodes, declared: seq<W.DeclaredChange>, limits: W.DiffLimits)
    requires PluginAccepted(hash, up, orig, target, declared, limits)
    ensures OnFileSystem(up, orig) && OnFileSystem(up, target) && NoVisibleLinks(orig)
  {
  }

  /** No path that is written starts with another spelling of the metadata's name. */
  ghost predicate NoWriteRespells(up: Fold, orig: Nodes, changes: Changes) {
    forall i :: 0 <= i < |changes| && !changes[i].kind.Delete? ==> !Respells(up, orig, changes[i].path)
  }

  /**
   Without nested repositories, and with no written path that respells the metadata's name, it is safe:
   links are then out of the way too, since none but metadata can be one.
   */
  lemma UnspelledMetadataIsSpared(
    hash: Hash, up: Fold, orig: Nodes, target: Nodes, declared: seq<W.DeclaredChange>, limits: W.DiffLimits, n: nat)
    requires IsFold(up) && PluginAccepted(hash, up, orig, target, declared, limits) && NoNestedGit(orig)
    requires n <= |PluginChanges(hash, orig, target)|
    requires NoWriteRespells(up, orig, PluginChanges(hash, orig, target))
    ensures SameGit(orig, ReplayAll(up, target, orig, PluginChanges(hash, orig, target)[..n]).nodes)
  {
    hide PluginAccepted, PluginChanges, NoLinkAlong, OnFileSystem, Permitted, RootGit, Respells, SameGit, ReplayAll;
    var changes := PluginChanges(hash, orig, target);
    AcceptedIsPermitted(hash, up, orig, target, declared, limits);
    AcceptedOnFileSystem(hash, up, orig, target, declared, limits);
    forall i | 0 <= i < |changes| && !changes[i].kind.Delete?
      ensures NoLinkAlong(up, orig, changes[i].path)
    {
      ItemIs(hash, orig, target, i);
      LinksNeedRespelling(up, orig, changes[i].path);
    }
    MetadataIsSparedIff(hash, up, orig, target, declared, limits);
  }

  lemma LinksNeedRespelling(up: Fold, orig: Nodes, p: Path)
    requires IsFold(up) && OnFileSystem(up, orig) && NoVisibleLinks(orig) && NoNestedGit(orig)
    requires !RootGit(p) && !Respells(up, orig, p)
    ensures NoLinkAlong(up, orig, p)
  {
    hide OnFileSystem, IsAncestor, SameName, Alias, RootGit, Hidden;
    forall x, a | x in orig && orig[x].Link? && (a == p || IsAncestor(a, p))
      ensures !SameName(up, x, a)
    {
      assert RootGit(x);
      GitIsThere(up, orig, x);
      if SameName(up, x, a) {
        if a != p {
          RootGitBelow(a, p);
        }
        OtherSpelling(up, x, a);
        if a != p {
          AliasBelow(up, GIT, a, p);
        }
      }
    }
  }
}
