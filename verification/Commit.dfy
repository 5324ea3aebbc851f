/**
 The Windows transaction: a plugin's changes to a staged copy are validated, replayed onto the real
 workspace and validated again. The staged copy lacks every `.git`, at any depth, and the file system
 may find a name whatever its case.
 */
module Commit {
  import opened Wrappers
  import opened Paths
  import opened FileTree
  import opened Obstacles
  import opened Replay
  import opened Snapshots
  import W = Workspace

  // ---- When staging hides too much --------------------------------------------------------

  /** The path is under a hidden `.git` that the real workspace already uses for something else. */
  ghost predicate Clash(orig: Nodes, p: Path) {
    Hidden(p) && (p in orig || exists a :: IsAncestor(a, p) && Hidden(a) && IsLeaf(orig, a))
  }

  ghost predicate Clashes(orig: Nodes, changes: Changes) {
    exists p :: Changed(changes, p) && Clash(orig, p)
  }

  /** The only `.git` is the one at the root. */
  ghost predicate NoNestedGit(orig: Nodes) {
    forall p :: p in orig && Hidden(p) ==> RootGit(p)
  }

  /** The snapshots on either side of the plugin's run, and the changes between them. */
  function StagedBefore(hash: Hash, orig: Nodes): W.Snapshot {
    SnapshotOf(hash, Visible(orig))
  }

  function PluginChanges(hash: Hash, orig: Nodes, target: Nodes): Changes {
    W.Difference(StagedBefore(hash, orig), SnapshotOf(hash, target))
  }

  /** The directory and entry rules of an accepted diff. */
  ghost predicate Permitted(hash: Hash, orig: Nodes, target: Nodes) {
    && IsTree(orig) && IsTree(target)
    && W.DirectoriesKept(StagedBefore(hash, orig), SnapshotOf(hash, target))
    && W.ChangesAllowed(StagedBefore(hash, orig), SnapshotOf(hash, target))
  }

  // ---- Snapshots entry by entry -----------------------------------------------------------

  lemma SnapshotAt(hash: Hash, nodes: Nodes, p: Path)
    ensures W.Get(SnapshotOf(hash, nodes).entries, p)
         == if IsLeaf(nodes, p) then Some(EntryOf(hash, nodes[p])) else None
    ensures p in SnapshotOf(hash, nodes).modes <==> IsDir(nodes, p)
    ensures IsDir(nodes, p) ==> SnapshotOf(hash, nodes).modes[p] == nodes[p].mode
  {
    hide EntryOf;
  }

  /** The change at a path, in terms of the two trees. */
  lemma ChangeIs(hash: Hash, before: Nodes, after: Nodes, p: Path)
    ensures W.KindOf(
              if IsLeaf(before, p) then Some(EntryOf(hash, before[p])) else None,
              if IsLeaf(after, p) then Some(EntryOf(hash, after[p])) else None)
         == match W.ChangeAt(SnapshotOf(hash, before), SnapshotOf(hash, after), p)
            case None => None
            case Some(change) => Some(change.kind)
  {
    hide SnapshotOf, EntryOf;
    SnapshotAt(hash, before, p);
    SnapshotAt(hash, after, p);
  }

  lemma ChangedIff(hash: Hash, orig: Nodes, target: Nodes, p: Path)
    ensures Changed(PluginChanges(hash, orig, target), p)
       <==> W.ChangeAt(StagedBefore(hash, orig), SnapshotOf(hash, target), p).Some?
  {
    hide SnapshotOf, W.ChangeAt, SortedKeys;
  }

  // ---- An accepted diff is a valid plan ---------------------------------------------------

  lemma ItemIs(hash: Hash, orig: Nodes, target: Nodes, i: nat)
    requires Permitted(hash, orig, target) && i < |PluginChanges(hash, orig, target)|
    ensures var change := PluginChanges(hash, orig, target)[i];
            && Changed(PluginChanges(hash, orig, target), change.path)
            && !RootGit(change.path)
            && (change.kind.Delete? <==> !IsLeaf(target, change.path))
            && (change.kind.Create? <==> !IsLeaf(Visible(orig), change.path))
            && (!change.kind.Delete? ==> target[change.path].Regular?)
  {
    hide SnapshotOf, EntryOf, SortedKeys, RootGit, Visible, W.DirectoriesKept;
    var before, after := StagedBefore(hash, orig), SnapshotOf(hash, target);
    var change := PluginChanges(hash, orig, target)[i];
    var p := change.path;
    assert W.PathsOf(PluginChanges(hash, orig, target))[i] == p;
    assert Some(change) == W.ChangeAt(before, after, p);
    ChangeIs(hash, Visible(orig), target, p);
    assert p in W.ChangedPaths(before, after);
    assert W.ChangeAllowed(after, p);
    SnapshotAt(hash, target, p);
    if IsLeaf(target, p) {
      LeafKind(hash, target, p);
    }
  }

  lemma LeafKind(hash: Hash, nodes: Nodes, p: Path)
    requires IsLeaf(nodes, p)
    ensures EntryOf(hash, nodes[p]).kind != W.Symlink ==> nodes[p].Regular?
  {
  }

  /** Directories of the staged copy stay directories. */
  lemma DirsStay(hash: Hash, orig: Nodes, target: Nodes, p: Path)
    requires Permitted(hash, orig, target) && IsDir(orig, p) && !Hidden(p)
    ensures IsDir(target, p)
  {
    hide SnapshotOf, Hidden, W.ChangesAllowed;
    SnapshotAt(hash, Visible(orig), p);
    SnapshotAt(hash, target, p);
  }

  lemma CreatedIsNew(hash: Hash, orig: Nodes, target: Nodes, p: Path)
    requires Permitted(hash, orig, target) && IsLeaf(target, p) && !IsLeaf(Visible(orig), p)
    requires !Clash(orig, p)
    ensures p !in orig
  {
    hide Hidden, W.ChangesAllowed, SnapshotOf;
    if IsDir(orig, p) && !Hidden(p) {
      DirsStay(hash, orig, target, p);
    }
  }

  lemma WayFreed(hash: Hash, orig: Nodes, target: Nodes, p: Path)
    requires Permitted(hash, orig, target) && IsLeaf(target, p)
    requires !Clash(orig, p)
    ensures WayIsFreed(orig, PluginChanges(hash, orig, target), p)
  {
    hide Hidden, IsAncestor, SnapshotOf, EntryOf, PluginChanges, W.ChangesAllowed, W.DirectoriesKept;
    forall a | IsAncestor(a, p) && IsLeaf(orig, a)
      ensures Changed(PluginChanges(hash, orig, target), a)
    {
      if Hidden(a) {
        HiddenBelow(a, p);
      }
      assert IsDir(target, a);
      assert IsLeaf(Visible(orig), a);
      ChangeIs(hash, Visible(orig), target, a);
      ChangedIff(hash, orig, target, a);
    }
  }

  lemma PluginChangesAreAscending(hash: Hash, orig: Nodes, target: Nodes)
    ensures Ascending(W.PathsOf(PluginChanges(hash, orig, target)))
  {
    hide SnapshotOf, W.ChangedPaths;
  }

  lemma AcceptedIsPlan(hash: Hash, up: Fold, orig: Nodes, target: Nodes)
    requires Permitted(hash, orig, target) && OnFileSystem(up, orig) && OnFileSystem(up, target)
    requires !Clashes(orig, PluginChanges(hash, orig, target))
    requires SpellingsFreed(up, orig, PluginChanges(hash, orig, target))
    ensures ValidPlan(up, orig, target, PluginChanges(hash, orig, target))
  {
    hide Clash, WayIsFreed, PluginChanges, Permitted, Hidden, SpellingsFreed, OnFileSystem;
    var changes := PluginChanges(hash, orig, target);
    PluginChangesAreAscending(hash, orig, target);
    forall i: nat | i < |changes|
      ensures ItemFits(orig, target, changes, changes[i])
    {
      var p := changes[i].path;
      ItemIs(hash, orig, target, i);
      assert !Clash(orig, p);
      if changes[i].kind.Create? {
        CreatedIsNew(hash, orig, target, p);
      } else {
        VisibleIsOriginal(orig, p);
      }
      if !changes[i].kind.Delete? {
        WayFreed(hash, orig, target, p);
      }
    }
  }

  lemma VisibleIsOriginal(orig: Nodes, p: Path)
    ensures IsLeaf(Visible(orig), p) ==> IsLeaf(orig, p) && orig[p] == Visible(orig)[p]
  {
  }

  // ---- The second validation sees the same changes ----------------------------------------

  /** Where nothing clashes, an item of the list is about the real tree too. */
  lemma OriginalAgrees(hash: Hash, orig: Nodes, target: Nodes, p: Path)
    requires Permitted(hash, orig, target)
    requires Changed(PluginChanges(hash, orig, target), p) && !Clash(orig, p)
    ensures IsLeaf(orig, p) <==> IsLeaf(Visible(orig), p)
  {
    hide Hidden, PluginChanges, Permitted;
  }

  /** What a replayed tree holds at a path, as the second snapshot sees it. */
  lemma FinalLeaf(orig: Nodes, target: Nodes, changes: Changes, final: Nodes, p: Path)
    requires Replayed(orig, target, changes, final)
    ensures Changed(changes, p) ==> (IsLeaf(final, p) <==> IsLeaf(target, p))
    ensures Changed(changes, p) && IsLeaf(target, p) ==> final[p] == target[p]
    ensures !Changed(changes, p) ==> (IsLeaf(final, p) <==> IsLeaf(orig, p))
    ensures !Changed(changes, p) && p in orig ==> p in final && final[p] == orig[p]
  {
    hide OnTheWay, Changed;
    assert W.Get(final, p) == NodeAfter(orig, target, changes, p);
  }

  lemma SameChangeAt(hash: Hash, orig: Nodes, target: Nodes, final: Nodes, p: Path)
    requires Permitted(hash, orig, target)
    requires !Clashes(orig, PluginChanges(hash, orig, target))
    requires Replayed(orig, target, PluginChanges(hash, orig, target), final)
    ensures W.ChangeAt(SnapshotOf(hash, orig), SnapshotOf(hash, final), p)
         == W.ChangeAt(StagedBefore(hash, orig), SnapshotOf(hash, target), p)
  {
    hide SnapshotOf, EntryOf, PluginChanges, Permitted, Clash, Replayed, Visible;
    var changes := PluginChanges(hash, orig, target);
    ChangedIff(hash, orig, target, p);
    FinalLeaf(orig, target, changes, final, p);
    SnapshotAt(hash, orig, p);
    SnapshotAt(hash, final, p);
    SnapshotAt(hash, target, p);
    SnapshotAt(hash, Visible(orig), p);
    if Changed(changes, p) {
      assert !Clash(orig, p);
      OriginalAgrees(hash, orig, target, p);
      VisibleIsOriginal(orig, p);
    }
  }

  lemma SameDifference(a: W.Snapshot, b: W.Snapshot, c: W.Snapshot, d: W.Snapshot)
    requires forall p :: W.ChangeAt(a, b, p) == W.ChangeAt(c, d, p)
    ensures W.ChangedPaths(a, b) == W.ChangedPaths(c, d)
    ensures W.Difference(a, b) == W.Difference(c, d)
    ensures W.TrueClaims(a, b) == W.TrueClaims(c, d)
  {
    hide W.ChangeAt, SortedKeys;
    assert W.ChangedPaths(a, b) == W.ChangedPaths(c, d);
    forall i | 0 <= i < |W.Difference(a, b)|
      ensures W.Difference(a, b)[i] == W.Difference(c, d)[i]
    {
      assert W.PathsOf(W.Difference(a, b))[i] == W.PathsOf(W.Difference(c, d))[i];
      assert W.Difference(a, b)[i].path == W.Difference(c, d)[i].path;
      assert Some(W.Difference(a, b)[i]) == W.ChangeAt(a, b, W.Difference(a, b)[i].path);
    }
  }

  lemma PlanSparesDirectories(up: Fold, orig: Nodes, target: Nodes, changes: Changes, d: Path)
    requires ValidPlan(up, orig, target, changes) && IsDir(orig, d)
    ensures !Changed(changes, d)
  {
    forall i | 0 <= i < |changes|
      ensures W.PathsOf(changes)[i] != d
    {
      assert ItemFits(orig, target, changes, changes[i]);
    }
  }

  lemma FinalDirectories(hash: Hash, up: Fold, orig: Nodes, target: Nodes, changes: Changes, final: Nodes)
    requires ValidPlan(up, orig, target, changes) && Replayed(orig, target, changes, final)
    ensures W.DirectoriesKept(SnapshotOf(hash, orig), SnapshotOf(hash, final))
    ensures W.NewDirectoriesSafe(SnapshotOf(hash, orig), SnapshotOf(hash, final))
  {
    hide SnapshotOf, OnTheWay, IsAncestor, Ascending, WayIsFreed, OnFileSystem, SpellingsFreed;
    forall d
      ensures IsDir(orig, d) ==> IsDir(final, d) && final[d] == orig[d]
      ensures IsDir(final, d) && !IsDir(orig, d) ==> final[d].mode == PLAIN_MODE
    {
      assert W.Get(final, d) == NodeAfter(orig, target, changes, d);
      if IsDir(orig, d) {
        PlanSparesDirectories(up, orig, target, changes, d);
      }
    }
    forall d
      ensures d in SnapshotOf(hash, orig).modes <==> IsDir(orig, d)
      ensures IsDir(orig, d) ==> SnapshotOf(hash, orig).modes[d] == orig[d].mode
      ensures d in SnapshotOf(hash, final).modes <==> IsDir(final, d)
      ensures IsDir(final, d) ==> SnapshotOf(hash, final).modes[d] == final[d].mode
    {
      SnapshotAt(hash, orig, d);
      SnapshotAt(hash, final, d);
    }
    assert W.SafeMode(PLAIN_MODE);
  }

  lemma FinalAllowed(hash: Hash, orig: Nodes, target: Nodes, final: Nodes)
    requires Permitted(hash, orig, target)
    requires !Clashes(orig, PluginChanges(hash, orig, target))
    requires Replayed(orig, target, PluginChanges(hash, orig, target), final)
    ensures W.ChangesAllowed(SnapshotOf(hash, orig), SnapshotOf(hash, final))
  {
    hide SnapshotOf, EntryOf, PluginChanges, Clashes, Replayed, RootGit, W.ChangeAt, W.DirectoriesKept;
    forall p | p in W.ChangedPaths(SnapshotOf(hash, orig), SnapshotOf(hash, final))
      ensures W.ChangeAllowed(SnapshotOf(hash, final), p)
    {
      SameChangeAt(hash, orig, target, final, p);
      assert p in W.ChangedPaths(StagedBefore(hash, orig), SnapshotOf(hash, target));
      assert W.ChangeAllowed(SnapshotOf(hash, target), p);
      ChangedIff(hash, orig, target, p);
      FinalLeaf(orig, target, PluginChanges(hash, orig, target), final, p);
      SnapshotAt(hash, target, p);
      SnapshotAt(hash, final, p);
    }
  }

  // ---- Committing -------------------------------------------------------------------------

  /** Replay and second validation, as one function of the trees and the report. */
  function CommitResult(
    hash: Hash, up: Fold, orig: Nodes, target: Nodes, declared: seq<W.DeclaredChange>, limits: W.DiffLimits)
    : Option<Changes>
  {
    var w := ReplayAll(up, target, orig, PluginChanges(hash, orig, target));
    if w.ok && W.DiffAccepted(SnapshotOf(hash, orig), SnapshotOf(hash, w.nodes), declared, limits)
    then Some(W.Difference(SnapshotOf(hash, orig), SnapshotOf(hash, w.nodes)))
    else None
  }

  /** The staged copy could be made, and the first validation accepted the report. */
  ghost predicate PluginAccepted(
    hash: Hash, up: Fold, orig: Nodes, target: Nodes, declared: seq<W.DeclaredChange>, limits: W.DiffLimits)
  {
    OnFileSystem(up, orig) && OnFileSystem(up, target) && NoVisibleLinks(orig)
    && W.DiffAccepted(StagedBefore(hash, orig), SnapshotOf(hash, target), declared, limits)
  }

  lemma AcceptedIsPermitted(
    hash: Hash, up: Fold, orig: Nodes, target: Nodes, declared: seq<W.DeclaredChange>, limits: W.DiffLimits)
    requires PluginAccepted(hash, up, orig, target, declared, limits)
    ensures Permitted(hash, orig, target)
  {
  }

  /** With nothing in the way the replay cannot fail and the second validation returns the same list. */
  lemma CommitSucceeds(
    hash: Hash, up: Fold, orig: Nodes, target: Nodes, declared: seq<W.DeclaredChange>, limits: W.DiffLimits)
    requires PluginAccepted(hash, up, orig, target, declared, limits)
    requires !Clashes(orig, PluginChanges(hash, orig, target))
    requires SpellingsFreed(up, orig, PluginChanges(hash, orig, target))
    ensures CommitResult(hash, up, orig, target, declared, limits) == Some(PluginChanges(hash, orig, target))
    ensures Replayed(orig, target, PluginChanges(hash, orig, target),
                     ReplayAll(up, target, orig, PluginChanges(hash, orig, target)).nodes)
  {
    hide SnapshotOf, Clashes, Replayed, ValidPlan, W.ChangeAt, W.DirectoriesKept, W.NewDirectoriesSafe;
    hide W.ChangesAllowed, W.Declares, W.WithinLimits, W.TrueClaims, OnFileSystem, SpellingsFreed, Permitted;
    var changes := PluginChanges(hash, orig, target);
    AcceptedIsPermitted(hash, up, orig, target, declared, limits);
    AcceptedIsPlan(hash, up, orig, target);
    PlanSucceeds(up, orig, target, changes, |changes|);
    assert changes[..|changes|] == changes;
    var final := ReplayAll(up, target, orig, changes).nodes;
    FinalDirectories(hash, up, orig, target, changes, final);
    FinalAllowed(hash, orig, target, final);
    forall p
      ensures W.ChangeAt(SnapshotOf(hash, orig), SnapshotOf(hash, final), p)
           == W.ChangeAt(StagedBefore(hash, orig), SnapshotOf(hash, target), p)
    {
      SameChangeAt(hash, orig, target, final, p);
    }
    SameDifference(SnapshotOf(hash, orig), SnapshotOf(hash, final), StagedBefore(hash, orig), SnapshotOf(hash, target));
  }

  // ---- What is in the way is always noticed -----------------------------------------------

  /** Two reports cannot both be exact for one declaration unless they claim the same. */
  lemma DeclaresDetermines(declared: seq<W.DeclaredChange>, m: map<Path, W.Claim>, n: map<Path, W.Claim>)
    requires W.Declares(declared, m) && W.Declares(declared, n)
    ensures m == n
  {
    W.MapsDecide(declared, m);
    W.MapsDecide(declared, n);
  }

  lemma HiddenIsInvisible(orig: Nodes, p: Path)
    requires Hidden(p)
    ensures !IsLeaf(Visible(orig), p)
  {
  }

  lemma HiddenLeafIsUntouched(hash: Hash, orig: Nodes, target: Nodes, a: Path, p: Path)
    requires Permitted(hash, orig, target) && IsAncestor(a, p) && Hidden(a) && IsLeaf(target, p)
    ensures !Changed(PluginChanges(hash, orig, target), a)
  {
    hide SnapshotOf, EntryOf, PluginChanges, IsAncestor, Hidden, W.DirectoriesKept, W.ChangesAllowed;
    assert IsDir(target, a);
    HiddenIsInvisible(orig, a);
    ChangeIs(hash, Visible(orig), target, a);
    ChangedIff(hash, orig, target, a);
  }

  /** A write whose file is not there in the end is not what the report says. */
  lemma MissingWriteMisreports(
    hash: Hash, orig: Nodes, target: Nodes, final: Nodes, declared: seq<W.DeclaredChange>, p: Path)
    requires Changed(PluginChanges(hash, orig, target), p) && IsLeaf(target, p) && !IsLeaf(final, p)
    requires W.Declares(declared, W.TrueClaims(StagedBefore(hash, orig), SnapshotOf(hash, target)))
    ensures !W.Declares(declared, W.TrueClaims(SnapshotOf(hash, orig), SnapshotOf(hash, final)))
  {
    hide SnapshotOf, EntryOf, PluginChanges, W.Declares, Hidden, Visible, W.ChangeAt;
    var first := W.TrueClaims(StagedBefore(hash, orig), SnapshotOf(hash, target));
    var second := W.TrueClaims(SnapshotOf(hash, orig), SnapshotOf(hash, final));
    ChangedIff(hash, orig, target, p);
    ChangeIs(hash, Visible(orig), target, p);
    ChangeIs(hash, orig, final, p);
    assert first[p].kind != W.Delete;
    assert p in second ==> second[p].kind == W.Delete;
    if W.Declares(declared, second) {
      DeclaresDetermines(declared, first, second);
    }
  }

  lemma ChangeKinds(hash: Hash, orig: Nodes, target: Nodes)
    requires Permitted(hash, orig, target)
    ensures ChangesFiles(orig, PluginChanges(hash, orig, target))
    ensures WritesFiles(target, PluginChanges(hash, orig, target))
  {
    hide PluginChanges, Permitted, Hidden, Visible, RootGit;
    var changes := PluginChanges(hash, orig, target);
    forall i: nat | i < |changes|
      ensures !changes[i].kind.Create? ==> IsLeaf(orig, changes[i].path)
      ensures !changes[i].kind.Delete? ==> IsLeaf(target, changes[i].path)
    {
      ItemIs(hash, orig, target, i);
      VisibleIsOriginal(orig, changes[i].path);
    }
  }

  /** Something of the original tree that no change touches keeps p from being there. */
  ghost predicate Obstructs(up: Fold, orig: Nodes, changes: Changes, p: Path, x: Path) {
    && x in orig && !Changed(changes, x)
    && (Alias(up, x, p) || (IsAncestor(x, p) && IsLeaf(orig, x)))
  }

  lemma ObstructedIsMissing(up: Fold, orig: Nodes, changes: Changes, final: Nodes, p: Path, x: Path)
    requires Standing(orig, changes, final) && OnFileSystem(up, final)
    requires Obstructs(up, orig, changes, p, x)
    ensures p !in final
  {
    hide IsAncestor, SameName, Changed, Alias;
    assert IsDir(orig, x) || IsLeaf(orig, x);
    if Alias(up, x, p) {
      AliasExcludes(up, final, x, p);
    } else {
      assert IsLeaf(final, x);
    }
  }

  lemma AliasIsNotInTarget(up: Fold, target: Nodes, x: Path, p: Path)
    requires OnFileSystem(up, target) && p in target && Alias(up, x, p)
    ensures x !in target
  {
    hide OnFileSystem;
    PresentIsClear(up, target, p);
  }

  /** Unless something obstructs or clashes, hidden links are out of the way of every write. */
  lemma LinksAreAside(hash: Hash, up: Fold, orig: Nodes, target: Nodes)
    requires NoVisibleLinks(orig) && !Clashes(orig, PluginChanges(hash, orig, target))
    requires ChangesFiles(orig, PluginChanges(hash, orig, target))
    requires forall p, x :: Changed(PluginChanges(hash, orig, target), p) && IsLeaf(target, p) ==>
               !Obstructs(up, orig, PluginChanges(hash, orig, target), p, x)
    requires WritesFiles(target, PluginChanges(hash, orig, target))
    ensures NoLinkInTheWay(up, orig, PluginChanges(hash, orig, target))
  {
    hide PluginChanges, Hidden, IsAncestor, SameName, ChangesFiles;
    var changes := PluginChanges(hash, orig, target);
    forall i | 0 <= i < |changes| && !changes[i].kind.Delete?
      ensures NoLinkAlong(up, orig, changes[i].path)
    {
      var p := changes[i].path;
      assert W.PathsOf(changes)[i] == p;
      assert Changed(changes, p) && IsLeaf(target, p);
      forall c, a | c in orig && orig[c].Link? && (a == p || IsAncestor(a, p))
        ensures !SameName(up, c, a)
      {
        LinkIsAside(up, orig, changes, p, c, a);
      }
    }
  }

  lemma LinkIsAside(up: Fold, orig: Nodes, changes: Changes, p: Path, c: Path, a: Path)
    requires Changed(changes, p) && !Clashes(orig, changes) && !Obstructs(up, orig, changes, p, c)
    requires c in orig && orig[c].Link? && Hidden(c) && (a == p || IsAncestor(a, p))
    ensures !SameName(up, c, a)
  {
    hide Hidden, IsAncestor, SameName, Changed;
    assert Clash(orig, c);
    if c == a && IsAncestor(a, p) {
      HiddenBelow(a, p);
    }
    assert c == a ==> Clash(orig, p);
    assert SameName(up, c, a) && c != a ==> Alias(up, c, p);
  }

  /** An entry of another spelling that is deleted too late, or not at all. */
  lemma LateDeletion(hash: Hash, up: Fold, orig: Nodes, target: Nodes, k: nat, x: Path)
    requires Permitted(hash, orig, target) && OnFileSystem(up, orig) && OnFileSystem(up, target)
    requires k < |PluginChanges(hash, orig, target)| && !PluginChanges(hash, orig, target)[k].kind.Delete?
    requires x in orig && Alias(up, x, PluginChanges(hash, orig, target)[k].path)
    requires !DeletedBefore(PluginChanges(hash, orig, target), k, x)
    requires Changed(PluginChanges(hash, orig, target), x)
    ensures IsLeaf(orig, x) && !Changed(PluginChanges(hash, orig, target)[..k], x)
  {
    hide PluginChanges, Permitted, Alias, OnFileSystem, Visible, RootGit;
    var changes := PluginChanges(hash, orig, target);
    ChangeKinds(hash, orig, target);
    AliasIsNotInTarget(up, target, x, changes[k].path);
    forall i: nat | i < |changes| && changes[i].path == x
      ensures changes[i].kind.Delete? && IsLeaf(orig, x)
    {
      ItemIs(hash, orig, target, i);
    }
    var i :| 0 <= i < |changes| && W.PathsOf(changes)[i] == x;
    assert changes[i].path == x;
  }

  lemma ClashIsCaught(
    hash: Hash, up: Fold, orig: Nodes, target: Nodes, declared: seq<W.DeclaredChange>, limits: W.DiffLimits)
    requires PluginAccepted(hash, up, orig, target, declared, limits)
    requires Clashes(orig, PluginChanges(hash, orig, target))
    ensures CommitResult(hash, up, orig, target, declared, limits).None?
  {
    hide SnapshotOf, W.ChangeAt, W.DirectoriesKept, W.NewDirectoriesSafe, Hidden, IsAncestor, OnFileSystem;
    hide W.ChangesAllowed, W.Declares, W.WithinLimits, PluginChanges, ReplayAll, Permitted, Visible, Standing;
    hide CommitResult, PluginAccepted, W.TrueClaims, Alias;
    var changes := PluginChanges(hash, orig, target);
    AcceptedIsPermitted(hash, up, orig, target, declared, limits);
    if CommitResult(hash, up, orig, target, declared, limits).Some? {
      var p :| Changed(changes, p) && Clash(orig, p);
      var i: nat :| i < |changes| && W.PathsOf(changes)[i] == p;
      ItemIs(hash, orig, target, i);
      HiddenIsInvisible(orig, p);
      var final := StandingFinal(hash, up, orig, target, declared, limits);
      if IsLeaf(orig, p) {
        LeafClashMisreports(hash, orig, target, final, declared, p);
      } else {
        ChangedIsWritten(hash, orig, target, p);
        if p in orig {
          DirectoryStands(orig, changes, final, p);
        } else {
          var a :| IsAncestor(a, p) && Hidden(a) && IsLeaf(orig, a);
          HiddenLeafIsUntouched(hash, orig, target, a, p);
          assert Obstructs(up, orig, changes, p, a);
          ObstructedIsMissing(up, orig, changes, final, p, a);
        }
        MissingWriteMisreports(hash, orig, target, final, declared, p);
      }
    }
  }

  lemma DirectoryStands(orig: Nodes, done: Changes, nodes: Nodes, p: Path)
    requires Standing(orig, done, nodes) && IsDir(orig, p)
    ensures IsDir(nodes, p)
  {
  }

  lemma ChangedIsWritten(hash: Hash, orig: Nodes, target: Nodes, p: Path)
    requires Changed(PluginChanges(hash, orig, target), p) && !IsLeaf(Visible(orig), p)
    ensures IsLeaf(target, p)
  {
    hide SnapshotOf, EntryOf, PluginChanges, W.ChangeAt, Visible;
    ChangedIff(hash, orig, target, p);
    ChangeIs(hash, Visible(orig), target, p);
  }

  /** After a commit that went through, the real tree and what is still standing of it. */
  lemma StandingFinal(
    hash: Hash, up: Fold, orig: Nodes, target: Nodes, declared: seq<W.DeclaredChange>, limits: W.DiffLimits)
    returns (final: Nodes)
    requires PluginAccepted(hash, up, orig, target, declared, limits)
    requires CommitResult(hash, up, orig, target, declared, limits).Some?
    ensures ReplayAll(up, target, orig, PluginChanges(hash, orig, target)) == Written(final, true)
    ensures Standing(orig, PluginChanges(hash, orig, target), final) && OnFileSystem(up, final)
    ensures W.Declares(declared, W.TrueClaims(StagedBefore(hash, orig), SnapshotOf(hash, target)))
    ensures W.Declares(declared, W.TrueClaims(SnapshotOf(hash, orig), SnapshotOf(hash, final)))
  {
    hide SnapshotOf, W.DirectoriesKept, W.NewDirectoriesSafe, OnFileSystem, ReplayAll, Permitted;
    hide W.ChangesAllowed, W.Declares, W.WithinLimits, PluginChanges, Standing, W.TrueClaims;
    var changes := PluginChanges(hash, orig, target);
    AcceptedIsPermitted(hash, up, orig, target, declared, limits);
    PluginChangesAreAscending(hash, orig, target);
    ChangeKinds(hash, orig, target);
    assert changes[..|changes|] == changes;
    StandingAfter(up, target, orig, changes, |changes|);
    ReplayKeepsTree(up, target, orig, changes);
    final := ReplayAll(up, target, orig, changes).nodes;
  }

  lemma SpellingIsCaught(
    hash: Hash, up: Fold, orig: Nodes, target: Nodes, declared: seq<W.DeclaredChange>, limits: W.DiffLimits)
    requires PluginAccepted(hash, up, orig, target, declared, limits)
    requires !Clashes(orig, PluginChanges(hash, orig, target))
    requires !SpellingsFreed(up, orig, PluginChanges(hash, orig, target))
    ensures CommitResult(hash, up, orig, target, declared, limits).None?
  {
    hide SnapshotOf, W.DirectoriesKept, W.NewDirectoriesSafe, IsAncestor, OnFileSystem, Alias, Changed;
    hide W.ChangesAllowed, W.Declares, W.WithinLimits, PluginChanges, ReplayAll, Permitted, Standing, Clashes;
    hide CommitResult, W.TrueClaims, ChangesFiles, NoLinkInTheWay;
    var changes := PluginChanges(hash, orig, target);
    AcceptedIsPermitted(hash, up, orig, target, declared, limits);
    if CommitResult(hash, up, orig, target, declared, limits).Some? {
      var final := StandingFinal(hash, up, orig, target, declared, limits);
      ChangeKinds(hash, orig, target);
      if p, y :| Changed(changes, p) && IsLeaf(target, p) && Obstructs(up, orig, changes, p, y) {
        ObstructedIsMissing(up, orig, changes, final, p, y);
        MissingWriteMisreports(hash, orig, target, final, declared, p);
      } else {
        var k: nat, x :| k < |changes| && !changes[k].kind.Delete? && x in orig
          && Alias(up, x, changes[k].path) && !DeletedBefore(changes, k, x);
        var p := changes[k].path;
        ChangedAt(changes, k);
        assert !Obstructs(up, orig, changes, p, x);
        LateDeletion(hash, up, orig, target, k, x);
        LinksAreAside(hash, up, orig, target);
        PluginChangesAreAscending(hash, orig, target);
        assert changes[..|changes|] == changes;
        NameIsLost(up, target, orig, changes, k, x, |changes|);
        MissingWriteMisreports(hash, orig, target, final, declared, p);
      }
    }
  }

  lemma ChangedAt(changes: Changes, k: nat)
    requires k < |changes|
    ensures Changed(changes, changes[k].path)
  {
    assert W.PathsOf(changes)[k] == changes[k].path;
  }

  /** A file created over a hidden one would be a modification, which the report does not say. */
  lemma LeafClashMisreports(
    hash: Hash, orig: Nodes, target: Nodes, final: Nodes, declared: seq<W.DeclaredChange>, p: Path)
    requires Changed(PluginChanges(hash, orig, target), p) && Hidden(p) && IsLeaf(orig, p)
    requires W.Declares(declared, W.TrueClaims(StagedBefore(hash, orig), SnapshotOf(hash, target)))
    ensures !W.Declares(declared, W.TrueClaims(SnapshotOf(hash, orig), SnapshotOf(hash, final)))
  {
    hide SnapshotOf, EntryOf, PluginChanges, W.Declares, Hidden, Visible, W.ChangeAt;
    var first := W.TrueClaims(StagedBefore(hash, orig), SnapshotOf(hash, target));
    var second := W.TrueClaims(SnapshotOf(hash, orig), SnapshotOf(hash, final));
    ChangedIff(hash, orig, target, p);
    HiddenIsInvisible(orig, p);
    ChangeIs(hash, Visible(orig), target, p);
    ChangeIs(hash, orig, final, p);
    assert first[p].kind == W.Create;
    assert p in second ==> second[p].kind != W.Create;
    if W.Declares(declared, second) {
      DeclaresDetermines(declared, first, second);
    }
  }

  // ---- The main results -------------------------------------------------------------------

  /**
   For every workspace, every plugin result and every accepted report, replay and second validation
   return the list the first validation returned if the plugin created nothing where a hidden nested
   `.git` of the real workspace is in the way, and every entry it respelled is deleted before the new
   spelling is written; otherwise they fail.
   */
  lemma ReplayOutcome(
    hash: Hash, up: Fold, orig: Nodes, target: Nodes, declared: seq<W.DeclaredChange>, limits: W.DiffLimits)
    requires PluginAccepted(hash, up, orig, target, declared, limits)
    ensures CommitResult(hash, up, orig, target, declared, limits)
         == var changes := PluginChanges(hash, orig, target);
            if !Clashes(orig, changes) && SpellingsFreed(up, orig, changes) then Some(changes) else None
  {
    hide Clashes, CommitResult, PluginChanges, PluginAccepted, SpellingsFreed;
    if Clashes(orig, PluginChanges(hash, orig, target)) {
      ClashIsCaught(hash, up, orig, target, declared, limits);
    } else if !SpellingsFreed(up, orig, PluginChanges(hash, orig, target)) {
      SpellingIsCaught(hash, up, orig, target, declared, limits);
    } else {
      CommitSucceeds(hash, up, orig, target, declared, limits);
    }
  }

  /** Without nested repositories there is never a clash. */
  lemma NoNestedGitNoClash(hash: Hash, orig: Nodes, target: Nodes)
    requires Permitted(hash, orig, target) && NoNestedGit(orig)
    ensures !Clashes(orig, PluginChanges(hash, orig, target))
  {
    hide PluginChanges, Hidden, RootGit, IsAncestor, Permitted;
    var changes := PluginChanges(hash, orig, target);
    forall p | Changed(changes, p)
      ensures !Clash(orig, p)
    {
      var i :| 0 <= i < |changes| && W.PathsOf(changes)[i] == p;
      ItemIs(hash, orig, target, i);
      forall a | IsAncestor(a, p) && Hidden(a) && IsLeaf(orig, a)
        ensures false
      {
        RootGitBelow(a, p);
      }
    }
  }

  /**
   After a commit every visible file is what the plugin left, and no Git metadata that was there, at the
   root or nested, is touched.
   */
  lemma CommittedFiles(hash: Hash, orig: Nodes, target: Nodes, final: Nodes, p: Path)
    requires Permitted(hash, orig, target)
    requires Replayed(orig, target, PluginChanges(hash, orig, target), final)
    ensures !Hidden(p) ==> W.Get(SnapshotOf(hash, final).entries, p) == W.Get(SnapshotOf(hash, target).entries, p)
    ensures Changed(PluginChanges(hash, orig, target), p) && IsLeaf(target, p) ==> W.Get(final, p) == Some(target[p])
    ensures RootGit(p) ==> W.Get(final, p) == W.Get(orig, p)
    ensures Hidden(p) && p in orig && !Clashes(orig, PluginChanges(hash, orig, target)) ==>
              W.Get(final, p) == W.Get(orig, p)
  {
    hide SnapshotOf, EntryOf, PluginChanges, Hidden, RootGit, Permitted, OnTheWay, W.ChangeAt;
    var changes := PluginChanges(hash, orig, target);
    ChangedIff(hash, orig, target, p);
    FinalLeaf(orig, target, changes, final, p);
    SnapshotAt(hash, final, p);
    SnapshotAt(hash, target, p);
    if !Hidden(p) && !Changed(changes, p) {
      UnchangedEntry(hash, orig, target, p);
    }
    if RootGit(p) {
      RootGitUntouched(hash, orig, target, p);
      assert W.Get(final, p) == NodeAfter(orig, target, changes, p);
    }
  }

  /**
   What the returned list says about the files: one item for each path where the plugin's result differs
   from what it was given, with the digests and the size of what is there.
   */
  lemma ChangesDescribeFiles(hash: Hash, orig: Nodes, target: Nodes, p: Path)
    requires TellsApart(hash, Visible(orig), target)
    ensures Changed(PluginChanges(hash, orig, target), p) <==> !SameAt(Visible(orig), target, p)
    ensures forall i :: 0 <= i < |PluginChanges(hash, orig, target)| ==>
              DescribesFile(hash, Visible(orig), target, PluginChanges(hash, orig, target)[i])
  {
    hide SnapshotOf, PluginChanges, Visible, SameFile;
    ChangedIff(hash, orig, target, p);
    EntryChanges(hash, Visible(orig), target, p);
    var changes := PluginChanges(hash, orig, target);
    forall i | 0 <= i < |changes|
      ensures DescribesFile(hash, Visible(orig), target, changes[i])
    {
      ItemAt(hash, orig, target, i);
      EntryChanges(hash, Visible(orig), target, changes[i].path);
    }
  }

  lemma ItemAt(hash: Hash, orig: Nodes, target: Nodes, i: nat)
    requires i < |PluginChanges(hash, orig, target)|
    ensures var change := PluginChanges(hash, orig, target)[i];
            W.ChangeAt(StagedBefore(hash, orig), SnapshotOf(hash, target), change.path) == Some(change)
  {
    hide SnapshotOf, Visible, W.ChangeAt;
  }

  predicate DescribesFile(hash: Hash, before: Nodes, after: Nodes, change: W.WorkspaceChange) {
    var p := change.path;
    && (change.kind.Create? <==> !IsLeaf(before, p)) && (change.kind.Delete? <==> !IsLeaf(after, p))
    && change.size == (if IsLeaf(after, p) then |Content(after[p])| else 0)
    && change.before == (if IsLeaf(before, p) then Some("sha256:" + hash(Content(before[p]))) else None)
    && change.after == (if IsLeaf(after, p) then Some("sha256:" + hash(Content(after[p]))) else None)
  }

  lemma EntryChanges(hash: Hash, before: Nodes, after: Nodes, p: Path)
    requires TellsApart(hash, before, after)
    ensures var change := W.ChangeAt(SnapshotOf(hash, before), SnapshotOf(hash, after), p);
            && (change.Some? <==> !SameAt(before, after, p))
            && (change.Some? ==> change.value.path == p && DescribesFile(hash, before, after, change.value))
  {
    hide SnapshotOf, SameFile;
    SnapshotAt(hash, before, p);
    SnapshotAt(hash, after, p);
    SameEntryIff(hash, before, after, p);
  }

  /** After a commit, every visible path holds what the plugin's result holds there. */
  lemma CommittedIsPlugins(hash: Hash, orig: Nodes, target: Nodes, final: Nodes, p: Path)
    requires TellsApart(hash, Visible(orig), target) && Permitted(hash, orig, target)
    requires Replayed(orig, target, PluginChanges(hash, orig, target), final)
    ensures !Hidden(p) ==> SameAt(final, target, p)
  {
    hide SnapshotOf, PluginChanges, Hidden, Permitted, OnTheWay, W.ChangeAt, Replayed, TellsApart;
    if !Hidden(p) {
      ChangesDescribeFiles(hash, orig, target, p);
      FinalLeaf(orig, target, PluginChanges(hash, orig, target), final, p);
      SeenAsIs(orig, p);
    }
  }

  lemma SeenAsIs(orig: Nodes, p: Path)
    requires !Hidden(p)
    ensures W.Get(Visible(orig), p) == W.Get(orig, p)
  {
    hide Hidden;
  }

  lemma UnchangedEntry(hash: Hash, orig: Nodes, target: Nodes, p: Path)
    requires !Hidden(p) && W.ChangeAt(StagedBefore(hash, orig), SnapshotOf(hash, target), p).None?
    ensures IsLeaf(orig, p) <==> IsLeaf(target, p)
    ensures IsLeaf(orig, p) ==> EntryOf(hash, orig[p]) == EntryOf(hash, target[p])
  {
    hide SnapshotOf, EntryOf, Hidden;
    SnapshotAt(hash, Visible(orig), p);
    SnapshotAt(hash, target, p);
  }

  lemma RootGitUntouched(hash: Hash, orig: Nodes, target: Nodes, p: Path)
    requires Permitted(hash, orig, target) && RootGit(p)
    ensures !Changed(PluginChanges(hash, orig, target), p)
    ensures !OnTheWay(target, PluginChanges(hash, orig, target), p)
  {
    hide PluginChanges, RootGit, IsAncestor, Permitted, IsLeaf;
    var changes := PluginChanges(hash, orig, target);
    forall i: nat | i < |changes|
      ensures changes[i].path != p && !IsAncestor(p, changes[i].path)
    {
      ItemIs(hash, orig, target, i);
      if IsAncestor(p, changes[i].path) {
        RootGitBelow(p, changes[i].path);
      }
    }
  }

  // ---- The source's sequence --------------------------------------------------------------

  datatype CommitError =
    | StagingRefused | CaptureFailed(capture: CaptureError) | Rejected(rejection: W.Rejection)
    | ChangedConcurrently | ReplayFailed

  /** The checks before the workspace is touched. */
  predicate ReadyToReplay(
    hash: Hash, stagedBefore: W.Snapshot, originalBefore: W.Snapshot, target: Nodes, current: Nodes,
    declared: seq<W.DeclaredChange>, limits: W.DiffLimits)
  {
    && FitsLimits(target, limits)
    && W.DiffAccepted(stagedBefore, SnapshotOf(hash, target), declared, limits)
    && FitsLimits(current, limits)
    && originalBefore == SnapshotOf(hash, current)
  }

  /** Everything after the plugin has run. Nothing is touched unless all checks pass. */
  method CommitWindows(
    hash: Hash, stagedBefore: W.Snapshot, originalBefore: W.Snapshot, target: Nodes, workspace: Tree,
    declared: seq<W.DeclaredChange>, limits: W.DiffLimits)
    returns (r: Result<Changes, CommitError>)
    requires IsHash(hash) && workspace.Valid()
    requires W.HasDigests(stagedBefore) && W.HasDigests(originalBefore)
    modifies workspace
    ensures workspace.Valid()
    ensures (!ReadyToReplay(hash, stagedBefore, originalBefore, target, old(workspace.nodes), declared, limits))
              ==> r.Err? && workspace.nodes == old(workspace.nodes)
    ensures (ReadyToReplay(hash, stagedBefore, originalBefore, target, old(workspace.nodes), declared, limits))
              ==> var changes := W.Difference(stagedBefore, SnapshotOf(hash, target));
                  var w := ReplayAll(workspace.up, target, old(workspace.nodes), changes);
                  && workspace.nodes == w.nodes
                  && (r.Ok? <==> w.ok && FitsLimits(w.nodes, limits)
                                 && W.DiffAccepted(originalBefore, SnapshotOf(hash, w.nodes), declared, limits))
    ensures r.Ok? ==> r.value == W.Difference(originalBefore, SnapshotOf(hash, workspace.nodes))
  {
    hide SnapshotOf, FitsLimits, W.DiffAccepted, ReplayAll, W.Justified, W.HasDigests, OnFileSystem;
    var stagedAfter := Capture(hash, target, limits);
    if stagedAfter.Err? {
      return Err(CaptureFailed(stagedAfter.error));
    }
    SnapshotHasDigests(hash, target);
    var changes := W.ValidateDiff(stagedBefore, stagedAfter.value, declared, limits);
    if changes.Err? {
      return Err(Rejected(changes.error));
    }
    var stillOriginal := Capture(hash, workspace.nodes, limits);
    if stillOriginal.Err? {
      return Err(CaptureFailed(stillOriginal.error));
    }
    if originalBefore != stillOriginal.value {
      return Err(ChangedConcurrently);
    }
    var ok := ReplayWindowsChanges(target, workspace, changes.value);
    if !ok {
      return Err(ReplayFailed);
    }
    var finalSnapshot := Capture(hash, workspace.nodes, limits);
    if finalSnapshot.Err? {
      return Err(CaptureFailed(finalSnapshot.error));
    }
    SnapshotHasDigests(hash, workspace.nodes);
    var applied := W.ValidateDiff(originalBefore, finalSnapshot.value, declared, limits);
    if applied.Err? {
      return Err(Rejected(applied.error));
    }
    return Ok(applied.value);
  }
}
