/**
 Committing a validated change list to the real workspace, file by file in path order, and
 validating the result again.
 */
module Replay {
  import opened Wrappers
  import opened Paths
  import opened FileTree
  import W = Workspace

  type Changes = seq<W.WorkspaceChange>

  // ---- One change -------------------------------------------------------------------------

  datatype Written = Written(nodes: Nodes, ok: bool)

  /** The operations of one change, on the tree as the file system finds its names. */
  function Apply(up: Fold, staged: Nodes, nodes: Nodes, change: W.WorkspaceChange): Written {
    var p := change.path;
    if change.kind.Delete? then Outcome(nodes, Removed(up, nodes, p))
    else if p == "" then Written(nodes, false)
    else
      match DirsEnsured(up, nodes, Parent(p))
      case None => Written(DirsLeft(up, nodes, Parent(p)), false)
      case Some(made) => ApplyWrite(up, staged, made, change)
  }

  function ApplyWrite(up: Fold, staged: Nodes, made: Nodes, change: W.WorkspaceChange): Written {
    var p := change.path;
    if change.kind.Modify? then
      match Removed(up, made, p)
      case None => Written(made, false)
      case Some(cleared) => ApplyCopy(up, staged, cleared, p)
    else ApplyCopy(up, staged, made, p)
  }

  function ApplyCopy(up: Fold, staged: Nodes, cleared: Nodes, p: Path): Written {
    if p in staged && staged[p].Regular? then Outcome(cleared, Placed(up, cleared, p, staged[p]))
    else Written(cleared, false)
  }

  function Outcome(nodes: Nodes, after: Option<Nodes>): Written {
    if after.Some? then Written(after.value, true) else Written(nodes, false)
  }

  function ReplayAll(up: Fold, staged: Nodes, nodes: Nodes, changes: Changes): Written {
    if changes == [] then Written(nodes, true)
    else
      var n := |changes| - 1;
      var w := ReplayAll(up, staged, nodes, changes[..n]);
      if w.ok then Apply(up, staged, w.nodes, changes[n]) else w
  }

  lemma ApplyKeepsTree(up: Fold, staged: Nodes, nodes: Nodes, change: W.WorkspaceChange)
    requires OnFileSystem(up, nodes)
    ensures OnFileSystem(up, Apply(up, staged, nodes, change).nodes)
  {
    hide OnFileSystem, Removed, DirsEnsured, Placed, Added;
    var p := change.path;
    OperationsKeepTree(up, nodes, p, Directory(PLAIN_MODE));
    if !change.kind.Delete? && p != "" {
      DirsKeepTree(up, nodes, Parent(p));
      var made := DirsEnsured(up, nodes, Parent(p));
      if made.Some? {
        OperationsKeepTree(up, made.value, p, Directory(PLAIN_MODE));
        var cleared := if change.kind.Modify? then Removed(up, made.value, p) else made;
        if cleared.Some? && p in staged && staged[p].Regular? {
          OperationsKeepTree(up, cleared.value, p, staged[p]);
        }
      }
    }
  }

  lemma {:induction false} ReplayKeepsTree(up: Fold, staged: Nodes, nodes: Nodes, changes: Changes)
    requires OnFileSystem(up, nodes)
    ensures OnFileSystem(up, ReplayAll(up, staged, nodes, changes).nodes)
  {
    hide Apply, OnFileSystem;
    if changes == [] {
    } else {
      var n := |changes| - 1;
      ReplayKeepsTree(up, staged, nodes, changes[..n]);
      ApplyKeepsTree(up, staged, ReplayAll(up, staged, nodes, changes[..n]).nodes, changes[n]);
    }
  }

  lemma {:induction false} FailureIsFinal(up: Fold, staged: Nodes, nodes: Nodes, changes: Changes, k: nat)
    requires k <= |changes| && !ReplayAll(up, staged, nodes, changes[..k]).ok
    ensures ReplayAll(up, staged, nodes, changes) == ReplayAll(up, staged, nodes, changes[..k])
    decreases |changes|
  {
    hide Apply;
    if k == |changes| {
      assert changes[..k] == changes;
    } else {
      var n := |changes| - 1;
      assert changes[..n][..k] == changes[..k];
      FailureIsFinal(up, staged, nodes, changes[..n], k);
    }
  }

  /** The source's loop: operations on the real tree, stopping at the first that fails. */
  method ReplayWindowsChanges(staged: Nodes, workspace: Tree, changes: Changes) returns (ok: bool)
    requires workspace.Valid()
    modifies workspace
    ensures workspace.Valid()
    ensures Written(workspace.nodes, ok) == ReplayAll(workspace.up, staged, old(workspace.nodes), changes)
  {
    hide Apply, OnFileSystem;
    for k := 0 to |changes|
      invariant workspace.Valid()
      invariant Written(workspace.nodes, true) == ReplayAll(workspace.up, staged, old(workspace.nodes), changes[..k])
    {
      assert changes[..k + 1][..k] == changes[..k];
      ok := ApplyChange(staged, workspace, changes[k]);
      if !ok {
        FailureIsFinal(workspace.up, staged, old(workspace.nodes), changes, k + 1);
        return;
      }
    }
    assert changes[..|changes|] == changes;
    ok := true;
  }

  method ApplyChange(staged: Nodes, workspace: Tree, change: W.WorkspaceChange) returns (ok: bool)
    requires workspace.Valid()
    modifies workspace
    ensures workspace.Valid()
    ensures Written(workspace.nodes, ok) == Apply(workspace.up, staged, old(workspace.nodes), change)
  {
    hide DirsEnsured, Removed, Placed, OnFileSystem, Parent;
    if change.kind.Delete? {
      ok := workspace.RemoveFile(change.path);
      return;
    }
    if change.path == "" {
      return false;
    }
    ok := workspace.CreateDirAll(Parent(change.path));
    if ok && change.kind.Modify? {
      ok := workspace.RemoveFile(change.path);
    }
    if ok {
      if change.path in staged && staged[change.path].Regular? {
        ok := workspace.Place(change.path, staged[change.path]);
      } else {
        ok := false;
      }
    }
  }

  // ---- Plans that cannot fail -------------------------------------------------------------

  predicate Changed(changes: Changes, p: Path) {
    p in W.PathsOf(changes)
  }

  /** What a change list must satisfy, relative to the real tree and the staged target. */
  ghost predicate ItemFits(orig: Nodes, target: Nodes, changes: Changes, change: W.WorkspaceChange) {
    var p := change.path;
    match change.kind
    case Delete => IsLeaf(orig, p) && !IsLeaf(target, p)
    case Modify => IsLeaf(orig, p) && p in target && target[p].Regular? && WayIsFreed(orig, changes, p)
    case Create => p !in orig && p in target && target[p].Regular? && WayIsFreed(orig, changes, p)
  }

  /** Every file in the way of p's directories is itself among the changes. */
  ghost predicate WayIsFreed(orig: Nodes, changes: Changes, p: Path) {
    forall a :: IsAncestor(a, p) && IsLeaf(orig, a) ==> Changed(changes, a)
  }

  predicate DeletedBefore(changes: Changes, k: nat, x: Path)
    requires k <= |changes|
  {
    exists i :: 0 <= i < k && changes[i].path == x && changes[i].kind.Delete?
  }

  /** A write that meets an entry spelled differently comes after that entry's deletion. */
  ghost predicate SpellingsFreed(up: Fold, orig: Nodes, changes: Changes) {
    forall k: nat, x :: k < |changes| && !changes[k].kind.Delete? && x in orig && Alias(up, x, changes[k].path) ==>
      DeletedBefore(changes, k, x)
  }

  ghost predicate ValidPlan(up: Fold, orig: Nodes, target: Nodes, changes: Changes) {
    && OnFileSystem(up, orig) && OnFileSystem(up, target)
    && SpellingsFreed(up, orig, changes)
    && Ascending(W.PathsOf(changes))
    && forall i :: 0 <= i < |changes| ==> ItemFits(orig, target, changes, changes[i])
  }

  /** Some written file lies below p. */
  predicate OnTheWay(target: Nodes, done: Changes, p: Path) {
    exists i :: 0 <= i < |done| && IsLeaf(target, done[i].path) && IsAncestor(p, done[i].path)
  }

  /** What stands at p once some changes are done. */
  function NodeAfter(orig: Nodes, target: Nodes, done: Changes, p: Path): Option<Node> {
    if Changed(done, p) && IsLeaf(target, p) then Some(target[p])
    else if p in orig && !Changed(done, p) then Some(orig[p])
    else if OnTheWay(target, done, p) then Some(Directory(PLAIN_MODE))
    else None
  }

  ghost predicate Replayed(orig: Nodes, target: Nodes, done: Changes, nodes: Nodes) {
    forall p :: W.Get(nodes, p) == NodeAfter(orig, target, done, p)
  }

  lemma ChangedSoFar(changes: Changes, k: nat, p: Path)
    requires k < |changes|
    ensures Changed(changes[..k + 1], p) <==> Changed(changes[..k], p) || p == changes[k].path
  {
    assert W.PathsOf(changes[..k + 1]) == W.PathsOf(changes[..k]) + [changes[k].path];
  }

  lemma OnTheWaySoFar(target: Nodes, changes: Changes, k: nat, p: Path)
    requires k < |changes|
    ensures OnTheWay(target, changes[..k + 1], p)
       <==> OnTheWay(target, changes[..k], p)
            || (IsLeaf(target, changes[k].path) && IsAncestor(p, changes[k].path))
  {
    hide IsAncestor, IsLeaf;
    var shorter, longer := changes[..k], changes[..k + 1];
    if OnTheWay(target, shorter, p) {
      var i :| 0 <= i < k && IsLeaf(target, shorter[i].path) && IsAncestor(p, shorter[i].path);
      assert longer[i] == shorter[i];
    }
    if OnTheWay(target, longer, p) {
      var i :| 0 <= i <= k && IsLeaf(target, longer[i].path) && IsAncestor(p, longer[i].path);
      if i < k {
        assert shorter[i] == longer[i];
      }
    }
    assert longer[k] == changes[k];
  }

  lemma NotYetDone(changes: Changes, k: nat)
    requires Ascending(W.PathsOf(changes)) && k < |changes|
    ensures !Changed(changes[..k], changes[k].path)
  {
    AscendingIsDistinct(W.PathsOf(changes));
    forall i | 0 <= i < k
      ensures W.PathsOf(changes[..k])[i] != changes[k].path
    {
      assert W.PathsOf(changes)[i] != W.PathsOf(changes)[k];
    }
  }

  /** Files in the way come earlier in path order, so they are already gone. */
  lemma EarlierInTheWay(changes: Changes, k: nat, a: Path)
    requires Ascending(W.PathsOf(changes)) && k < |changes|
    requires IsAncestor(a, changes[k].path) && Changed(changes, a)
    ensures Changed(changes[..k], a)
  {
    var paths := W.PathsOf(changes);
    AncestorIsBelow(a, changes[k].path);
    var j :| 0 <= j < |paths| && paths[j] == a;
    AscendingIndex(paths, j, k);
    assert W.PathsOf(changes[..k])[j] == a;
  }

  lemma NothingBelowYet(up: Fold, orig: Nodes, target: Nodes, changes: Changes, k: nat)
    requires ValidPlan(up, orig, target, changes) && k < |changes|
    ensures !OnTheWay(target, changes[..k], changes[k].path)
  {
    hide IsAncestor, Below;
    var p := changes[k].path;
    if OnTheWay(target, changes[..k], p) {
      var i :| 0 <= i < k && IsLeaf(target, changes[..k][i].path) && IsAncestor(p, changes[..k][i].path);
      assert IsDir(target, p);
      assert ItemFits(orig, target, changes, changes[k]);
      AncestorIsBelow(p, changes[i].path);
      AscendingIndex(W.PathsOf(changes), k, i);
      assert false;
    }
  }

  lemma WayIsClear(up: Fold, orig: Nodes, target: Nodes, changes: Changes, k: nat, nodes: Nodes, a: Path)
    requires ValidPlan(up, orig, target, changes) && k < |changes|
    requires Replayed(orig, target, changes[..k], nodes)
    requires !changes[k].kind.Delete? && IsAncestor(a, changes[k].path)
    ensures !IsLeaf(nodes, a)
  {
    hide IsAncestor, Below, OnTheWay, Changed;
    assert ItemFits(orig, target, changes, changes[k]);
    assert IsDir(target, a);
    assert W.Get(nodes, a) == NodeAfter(orig, target, changes[..k], a);
    if IsLeaf(orig, a) {
      EarlierInTheWay(changes, k, a);
    }
  }

  lemma DeleteStep(up: Fold, orig: Nodes, target: Nodes, changes: Changes, k: nat, nodes: Nodes)
    requires ValidPlan(up, orig, target, changes) && k < |changes| && changes[k].kind.Delete?
    requires Replayed(orig, target, changes[..k], nodes) && OnFileSystem(up, nodes)
    ensures Apply(up, target, nodes, changes[k]).ok
    ensures Replayed(orig, target, changes[..k + 1], Apply(up, target, nodes, changes[k]).nodes)
  {
    hide IsAncestor, Below, OnTheWay, Changed, Ascending, OnFileSystem, Removed, SpellingsFreed;
    var p := changes[k].path;
    assert ItemFits(orig, target, changes, changes[k]);
    NotYetDone(changes, k);
    NothingBelowYet(up, orig, target, changes, k);
    assert W.Get(nodes, p) == NodeAfter(orig, target, changes[..k], p);
    RemovedExact(up, nodes, p);
    forall x
      ensures W.Get(nodes - {p}, x) == NodeAfter(orig, target, changes[..k + 1], x)
    {
      ChangedSoFar(changes, k, x);
      OnTheWaySoFar(target, changes, k, x);
      assert W.Get(nodes, x) == NodeAfter(orig, target, changes[..k], x);
    }
  }

  lemma MadeDirs(nodes: Nodes, p: Path, x: Path)
    requires p != ""
    ensures W.Get(MakeDirs(nodes, Parent(p)), x)
         == if x in nodes then Some(nodes[x])
            else if IsAncestor(x, p) then Some(Directory(PLAIN_MODE)) else None
  {
    hide IsAncestor;
    if IsAncestor(x, p) {
      ParentIsNearest(x, p);
    }
    if IsAncestor(x, Parent(p)) {
      AncestorsNest(x, Parent(p), p);
    }
  }

  lemma CanMakeParent(nodes: Nodes, p: Path)
    requires p != "" && forall a :: IsAncestor(a, p) ==> !IsLeaf(nodes, a)
    ensures CanMakeDirs(nodes, Parent(p))
  {
    hide IsAncestor, IsLeaf;
    forall a | a in Ancestors(Parent(p))
      ensures !IsLeaf(nodes, a)
    {
      AncestorsNest(a, Parent(p), p);
    }
  }

  /** What stands in a half-replayed tree comes from the staged one, or is still what it was. */
  lemma StandsFrom(orig: Nodes, target: Nodes, done: Changes, nodes: Nodes, x: Path)
    requires IsTree(target) && Replayed(orig, target, done, nodes) && x in nodes
    ensures x in target || (x in orig && !Changed(done, x))
  {
    hide IsAncestor, Changed;
    assert W.Get(nodes, x) == NodeAfter(orig, target, done, x);
    if OnTheWay(target, done, x) {
      var i :| 0 <= i < |done| && IsLeaf(target, done[i].path) && IsAncestor(x, done[i].path);
      assert IsDir(target, x);
    }
  }

  /** Whatever a write would find under another spelling is gone by its turn. */
  lemma WriteIsClear(up: Fold, orig: Nodes, target: Nodes, changes: Changes, k: nat, nodes: Nodes)
    requires ValidPlan(up, orig, target, changes) && k < |changes| && !changes[k].kind.Delete?
    requires Replayed(orig, target, changes[..k], nodes)
    ensures Clear(up, nodes, changes[k].path)
  {
    hide IsAncestor, Below, Ascending, Replayed, SameName, DeletedBefore, Canonical;
    var p := changes[k].path;
    assert ItemFits(orig, target, changes, changes[k]);
    forall x, a | x in nodes && (a == p || IsAncestor(a, p)) && SameName(up, x, a)
      ensures x == a
    {
      StandsFrom(orig, target, changes[..k], nodes, x);
      if x in target {
        assert IsAncestor(a, p) ==> IsDir(target, a);
        assert x in NamesOf(target) && a in NamesOf(target);
      } else if x != a {
        assert Alias(up, x, p);
        DeletedIsChanged(changes, k, x);
      }
    }
  }

  lemma DeletedIsChanged(changes: Changes, k: nat, x: Path)
    requires k <= |changes| && DeletedBefore(changes, k, x)
    ensures Changed(changes[..k], x)
  {
    var i :| 0 <= i < k && changes[i].path == x && changes[i].kind.Delete?;
    assert W.PathsOf(changes[..k])[i] == x;
  }

  /** The writing operations where every name is as it is spelled. */
  function PlainWrite(staged: Nodes, nodes: Nodes, change: W.WorkspaceChange): Nodes
    requires change.path != "" && change.path in staged
  {
    MakeDirs(nodes, Parent(change.path))[change.path := staged[change.path]]
  }

  lemma WriteExact(up: Fold, staged: Nodes, nodes: Nodes, change: W.WorkspaceChange)
    requires OnFileSystem(up, nodes) && !change.kind.Delete? && Canonical(change.path) && change.path != ""
    requires Clear(up, nodes, change.path) && forall a :: IsAncestor(a, change.path) ==> !IsLeaf(nodes, a)
    requires change.path in staged && staged[change.path].Regular?
    requires if change.kind.Modify? then IsLeaf(nodes, change.path) else change.path !in nodes
    ensures Apply(up, staged, nodes, change) == Written(PlainWrite(staged, nodes, change), true)
  {
    hide OnFileSystem, Canonical, Clear, IsAncestor, MakeDirs, Removed, Placed, DirsEnsured, CanMakeDirs;
    var p := change.path;
    var parent := Parent(p);
    CanMakeParent(nodes, p);
    NamedAbove(p);
    ClearOnTheWay(up, nodes, p, parent);
    DirsExact(up, nodes, parent);
    DirsKeepTree(up, nodes, parent);
    var made := MakeDirs(nodes, parent);
    MadeForWrite(nodes, p);
    ClearGrows(up, nodes, made, p);
    var cleared := if change.kind.Modify? then made - {p} else made;
    if change.kind.Modify? {
      RemovedExact(up, made, p);
    }
    ClearGrows(up, nodes, cleared, p);
    PlacedExact(up, cleared, p, staged[p]);
    assert cleared[p := staged[p]] == made[p := staged[p]];
  }

  lemma MadeForWrite(nodes: Nodes, p: Path)
    requires p != "" && forall a :: IsAncestor(a, p) ==> !IsLeaf(nodes, a)
    ensures var made := MakeDirs(nodes, Parent(p));
            && (forall x :: x in made ==> x in nodes || IsAncestor(x, p))
            && WayIsThere(made, p) && WayIsThere(made - {p}, p)
            && (p in made <==> p in nodes) && (p in nodes ==> made[p] == nodes[p])
  {
    hide IsAncestor, MakeDirs;
    var made := MakeDirs(nodes, Parent(p));
    forall x
      ensures x in made ==> x in nodes || IsAncestor(x, p)
      ensures IsAncestor(x, p) ==> IsDir(made, x) && x != p
    {
      MadeDirs(nodes, p, x);
      NotOwnAncestor(p);
    }
    MadeDirs(nodes, p, p);
    NotOwnAncestor(p);
  }

  lemma WriteStep(up: Fold, orig: Nodes, target: Nodes, changes: Changes, k: nat, nodes: Nodes)
    requires ValidPlan(up, orig, target, changes) && k < |changes| && !changes[k].kind.Delete?
    requires Replayed(orig, target, changes[..k], nodes) && OnFileSystem(up, nodes)
    ensures Apply(up, target, nodes, changes[k]).ok
    ensures Replayed(orig, target, changes[..k + 1], Apply(up, target, nodes, changes[k]).nodes)
  {
    hide IsAncestor, Below, OnTheWay, Changed, Ascending, MakeDirs, CanMakeDirs, OnFileSystem, Apply, Clear;
    hide SpellingsFreed, Canonical;
    var p := changes[k].path;
    assert ItemFits(orig, target, changes, changes[k]);
    PlanAvoidsRoot(up, orig, target, changes, k);
    NotYetDone(changes, k);
    NothingBelowYet(up, orig, target, changes, k);
    forall a | IsAncestor(a, p)
      ensures !IsLeaf(nodes, a)
    {
      WayIsClear(up, orig, target, changes, k, nodes, a);
    }
    WriteIsClear(up, orig, target, changes, k, nodes);
    assert W.Get(nodes, p) == NodeAfter(orig, target, changes[..k], p);
    WriteExact(up, target, nodes, changes[k]);
    var after := PlainWrite(target, nodes, changes[k]);
    forall x
      ensures W.Get(after, x) == NodeAfter(orig, target, changes[..k + 1], x)
    {
      MadeDirs(nodes, p, x);
      ChangedSoFar(changes, k, x);
      OnTheWaySoFar(target, changes, k, x);
      assert W.Get(nodes, x) == NodeAfter(orig, target, changes[..k], x);
    }
  }

  lemma PlanAvoidsRoot(up: Fold, orig: Nodes, target: Nodes, changes: Changes, k: nat)
    requires ValidPlan(up, orig, target, changes) && k < |changes|
    ensures changes[k].path != "" && (!changes[k].kind.Delete? ==> Canonical(changes[k].path))
  {
    hide Canonical, SpellingsFreed;
    assert ItemFits(orig, target, changes, changes[k]);
  }

  /** A valid plan never meets a failing operation, and leaves exactly what it should. */
  lemma {:induction false} PlanSucceeds(up: Fold, orig: Nodes, target: Nodes, changes: Changes, k: nat)
    requires ValidPlan(up, orig, target, changes) && k <= |changes|
    ensures ReplayAll(up, target, orig, changes[..k]).ok
    ensures Replayed(orig, target, changes[..k], ReplayAll(up, target, orig, changes[..k]).nodes)
  {
    hide Apply, ValidPlan, OnFileSystem;
    PlanTrees(up, orig, target, changes);
    if k == 0 {
      NothingReplayed(orig, target);
      assert changes[..0] == [];
    } else {
      PlanSucceeds(up, orig, target, changes, k - 1);
      var w := ReplayAll(up, target, orig, changes[..k - 1]);
      ReplayKeepsTree(up, target, orig, changes[..k - 1]);
      assert changes[..k][..k - 1] == changes[..k - 1];
      if changes[k - 1].kind.Delete? {
        DeleteStep(up, orig, target, changes, k - 1, w.nodes);
      } else {
        WriteStep(up, orig, target, changes, k - 1, w.nodes);
      }
    }
  }

  lemma PlanTrees(up: Fold, orig: Nodes, target: Nodes, changes: Changes)
    requires ValidPlan(up, orig, target, changes)
    ensures OnFileSystem(up, orig) && OnFileSystem(up, target)
  {
  }

  lemma NothingReplayed(orig: Nodes, target: Nodes)
    ensures Replayed(orig, target, [], orig)
  {
  }
}
