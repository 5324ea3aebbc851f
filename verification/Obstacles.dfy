/**
 What a replay cannot get rid of. Whatever the changes are and however names are found, directories
 stay, links and untouched files keep their places, and a write that is diverted never gives its file
 the name it was meant to have.
 */
module Obstacles {
  import opened Wrappers
  import opened Paths
  import opened FileTree
  import opened Replay
  import W = Workspace

  predicate SameKind(a: Node, b: Node) {
    (a.Link? <==> b.Link?) && (a.Directory? <==> b.Directory?)
  }

  /** What is still standing of the original tree after some changes, and that no links are new. */
  ghost predicate Standing(orig: Nodes, done: Changes, nodes: Nodes) {
    && (forall x :: IsDir(orig, x) ==> IsDir(nodes, x))
    && (forall x :: IsLeaf(orig, x) && !Changed(done, x) ==> x in nodes && SameKind(orig[x], nodes[x]))
    && (forall x :: x in nodes && nodes[x].Link? ==> x in orig && orig[x].Link?)
  }

  /** Entries stay with their kind, and new ones are files or directories. */
  ghost predicate KeepsEntries(before: Nodes, after: Nodes) {
    && (forall x :: x in before ==> x in after && SameKind(before[x], after[x]))
    && (forall x :: x in after && x !in before ==> !after[x].Link?)
  }

  lemma KeepsTwice(a: Nodes, b: Nodes, c: Nodes)
    requires KeepsEntries(a, b) && KeepsEntries(b, c)
    ensures KeepsEntries(a, c)
  {
  }

  lemma EnsuredKeeps(up: Fold, nodes: Nodes, p: Path)
    ensures DirEnsured(up, nodes, p).Some? ==> KeepsEntries(nodes, DirEnsured(up, nodes, p).value)
  {
    hide Lookup, Destination, LeadsToDir;
  }

  lemma {:induction false} DirsKeep(up: Fold, nodes: Nodes, p: Path)
    ensures DirsEnsured(up, nodes, p).Some? ==> KeepsEntries(nodes, DirsEnsured(up, nodes, p).value)
    decreases |p|
  {
    hide DirEnsured, KeepsEntries, IsAncestor;
    EnsuredKeeps(up, nodes, p);
    if p == "" {
    } else {
      AncestorIsShorter(Parent(p), p);
      DirsKeep(up, nodes, Parent(p));
      var made := DirsEnsured(up, nodes, Parent(p));
      if made.Some? {
        EnsuredKeeps(up, made.value, p);
        if DirEnsured(up, made.value, p).Some? {
          KeepsTwice(nodes, made.value, DirEnsured(up, made.value, p).value);
        }
      }
    }
  }

  lemma PlacedKeeps(up: Fold, nodes: Nodes, p: Path, file: Node)
    requires file.Regular?
    ensures Placed(up, nodes, p, file).Some? ==> KeepsEntries(nodes, Placed(up, nodes, p, file).value)
  {
    hide Destination;
  }

  /** A change removes at most the entry it names. */
  lemma ApplyKeeps(up: Fold, staged: Nodes, nodes: Nodes, change: W.WorkspaceChange)
    requires OnFileSystem(up, nodes) && Apply(up, staged, nodes, change).ok
    requires !change.kind.Create? ==> IsLeaf(nodes, change.path)
    ensures change.kind.Delete? ==> Apply(up, staged, nodes, change).nodes == nodes - {change.path}
    ensures change.kind.Create? ==> KeepsEntries(nodes, Apply(up, staged, nodes, change).nodes)
    ensures change.kind.Modify? ==> KeepsEntries(nodes - {change.path}, Apply(up, staged, nodes, change).nodes)
  {
    hide OnFileSystem, DirsEnsured, Placed, Removed, KeepsEntries, IsAncestor;
    var p := change.path;
    if change.kind.Delete? {
      RemovedExact(up, nodes, p);
    } else {
      var made := DirsEnsured(up, nodes, Parent(p)).value;
      DirsKeep(up, nodes, Parent(p));
      DirsKeepTree(up, nodes, Parent(p));
      if change.kind.Create? {
        PlacedKeeps(up, made, p, staged[p]);
        KeepsTwice(nodes, made, Placed(up, made, p, staged[p]).value);
      } else {
        LeafKept(nodes, made, p);
        RemovedExact(up, made, p);
        PlacedKeeps(up, made - {p}, p, staged[p]);
        KeepsWithout(nodes, made, p);
        KeepsTwice(nodes - {p}, made - {p}, Placed(up, made - {p}, p, staged[p]).value);
      }
    }
  }

  lemma LeafKept(before: Nodes, after: Nodes, p: Path)
    requires KeepsEntries(before, after) && IsLeaf(before, p)
    ensures IsLeaf(after, p)
  {
  }

  lemma KeepsWithout(before: Nodes, after: Nodes, p: Path)
    requires KeepsEntries(before, after) && p in before
    ensures KeepsEntries(before - {p}, after - {p})
  {
  }

  /** Deletions and modifications are of files of the original tree. */
  ghost predicate ChangesFiles(orig: Nodes, changes: Changes) {
    forall i :: 0 <= i < |changes| && !changes[i].kind.Create? ==> IsLeaf(orig, changes[i].path)
  }

  lemma {:induction false} StandingAfter(up: Fold, staged: Nodes, orig: Nodes, changes: Changes, k: nat)
    requires OnFileSystem(up, orig) && Ascending(W.PathsOf(changes)) && ChangesFiles(orig, changes)
    requires k <= |changes| && ReplayAll(up, staged, orig, changes[..k]).ok
    ensures Standing(orig, changes[..k], ReplayAll(up, staged, orig, changes[..k]).nodes)
    decreases k
  {
    hide Apply, OnFileSystem, Ascending, Changed, KeepsEntries, Standing;
    if k == 0 {
      assert changes[..0] == [];
      AllStanding(orig);
    } else {
      assert changes[..k][..k - 1] == changes[..k - 1];
      StandingAfter(up, staged, orig, changes, k - 1);
      var before := ReplayAll(up, staged, orig, changes[..k - 1]).nodes;
      ReplayKeepsTree(up, staged, orig, changes[..k - 1]);
      NotYetDone(changes, k - 1);
      StandingLeaf(orig, changes, k - 1, before);
      ApplyKeeps(up, staged, before, changes[k - 1]);
      StandingStep(orig, changes, k - 1, before, Apply(up, staged, before, changes[k - 1]).nodes);
    }
  }

  lemma AllStanding(orig: Nodes)
    ensures Standing(orig, [], orig)
  {
  }

  lemma StandingLeaf(orig: Nodes, changes: Changes, k: nat, nodes: Nodes)
    requires k < |changes| && Standing(orig, changes[..k], nodes) && !Changed(changes[..k], changes[k].path)
    requires ChangesFiles(orig, changes)
    ensures !changes[k].kind.Create? ==> IsLeaf(nodes, changes[k].path)
  {
  }

  lemma StandingStep(orig: Nodes, changes: Changes, k: nat, before: Nodes, after: Nodes)
    requires k < |changes| && Standing(orig, changes[..k], before) && ChangesFiles(orig, changes)
    requires changes[k].kind.Delete? ==> after == before - {changes[k].path}
    requires changes[k].kind.Create? ==> KeepsEntries(before, after)
    requires changes[k].kind.Modify? ==> KeepsEntries(before - {changes[k].path}, after)
    ensures Standing(orig, changes[..k + 1], after)
  {
    hide Changed;
    var p := changes[k].path;
    forall x
      ensures Changed(changes[..k + 1], x) <==> Changed(changes[..k], x) || x == p
    {
      ChangedSoFar(changes, k, x);
    }
    var kept := if changes[k].kind.Create? then before else before - {p};
    forall x
      ensures IsDir(orig, x) ==> IsDir(after, x)
      ensures IsLeaf(orig, x) && !Changed(changes[..k + 1], x) ==> x in after && SameKind(orig[x], after[x])
      ensures x in after && after[x].Link? ==> x in orig && orig[x].Link?
    {
      assert x in kept <==> x in before && (changes[k].kind.Create? || x != p);
    }
  }

  // ---- Diverted writes --------------------------------------------------------------------

  /** Every new entry is named, up to folding, like p or a directory on the way to it. */
  ghost predicate NewNamesAlong(up: Fold, before: Nodes, after: Nodes, p: Path) {
    forall x :: x in after && x !in before ==> exists a :: (a == p || IsAncestor(a, p)) && SameName(up, x, a)
  }

  lemma NoLinkLater(up: Fold, before: Nodes, after: Nodes, p: Path)
    requires NoLinkAlong(up, before, p) && forall x :: x in after && after[x].Link? ==> x in before && before[x].Link?
    ensures NoLinkAlong(up, after, p)
  {
    hide IsAncestor, SameName;
  }

  lemma NoLinkAbove(up: Fold, nodes: Nodes, p: Path, a: Path)
    requires NoLinkAlong(up, nodes, p) && IsAncestor(a, p)
    ensures NoLinkAlong(up, nodes, a)
  {
    hide IsAncestor, SameName;
    forall b | b == a || IsAncestor(b, a)
      ensures b == p || IsAncestor(b, p)
    {
      if b != a {
        AncestorsNest(b, a, p);
      }
    }
  }

  lemma EnsuredNames(up: Fold, nodes: Nodes, p: Path)
    requires Named(p) && NoLinkAlong(up, nodes, p) && IsDir(nodes, "")
    ensures DirEnsured(up, nodes, p).Some? ==> NewNamesAlong(up, nodes, DirEnsured(up, nodes, p).value, p)
  {
    hide Lookup, Destination, IsAncestor, NoLinkAlong, SameName, Canonical;
    if p == "" {
      RootLeads(up, nodes);
    } else {
      LookupKeepsName(up, nodes, p);
    }
  }

  lemma {:induction false} DirsNames(up: Fold, nodes: Nodes, p: Path)
    requires Named(p) && NoLinkAlong(up, nodes, p) && IsDir(nodes, "")
    ensures DirsEnsured(up, nodes, p).Some? ==> NewNamesAlong(up, nodes, DirsEnsured(up, nodes, p).value, p)
    decreases |p|
  {
    hide DirEnsured, IsAncestor, NoLinkAlong, SameName, Canonical, NewNamesAlong;
    EnsuredNames(up, nodes, p);
    if p == "" {
    } else {
      var parent := Parent(p);
      AncestorIsShorter(parent, p);
      NamedAbove(p);
      NoLinkAbove(up, nodes, p, parent);
      DirsNames(up, nodes, parent);
      var made := DirsEnsured(up, nodes, parent);
      if made.Some? {
        DirsKeep(up, nodes, parent);
        NoLinkLater(up, nodes, made.value, p);
        EnsuredNames(up, made.value, p);
        NamesAbove(up, nodes, made.value, p, parent);
        if DirEnsured(up, made.value, p).Some? {
          NamesTwice(up, nodes, made.value, DirEnsured(up, made.value, p).value, p);
        }
      }
    }
  }

  lemma NamesAbove(up: Fold, before: Nodes, after: Nodes, p: Path, a: Path)
    requires NewNamesAlong(up, before, after, a) && IsAncestor(a, p)
    ensures NewNamesAlong(up, before, after, p)
  {
    hide IsAncestor, SameName;
    forall b | b == a || IsAncestor(b, a)
      ensures IsAncestor(b, p)
    {
      if b != a {
        AncestorsNest(b, a, p);
      }
    }
  }

  lemma NamesTwice(up: Fold, a: Nodes, b: Nodes, c: Nodes, p: Path)
    requires NewNamesAlong(up, a, b, p) && NewNamesAlong(up, b, c, p)
    ensures NewNamesAlong(up, a, c, p)
  {
    hide IsAncestor, SameName;
  }

  lemma PlacedNames(up: Fold, nodes: Nodes, p: Path, file: Node)
    requires Canonical(p) && NoLinkAlong(up, nodes, p)
    ensures Placed(up, nodes, p, file).Some? ==> NewNamesAlong(up, nodes, Placed(up, nodes, p, file).value, p)
  {
    hide Destination, IsAncestor, NoLinkAlong, SameName, Canonical;
    LookupKeepsName(up, nodes, p);
  }

  /** Without links in its way a change gives nothing a name unlike its own. */
  lemma ApplyNames(up: Fold, staged: Nodes, nodes: Nodes, change: W.WorkspaceChange)
    requires OnFileSystem(up, nodes) && Apply(up, staged, nodes, change).ok
    requires !change.kind.Create? ==> IsLeaf(nodes, change.path)
    requires !change.kind.Delete? ==> Canonical(change.path) && NoLinkAlong(up, nodes, change.path)
    ensures NewNamesAlong(up, nodes, Apply(up, staged, nodes, change).nodes, change.path)
  {
    hide OnFileSystem, DirsEnsured, Placed, Removed, IsAncestor, Canonical, NoLinkAlong, SameName, NewNamesAlong;
    var p := change.path;
    if change.kind.Delete? {
      RemovedExact(up, nodes, p);
      NothingNew(up, nodes, nodes - {p}, p);
    } else {
      var parent := Parent(p);
      RootStands(up, nodes);
      var made := DirsEnsured(up, nodes, parent).value;
      NamedAbove(p);
      NoLinkAbove(up, nodes, p, parent);
      DirsNames(up, nodes, parent);
      DirsKeep(up, nodes, parent);
      DirsKeepTree(up, nodes, parent);
      NamesAbove(up, nodes, made, p, parent);
      NoLinkLater(up, nodes, made, p);
      if change.kind.Create? {
        PlacedNames(up, made, p, staged[p]);
        NamesTwice(up, nodes, made, Placed(up, made, p, staged[p]).value, p);
      } else {
        RemovedExact(up, made, p);
        NothingNew(up, made, made - {p}, p);
        NoLinkLater(up, made, made - {p}, p);
        PlacedNames(up, made - {p}, p, staged[p]);
        NamesTwice(up, made, made - {p}, Placed(up, made - {p}, p, staged[p]).value, p);
        NamesTwice(up, nodes, made, Placed(up, made - {p}, p, staged[p]).value, p);
      }
    }
  }

  lemma NothingNew(up: Fold, before: Nodes, after: Nodes, p: Path)
    requires forall x :: x in after ==> x in before
    ensures NewNamesAlong(up, before, after, p)
  {
  }

  lemma RootStands(up: Fold, nodes: Nodes)
    requires OnFileSystem(up, nodes)
    ensures IsDir(nodes, "")
  {
  }

  /** No link of the original tree is in the way of any write, under any spelling. */
  ghost predicate NoLinkInTheWay(up: Fold, orig: Nodes, changes: Changes) {
    forall i :: 0 <= i < |changes| && !changes[i].kind.Delete? ==> NoLinkAlong(up, orig, changes[i].path)
  }

  /** Writes are of files of the staged tree. */
  ghost predicate WritesFiles(target: Nodes, changes: Changes) {
    forall i :: 0 <= i < |changes| && !changes[i].kind.Delete? ==> IsLeaf(target, changes[i].path)
  }

  /**
   A write that came while an entry of another spelling was still there has lost its name for good:
   later changes have other names, and deleting that entry does not bring it back.
   */
  lemma {:induction false} NameIsLost(
    up: Fold, target: Nodes, orig: Nodes, changes: Changes, k: nat, x: Path, n: nat)
    requires OnFileSystem(up, orig) && OnFileSystem(up, target) && Ascending(W.PathsOf(changes))
    requires ChangesFiles(orig, changes) && WritesFiles(target, changes) && NoLinkInTheWay(up, orig, changes)
    requires k < n <= |changes| && !changes[k].kind.Delete?
    requires IsLeaf(orig, x) && Alias(up, x, changes[k].path) && !Changed(changes[..k], x)
    requires ReplayAll(up, target, orig, changes[..n]).ok
    ensures changes[k].path !in ReplayAll(up, target, orig, changes[..n]).nodes
    decreases n
  {
    hide Apply, OnFileSystem, Ascending, Changed, Alias, Standing, NoLinkAlong, Canonical, NewNamesAlong;
    assert changes[..n][..n - 1] == changes[..n - 1];
    var before, after := ReplayAll(up, target, orig, changes[..n - 1]), ReplayAll(up, target, orig, changes[..n]);
    ReplayKeepsTree(up, target, orig, changes[..n - 1]);
    ReplayKeepsTree(up, target, orig, changes[..n]);
    StandingAfter(up, target, orig, changes, n - 1);
    StandingAfter(up, target, orig, changes, n);
    if n == k + 1 {
      AliasIsOther(up, orig, target, changes, k, x);
      ChangedSoFar(changes, k, x);
      StillThere(orig, changes[..n], after.nodes, x);
      AliasExcludes(up, after.nodes, x, changes[k].path);
    } else {
      NameIsLost(up, target, orig, changes, k, x, n - 1);
      NotYetDone(changes, n - 1);
      StandingLeaf(orig, changes, n - 1, before.nodes);
      if !changes[n - 1].kind.Delete? {
        LinksAreOld(orig, changes[..n - 1], before.nodes);
        NoLinkLater(up, orig, before.nodes, changes[n - 1].path);
        TargetIsNamed(up, target, changes[n - 1].path);
      }
      ApplyNames(up, target, before.nodes, changes[n - 1]);
      ApplyKeeps(up, target, before.nodes, changes[n - 1]);
      OtherNames(up, target, changes, k, n - 1, before.nodes, after.nodes);
    }
  }

  lemma StillThere(orig: Nodes, done: Changes, nodes: Nodes, x: Path)
    requires Standing(orig, done, nodes) && IsLeaf(orig, x) && !Changed(done, x)
    ensures x in nodes
  {
  }

  lemma LinksAreOld(orig: Nodes, done: Changes, nodes: Nodes)
    requires Standing(orig, done, nodes)
    ensures forall x :: x in nodes && nodes[x].Link? ==> x in orig && orig[x].Link?
  {
  }

  lemma TargetIsNamed(up: Fold, target: Nodes, p: Path)
    requires OnFileSystem(up, target) && IsLeaf(target, p)
    ensures Canonical(p)
  {
  }

  lemma AliasExcludes(up: Fold, nodes: Nodes, x: Path, p: Path)
    requires OnFileSystem(up, nodes) && x in nodes && Alias(up, x, p)
    ensures p !in nodes
  {
    hide OnFileSystem, Alias;
    if p in nodes {
      PresentIsClear(up, nodes, p);
    }
  }

  lemma AliasIsOther(up: Fold, orig: Nodes, target: Nodes, changes: Changes, k: nat, x: Path)
    requires k < |changes| && Alias(up, x, changes[k].path)
    ensures x != changes[k].path
  {
    var p := changes[k].path;
    var a :| (a == p || IsAncestor(a, p)) && SameName(up, x, a) && x != a;
    SameNameLength(up, x, a);
  }

  lemma OtherNames(up: Fold, target: Nodes, changes: Changes, k: nat, j: nat, before: Nodes, after: Nodes)
    requires OnFileSystem(up, target) && WritesFiles(target, changes) && Ascending(W.PathsOf(changes))
    requires k < j < |changes| && !changes[k].kind.Delete?
    requires changes[k].path !in before && NewNamesAlong(up, before, after, changes[j].path)
    requires changes[j].kind.Delete? ==> after.Keys <= before.Keys
    ensures changes[k].path !in after
  {
    hide IsAncestor, SameName, Below, Ascending;
    var q, r := changes[k].path, changes[j].path;
    if !changes[j].kind.Delete? {
      AscendingIsDistinct(W.PathsOf(changes));
      assert W.PathsOf(changes)[k] != W.PathsOf(changes)[j];
      forall a | a == r || IsAncestor(a, r)
        ensures !SameName(up, q, a)
      {
        assert IsAncestor(a, r) ==> IsDir(target, a);
        assert q in NamesOf(target) && a in NamesOf(target);
      }
    }
  }
}
