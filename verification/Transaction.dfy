/**
 The whole transaction: staging, snapshots, the plugin's result, the replay, and the limits, which the
 real workspace must still meet with its Git metadata once the changes are in.
 */
module Transaction {
  import opened Wrappers
  import opened ByteStrings
  import opened Paths
  import opened Commit
  import opened FileTree
  import opened Replay
  import opened Metadata
  import opened Snapshots
  import W = Workspace

  // ---- Sums over the leaves of a tree -----------------------------------------------------

  ghost function Total(sizes: map<Path, nat>): nat
    decreases |sizes|
  {
    if sizes == map[] then 0
    else
      var p :| p in sizes;
      sizes[p] + Total(sizes - {p})
  }

  lemma {:induction false} TotalRemove(sizes: map<Path, nat>, p: Path)
    requires p in sizes
    ensures Total(sizes) == sizes[p] + Total(sizes - {p})
    decreases |sizes|
  {
    var q :| q in sizes && Total(sizes) == sizes[q] + Total(sizes - {q});
    if p == q {
    } else {
      TotalRemove(sizes - {q}, p);
      TotalRemove(sizes - {p}, q);
      assert sizes - {p} - {q} == sizes - {q} - {p};
    }
  }

  lemma UnionWithout(a: map<Path, nat>, b: map<Path, nat>, p: Path)
    requires a.Keys !! b.Keys && p in a
    ensures p in a + b && (a + b)[p] == a[p] && (a + b) - {p} == (a - {p}) + b
    ensures (a - {p}).Keys < a.Keys && (a - {p}).Keys !! b.Keys
  {
    assert p in a.Keys && p !in (a - {p}).Keys;
  }

  lemma TotalOfNothing()
    ensures Total(map[]) == 0
  {
  }

  lemma {:induction false} TotalUnion(a: map<Path, nat>, b: map<Path, nat>)
    requires a.Keys !! b.Keys
    ensures Total(a + b) == Total(a) + Total(b)
    decreases a.Keys
  {
    hide Total;
    if a == map[] {
      TotalOfNothing();
      assert a + b == b;
    } else {
      var p :| p in a;
      UnionWithout(a, b, p);
      TotalUnion(a - {p}, b);
      TotalRemove(a, p);
      TotalRemove(a + b, p);
    }
  }

  /** What the limits count: one, or the content's length, for every leaf among these paths. */
  function LeafSizes(nodes: Nodes, among: set<Path>, bytes: bool): map<Path, nat> {
    map p | p in among && IsLeaf(nodes, p) :: if bytes then |Content(nodes[p])| else 1
  }

  function Elements(walk: seq<Path>): set<Path> {
    set p | p in walk
  }

  lemma {:induction false} CountsAreTotals(nodes: Nodes, walk: seq<Path>)
    requires forall i, j :: 0 <= i < j < |walk| ==> walk[i] != walk[j]
    ensures EntryCount(nodes, walk) == Total(LeafSizes(nodes, Elements(walk), false))
    ensures ByteCount(nodes, walk) == Total(LeafSizes(nodes, Elements(walk), true))
    decreases |walk|
  {
    if walk == [] {
      assert LeafSizes(nodes, Elements(walk), false) == map[];
      assert LeafSizes(nodes, Elements(walk), true) == map[];
    } else {
      var n := |walk| - 1;
      var p := walk[n];
      CountsAreTotals(nodes, walk[..n]);
      assert walk == walk[..n] + [p];
      OneMoreLeaf(nodes, walk[..n], p, false);
      OneMoreLeaf(nodes, walk[..n], p, true);
    }
  }

  lemma OneMoreLeaf(nodes: Nodes, walk: seq<Path>, p: Path, bytes: bool)
    requires p !in walk
    ensures Total(LeafSizes(nodes, Elements(walk + [p]), bytes))
         == Total(LeafSizes(nodes, Elements(walk), bytes))
            + (if !IsLeaf(nodes, p) then 0 else if bytes then |Content(nodes[p])| else 1)
  {
    var less, more := LeafSizes(nodes, Elements(walk), bytes), LeafSizes(nodes, Elements(walk + [p]), bytes);
    if IsLeaf(nodes, p) {
      assert more - {p} == less;
      TotalRemove(more, p);
    } else {
      assert more == less;
    }
  }

  function Entries(nodes: Nodes): nat {
    EntryCount(nodes, SortedKeys(nodes.Keys))
  }

  function Size(nodes: Nodes): nat {
    ByteCount(nodes, SortedKeys(nodes.Keys))
  }

  lemma LimitsAreTotals(nodes: Nodes)
    ensures Entries(nodes) == Total(LeafSizes(nodes, nodes.Keys, false))
    ensures Size(nodes) == Total(LeafSizes(nodes, nodes.Keys, true))
  {
    hide SortedKeys;
    var walk := SortedKeys(nodes.Keys);
    AscendingIsDistinct(walk);
    CountsAreTotals(nodes, walk);
    assert Elements(walk) == nodes.Keys;
  }

  // ---- The limits after the replay --------------------------------------------------------

  /** The part of a workspace no plugin sees. */
  function Unseen(nodes: Nodes): Nodes {
    map p | p in nodes && Hidden(p) :: nodes[p]
  }

  /** What the plugin left and the metadata it never saw fit the limits together. */
  predicate FitsTogether(orig: Nodes, target: Nodes, limits: W.DiffLimits) {
    && W.Saturate(Size(target) + Size(Unseen(orig))) <= limits.maxWorkspaceBytes
    && Entries(target) + Entries(Unseen(orig)) <= limits.maxWorkspaceFiles
  }

  lemma FinalSizes(hash: Hash, orig: Nodes, target: Nodes, final: Nodes, bytes: bool)
    requires Permitted(hash, orig, target)
    requires !Clashes(orig, PluginChanges(hash, orig, target))
    requires Replayed(orig, target, PluginChanges(hash, orig, target), final)
    ensures LeafSizes(target, target.Keys, bytes).Keys !! LeafSizes(Unseen(orig), Unseen(orig).Keys, bytes).Keys
    ensures LeafSizes(final, final.Keys, bytes)
         == LeafSizes(target, target.Keys, bytes) + LeafSizes(Unseen(orig), Unseen(orig).Keys, bytes)
  {
    hide Permitted, Clashes, Replayed, PluginChanges, Hidden, Content;
    var seen, unseen, all := LeafSizes(target, target.Keys, bytes), LeafSizes(Unseen(orig), Unseen(orig).Keys, bytes),
                             LeafSizes(final, final.Keys, bytes);
    forall p
      ensures p in all <==> p in seen || p in unseen
      ensures !(p in seen && p in unseen)
      ensures p in seen ==> p in all && all[p] == seen[p]
      ensures p in unseen ==> p in all && all[p] == unseen[p]
    {
      FinalSize(hash, orig, target, final, p);
    }
    assert all == seen + unseen;
  }

  lemma FinalSize(hash: Hash, orig: Nodes, target: Nodes, final: Nodes, p: Path)
    requires Permitted(hash, orig, target)
    requires !Clashes(orig, PluginChanges(hash, orig, target))
    requires Replayed(orig, target, PluginChanges(hash, orig, target), final)
    ensures IsLeaf(final, p) <==> IsLeaf(target, p) || (Hidden(p) && IsLeaf(orig, p))
    ensures !(IsLeaf(target, p) && Hidden(p) && IsLeaf(orig, p))
    ensures IsLeaf(target, p) ==> |Content(final[p])| == |Content(target[p])|
    ensures Hidden(p) && IsLeaf(orig, p) ==> final[p] == orig[p]
  {
    hide Permitted, Replayed, PluginChanges, Hidden, SnapshotOf, W.ChangeAt, Visible, IsAncestor;
    var changes := PluginChanges(hash, orig, target);
    FinalLeaf(orig, target, changes, final, p);
    ChangedIff(hash, orig, target, p);
    if Hidden(p) {
      HiddenIsInvisible(orig, p);
      ChangeIs(hash, Visible(orig), target, p);
    } else if !Changed(changes, p) {
      UnchangedEntry(hash, orig, target, p);
    }
    assert Changed(changes, p) && Hidden(p) && p in orig ==> Clash(orig, p);
  }

  /** The final tree is within the limits exactly when the two parts are together. */
  lemma FinalFits(hash: Hash, orig: Nodes, target: Nodes, final: Nodes, limits: W.DiffLimits)
    requires Permitted(hash, orig, target)
    requires !Clashes(orig, PluginChanges(hash, orig, target))
    requires Replayed(orig, target, PluginChanges(hash, orig, target), final)
    requires FitsLimits(orig, limits) && FitsLimits(target, limits)
    ensures FitsLimits(final, limits) <==> FitsTogether(orig, target, limits)
  {
    hide Permitted, Clashes, Replayed, PluginChanges, Unseen, LeafSizes, Total, W.Saturate, FitsLimits, Entries, Size;
    LimitsAre(orig, limits);
    LimitsAre(target, limits);
    LimitsAre(final, limits);
    FinalSizes(hash, orig, target, final, false);
    FinalSizes(hash, orig, target, final, true);
    LimitsAreTotals(final);
    LimitsAreTotals(target);
    LimitsAreTotals(Unseen(orig));
    TotalUnion(LeafSizes(target, target.Keys, false), LeafSizes(Unseen(orig), Unseen(orig).Keys, false));
    TotalUnion(LeafSizes(target, target.Keys, true), LeafSizes(Unseen(orig), Unseen(orig).Keys, true));
    assert FilesFit(final, limits) by {
      FinalFilesFit(hash, orig, target, final, limits);
    }
  }

  predicate FilesFit(nodes: Nodes, limits: W.DiffLimits) {
    forall p :: p in nodes && nodes[p].Regular? ==> |nodes[p].bytes| <= limits.maxFileBytes
  }

  lemma LimitsAre(nodes: Nodes, limits: W.DiffLimits)
    ensures FitsLimits(nodes, limits)
       <==> FilesFit(nodes, limits)
            && W.Saturate(Size(nodes)) <= limits.maxWorkspaceBytes && Entries(nodes) <= limits.maxWorkspaceFiles
  {
    hide SortedKeys, EntryCount, ByteCount;
  }

  lemma FinalFilesFit(hash: Hash, orig: Nodes, target: Nodes, final: Nodes, limits: W.DiffLimits)
    requires Replayed(orig, target, PluginChanges(hash, orig, target), final)
    requires FilesFit(orig, limits) && FilesFit(target, limits)
    ensures FilesFit(final, limits)
  {
    hide PluginChanges, Replayed, Changed;
    forall p | p in final && final[p].Regular?
      ensures (p in orig && final[p] == orig[p]) || (p in target && final[p] == target[p])
    {
      FinalLeaf(orig, target, PluginChanges(hash, orig, target), final, p);
    }
  }

  // ---- The transaction --------------------------------------------------------------------

  /** Everything that is checked before the real workspace is touched. */
  ghost predicate Admitted(
    hash: Hash, orig: Nodes, target: Nodes, declared: seq<W.DeclaredChange>, limits: W.DiffLimits)
  {
    && NoVisibleLinks(orig)
    && FitsLimits(Visible(orig), limits) && FitsLimits(orig, limits) && FitsLimits(target, limits)
    && W.DiffAccepted(StagedBefore(hash, orig), SnapshotOf(hash, target), declared, limits)
  }

  /** What has to hold besides, and can be told before the replay. */
  ghost predicate Committable(hash: Hash, up: Fold, orig: Nodes, target: Nodes, limits: W.DiffLimits) {
    var changes := PluginChanges(hash, orig, target);
    !Clashes(orig, changes) && SpellingsFreed(up, orig, changes) && FitsTogether(orig, target, limits)
  }

  /** What is left once everything was admitted: the replay, the second validation and the limits. */
  lemma TransactionOutcome(
    hash: Hash, up: Fold, orig: Nodes, target: Nodes, declared: seq<W.DeclaredChange>, limits: W.DiffLimits)
    requires OnFileSystem(up, orig) && OnFileSystem(up, target) && Admitted(hash, orig, target, declared, limits)
    ensures var changes := PluginChanges(hash, orig, target);
            var w := ReplayAll(up, target, orig, changes);
            && ((CommitResult(hash, up, orig, target, declared, limits).Some? && FitsLimits(w.nodes, limits))
                <==> Committable(hash, up, orig, target, limits))
            && (Committable(hash, up, orig, target, limits) ==>
                  CommitResult(hash, up, orig, target, declared, limits) == Some(changes)
                  && Replayed(orig, target, changes, w.nodes))
  {
    hide OnFileSystem, Clashes, SpellingsFreed, CommitResult, PluginChanges, Replayed, ReplayAll, Permitted;
    hide FitsLimits, FitsTogether, W.DiffAccepted, NoVisibleLinks;
    var changes := PluginChanges(hash, orig, target);
    assert PluginAccepted(hash, up, orig, target, declared, limits);
    AcceptedIsPermitted(hash, up, orig, target, declared, limits);
    ReplayOutcome(hash, up, orig, target, declared, limits);
    if !Clashes(orig, changes) && SpellingsFreed(up, orig, changes) {
      CommitSucceeds(hash, up, orig, target, declared, limits);
      FinalFits(hash, orig, target, ReplayAll(up, target, orig, changes).nodes, limits);
    }
  }

  /**
   For a workspace without nested repositories, a plugin that keeps the rules, reports exactly what it
   did and respells nothing is always admitted, and then only the joint limits decide.
   */
  lemma HonestPluginCommits(hash: Hash, up: Fold, orig: Nodes, target: Nodes, limits: W.DiffLimits)
    requires OnFileSystem(up, orig) && OnFileSystem(up, target) && NoVisibleLinks(orig) && NoNestedGit(orig)
    requires Permitted(hash, orig, target) && NamesDiffer(up, NamesOf(orig) + NamesOf(target))
    requires W.NewDirectoriesSafe(StagedBefore(hash, orig), SnapshotOf(hash, target))
    requires W.WithinLimits(PluginChanges(hash, orig, target), limits)
    requires FitsLimits(Visible(orig), limits) && FitsLimits(orig, limits) && FitsLimits(target, limits)
    ensures Admitted(hash, orig, target, W.ExactReport(StagedBefore(hash, orig), SnapshotOf(hash, target)), limits)
    ensures Committable(hash, up, orig, target, limits) <==> FitsTogether(orig, target, limits)
  {
    hide Canonical, W.ExactReport, W.DiffAccepted, W.NewDirectoriesSafe, W.WithinLimits, W.Difference;
    hide NoNestedGit, W.ChangesAllowed, W.DirectoriesKept, Clashes, SnapshotOf, EntryOf, FitsLimits, FitsTogether;
    hide SpellingsFreed, SameName, IsAncestor, NoVisibleLinks;
    var before, after := StagedBefore(hash, orig), SnapshotOf(hash, target);
    forall p | p in before.entries || p in after.entries
      ensures Canonical(p)
    {
      SnapshotAt(hash, Visible(orig), p);
      SnapshotAt(hash, target, p);
    }
    W.ExactReportIsAccepted(before, after, limits);
    NoNestedGitNoClash(hash, orig, target);
    NothingRespelled(hash, up, orig, target);
  }

  lemma NothingRespelled(hash: Hash, up: Fold, orig: Nodes, target: Nodes)
    requires OnFileSystem(up, target) && Permitted(hash, orig, target)
    requires NamesDiffer(up, NamesOf(orig) + NamesOf(target))
    ensures SpellingsFreed(up, orig, PluginChanges(hash, orig, target))
  {
    hide PluginChanges, SameName, IsAncestor, Permitted;
    var changes := PluginChanges(hash, orig, target);
    ChangeKinds(hash, orig, target);
    forall k: nat, x | k < |changes| && !changes[k].kind.Delete? && x in orig
      ensures !Alias(up, x, changes[k].path)
    {
      var p := changes[k].path;
      forall a | (a == p || IsAncestor(a, p)) && SameName(up, x, a)
        ensures x == a
      {
        assert IsAncestor(a, p) ==> IsDir(target, a);
        assert x in NamesOf(orig) + NamesOf(target) && a in NamesOf(orig) + NamesOf(target);
      }
    }
  }

  /** The workspace after a run: the replay was started exactly if everything was admitted. */
  ghost function RunLeaves(
    hash: Hash, up: Fold, orig: Nodes, target: Nodes, declared: seq<W.DeclaredChange>, limits: W.DiffLimits)
    : Nodes
  {
    if Admitted(hash, orig, target, declared, limits)
    then ReplayAll(up, target, orig, PluginChanges(hash, orig, target)).nodes else orig
  }

  /**
   One run of a plugin, whose result the staging directory holds at `target`. It is committed exactly
   when everything is admitted and committable; the workspace then holds the plugin's changes and the
   validated list is returned. Otherwise it is as far as the replay got, if one was started.
   */
  method ApplyWindows(
    hash: Hash, workspace: Tree, target: Nodes, declared: seq<W.DeclaredChange>, limits: W.DiffLimits)
    returns (r: Result<Changes, CommitError>)
    requires IsHash(hash) && workspace.Valid() && PlainTree(workspace.nodes)
    requires OnFileSystem(workspace.up, target)
    modifies workspace
    ensures workspace.Valid()
    ensures r.Ok? <==> Admitted(hash, old(workspace.nodes), target, declared, limits)
                       && Committable(hash, workspace.up, old(workspace.nodes), target, limits)
    ensures r.Ok? ==> r.value == PluginChanges(hash, old(workspace.nodes), target)
                      && Replayed(old(workspace.nodes), target, r.value, workspace.nodes)
    ensures r.Ok? && TellsApart(hash, Visible(old(workspace.nodes)), target) ==>
              forall p :: !Hidden(p) ==> SameAt(workspace.nodes, target, p)
    ensures workspace.nodes == RunLeaves(hash, workspace.up, old(workspace.nodes), target, declared, limits)
  {
    hide OnFileSystem, SnapshotOf, FitsLimits, W.DiffAccepted, ReplayAll, Replayed, PlainTree, Committable;
    hide W.HasDigests, NoVisibleLinks, Visible, IsHash, RunLeaves, TellsApart, SameAt, Hidden;
    ghost var orig := workspace.nodes;
    Leaves(hash, workspace.up, orig, target, declared, limits);
    var staging := new Tree.Empty(workspace.up);
    var staged := CopyWorkspace(workspace.nodes, staging);
    if !staged {
      return Err(StagingRefused);
    }
    var stagedBefore := Capture(hash, staging.nodes, limits);
    if stagedBefore.Err? {
      return Err(CaptureFailed(stagedBefore.error));
    }
    SnapshotHasDigests(hash, staging.nodes);
    var originalBefore := Capture(hash, workspace.nodes, limits);
    if originalBefore.Err? {
      return Err(CaptureFailed(originalBefore.error));
    }
    SnapshotHasDigests(hash, workspace.nodes);
    r := CommitWindows(hash, stagedBefore.value, originalBefore.value, target, workspace, declared, limits);
    if Admitted(hash, orig, target, declared, limits) {
      TransactionOutcome(hash, workspace.up, orig, target, declared, limits);
      if r.Ok? {
        CommittedFilesArePlugins(hash, workspace.up, orig, target, declared, limits, workspace.nodes);
      }
    }
  }

  lemma CommittedFilesArePlugins(
    hash: Hash, up: Fold, orig: Nodes, target: Nodes, declared: seq<W.DeclaredChange>, limits: W.DiffLimits,
    final: Nodes)
    requires OnFileSystem(up, orig) && OnFileSystem(up, target) && Admitted(hash, orig, target, declared, limits)
    requires Replayed(orig, target, PluginChanges(hash, orig, target), final)
    ensures TellsApart(hash, Visible(orig), target) ==> forall p :: !Hidden(p) ==> SameAt(final, target, p)
  {
    hide OnFileSystem, TellsApart, Replayed, Permitted, SameAt, Hidden, FitsLimits, W.DiffAccepted, NoVisibleLinks;
    AcceptedIsPermitted(hash, up, orig, target, declared, limits);
    if TellsApart(hash, Visible(orig), target) {
      forall p | !Hidden(p)
        ensures SameAt(final, target, p)
      {
        CommittedIsPlugins(hash, orig, target, final, p);
      }
    }
  }

  lemma Leaves(
    hash: Hash, up: Fold, orig: Nodes, target: Nodes, declared: seq<W.DeclaredChange>, limits: W.DiffLimits)
    ensures Admitted(hash, orig, target, declared, limits) ==>
              RunLeaves(hash, up, orig, target, declared, limits)
              == ReplayAll(up, target, orig, PluginChanges(hash, orig, target)).nodes
    ensures !Admitted(hash, orig, target, declared, limits) ==>
              RunLeaves(hash, up, orig, target, declared, limits) == orig
  {
  }

  /** However a run ends, the root metadata is as it was, as long as no written path respells its name. */
  lemma RunSparesMetadata(
    hash: Hash, up: Fold, orig: Nodes, target: Nodes, declared: seq<W.DeclaredChange>, limits: W.DiffLimits)
    requires IsFold(up) && OnFileSystem(up, orig) && OnFileSystem(up, target) && NoNestedGit(orig)
    requires NoWriteRespells(up, orig, PluginChanges(hash, orig, target))
    ensures SameGit(orig, RunLeaves(hash, up, orig, target, declared, limits))
  {
    hide OnFileSystem, PluginChanges, W.DiffAccepted, NoVisibleLinks, FitsLimits, ReplayAll, SameGit;
    hide NoNestedGit, NoWriteRespells;
    var changes := PluginChanges(hash, orig, target);
    Unchanged(orig);
    if Admitted(hash, orig, target, declared, limits) {
      UnspelledMetadataIsSpared(hash, up, orig, target, declared, limits, |changes|);
      assert changes[..|changes|] == changes;
    }
  }
}
