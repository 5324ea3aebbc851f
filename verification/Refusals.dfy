/**
 The transaction is not total. Four plugins that keep every rule and report truthfully pass the first
 validation, and the commit fails all the same, once with the Git metadata already overwritten.
 */
module Refusals {
  import opened Wrappers
  import opened ByteStrings
  import opened Paths
  import opened Commit
  import opened FileTree
  import opened Replay
  import opened Spellings
  import opened Snapshots
  import opened Transaction
  import W = Workspace

  /** A workspace with one file at its root. */
  function OneFile(name: Path, content: Bytes): Nodes
    requires name != ""
  {
    map["" := Directory(PLAIN_MODE), name := Regular(content, false, 1)]
  }

  /** A workspace with one file in a directory. */
  function OneBelow(directory: Path, name: Path, content: Bytes): Nodes
    requires directory != "" && name != "" && directory != name
  {
    map["" := Directory(PLAIN_MODE), directory := Directory(PLAIN_MODE), name := Regular(content, false, 1)]
  }

  lemma ShortName(name: Path)
    requires Normal(name) && '/' !in name
    ensures Canonical(name) && forall a :: IsAncestor(a, name) ==> a == ""
    ensures name != GIT ==> !Hidden(name) && !RootGit(name)
  {
    SegmentsOfJoin([name]);
    assert forall i :: 0 <= i < |name| ==> name[i] in name;
    assert |name| == 4 ==> name[0..4] == name;
    assert |name| >= 5 ==> name[4] != '/';
    assert (GIT + "/")[4] == '/';
    forall i | 0 <= i < |name|
      ensures GitAt(name, i) ==> name == GIT
    {
    }
  }

  lemma OneFileIsTree(up: Fold, name: Path, content: Bytes)
    requires Canonical(name) && name != "" && forall a :: IsAncestor(a, name) ==> a == ""
    ensures OnFileSystem(up, OneFile(name, content))
  {
    hide IsAncestor, Canonical;
    NoneAbove();
    SameNameLength(up, name, name);
    forall x, y | x in OneFile(name, content) && y in OneFile(name, content) && SameName(up, x, y)
      ensures x == y
    {
      SameNameLength(up, x, y);
    }
  }

  /** The entries and bytes of a one-file workspace. */
  lemma OneFileSizes(name: Path, content: Bytes)
    requires name != ""
    ensures Entries(OneFile(name, content)) == 1 && Size(OneFile(name, content)) == |content|
  {
    hide Entries, Size, Total;
    var nodes := OneFile(name, content);
    LimitsAreTotals(nodes);
    assert LeafSizes(nodes, nodes.Keys, false) == map[name := 1];
    assert LeafSizes(nodes, nodes.Keys, true) == map[name := |content|];
    SingleTotal(name, 1);
    SingleTotal(name, |content|);
  }

  lemma SingleTotal(name: Path, n: nat)
    ensures Total(map[name := n]) == n
  {
    hide Total;
    TotalRemove(map[name := n], name);
    assert map[name := n] - {name} == map[];
    TotalOfNothing();
  }

  // ---- A nested repository ----------------------------------------------------------------

  const NESTED: Path := "a/.git"

  lemma NestedNames()
    ensures Hidden(NESTED) && !RootGit(NESTED) && !Hidden("") && !Hidden("a") && Canonical(NESTED) && Canonical("a")
    ensures forall a :: IsAncestor(a, NESTED) <==> a == "" || a == "a"
    ensures forall a :: IsAncestor(a, "a") ==> a == ""
  {
    assert GitAt(NESTED, 2);
    assert NESTED[0] != '.';
    ShortName("a");
    SegmentsOfJoin(["a", GIT]);
    assert JoinSegments(["a", GIT]) == NESTED;
    forall a | IsAncestor(a, NESTED) && a != ""
      ensures a == "a"
    {
      assert NESTED[..1] == "a";
      assert |a| == 1;
    }
    assert NESTED[..1] == "a" && NESTED[1] == '/';
  }

  lemma NestedIsTree(up: Fold, content: Bytes)
    ensures OnFileSystem(up, OneBelow("a", NESTED, content))
    ensures Visible(OneBelow("a", NESTED, content)) == map["" := Directory(PLAIN_MODE), "a" := Directory(PLAIN_MODE)]
  {
    NestedNames();
    NoneAbove();
    hide IsAncestor, Hidden, Canonical;
    var nodes := OneBelow("a", NESTED, content);
    forall x, y | x in nodes && y in nodes && SameName(up, x, y)
      ensures x == y
    {
      SameNameLength(up, x, y);
    }
  }

  lemma NestedChange(hash: Hash, up: Fold, kept: Bytes, made: Bytes)
    ensures W.Difference(StagedBefore(hash, OneBelow("a", NESTED, kept)), SnapshotOf(hash, OneBelow("a", NESTED, made)))
         == [W.WorkspaceChange(NESTED, W.Create, |made|, None,
                               W.DigestText(Some(EntryOf(hash, OneBelow("a", NESTED, made)[NESTED]))))]
  {
    hide SnapshotOf, EntryOf, Visible, Hidden;
    var orig, target := OneBelow("a", NESTED, kept), OneBelow("a", NESTED, made);
    var before, after := StagedBefore(hash, orig), SnapshotOf(hash, target);
    NestedIsTree(up, kept);
    EntrySize(hash, target[NESTED]);
    forall p
      ensures W.ChangeAt(before, after, p).Some? <==> p == NESTED
    {
      SnapshotAt(hash, Visible(orig), p);
      SnapshotAt(hash, target, p);
    }
    SnapshotAt(hash, Visible(orig), NESTED);
    SnapshotAt(hash, target, NESTED);
    assert W.ChangedPaths(before, after) == {NESTED};
    SingleKey(W.ChangedPaths(before, after), NESTED);
    assert W.PathsOf(W.Difference(before, after)) == [NESTED];
  }

  lemma EntrySize(hash: Hash, node: Node)
    requires node.Regular?
    ensures EntryOf(hash, node).size == |node.bytes| && EntryOf(hash, node).kind == W.File
    ensures EntryOf(hash, node).hardLinks == node.hardLinks
  {
  }

  /** What ExactReportIsAccepted needs, for trees of plain files and directories outside `.git`. */
  lemma PlainIsAccepted(hash: Hash, orig: Nodes, target: Nodes, limits: W.DiffLimits)
    requires PlainTree(target) && PlainTree(orig) && (forall p :: p in target ==> !target[p].Link?)
    requires forall p :: IsLeaf(target, p) || IsLeaf(orig, p) ==> Canonical(p)
    requires forall p :: IsDir(orig, p) && !Hidden(p) ==> IsDir(target, p)
    requires forall p :: RootGit(p) ==> !IsLeaf(target, p) && !IsLeaf(Visible(orig), p)
    requires W.WithinLimits(PluginChanges(hash, orig, target), limits)
    ensures W.DiffAccepted(StagedBefore(hash, orig), SnapshotOf(hash, target),
                           W.ExactReport(StagedBefore(hash, orig), SnapshotOf(hash, target)), limits)
  {
    hide Canonical, Hidden, W.Difference, W.DiffAccepted, W.ExactReport, EntryOf, SnapshotOf, W.WithinLimits, RootGit;
    var before, after := StagedBefore(hash, orig), SnapshotOf(hash, target);
    forall p
      ensures p in before.entries || p in after.entries ==> Canonical(p)
      ensures p in before.modes ==> p in after.modes && after.modes[p] == before.modes[p]
      ensures p in after.modes ==> W.SafeMode(after.modes[p])
      ensures p in W.ChangedPaths(before, after) ==> W.ChangeAllowed(after, p)
    {
      SnapshotAt(hash, Visible(orig), p);
      SnapshotAt(hash, target, p);
      assert p in target ==> Plain(target[p]);
      assert p in orig ==> Plain(orig[p]);
      if IsLeaf(target, p) {
        EntrySize(hash, target[p]);
      }
    }
    W.ExactReportIsAccepted(before, after, limits);
  }

  /** Whatever the hidden file and the new one hold, and however truthful the report, the commit fails. */
  lemma NestedGitIsRefused(hash: Hash, up: Fold, kept: Bytes, made: Bytes, limits: W.DiffLimits)
    requires limits.maxChangedFiles >= 1 && |made| <= limits.maxChangedBytes
    ensures var orig, target := OneBelow("a", NESTED, kept), OneBelow("a", NESTED, made);
            var report := W.ExactReport(StagedBefore(hash, orig), SnapshotOf(hash, target));
            && PluginAccepted(hash, up, orig, target, report, limits)
            && CommitResult(hash, up, orig, target, report, limits) == None
  {
    hide SnapshotOf, EntryOf, Visible, Hidden, RootGit, Canonical, IsAncestor, CommitResult, W.ExactReport;
    hide W.DiffAccepted, OnFileSystem, SpellingsFreed, W.Difference;
    var orig, target := OneBelow("a", NESTED, kept), OneBelow("a", NESTED, made);
    var changes := PluginChanges(hash, orig, target);
    NestedNames();
    RootIsNoGit();
    NestedIsTree(up, kept);
    NestedIsTree(up, made);
    NestedChange(hash, up, kept, made);
    assert changes[..0] == [];
    assert W.TotalSize(changes) == |made|;
    PlainIsAccepted(hash, orig, target, limits);
    ChangedAt(changes, 0);
    assert Clash(orig, NESTED);
    ReplayOutcome(hash, up, orig, target, W.ExactReport(StagedBefore(hash, orig), SnapshotOf(hash, target)), limits);
  }

  lemma RootIsNoGit()
    ensures !RootGit("") && !RootGit("a")
  {
  }

  // ---- Metadata that does not fit besides -------------------------------------------------

  lemma FileChange(hash: Hash, name: Path, metadata: Bytes, made: Bytes)
    requires name != "" && name != GIT
    ensures W.Difference(StagedBefore(hash, OneFile(GIT, metadata)), SnapshotOf(hash, OneFile(name, made)))
         == [W.WorkspaceChange(name, W.Create, |made|, None,
                               W.DigestText(Some(EntryOf(hash, OneFile(name, made)[name]))))]
  {
    hide SnapshotOf, EntryOf, Visible;
    var orig, target := OneFile(GIT, metadata), OneFile(name, made);
    var before, after := StagedBefore(hash, orig), SnapshotOf(hash, target);
    OnlyRootIsSeen(metadata);
    EntrySize(hash, target[name]);
    forall p
      ensures W.ChangeAt(before, after, p).Some? <==> p == name
    {
      SnapshotAt(hash, Visible(orig), p);
      SnapshotAt(hash, target, p);
    }
    SnapshotAt(hash, Visible(orig), name);
    SnapshotAt(hash, target, name);
    assert W.ChangedPaths(before, after) == {name};
    SingleKey(W.ChangedPaths(before, after), name);
    assert W.PathsOf(W.Difference(before, after)) == [name];
  }

  lemma OnlyRootIsSeen(metadata: Bytes)
    ensures Visible(OneFile(GIT, metadata)) == map["" := Directory(PLAIN_MODE)]
    ensures Unseen(OneFile(GIT, metadata)) == map[GIT := Regular(metadata, false, 1)]
    ensures Hidden(GIT) && !Hidden("")
  {
    assert GitAt(GIT, 0);
    RootIsVisible();
  }

  lemma MetadataSizes(metadata: Bytes)
    ensures Entries(Unseen(OneFile(GIT, metadata))) == 1
  {
    hide Entries, Size, Total;
    OnlyRootIsSeen(metadata);
    var nodes := Unseen(OneFile(GIT, metadata));
    LimitsAreTotals(nodes);
    assert LeafSizes(nodes, nodes.Keys, false) == map[GIT := 1];
    SingleTotal(GIT, 1);
  }

  lemma RootOnlyFits(limits: W.DiffLimits)
    ensures FitsLimits(map["" := Directory(PLAIN_MODE)], limits)
  {
    hide SortedKeys;
    var nodes: Nodes := map["" := Directory(PLAIN_MODE)];
    LimitsAre(nodes, limits);
    LimitsAreTotals(nodes);
    assert LeafSizes(nodes, nodes.Keys, false) == map[];
    assert LeafSizes(nodes, nodes.Keys, true) == map[];
  }

  /**
   A workspace of one file allowed, the metadata in it and the plugin's file instead: each is within the
   limit, together they are not, and that is noticed only when both are there.
   */
  lemma HiddenMetadataCounts(hash: Hash, up: Fold, metadata: Bytes, made: Bytes, limits: W.DiffLimits)
    requires limits.maxWorkspaceFiles == 1 && limits.maxChangedFiles >= 1 && |made| <= limits.maxChangedBytes
    requires |metadata| <= limits.maxFileBytes && |made| <= limits.maxFileBytes
    requires |metadata| <= limits.maxWorkspaceBytes && |made| <= limits.maxWorkspaceBytes
    ensures var orig, target := OneFile(GIT, metadata), OneFile("f", made);
            var report := W.ExactReport(StagedBefore(hash, orig), SnapshotOf(hash, target));
            && OnFileSystem(up, orig) && OnFileSystem(up, target)
            && Admitted(hash, orig, target, report, limits)
            && CommitResult(hash, up, orig, target, report, limits).Some?
            && !FitsLimits(ReplayAll(up, target, orig, PluginChanges(hash, orig, target)).nodes, limits)
  {
    hide SnapshotOf, EntryOf, Visible, Hidden, RootGit, Canonical, IsAncestor, CommitResult, W.ExactReport;
    hide W.DiffAccepted, OnFileSystem, SpellingsFreed, W.Difference, FitsLimits, Unseen, Entries, Size, ReplayAll;
    var orig, target := OneFile(GIT, metadata), OneFile("f", made);
    var changes := PluginChanges(hash, orig, target);
    ShortName(GIT);
    ShortName("f");
    OneFileIsTree(up, GIT, metadata);
    OneFileIsTree(up, "f", made);
    FileChange(hash, "f", metadata, made);
    OnlyRootIsSeen(metadata);
    RootIsNoGit();
    assert changes[..0] == [];
    assert W.TotalSize(changes) == |made|;
    PlainIsAccepted(hash, orig, target, limits);
    LimitsAre(orig, limits);
    LimitsAre(target, limits);
    OneFileSizes(GIT, metadata);
    OneFileSizes("f", made);
    RootOnlyFits(limits);
    MetadataSizes(metadata);
    var report := W.ExactReport(StagedBefore(hash, orig), SnapshotOf(hash, target));
    NothingInTheWay(hash, up, metadata, made, changes);
    TransactionOutcome(hash, up, orig, target, report, limits);
    ReplayOutcome(hash, up, orig, target, report, limits);
  }

  lemma NothingInTheWay(hash: Hash, up: Fold, metadata: Bytes, made: Bytes, changes: Changes)
    requires |changes| == 1 && changes[0].path == "f"
    ensures !Clashes(OneFile(GIT, metadata), changes) && SpellingsFreed(up, OneFile(GIT, metadata), changes)
  {
    ShortName("f");
    hide Hidden;
    forall x, a | x in OneFile(GIT, metadata) && (a == "f" || a == "") && SameName(up, x, a)
      ensures x == a
    {
      SameNameLength(up, x, a);
    }
  }

  // ---- A new spelling of an old name ------------------------------------------------------

  /** A file is found by every spelling of its name. */
  lemma FindsOtherSpelling(up: Fold, name: Path, other: Path, content: Bytes)
    requires Canonical(name) && name != "" && (forall a :: IsAncestor(a, name) ==> a == "")
    requires Canonical(other) && other != "" && (forall a :: IsAncestor(a, other) ==> a == "")
    requires SameName(up, name, other)
    ensures Lookup(up, OneFile(name, content), other) == Destination(up, OneFile(name, content), other) == Some(name)
  {
    hide IsAncestor, Canonical, SameName, Lookup, Destination, NamedLike;
    var nodes := OneFile(name, content);
    OneFileIsTree(up, name, content);
    LookupFinds(up, nodes, other);
    RootIsNamed(up, nodes);
    SameNameLength(up, name, other);
    forall x | x in nodes && SameName(up, x, other)
      ensures x == name
    {
      SameNameLength(up, x, other);
    }
    assert AnyNamed(up, nodes, other);
  }

  /** Creating it under another spelling overwrites it, and it keeps its name. */
  lemma CreateOverwrites(
    up: Fold, name: Path, other: Path, content: Bytes, made: Bytes, change: W.WorkspaceChange)
    requires Canonical(name) && name != "" && (forall a :: IsAncestor(a, name) ==> a == "")
    requires Canonical(other) && other != "" && (forall a :: IsAncestor(a, other) ==> a == "")
    requires SameName(up, name, other) && change.path == other && change.kind == W.Create
    ensures Apply(up, OneFile(other, made), OneFile(name, content), change) == Written(OneFile(name, made), true)
  {
    hide IsAncestor, Canonical, SameName, Lookup, Destination, OnFileSystem, DirsEnsured;
    var nodes := OneFile(name, content);
    OneFileIsTree(up, name, content);
    FindsOtherSpelling(up, name, other, content);
    DirIsThere(up, nodes, "");
    assert IsAncestor(Parent(name), name) && IsAncestor(Parent(other), other);
    assert nodes[name := Regular(made, false, 1)] == OneFile(name, made);
  }

  const OLD: Path := "readme"
  const NEW: Path := "README"

  function Before(text: Bytes): Nodes {
    OneFile(OLD, text)
  }

  function After(text: Bytes): Nodes {
    OneFile(NEW, text)
  }

  lemma SpellingNames()
    ensures Canonical(OLD) && Canonical(NEW) && !Hidden(OLD) && !Hidden(NEW) && !RootGit(OLD) && !RootGit(NEW)
    ensures forall a :: IsAncestor(a, OLD) || IsAncestor(a, NEW) ==> a == ""
    ensures OLD != "" && NEW != ""
  {
    hide IsAncestor, Hidden, RootGit, Canonical;
    ShortName(OLD);
    ShortName(NEW);
  }

  lemma SpellingsFold()
    ensures IsFold(UpperCase) && SameName(UpperCase, OLD, NEW) && OLD != NEW && Below(NEW, OLD)
  {
    assert OLD[0] == 'r' && NEW[0] == 'R' && |OLD| == 6 && |NEW| == 6;
    assert Folded(UpperCase, OLD) == NEW;
    assert Folded(UpperCase, NEW) == NEW;
  }

  lemma EntriesOf(text: Bytes)
    ensures forall p :: (IsLeaf(Before(text), p) <==> p == OLD) && (IsLeaf(After(text), p) <==> p == NEW)
    ensures forall p :: (IsDir(Before(text), p) <==> p == "") && (IsDir(After(text), p) <==> p == "")
    ensures OLD in Before(text) && NEW in After(text)
    ensures Before(text)[OLD] == After(text)[NEW] == Regular(text, false, 1)
  {
  }

  lemma RespellingAt(hash: Hash, text: Bytes, p: Path)
    ensures var change := W.ChangeAt(StagedBefore(hash, Before(text)), SnapshotOf(hash, After(text)), p);
            && (change.Some? <==> p == NEW || p == OLD)
            && (p == NEW ==> change.value.path == NEW && change.value.kind == W.Create && change.value.size == |text|)
            && (p == OLD ==> change.value.path == OLD && change.value.kind == W.Delete && change.value.size == 0)
  {
    hide SnapshotOf, EntryOf, Visible, Before, After, SameName, Below, OLD, NEW;
    SpellingsFold();
    AllIsSeen(text);
    EntriesOf(text);
    EntrySize(hash, After(text)[NEW]);
    SnapshotAt(hash, Visible(Before(text)), p);
    SnapshotAt(hash, After(text), p);
  }

  lemma RespellingChanges(hash: Hash, text: Bytes)
    ensures var changes := PluginChanges(hash, Before(text), After(text));
            && |changes| == 2
            && changes[0].path == NEW && changes[0].kind == W.Create && changes[0].size == |text|
            && changes[1].path == OLD && changes[1].kind == W.Delete && changes[1].size == 0
  {
    hide SnapshotOf, StagedBefore, Before, After, SameName, OLD, NEW, W.ChangeAt, Below;
    var before, after := StagedBefore(hash, Before(text)), SnapshotOf(hash, After(text));
    SpellingsFold();
    forall p
      ensures W.ChangeAt(before, after, p).Some? <==> p == NEW || p == OLD
    {
      RespellingAt(hash, text, p);
    }
    assert W.ChangedPaths(before, after) == {NEW, OLD};
    TwoKeys(W.ChangedPaths(before, after), NEW, OLD);
    var changes := W.Difference(before, after);
    assert W.PathsOf(changes) == [NEW, OLD];
    assert changes[0].path == NEW && changes[1].path == OLD;
    RespellingAt(hash, text, NEW);
    RespellingAt(hash, text, OLD);
  }

  lemma AllIsSeen(text: Bytes)
    ensures Visible(Before(text)) == Before(text)
  {
    hide Hidden, OLD, NEW;
    SpellingNames();
    RootIsVisible();
    EntriesOf(text);
  }

  lemma RespellingAccepted(hash: Hash, text: Bytes, limits: W.DiffLimits)
    requires limits.maxChangedFiles >= 2 && |text| <= limits.maxChangedBytes
    ensures var report := W.ExactReport(StagedBefore(hash, Before(text)), SnapshotOf(hash, After(text)));
            PluginAccepted(hash, UpperCase, Before(text), After(text), report, limits)
  {
    hide SnapshotOf, StagedBefore, Visible, Hidden, RootGit, Canonical, IsAncestor, W.ExactReport, PluginChanges;
    hide W.DiffAccepted, OnFileSystem, OLD, NEW;
    var changes := PluginChanges(hash, Before(text), After(text));
    SpellingNames();
    RootIsNoGit();
    AllIsSeen(text);
    OneFileIsTree(UpperCase, OLD, text);
    OneFileIsTree(UpperCase, NEW, text);
    RespellingChanges(hash, text);
    TwoSizes(changes);
    PlainIsAccepted(hash, Before(text), After(text), limits);
  }

  lemma TwoSizes(changes: Changes)
    requires |changes| == 2
    ensures W.TotalSize(changes) == changes[0].size + changes[1].size
  {
    assert changes[..1][..0] == [];
    assert W.TotalSize(changes[..1]) == changes[0].size;
  }

  /**
   Where names are found whatever their case, a plugin that only changes the case of a name upwards
   passes the first validation. The copy lands on the old file, the deletion then takes it away, and
   the commit fails with the file gone.
   */
  lemma RespellingLosesFile(hash: Hash, text: Bytes, limits: W.DiffLimits)
    requires limits.maxChangedFiles >= 2 && |text| <= limits.maxChangedBytes
    ensures var report := W.ExactReport(StagedBefore(hash, Before(text)), SnapshotOf(hash, After(text)));
            && IsFold(UpperCase) && PluginAccepted(hash, UpperCase, Before(text), After(text), report, limits)
            && CommitResult(hash, UpperCase, Before(text), After(text), report, limits) == None
            && ReplayAll(UpperCase, After(text), Before(text), PluginChanges(hash, Before(text), After(text)))
               == Written(map["" := Directory(PLAIN_MODE)], true)
  {
    hide SnapshotOf, StagedBefore, PluginAccepted, CommitResult, W.ExactReport, PluginChanges, SameName, Apply;
    hide OLD, NEW, Below, Before, After, IsAncestor, ReplayAll;
    var changes := PluginChanges(hash, Before(text), After(text));
    RespellingAccepted(hash, text, limits);
    RespellingChanges(hash, text);
    SpellingsFold();
    EntriesOf(text);
    assert IsLeaf(Before(text), OLD);
    assert Alias(UpperCase, OLD, changes[0].path);
    assert !DeletedBefore(changes, 0, OLD);
    assert !SpellingsFreed(UpperCase, Before(text), changes);
    var report := W.ExactReport(StagedBefore(hash, Before(text)), SnapshotOf(hash, After(text)));
    ReplayOutcome(hash, UpperCase, Before(text), After(text), report, limits);
    RespellingReplayed(text, changes);
  }

  lemma RespellingReplayed(text: Bytes, changes: Changes)
    requires |changes| == 2
    requires changes[0].path == NEW && changes[0].kind == W.Create
    requires changes[1].path == OLD && changes[1].kind == W.Delete
    ensures ReplayAll(UpperCase, After(text), Before(text), changes) == Written(map["" := Directory(PLAIN_MODE)], true)
  {
    hide Apply, Before, After, OLD, NEW;
    RespellingSteps(text, changes[0], changes[1]);
    assert changes[..1][..0] == [] && changes[..1][0] == changes[0];
    assert ReplayAll(UpperCase, After(text), Before(text), changes[..1][..0]) == Written(Before(text), true);
    assert ReplayAll(UpperCase, After(text), Before(text), changes[..1]) == Written(Before(text), true);
  }

  lemma RespellingSteps(text: Bytes, create: W.WorkspaceChange, delete: W.WorkspaceChange)
    requires create.path == NEW && create.kind == W.Create && delete.path == OLD && delete.kind == W.Delete
    ensures Apply(UpperCase, After(text), Before(text), create) == Written(Before(text), true)
    ensures Apply(UpperCase, After(text), Before(text), delete) == Written(map["" := Directory(PLAIN_MODE)], true)
  {
    hide Lookup, Destination, IsAncestor, Canonical, Hidden, RootGit, SameName, OLD, NEW, OnFileSystem;
    SpellingNames();
    SpellingsFold();
    OneFileIsTree(UpperCase, OLD, text);
    CreateOverwrites(UpperCase, OLD, NEW, text, text, create);
    RemovedExact(UpperCase, Before(text), OLD);
    assert Before(text) - {OLD} == map["" := Directory(PLAIN_MODE)];
  }

  // ---- Metadata under another spelling ----------------------------------------------------

  const UPPER_GIT: Path := ".GIT"

  lemma GitSpellings()
    ensures IsFold(UpperCase) && SameName(UpperCase, GIT, UPPER_GIT) && GIT != UPPER_GIT && UPPER_GIT != ""
    ensures Canonical(GIT) && Canonical(UPPER_GIT) && !Hidden(UPPER_GIT) && !RootGit(UPPER_GIT)
    ensures forall a :: IsAncestor(a, GIT) || IsAncestor(a, UPPER_GIT) ==> a == ""
  {
    hide Hidden, RootGit, Canonical;
    assert GIT[1] == 'g' && UPPER_GIT[1] == 'G';
    ShortName(GIT);
    ShortName(UPPER_GIT);
    assert Folded(UpperCase, GIT) == UPPER_GIT == Folded(UpperCase, UPPER_GIT);
  }

  /**
   Where names are found whatever their case, a plugin that makes a file `.GIT` in a workspace whose
   `.git` is a file passes the first validation. The commit fails, after it has overwritten `.git`.
   */
  lemma MetadataIsOverwritten(hash: Hash, metadata: Bytes, made: Bytes, limits: W.DiffLimits)
    requires limits.maxChangedFiles >= 1 && |made| <= limits.maxChangedBytes
    ensures var orig, target := OneFile(GIT, metadata), OneFile(UPPER_GIT, made);
            var report := W.ExactReport(StagedBefore(hash, orig), SnapshotOf(hash, target));
            && IsFold(UpperCase) && NoNestedGit(orig)
            && PluginAccepted(hash, UpperCase, orig, target, report, limits)
            && CommitResult(hash, UpperCase, orig, target, report, limits) == None
            && ReplayAll(UpperCase, target, orig, PluginChanges(hash, orig, target))
               == Written(OneFile(GIT, made), true)
  {
    hide SnapshotOf, EntryOf, Visible, Hidden, RootGit, Canonical, IsAncestor, CommitResult, W.ExactReport;
    hide W.DiffAccepted, OnFileSystem, W.Difference, SameName, Apply, UPPER_GIT, SpellingsFreed;
    GitSpellings();
    var orig, target := OneFile(GIT, metadata), OneFile(UPPER_GIT, made);
    var changes := PluginChanges(hash, orig, target);
    RootIsNoGit();
    OneFileIsTree(UpperCase, GIT, metadata);
    OneFileIsTree(UpperCase, UPPER_GIT, made);
    FileChange(hash, UPPER_GIT, metadata, made);
    OnlyRootIsSeen(metadata);
    assert RootGit(GIT) by {
      GitIsRoot();
    }
    assert changes[..0] == [];
    assert W.TotalSize(changes) == |made|;
    PlainIsAccepted(hash, orig, target, limits);
    CreateOverwrites(UpperCase, GIT, UPPER_GIT, metadata, made, changes[0]);
    FirstWriteIsNotFreed(UpperCase, orig, changes, GIT);
    ReplayOutcome(
      hash, UpperCase, orig, target, W.ExactReport(StagedBefore(hash, orig), SnapshotOf(hash, target)), limits);
  }

  lemma FirstWriteIsNotFreed(up: Fold, orig: Nodes, changes: Changes, x: Path)
    requires |changes| > 0 && !changes[0].kind.Delete? && x in orig
    requires SameName(up, x, changes[0].path) && x != changes[0].path
    ensures !SpellingsFreed(up, orig, changes)
  {
    hide SameName, IsAncestor;
    assert Alias(up, x, changes[0].path);
    assert !DeletedBefore(changes, 0, x);
  }

  lemma GitIsRoot()
    ensures RootGit(GIT)
  {
  }
}
