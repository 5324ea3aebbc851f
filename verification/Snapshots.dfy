/** Taking a snapshot of a workspace within limits, and staging a copy of what a plugin may see. */
module Snapshots {
  import opened Wrappers
  import opened ByteStrings
  import opened Paths
  import opened FileTree
  import W = Workspace

  // ---- Snapshots --------------------------------------------------------------------------

  /** Some digest function with 64 hexadecimal digits; nothing else about it is used. */
  type Hash = Bytes -> string

  ghost predicate IsHash(hash: Hash) {
    forall b :: W.Hex64(hash(b))
  }

  function Content(node: Node): Bytes
    requires !node.Directory?
  {
    if node.Regular? then node.bytes else node.target
  }

  function EntryOf(hash: Hash, node: Node): W.EntryState
    requires !node.Directory?
  {
    W.EntryState(if node.Regular? then W.File else W.Symlink, |Content(node)|, hash(Content(node)),
                 node.executable, node.hardLinks)
  }

  function SnapshotOf(hash: Hash, nodes: Nodes): W.Snapshot {
    W.Snapshot(
      map p | p in nodes && !nodes[p].Directory? :: EntryOf(hash, nodes[p]),
      map p | p in nodes && nodes[p].Directory? :: nodes[p].mode)
  }

  // ---- What equal snapshots mean ----------------------------------------------------------

  /** The digest tells apart what two trees hold at the same path. */
  ghost predicate TellsApart(hash: Hash, a: Nodes, b: Nodes) {
    forall p :: IsLeaf(a, p) && IsLeaf(b, p) && hash(Content(a[p])) == hash(Content(b[p])) ==>
      Content(a[p]) == Content(b[p])
  }

  /** Two files with the same bytes, or two links with the same target, equally executable and linked. */
  predicate SameFile(a: Node, b: Node) {
    match (a, b)
    case (Regular(x, e, n), Regular(y, f, m)) => x == y && e == f && n == m
    case (Link(x, e, n), Link(y, f, m)) => x == y && e == f && n == m
    case _ => false
  }

  /** The trees hold the same at p, apart from directories. */
  predicate SameAt(a: Nodes, b: Nodes, p: Path) {
    (IsLeaf(a, p) <==> IsLeaf(b, p)) && (IsLeaf(a, p) ==> SameFile(a[p], b[p]))
  }

  /** Snapshots have the same entry at a path exactly when the trees hold the same there. */
  lemma SameEntryIff(hash: Hash, a: Nodes, b: Nodes, p: Path)
    requires TellsApart(hash, a, b)
    ensures W.Get(SnapshotOf(hash, a).entries, p) == W.Get(SnapshotOf(hash, b).entries, p) <==> SameAt(a, b, p)
  {
  }

  /** Two snapshots are equal exactly when the trees are, entry by entry and mode by mode. */
  lemma SameSnapshotIff(hash: Hash, a: Nodes, b: Nodes)
    requires TellsApart(hash, a, b)
    ensures SnapshotOf(hash, a) == SnapshotOf(hash, b)
       <==> (forall p :: SameAt(a, b, p) && (IsDir(a, p) <==> IsDir(b, p)) && (IsDir(a, p) ==> a[p] == b[p]))
  {
    hide EntryOf, SameFile;
    var s, t := SnapshotOf(hash, a), SnapshotOf(hash, b);
    forall p
      ensures W.Get(s.entries, p) == W.Get(t.entries, p) <==> SameAt(a, b, p)
    {
      SameEntryIff(hash, a, b, p);
    }
    forall p
      ensures W.Get(s.modes, p) == W.Get(t.modes, p)
         <==> (IsDir(a, p) <==> IsDir(b, p)) && (IsDir(a, p) ==> a[p] == b[p])
    {
    }
    if forall p :: SameAt(a, b, p) && (IsDir(a, p) <==> IsDir(b, p)) && (IsDir(a, p) ==> a[p] == b[p]) {
      SameMap(s.entries, t.entries);
      SameMap(s.modes, t.modes);
    }
  }

  lemma SameMap<V>(a: map<Path, V>, b: map<Path, V>)
    requires forall p :: W.Get(a, p) == W.Get(b, p)
    ensures a == b
  {
    forall p
      ensures p in a <==> p in b
      ensures p in a ==> p in b && a[p] == b[p]
    {
      assert W.Get(a, p) == W.Get(b, p);
    }
    assert a.Keys == b.Keys;
  }

  /** How many entries and bytes the first paths of a walk hold. */
  function EntryCount(nodes: Nodes, walk: seq<Path>): nat {
    if walk == [] then 0
    else EntryCount(nodes, walk[..|walk| - 1]) + if IsLeaf(nodes, walk[|walk| - 1]) then 1 else 0
  }

  function ByteCount(nodes: Nodes, walk: seq<Path>): nat {
    if walk == [] then 0
    else
      var p := walk[|walk| - 1];
      ByteCount(nodes, walk[..|walk| - 1]) + if IsLeaf(nodes, p) then |Content(nodes[p])| else 0
  }

  predicate FitsLimits(nodes: Nodes, limits: W.DiffLimits) {
    var walk := SortedKeys(nodes.Keys);
    && (forall p :: p in nodes && nodes[p].Regular? ==> |nodes[p].bytes| <= limits.maxFileBytes)
    && W.Saturate(ByteCount(nodes, walk)) <= limits.maxWorkspaceBytes
    && EntryCount(nodes, walk) <= limits.maxWorkspaceFiles
  }

  lemma {:induction false} CountsGrow(nodes: Nodes, walk: seq<Path>, k: nat)
    requires k <= |walk|
    ensures ByteCount(nodes, walk[..k]) <= ByteCount(nodes, walk)
    ensures EntryCount(nodes, walk[..k]) <= EntryCount(nodes, walk)
    decreases |walk|
  {
    if k == |walk| {
      assert walk[..k] == walk;
    } else {
      var n := |walk| - 1;
      assert walk[..n][..k] == walk[..k];
      CountsGrow(nodes, walk[..n], k);
    }
  }

  datatype CaptureError = FileTooLarge(path: Path) | TooManyBytes | TooManyEntries

  /** The snapshot restricted to part of a walk: the maps as the loop builds them. */
  ghost predicate CapturedSoFar(
    hash: Hash, nodes: Nodes, walk: seq<Path>,
    entries: map<Path, W.EntryState>, modes: map<Path, bv32>)
  {
    && (forall p :: p in entries <==> p in walk && IsLeaf(nodes, p))
    && (forall p :: p in entries ==> entries[p] == EntryOf(hash, nodes[p]))
    && (forall p :: p in modes <==> p in walk && IsDir(nodes, p))
    && (forall p :: p in modes ==> modes[p] == nodes[p].mode)
  }

  lemma CapturedAll(
    hash: Hash, nodes: Nodes, walk: seq<Path>, entries: map<Path, W.EntryState>, modes: map<Path, bv32>)
    requires CapturedSoFar(hash, nodes, walk, entries, modes)
    requires forall p :: p in walk <==> p in nodes
    ensures W.Snapshot(entries, modes) == SnapshotOf(hash, nodes)
  {
    hide EntryOf;
    var s := SnapshotOf(hash, nodes);
    assert entries == s.entries;
    assert modes == s.modes;
  }

  lemma CapturedDirectory(
    hash: Hash, nodes: Nodes, walk: seq<Path>, entries: map<Path, W.EntryState>, modes: map<Path, bv32>, p: Path)
    requires CapturedSoFar(hash, nodes, walk, entries, modes) && IsDir(nodes, p)
    ensures CapturedSoFar(hash, nodes, walk + [p], entries, modes[p := nodes[p].mode])
  {
    hide EntryOf;
  }

  lemma CapturedLeaf(
    hash: Hash, nodes: Nodes, walk: seq<Path>, entries: map<Path, W.EntryState>, modes: map<Path, bv32>, p: Path)
    requires CapturedSoFar(hash, nodes, walk, entries, modes) && IsLeaf(nodes, p) && p !in walk
    ensures CapturedSoFar(hash, nodes, walk + [p], entries[p := EntryOf(hash, nodes[p])], modes)
    ensures p !in entries
  {
    hide EntryOf;
  }

  lemma CountsStep(nodes: Nodes, walk: seq<Path>, p: Path)
    ensures EntryCount(nodes, walk + [p]) == EntryCount(nodes, walk) + if IsLeaf(nodes, p) then 1 else 0
    ensures IsLeaf(nodes, p) ==> ByteCount(nodes, walk + [p]) == ByteCount(nodes, walk) + |Content(nodes[p])|
    ensures !IsLeaf(nodes, p) ==> ByteCount(nodes, walk + [p]) == ByteCount(nodes, walk)
  {
    assert (walk + [p])[..|walk|] == walk;
  }

  /** The limits, checked over the first paths of a walk. */
  predicate FitsSoFar(nodes: Nodes, walk: seq<Path>, limits: W.DiffLimits)
    requires forall p :: p in walk ==> p in nodes
  {
    && (forall p :: p in walk && nodes[p].Regular? ==> |nodes[p].bytes| <= limits.maxFileBytes)
    && W.Saturate(ByteCount(nodes, walk)) <= limits.maxWorkspaceBytes
    && EntryCount(nodes, walk) <= limits.maxWorkspaceFiles
  }

  lemma FitsMeansAll(nodes: Nodes, walk: seq<Path>, limits: W.DiffLimits)
    requires walk == SortedKeys(nodes.Keys)
    ensures FitsSoFar(nodes, walk, limits) <==> FitsLimits(nodes, limits)
  {
    hide SortedKeys;
    assert forall p :: p in walk <==> p in nodes;
  }

  lemma FitsPrefix(nodes: Nodes, walk: seq<Path>, k: nat, limits: W.DiffLimits)
    requires k <= |walk| && forall p :: p in walk ==> p in nodes
    requires FitsSoFar(nodes, walk, limits)
    ensures FitsSoFar(nodes, walk[..k], limits)
  {
    CountsGrow(nodes, walk, k);
  }

  /** Adding one leaf to what fits: the three checks, in the source's order. */
  method CheckLeaf(nodes: Nodes, walk: seq<Path>, p: Path, entryCount: nat, totalBytes: nat, limits: W.DiffLimits)
    returns (bad: Option<CaptureError>, newTotal: nat)
    requires forall q :: q in walk + [p] ==> q in nodes
    requires IsLeaf(nodes, p) && FitsSoFar(nodes, walk, limits)
    requires entryCount == EntryCount(nodes, walk) && totalBytes == W.Saturate(ByteCount(nodes, walk))
    ensures bad.None? <==> FitsSoFar(nodes, walk + [p], limits)
    ensures bad.None? ==> newTotal == W.Saturate(ByteCount(nodes, walk + [p]))
    ensures bad == Some(FileTooLarge(p)) ==> nodes[p].Regular? && |nodes[p].bytes| > limits.maxFileBytes
  {
    CountsStep(nodes, walk, p);
    newTotal := totalBytes;
    if nodes[p].Regular? && |nodes[p].bytes| > limits.maxFileBytes {
      assert p in walk + [p];
      return Some(FileTooLarge(p)), newTotal;
    }
    newTotal := W.Saturate(totalBytes + |Content(nodes[p])|);
    if newTotal > limits.maxWorkspaceBytes {
      return Some(TooManyBytes), newTotal;
    }
    if entryCount >= limits.maxWorkspaceFiles {
      return Some(TooManyEntries), newTotal;
    }
    bad := None;
  }

  /** Taking a snapshot succeeds exactly within the limits, and then records the whole tree. */
  method Capture(hash: Hash, nodes: Nodes, limits: W.DiffLimits) returns (r: Result<W.Snapshot, CaptureError>)
    ensures r.Ok? <==> FitsLimits(nodes, limits)
    ensures r.Ok? ==> r.value == SnapshotOf(hash, nodes)
  {
    hide SortedKeys, EntryOf, Capturing, FitsLimits, FitsSoFar, SnapshotOf, Ascending;
    var walk := SortedKeys(nodes.Keys);
    var entries: map<Path, W.EntryState> := map[];
    var modes: map<Path, bv32> := map[];
    var totalBytes: nat := 0;
    CapturingStarts(hash, nodes, limits);
    AscendingIsDistinct(walk);
    for k := 0 to |walk|
      invariant Capturing(hash, nodes, walk[..k], limits, entries, modes, totalBytes)
    {
      var p := walk[k];
      assert p in walk;
      assert walk[..k + 1] == walk[..k] + [p];
      if nodes[p].Directory? {
        CapturingDirectory(hash, nodes, walk[..k], limits, entries, modes, totalBytes, p);
        modes := modes[p := nodes[p].mode];
      } else {
        CapturingFits(hash, nodes, walk[..k], limits, entries, modes, totalBytes);
        var bad, newTotal := CheckLeaf(nodes, walk[..k], p, |entries|, totalBytes, limits);
        if bad.Some? {
          PrefixDoesNotFit(nodes, walk, k + 1, limits);
          return Err(bad.value);
        }
        CapturingLeaf(hash, nodes, walk[..k], limits, entries, modes, totalBytes, p);
        totalBytes := newTotal;
        entries := entries[p := EntryOf(hash, nodes[p])];
      }
    }
    assert walk[..|walk|] == walk;
    CapturingEnds(hash, nodes, walk, limits, entries, modes, totalBytes);
    return Ok(W.Snapshot(entries, modes));
  }

  /** Where the loop is after some paths: what it recorded, and that it is within the limits. */
  ghost predicate Capturing(
    hash: Hash, nodes: Nodes, seen: seq<Path>, limits: W.DiffLimits,
    entries: map<Path, W.EntryState>, modes: map<Path, bv32>, totalBytes: nat)
  {
    && (forall p :: p in seen ==> p in nodes)
    && CapturedSoFar(hash, nodes, seen, entries, modes)
    && FitsSoFar(nodes, seen, limits)
    && totalBytes == W.Saturate(ByteCount(nodes, seen))
    && |entries| == EntryCount(nodes, seen)
  }

  lemma CapturingStarts(hash: Hash, nodes: Nodes, limits: W.DiffLimits)
    ensures Capturing(hash, nodes, [], limits, map[], map[], 0)
  {
  }

  lemma CapturingFits(
    hash: Hash, nodes: Nodes, seen: seq<Path>, limits: W.DiffLimits,
    entries: map<Path, W.EntryState>, modes: map<Path, bv32>, totalBytes: nat)
    requires Capturing(hash, nodes, seen, limits, entries, modes, totalBytes)
    ensures forall p :: p in seen ==> p in nodes
    ensures FitsSoFar(nodes, seen, limits)
    ensures totalBytes == W.Saturate(ByteCount(nodes, seen)) && |entries| == EntryCount(nodes, seen)
  {
  }

  lemma CapturingDirectory(
    hash: Hash, nodes: Nodes, seen: seq<Path>, limits: W.DiffLimits,
    entries: map<Path, W.EntryState>, modes: map<Path, bv32>, totalBytes: nat, p: Path)
    requires Capturing(hash, nodes, seen, limits, entries, modes, totalBytes) && IsDir(nodes, p)
    ensures Capturing(hash, nodes, seen + [p], limits, entries, modes[p := nodes[p].mode], totalBytes)
  {
    hide CapturedSoFar, ByteCount, EntryCount, W.Saturate;
    CapturedDirectory(hash, nodes, seen, entries, modes, p);
    CountsStep(nodes, seen, p);
  }

  lemma CapturingLeaf(
    hash: Hash, nodes: Nodes, seen: seq<Path>, limits: W.DiffLimits,
    entries: map<Path, W.EntryState>, modes: map<Path, bv32>, totalBytes: nat, p: Path)
    requires Capturing(hash, nodes, seen, limits, entries, modes, totalBytes)
    requires IsLeaf(nodes, p) && p !in seen && (forall q :: q in seen + [p] ==> q in nodes)
    requires FitsSoFar(nodes, seen + [p], limits)
    ensures Capturing(hash, nodes, seen + [p], limits, entries[p := EntryOf(hash, nodes[p])], modes,
                      W.Saturate(ByteCount(nodes, seen + [p])))
  {
    hide CapturedSoFar, FitsSoFar, ByteCount, EntryCount, W.Saturate, EntryOf;
    CapturedLeaf(hash, nodes, seen, entries, modes, p);
    CountsStep(nodes, seen, p);
  }

  lemma CapturingEnds(
    hash: Hash, nodes: Nodes, walk: seq<Path>, limits: W.DiffLimits,
    entries: map<Path, W.EntryState>, modes: map<Path, bv32>, totalBytes: nat)
    requires walk == SortedKeys(nodes.Keys)
    requires Capturing(hash, nodes, walk, limits, entries, modes, totalBytes)
    ensures FitsLimits(nodes, limits) && W.Snapshot(entries, modes) == SnapshotOf(hash, nodes)
  {
    hide SortedKeys, CapturedSoFar, FitsSoFar, FitsLimits, SnapshotOf;
    FitsMeansAll(nodes, walk, limits);
    CapturedAll(hash, nodes, walk, entries, modes);
  }

  lemma PrefixDoesNotFit(nodes: Nodes, walk: seq<Path>, k: nat, limits: W.DiffLimits)
    requires walk == SortedKeys(nodes.Keys) && k <= |walk| && !FitsSoFar(nodes, walk[..k], limits)
    ensures !FitsLimits(nodes, limits)
  {
    hide SortedKeys, FitsSoFar, FitsLimits;
    FitsMeansAll(nodes, walk, limits);
    if FitsSoFar(nodes, walk, limits) {
      FitsPrefix(nodes, walk, k, limits);
    }
  }

  lemma SnapshotHasDigests(hash: Hash, nodes: Nodes)
    requires IsHash(hash)
    ensures W.HasDigests(SnapshotOf(hash, nodes))
  {
  }

  // ---- Staging ----------------------------------------------------------------------------

  /** The part of a workspace a plugin gets to see: everything outside `.git` directories. */
  function Visible(nodes: Nodes): Nodes {
    map p | p in nodes && !Hidden(p) :: nodes[p]
  }

  lemma VisibleIsTree(up: Fold, nodes: Nodes)
    requires OnFileSystem(up, nodes)
    ensures OnFileSystem(up, Visible(nodes))
  {
    hide IsAncestor, Hidden, SameName;
    assert forall p :: p in NamesOf(Visible(nodes)) ==> p in NamesOf(nodes);
    RootIsVisible();
    forall p, a | p in Visible(nodes) && IsAncestor(a, p)
      ensures IsDir(Visible(nodes), a)
    {
      if Hidden(a) {
        HiddenBelow(a, p);
      }
      assert IsDir(nodes, a);
    }
  }

  lemma RootIsVisible()
    ensures !Hidden("")
  {
  }

  predicate NoVisibleLinks(nodes: Nodes) {
    forall p :: p in nodes && !Hidden(p) ==> !nodes[p].Link?
  }

  /** Staging a plain workspace copies exactly what is visible, or refuses links. */
  method CopyWorkspace(source: Nodes, staged: Tree) returns (ok: bool)
    requires OnFileSystem(staged.up, source) && PlainTree(source)
    requires staged.Valid() && staged.nodes == map["" := Directory(PLAIN_MODE)]
    modifies staged
    ensures staged.Valid()
    ensures ok <==> NoVisibleLinks(source)
    ensures ok ==> staged.nodes == Visible(source)
  {
    hide Hidden, IsAncestor, SortedKeys, Below, Staged, PlainTree, Ascending, Added, Placed, OnFileSystem;
    var walk := SortedKeys(source.Keys);
    NothingStaged(staged.up, source, staged.nodes);
    for k := 0 to |walk|
      invariant staged.Valid()
      invariant Staged(source, walk[..k], staged.nodes)
      invariant forall p :: p in walk[..k] && !Hidden(p) ==> !source[p].Link?
    {
      var p := walk[k];
      assert p in walk;
      assert walk[..k + 1] == walk[..k] + [p];
      if p != "" && !Hidden(p) {
        StagedStep(source, walk[..k], staged.nodes, p);
        StagingMakesProgress(staged.up, source, walk, k, staged.nodes);
        var done;
        if source[p].Directory? {
          done := staged.Make(p, Directory(PLAIN_MODE));
        } else if source[p].Regular? {
          done := staged.Place(p, source[p]);
        } else {
          return false;
        }
      } else {
        StagedSkips(source, walk[..k], staged.nodes, p);
      }
    }
    assert walk[..|walk|] == walk;
    StagedAll(staged.up, source, walk, staged.nodes);
    return true;
  }

  /** The staged tree holds the root and the visible part of what was walked. */
  ghost predicate Staged(source: Nodes, walked: seq<Path>, staged: Nodes) {
    && (forall p :: p in staged <==> p == "" || (p in walked && !Hidden(p)))
    && (forall p :: p in staged ==> p in source && staged[p] == source[p])
  }

  lemma NothingStaged(up: Fold, source: Nodes, staged: Nodes)
    requires OnFileSystem(up, source) && PlainTree(source) && staged == map["" := Directory(PLAIN_MODE)]
    ensures Staged(source, [], staged)
  {
  }

  lemma StagedStep(source: Nodes, walked: seq<Path>, staged: Nodes, p: Path)
    requires Staged(source, walked, staged) && PlainTree(source) && p in source && p != "" && !Hidden(p)
    ensures source[p].Directory? ==> Staged(source, walked + [p], staged[p := Directory(PLAIN_MODE)])
    ensures Staged(source, walked + [p], staged[p := source[p]])
  {
    hide Hidden;
    assert Plain(source[p]);
  }

  lemma StagedSkips(source: Nodes, walked: seq<Path>, staged: Nodes, p: Path)
    requires Staged(source, walked, staged) && (p == "" || Hidden(p))
    ensures Staged(source, walked + [p], staged)
  {
    hide Hidden;
  }

  lemma StagedAll(up: Fold, source: Nodes, walk: seq<Path>, staged: Nodes)
    requires Staged(source, walk, staged) && OnFileSystem(up, source)
    requires forall p :: p in walk <==> p in source
    ensures staged == Visible(source)
  {
    hide Hidden;
    RootIsVisible();
  }

  /** The parents of an entry come first in path order, so its name is free and its directory there. */
  lemma StagingMakesProgress(up: Fold, source: Nodes, walk: seq<Path>, k: nat, staged: Nodes)
    requires OnFileSystem(up, source) && walk == SortedKeys(source.Keys) && k < |walk|
    requires walk[k] != "" && !Hidden(walk[k]) && Staged(source, walk[..k], staged)
    ensures Added(up, staged, walk[k], Directory(PLAIN_MODE)) == Some(staged[walk[k] := Directory(PLAIN_MODE)])
    ensures Placed(up, staged, walk[k], source[walk[k]]) == Some(staged[walk[k] := source[walk[k]]])
  {
    hide Hidden, IsAncestor, SortedKeys, Below, Canonical, Alias;
    var p := walk[k];
    AscendingIsDistinct(walk);
    assert p in walk;
    PresentIsClear(up, source, p);
    NamedOnTheWay(source, p);
    forall a | IsAncestor(a, p)
      ensures IsDir(staged, a)
    {
      EarlierInWalk(source, walk, k, a);
      if Hidden(a) {
        HiddenBelow(a, p);
      }
    }
    AddedExact(up, staged, p, Directory(PLAIN_MODE));
    PlacedExact(up, staged, p, source[p]);
  }

  lemma EarlierInWalk(source: Nodes, walk: seq<Path>, k: nat, a: Path)
    requires walk == SortedKeys(source.Keys) && k < |walk| && IsAncestor(a, walk[k]) && a in source
    ensures a in walk[..k]
  {
    hide IsAncestor, SortedKeys, Below;
    assert a in walk;
    var j :| 0 <= j < |walk| && walk[j] == a;
    AncestorIsBelow(a, walk[k]);
    AscendingIndex(walk, j, k);
    assert walk[..k][j] == a;
  }
}
