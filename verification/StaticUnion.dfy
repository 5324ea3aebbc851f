/**
 When staging several trees yields their disjoint union, and what happens otherwise: a staged link, or
 a name of another spelling, diverts a later tree to where no mapping meant it to go.
 */
module StaticUnion {
  import opened Wrappers
  import opened ByteStrings
  import opened Paths
  import opened FileTree
  import opened StaticTrees
  import opened StaticCopy

  // ---- All mappings -----------------------------------------------------------------------

  /** No path is a file of one mapping and a file or a directory of the other. */
  ghost predicate Disjoint(a: Mapping, b: Mapping) {
    FilesOf(a) !! FilesOf(b) + DirsOf(b) && FilesOf(b) !! DirsOf(a)
  }

  ghost predicate PairwiseDisjoint(ms: seq<Mapping>) {
    forall i, j :: 0 <= i < j < |ms| ==> Disjoint(ms[i], ms[j])
  }

  ghost predicate FileOfSome(ms: seq<Mapping>, x: Path) {
    exists i :: 0 <= i < |ms| && x in FilesOf(ms[i])
  }

  ghost predicate DirOfSome(ms: seq<Mapping>, x: Path) {
    exists i :: 0 <= i < |ms| && x in DirsOf(ms[i])
  }

  /** The staging tree is the union of the mapped trees, every entry copied to its place. */
  ghost predicate IsUnion(ms: seq<Mapping>, nodes: Nodes) {
    && (forall x :: IsLeaf(nodes, x) <==> FileOfSome(ms, x))
    && (forall x :: IsDir(nodes, x) <==> x == "" || DirOfSome(ms, x))
    && forall i :: 0 <= i < |ms| ==> InPlace(ms[i], nodes)
  }

  ghost predicate InPlace(m: Mapping, nodes: Nodes) {
    forall p :: p in m.source ==> Under(m.prefix, p) in nodes && nodes[Under(m.prefix, p)] == CopyOf(m.source[p])
  }

  lemma SomeOfMore(ms: seq<Mapping>, m: Mapping, x: Path)
    ensures FileOfSome(ms + [m], x) <==> FileOfSome(ms, x) || x in FilesOf(m)
    ensures DirOfSome(ms + [m], x) <==> DirOfSome(ms, x) || x in DirsOf(m)
  {
    hide FilesOf, DirsOf;
    var more := ms + [m];
    assert more[|ms|] == m;
    assert forall i :: 0 <= i < |ms| ==> more[i] == ms[i];
  }

  lemma FitsIffDisjoint(ms: seq<Mapping>, m: Mapping, nodes: Nodes)
    requires IsUnion(ms, nodes) && "" !in FilesOf(m)
    ensures Fits(nodes, m) <==> forall i :: 0 <= i < |ms| ==> Disjoint(ms[i], m)
  {
    hide FilesOf, DirsOf;
    if Fits(nodes, m) {
      forall i | 0 <= i < |ms|
        ensures Disjoint(ms[i], m)
      {
        forall x | x in FilesOf(ms[i])
          ensures x !in FilesOf(m) && x !in DirsOf(m)
        {
          assert FileOfSome(ms, x) && IsLeaf(nodes, x);
        }
        forall x | x in FilesOf(m)
          ensures x !in DirsOf(ms[i])
        {
          assert x in DirsOf(ms[i]) ==> DirOfSome(ms, x) && IsDir(nodes, x);
        }
      }
    }
    if forall i :: 0 <= i < |ms| ==> Disjoint(ms[i], m) {
      forall x | x in FilesOf(m)
        ensures x !in nodes
      {
        assert !FileOfSome(ms, x) && !DirOfSome(ms, x);
        assert !IsLeaf(nodes, x) && !IsDir(nodes, x);
      }
      forall x | x in DirsOf(m)
        ensures !IsLeaf(nodes, x)
      {
        assert !FileOfSome(ms, x);
      }
    }
  }

  lemma UnionGrows(ms: seq<Mapping>, m: Mapping, before: Nodes, now: Nodes)
    requires IsUnion(ms, before) && Copied(before, m, now)
    ensures IsUnion(ms + [m], now)
  {
    hide FilesOf, DirsOf, FileOfSome, DirOfSome, CopyOf;
    forall x
      ensures IsLeaf(now, x) <==> FileOfSome(ms + [m], x)
      ensures IsDir(now, x) <==> x == "" || DirOfSome(ms + [m], x)
    {
      SomeOfMore(ms, m, x);
    }
    forall i | 0 <= i <= |ms|
      ensures InPlace((ms + [m])[i], now)
    {
      if i < |ms| {
        assert InPlace(ms[i], before);
      }
    }
  }

  lemma PairwiseGrows(ms: seq<Mapping>, m: Mapping)
    ensures PairwiseDisjoint(ms + [m])
       <==> PairwiseDisjoint(ms) && forall i :: 0 <= i < |ms| ==> Disjoint(ms[i], m)
  {
    hide Disjoint;
    var more := ms + [m];
    assert forall i :: 0 <= i < |ms| ==> more[i] == ms[i];
    if PairwiseDisjoint(more) {
      forall i | 0 <= i < |ms|
        ensures Disjoint(ms[i], m)
      {
        assert Disjoint(more[i], more[|ms|]);
      }
      forall i, j | 0 <= i < j < |ms|
        ensures Disjoint(ms[i], ms[j])
      {
        assert Disjoint(more[i], more[j]);
      }
    }
  }

  // ---- All requests -----------------------------------------------------------------------

  predicate AllResolve(up: Fold, disk: Nodes, paths: seq<StaticPath>) {
    forall i :: 0 <= i < |paths| ==> Resolve(up, disk, paths[i]).Ok?
  }

  function Mappings(up: Fold, disk: Nodes, paths: seq<StaticPath>): (ms: seq<Mapping>)
    requires AllResolve(up, disk, paths)
    ensures |ms| == |paths| && forall i :: 0 <= i < |ms| ==> ms[i] == Resolve(up, disk, paths[i]).value
  {
    seq(|paths|, i requires 0 <= i < |paths| => Resolve(up, disk, paths[i]).value)
  }

  ghost predicate AllLinksStay(up: Fold, disk: Nodes, ms: seq<Mapping>) {
    forall i :: 0 <= i < |ms| ==> LinksStay(up, disk, ms[i])
  }

  /** Every name any of the mappings gives to an entry. */
  ghost function Names(ms: seq<Mapping>): iset<Path> {
    iset x | x == "" || FileOfSome(ms, x) || DirOfSome(ms, x)
  }

  /** A link of an earlier mapping stands where a later one needs a directory. */
  ghost predicate Detour(ms: seq<Mapping>) {
    exists i, j, x :: 0 <= i < j < |ms| && LinkOf(ms[i], x) && x in DirsOf(ms[j])
  }

  ghost predicate LinkOf(m: Mapping, x: Path) {
    exists p :: p in m.source && m.source[p].Link? && x == Under(m.prefix, p)
  }

  /** The union, in which moreover no file belongs to two mappings. */
  ghost predicate IsDisjointUnion(ms: seq<Mapping>, nodes: Nodes) {
    IsUnion(ms, nodes) && forall i, j :: 0 <= i < j < |ms| ==> FilesOf(ms[i]) !! FilesOf(ms[j])
  }

  ghost predicate Stageable(up: Fold, disk: Nodes, paths: seq<StaticPath>) {
    && paths != [] && AllResolve(up, disk, paths)
    && var ms := Mappings(up, disk, paths);
       AllLinksStay(up, disk, ms) && PairwiseDisjoint(ms) && NamesDiffer(up, Names(ms))
  }

  lemma ResolvedIsWellMapped(up: Fold, disk: Nodes, path: StaticPath)
    requires OnFileSystem(up, disk) && Resolve(up, disk, path).Ok?
    ensures WellMapped(up, Resolve(up, disk, path).value)
  {
    hide OnFileSystem, Canonicalize, Subtree, Named;
    var root := Canonicalize(up, disk, Segments(path.source)).value;
    SubtreeIsTree(up, disk, root);
  }

  /** As far as nothing diverts, staging succeeds exactly for disjoint mappings with links that stay. */
  lemma {:induction false} StagingDecides(up: Fold, disk: Nodes, paths: seq<StaticPath>)
    requires OnFileSystem(up, disk) && AllResolve(up, disk, paths)
    requires NamesDiffer(up, Names(Mappings(up, disk, paths))) && !Detour(Mappings(up, disk, paths))
    ensures StageAll(up, disk, paths).Ok?
       <==> PairwiseDisjoint(Mappings(up, disk, paths)) && AllLinksStay(up, disk, Mappings(up, disk, paths))
    ensures var r := StageAll(up, disk, paths);
            r.Ok? ==> IsUnion(Mappings(up, disk, paths), r.value) && OnFileSystem(up, r.value) && PlainDirs(r.value)
    decreases |paths|
  {
    hide OnFileSystem, Resolve, CopyStatic, PairwiseDisjoint, IsUnion, PlainDirs, Detour, Names, NamesDiffer, LinksStay;
    var ms := Mappings(up, disk, paths);
    if paths == [] {
      EmptyStaging(up);
      assert ms == [];
    } else {
      var n := |paths| - 1;
      var earlier, m := Mappings(up, disk, paths[..n]), Resolve(up, disk, paths[n]).value;
      assert ms == earlier + [m];
      FewerNames(up, earlier, m);
      FewerDetours(earlier, m);
      StagingDecides(up, disk, paths[..n]);
      ResolvedIsWellMapped(up, disk, paths[n]);
      PairwiseGrows(earlier, m);
      LinksGrow(up, disk, earlier, m);
      var now := StageAll(up, disk, paths[..n]);
      if now.Ok? {
        StagedIsApart(up, earlier, m, now.value);
        CopyDecides(up, disk, now.value, m);
        RootIsNotAFile(up, m);
        FitsIffDisjoint(earlier, m, now.value);
        var r := CopyStatic(up, disk, m, now.value);
        if r.Ok? {
          UnionGrows(earlier, m, now.value, r.value);
          CopyKeepsTree(up, disk, m, now.value);
          CopiedIsPlain(now.value, m, r.value);
        }
      }
    }
  }

  lemma EmptyStaging(up: Fold)
    ensures OnFileSystem(up, EMPTY) && PlainDirs(EMPTY) && IsUnion([], EMPTY) && PairwiseDisjoint([])
  {
    NoneAbove();
    hide IsAncestor;
  }

  lemma LinksGrow(up: Fold, disk: Nodes, ms: seq<Mapping>, m: Mapping)
    ensures AllLinksStay(up, disk, ms + [m]) <==> AllLinksStay(up, disk, ms) && LinksStay(up, disk, m)
  {
    hide LinksStay;
    assert forall i :: 0 <= i < |ms| ==> (ms + [m])[i] == ms[i];
    assert (ms + [m])[|ms|] == m;
  }

  lemma FewerNames(up: Fold, ms: seq<Mapping>, m: Mapping)
    requires NamesDiffer(up, Names(ms + [m]))
    ensures NamesDiffer(up, Names(ms))
  {
    hide FileOfSome, DirOfSome, SameName;
    forall x | x in Names(ms)
      ensures x in Names(ms + [m])
    {
      SomeOfMore(ms, m, x);
    }
  }

  lemma FewerDetours(ms: seq<Mapping>, m: Mapping)
    requires !Detour(ms + [m])
    ensures !Detour(ms)
  {
    hide LinkOf, DirsOf;
    if Detour(ms) {
      var i, j, x :| 0 <= i < j < |ms| && LinkOf(ms[i], x) && x in DirsOf(ms[j]);
      NotADetour(ms + [m], i, j, x);
    }
  }

  lemma NotADetour(ms: seq<Mapping>, i: nat, j: nat, x: Path)
    requires !Detour(ms) && i < j < |ms| && LinkOf(ms[i], x)
    ensures x !in DirsOf(ms[j])
  {
    hide LinkOf, DirsOf;
  }

  /** What is staged so far has no name and no link in the way of the next mapping. */
  lemma StagedIsApart(up: Fold, ms: seq<Mapping>, m: Mapping, now: Nodes)
    requires IsUnion(ms, now) && NamesDiffer(up, Names(ms + [m])) && !Detour(ms + [m])
    ensures Apart(up, now, m) && NoDetour(now, m)
  {
    hide FileOfSome, DirOfSome, SameName, FilesOf, DirsOf, Detour;
    forall x | x in NamesOf(now) + Footprint(m)
      ensures x in Names(ms + [m])
    {
      SomeOfMore(ms, m, x);
      assert x in now ==> IsLeaf(now, x) || IsDir(now, x);
    }
    forall x | x in DirsOf(m) && x in now
      ensures !now[x].Link?
    {
      if now[x].Link? {
        LinkHasOrigin(ms, m, now, x);
      }
    }
  }

  lemma LinkHasOrigin(ms: seq<Mapping>, m: Mapping, now: Nodes, x: Path)
    requires IsUnion(ms, now) && x in now && now[x].Link?
    requires !Detour(ms + [m])
    ensures x !in DirsOf(m)
  {
    hide DirsOf, Detour;
    assert IsLeaf(now, x);
    var i, p := AnOrigin(ms, now, x);
    CopiesKeepKind(ms[i]);
    assert LinkOf((ms + [m])[i], x);
    NotADetour(ms + [m], i, |ms|, x);
  }

  lemma RootIsNotAFile(up: Fold, m: Mapping)
    requires WellMapped(up, m)
    ensures "" !in FilesOf(m)
  {
    RootInSource(up, m);
  }

  lemma CopiedIsPlain(before: Nodes, m: Mapping, now: Nodes)
    requires Copied(before, m, now)
    ensures PlainDirs(now)
  {
  }

  /** In the union every file has one origin: one mapping, and one entry of its source. */
  lemma EveryFileHasOneOrigin(ms: seq<Mapping>, nodes: Nodes, x: Path)
    requires PairwiseDisjoint(ms) && IsUnion(ms, nodes) && IsLeaf(nodes, x)
    ensures exists i: nat, p :: Origin(ms, x, i, p) && nodes[x] == CopyOf(ms[i].source[p])
    ensures forall i: nat, p, j: nat, q :: Origin(ms, x, i, p) && Origin(ms, x, j, q) ==> i == j && p == q
  {
    hide IsUnion, PairwiseDisjoint, CopyOf, Under, IsTree;
    var k, s := AnOrigin(ms, nodes, x);
    forall i: nat, p, j: nat, q | Origin(ms, x, i, p) && Origin(ms, x, j, q)
      ensures i == j && p == q
    {
      SameMapping(ms, x, i, j);
      UnderIsInjective(ms[i].prefix, p, q);
    }
  }

  lemma AnOrigin(ms: seq<Mapping>, nodes: Nodes, x: Path) returns (i: nat, p: Path)
    requires IsUnion(ms, nodes) && IsLeaf(nodes, x)
    ensures Origin(ms, x, i, p) && nodes[x] == CopyOf(ms[i].source[p])
  {
    hide CopyOf, Under;
    assert FileOfSome(ms, x);
    i :| 0 <= i < |ms| && x in FilesOf(ms[i]);
    p :| p in ms[i].source && IsLeaf(ms[i].source, p) && x == Under(ms[i].prefix, p);
    assert InPlace(ms[i], nodes);
  }

  lemma SameMapping(ms: seq<Mapping>, x: Path, i: nat, j: nat)
    requires PairwiseDisjoint(ms) && i < |ms| && j < |ms| && x in FilesOf(ms[i]) && x in FilesOf(ms[j])
    ensures i == j
  {
    hide FilesOf, Disjoint;
    SharedFileClashes(ms[i], ms[j], x);
    SharedFileClashes(ms[j], ms[i], x);
  }

  lemma SharedFileClashes(a: Mapping, b: Mapping, x: Path)
    requires x in FilesOf(a) && x in FilesOf(b)
    ensures !Disjoint(a, b)
  {
    hide FilesOf, DirsOf;
  }

  /** Entry p of mapping i is a file, and its place is x. */
  ghost predicate Origin(ms: seq<Mapping>, x: Path, i: nat, p: Path) {
    i < |ms| && IsLeaf(ms[i].source, p) && x == Under(ms[i].prefix, p)
  }

  // ---- The main results -------------------------------------------------------------------

  /** Whatever stageable requests name, staging succeeds and yields their disjoint union. */
  lemma StageableIsStaged(up: Fold, disk: Nodes, paths: seq<StaticPath>)
    requires OnFileSystem(up, disk) && Stageable(up, disk, paths)
    ensures var r := Package(up, disk, paths);
            r.Ok? && OnFileSystem(up, r.value) && IsDisjointUnion(Mappings(up, disk, paths), r.value)
  {
    hide OnFileSystem, StageAll, Resolve, IsUnion, NamesDiffer, LinksStay, FilesOf, DirsOf, PlainDirs;
    var ms := Mappings(up, disk, paths);
    DisjointHasNoDetour(ms);
    StagingDecides(up, disk, paths);
    forall i, j | 0 <= i < j < |ms|
      ensures FilesOf(ms[i]) !! FilesOf(ms[j])
    {
      assert Disjoint(ms[i], ms[j]);
    }
  }

  lemma DisjointHasNoDetour(ms: seq<Mapping>)
    requires PairwiseDisjoint(ms)
    ensures !Detour(ms)
  {
    forall i, j, x | 0 <= i < j < |ms| && LinkOf(ms[i], x)
      ensures x !in DirsOf(ms[j])
    {
      assert Disjoint(ms[i], ms[j]);
      assert x in FilesOf(ms[i]);
    }
  }

  lemma {:induction false} StagedResolves(up: Fold, disk: Nodes, paths: seq<StaticPath>)
    requires OnFileSystem(up, disk) && StageAll(up, disk, paths).Ok?
    ensures AllResolve(up, disk, paths) && AllLinksStay(up, disk, Mappings(up, disk, paths))
    ensures OnFileSystem(up, StageAll(up, disk, paths).value)
    decreases |paths|
  {
    hide OnFileSystem, Resolve, CopyStatic, LinksStay;
    if paths == [] {
      EmptyStaging(up);
    } else {
      var n := |paths| - 1;
      StagedResolves(up, disk, paths[..n]);
      assert forall i :: 0 <= i < n ==> paths[..n][i] == paths[i];
      var now, m := StageAll(up, disk, paths[..n]).value, Resolve(up, disk, paths[n]).value;
      ResolvedIsWellMapped(up, disk, paths[n]);
      CopiedLinksStay(up, disk, m, now);
      CopyKeepsTree(up, disk, m, now);
      assert Mappings(up, disk, paths) == Mappings(up, disk, paths[..n]) + [m];
      LinksGrow(up, disk, Mappings(up, disk, paths[..n]), m);
    }
  }

  /** Whatever call succeeds: a staged link was relative and led to something in its source tree. */
  lemma StagedLinksAreRelative(up: Fold, disk: Nodes, paths: seq<StaticPath>, i: nat, p: Path)
    requires OnFileSystem(up, disk) && Package(up, disk, paths).Ok? && i < |paths|
    ensures Resolve(up, disk, paths[i]).Ok?
    ensures var m := Resolve(up, disk, paths[i]).value;
            p in m.source && m.source[p].Link? ==>
              var text := Text(m.source[p].target);
              && !("/" <= text)
              && var y := Canonicalize(up, disk, Segments(Under(m.root, Parent(p))) + Segments(text));
                 y.Some? && (y.value == m.root || IsAncestor(m.root, y.value))
  {
    hide OnFileSystem, StageAll;
    StagedResolves(up, disk, paths);
    var m := Mappings(up, disk, paths)[i];
    assert LinksStay(up, disk, m);
  }

  /** A copy that went through has checked every link. */
  lemma CopiedLinksStay(up: Fold, disk: Nodes, m: Mapping, nodes: Nodes)
    requires WellMapped(up, m) && CopyStatic(up, disk, m, nodes).Ok?
    ensures LinksStay(up, disk, m)
  {
    hide CopyWalk, DirsEnsured, Collides, LinkMayStay, SortedKeys;
    var made, walk := DirsEnsured(up, nodes, m.prefix).value, SortedKeys(m.source.Keys);
    RootInSource(up, m);
    WalkedLinksStay(up, disk, m, made, walk);
  }

  lemma {:induction false} WalkedLinksStay(up: Fold, disk: Nodes, m: Mapping, nodes: Nodes, walk: seq<Path>)
    requires (forall p :: p in walk ==> p in m.source) && CopyWalk(up, disk, m, nodes, walk).Ok?
    requires IsDir(m.source, "")
    ensures forall p :: p in walk ==> LinkMayStay(up, disk, m, p)
  {
    hide LinkStays, DirsEnsured, Added, Placed, Removed, Exists;
    if walk == [] {
    } else {
      var n := |walk| - 1;
      assert walk == walk[..n] + [walk[n]];
      WalkedLinksStay(up, disk, m, nodes, walk[..n]);
    }
  }

  /** The result is the disjoint union of the requested trees exactly for stageable requests. */
  lemma UnionExactlyIfStageable(up: Fold, disk: Nodes, paths: seq<StaticPath>)
    requires OnFileSystem(up, disk)
    ensures (var r := Package(up, disk, paths);
             r.Ok? && AllResolve(up, disk, paths) && IsDisjointUnion(Mappings(up, disk, paths), r.value))
       <==> Stageable(up, disk, paths)
  {
    hide OnFileSystem, StageAll, Resolve, IsUnion, NamesDiffer, LinksStay, PairwiseDisjoint, Names;
    if Stageable(up, disk, paths) {
      StageableIsStaged(up, disk, paths);
    }
    var r := Package(up, disk, paths);
    if r.Ok? && AllResolve(up, disk, paths) && IsDisjointUnion(Mappings(up, disk, paths), r.value) {
      StagedResolves(up, disk, paths);
      UnionIsApart(up, Mappings(up, disk, paths), r.value);
    }
  }

  lemma UnionIsApart(up: Fold, ms: seq<Mapping>, nodes: Nodes)
    requires OnFileSystem(up, nodes) && IsDisjointUnion(ms, nodes)
    ensures PairwiseDisjoint(ms) && NamesDiffer(up, Names(ms))
  {
    hide SameName, IsTree, FilesOf, DirsOf, InPlace;
    forall i, j | 0 <= i < j < |ms|
      ensures Disjoint(ms[i], ms[j])
    {
      forall x
        ensures x in FilesOf(ms[i]) ==> x !in DirsOf(ms[j])
        ensures x in FilesOf(ms[j]) ==> x !in DirsOf(ms[i])
      {
        assert x in FilesOf(ms[i]) ==> FileOfSome(ms, x);
        assert x in FilesOf(ms[j]) ==> FileOfSome(ms, x);
        assert x in DirsOf(ms[i]) ==> DirOfSome(ms, x);
        assert x in DirsOf(ms[j]) ==> DirOfSome(ms, x);
        assert !(IsLeaf(nodes, x) && IsDir(nodes, x));
      }
    }
    forall x | x in Names(ms)
      ensures x in NamesOf(nodes)
    {
      assert IsLeaf(nodes, x) || IsDir(nodes, x);
    }
  }

  /**
   When staging succeeds without yielding the disjoint union, a link of an earlier mapping stood where
   a later one needs a directory, or two names differ only in spelling; nothing else can go unnoticed.
   */
  lemma DivertedOnlyByLinksOrSpelling(up: Fold, disk: Nodes, paths: seq<StaticPath>)
    requires OnFileSystem(up, disk) && Package(up, disk, paths).Ok? && !Stageable(up, disk, paths)
    ensures AllResolve(up, disk, paths)
    ensures Detour(Mappings(up, disk, paths)) || !NamesDiffer(up, Names(Mappings(up, disk, paths)))
  {
    hide OnFileSystem, StageAll, Resolve, IsUnion, NamesDiffer, LinksStay, PairwiseDisjoint, Names, Detour;
    StagedResolves(up, disk, paths);
    if !Detour(Mappings(up, disk, paths)) && NamesDiffer(up, Names(Mappings(up, disk, paths))) {
      StagingDecides(up, disk, paths);
    }
  }
}
