/**
 Copying one source tree below its prefix: exactly when it succeeds, and what is then in place, as
 long as no staged link and no other spelling of a name diverts it.
 */
module StaticCopy {
  import opened Wrappers
  import opened ByteStrings
  import opened Paths
  import opened FileTree
  import opened StaticTrees

  // ---- Source trees -----------------------------------------------------------------------

  lemma SubtreeIsTree(up: Fold, disk: Nodes, root: Path)
    requires OnFileSystem(up, disk) && IsDir(disk, root)
    ensures OnFileSystem(up, Subtree(disk, root))
  {
    hide IsAncestor, SameName, Canonical, Subtree, Under;
    var nodes := Subtree(disk, root);
    UnderRoot(root);
    forall q | q in nodes
      ensures Named(q)
      ensures forall a :: IsAncestor(a, q) ==> IsDir(nodes, a)
    {
      NamedBelow(disk, root, q);
      forall a | IsAncestor(a, q)
        ensures IsDir(nodes, a)
      {
        UnderAncestor(root, a, q);
        assert IsDir(disk, Under(root, a));
      }
    }
    forall x, y | x in nodes && y in nodes && SameName(up, x, y)
      ensures x == y
    {
      SameBelow(up, root, x, y);
      assert Under(root, x) in NamesOf(disk) && Under(root, y) in NamesOf(disk);
      UnderIsInjective(root, x, y);
    }
  }

  lemma UnderRoot(root: Path)
    ensures Under(root, "") == root
  {
  }

  lemma NamedBelow(disk: Nodes, root: Path, q: Path)
    requires IsTree(disk) && Under(root, q) in disk
    ensures Named(q)
  {
    hide IsAncestor, Canonical;
    if root != "" && q != "" {
      assert Named(Under(root, q));
      CanonicalSuffix(root, q);
    }
  }

  /** Below a directory, what is left of a canonical path is canonical. */
  lemma CanonicalSuffix(root: Path, q: Path)
    requires root != "" && q != "" && Canonical(root + "/" + q)
    ensures Canonical(q)
    decreases |root|
  {
    var s := root + "/" + q;
    match IndexOfSlash(root) {
      case None =>
        SlashAt(s, |root|);
        assert s[|root| + 1..] == q;
        TailIsCanonical(s, |root|);
      case Some(i) =>
        assert s[..i] == root[..i] && s[i] == '/';
        SlashAt(s, i);
        var rest := root[i + 1..];
        assert s[i + 1..] == rest + "/" + q;
        TailIsCanonical(s, i);
        if rest == "" {
          EmptyHead(q);
        } else {
          CanonicalSuffix(rest, q);
        }
    }
  }

  lemma TailIsCanonical(s: Path, i: nat)
    requires Canonical(s) && IndexOfSlash(s) == Some(i)
    ensures Canonical(s[i + 1..])
  {
    var tail := Segments(s[i + 1..]);
    assert Segments(s) == [s[..i]] + tail;
    forall k | 0 <= k < |tail|
      ensures Normal(tail[k])
    {
      assert Segments(s)[k + 1] == tail[k];
    }
  }

  /** A path that begins with a slash is not canonical. */
  lemma EmptyHead(q: Path)
    ensures !Canonical("" + "/" + q)
  {
    var s := "" + "/" + q;
    SlashAt(s, 0);
    assert Segments(s)[0] == "";
  }

  lemma SameBelow(up: Fold, root: Path, x: Path, y: Path)
    requires SameName(up, x, y)
    ensures SameName(up, Under(root, x), Under(root, y))
  {
    SameNameLength(up, x, y);
    var s, t := Under(root, x), Under(root, y);
    forall i | 0 <= i < |x|
      ensures up(x[i]) == up(y[i])
    {
      assert Folded(up, x)[i] == Folded(up, y)[i];
    }
    assert |s| == |t|;
    assert forall i :: 0 <= i < |s| ==> up(s[i]) == up(t[i]);
    assert Folded(up, s) == Folded(up, t);
  }

  lemma CopiesKeepKind(m: Mapping)
    ensures forall p :: p in m.source ==> (CopyOf(m.source[p]).Directory? <==> m.source[p].Directory?)
    ensures forall p :: p in m.source ==> (CopyOf(m.source[p]).Link? <==> m.source[p].Link?)
    ensures forall p :: p in m.source && m.source[p].Directory? ==> CopyOf(m.source[p]) == Directory(PLAIN_MODE)
  {
  }

  // ---- Where entries belong ---------------------------------------------------------------

  function FilesOf(m: Mapping): set<Path> {
    set p | p in m.source && IsLeaf(m.source, p) :: Under(m.prefix, p)
  }

  /** Every directory a mapping needs: the way to its prefix, and its own. */
  function DirsOf(m: Mapping): set<Path> {
    Ancestors(m.prefix) + set p | p in m.source && IsDir(m.source, p) :: Under(m.prefix, p)
  }

  ghost function Footprint(m: Mapping): iset<Path> {
    iset x | x in FilesOf(m) || x in DirsOf(m)
  }

  // ---- One mapping ------------------------------------------------------------------------

  ghost predicate PlainDirs(nodes: Nodes) {
    forall p :: p in nodes && nodes[p].Directory? ==> nodes[p] == Directory(PLAIN_MODE)
  }

  /** No file of the mapping is there already, and no directory it needs is a file. */
  ghost predicate Fits(nodes: Nodes, m: Mapping) {
    && (forall p :: p in FilesOf(m) ==> p !in nodes)
    && (forall p :: p in DirsOf(m) ==> !IsLeaf(nodes, p))
  }

  /** The mapping's names and those already there do not differ in spelling only. */
  ghost predicate Apart(up: Fold, nodes: Nodes, m: Mapping) {
    NamesDiffer(up, NamesOf(nodes) + Footprint(m))
  }

  /** No link stands where the mapping needs a directory. */
  ghost predicate NoDetour(nodes: Nodes, m: Mapping) {
    forall x :: x in DirsOf(m) && x in nodes ==> !nodes[x].Link?
  }

  ghost predicate WellMapped(up: Fold, m: Mapping) {
    OnFileSystem(up, m.source) && Named(m.prefix)
  }

  /** Where some of the walked entries went. */
  function Targets(m: Mapping, walked: seq<Path>): set<Path> {
    set p | p in walked :: Under(m.prefix, p)
  }

  function Frame(m: Mapping): set<Path> {
    Ancestors(m.prefix) + {m.prefix}
  }

  /** The walked entries of the mapping are in place, over what was there before. */
  ghost predicate Overlaid(before: Nodes, m: Mapping, walked: seq<Path>, now: Nodes)
    requires forall p :: p in walked ==> p in m.source
  {
    && now.Keys == before.Keys + Frame(m) + Targets(m, walked)
    && (forall x :: x in before ==> now[x] == before[x])
    && (forall a :: a in Frame(m) ==> now[a] == Directory(PLAIN_MODE))
    && (forall p :: p in walked ==> now[Under(m.prefix, p)] == CopyOf(m.source[p]))
  }

  /** Everything on the way to an entry's place belongs to the mapping. */
  lemma PlacesBelong(up: Fold, m: Mapping, p: Path, a: Path)
    requires WellMapped(up, m) && p in m.source
    requires a == Under(m.prefix, p) || IsAncestor(a, Under(m.prefix, p))
    ensures a in Footprint(m)
    ensures a != Under(m.prefix, p) ==> a in DirsOf(m)
  {
    hide IsAncestor, Canonical;
    if a == Under(m.prefix, p) {
      assert IsLeaf(m.source, p) || IsDir(m.source, p);
    } else if p == "" {
      assert a in Ancestors(m.prefix);
    } else {
      NotSlashed(up, m, p);
      AncestorsUnder(m.prefix, p, a);
      if !IsAncestor(a, m.prefix) {
        var b :| IsAncestor(b, p) && a == Under(m.prefix, b);
        assert IsDir(m.source, b);
      }
    }
  }

  lemma NotSlashed(up: Fold, m: Mapping, p: Path)
    requires WellMapped(up, m) && p in m.source && p != ""
    ensures p[0] != '/' && Canonical(p) && Canonical(Under(m.prefix, p)) && Under(m.prefix, p) != ""
  {
    assert Segments(p)[0] != "";
    assert Normal(Segments(p)[0]);
    FirstSegment(p);
    if m.prefix != "" {
      JoinIsCanonical(m.prefix, p);
    }
  }

  lemma JoinIsCanonical(a: Path, b: Path)
    requires Canonical(a) && Canonical(b)
    ensures Canonical(a + "/" + b)
    decreases |a|
  {
    var s := a + "/" + b;
    match IndexOfSlash(a) {
      case None =>
        SlashAt(s, |a|);
        assert s[..|a|] == a && s[|a| + 1..] == b;
        assert Segments(a)[0] == a;
        HeadIsNormal(s, |a|, a);
      case Some(i) =>
        assert s[..i] == a[..i] && s[i] == '/';
        SlashAt(s, i);
        assert s[i + 1..] == a[i + 1..] + "/" + b;
        TailIsCanonical(a, i);
        JoinIsCanonical(a[i + 1..], b);
        assert Segments(a)[0] == a[..i];
        HeadIsNormal(s, i, a[..i]);
    }
  }

  lemma HeadIsNormal(s: Path, i: nat, head: string)
    requires IndexOfSlash(s) == Some(i) && s[..i] == head && Normal(head) && Canonical(s[i + 1..])
    ensures Canonical(s)
  {
    assert Segments(s) == [head] + Segments(s[i + 1..]);
  }

  lemma PlaceIsClear(up: Fold, before: Nodes, m: Mapping, now: Nodes, p: Path)
    requires WellMapped(up, m) && Apart(up, before, m) && p in m.source
    requires forall x :: x in now ==> x in before || x in Footprint(m)
    ensures Clear(up, now, Under(m.prefix, p))
  {
    hide IsAncestor, SameName, WellMapped, Footprint;
    var target := Under(m.prefix, p);
    forall x, a | x in now && (a == target || IsAncestor(a, target)) && SameName(up, x, a)
      ensures x == a
    {
      PlacesBelong(up, m, p, a);
      assert x in NamesOf(before) + Footprint(m) && a in NamesOf(before) + Footprint(m);
    }
  }

  /** Where no link is on the way, directories are made exactly when no file is. */
  lemma DirsDecide(up: Fold, nodes: Nodes, p: Path)
    requires OnFileSystem(up, nodes) && Named(p) && Clear(up, nodes, p)
    requires forall a :: (a == p || IsAncestor(a, p)) && a in nodes ==> !nodes[a].Link?
    ensures DirsEnsured(up, nodes, p) == if CanMakeDirs(nodes, p) then Some(MakeDirs(nodes, p)) else None
  {
    hide IsAncestor, Canonical, Clear, OnFileSystem, DirsEnsured, MakeDirs;
    if CanMakeDirs(nodes, p) {
      DirsExact(up, nodes, p);
    } else {
      var file :| (file == p || file in Ancestors(p)) && IsLeaf(nodes, file);
      assert file in Ancestors(p) ==> IsAncestor(file, p);
      RootIsNoFile(up, nodes, file, p);
      DirsBlocked(up, nodes, p, file);
    }
  }

  lemma RootIsNoFile(up: Fold, nodes: Nodes, file: Path, p: Path)
    requires OnFileSystem(up, nodes) && IsLeaf(nodes, file) && Named(p) && (file == p || IsAncestor(file, p))
    ensures p != "" && Canonical(p)
  {
  }

  lemma {:induction false} FirstStop(up: Fold, nodes: Nodes, p: Path) returns (stop: Path)
    requires OnFileSystem(up, nodes) && p != "" && !WayIsThere(nodes, p)
    ensures IsAncestor(stop, p) && stop != "" && WayIsThere(nodes, stop) && !IsDir(nodes, stop)
    decreases |p|
  {
    hide IsAncestor;
    var parent := Parent(p);
    assert !IsDir(nodes, parent) by {
      DirectoryHasWay(up, nodes, p);
    }
    if WayIsThere(nodes, parent) {
      stop := parent;
    } else {
      AncestorIsShorter(parent, p);
      NoneAbove();
      stop := FirstStop(up, nodes, parent);
      AncestorsNest(stop, parent, p);
    }
  }

  lemma DirectoryHasWay(up: Fold, nodes: Nodes, p: Path)
    requires OnFileSystem(up, nodes) && p != ""
    ensures IsDir(nodes, Parent(p)) ==> WayIsThere(nodes, p)
  {
    hide IsAncestor;
    forall a | IsAncestor(a, p)
      ensures IsDir(nodes, Parent(p)) ==> IsDir(nodes, a)
    {
      ParentIsNearest(a, p);
    }
  }

  /** Where no link is on the way, what exists is what is there. */
  lemma ExistsDecides(up: Fold, nodes: Nodes, p: Path)
    requires OnFileSystem(up, nodes) && Canonical(p) && p != "" && Clear(up, nodes, p)
    requires forall a :: IsAncestor(a, p) && a in nodes ==> !nodes[a].Link?
    ensures Exists(up, nodes, p) <==> p in nodes
  {
    hide IsAncestor, Canonical, Clear, Lookup, Destination;
    if WayIsThere(nodes, p) {
      LookupExact(up, nodes, p);
    } else {
      var stop := FirstStop(up, nodes, p);
      assert stop in nodes ==> nodes[stop].Regular?;
      LookupStops(up, nodes, p, stop);
      assert p in nodes ==> IsDir(nodes, stop);
    }
  }

  // ---- Copying where nothing diverts ------------------------------------------------------

  /** Nothing is in an entry's way: no file where a directory goes, and a link may stay. */
  predicate EntryFits(up: Fold, disk: Nodes, before: Nodes, m: Mapping, p: Path)
    requires p in m.source
  {
    && (IsDir(m.source, p) ==> !IsLeaf(before, Under(m.prefix, p)))
    && LinkMayStay(up, disk, m, p)
  }

  /** The state of a copy whose files are all new and whose way nothing diverts. */
  ghost predicate Straight(up: Fold, before: Nodes, m: Mapping) {
    && OnFileSystem(up, before) && WellMapped(up, m)
    && PlainDirs(before) && Apart(up, before, m) && NoDetour(before, m)
    && forall p :: IsLeaf(m.source, p) ==> Under(m.prefix, p) !in before
  }

  lemma OverlaidIsWithin(up: Fold, before: Nodes, m: Mapping, walked: seq<Path>, now: Nodes)
    requires Straight(up, before, m)
    requires (forall q :: q in walked ==> q in m.source) && Overlaid(before, m, walked, now)
    ensures forall x :: x in now ==> x in before || x in Footprint(m)
  {
    hide IsAncestor, WellMapped, Footprint, Apart, NoDetour, OnFileSystem;
    forall x | x in now && x !in before
      ensures x in Footprint(m)
    {
      if x in Targets(m, walked) {
        var q :| q in walked && x == Under(m.prefix, q);
        PlacesBelong(up, m, q, x);
      } else {
        RootBelongs(up, m, x);
      }
    }
  }

  lemma RootBelongs(up: Fold, m: Mapping, x: Path)
    requires WellMapped(up, m) && x in Frame(m)
    ensures x in Footprint(m) && x in DirsOf(m)
  {
    UnderRoot(m.prefix);
    assert IsDir(m.source, "");
  }

  lemma WayToPlace(up: Fold, before: Nodes, m: Mapping, walked: seq<Path>, now: Nodes, p: Path)
    requires Straight(up, before, m) && p in m.source && p != ""
    requires (forall q :: q in walked ==> q in m.source) && Overlaid(before, m, walked, now)
    requires forall a :: IsAncestor(a, p) ==> a in walked
    ensures WayIsThere(now, Under(m.prefix, p))
  {
    hide IsAncestor, Canonical, Apart, NoDetour, PlainDirs, Footprint;
    NotSlashed(up, m, p);
    forall a | IsAncestor(a, Under(m.prefix, p))
      ensures IsDir(now, a)
    {
      AncestorsUnder(m.prefix, p, a);
      if IsAncestor(a, m.prefix) {
        assert a in Frame(m);
      } else {
        var b :| IsAncestor(b, p) && a == Under(m.prefix, b);
        assert IsDir(m.source, b) && b in walked;
        CopiesKeepKind(m);
      }
    }
  }

  lemma PlaceIsFree(before: Nodes, m: Mapping, walked: seq<Path>, now: Nodes, p: Path)
    requires forall q :: q in walked ==> q in m.source
    requires Overlaid(before, m, walked, now) && p != "" && p !in walked
    ensures var q := Under(m.prefix, p);
            q in now ==> q in before && now[q] == before[q]
  {
    var target := Under(m.prefix, p);
    forall q | q in walked
      ensures Under(m.prefix, q) != target
    {
      if Under(m.prefix, q) == target {
        UnderIsInjective(m.prefix, p, q);
      }
    }
  }

  lemma OverlaidGrows(before: Nodes, m: Mapping, walked: seq<Path>, now: Nodes, p: Path)
    requires forall q :: q in walked ==> q in m.source
    requires Overlaid(before, m, walked, now) && p in m.source && Under(m.prefix, p) !in now
    ensures Overlaid(before, m, walked + [p], now[Under(m.prefix, p) := CopyOf(m.source[p])])
  {
    hide IsAncestor, Under, CopyOf, Ancestors;
    assert Targets(m, walked + [p]) == Targets(m, walked) + {Under(m.prefix, p)};
  }

  lemma OverlaidStays(before: Nodes, m: Mapping, walked: seq<Path>, now: Nodes, p: Path)
    requires forall q :: q in walked ==> q in m.source
    requires PlainDirs(before) && Overlaid(before, m, walked, now) && IsDir(m.source, p)
    requires IsDir(now, Under(m.prefix, p))
    ensures Overlaid(before, m, walked + [p], now)
  {
    hide IsAncestor, Under, Ancestors;
    var target := Under(m.prefix, p);
    assert Targets(m, walked + [p]) == Targets(m, walked) + {target};
    assert now[target] == Directory(PLAIN_MODE) by {
      assert target in before || target in Frame(m) || target in Targets(m, walked);
    }
  }

  /** One entry: it is copied exactly when nothing is in its way, and then it is in its place. */
  lemma EntryDecides(
    up: Fold, disk: Nodes, before: Nodes, m: Mapping, walked: seq<Path>, now: Nodes, p: Path)
    requires Straight(up, before, m) && OnFileSystem(up, now) && p in m.source && p != "" && p !in walked
    requires (forall q :: q in walked ==> q in m.source) && Overlaid(before, m, walked, now)
    requires forall a :: IsAncestor(a, p) ==> a in walked
    ensures CopyEntry(up, disk, m, now, p).Ok? <==> EntryFits(up, disk, before, m, p)
    ensures var r := CopyEntry(up, disk, m, now, p);
            r.Ok? ==> Overlaid(before, m, walked + [p], r.value)
  {
    hide IsAncestor, Canonical, Overlaid, Straight, DirsEnsured, Added, Placed, Removed, Exists, Under, OnFileSystem;
    hide LinkStays, Clear, WayIsThere, MakeDirs, CanMakeDirs, EntryFits;
    var target := Under(m.prefix, p);
    StraightFacts(up, before, m);
    NotSlashed(up, m, p);
    OverlaidIsWithin(up, before, m, walked, now);
    PlaceIsClear(up, before, m, now, p);
    WayToPlace(up, before, m, walked, now, p);
    PlaceIsFree(before, m, walked, now, p);
    if m.source[p].Directory? {
      DirectoryDecides(up, disk, before, m, walked, now, p);
    } else {
      LeafIsNew(up, before, m, p);
      OverlaidGrows(before, m, walked, now, p);
      if m.source[p].Regular? {
        ParentIsThere(up, now, target);
        DirIsThere(up, now, Parent(target));
        PlacedExact(up, now, target, CopyOf(m.source[p]));
      } else {
        AddedExact(up, now, target, CopyOf(m.source[p]));
      }
      LeafFits(up, disk, before, m, p);
    }
  }

  lemma StraightFacts(up: Fold, before: Nodes, m: Mapping)
    requires Straight(up, before, m)
    ensures WellMapped(up, m) && Apart(up, before, m) && OnFileSystem(up, before) && PlainDirs(before)
  {
  }

  lemma LeafIsNew(up: Fold, before: Nodes, m: Mapping, p: Path)
    requires Straight(up, before, m) && IsLeaf(m.source, p)
    ensures Under(m.prefix, p) !in before
  {
  }

  lemma LeafFits(up: Fold, disk: Nodes, before: Nodes, m: Mapping, p: Path)
    requires IsLeaf(m.source, p)
    ensures EntryFits(up, disk, before, m, p) <==> LinkMayStay(up, disk, m, p)
    ensures m.source[p].Regular? ==> LinkMayStay(up, disk, m, p)
  {
    hide LinkStays;
  }

  lemma ParentIsThere(up: Fold, nodes: Nodes, p: Path)
    requires WayIsThere(nodes, p) && p != ""
    ensures IsDir(nodes, Parent(p))
  {
    assert IsAncestor(Parent(p), p);
  }

  lemma DirectoryDecides(
    up: Fold, disk: Nodes, before: Nodes, m: Mapping, walked: seq<Path>, now: Nodes, p: Path)
    requires Straight(up, before, m) && OnFileSystem(up, now) && IsDir(m.source, p) && p != "" && p !in walked
    requires (forall q :: q in walked ==> q in m.source) && Overlaid(before, m, walked, now)
    requires WayIsThere(now, Under(m.prefix, p)) && Clear(up, now, Under(m.prefix, p))
    requires Under(m.prefix, p) != "" && Canonical(Under(m.prefix, p))
    ensures CopyEntry(up, disk, m, now, p).Ok? <==> EntryFits(up, disk, before, m, p)
    ensures var r := CopyEntry(up, disk, m, now, p);
            r.Ok? ==> Overlaid(before, m, walked + [p], r.value)
  {
    hide IsAncestor, Canonical, Overlaid, DirsEnsured, Under, OnFileSystem, Clear, MakeDirs, LinkStays, Footprint;
    hide WellMapped, Apart, NoDetour, Straight;
    var target := Under(m.prefix, p);
    StraightFacts(up, before, m);
    PlaceIsFree(before, m, walked, now, p);
    DirectoryBelongs(up, before, m, p);
    OverlaidFacts(before, m, walked, now, target);
    DirsDecide(up, now, target);
    MakeLast(up, now, target);
    if target in now {
      if IsDir(now, target) {
        OverlaidStays(before, m, walked, now, p);
      }
    } else {
      OverlaidGrows(before, m, walked, now, p);
      CopiesKeepKind(m);
    }
  }

  lemma DirectoryBelongs(up: Fold, before: Nodes, m: Mapping, p: Path)
    requires Straight(up, before, m) && IsDir(m.source, p)
    ensures Under(m.prefix, p) in before ==> !before[Under(m.prefix, p)].Link?
  {
    assert Under(m.prefix, p) in DirsOf(m);
  }

  lemma OverlaidFacts(before: Nodes, m: Mapping, walked: seq<Path>, now: Nodes, x: Path)
    requires forall q :: q in walked ==> q in m.source
    requires Overlaid(before, m, walked, now)
    ensures x in before ==> x in now && now[x] == before[x]
  {
  }

  /** With its parents there, making a directory makes at most itself. */
  lemma MakeLast(up: Fold, nodes: Nodes, p: Path)
    requires OnFileSystem(up, nodes) && WayIsThere(nodes, p) && p != ""
    ensures CanMakeDirs(nodes, p) <==> !IsLeaf(nodes, p)
    ensures IsDir(nodes, p) ==> MakeDirs(nodes, p) == nodes
    ensures p !in nodes ==> MakeDirs(nodes, p) == nodes[p := Directory(PLAIN_MODE)]
  {
    hide IsAncestor, OnFileSystem;
    assert forall a :: a in Ancestors(p) ==> IsDir(nodes, a);
  }

  lemma {:induction false} WalkDecides(
    up: Fold, disk: Nodes, before: Nodes, m: Mapping, made: Nodes, walk: seq<Path>, k: nat)
    requires Straight(up, before, m) && OnFileSystem(up, made) && Overlaid(before, m, [], made)
    requires walk == SortedKeys(m.source.Keys) && k <= |walk|
    ensures CopyWalk(up, disk, m, made, walk[..k]).Ok?
       <==> forall p :: p in walk[..k] && p != "" ==> EntryFits(up, disk, before, m, p)
    ensures var r := CopyWalk(up, disk, m, made, walk[..k]);
            r.Ok? ==> Overlaid(before, m, walk[..k], r.value) && OnFileSystem(up, r.value)
    decreases k
  {
    hide CopyEntry, EntryFits, Overlaid, Straight, OnFileSystem, SortedKeys, IsAncestor, Below;
    if k == 0 {
      assert walk[..0] == [];
    } else {
      var n := k - 1;
      var p := walk[n];
      assert p in walk;
      assert walk[..k] == walk[..n] + [p] && walk[..k][..n] == walk[..n];
      WalkDecides(up, disk, before, m, made, walk, n);
      var shorter := CopyWalk(up, disk, m, made, walk[..n]);
      if shorter.Ok? {
        if p == "" {
          RootStays(up, before, m, walk[..n], shorter.value);
        } else {
          SourceWalk(up, before, m, walk, n);
          EntryDecides(up, disk, before, m, walk[..n], shorter.value, p);
          EntryKeepsTree(up, disk, m, shorter.value, p);
        }
      }
    }
  }

  lemma RootStays(up: Fold, before: Nodes, m: Mapping, walked: seq<Path>, now: Nodes)
    requires Straight(up, before, m) && (forall q :: q in walked ==> q in m.source)
    requires Overlaid(before, m, walked, now)
    ensures "" in m.source && Overlaid(before, m, walked + [""], now)
    ensures forall disk :: CopyEntry(up, disk, m, now, "") == Ok(now)
  {
    hide IsAncestor, Apart, NoDetour, Footprint, DirsEnsured, Added, Placed, Removed, Exists, LinkMayStay;
    UnderRoot(m.prefix);
    assert IsDir(m.source, "");
    assert m.prefix in Frame(m);
    OverlaidStays(before, m, walked, now, "");
  }

  lemma SourceWalk(up: Fold, before: Nodes, m: Mapping, walk: seq<Path>, n: nat)
    requires Straight(up, before, m) && walk == SortedKeys(m.source.Keys) && n < |walk|
    ensures walk[n] !in walk[..n] && forall a :: IsAncestor(a, walk[n]) ==> a in walk[..n]
  {
    hide IsAncestor, SortedKeys, Below, Apart, NoDetour;
    AscendingIsDistinct(walk);
    assert walk[n] in walk;
    forall a | IsAncestor(a, walk[n])
      ensures a in walk[..n]
    {
      assert IsDir(m.source, a);
      assert a in walk;
      var j :| 0 <= j < |walk| && walk[j] == a;
      AncestorIsBelow(a, walk[n]);
      AscendingIndex(walk, j, n);
      assert walk[..n][j] == a;
    }
  }

  lemma EntryKeepsTree(up: Fold, disk: Nodes, m: Mapping, nodes: Nodes, p: Path)
    requires OnFileSystem(up, nodes) && p in m.source
    ensures CopyEntry(up, disk, m, nodes, p).Ok? ==> OnFileSystem(up, CopyEntry(up, disk, m, nodes, p).value)
  {
    hide OnFileSystem, DirsEnsured, Added, Placed, Removed, Exists, LinkMayStay, IsAncestor;
    if p != "" {
      var target, copy := Under(m.prefix, p), CopyOf(m.source[p]);
      match m.source[p] {
        case Directory(_) =>
          DirsKeepTree(up, nodes, target);
        case Link(_, _, _) =>
          OperationsKeepTree(up, nodes, target, copy);
          var cleared := if Exists(up, nodes, target) then Removed(up, nodes, target) else Some(nodes);
          if cleared.Some? {
            OperationsKeepTree(up, cleared.value, target, copy);
          }
        case Regular(_, _, _) =>
          DirsKeepTree(up, nodes, Parent(target));
          var made := DirsEnsured(up, nodes, Parent(target));
          if made.Some? {
            OperationsKeepTree(up, made.value, target, copy);
          }
      }
    }
  }

  lemma {:induction false} WalkKeepsTree(up: Fold, disk: Nodes, m: Mapping, nodes: Nodes, walk: seq<Path>)
    requires OnFileSystem(up, nodes) && forall p :: p in walk ==> p in m.source
    ensures CopyWalk(up, disk, m, nodes, walk).Ok? ==> OnFileSystem(up, CopyWalk(up, disk, m, nodes, walk).value)
  {
    hide OnFileSystem, CopyEntry;
    if walk == [] {
    } else {
      var n := |walk| - 1;
      WalkKeepsTree(up, disk, m, nodes, walk[..n]);
      var shorter := CopyWalk(up, disk, m, nodes, walk[..n]);
      if shorter.Ok? {
        EntryKeepsTree(up, disk, m, shorter.value, walk[n]);
      }
    }
  }

  lemma CopyKeepsTree(up: Fold, disk: Nodes, m: Mapping, nodes: Nodes)
    requires OnFileSystem(up, nodes)
    ensures CopyStatic(up, disk, m, nodes).Ok? ==> OnFileSystem(up, CopyStatic(up, disk, m, nodes).value)
  {
    hide OnFileSystem, DirsEnsured, CopyWalk, SortedKeys, Collides;
    DirsKeepTree(up, nodes, m.prefix);
    var made := DirsEnsured(up, nodes, m.prefix);
    if made.Some? {
      WalkKeepsTree(up, disk, m, made.value, SortedKeys(m.source.Keys));
    }
  }

  /** All entries are in place: the mapping fitted, and this is what is there now. */
  ghost predicate Copied(before: Nodes, m: Mapping, now: Nodes) {
    && (forall x :: IsLeaf(now, x) <==> IsLeaf(before, x) || x in FilesOf(m))
    && (forall x :: IsDir(now, x) <==> IsDir(before, x) || x in DirsOf(m))
    && (forall x :: x in before ==> x in now && now[x] == before[x])
    && (forall p :: p in m.source ==> Under(m.prefix, p) in now && now[Under(m.prefix, p)] == CopyOf(m.source[p]))
    && PlainDirs(now)
  }

  lemma OverlaidIsCopied(up: Fold, before: Nodes, m: Mapping, walk: seq<Path>, now: Nodes)
    requires Straight(up, before, m) && (forall p :: p in walk <==> p in m.source)
    requires Overlaid(before, m, walk, now)
    ensures Fits(before, m) && Copied(before, m, now)
  {
    hide IsAncestor, Ancestors, CopyOf, Overlaid, Under, FilesOf, DirsOf, Straight;
    StraightFacts(up, before, m);
    KindsInPlace(up, before, m, walk, now);
    OverlaidOnly(up, before, m, walk, now);
    OverlaidKeeps(before, m, walk, now);
    FilesAreNew(up, before, m);
  }

  lemma FilesAreNew(up: Fold, before: Nodes, m: Mapping)
    requires Straight(up, before, m)
    ensures forall x :: x in FilesOf(m) ==> x !in before
  {
    hide Apart, NoDetour, WellMapped, Under;
  }

  lemma OverlaidOnly(up: Fold, before: Nodes, m: Mapping, walk: seq<Path>, now: Nodes)
    requires Straight(up, before, m) && (forall p :: p in walk <==> p in m.source)
    requires Overlaid(before, m, walk, now)
    ensures forall x :: x in now && x !in before ==> x in FilesOf(m) || x in DirsOf(m)
  {
    hide Overlaid, Straight, FilesOf, DirsOf;
    OverlaidIsWithin(up, before, m, walk, now);
  }

  lemma KindsInPlace(up: Fold, before: Nodes, m: Mapping, walk: seq<Path>, now: Nodes)
    requires forall p :: p in walk <==> p in m.source
    requires Overlaid(before, m, walk, now)
    ensures forall x :: x in DirsOf(m) ==> x in now && now[x] == Directory(PLAIN_MODE)
    ensures forall x :: x in FilesOf(m) ==> IsLeaf(now, x)
  {
    hide IsAncestor, Ancestors, CopyOf, Under;
    CopiesKeepKind(m);
  }

  lemma OverlaidKeeps(before: Nodes, m: Mapping, walk: seq<Path>, now: Nodes)
    requires forall p :: p in walk <==> p in m.source
    requires Overlaid(before, m, walk, now)
    ensures forall x :: x in before ==> x in now && now[x] == before[x]
    ensures forall p :: p in m.source ==> Under(m.prefix, p) in now && now[Under(m.prefix, p)] == CopyOf(m.source[p])
  {
    hide IsAncestor, Ancestors, CopyOf, Under;
    assert forall p :: p in walk ==> Under(m.prefix, p) in Targets(m, walk);
  }

  /** Where nothing diverts, a copy is made exactly when the mapping fits and its links may stay. */
  lemma CopyDecides(up: Fold, disk: Nodes, before: Nodes, m: Mapping)
    requires OnFileSystem(up, before) && WellMapped(up, m)
    requires PlainDirs(before) && Apart(up, before, m) && NoDetour(before, m)
    ensures CopyStatic(up, disk, m, before).Ok? <==> Fits(before, m) && LinksStay(up, disk, m)
    ensures var r := CopyStatic(up, disk, m, before); r.Ok? ==> Copied(before, m, r.value)
  {
    hide OnFileSystem, WellMapped, PlainDirs, Apart, NoDetour, DirsEnsured, CopyWalk, SortedKeys, Copied, Overlaid;
    hide Collides, Fits, LinkMayStay, EntryFits, CanMakeDirs, MakeDirs;
    CollisionDecides(up, before, m);
    if !Collides(up, before, m) {
      assert Straight(up, before, m);
      PrefixDecides(up, before, m);
      if CanMakeDirs(before, m.prefix) {
        var made, walk := MakeDirs(before, m.prefix), SortedKeys(m.source.Keys);
        PrefixMade(up, before, m);
        assert walk[..|walk|] == walk;
        WalkDecides(up, disk, before, m, made, walk, |walk|);
        var r := CopyWalk(up, disk, m, made, walk);
        if r.Ok? {
          OverlaidIsCopied(up, before, m, walk, r.value);
        }
        AllFit(up, disk, before, m);
      }
    }
  }

  lemma CollisionDecides(up: Fold, before: Nodes, m: Mapping)
    requires OnFileSystem(up, before) && WellMapped(up, m) && Apart(up, before, m) && NoDetour(before, m)
    ensures Collides(up, before, m) <==> exists p :: IsLeaf(m.source, p) && Under(m.prefix, p) in before
    ensures Collides(up, before, m) ==> !Fits(before, m)
  {
    hide OnFileSystem, IsAncestor, Canonical, Apart, Exists, Clear, Under, Ancestors;
    forall p | IsLeaf(m.source, p)
      ensures Exists(up, before, Under(m.prefix, p)) <==> Under(m.prefix, p) in before
      ensures Under(m.prefix, p) in FilesOf(m)
    {
      LeafIsNotRoot(up, m, p);
      NotSlashed(up, m, p);
      PlaceIsClear(up, before, m, before, p);
      forall a | IsAncestor(a, Under(m.prefix, p)) && a in before
        ensures !before[a].Link?
      {
        NotOwnAncestor(a);
        PlacesBelong(up, m, p, a);
      }
      ExistsDecides(up, before, Under(m.prefix, p));
    }
  }

  lemma LeafIsNotRoot(up: Fold, m: Mapping, p: Path)
    requires WellMapped(up, m) && IsLeaf(m.source, p)
    ensures p != ""
  {
  }

  lemma PrefixDecides(up: Fold, before: Nodes, m: Mapping)
    requires Straight(up, before, m)
    ensures DirsEnsured(up, before, m.prefix)
         == if CanMakeDirs(before, m.prefix) then Some(MakeDirs(before, m.prefix)) else None
    ensures !CanMakeDirs(before, m.prefix) ==> !Fits(before, m)
  {
    hide OnFileSystem, IsAncestor, Canonical, Apart, Clear, DirsEnsured, MakeDirs;
    UnderRoot(m.prefix);
    RootInSource(up, m);
    PlaceIsClear(up, before, m, before, "");
    forall a | a in Frame(m)
      ensures a in DirsOf(m)
    {
      RootBelongs(up, m, a);
    }
    DirsDecide(up, before, m.prefix);
  }

  lemma RootInSource(up: Fold, m: Mapping)
    requires WellMapped(up, m)
    ensures IsDir(m.source, "")
  {
  }

  lemma PrefixMade(up: Fold, before: Nodes, m: Mapping)
    requires Straight(up, before, m) && CanMakeDirs(before, m.prefix)
    ensures Overlaid(before, m, [], MakeDirs(before, m.prefix)) && OnFileSystem(up, MakeDirs(before, m.prefix))
  {
    hide IsAncestor, Apart, NoDetour, WellMapped, OnFileSystem, DirsEnsured;
    PrefixDecides(up, before, m);
    DirsKeepTree(up, before, m.prefix);
  }

  lemma AllFit(up: Fold, disk: Nodes, before: Nodes, m: Mapping)
    requires Straight(up, before, m) && CanMakeDirs(before, m.prefix)
    ensures (forall p :: p in m.source && p != "" ==> EntryFits(up, disk, before, m, p))
       <==> Fits(before, m) && LinksStay(up, disk, m)
  {
    hide LinkStays, Apart, NoDetour, OnFileSystem, IsAncestor;
    StraightFacts(up, before, m);
    RootInSource(up, m);
    FilesAreNew(up, before, m);
    UnderRoot(m.prefix);
    forall p | IsDir(m.source, p)
      ensures Under(m.prefix, p) in DirsOf(m)
    {
    }
    if forall p :: p in m.source && p != "" ==> EntryFits(up, disk, before, m, p) {
      forall x | x in DirsOf(m)
        ensures !IsLeaf(before, x)
      {
        if x in Ancestors(m.prefix) {
        } else {
          var p :| p in m.source && IsDir(m.source, p) && x == Under(m.prefix, p);
          assert p != "" ==> EntryFits(up, disk, before, m, p);
        }
      }
      forall p | p in m.source
        ensures LinkMayStay(up, disk, m, p)
      {
        assert p != "" ==> EntryFits(up, disk, before, m, p);
      }
    }
  }
}
