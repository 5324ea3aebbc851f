/**
 Staging that succeeds and is not the union. The first tree has a link `a` to its directory `b`; the
 second is mapped below `a`, and its file ends up in `b`, where no mapping puts it.
 */
module Diversion {
  import opened Wrappers
  import opened ByteStrings
  import opened Paths
  import opened FileTree
  import opened StaticTrees
  import opened StaticCopy
  import opened StaticUnion

  /** A file system that takes names as they are. */
  function Exact(c: char): char {
    c
  }

  lemma ExactNames(p: Path, q: Path)
    ensures SameName(Exact, p, q) <==> p == q
  {
    if SameName(Exact, p, q) {
      SameNameLength(Exact, p, q);
      forall i | 0 <= i < |p|
        ensures p[i] == q[i]
      {
        assert Folded(Exact, p)[i] == Folded(Exact, q)[i];
      }
    }
  }

  lemma ExactIsClear(nodes: Nodes, p: Path)
    ensures Clear(Exact, nodes, p)
  {
    hide SameName, IsAncestor;
    forall x, a | SameName(Exact, x, a)
      ensures x == a
    {
      ExactNames(x, a);
    }
  }

  lemma ExactDiffers(names: iset<Path>)
    ensures NamesDiffer(Exact, names)
  {
    hide SameName;
    forall x, y | SameName(Exact, x, y)
      ensures x == y
    {
      ExactNames(x, y);
    }
  }

  predicate PlainName(s: string) {
    Normal(s) && '/' !in s
  }

  lemma OneName(s: string)
    requires PlainName(s)
    ensures Canonical(s) && Segments(s) == [s] && s != "" && Parent(s) == ""
    ensures forall a :: IsAncestor(a, s) ==> a == ""
  {
    SegmentsOfJoin([s]);
    ChildBelow("", s);
    forall a | IsAncestor(a, s)
      ensures a == ""
    {
      ChildAncestors("", s, a);
    }
  }

  lemma TwoNames(s: string, t: string)
    requires PlainName(s) && PlainName(t)
    ensures Canonical(s + "/" + t) && Segments(s + "/" + t) == [s, t]
    ensures Under(s, t) == s + "/" + t && Parent(s + "/" + t) == s && IsAncestor(s, s + "/" + t)
    ensures forall a :: IsAncestor(a, s + "/" + t) ==> a == "" || a == s
  {
    SegmentsOfJoin([s, t]);
    assert JoinSegments([s, t]) == s + "/" + t;
    ChildBelow(s, t);
    OneName(s);
    forall a | IsAncestor(a, s + "/" + t)
      ensures a == "" || a == s
    {
      ParentIsNearest(a, s + "/" + t);
    }
  }

  const TO_B: Node := Link([98], false, 1)

  function Disk(text: Bytes): Nodes {
    map["" := Directory(PLAIN_MODE),
        "one" := Directory(PLAIN_MODE), "one/a" := TO_B, "one/b" := Directory(PLAIN_MODE),
        "two" := Directory(PLAIN_MODE), "two/f" := Regular(text, false, 1)]
  }

  const REQUESTS: seq<StaticPath> := [StaticPath("one", ""), StaticPath("two", "a")]

  function First(): Mapping {
    Mapping("", "one", map["" := Directory(PLAIN_MODE), "a" := TO_B, "b" := Directory(PLAIN_MODE)])
  }

  function Second(text: Bytes): Mapping {
    Mapping("a", "two", map["" := Directory(PLAIN_MODE), "f" := Regular(text, false, 1)])
  }

  /** What is staged after the first request. */
  const STAGED: Nodes := map["" := Directory(PLAIN_MODE), "a" := TO_B, "b" := Directory(PLAIN_MODE)]

  lemma AllNames()
    ensures PlainName("one") && PlainName("two") && PlainName("a") && PlainName("b") && PlainName("f")
  {
  }

  lemma DiskIsTree(text: Bytes)
    ensures OnFileSystem(Exact, Disk(text))
  {
    hide IsAncestor, Canonical, SameName, NamesDiffer;
    AllNames();
    OneName("one");
    OneName("two");
    TwoNames("one", "a");
    TwoNames("one", "b");
    TwoNames("two", "f");
    assert "one" + "/" + "a" == "one/a" && "one" + "/" + "b" == "one/b" && "two" + "/" + "f" == "two/f";
    NoneAbove();
    ExactDiffers(NamesOf(Disk(text)));
  }

  /** On this disk, plain paths lead where they say. */
  lemma Finds(nodes: Nodes, segments: seq<string>, last: bool, whole: bool, links: nat)
    requires segments != [] && forall i :: 0 <= i < |segments| ==> PlainName(segments[i])
    requires forall a :: IsAncestor(a, Descend("", segments)) && |a| > 0 ==> IsDir(nodes, a)
    requires last && Descend("", segments) in nodes ==> !nodes[Descend("", segments)].Link?
    ensures Walk(Exact, nodes, "", segments, last, whole, links) == Some(Descend("", segments))
  {
    hide IsAncestor, Walk;
    ExactIsClear(nodes, Descend("", segments));
    WalkExact(Exact, nodes, "", segments, last, whole, links);
  }

  lemma Down(s: string, t: string)
    requires PlainName(s) && PlainName(t)
    ensures Descend("", [s]) == s && Descend("", [s, t]) == s + "/" + t
  {
    assert [s][1..] == [] && [s, t][1..] == [t] && [t][1..] == [];
    assert Descend("", [s, t]) == Descend(s, [t]) == Descend(Under(s, t), []);
  }

  lemma FindsDirectory(text: Bytes, name: string)
    requires name == "one" || name == "two"
    ensures IsDir(Disk(text), name) && Canonicalize(Exact, Disk(text), Segments(name)) == Some(name)
  {
    hide IsAncestor, Canonical, Walk, Segments, Descend;
    AllNames();
    OneName(name);
    Down(name, "f");
    DirectoryOnDisk(text, name);
    hide Disk;
    Finds(Disk(text), [name], true, true, MAX_LINKS);
  }

  lemma DirectoryOnDisk(text: Bytes, name: string)
    requires name == "one" || name == "two"
    ensures IsDir(Disk(text), name)
  {
  }

  lemma DirectoryResolves(text: Bytes, name: string, prefix: string)
    requires (name == "one" || name == "two") && (prefix == "" || PlainName(prefix))
    ensures Resolve(Exact, Disk(text), StaticPath(name, prefix)) == Ok(Mapping(prefix, name, Subtree(Disk(text), name)))
  {
    hide IsAncestor, Canonical, Subtree, Walk, Normalize, Disk, Segments;
    FindsDirectory(text, name);
    if prefix != "" {
      OneName(prefix);
      NormalizeIsCanonical(prefix);
    }
  }

  lemma Resolves(text: Bytes)
    ensures Resolve(Exact, Disk(text), REQUESTS[0]) == Ok(First())
    ensures Resolve(Exact, Disk(text), REQUESTS[1]) == Ok(Second(text))
  {
    hide Subtree, Resolve;
    AllNames();
    DirectoryResolves(text, "one", "");
    DirectoryResolves(text, "two", "a");
    FirstSubtree(text);
    SecondSubtree(text);
  }

  lemma FirstSubtree(text: Bytes)
    ensures Subtree(Disk(text), "one") == First().source
  {
    hide Subtree, Under;
    assert "one/a"[..3] == "one" && "one/b"[..3] == "one" && "two/f"[..3] == "two";
    assert "one/a"[4..] == "a" && "one/b"[4..] == "b";
    assert "one" + "/" + "a" == "one/a" && "one" + "/" + "b" == "one/b";
    var found, meant := Subtree(Disk(text), "one"), First().source;
    forall q
      ensures q in found <==> q in meant
      ensures q in found ==> found[q] == meant[q]
    {
      BelowName("one", q);
    }
    assert found.Keys == meant.Keys;
  }

  lemma SecondSubtree(text: Bytes)
    ensures Subtree(Disk(text), "two") == Second(text).source
  {
    hide Subtree, Under;
    assert "one/a"[..3] == "one" && "one/b"[..3] == "one" && "two/f"[..3] == "two";
    assert "two/f"[4..] == "f" && "two" + "/" + "f" == "two/f";
    var found, meant := Subtree(Disk(text), "two"), Second(text).source;
    forall q
      ensures q in found <==> q in meant
      ensures q in found ==> found[q] == meant[q]
    {
      BelowName("two", q);
    }
    assert found.Keys == meant.Keys;
  }

  lemma BelowName(root: string, q: Path)
    requires |root| == 3
    ensures q == "" ==> Under(root, q) == root
    ensures q != "" ==> |Under(root, q)| == 4 + |q| && Under(root, q)[..3] == root && Under(root, q)[4..] == q
    ensures |q| == 1 ==> Under(root, q) == root + "/" + q
  {
  }

  /** The link of the first tree may be staged: on the disk it leads into the tree. */
  lemma LinkIsFine(text: Bytes)
    ensures LinksStay(Exact, Disk(text), First())
  {
    hide IsAncestor, Canonical, Walk, Canonicalize, Segments;
    AllNames();
    OneName("one");
    OneName("a");
    OneName("b");
    LinkIsInside(text);
    assert Text([98]) == "b" && ["one"] + ["b"] == ["one", "b"];
  }

  lemma LinkIsInside(text: Bytes)
    ensures Canonicalize(Exact, Disk(text), ["one", "b"]) == Some("one/b") && IsAncestor("one", "one/b")
  {
    hide IsAncestor, Canonical, Walk, Segments, Descend;
    AllNames();
    TwoNames("one", "b");
    Down("one", "b");
    assert "one" + "/" + "b" == "one/b";
    Finds(Disk(text), ["one", "b"], true, true, MAX_LINKS);
  }

  /** The first request is staged as it is. */
  lemma FirstIsStaged(text: Bytes)
    ensures StageAll(Exact, Disk(text), REQUESTS[..1]) == Ok(STAGED)
  {
    hide OnFileSystem, StageAll, Resolve, NamesDiffer, LinksStay, IsUnion, PlainDirs, Disk, Names;
    var paths := REQUESTS[..1];
    assert paths == [REQUESTS[0]];
    DiskIsTree(text);
    Resolves(text);
    LinkIsFine(text);
    var ms := Mappings(Exact, Disk(text), paths);
    assert ms == [First()];
    ExactDiffers(Names(ms));
    StagingDecides(Exact, Disk(text), paths);
    UnionOfFirst(StageAll(Exact, Disk(text), paths).value);
  }

  lemma UnionOfFirst(nodes: Nodes)
    requires IsUnion([First()], nodes) && PlainDirs(nodes)
    ensures nodes == STAGED
  {
    hide FilesOf, DirsOf, PlainDirs;
    var m := First();
    FirstPlaces();
    forall x
      ensures IsLeaf(nodes, x) <==> x == "a"
      ensures IsDir(nodes, x) <==> x == "" || x == "b"
    {
      assert [m][0] == m;
      assert FileOfSome([m], x) <==> x == "a";
      assert DirOfSome([m], x) <==> x == "" || x == "b";
    }
    FirstNodes(nodes);
    assert nodes.Keys == STAGED.Keys;
  }

  lemma FirstNodes(nodes: Nodes)
    requires IsUnion([First()], nodes)
    ensures "" in nodes && "a" in nodes && "b" in nodes
    ensures nodes[""] == Directory(PLAIN_MODE) && nodes["a"] == TO_B && nodes["b"] == Directory(PLAIN_MODE)
    ensures forall x :: x in nodes <==> IsLeaf(nodes, x) || IsDir(nodes, x)
  {
    var m := First();
    assert InPlace([m][0], nodes);
    assert Under("", "") == "" && Under("", "a") == "a" && Under("", "b") == "b";
    assert "" in m.source && "a" in m.source && "b" in m.source;
  }

  lemma FirstPlaces()
    ensures FilesOf(First()) == {"a"} && DirsOf(First()) == {"", "b"}
  {
    NoneAbove();
    hide IsAncestor;
    var m := First();
    assert forall q :: Under("", q) == q;
    assert IsLeaf(m.source, "a") && IsDir(m.source, "") && IsDir(m.source, "b");
    assert Under("", "a") in FilesOf(m) && Under("", "") in DirsOf(m) && Under("", "b") in DirsOf(m);
  }

  /** Through the staged link, the place of the second file is in the first tree. */
  lemma PlaceIsDiverted()
    ensures Lookup(Exact, STAGED, "a/f") == Some("b/f") && Destination(Exact, STAGED, "a/f") == Some("b/f")
    ensures Destination(Exact, STAGED, "a") == Some("b")
  {
    hide IsAncestor, Canonical, Walk, FollowLink;
    AllNames();
    OneName("a");
    OneName("b");
    TwoNames("a", "f");
    TwoNames("b", "f");
    Down("b", "f");
    assert "a" + "/" + "f" == "a/f" && "b" + "/" + "f" == "b/f";
    assert ["b"] + ["f"] == ["b", "f"] && ["b"] + [] == ["b"];
    var n := MAX_LINKS - 1;
    Finds(STAGED, ["b", "f"], false, false, n);
    Finds(STAGED, ["b", "f"], true, false, n);
    Finds(STAGED, ["b"], true, false, n);
    LinkStep(["f"], false);
    LinkStep(["f"], true);
    LinkStep([], true);
    assert ["a"] + ["f"] == ["a", "f"] && ["a"] + [] == ["a"];
  }

  lemma LinkStep(rest: seq<string>, last: bool)
    requires rest != [] || last
    ensures Walk(Exact, STAGED, "", ["a"] + rest, last, false, MAX_LINKS)
         == Walk(Exact, STAGED, "", ["b"] + rest, last, false, MAX_LINKS - 1)
  {
    hide Segments, Spelled;
    AllNames();
    OneName("b");
    ExactIsClear(STAGED, "a");
    ClearIsSpelled(Exact, STAGED, "a", "a");
    assert (["a"] + rest)[1..] == rest;
    assert Text([98]) == "b";
    assert Under("", "a") == "a";
  }

  lemma SecondEntries(text: Bytes)
    ensures !Collides(Exact, STAGED, Second(text))
    ensures Second(text).source.Keys == {"", "f"} && SortedKeys({"", "f"}) == ["", "f"]
    ensures CopyEntry(Exact, Disk(text), Second(text), STAGED, "f") == Ok(STAGED["b/f" := Regular(text, false, 1)])
  {
    hide Lookup, Destination, Disk, SortedKeys;
    PlaceIsDiverted();
    AllNames();
    TwoNames("b", "f");
    TwoNames("a", "f");
    OneName("a");
    assert Under("a", "f") == "a/f" && "b" + "/" + "f" == "b/f";
    PrefixIsThere();
    assert Below("", "f");
    TwoKeys({"", "f"}, "", "f");
    assert CanWrite(STAGED, "b/f");
  }

  lemma PrefixIsThere()
    ensures DirsEnsured(Exact, STAGED, "a") == Some(STAGED)
  {
    hide Lookup, Destination;
    PlaceIsDiverted();
  }

  lemma SecondIsDiverted(text: Bytes)
    ensures CopyStatic(Exact, Disk(text), Second(text), STAGED) == Ok(STAGED["b/f" := Regular(text, false, 1)])
  {
    hide CopyEntry, Disk, DirsEnsured, Collides, SortedKeys;
    var m := Second(text);
    SecondEntries(text);
    PrefixIsThere();
    var walk := ["", "f"];
    assert walk[..1] == [""] && walk[..1][..0] == [];
    RootIsSkipped(text);
    assert CopyWalk(Exact, Disk(text), m, STAGED, walk[..1]) == Ok(STAGED);
  }

  lemma RootIsSkipped(text: Bytes)
    ensures CopyEntry(Exact, Disk(text), Second(text), STAGED, "") == Ok(STAGED)
  {
  }

  /**
   The whole call succeeds; the second file is in a place that belongs to no mapping, and is missing
   from its own.
   */
  lemma FileIsDiverted(text: Bytes)
    ensures OnFileSystem(Exact, Disk(text))
    ensures Package(Exact, Disk(text), REQUESTS) == Ok(STAGED["b/f" := Regular(text, false, 1)])
    ensures AllResolve(Exact, Disk(text), REQUESTS) && !Stageable(Exact, Disk(text), REQUESTS)
    ensures !FileOfSome(Mappings(Exact, Disk(text), REQUESTS), "b/f")
    ensures FileOfSome(Mappings(Exact, Disk(text), REQUESTS), "a/f")
  {
    hide StageAll, Resolve, CopyStatic, Disk, FilesOf, OnFileSystem;
    DiskIsTree(text);
    Resolves(text);
    FirstIsStaged(text);
    SecondIsDiverted(text);
    StageTwo(text);
    var ms := Mappings(Exact, Disk(text), REQUESTS);
    assert ms == [First(), Second(text)];
    FirstPlaces();
    SecondFiles(text);
    assert "a" in FilesOf(ms[0]) && "a" in DirsOf(ms[1]);
    assert !Disjoint(ms[0], ms[1]);
  }

  lemma SecondFiles(text: Bytes)
    ensures FilesOf(Second(text)) == {"a/f"} && "a" in DirsOf(Second(text))
  {
    var m := Second(text);
    assert "a" + "/" + "f" == "a/f";
    assert IsLeaf(m.source, "f") && IsDir(m.source, "");
    assert Under("a", "f") == "a/f" && Under("a", "") == "a";
    assert Under("a", "f") in FilesOf(m) && Under("a", "") in DirsOf(m);
  }

  lemma StageTwo(text: Bytes)
    requires Resolve(Exact, Disk(text), REQUESTS[1]) == Ok(Second(text))
    ensures StageAll(Exact, Disk(text), REQUESTS[..1]) == Ok(STAGED) ==>
              StageAll(Exact, Disk(text), REQUESTS) == CopyStatic(Exact, Disk(text), Second(text), STAGED)
  {
    hide Resolve, CopyStatic, Disk;
  }
}
