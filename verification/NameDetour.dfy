/**
 Staging that succeeds and is not the union, where names are found whatever their case. Two trees are
 mapped below `a` and `A`; the second one's file ends up in `a`, where no mapping puts it.
 */
module NameDetour {
  import opened Wrappers
  import opened ByteStrings
  import opened Paths
  import opened FileTree
  import opened Spellings
  import opened StaticTrees
  import opened StaticCopy
  import opened StaticUnion
  import D = Diversion

  function Disk(text: Bytes): Nodes {
    map["" := Directory(PLAIN_MODE), "d" := Directory(PLAIN_MODE),
        "dd" := Directory(PLAIN_MODE), "dd/f" := Regular(text, false, 1)]
  }

  const REQUESTS: seq<StaticPath> := [StaticPath("d", "a"), StaticPath("dd", "A")]

  function First(): Mapping {
    Mapping("a", "d", map["" := Directory(PLAIN_MODE)])
  }

  function Second(text: Bytes): Mapping {
    Mapping("A", "dd", map["" := Directory(PLAIN_MODE), "f" := Regular(text, false, 1)])
  }

  /** What is staged after the first request. */
  const STAGED: Nodes := map["" := Directory(PLAIN_MODE), "a" := Directory(PLAIN_MODE)]

  lemma Names()
    ensures D.PlainName("d") && D.PlainName("dd") && D.PlainName("a") && D.PlainName("A") && D.PlainName("f")
    ensures "dd" + "/" + "f" == "dd/f" && "a" + "/" + "f" == "a/f" && "A" + "/" + "f" == "A/f"
    ensures SameName(UpperCase, "a", "A") && "a" != "A"
  {
    assert Folded(UpperCase, "a") == "A" == Folded(UpperCase, "A");
  }

  // ---- The requests -----------------------------------------------------------------------

  lemma DiskIsTree(text: Bytes)
    ensures OnFileSystem(UpperCase, Disk(text))
  {
    hide IsAncestor, Canonical, SameName;
    Names();
    D.OneName("d");
    D.OneName("dd");
    D.TwoNames("dd", "f");
    NoneAbove();
    forall x, y | x in Disk(text) && y in Disk(text) && SameName(UpperCase, x, y)
      ensures x == y
    {
      SameNameLength(UpperCase, x, y);
    }
  }

  lemma StagedIsTree()
    ensures OnFileSystem(UpperCase, EMPTY) && OnFileSystem(UpperCase, STAGED)
  {
    hide IsAncestor, Canonical, SameName;
    Names();
    D.OneName("a");
    NoneAbove();
    forall x, y | x in STAGED && y in STAGED && SameName(UpperCase, x, y)
      ensures x == y
    {
      SameNameLength(UpperCase, x, y);
    }
  }

  lemma DirectoryResolves(text: Bytes, name: string, prefix: string)
    requires (name == "d" || name == "dd") && (prefix == "a" || prefix == "A")
    ensures Resolve(UpperCase, Disk(text), StaticPath(name, prefix))
         == Ok(Mapping(prefix, name, Subtree(Disk(text), name)))
  {
    hide IsAncestor, Canonical, Subtree, Resolve, OnFileSystem, D.PlainName;
    Names();
    DiskIsTree(text);
    assert IsDir(Disk(text), name);
    hide Disk;
    NameResolves(UpperCase, Disk(text), name, prefix);
  }

  /** A request for a directory by its own name, where names are spelled in one way. */
  lemma NameResolves(up: Fold, disk: Nodes, name: string, prefix: string)
    requires D.PlainName(name) && D.PlainName(prefix) && OnFileSystem(up, disk) && IsDir(disk, name)
    ensures Resolve(up, disk, StaticPath(name, prefix)) == Ok(Mapping(prefix, name, Subtree(disk, name)))
  {
    hide IsAncestor, Canonical, Subtree, Walk, Normalize, Segments, Descend, Clear, OnFileSystem, D.PlainName;
    D.OneName(name);
    D.OneName(prefix);
    D.Down(name, name);
    NormalizeIsCanonical(prefix);
    PresentIsClear(up, disk, name);
    assert PlainSegments([name]) by {
      IsPlain(name);
    }
    WalkExact(up, disk, "", [name], true, true, MAX_LINKS);
  }

  lemma IsPlain(name: string)
    requires D.PlainName(name)
    ensures PlainSegments([name])
  {
  }

  lemma SubtreesAre(text: Bytes)
    ensures Subtree(Disk(text), "d") == First().source && Subtree(Disk(text), "dd") == Second(text).source
  {
    hide Subtree;
    FirstSubtree(text);
    SecondSubtree(text);
  }

  lemma FirstSubtree(text: Bytes)
    ensures Subtree(Disk(text), "d") == First().source
  {
    hide Subtree, Under;
    var found := Subtree(Disk(text), "d");
    forall q
      ensures q in found <==> q == ""
    {
      OnDisk(text, q);
    }
    BelowName("d", "");
    assert found.Keys == {""};
  }

  lemma SecondSubtree(text: Bytes)
    ensures Subtree(Disk(text), "dd") == Second(text).source
  {
    hide Subtree, Under;
    var found := Subtree(Disk(text), "dd");
    forall q
      ensures q in found <==> q == "" || q == "f"
    {
      OnDisk(text, q);
    }
    Names();
    BelowName("dd", "");
    BelowName("dd", "f");
    assert found.Keys == {"", "f"};
  }

  lemma OnDisk(text: Bytes, q: Path)
    ensures Under("d", q) in Disk(text) <==> q == ""
    ensures Under("dd", q) in Disk(text) <==> q == "" || q == "f"
  {
    hide Under;
    Names();
    BelowName("d", q);
    BelowName("dd", q);
    var short, long := Under("d", q), Under("dd", q);
    if q != "" {
      assert short[1] == '/' && long[2] == '/' && "dd"[1] == 'd' && "dd/f"[1] == 'd';
      assert long[3..] == q && "dd/f"[3..] == "f";
    }
  }

  lemma BelowName(root: string, q: Path)
    requires root != ""
    ensures q == "" ==> Under(root, q) == root
    ensures q != "" ==> |Under(root, q)| > |root| && Under(root, q)[|root|] == '/' && Under(root, q)[|root| + 1..] == q
    ensures q != "" ==> Under(root, q) == root + "/" + q
  {
  }

  lemma RequestsResolve(text: Bytes)
    ensures Resolve(UpperCase, Disk(text), REQUESTS[0]) == Ok(First())
    ensures Resolve(UpperCase, Disk(text), REQUESTS[1]) == Ok(Second(text))
  {
    hide Subtree, Resolve;
    DirectoryResolves(text, "d", "a");
    DirectoryResolves(text, "dd", "A");
    SubtreesAre(text);
  }

  // ---- The copies -------------------------------------------------------------------------

  lemma FirstIsCopied(text: Bytes)
    ensures CopyStatic(UpperCase, Disk(text), First(), EMPTY) == Ok(STAGED)
  {
    hide IsAncestor, Canonical, DirsEnsured, SortedKeys, Clear, OnFileSystem;
    Names();
    D.OneName("a");
    StagedIsTree();
    PresentIsClear(UpperCase, STAGED, "a");
    assert Clear(UpperCase, EMPTY, "a") by {
      FewerAreClear();
    }
    assert CanMakeDirs(EMPTY, "a");
    DirsExact(UpperCase, EMPTY, "a");
    assert MakeDirs(EMPTY, "a") == STAGED;
    SingleKey({""}, "");
    assert First().source.Keys == {""};
    assert [""][..0] == [];
    assert CopyWalk(UpperCase, Disk(text), First(), STAGED, [""]) == Ok(STAGED);
  }

  lemma FewerAreClear()
    requires Clear(UpperCase, STAGED, "a")
    ensures Clear(UpperCase, EMPTY, "a")
  {
  }

  /** The prefix in the other case is the directory that is there, and the file is new in it. */
  lemma OtherCaseFinds()
    ensures DirsEnsured(UpperCase, STAGED, "A") == Some(STAGED)
    ensures Lookup(UpperCase, STAGED, "A/f") == Some("a/f") && Destination(UpperCase, STAGED, "A/f") == Some("a/f")
  {
    hide IsAncestor, Canonical, OnFileSystem, Lookup, Destination, SameName, NamedLike;
    Names();
    D.OneName("a");
    D.OneName("A");
    D.TwoNames("A", "f");
    StagedIsTree();
    RootIsNamed(UpperCase, STAGED);
    assert IsDir(STAGED, "a") && DirNamed(UpperCase, STAGED, "A");
    LookupFinds(UpperCase, STAGED, "A");
    LookupFinds(UpperCase, STAGED, "A/f");
    forall x | x in STAGED
      ensures !SameName(UpperCase, x, "A/f")
    {
      if SameName(UpperCase, x, "A/f") {
        SameNameLength(UpperCase, x, "A/f");
      }
    }
    assert !AnyNamed(UpperCase, STAGED, "A/f");
    FreshInA(Lookup(UpperCase, STAGED, "A/f").value);
    FreshInA(Destination(UpperCase, STAGED, "A/f").value);
  }

  lemma FreshInA(r: Path)
    requires NamedLike(UpperCase, STAGED, r, "A/f")
    ensures r == "a/f"
  {
    hide SameName;
    Names();
    D.TwoNames("A", "f");
    var b, g, s :| PlainSegments([s]) && IsDir(STAGED, b) && SameName(UpperCase, b, g)
                   && r == Under(b, s) && "A/f" == Under(g, s);
    assert Normal([s][0]) && '/' !in [s][0];
    ChildBelow(g, s);
    SameNameLength(UpperCase, b, g);
    assert "A/f" == "A" + "/" + s;
    assert s == "A/f"[2..] == "f";
  }

  lemma SecondIsDiverted(text: Bytes)
    ensures CopyStatic(UpperCase, Disk(text), Second(text), STAGED) == Ok(STAGED["a/f" := Regular(text, false, 1)])
  {
    hide IsAncestor, Canonical, DirsEnsured, SortedKeys, Lookup, Destination, Disk;
    Names();
    D.OneName("A");
    D.TwoNames("a", "f");
    D.TwoNames("A", "f");
    OtherCaseFinds();
    var m := Second(text);
    assert !Collides(UpperCase, STAGED, m);
    assert CopyEntry(UpperCase, Disk(text), m, STAGED, "f") == Ok(STAGED["a/f" := Regular(text, false, 1)]);
    assert Below("", "f");
    TwoKeys({"", "f"}, "", "f");
    assert m.source.Keys == {"", "f"};
    var walk := ["", "f"];
    assert walk[..1] == [""] && walk[..1][..0] == [];
    assert CopyWalk(UpperCase, Disk(text), m, STAGED, walk[..1]) == Ok(STAGED);
  }

  /** The call succeeds; the file is not where its mapping puts it, but below the other mapping's prefix. */
  lemma NameIsDiverted(text: Bytes)
    ensures OnFileSystem(UpperCase, Disk(text))
    ensures Package(UpperCase, Disk(text), REQUESTS) == Ok(STAGED["a/f" := Regular(text, false, 1)])
    ensures AllResolve(UpperCase, Disk(text), REQUESTS) && !Stageable(UpperCase, Disk(text), REQUESTS)
    ensures var ms := Mappings(UpperCase, Disk(text), REQUESTS);
            FileOfSome(ms, "A/f") && !FileOfSome(ms, "a/f") && !Detour(ms)
  {
    hide Resolve, CopyStatic, Disk, OnFileSystem, FilesOf, DirsOf, StageAll, SameName;
    Names();
    DiskIsTree(text);
    RequestsResolve(text);
    FirstIsCopied(text);
    SecondIsDiverted(text);
    StageBoth(text);
    var ms := Mappings(UpperCase, Disk(text), REQUESTS);
    assert ms == [First(), Second(text)];
    Places(text);
    assert FileOfSome(ms, "A/f");
    assert DirOfSome(ms, "a") && DirOfSome(ms, "A") by {
      assert "a" in DirsOf(ms[0]) && "A" in DirsOf(ms[1]);
    }
    assert "a" in StaticUnion.Names(ms) && "A" in StaticUnion.Names(ms);
  }

  lemma Places(text: Bytes)
    ensures FilesOf(First()) == {} && "a" in DirsOf(First())
    ensures FilesOf(Second(text)) == {"A/f"} && "A" in DirsOf(Second(text))
    ensures !LinkOf(First(), "A") && forall x :: !LinkOf(First(), x)
  {
    Names();
    var m := Second(text);
    assert IsLeaf(m.source, "f") && IsDir(m.source, "") && IsDir(First().source, "");
    assert Under("A", "f") == "A/f" && Under("A", "") == "A" && Under("a", "") == "a";
    assert Under("A", "f") in FilesOf(m) && Under("A", "") in DirsOf(m) && Under("a", "") in DirsOf(First());
  }

  lemma StageBoth(text: Bytes)
    requires Resolve(UpperCase, Disk(text), REQUESTS[0]) == Ok(First())
    requires Resolve(UpperCase, Disk(text), REQUESTS[1]) == Ok(Second(text))
    requires CopyStatic(UpperCase, Disk(text), First(), EMPTY) == Ok(STAGED)
    ensures StageAll(UpperCase, Disk(text), REQUESTS) == CopyStatic(UpperCase, Disk(text), Second(text), STAGED)
  {
    hide Resolve, CopyStatic, Disk;
    assert REQUESTS[..1] == [REQUESTS[0]] && REQUESTS[..1][..0] == [];
    assert StageAll(UpperCase, Disk(text), REQUESTS[..1]) == Ok(STAGED);
  }
}
