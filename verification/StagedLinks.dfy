/**
 Where staged links lead. A link that finds its way inside its own source tree leads, in the union, to
 the copy of what it led to. The check before staging asks for less: the way may leave the tree and
 come back by the name of its root, and such a link leads nowhere once it is staged at the top.
 */
module StagedLinks {
  import opened Wrappers
  import opened ByteStrings
  import opened Paths
  import opened FileTree
  import opened Spellings
  import opened StaticTrees
  import opened StaticCopy
  import opened StaticUnion
  import D = Diversion

  // ---- Links inside a tree ----------------------------------------------------------------

  lemma UnderAgain(prefix: Path, base: Path, s: string)
    requires s != ""
    ensures Under(Under(prefix, base), s) == Under(prefix, Under(base, s))
  {
    if prefix != "" && base != "" {
      assert prefix + "/" + base + "/" + s == prefix + "/" + (base + "/" + s);
    }
  }

  lemma SameNameUnder(up: Fold, prefix: Path, x: Path, y: Path)
    requires SameName(up, x, y)
    ensures SameName(up, Under(prefix, x), Under(prefix, y))
  {
    SameNameLength(up, x, y);
    var p, q := Under(prefix, x), Under(prefix, y);
    forall i | 0 <= i < |p|
      ensures up(p[i]) == up(q[i])
    {
      var skip := if prefix == "" || x == "" then |p| - |x| else |prefix| + 1;
      if i >= skip {
        assert Folded(up, x)[i - skip] == Folded(up, y)[i - skip];
      }
    }
    assert Folded(up, p) == Folded(up, q);
  }

  /** One step by name: the child in the source tree and the child in the union. */
  lemma ChildInUnion(up: Fold, m: Mapping, nodes: Nodes, base: Path, s: string)
    requires OnFileSystem(up, nodes) && InPlace(m, nodes) && s != ""
    requires Spelled(up, m.source, Under(base, s)) in m.source
    ensures var child := Spelled(up, m.source, Under(base, s));
            && Spelled(up, nodes, Under(Under(m.prefix, base), s)) == Under(m.prefix, child)
            && Under(m.prefix, child) in nodes && nodes[Under(m.prefix, child)] == CopyOf(m.source[child])
  {
    hide Spelled, Under, SameName, IsTree;
    var child, wanted := Spelled(up, m.source, Under(base, s)), Under(m.prefix, Under(base, s));
    UnderAgain(m.prefix, base, s);
    SameNameUnder(up, m.prefix, child, Under(base, s));
    SameNameIsSymmetric(up, Under(m.prefix, child), wanted);
    SpelledIs(up, nodes, wanted, Under(m.prefix, child));
    assert AnyNamed(up, nodes, Under(m.prefix, child));
    OneName(up, nodes, Spelled(up, nodes, wanted), Under(m.prefix, child));
  }

  lemma OneName(up: Fold, nodes: Nodes, x: Path, y: Path)
    requires OnFileSystem(up, nodes) && x in nodes && y in nodes && SameName(up, x, y)
    ensures x == y
  {
    assert x in NamesOf(nodes) && y in NamesOf(nodes);
  }

  /** A way inside the source tree is the same way in the union, below the prefix. */
  lemma {:induction false} WalkInUnion(
    up: Fold, m: Mapping, nodes: Nodes, base: Path, segments: seq<string>, last: bool, links: nat)
    requires IsTree(m.source) && OnFileSystem(up, nodes) && InPlace(m, nodes) && IsDir(m.source, base)
    requires Walk(up, m.source, base, segments, last, false, links).Some?
    requires Walk(up, m.source, base, segments, last, false, links).value in m.source
    ensures Walk(up, nodes, Under(m.prefix, base), segments, last, false, links)
         == Some(Under(m.prefix, Walk(up, m.source, base, segments, last, false, links).value))
    decreases links, |segments|
  {
    hide Spelled, Under, SameName, OnFileSystem, IsAncestor, Canonical, InPlace, Parent;
    if segments == [] {
    } else {
      var s, rest := segments[0], segments[1..];
      if s == "" || s == "." {
        WalkInUnion(up, m, nodes, base, rest, last, links);
      } else if s == ".." {
        ParentInTree(m, base);
        WalkInUnion(up, m, nodes, Parent(base), rest, last, links);
      } else {
        ChildInUnion(up, m, nodes, base, s);
        var child := Spelled(up, m.source, Under(base, s));
        match m.source[child] {
          case Directory(_) =>
            WalkInUnion(up, m, nodes, child, rest, last, links);
          case Regular(_, _, _) =>
          case Link(target, _, _) =>
            if rest != [] || last {
              WalkInUnion(up, m, nodes, base, Segments(Text(target)) + rest, last, links - 1);
            }
        }
      }
    }
  }

  lemma ParentInTree(m: Mapping, base: Path)
    requires IsTree(m.source) && base in m.source && base != ""
    ensures IsDir(m.source, Parent(base))
    ensures Under(m.prefix, base) != "" && Parent(Under(m.prefix, base)) == Under(m.prefix, Parent(base))
  {
    assert IsAncestor(Parent(base), base);
    CanonicalSegments(base);
    FirstIsNoSlash(base);
    ParentUnder(m.prefix, base);
  }

  lemma FirstIsNoSlash(p: Path)
    requires Canonical(p)
    ensures p != "" && p[0] != '/'
  {
    JoinOfSegments(p);
    CanonicalSegments(p);
    var s := Segments(p)[0];
    assert Normal(s) && '/' !in s && s != "";
    assert p[0] == s[0];
  }

  /** The link at p finds its way inside its own tree, to y. */
  predicate LeadsInside(up: Fold, m: Mapping, p: Path, y: Path)
    requires p != "" && p in m.source && m.source[p].Link?
  {
    && y in m.source
    && Walk(up, m.source, Parent(p), Segments(Text(m.source[p].target)), true, false, MAX_LINKS) == Some(y)
  }

  /** In the union such a link leads to the copy of what it led to. */
  lemma LinksLeadToCopies(up: Fold, ms: seq<Mapping>, nodes: Nodes, i: nat, p: Path, y: Path)
    requires IsUnion(ms, nodes) && OnFileSystem(up, nodes) && i < |ms| && IsTree(ms[i].source)
    requires p != "" && p in ms[i].source && ms[i].source[p].Link? && LeadsInside(up, ms[i], p, y)
    ensures var m, q := ms[i], Under(ms[i].prefix, p);
            && q in nodes && nodes[q] == CopyOf(m.source[p])
            && Walk(up, nodes, Under(m.prefix, Parent(p)), Segments(Text(nodes[q].target)), true, false, MAX_LINKS)
               == Some(Under(m.prefix, y))
            && Under(m.prefix, y) in nodes && nodes[Under(m.prefix, y)] == CopyOf(m.source[y])
  {
    hide Walk, Under, OnFileSystem, IsAncestor;
    var m := ms[i];
    assert InPlace(m, nodes);
    assert IsAncestor(Parent(p), p);
    WalkInUnion(up, m, nodes, Parent(p), Segments(Text(m.source[p].target)), true, MAX_LINKS);
  }

  // ---- A link that leaves and comes back --------------------------------------------------

  const WAY_BACK: string := "../R/x"
  const BACK: Node := Link([46, 46, 47, 82, 47, 120], false, 1)

  function Disk(text: Bytes): Nodes {
    map["" := Directory(PLAIN_MODE), "R" := Directory(PLAIN_MODE),
        "R/l" := BACK, "R/x" := Regular(text, false, 1)]
  }

  const REQUESTS: seq<StaticPath> := [StaticPath("R", "")]

  function Source(text: Bytes): Mapping {
    Mapping("", "R", map["" := Directory(PLAIN_MODE), "l" := BACK, "x" := Regular(text, false, 1)])
  }

  lemma Names()
    ensures D.PlainName("R") && D.PlainName("l") && D.PlainName("x")
    ensures "R" + "/" + "l" == "R/l" && "R" + "/" + "x" == "R/x"
    ensures Text(BACK.target) == WAY_BACK && Segments(WAY_BACK) == ["..", "R", "x"]
  {
    assert JoinSegments(["..", "R", "x"]) == WAY_BACK;
    SegmentsOfJoin(["..", "R", "x"]);
  }

  lemma SpelledExact(nodes: Nodes, p: Path)
    ensures Spelled(D.Exact, nodes, p) == p
  {
    D.ExactIsClear(nodes, p);
    ClearIsSpelled(D.Exact, nodes, p, p);
  }

  lemma DiskIsTree(text: Bytes)
    ensures OnFileSystem(D.Exact, Disk(text))
  {
    hide IsAncestor, Canonical, SameName, NamesDiffer;
    Names();
    D.OneName("R");
    D.TwoNames("R", "l");
    D.TwoNames("R", "x");
    NoneAbove();
    D.ExactDiffers(NamesOf(Disk(text)));
  }

  /** The way back leads into the source tree on the disk, so the link may be staged. */
  lemma WayBackStays(text: Bytes)
    ensures LinkStays(D.Exact, Disk(text), "R", "l", WAY_BACK)
    ensures Canonicalize(D.Exact, Disk(text), ["R"]) == Some("R")
  {
    hide Spelled, Segments, Canonical, IsAncestor, Parent, FollowLink;
    Names();
    D.OneName("R");
    D.OneName("l");
    D.TwoNames("R", "x");
    SpelledExact(Disk(text), "R");
    SpelledExact(Disk(text), "R/x");
    assert Under("R", "x") == "R/x" && Under("", "R") == "R";
    var way := ["R", "..", "R", "x"];
    assert ["R"] + ["..", "R", "x"] == way;
    assert way[1..] == ["..", "R", "x"] && way[1..][1..] == ["R", "x"];
    assert way[1..][1..][1..] == ["x"] && ["x"][1..] == [] && ["R"][1..] == [];
    assert Walk(D.Exact, Disk(text), "R", ["x"], true, true, MAX_LINKS) == Some("R/x");
    assert Walk(D.Exact, Disk(text), "", ["R", "x"], true, true, MAX_LINKS) == Some("R/x");
    assert Walk(D.Exact, Disk(text), "R", ["..", "R", "x"], true, true, MAX_LINKS) == Some("R/x");
  }

  lemma SourceIs(text: Bytes)
    ensures Resolve(D.Exact, Disk(text), REQUESTS[0]) == Ok(Source(text))
  {
    hide Canonicalize, Segments;
    Names();
    D.OneName("R");
    WayBackStays(text);
    SubtreeIs(text);
  }

  lemma SubtreeIs(text: Bytes)
    ensures Subtree(Disk(text), "R") == Source(text).source
  {
    hide Subtree, Under;
    var found := Subtree(Disk(text), "R");
    forall q
      ensures q in found <==> q == "" || q == "l" || q == "x"
    {
      BelowR(q);
    }
    BelowR("");
    BelowR("l");
    BelowR("x");
    assert found.Keys == {"", "l", "x"};
  }

  lemma BelowR(q: Path)
    ensures q == "" ==> Under("R", q) == "R"
    ensures q != "" ==> |Under("R", q)| > 1 && Under("R", q)[2..] == q
    ensures q == "l" ==> Under("R", q) == "R/l"
    ensures q == "x" ==> Under("R", q) == "R/x"
    ensures Under("R", q) == "R/l" ==> q == "l"
    ensures Under("R", q) == "R/x" ==> q == "x"
  {
    Names();
    assert "R/l"[2..] == "l" && "R/x"[2..] == "x";
  }

  /** The request is staged as it is, and then the link leads nowhere. */
  lemma WayBackIsLost(text: Bytes)
    ensures OnFileSystem(D.Exact, Disk(text)) && Stageable(D.Exact, Disk(text), REQUESTS)
    ensures var r := Package(D.Exact, Disk(text), REQUESTS);
            && r.Ok? && IsUnion([Source(text)], r.value)
            && "l" in r.value && r.value["l"] == BACK && Destination(D.Exact, r.value, "l") == None
  {
    hide Disk, Resolve, StageAll, OnFileSystem, LinkStays, IsUnion, Destination;
    DiskIsTree(text);
    SourceIs(text);
    WayBackStays(text);
    Names();
    D.OneName("l");
    var ms := Mappings(D.Exact, Disk(text), REQUESTS);
    assert ms == [Source(text)];
    D.ExactDiffers(StaticUnion.Names(ms));
    StageableIsStaged(D.Exact, Disk(text), REQUESTS);
    LeadsNowhere(text, Package(D.Exact, Disk(text), REQUESTS).value);
  }

  lemma LeadsNowhere(text: Bytes, nodes: Nodes)
    requires IsUnion([Source(text)], nodes)
    ensures "l" in nodes && nodes["l"] == BACK && Destination(D.Exact, nodes, "l") == None
  {
    hide Spelled, Canonical, IsAncestor, Segments;
    var m := Source(text);
    assert InPlace([m][0], nodes) && "l" in m.source && Under("", "l") == "l";
    Names();
    D.OneName("l");
    SpelledExact(nodes, "l");
    assert ["l"][1..] == [] && ["..", "R", "x"] + [] == ["..", "R", "x"];
  }
}
