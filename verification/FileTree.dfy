/**
 A directory on a file system: files, links and directories, where everything on the way to an entry
 is a directory. Names may be found whatever their case, and operations follow links; they fail where
 the operating system's do.
 */
module FileTree {
  import opened Wrappers
  import opened ByteStrings
  import opened Paths

  datatype Node =
    | Directory(mode: bv32)
    | Regular(bytes: Bytes, executable: bool, hardLinks: nat)
    | Link(target: Bytes, executable: bool, hardLinks: nat)

  type Nodes = map<Path, Node>

  predicate IsDir(nodes: Nodes, p: Path) {
    p in nodes && nodes[p].Directory?
  }

  /** Present and not a directory. */
  predicate IsLeaf(nodes: Nodes, p: Path) {
    p in nodes && !nodes[p].Directory?
  }

  predicate Named(p: Path) {
    p == "" || Canonical(p)
  }

  ghost predicate IsTree(nodes: Nodes) {
    && IsDir(nodes, "")
    && (forall p :: p in nodes ==> Named(p))
    && forall p, a :: p in nodes && IsAncestor(a, p) ==> IsDir(nodes, a)
  }

  /** The mode of a directory an operation makes, and what Windows reports for every directory. */
  const PLAIN_MODE: bv32 := 0

  /** What Windows reports: one directory mode, no executable bit, one link. */
  predicate Plain(node: Node) {
    match node
    case Directory(mode) => mode == PLAIN_MODE
    case Regular(_, executable, links) => !executable && links == 1
    case Link(_, executable, links) => !executable && links == 1
  }

  predicate PlainTree(nodes: Nodes) {
    forall p :: p in nodes ==> Plain(nodes[p])
  }

  // ---- Names and case ---------------------------------------------------------------------

  /** How a file system folds characters when it compares names; the identity if it does not. */
  type Fold = char -> char

  ghost predicate IsFold(up: Fold) {
    forall c :: up(c) == '/' <==> c == '/'
  }

  function Folded(up: Fold, p: Path): (r: Path)
    ensures |r| == |p| && forall i :: 0 <= i < |p| ==> r[i] == up(p[i])
  {
    seq(|p|, i requires 0 <= i < |p| => up(p[i]))
  }

  predicate SameName(up: Fold, p: Path, q: Path) {
    Folded(up, p) == Folded(up, q)
  }

  /** No two entries differ only in what the file system folds. */
  ghost predicate NamesDiffer(up: Fold, names: iset<Path>) {
    forall p, q :: p in names && q in names && SameName(up, p, q) ==> p == q
  }

  ghost function NamesOf(nodes: Nodes): iset<Path> {
    iset p | p in nodes
  }

  ghost predicate OnFileSystem(up: Fold, nodes: Nodes) {
    IsTree(nodes) && NamesDiffer(up, NamesOf(nodes))
  }

  /** The entry that a name denotes as it is spelled there, or the name itself when there is none. */
  function Spelled(up: Fold, nodes: Nodes, p: Path): (r: Path)
    ensures SameName(up, r, p)
    ensures r in nodes || (r == p && forall x :: x in nodes ==> !SameName(up, x, p))
  {
    var same := set x | x in nodes && SameName(up, x, p);
    assert forall x :: x in nodes && SameName(up, x, p) ==> x in same;
    if same == {} then p
    else
      var r := SortedKeys(same)[0];
      assert r in SortedKeys(same);
      r
  }

  /** Some entry differs from p, or from a directory on the way to p, only in what is folded. */
  ghost predicate Alias(up: Fold, x: Path, p: Path) {
    exists a :: (a == p || IsAncestor(a, p)) && SameName(up, x, a) && x != a
  }

  ghost predicate Clear(up: Fold, nodes: Nodes, p: Path) {
    forall x :: x in nodes ==> !Alias(up, x, p)
  }

  lemma SameNameAncestor(up: Fold, x: Path, p: Path, a: Path)
    requires IsFold(up) && SameName(up, x, p) && IsAncestor(a, p)
    ensures IsAncestor(x[..|a|], x) && SameName(up, x[..|a|], a)
  {
    var f := Folded(up, x);
    assert f == Folded(up, p);
    if a != "" {
      assert f[|a|] == up(p[|a|]) == up('/');
      assert p[..|a|] == a;
      forall i | 0 <= i < |a|
        ensures Folded(up, x[..|a|])[i] == Folded(up, a)[i]
      {
        assert f[i] == up(x[i]) && f[i] == up(p[i]);
      }
    }
  }

  /** What is present has no alias. */
  lemma PresentIsClear(up: Fold, nodes: Nodes, p: Path)
    requires OnFileSystem(up, nodes) && p in nodes
    ensures Clear(up, nodes, p)
  {
    hide IsAncestor, SameName;
    forall x, a | x in nodes && (a == p || IsAncestor(a, p)) && SameName(up, x, a)
      ensures x == a
    {
      assert IsAncestor(a, p) ==> IsDir(nodes, a);
      assert x in NamesOf(nodes) && a in NamesOf(nodes);
    }
  }

  // ---- Where a path leads -----------------------------------------------------------------

  /** How many links one resolution may follow. */
  const MAX_LINKS: nat := 40

  /** Link texts are bytes, and names spell one character per byte. */
  function Text(bytes: Bytes): (r: string)
    ensures |r| == |bytes|
  {
    seq(|bytes|, i requires 0 <= i < |bytes| => bytes[i] as char)
  }

  /**
   Follow the segments from a directory, links included; the last entry itself may be missing, and is
   followed only on request. `whole` says that the tree is all there is: its root is its own parent
   and absolute links start there; otherwise a path that leaves the tree leads nowhere.
   */
  function Walk(up: Fold, nodes: Nodes, base: Path, segments: seq<string>, last: bool, whole: bool, links: nat)
    : Option<Path>
    decreases links, |segments|
  {
    if segments == [] then Some(base)
    else
      var s, rest := segments[0], segments[1..];
      if s == "" || s == "." then Walk(up, nodes, base, rest, last, whole, links)
      else if s == ".." then
        if base != "" then Walk(up, nodes, Parent(base), rest, last, whole, links)
        else if whole then Walk(up, nodes, "", rest, last, whole, links)
        else None
      else
        var child := Spelled(up, nodes, Under(base, s));
        if child !in nodes then if rest == [] then Some(child) else None
        else
          match nodes[child]
          case Directory(_) => Walk(up, nodes, child, rest, last, whole, links)
          case Regular(_, _, _) => if rest == [] then Some(child) else None
          case Link(target, _, _) =>
            if rest == [] && !last then Some(child)
            else if links == 0 then None
            else FollowLink(up, nodes, base, Text(target), rest, last, whole, links)
  }

  function FollowLink(
    up: Fold, nodes: Nodes, base: Path, text: string, rest: seq<string>, last: bool, whole: bool, links: nat)
    : Option<Path>
    requires links > 0
    decreases links, 0
  {
    if text == "" || text[0] != '/' then Walk(up, nodes, base, Segments(text) + rest, last, whole, links - 1)
    else if whole then Walk(up, nodes, "", Segments(text) + rest, last, whole, links - 1)
    else None
  }

  /** The entry a path names, which may be a link or missing. */
  function Lookup(up: Fold, nodes: Nodes, p: Path): Option<Path> {
    Walk(up, nodes, "", Segments(p), false, false, MAX_LINKS)
  }

  /** The same with a final link followed. */
  function Destination(up: Fold, nodes: Nodes, p: Path): Option<Path> {
    Walk(up, nodes, "", Segments(p), true, false, MAX_LINKS)
  }

  predicate Exists(up: Fold, nodes: Nodes, p: Path) {
    Lookup(up, nodes, p).Some? && Lookup(up, nodes, p).value in nodes
  }

  predicate LeadsToDir(up: Fold, nodes: Nodes, p: Path) {
    Destination(up, nodes, p).Some? && IsDir(nodes, Destination(up, nodes, p).value)
  }

  /** Walking down from a directory by plain names. */
  function Descend(base: Path, segments: seq<string>): Path
    decreases |segments|
  {
    if segments == [] then base else Descend(Under(base, segments[0]), segments[1..])
  }

  predicate PlainSegments(segments: seq<string>) {
    forall i :: 0 <= i < |segments| ==> Normal(segments[i]) && '/' !in segments[i]
  }

  lemma CanonicalSegments(p: Path)
    requires Canonical(p)
    ensures PlainSegments(Segments(p)) && Descend("", Segments(p)) == p && p != ""
  {
    JoinOfSegments(p);
    DescendJoins("", Segments(p));
    assert Segments(p)[0] != "";
  }

  lemma {:induction false} DescendJoins(base: Path, segments: seq<string>)
    requires PlainSegments(segments) && segments != []
    ensures Descend(base, segments) == Under(base, JoinSegments(segments))
    decreases |segments|
  {
    assert Normal(segments[0]);
    if |segments| == 1 {
      assert segments[1..] == [];
    } else {
      DescendJoins(Under(base, segments[0]), segments[1..]);
      assert Normal(segments[1..][0]);
      JoinIsNotEmpty(segments[1..]);
      UnderTwice(base, segments[0], JoinSegments(segments[1..]));
    }
  }

  lemma JoinIsNotEmpty(segments: seq<string>)
    requires segments != [] && segments[0] != ""
    ensures JoinSegments(segments) != ""
  {
  }

  lemma UnderTwice(base: Path, s: string, more: string)
    requires s != "" && more != ""
    ensures Under(Under(base, s), more) == Under(base, s + "/" + more)
  {
    assert base + "/" + s + "/" + more == base + "/" + (s + "/" + more);
  }

  /** Every directory passed while descending is on the way to where one arrives. */
  lemma {:induction false} DescendPasses(base: Path, segments: seq<string>)
    requires PlainSegments(segments) && segments != []
    ensures Descend(base, segments) != "" && IsAncestor(base, Descend(base, segments))
    decreases |segments|
  {
    var next := Under(base, segments[0]);
    assert Normal(segments[0]);
    ChildBelow(base, segments[0]);
    if |segments| == 1 {
      assert segments[1..] == [];
    } else {
      DescendPasses(next, segments[1..]);
      AncestorsNest(base, next, Descend(next, segments[1..]));
    }
  }

  lemma ChildBelow(base: Path, s: string)
    requires s != "" && '/' !in s
    ensures Under(base, s) != "" && IsAncestor(base, Under(base, s)) && Parent(Under(base, s)) == base
  {
    var child := Under(base, s);
    if base != "" {
      assert child[..|base|] == base;
    }
    assert IsAncestor(base, child);
    ParentIsNearest(base, child);
    ChildAncestors(base, s, Parent(child));
  }

  lemma ChildAncestors(base: Path, s: string, a: Path)
    requires s != "" && '/' !in s && IsAncestor(a, Under(base, s))
    ensures |a| <= |base|
  {
    var child := Under(base, s);
    var skip := if base == "" then 0 else |base| + 1;
    assert child[skip..] == s;
    assert |a| >= skip ==> child[|a|] == s[|a| - skip];
  }

  lemma ChildIsNamed(base: Path, s: string)
    requires Named(base) && Normal(s) && '/' !in s
    ensures Canonical(Under(base, s))
  {
    if base == "" {
      SegmentsOfJoin([s]);
    } else {
      var segments := Segments(base) + [s];
      JoinOfSegments(base);
      JoinOneMore(Segments(base), s);
      assert JoinSegments(segments) == Under(base, s) by {
        assert base != "" && s != "";
      }
      SegmentsOfJoin(segments);
    }
  }

  lemma {:induction false} JoinOneMore(segments: seq<string>, s: string)
    requires segments != []
    ensures JoinSegments(segments + [s]) == JoinSegments(segments) + "/" + s
    decreases |segments|
  {
    assert (segments + [s])[1..] == segments[1..] + [s];
    if |segments| == 1 {
      assert segments[1..] + [s] == [s];
    } else {
      JoinOneMore(segments[1..], s);
      assert segments[0] + "/" + (JoinSegments(segments[1..]) + "/" + s)
          == segments[0] + "/" + JoinSegments(segments[1..]) + "/" + s;
    }
  }

  lemma SegmentsHaveNoSlash(s: string)
    ensures forall i :: 0 <= i < |Segments(s)| ==> '/' !in Segments(s)[i]
  {
  }

  // ---- Resolution that finds what is spelled ----------------------------------------------

  lemma NextIsBelow(base: Path, segments: seq<string>)
    requires PlainSegments(segments) && segments != []
    ensures var next, full := Under(base, segments[0]), Descend(base, segments);
            && next != "" && |next| > |base|
            && (if |segments| == 1 then next == full else IsAncestor(next, full))
  {
    assert Normal(segments[0]);
    ChildBelow(base, segments[0]);
    if |segments| > 1 {
      DescendPasses(Under(base, segments[0]), segments[1..]);
    }
  }

  lemma ClearIsSpelled(up: Fold, nodes: Nodes, p: Path, a: Path)
    requires Clear(up, nodes, p) && (a == p || IsAncestor(a, p))
    ensures Spelled(up, nodes, a) == a
  {
    hide Spelled;
    var x := Spelled(up, nodes, a);
    assert x in nodes ==> !Alias(up, x, p);
  }

  /** Where every directory on the way is there under its own name, a path leads to itself. */
  lemma {:induction false} WalkExact(
    up: Fold, nodes: Nodes, base: Path, segments: seq<string>, last: bool, whole: bool, links: nat)
    requires PlainSegments(segments) && segments != []
    requires Clear(up, nodes, Descend(base, segments))
    requires forall a :: IsAncestor(a, Descend(base, segments)) && |a| > |base| ==> IsDir(nodes, a)
    requires last && Descend(base, segments) in nodes ==> !nodes[Descend(base, segments)].Link?
    ensures Walk(up, nodes, base, segments, last, whole, links) == Some(Descend(base, segments))
    decreases |segments|
  {
    hide Spelled, Clear, IsAncestor, Under, FollowLink;
    var next, full := Under(base, segments[0]), Descend(base, segments);
    assert Normal(segments[0]);
    NextIsBelow(base, segments);
    ClearIsSpelled(up, nodes, full, next);
    if |segments| == 1 {
      assert segments[1..] == [];
    } else {
      WalkExact(up, nodes, next, segments[1..], last, whole, links);
    }
  }

  /** Between a directory and a path below it, whatever is deeper than the directory is past its child. */
  lemma DeeperIsBelow(base: Path, s: string, full: Path, a: Path)
    requires s != "" && '/' !in s && (Under(base, s) == full || IsAncestor(Under(base, s), full))
    requires IsAncestor(a, full) && |a| > |base|
    ensures a == Under(base, s) || IsAncestor(Under(base, s), a)
  {
    hide IsAncestor, Under;
    var next := Under(base, s);
    if next != full {
      AncestorsAlign(next, a, full);
    }
    if IsAncestor(a, next) {
      ChildAncestors(base, s, a);
    }
  }

  /** Where a directory on the way is missing, or a file, a path leads nowhere. */
  lemma {:induction false} WalkStops(
    up: Fold, nodes: Nodes, base: Path, segments: seq<string>, last: bool, whole: bool, links: nat, stop: Path)
    requires PlainSegments(segments) && segments != []
    requires Clear(up, nodes, Descend(base, segments))
    requires IsAncestor(stop, Descend(base, segments)) && |stop| > |base|
    requires stop in nodes ==> nodes[stop].Regular?
    requires forall a :: IsAncestor(a, stop) && |a| > |base| ==> IsDir(nodes, a)
    ensures Walk(up, nodes, base, segments, last, whole, links) == None
    decreases |segments|
  {
    hide Spelled, Clear, IsAncestor, Under, FollowLink;
    var next, full := Under(base, segments[0]), Descend(base, segments);
    assert Normal(segments[0]);
    NextIsBelow(base, segments);
    ClearIsSpelled(up, nodes, full, next);
    DeeperIsBelow(base, segments[0], full, stop);
    AncestorIsShorter(stop, full);
    if IsAncestor(next, stop) {
      AncestorIsShorter(next, stop);
      WalkStops(up, nodes, next, segments[1..], last, whole, links, stop);
    }
  }

  /** Resolution ends at something that is there, or in a directory under a name nothing there has. */
  ghost predicate Lands(up: Fold, nodes: Nodes, y: Path) {
    y in nodes
    || (y != "" && Canonical(y) && IsDir(nodes, Parent(y)) && forall x :: x in nodes ==> !SameName(up, x, y))
  }

  lemma {:induction false} WalkLands(
    up: Fold, nodes: Nodes, base: Path, segments: seq<string>, last: bool, whole: bool, links: nat)
    requires IsTree(nodes) && IsDir(nodes, base)
    requires forall i :: 0 <= i < |segments| ==> '/' !in segments[i]
    ensures var r := Walk(up, nodes, base, segments, last, whole, links); r.Some? ==> Lands(up, nodes, r.value)
    decreases links, |segments|
  {
    hide Spelled, IsAncestor, Under, Canonical;
    if segments == [] {
    } else {
      var s, rest := segments[0], segments[1..];
      if s == "" || s == "." {
        WalkLands(up, nodes, base, rest, last, whole, links);
      } else if s == ".." {
        WalkLands(up, nodes, if base != "" then Parent(base) else "", rest, last, whole, links);
      } else {
        ChildBelow(base, s);
        ChildIsNamed(base, s);
        var child := Spelled(up, nodes, Under(base, s));
        if IsDir(nodes, child) {
          WalkLands(up, nodes, child, rest, last, whole, links);
        } else if child in nodes && nodes[child].Link? && links > 0 {
          var text := Text(nodes[child].target);
          SegmentsHaveNoSlash(text);
          var on := if text != "" && text[0] == '/' then "" else base;
          WalkLands(up, nodes, on, Segments(text) + rest, last, whole, links - 1);
        }
      }
    }
  }

  // ---- Operations -------------------------------------------------------------------------

  /** The file can be written: its directory exists, and no directory or link is in the way. */
  predicate CanWrite(nodes: Nodes, p: Path) {
    p != "" && IsDir(nodes, Parent(p)) && (p in nodes ==> nodes[p].Regular?)
  }

  /** No file or link stands where a directory is wanted. */
  predicate CanMakeDirs(nodes: Nodes, p: Path) {
    !IsLeaf(nodes, p) && forall a :: a in Ancestors(p) ==> !IsLeaf(nodes, a)
  }

  function MakeDirs(nodes: Nodes, p: Path): Nodes {
    map a | a in nodes.Keys + Ancestors(p) + {p} :: if a in nodes then nodes[a] else Directory(PLAIN_MODE)
  }

  /** Removing a file or a link; a link is not followed. */
  function Removed(up: Fold, nodes: Nodes, p: Path): Option<Nodes> {
    match Lookup(up, nodes, p)
    case Some(x) => if IsLeaf(nodes, x) then Some(nodes - {x}) else None
    case None => None
  }

  /** One new entry under a name that is free. */
  function Added(up: Fold, nodes: Nodes, p: Path, node: Node): Option<Nodes> {
    match Lookup(up, nodes, p)
    case Some(x) => if x in nodes then None else Some(nodes[x := node])
    case None => None
  }

  /** A directory, unless the path leads to one already. */
  function DirEnsured(up: Fold, nodes: Nodes, p: Path): Option<Nodes> {
    if LeadsToDir(up, nodes, p) then Some(nodes) else Added(up, nodes, p, Directory(PLAIN_MODE))
  }

  /** A directory and, where they are missing, those on the way to it. */
  function DirsEnsured(up: Fold, nodes: Nodes, p: Path): Option<Nodes>
    decreases |p|
  {
    match DirEnsured(up, nodes, p)
    case Some(made) => Some(made)
    case None =>
      if p == "" then None
      else
        match DirsEnsured(up, nodes, Parent(p))
        case None => None
        case Some(made) => DirEnsured(up, made, p)
  }

  /** What is there after trying: a call that fails may have made some of the directories. */
  function DirsLeft(up: Fold, nodes: Nodes, p: Path): Nodes
    decreases |p|
  {
    match DirEnsured(up, nodes, p)
    case Some(made) => made
    case None =>
      if p == "" then nodes
      else
        match DirsEnsured(up, nodes, Parent(p))
        case None => DirsLeft(up, nodes, Parent(p))
        case Some(made) =>
          var more := DirEnsured(up, made, p);
          if more.Some? then more.value else made
  }

  /** Writing a file, through a link if one is there. */
  function Placed(up: Fold, nodes: Nodes, p: Path, file: Node): Option<Nodes> {
    match Destination(up, nodes, p)
    case Some(y) => if CanWrite(nodes, y) then Some(nodes[y := file]) else None
    case None => None
  }

  lemma LookupLands(up: Fold, nodes: Nodes, p: Path)
    requires IsTree(nodes)
    ensures Lookup(up, nodes, p).Some? ==> Lands(up, nodes, Lookup(up, nodes, p).value)
    ensures Destination(up, nodes, p).Some? ==> Lands(up, nodes, Destination(up, nodes, p).value)
  {
    hide Walk, Lands;
    SegmentsHaveNoSlash(p);
    WalkLands(up, nodes, "", Segments(p), false, false, MAX_LINKS);
    WalkLands(up, nodes, "", Segments(p), true, false, MAX_LINKS);
  }

  lemma RemoveKeepsTree(up: Fold, nodes: Nodes, p: Path)
    requires OnFileSystem(up, nodes) && IsLeaf(nodes, p)
    ensures OnFileSystem(up, nodes - {p})
  {
    hide IsAncestor, SameName;
    var after := nodes - {p};
    forall q, a | q in after && IsAncestor(a, q)
      ensures IsDir(after, a)
    {
      assert IsDir(nodes, a);
    }
    forall x, y | x in NamesOf(after) && y in NamesOf(after) && SameName(up, x, y)
      ensures x == y
    {
      assert x in NamesOf(nodes) && y in NamesOf(nodes);
    }
  }

  lemma AddKeepsTree(up: Fold, nodes: Nodes, p: Path, node: Node)
    requires OnFileSystem(up, nodes) && Lands(up, nodes, p) && p !in nodes
    ensures OnFileSystem(up, nodes[p := node])
  {
    hide IsAncestor, SameName, Canonical;
    var after := nodes[p := node];
    forall q, a | q in after && IsAncestor(a, q)
      ensures IsDir(after, a)
    {
      if q == p {
        ParentIsNearest(a, p);
      }
      assert IsDir(nodes, a);
    }
    forall x, y | x in NamesOf(after) && y in NamesOf(after) && SameName(up, x, y)
      ensures x == y
    {
      SameNameIsSymmetric(up, x, y);
      assert x != p ==> x in NamesOf(nodes);
      assert y != p ==> y in NamesOf(nodes);
    }
  }

  lemma SameNameIsSymmetric(up: Fold, x: Path, y: Path)
    ensures SameName(up, x, y) <==> SameName(up, y, x)
  {
  }

  lemma WriteKeepsTree(up: Fold, nodes: Nodes, p: Path, file: Node)
    requires OnFileSystem(up, nodes) && Lands(up, nodes, p) && CanWrite(nodes, p) && file.Regular?
    ensures OnFileSystem(up, nodes[p := file])
  {
    hide IsAncestor, SameName, Canonical;
    if p !in nodes {
      AddKeepsTree(up, nodes, p, file);
    } else {
      var after := nodes[p := file];
      assert NamesOf(after) == NamesOf(nodes);
      forall q, a | q in after && IsAncestor(a, q)
        ensures IsDir(after, a)
      {
        assert IsDir(nodes, a);
      }
    }
  }

  /** Every operation leaves a tree whose names still differ. */
  lemma OperationsKeepTree(up: Fold, nodes: Nodes, p: Path, node: Node)
    requires OnFileSystem(up, nodes)
    ensures Removed(up, nodes, p).Some? ==> OnFileSystem(up, Removed(up, nodes, p).value)
    ensures Added(up, nodes, p, node).Some? ==> OnFileSystem(up, Added(up, nodes, p, node).value)
    ensures DirEnsured(up, nodes, p).Some? ==> OnFileSystem(up, DirEnsured(up, nodes, p).value)
    ensures node.Regular? && Placed(up, nodes, p, node).Some? ==> OnFileSystem(up, Placed(up, nodes, p, node).value)
  {
    hide Lookup, Destination, Lands, IsTree, NamesDiffer, IsAncestor, LeadsToDir;
    LookupLands(up, nodes, p);
    match Lookup(up, nodes, p) {
      case Some(x) =>
        if IsLeaf(nodes, x) {
          RemoveKeepsTree(up, nodes, x);
        }
        if x !in nodes {
          AddKeepsTree(up, nodes, x, node);
          AddKeepsTree(up, nodes, x, Directory(PLAIN_MODE));
        }
      case None =>
    }
    match Destination(up, nodes, p) {
      case Some(y) =>
        if node.Regular? && CanWrite(nodes, y) {
          WriteKeepsTree(up, nodes, y, node);
        }
      case None =>
    }
  }

  lemma {:induction false} DirsKeepTree(up: Fold, nodes: Nodes, p: Path)
    requires OnFileSystem(up, nodes)
    ensures DirsEnsured(up, nodes, p).Some? ==> OnFileSystem(up, DirsEnsured(up, nodes, p).value)
    ensures OnFileSystem(up, DirsLeft(up, nodes, p))
    ensures DirsEnsured(up, nodes, p).Some? ==> DirsLeft(up, nodes, p) == DirsEnsured(up, nodes, p).value
    decreases |p|
  {
    hide OnFileSystem, DirEnsured, IsAncestor;
    OperationsKeepTree(up, nodes, p, Directory(PLAIN_MODE));
    if p == "" {
    } else {
      AncestorIsShorter(Parent(p), p);
      DirsKeepTree(up, nodes, Parent(p));
      var made := DirsEnsured(up, nodes, Parent(p));
      if made.Some? {
        OperationsKeepTree(up, made.value, p, Directory(PLAIN_MODE));
      }
    }
  }

  // ---- Operations on what is spelled ------------------------------------------------------

  /** Every directory on the way to p is there. */
  ghost predicate WayIsThere(nodes: Nodes, p: Path) {
    forall a :: IsAncestor(a, p) ==> IsDir(nodes, a)
  }

  lemma LookupExact(up: Fold, nodes: Nodes, p: Path)
    requires Canonical(p) && Clear(up, nodes, p) && WayIsThere(nodes, p)
    ensures Lookup(up, nodes, p) == Some(p)
    ensures (p in nodes ==> !nodes[p].Link?) ==> Destination(up, nodes, p) == Some(p)
  {
    hide Walk, Clear, IsAncestor, Canonical, PlainSegments;
    CanonicalSegments(p);
    assert Segments(p) != [];
    WalkExact(up, nodes, "", Segments(p), false, false, MAX_LINKS);
    if p in nodes ==> !nodes[p].Link? {
      WalkExact(up, nodes, "", Segments(p), true, false, MAX_LINKS);
    }
  }

  lemma LookupStops(up: Fold, nodes: Nodes, p: Path, stop: Path)
    requires Canonical(p) && Clear(up, nodes, p)
    requires stop != "" && IsAncestor(stop, p) && (stop in nodes ==> nodes[stop].Regular?) && WayIsThere(nodes, stop)
    ensures Lookup(up, nodes, p) == None && Destination(up, nodes, p) == None
  {
    hide Walk, Clear, IsAncestor, Canonical, PlainSegments;
    CanonicalSegments(p);
    assert Segments(p) != [];
    WalkStops(up, nodes, "", Segments(p), false, false, MAX_LINKS, stop);
    WalkStops(up, nodes, "", Segments(p), true, false, MAX_LINKS, stop);
  }

  lemma RootLeads(up: Fold, nodes: Nodes)
    requires IsDir(nodes, "")
    ensures LeadsToDir(up, nodes, "")
  {
    assert Segments("") == [""] && [""][1..] == [];
    assert Walk(up, nodes, "", [], true, false, MAX_LINKS) == Some("");
  }

  lemma {:induction false} FirstMissing(nodes: Nodes, p: Path) returns (stop: Path)
    requires IsTree(nodes) && p != "" && p !in nodes
    requires forall a :: IsAncestor(a, p) ==> !IsLeaf(nodes, a)
    ensures (stop == p || IsAncestor(stop, p)) && stop != "" && stop !in nodes && WayIsThere(nodes, stop)
    decreases |p|
  {
    hide IsAncestor;
    var parent := Parent(p);
    forall a | IsAncestor(a, p)
      ensures a == parent || IsAncestor(a, parent)
    {
      ParentIsNearest(a, p);
    }
    if parent in nodes {
      stop := p;
    } else {
      AncestorIsShorter(parent, p);
      forall a | IsAncestor(a, parent)
        ensures !IsLeaf(nodes, a)
      {
        AncestorsNest(a, parent, p);
      }
      stop := FirstMissing(nodes, parent);
      assert stop != parent ==> IsAncestor(stop, p) by {
        if IsAncestor(stop, parent) {
          AncestorsNest(stop, parent, p);
        }
      }
    }
  }

  lemma SamePrefix(p: Path, a: Path, b: Path)
    requires a == p || IsAncestor(a, p)
    requires b == p || IsAncestor(b, p)
    requires |a| == |b|
    ensures a == b
  {
    assert p[..|a|] == a && p[..|b|] == b;
  }

  lemma SameNameLength(up: Fold, x: Path, y: Path)
    requires SameName(up, x, y)
    ensures |x| == |y|
  {
  }

  /** New entries on the way to p do not alias it. */
  lemma ClearGrows(up: Fold, nodes: Nodes, more: Nodes, p: Path)
    requires Clear(up, nodes, p)
    requires forall x :: x in more ==> x in nodes || x == p || IsAncestor(x, p)
    ensures Clear(up, more, p)
  {
    hide IsAncestor, SameName;
    forall x, a | x in more && (a == p || IsAncestor(a, p)) && SameName(up, x, a)
      ensures x == a
    {
      SameNameLength(up, x, a);
      if x in nodes {
        assert !Alias(up, x, p);
      } else {
        SamePrefix(p, x, a);
      }
    }
  }

  lemma ClearOnTheWay(up: Fold, nodes: Nodes, p: Path, a: Path)
    requires Clear(up, nodes, p) && IsAncestor(a, p)
    ensures Clear(up, nodes, a)
  {
    hide IsAncestor, SameName;
    forall x, b | x in nodes && (b == a || IsAncestor(b, a)) && SameName(up, x, b)
      ensures x == b
    {
      if IsAncestor(b, a) {
        AncestorsNest(b, a, p);
      }
      assert !Alias(up, x, p);
    }
  }

  lemma NamedOnTheWay(nodes: Nodes, p: Path)
    requires IsTree(nodes) && p in nodes && p != ""
    ensures Canonical(p) && WayIsThere(nodes, p)
  {
  }

  /** A directory that is there is found, and nothing is made. */
  lemma DirIsThere(up: Fold, nodes: Nodes, p: Path)
    requires OnFileSystem(up, nodes) && IsDir(nodes, p)
    ensures LeadsToDir(up, nodes, p)
    ensures DirEnsured(up, nodes, p) == Some(nodes) && DirsEnsured(up, nodes, p) == Some(nodes)
  {
    hide Lookup, Destination, IsAncestor, Canonical, Clear;
    if p == "" {
      RootLeads(up, nodes);
    } else {
      PresentIsClear(up, nodes, p);
      NamedOnTheWay(nodes, p);
      LookupExact(up, nodes, p);
    }
  }

  /** A free name in a directory that is there is the one that is taken. */
  lemma AddedExact(up: Fold, nodes: Nodes, p: Path, node: Node)
    requires Canonical(p) && Clear(up, nodes, p) && WayIsThere(nodes, p) && p !in nodes
    ensures Added(up, nodes, p, node) == Some(nodes[p := node])
    ensures DirEnsured(up, nodes, p) == Some(nodes[p := Directory(PLAIN_MODE)])
    ensures !Exists(up, nodes, p)
  {
    hide Lookup, Destination, IsAncestor, Canonical, Clear;
    LookupExact(up, nodes, p);
  }

  lemma RemovedExact(up: Fold, nodes: Nodes, p: Path)
    requires OnFileSystem(up, nodes) && IsLeaf(nodes, p)
    ensures Removed(up, nodes, p) == Some(nodes - {p})
    ensures Exists(up, nodes, p)
  {
    hide Lookup, Destination, IsAncestor, Canonical, Clear;
    PresentIsClear(up, nodes, p);
    NamedOnTheWay(nodes, p);
    LookupExact(up, nodes, p);
  }

  lemma PlacedExact(up: Fold, nodes: Nodes, p: Path, file: Node)
    requires Canonical(p) && Clear(up, nodes, p) && WayIsThere(nodes, p)
    requires p in nodes ==> nodes[p].Regular?
    ensures Placed(up, nodes, p, file) == Some(nodes[p := file])
  {
    hide Lookup, Destination, Canonical, Clear, IsAncestor;
    LookupExact(up, nodes, p);
    CanonicalSegments(p);
    assert IsAncestor(Parent(p), p);
  }

  lemma MakeDirsIsThere(up: Fold, nodes: Nodes, p: Path)
    requires OnFileSystem(up, nodes) && IsDir(nodes, p)
    ensures MakeDirs(nodes, p) == nodes
  {
    hide IsAncestor;
    assert forall a :: a in Ancestors(p) ==> IsDir(nodes, a);
  }

  lemma MakeDirsOne(nodes: Nodes, p: Path)
    requires p != "" && p !in nodes
    ensures MakeDirs(nodes, p) == MakeDirs(nodes, Parent(p))[p := Directory(PLAIN_MODE)]
    ensures p !in MakeDirs(nodes, Parent(p))
    ensures forall x :: x in MakeDirs(nodes, Parent(p)) ==> x in nodes || IsAncestor(x, p)
  {
    hide IsAncestor;
    forall a
      ensures IsAncestor(a, p) <==> a == Parent(p) || IsAncestor(a, Parent(p))
    {
      if IsAncestor(a, p) {
        ParentIsNearest(a, p);
      }
      if IsAncestor(a, Parent(p)) {
        AncestorsNest(a, Parent(p), p);
      }
    }
    NotOwnAncestor(p);
    var made := MakeDirs(nodes, Parent(p));
    assert MakeDirs(nodes, p).Keys == made.Keys + {p};
  }

  lemma WayIsMade(nodes: Nodes, p: Path)
    requires p != "" && CanMakeDirs(nodes, p)
    ensures WayIsThere(MakeDirs(nodes, Parent(p)), p) && CanMakeDirs(nodes, Parent(p))
  {
    hide IsAncestor;
    forall a | IsAncestor(a, p)
      ensures IsDir(MakeDirs(nodes, Parent(p)), a)
    {
      ParentIsNearest(a, p);
      assert a in Ancestors(p);
    }
    forall a | a in Ancestors(Parent(p)) + {Parent(p)}
      ensures !IsLeaf(nodes, a)
    {
      if a != Parent(p) {
        AncestorsNest(a, Parent(p), p);
      }
      assert a in Ancestors(p);
    }
  }

  /** Where no file is in the way and no name is an alias, exactly the missing directories are made. */
  lemma {:induction false} DirsExact(up: Fold, nodes: Nodes, p: Path)
    requires OnFileSystem(up, nodes) && Named(p) && Clear(up, nodes, p) && CanMakeDirs(nodes, p)
    ensures DirsEnsured(up, nodes, p) == Some(MakeDirs(nodes, p))
    decreases |p|
  {
    hide IsAncestor, Canonical, Clear, DirEnsured, OnFileSystem, MakeDirs, CanMakeDirs, WayIsThere;
    if p in nodes {
      PresentDirectory(nodes, p);
      DirIsThere(up, nodes, p);
      MakeDirsIsThere(up, nodes, p);
    } else {
      MissingIsNotRoot(up, nodes, p);
      var parent := Parent(p);
      MakeDirsOne(nodes, p);
      WayIsMade(nodes, p);
      ClearGrows(up, nodes, MakeDirs(nodes, parent), p);
      AddedExact(up, MakeDirs(nodes, parent), p, Directory(PLAIN_MODE));
      AncestorIsShorter(parent, p);
      if parent in nodes {
        PresentDirectory(nodes, parent);
        MakeDirsIsThere(up, nodes, parent);
      } else {
        NothingThere(up, nodes, p);
        ClearOnTheWay(up, nodes, p, parent);
        NamedAbove(p);
        DirsExact(up, nodes, parent);
      }
    }
  }

  lemma PresentDirectory(nodes: Nodes, p: Path)
    requires p in nodes && CanMakeDirs(nodes, p)
    ensures IsDir(nodes, p)
  {
  }

  lemma MissingIsNotRoot(up: Fold, nodes: Nodes, p: Path)
    requires OnFileSystem(up, nodes) && p !in nodes
    ensures p != ""
  {
  }

  /** With its parent missing, a path leads nowhere. */
  lemma NothingThere(up: Fold, nodes: Nodes, p: Path)
    requires OnFileSystem(up, nodes) && Canonical(p) && p != "" && Clear(up, nodes, p) && CanMakeDirs(nodes, p)
    requires Parent(p) !in nodes
    ensures DirEnsured(up, nodes, p) == None
  {
    hide Lookup, Destination, IsAncestor, Canonical, Clear;
    var parent := Parent(p);
    assert parent != "";
    forall a | IsAncestor(a, parent)
      ensures !IsLeaf(nodes, a)
    {
      AncestorsNest(a, parent, p);
      assert a in Ancestors(p);
    }
    var stop := FirstMissing(nodes, parent);
    if stop != parent {
      AncestorsNest(stop, parent, p);
    }
    LookupStops(up, nodes, p, stop);
  }

  lemma NamedAbove(p: Path)
    requires Canonical(p) && p != ""
    ensures Named(Parent(p))
  {
    var segments := Segments(p);
    var n := |segments| - 1;
    JoinOfSegments(p);
    assert Normal(segments[n]);
    assert segments == segments[..n] + [segments[n]];
    if n == 0 {
      assert p == segments[0];
      ChildBelow("", p);
    } else {
      var base := JoinSegments(segments[..n]);
      JoinOneMore(segments[..n], segments[n]);
      assert Normal(segments[0]);
      JoinIsNotEmpty(segments[..n]);
      ChildBelow(base, segments[n]);
      SegmentsOfJoin(segments[..n]);
    }
  }

  /** A file on the way, or in the place itself, and no directory can be made there. */
  lemma {:induction false} DirsBlocked(up: Fold, nodes: Nodes, p: Path, file: Path)
    requires OnFileSystem(up, nodes) && Canonical(p) && Clear(up, nodes, p)
    requires (file == p || IsAncestor(file, p)) && file in nodes && nodes[file].Regular?
    ensures DirsEnsured(up, nodes, p) == None
    decreases |p|
  {
    hide IsAncestor, Canonical, Clear, OnFileSystem, Lookup, Destination;
    assert p != "" && file != "" by {
      FileIsNotRoot(up, nodes, file, p);
    }
    var parent := Parent(p);
    AncestorIsShorter(parent, p);
    FileStands(up, nodes, file);
    if file == p {
      LookupExact(up, nodes, p);
      DirIsThere(up, nodes, parent);
    } else {
      LookupStops(up, nodes, p, file);
      ParentIsNearest(file, p);
      NamedAbove(p);
      ClearOnTheWay(up, nodes, p, parent);
      assert parent != "" by {
        if IsAncestor(file, parent) {
          AncestorIsShorter(file, parent);
        }
      }
      DirsBlocked(up, nodes, parent, file);
    }
  }

  lemma FileIsNotRoot(up: Fold, nodes: Nodes, file: Path, p: Path)
    requires OnFileSystem(up, nodes) && IsLeaf(nodes, file) && (file == p || IsAncestor(file, p))
    ensures file != "" && p != ""
  {
  }

  lemma FileStands(up: Fold, nodes: Nodes, file: Path)
    requires OnFileSystem(up, nodes) && IsLeaf(nodes, file)
    ensures file != "" && Canonical(file) && WayIsThere(nodes, file) && IsDir(nodes, Parent(file))
  {
  }

  // ---- Names along a resolution -----------------------------------------------------------

  /** No link stands, under any spelling, at p or on the way to it. */
  ghost predicate NoLinkAlong(up: Fold, nodes: Nodes, p: Path) {
    forall x, a :: x in nodes && nodes[x].Link? && (a == p || IsAncestor(a, p)) ==> !SameName(up, x, a)
  }

  /** Without links a path leads to an entry of its own name, up to folding. */
  lemma {:induction false} WalkKeepsName(
    up: Fold, nodes: Nodes, base: Path, given: Path, segments: seq<string>, last: bool, whole: bool, links: nat)
    requires PlainSegments(segments) && SameName(up, base, given)
    requires NoLinkAlong(up, nodes, Descend(given, segments))
    ensures var r := Walk(up, nodes, base, segments, last, whole, links);
            r.Some? ==> SameName(up, r.value, Descend(given, segments))
    decreases |segments|
  {
    hide Spelled, IsAncestor, FollowLink, Under, NoLinkAlong, SameName;
    if segments == [] {
    } else {
      var s := segments[0];
      assert Normal(s);
      SameChild(up, base, given, s);
      var child := Spelled(up, nodes, Under(base, s));
      SameNameChain(up, child, Under(base, s), Under(given, s));
      NextIsBelow(given, segments);
      NoLinkHere(up, nodes, Descend(given, segments), child, Under(given, s));
      if |segments| == 1 {
        assert segments[1..] == [];
      }
      WalkKeepsName(up, nodes, child, Under(given, s), segments[1..], last, whole, links);
    }
  }

  lemma SameChild(up: Fold, base: Path, given: Path, s: string)
    requires SameName(up, base, given)
    ensures SameName(up, Under(base, s), Under(given, s))
  {
    SameNameLength(up, base, given);
    var x, y := Under(base, s), Under(given, s);
    forall i | 0 <= i < |base|
      ensures up(base[i]) == up(given[i])
    {
      assert Folded(up, base)[i] == Folded(up, given)[i];
    }
    assert |x| == |y| && forall i :: 0 <= i < |x| ==> up(x[i]) == up(y[i]);
    assert Folded(up, x) == Folded(up, y);
  }

  lemma SameNameChain(up: Fold, x: Path, y: Path, z: Path)
    requires SameName(up, x, y) && SameName(up, y, z)
    ensures SameName(up, x, z)
  {
  }

  lemma NoLinkHere(up: Fold, nodes: Nodes, p: Path, x: Path, a: Path)
    requires NoLinkAlong(up, nodes, p) && (a == p || IsAncestor(a, p)) && SameName(up, x, a)
    ensures x in nodes ==> !nodes[x].Link?
  {
  }

  lemma LookupKeepsName(up: Fold, nodes: Nodes, p: Path)
    requires Canonical(p) && NoLinkAlong(up, nodes, p)
    ensures Lookup(up, nodes, p).Some? ==> SameName(up, Lookup(up, nodes, p).value, p)
    ensures Destination(up, nodes, p).Some? ==> SameName(up, Destination(up, nodes, p).value, p)
  {
    hide Walk, IsAncestor, Canonical, NoLinkAlong, PlainSegments;
    CanonicalSegments(p);
    WalkKeepsName(up, nodes, "", "", Segments(p), false, false, MAX_LINKS);
    WalkKeepsName(up, nodes, "", "", Segments(p), true, false, MAX_LINKS);
  }

  // ---- The directory as an object ---------------------------------------------------------

  class Tree {
    const up: Fold
    var nodes: Nodes

    ghost predicate Valid()
      reads this
    {
      OnFileSystem(up, nodes)
    }

    constructor Empty(up: Fold)
      ensures Valid() && this.up == up && nodes == map["" := Directory(PLAIN_MODE)]
    {
      this.up := up;
      nodes := map["" := Directory(PLAIN_MODE)];
    }

    method RemoveFile(p: Path) returns (ok: bool)
      requires Valid()
      modifies this
      ensures Valid()
      ensures ok == Removed(up, old(nodes), p).Some?
      ensures nodes == if ok then Removed(up, old(nodes), p).value else old(nodes)
    {
      hide OnFileSystem;
      OperationsKeepTree(up, nodes, p, Directory(PLAIN_MODE));
      var entry := Lookup(up, nodes, p);
      ok := entry.Some? && IsLeaf(nodes, entry.value);
      if ok {
        nodes := nodes - {entry.value};
      }
    }

    /** Making a directory, or a link, under a name that must be free. */
    method Make(p: Path, node: Node) returns (ok: bool)
      requires Valid()
      modifies this
      ensures Valid()
      ensures ok == Added(up, old(nodes), p, node).Some?
      ensures nodes == if ok then Added(up, old(nodes), p, node).value else old(nodes)
    {
      hide OnFileSystem;
      OperationsKeepTree(up, nodes, p, node);
      var entry := Lookup(up, nodes, p);
      ok := entry.Some? && entry.value !in nodes;
      if ok {
        nodes := nodes[entry.value := node];
      }
    }

    /** One directory, if the path does not lead to one already. */
    method CreateDir(p: Path) returns (ok: bool)
      requires Valid()
      modifies this
      ensures Valid()
      ensures ok == DirEnsured(up, old(nodes), p).Some?
      ensures nodes == if ok then DirEnsured(up, old(nodes), p).value else old(nodes)
    {
      hide OnFileSystem;
      var entry := Destination(up, nodes, p);
      if entry.Some? && IsDir(nodes, entry.value) {
        return true;
      }
      ok := Make(p, Directory(PLAIN_MODE));
    }

    /** Try the directory itself, then its parents; a call that fails keeps the parents it made. */
    method CreateDirAll(p: Path) returns (ok: bool)
      requires Valid()
      modifies this
      ensures Valid()
      ensures ok == DirsEnsured(up, old(nodes), p).Some?
      ensures nodes == DirsLeft(up, old(nodes), p)
      ensures ok ==> nodes == DirsEnsured(up, old(nodes), p).value
      decreases |p|
    {
      hide OnFileSystem, DirEnsured, IsAncestor;
      ok := CreateDir(p);
      if !ok && p != "" {
        AncestorIsShorter(Parent(p), p);
        ok := CreateDirAll(Parent(p));
        if ok {
          ok := CreateDir(p);
        }
      }
    }

    /** Copying a file onto p, through a link if one is there. */
    method Place(p: Path, file: Node) returns (ok: bool)
      requires Valid() && file.Regular?
      modifies this
      ensures Valid()
      ensures ok == Placed(up, old(nodes), p, file).Some?
      ensures nodes == if ok then Placed(up, old(nodes), p, file).value else old(nodes)
    {
      hide OnFileSystem;
      OperationsKeepTree(up, nodes, p, file);
      var entry := Destination(up, nodes, p);
      ok := entry.Some? && CanWrite(nodes, entry.value);
      if ok {
        nodes := nodes[entry.value := file];
      }
    }
  }
}
