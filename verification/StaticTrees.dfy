/**
 Staging several directory trees into one, each below its own prefix. Source trees may hold symbolic
 links, and a link that is already staged is followed when a later tree is copied over it.
 */
module StaticTrees {
  import opened Wrappers
  import opened ByteStrings
  import opened Paths
  import opened FileTree

  datatype StageError = EmptyList | BadSource | BadPrefix | BadLink | Collision | Io

  /** One request: the path of a source directory, and a prefix for its entries. */
  datatype StaticPath = StaticPath(source: string, prefix: string)

  /** A request that names a directory and a usable prefix: where it is, and what it holds. */
  datatype Mapping = Mapping(prefix: Path, root: Path, source: Nodes)

  /** The prefix as the path it joins to; refused when absolute, or with `.` in front or `..` inside. */
  function StaticPrefix(prefix: string): (r: Option<Path>)
    ensures r.Some? ==> Named(r.value)
  {
    NormalizeIsCanonical(prefix);
    if prefix == "" then Some("") else Normalize(prefix)
  }

  /** Where a path leads on the whole disk, if anything is there. */
  function Canonicalize(up: Fold, disk: Nodes, segments: seq<string>): (r: Option<Path>)
    ensures r.Some? ==> r.value in disk
  {
    match Walk(up, disk, "", segments, true, true, MAX_LINKS)
    case Some(y) => if y in disk then Some(y) else None
    case None => None
  }

  function Relative(root: Path, x: Path): Path
    requires x == root || IsAncestor(root, x)
  {
    if root == "" then x else if x == root then "" else x[|root| + 1..]
  }

  lemma UnderRelative(root: Path, q: Path)
    ensures Under(root, q) == root || IsAncestor(root, Under(root, q))
    ensures Relative(root, Under(root, q)) == q
  {
    if root != "" && q != "" {
      assert (root + "/" + q)[..|root|] == root;
      assert (root + "/" + q)[|root| + 1..] == q;
    }
  }

  predicate IsBelow(root: Path, x: Path) {
    (x == root || IsAncestor(root, x)) && Under(root, Relative(root, x)) == x
  }

  /** The entries below a directory, named relative to it. */
  function Subtree(disk: Nodes, root: Path): (r: Nodes)
    ensures forall q :: q in r <==> Under(root, q) in disk
    ensures forall q :: q in r ==> r[q] == disk[Under(root, q)]
  {
    var names := set x | x in disk && IsBelow(root, x) :: Relative(root, x);
    assert forall q :: q in names <==> Under(root, q) in disk by {
      SubtreeNames(disk, root, names);
    }
    map q | q in names :: disk[Under(root, q)]
  }

  lemma SubtreeNames(disk: Nodes, root: Path, names: set<Path>)
    requires names == set x | x in disk && IsBelow(root, x) :: Relative(root, x)
    ensures forall q :: q in names <==> Under(root, q) in disk
  {
    hide IsAncestor, Under, Relative;
    forall q
      ensures q in names <==> Under(root, q) in disk
    {
      UnderRelative(root, q);
    }
  }

  function Resolve(up: Fold, disk: Nodes, path: StaticPath): Result<Mapping, StageError> {
    match Canonicalize(up, disk, Segments(path.source))
    case None => Err(BadSource)
    case Some(root) =>
      if !IsDir(disk, root) then Err(BadSource)
      else
        match StaticPrefix(path.prefix)
        case None => Err(BadPrefix)
        case Some(prefix) => Ok(Mapping(prefix, root, Subtree(disk, root)))
  }

  /** A link may be staged if it is relative and leads, on the disk, to something in its source tree. */
  predicate LinkStays(up: Fold, disk: Nodes, root: Path, p: Path, text: string)
    requires p != ""
  {
    && (text == "" || text[0] != '/')
    && var resolved := Canonicalize(up, disk, Segments(Under(root, Parent(p))) + Segments(text));
       resolved.Some? && (resolved.value == root || IsAncestor(root, resolved.value))
  }

  predicate LinkMayStay(up: Fold, disk: Nodes, m: Mapping, p: Path)
    requires p in m.source
  {
    m.source[p].Link? ==> p != "" && LinkStays(up, disk, m.root, p, Text(m.source[p].target))
  }

  ghost predicate LinksStay(up: Fold, disk: Nodes, m: Mapping) {
    forall p :: p in m.source ==> LinkMayStay(up, disk, m, p)
  }

  // ---- Copying ----------------------------------------------------------------------------

  /** What a copy keeps of an entry: bytes and permission, a link's text, a directory as such. */
  function CopyOf(node: Node): Node {
    match node
    case Directory(_) => Directory(PLAIN_MODE)
    case Regular(bytes, executable, _) => Regular(bytes, executable, 1)
    case Link(target, executable, _) => Link(target, executable, 1)
  }

  function OrIo(after: Option<Nodes>): Result<Nodes, StageError> {
    match after
    case Some(nodes) => Ok(nodes)
    case None => Err(Io)
  }

  function CopyEntry(up: Fold, disk: Nodes, m: Mapping, nodes: Nodes, p: Path): Result<Nodes, StageError>
    requires p in m.source
  {
    if p == "" then Ok(nodes)
    else
      var target, copy := Under(m.prefix, p), CopyOf(m.source[p]);
      match m.source[p]
      case Directory(_) => OrIo(DirsEnsured(up, nodes, target))
      case Link(_, _, _) =>
        if !LinkMayStay(up, disk, m, p) then Err(BadLink)
        else
          var cleared := if Exists(up, nodes, target) then Removed(up, nodes, target) else Some(nodes);
          OrIo(if cleared.Some? then Added(up, cleared.value, target, copy) else None)
      case Regular(_, _, _) =>
        var made := DirsEnsured(up, nodes, Parent(target));
        OrIo(if made.Some? then Placed(up, made.value, target, copy) else None)
  }

  function CopyWalk(up: Fold, disk: Nodes, m: Mapping, nodes: Nodes, walk: seq<Path>): Result<Nodes, StageError>
    requires forall p :: p in walk ==> p in m.source
  {
    if walk == [] then Ok(nodes)
    else
      var n := |walk| - 1;
      match CopyWalk(up, disk, m, nodes, walk[..n])
      case Err(e) => Err(e)
      case Ok(now) => CopyEntry(up, disk, m, now, walk[n])
  }

  /** Some file or link of the mapping would land on an entry. */
  predicate Collides(up: Fold, nodes: Nodes, m: Mapping) {
    exists p :: p in m.source && IsLeaf(m.source, p) && Exists(up, nodes, Under(m.prefix, p))
  }

  function CopyStatic(up: Fold, disk: Nodes, m: Mapping, nodes: Nodes): Result<Nodes, StageError> {
    if Collides(up, nodes, m) then Err(Collision)
    else
      match DirsEnsured(up, nodes, m.prefix)
      case None => Err(Io)
      case Some(made) => CopyWalk(up, disk, m, made, SortedKeys(m.source.Keys))
  }

  const EMPTY: Nodes := map["" := Directory(PLAIN_MODE)]

  function StageAll(up: Fold, disk: Nodes, paths: seq<StaticPath>): Result<Nodes, StageError> {
    if paths == [] then Ok(EMPTY)
    else
      var n := |paths| - 1;
      match StageAll(up, disk, paths[..n])
      case Err(e) => Err(e)
      case Ok(now) =>
        match Resolve(up, disk, paths[n])
        case Err(e) => Err(e)
        case Ok(m) => CopyStatic(up, disk, m, now)
  }

  function Package(up: Fold, disk: Nodes, paths: seq<StaticPath>): Result<Nodes, StageError> {
    if paths == [] then Err(EmptyList) else StageAll(up, disk, paths)
  }

  // ---- The source's loops -----------------------------------------------------------------

  lemma {:induction false} WalkFailureIsFinal(
    up: Fold, disk: Nodes, m: Mapping, nodes: Nodes, walk: seq<Path>, k: nat)
    requires k <= |walk| && forall p :: p in walk ==> p in m.source
    requires CopyWalk(up, disk, m, nodes, walk[..k]).Err?
    ensures CopyWalk(up, disk, m, nodes, walk) == CopyWalk(up, disk, m, nodes, walk[..k])
    decreases |walk|
  {
    hide CopyEntry;
    if k == |walk| {
      assert walk[..k] == walk;
    } else {
      var n := |walk| - 1;
      assert walk[..n][..k] == walk[..k];
      WalkFailureIsFinal(up, disk, m, nodes, walk[..n], k);
    }
  }

  lemma {:induction false} StageFailureIsFinal(up: Fold, disk: Nodes, paths: seq<StaticPath>, k: nat)
    requires k <= |paths| && StageAll(up, disk, paths[..k]).Err?
    ensures StageAll(up, disk, paths) == StageAll(up, disk, paths[..k])
    decreases |paths|
  {
    hide CopyStatic, Resolve;
    if k == |paths| {
      assert paths[..k] == paths;
    } else {
      var n := |paths| - 1;
      assert paths[..n][..k] == paths[..k];
      StageFailureIsFinal(up, disk, paths[..n], k);
    }
  }

  method CopyOne(disk: Nodes, m: Mapping, p: Path, staged: Tree) returns (bad: Option<StageError>)
    requires p in m.source && staged.Valid()
    modifies staged
    ensures staged.Valid()
    ensures match CopyEntry(staged.up, disk, m, old(staged.nodes), p)
            case Ok(now) => bad == None && staged.nodes == now
            case Err(e) => bad == Some(e)
  {
    hide OnFileSystem, DirsEnsured, Added, Placed, Removed, Exists, LinkMayStay, Parent;
    if p == "" {
      return None;
    }
    var target, copy := Under(m.prefix, p), CopyOf(m.source[p]);
    var ok;
    match m.source[p] {
      case Directory(_) =>
        ok := staged.CreateDirAll(target);
      case Link(_, _, _) =>
        if !LinkMayStay(staged.up, disk, m, p) {
          return Some(BadLink);
        }
        ok := true;
        if Exists(staged.up, staged.nodes, target) {
          ok := staged.RemoveFile(target);
        }
        if ok {
          ok := staged.Make(target, copy);
        }
      case Regular(_, _, _) =>
        ok := staged.CreateDirAll(Parent(target));
        if ok {
          ok := staged.Place(target, copy);
        }
    }
    return if ok then None else Some(Io);
  }

  lemma NothingCopied(up: Fold, disk: Nodes, m: Mapping, nodes: Nodes)
    ensures CopyWalk(up, disk, m, nodes, []) == Ok(nodes)
  {
  }

  lemma OneMoreCopied(up: Fold, disk: Nodes, m: Mapping, nodes: Nodes, walk: seq<Path>, k: nat)
    requires k < |walk| && (forall p :: p in walk ==> p in m.source)
    requires CopyWalk(up, disk, m, nodes, walk[..k]).Ok?
    ensures CopyWalk(up, disk, m, nodes, walk[..k + 1])
         == CopyEntry(up, disk, m, CopyWalk(up, disk, m, nodes, walk[..k]).value, walk[k])
  {
    hide CopyEntry;
    assert walk[..k + 1][..k] == walk[..k];
  }

  /** Making the prefix, then copying entry by entry. */
  method CopyTree(disk: Nodes, m: Mapping, staged: Tree) returns (bad: Option<StageError>)
    requires staged.Valid() && !Collides(staged.up, staged.nodes, m)
    modifies staged
    ensures staged.Valid()
    ensures match CopyStatic(staged.up, disk, m, old(staged.nodes))
            case Ok(now) => bad == None && staged.nodes == now
            case Err(e) => bad == Some(e)
  {
    hide OnFileSystem, DirsEnsured, DirsLeft, CopyEntry, CopyWalk, SortedKeys, Collides;
    var walk := SortedKeys(m.source.Keys);
    assert forall p :: p in walk ==> p in m.source;
    var rooted := staged.CreateDirAll(m.prefix);
    if !rooted {
      return Some(Io);
    }
    ghost var made := staged.nodes;
    NothingCopied(staged.up, disk, m, made);
    for k := 0 to |walk|
      invariant staged.Valid()
      invariant CopyWalk(staged.up, disk, m, made, walk[..k]) == Ok(staged.nodes)
    {
      assert walk[k] in walk;
      OneMoreCopied(staged.up, disk, m, made, walk, k);
      bad := CopyOne(disk, m, walk[k], staged);
      if bad.Some? {
        WalkFailureIsFinal(staged.up, disk, m, made, walk, k + 1);
        return;
      }
    }
    assert walk[..|walk|] == walk;
    return None;
  }

  method FindCollision(up: Fold, nodes: Nodes, m: Mapping) returns (clash: bool)
    ensures clash <==> Collides(up, nodes, m)
  {
    hide SortedKeys, Exists;
    var walk := SortedKeys(m.source.Keys);
    for k := 0 to |walk|
      invariant forall i :: 0 <= i < k && IsLeaf(m.source, walk[i]) ==> !Exists(up, nodes, Under(m.prefix, walk[i]))
    {
      assert walk[k] in walk;
      if IsLeaf(m.source, walk[k]) && Exists(up, nodes, Under(m.prefix, walk[k])) {
        return true;
      }
    }
    assert forall p :: p in m.source ==> p in walk;
    return false;
  }

  method CopyStaticTree(disk: Nodes, m: Mapping, staged: Tree) returns (bad: Option<StageError>)
    requires staged.Valid()
    modifies staged
    ensures staged.Valid()
    ensures match CopyStatic(staged.up, disk, m, old(staged.nodes))
            case Ok(now) => bad == None && staged.nodes == now
            case Err(e) => bad == Some(e)
  {
    hide OnFileSystem, DirsEnsured, CopyWalk, SortedKeys, Collides;
    var clash := FindCollision(staged.up, staged.nodes, m);
    if clash {
      return Some(Collision);
    }
    bad := CopyTree(disk, m, staged);
  }

  method PackageStaticPaths(up: Fold, disk: Nodes, paths: seq<StaticPath>) returns (r: Result<Nodes, StageError>)
    ensures r == Package(up, disk, paths)
  {
    hide CopyStatic, Resolve, OnFileSystem;
    if paths == [] {
      return Err(EmptyList);
    }
    var staging := new Tree.Empty(up);
    for k := 0 to |paths|
      invariant fresh(staging) && staging.Valid() && staging.up == up
      invariant StageAll(up, disk, paths[..k]) == Ok(staging.nodes)
    {
      assert paths[..k + 1][..k] == paths[..k];
      var mapping := Resolve(up, disk, paths[k]);
      if mapping.Err? {
        StageFailureIsFinal(up, disk, paths, k + 1);
        return Err(mapping.error);
      }
      var bad := CopyStaticTree(disk, mapping.value, staging);
      if bad.Some? {
        StageFailureIsFinal(up, disk, paths, k + 1);
        return Err(bad.value);
      }
    }
    assert paths[..|paths|] == paths;
    return Ok(staging.nodes);
  }
}
