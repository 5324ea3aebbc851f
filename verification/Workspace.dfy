/**
 Snapshots of a template workspace and the check that a plugin reported exactly what it changed.
 */
module Workspace {
  import opened Wrappers
  import opened Paths

  datatype DiffLimits = DiffLimits(
    maxWorkspaceFiles: nat, maxWorkspaceBytes: nat, maxChangedFiles: nat, maxChangedBytes: nat, maxFileBytes: nat)

  datatype ChangeKind = Create | Modify | Delete

  datatype DeclaredChange = DeclaredChange(
    path: string, kind: ChangeKind, before: Option<string>, after: Option<string>)

  datatype WorkspaceChange = WorkspaceChange(
    path: Path, kind: ChangeKind, size: nat, before: Option<string>, after: Option<string>)

  datatype EntryKind = File | Symlink

  datatype EntryState = EntryState(kind: EntryKind, size: nat, digest: string, executable: bool, hardLinks: nat)

  datatype Snapshot = Snapshot(entries: map<Path, EntryState>, modes: map<Path, bv32>)

  /** Not writable by group or others and without special permission bits. */
  predicate SafeMode(mode: bv32) {
    mode & 0xE12 == 0
  }

  /** The refused bits: set-user, set-group, sticky, and write for the group and for others. */
  lemma SafeModeMeans(mode: bv32)
    ensures SafeMode(mode)
       <==> (&& (mode >> 11) % 2 == 0 && (mode >> 10) % 2 == 0 && (mode >> 9) % 2 == 0
             && (mode >> 4) % 2 == 0 && (mode >> 1) % 2 == 0)
  {
  }

  datatype Rejection =
    | RemovedDirectory(path: Path) | ChangedDirectoryMode(path: Path) | UnsafeDirectory(path: Path)
    | GitModified(path: Path) | SymlinkChanged(path: Path) | HardLinkChanged(path: Path)
    | TooManyChanges | TooManyBytes
    | BadPath(text: string) | GitDeclared(path: Path) | BadDigests(text: string) | DeclaredTwice(path: Path)
    | Mismatch

  function Get<K, V>(m: map<K, V>, k: K): Option<V> {
    if k in m then Some(m[k]) else None
  }

  /** u64 addition in the source saturates. */
  const U64_MAX: nat := 0xFFFF_FFFF_FFFF_FFFF

  function Saturate(n: nat): nat {
    if n > U64_MAX then U64_MAX else n
  }

  // ---- The true difference ----------------------------------------------------------------

  function KindOf(before: Option<EntryState>, after: Option<EntryState>): Option<ChangeKind> {
    match (before, after)
    case (None, Some(_)) => Some(Create)
    case (Some(_), None) => Some(Delete)
    case (Some(b), Some(a)) => if b != a then Some(Modify) else None
    case (None, None) => None
  }

  function DigestText(entry: Option<EntryState>): Option<string> {
    if entry.None? then None else Some("sha256:" + entry.value.digest)
  }

  function ChangeAt(before: Snapshot, after: Snapshot, p: Path): Option<WorkspaceChange> {
    var b, a := Get(before.entries, p), Get(after.entries, p);
    match KindOf(b, a)
    case None => None
    case Some(kind) =>
      Some(WorkspaceChange(p, kind, if a.Some? then a.value.size else 0, DigestText(b), DigestText(a)))
  }

  function ChangedPaths(before: Snapshot, after: Snapshot): (r: set<Path>)
    ensures forall p :: p in r <==> ChangeAt(before, after, p).Some?
  {
    set p | p in before.entries.Keys + after.entries.Keys && ChangeAt(before, after, p).Some?
  }

  function PathsOf(changes: seq<WorkspaceChange>): (r: seq<Path>)
    ensures |r| == |changes|
    ensures forall i :: 0 <= i < |r| ==> r[i] == changes[i].path
  {
    seq(|changes|, i requires 0 <= i < |changes| => changes[i].path)
  }

  /** One item per differing path, in path order. */
  function Difference(before: Snapshot, after: Snapshot): (r: seq<WorkspaceChange>)
    ensures PathsOf(r) == SortedKeys(ChangedPaths(before, after))
    ensures forall i :: 0 <= i < |r| ==> Some(r[i]) == ChangeAt(before, after, r[i].path)
  {
    var paths := SortedKeys(ChangedPaths(before, after));
    seq(|paths|, i requires 0 <= i < |paths| => ChangeAt(before, after, paths[i]).value)
  }

  // ---- The rules --------------------------------------------------------------------------

  predicate DirectoriesKept(before: Snapshot, after: Snapshot) {
    forall d :: d in before.modes ==> d in after.modes && after.modes[d] == before.modes[d]
  }

  predicate NewDirectoriesSafe(before: Snapshot, after: Snapshot) {
    forall d :: d in after.modes && d !in before.modes ==> SafeMode(after.modes[d])
  }

  predicate ChangeAllowed(after: Snapshot, p: Path) {
    && !RootGit(p)
    && (p in after.entries ==> after.entries[p].kind != Symlink && after.entries[p].hardLinks <= 1)
  }

  predicate ChangesAllowed(before: Snapshot, after: Snapshot) {
    forall p :: p in ChangedPaths(before, after) ==> ChangeAllowed(after, p)
  }

  function TotalSize(changes: seq<WorkspaceChange>): nat {
    if changes == [] then 0
    else TotalSize(changes[..|changes| - 1]) + changes[|changes| - 1].size
  }

  predicate WithinLimits(changes: seq<WorkspaceChange>, limits: DiffLimits) {
    |changes| <= limits.maxChangedFiles && Saturate(TotalSize(changes)) <= limits.maxChangedBytes
  }

  // ---- Declarations -----------------------------------------------------------------------

  predicate LowerHex(c: char) {
    '0' <= c <= '9' || 'a' <= c <= 'f'
  }

  predicate Hex64(s: string) {
    |s| == 64 && forall i :: 0 <= i < |s| ==> LowerHex(s[i])
  }

  predicate CanonicalDigest(text: string) {
    |text| == 71 && text[..7] == "sha256:" && Hex64(text[7..])
  }

  /** The digests a declaration must carry for its kind, each in canonical form. */
  predicate DigestsFit(change: DeclaredChange) {
    && change.before.Some? == !change.kind.Create?
    && change.after.Some? == !change.kind.Delete?
    && (change.before.Some? ==> CanonicalDigest(change.before.value))
    && (change.after.Some? ==> CanonicalDigest(change.after.value))
  }

  predicate NamesFile(change: DeclaredChange) {
    Normalize(change.path).Some? && !RootGit(Normalize(change.path).value)
  }

  function NameOf(change: DeclaredChange): Path
    requires NamesFile(change)
  {
    Normalize(change.path).value
  }

  datatype Claim = Claim(kind: ChangeKind, before: Option<string>, after: Option<string>)

  function ClaimOf(change: DeclaredChange): Claim {
    Claim(change.kind, change.before, change.after)
  }

  /** What an exact report says, path by path. */
  function TrueClaims(before: Snapshot, after: Snapshot): map<Path, Claim> {
    map p | p in ChangedPaths(before, after) ::
      var change := ChangeAt(before, after, p).value;
      Claim(change.kind, change.before, change.after)
  }

  predicate DistinctNames(declared: seq<DeclaredChange>)
    requires forall i :: 0 <= i < |declared| ==> NamesFile(declared[i])
  {
    forall i, j :: 0 <= i < j < |declared| ==> NameOf(declared[i]) != NameOf(declared[j])
  }

  /** The declarations, in whatever order, are the claims: none missing, none extra, none twice. */
  predicate Declares(declared: seq<DeclaredChange>, claims: map<Path, Claim>) {
    && (forall i :: 0 <= i < |declared| ==> NamesFile(declared[i]))
    && DistinctNames(declared)
    && (forall i :: 0 <= i < |declared| ==>
          NameOf(declared[i]) in claims && claims[NameOf(declared[i])] == ClaimOf(declared[i]))
    && (forall p :: p in claims ==> exists i :: 0 <= i < |declared| && NameOf(declared[i]) == p)
  }

  predicate DiffAccepted(before: Snapshot, after: Snapshot, declared: seq<DeclaredChange>, limits: DiffLimits) {
    && DirectoriesKept(before, after)
    && NewDirectoriesSafe(before, after)
    && ChangesAllowed(before, after)
    && WithinLimits(Difference(before, after), limits)
    && Declares(declared, TrueClaims(before, after))
  }

  /** Snapshots carry the hexadecimal text of SHA-256 digests. */
  predicate HasDigests(snapshot: Snapshot) {
    forall p :: p in snapshot.entries ==> Hex64(snapshot.entries[p].digest)
  }

  lemma TrueClaimsAreCanonical(before: Snapshot, after: Snapshot, change: DeclaredChange)
    requires HasDigests(before) && HasDigests(after)
    requires NamesFile(change) && NameOf(change) in TrueClaims(before, after)
    requires TrueClaims(before, after)[NameOf(change)] == ClaimOf(change)
    ensures DigestsFit(change)
  {
    var p := NameOf(change);
    if p in before.entries {
      CanonicalText(before.entries[p].digest);
    }
    if p in after.entries {
      CanonicalText(after.entries[p].digest);
    }
  }

  lemma CanonicalText(digest: string)
    requires Hex64(digest)
    ensures CanonicalDigest("sha256:" + digest)
  {
    assert ("sha256:" + digest)[7..] == digest;
  }

  /** A digest text is read exactly in the documented spelling: 64 lower-case hexadecimal digits. */
  lemma DigestIsCanonicalIff(text: string)
    ensures CanonicalDigest(text)
       <==> (&& |text| == 71
             && text[..7] == "sha256:"
             && forall i :: 7 <= i < 71 ==> text[i] in "0123456789abcdef")
  {
    if |text| == 71 {
      var hex := text[7..];
      forall i | 0 <= i < 64
        ensures LowerHex(hex[i]) <==> text[i + 7] in "0123456789abcdef"
      {
        DigitIsListed(hex[i]);
      }
      assert forall i :: 7 <= i < 71 ==> text[i] == hex[i - 7];
    }
  }

  lemma DigitIsListed(c: char)
    ensures LowerHex(c) <==> c in "0123456789abcdef"
  {
    var digits := "0123456789abcdef";
    if '0' <= c <= '9' {
      assert digits[c as int - '0' as int] == c;
    } else if 'a' <= c <= 'f' {
      assert digits[c as int - 'a' as int + 10] == c;
    }
  }

  // ---- What each rejection says -----------------------------------------------------------

  predicate DirectoryFault(rejection: Rejection, before: Snapshot, after: Snapshot) {
    match rejection
    case RemovedDirectory(d) => d in before.modes && d !in after.modes
    case ChangedDirectoryMode(d) => d in before.modes && d in after.modes && before.modes[d] != after.modes[d]
    case UnsafeDirectory(d) => d in after.modes && d !in before.modes && !SafeMode(after.modes[d])
    case _ => false
  }

  predicate ChangeFault(rejection: Rejection, before: Snapshot, after: Snapshot) {
    match rejection
    case GitModified(p) => p in ChangedPaths(before, after) && RootGit(p)
    case SymlinkChanged(p) =>
      p in ChangedPaths(before, after) && p in after.entries && after.entries[p].kind == Symlink
    case HardLinkChanged(p) =>
      p in ChangedPaths(before, after) && p in after.entries && after.entries[p].hardLinks > 1
    case _ => false
  }

  predicate LimitFault(rejection: Rejection, changes: seq<WorkspaceChange>, limits: DiffLimits) {
    match rejection
    case TooManyChanges => |changes| > limits.maxChangedFiles
    case TooManyBytes => Saturate(TotalSize(changes)) > limits.maxChangedBytes
    case _ => false
  }

  ghost predicate DeclarationFault(rejection: Rejection, declared: seq<DeclaredChange>) {
    match rejection
    case BadPath(text) => exists i :: 0 <= i < |declared| && declared[i].path == text && Normalize(text).None?
    case GitDeclared(p) => exists i :: 0 <= i < |declared| && Normalize(declared[i].path) == Some(p) && RootGit(p)
    case BadDigests(text) => exists i :: 0 <= i < |declared| && declared[i].path == text && !DigestsFit(declared[i])
    case DeclaredTwice(p) =>
      exists i, j :: 0 <= i < j < |declared|
        && Normalize(declared[i].path) == Some(p) && Normalize(declared[j].path) == Some(p)
    case _ => false
  }

  /** Every error names a violation that is really there. */
  ghost predicate Justified(
    rejection: Rejection, before: Snapshot, after: Snapshot, declared: seq<DeclaredChange>, limits: DiffLimits)
  {
    || DirectoryFault(rejection, before, after)
    || ChangeFault(rejection, before, after)
    || LimitFault(rejection, Difference(before, after), limits)
    || DeclarationFault(rejection, declared)
    || (rejection == Mismatch && !Declares(declared, TrueClaims(before, after)))
  }

  // ---- The source's loops -----------------------------------------------------------------

  method CheckDirectories(before: Snapshot, after: Snapshot) returns (bad: Option<Rejection>)
    ensures bad.None? <==> DirectoriesKept(before, after) && NewDirectoriesSafe(before, after)
    ensures bad.Some? ==> DirectoryFault(bad.value, before, after)
  {
    hide SafeMode, SortedKeys, DirectoriesKept, NewDirectoriesSafe, DirectoryFault;
    bad := CheckKept(before, after);
    if bad.None? {
      bad := CheckFresh(before, after);
    }
  }

  method CheckKept(before: Snapshot, after: Snapshot) returns (bad: Option<Rejection>)
    ensures bad.None? <==> DirectoriesKept(before, after)
    ensures bad.Some? ==> DirectoryFault(bad.value, before, after)
  {
    hide SortedKeys;
    var kept := SortedKeys(before.modes.Keys);
    for k := 0 to |kept|
      invariant forall i :: 0 <= i < k ==> kept[i] in after.modes && after.modes[kept[i]] == before.modes[kept[i]]
    {
      var d := kept[k];
      assert d in kept;
      if d !in after.modes {
        return Some(RemovedDirectory(d));
      }
      if before.modes[d] != after.modes[d] {
        return Some(ChangedDirectoryMode(d));
      }
    }
    assert forall d :: d in before.modes ==> d in kept;
    return None;
  }

  method CheckFresh(before: Snapshot, after: Snapshot) returns (bad: Option<Rejection>)
    ensures bad.None? <==> NewDirectoriesSafe(before, after)
    ensures bad.Some? ==> DirectoryFault(bad.value, before, after)
  {
    hide SortedKeys, SafeMode;
    var present := SortedKeys(after.modes.Keys);
    assert forall i :: 0 <= i < |present| ==> present[i] in present;
    for k := 0 to |present|
      invariant forall i :: 0 <= i < k && present[i] !in before.modes ==> SafeMode(after.modes[present[i]])
    {
      var d := present[k];
      if d !in before.modes && !SafeMode(after.modes[d]) {
        return Some(UnsafeDirectory(d));
      }
    }
    assert forall d :: d in after.modes ==> d in present;
    return None;
  }

  /** The differing paths among the first keys, in order. */
  function Collected(before: Snapshot, after: Snapshot, paths: seq<Path>): (r: seq<WorkspaceChange>)
  {
    if paths == [] then []
    else
      var n := |paths| - 1;
      Collected(before, after, paths[..n])
      + (match ChangeAt(before, after, paths[n]) case Some(change) => [change] case None => [])
  }

  method CollectChanges(before: Snapshot, after: Snapshot)
    returns (r: Result<seq<WorkspaceChange>, Rejection>, changedBytes: nat)
    ensures r.Ok? <==> ChangesAllowed(before, after)
    ensures r.Ok? ==> r.value == Difference(before, after) && changedBytes == Saturate(TotalSize(r.value))
    ensures r.Err? ==> ChangeFault(r.error, before, after)
  {
    hide ChangeAt, SortedKeys, Difference, ChangesAllowed, ChangeAllowed, ChangedPaths, ChangeFault;
    hide Collecting, Ascending, Saturate, TotalSize;
    var paths := SortedKeys(before.entries.Keys + after.entries.Keys);
    var actual: seq<WorkspaceChange> := [];
    changedBytes := 0;
    CollectingStarts(before, after);
    for k := 0 to |paths|
      invariant Collecting(before, after, paths[..k], actual, changedBytes)
    {
      var p := paths[k];
      assert paths[..k + 1] == paths[..k] + [p];
      var change := ChangeAt(before, after, p);
      if change.Some? {
        var refusal := Refuse(before, after, p);
        if refusal.Some? {
          NotAllAllowed(before, after, p);
          return Err(refusal.value), changedBytes;
        }
        CollectingChange(before, after, paths[..k], actual, changedBytes, p);
        changedBytes := Saturate(changedBytes + change.value.size);
        actual := actual + [change.value];
      } else {
        CollectingSkip(before, after, paths[..k], actual, changedBytes, p);
      }
    }
    assert paths[..|paths|] == paths;
    CollectingEnds(before, after, paths, actual, changedBytes);
    r := Ok(actual);
  }

  /** The changes among the paths seen, all of them allowed, and their size. */
  ghost predicate Collecting(
    before: Snapshot, after: Snapshot, seen: seq<Path>, actual: seq<WorkspaceChange>, changedBytes: nat)
  {
    && actual == Collected(before, after, seen)
    && changedBytes == Saturate(TotalSize(actual))
    && forall p :: p in seen && p in ChangedPaths(before, after) ==> ChangeAllowed(after, p)
  }

  lemma CollectingStarts(before: Snapshot, after: Snapshot)
    ensures Collecting(before, after, [], [], 0)
  {
  }

  lemma NotAllAllowed(before: Snapshot, after: Snapshot, p: Path)
    requires p in ChangedPaths(before, after) && !ChangeAllowed(after, p)
    ensures !ChangesAllowed(before, after)
  {
  }

  lemma CollectingChange(
    before: Snapshot, after: Snapshot, seen: seq<Path>, actual: seq<WorkspaceChange>, changedBytes: nat, p: Path)
    requires Collecting(before, after, seen, actual, changedBytes)
    requires ChangeAt(before, after, p).Some? && ChangeAllowed(after, p)
    ensures var change := ChangeAt(before, after, p).value;
            Collecting(before, after, seen + [p], actual + [change], Saturate(changedBytes + change.size))
  {
    hide ChangeAt, ChangeAllowed, Collected;
    CollectedStep(before, after, seen, p);
    TotalSizeAppends(actual, ChangeAt(before, after, p).value);
  }

  lemma CollectingSkip(
    before: Snapshot, after: Snapshot, seen: seq<Path>, actual: seq<WorkspaceChange>, changedBytes: nat, p: Path)
    requires Collecting(before, after, seen, actual, changedBytes) && ChangeAt(before, after, p).None?
    ensures Collecting(before, after, seen + [p], actual, changedBytes)
  {
    hide ChangeAt, ChangeAllowed, Collected;
    CollectedStep(before, after, seen, p);
  }

  lemma CollectingEnds(
    before: Snapshot, after: Snapshot, paths: seq<Path>, actual: seq<WorkspaceChange>, changedBytes: nat)
    requires paths == SortedKeys(before.entries.Keys + after.entries.Keys)
    requires Collecting(before, after, paths, actual, changedBytes)
    ensures ChangesAllowed(before, after)
    ensures actual == Difference(before, after) && changedBytes == Saturate(TotalSize(actual))
  {
    hide ChangeAt, ChangeAllowed, Collected, SortedKeys, Difference;
    CollectedIsDifference(before, after, paths);
    ChangedAreKeys(before, after);
  }

  method Refuse(before: Snapshot, after: Snapshot, p: Path) returns (refusal: Option<Rejection>)
    requires p in ChangedPaths(before, after)
    ensures refusal.None? <==> ChangeAllowed(after, p)
    ensures refusal.Some? ==> ChangeFault(refusal.value, before, after)
  {
    if RootGit(p) {
      return Some(GitModified(p));
    }
    if p in after.entries && after.entries[p].kind == Symlink {
      return Some(SymlinkChanged(p));
    }
    if p in after.entries && after.entries[p].kind == File && after.entries[p].hardLinks > 1 {
      return Some(HardLinkChanged(p));
    }
    return None;
  }

  lemma CollectedStep(before: Snapshot, after: Snapshot, paths: seq<Path>, p: Path)
    ensures Collected(before, after, paths + [p]) == Collected(before, after, paths)
              + (if ChangeAt(before, after, p).Some? then [ChangeAt(before, after, p).value] else [])
    ensures ChangeAt(before, after, p).Some? <==> p in ChangedPaths(before, after)
  {
    assert (paths + [p])[..|paths|] == paths;
  }

  lemma TotalSizeAppends(changes: seq<WorkspaceChange>, change: WorkspaceChange)
    ensures TotalSize(changes + [change]) == TotalSize(changes) + change.size
  {
    assert (changes + [change])[..|changes|] == changes;
  }

  lemma ChangedAreKeys(before: Snapshot, after: Snapshot)
    ensures ChangedPaths(before, after) <= before.entries.Keys + after.entries.Keys
  {
  }

  lemma PathsAppend(changes: seq<WorkspaceChange>, change: WorkspaceChange)
    ensures PathsOf(changes + [change]) == PathsOf(changes) + [change.path]
  {
  }

  /** The changes are those at the differing paths among these, in order. */
  ghost predicate CollectedFrom(before: Snapshot, after: Snapshot, paths: seq<Path>, changes: seq<WorkspaceChange>) {
    && (forall c :: c in changes ==> Some(c) == ChangeAt(before, after, c.path))
    && Ascending(PathsOf(changes))
    && (forall p :: p in PathsOf(changes) <==> p in paths && p in ChangedPaths(before, after))
  }

  lemma {:induction false} CollectedPaths(before: Snapshot, after: Snapshot, paths: seq<Path>)
    requires Ascending(paths)
    ensures CollectedFrom(before, after, paths, Collected(before, after, paths))
  {
    hide ChangeAt, CollectedFrom;
    if paths == [] {
      NothingCollected(before, after);
    } else {
      var n := |paths| - 1;
      var p := paths[n];
      CollectedPaths(before, after, paths[..n]);
      assert paths == paths[..n] + [p];
      if ChangeAt(before, after, p).Some? {
        ChangeCollected(before, after, paths[..n], Collected(before, after, paths[..n]), p);
      } else {
        ChangeSkipped(before, after, paths[..n], Collected(before, after, paths[..n]), p);
        assert Collected(before, after, paths[..n]) + [] == Collected(before, after, paths[..n]);
      }
    }
  }

  lemma NothingCollected(before: Snapshot, after: Snapshot)
    ensures CollectedFrom(before, after, [], [])
  {
  }

  lemma ChangeCollected(
    before: Snapshot, after: Snapshot, seen: seq<Path>, changes: seq<WorkspaceChange>, p: Path)
    requires Ascending(seen + [p]) && CollectedFrom(before, after, seen, changes)
    requires ChangeAt(before, after, p).Some?
    ensures CollectedFrom(before, after, seen + [p], changes + [ChangeAt(before, after, p).value])
  {
    hide PathsOf, ChangeAt, Below;
    PathsAppend(changes, ChangeAt(before, after, p).value);
    ChangeHasPath(before, after, p);
    forall i | 0 <= i < |PathsOf(changes)|
      ensures Below(PathsOf(changes)[i], p)
    {
      assert PathsOf(changes)[i] in PathsOf(changes);
      LastIsAbove(seen, p, PathsOf(changes)[i]);
    }
  }

  lemma LastIsAbove(seen: seq<Path>, p: Path, q: Path)
    requires Ascending(seen + [p]) && q in seen
    ensures Below(q, p)
  {
    hide Below;
    var i :| 0 <= i < |seen| && seen[i] == q;
    assert Below((seen + [p])[i], (seen + [p])[|seen|]);
  }

  lemma ChangeSkipped(
    before: Snapshot, after: Snapshot, seen: seq<Path>, changes: seq<WorkspaceChange>, p: Path)
    requires CollectedFrom(before, after, seen, changes) && ChangeAt(before, after, p).None?
    ensures CollectedFrom(before, after, seen + [p], changes)
  {
    hide PathsOf, ChangeAt, Below;
  }

  lemma ChangeHasPath(before: Snapshot, after: Snapshot, p: Path)
    ensures ChangeAt(before, after, p).Some? ==> ChangeAt(before, after, p).value.path == p
  {
  }

  /** Two ascending lists of the same paths are equal. */
  lemma {:induction false} AscendingIsUnique(a: seq<Path>, b: seq<Path>)
    requires Ascending(a) && Ascending(b)
    requires forall p :: p in a <==> p in b
    ensures a == b
  {
    HeadIsMember(a);
    HeadIsMember(b);
    if a == [] || b == [] {
    } else {
      SameHead(a, b);
      forall p
        ensures p in a[1..] <==> p in b[1..]
      {
        TailMembers(a, p);
        TailMembers(b, p);
      }
      AscendingIsUnique(a[1..], b[1..]);
      assert a == [a[0]] + a[1..] && b == [b[0]] + b[1..];
    }
  }

  lemma HeadIsMember(a: seq<Path>)
    ensures a != [] ==> a[0] in a
  {
  }

  lemma SameHead(a: seq<Path>, b: seq<Path>)
    requires Ascending(a) && Ascending(b) && a != [] && b != []
    requires a[0] in b && b[0] in a
    ensures a[0] == b[0]
  {
    var i :| 0 <= i < |b| && b[i] == a[0];
    var j :| 0 <= j < |a| && a[j] == b[0];
    if i > 0 && j > 0 {
      BelowIsStrict(b[0], a[0]);
    }
  }

  lemma TailMembers(a: seq<Path>, p: Path)
    requires Ascending(a) && a != []
    ensures p in a[1..] <==> p in a && p != a[0]
  {
    AscendingIsDistinct(a);
    assert a == [a[0]] + a[1..];
  }

  lemma CollectedIsDifference(before: Snapshot, after: Snapshot, paths: seq<Path>)
    requires paths == SortedKeys(before.entries.Keys + after.entries.Keys)
    ensures Collected(before, after, paths) == Difference(before, after)
  {
    hide ChangeAt, Collected, SortedKeys;
    var r, d := Collected(before, after, paths), Difference(before, after);
    CollectedPaths(before, after, paths);
    ChangedAreKeys(before, after);
    AscendingIsUnique(PathsOf(r), PathsOf(d));
    forall i | 0 <= i < |r|
      ensures r[i] == d[i]
    {
      assert r[i].path == PathsOf(r)[i] == PathsOf(d)[i] == d[i].path;
      assert r[i] in r;
    }
  }

  // ---- Checking the declarations ----------------------------------------------------------

  predicate Declarable(change: DeclaredChange) {
    NamesFile(change) && DigestsFit(change)
  }

  predicate WellDeclared(declared: seq<DeclaredChange>) {
    (forall i :: 0 <= i < |declared| ==> Declarable(declared[i])) && DistinctNames(declared)
  }

  /** The source's `expected` map. */
  function DeclaredMap(declared: seq<DeclaredChange>): map<Path, Claim>
    requires forall i :: 0 <= i < |declared| ==> NamesFile(declared[i])
  {
    if declared == [] then map[]
    else
      var n := |declared| - 1;
      DeclaredMap(declared[..n])[NameOf(declared[n]) := ClaimOf(declared[n])]
  }

  lemma {:induction false} DeclaredMapIs(declared: seq<DeclaredChange>)
    requires forall i :: 0 <= i < |declared| ==> NamesFile(declared[i])
    requires DistinctNames(declared)
    ensures forall i :: 0 <= i < |declared| ==>
              NameOf(declared[i]) in DeclaredMap(declared)
              && DeclaredMap(declared)[NameOf(declared[i])] == ClaimOf(declared[i])
    ensures forall p :: p in DeclaredMap(declared) ==> exists i :: 0 <= i < |declared| && NameOf(declared[i]) == p
  {
    hide NamesFile, NameOf;
    if declared == [] {
    } else {
      var n := |declared| - 1;
      var shorter := declared[..n];
      DeclaredMapIs(shorter);
      forall p | p in DeclaredMap(declared)
        ensures exists i :: 0 <= i < |declared| && NameOf(declared[i]) == p
      {
        if p in DeclaredMap(shorter) {
          var i :| 0 <= i < |shorter| && NameOf(shorter[i]) == p;
          assert NameOf(declared[i]) == p;
        }
      }
      forall i | 0 <= i < |declared|
        ensures NameOf(declared[i]) in DeclaredMap(declared)
        ensures DeclaredMap(declared)[NameOf(declared[i])] == ClaimOf(declared[i])
      {
        if i < n {
          assert shorter[i] == declared[i];
        }
      }
    }
  }

  /** Comparing the two maps decides whether the report is exact. */
  lemma MapsDecide(declared: seq<DeclaredChange>, claims: map<Path, Claim>)
    requires forall i :: 0 <= i < |declared| ==> NamesFile(declared[i])
    requires DistinctNames(declared)
    ensures DeclaredMap(declared) == claims <==> Declares(declared, claims)
  {
    hide NamesFile, NameOf, DeclaredMap;
    DeclaredMapIs(declared);
    var m := DeclaredMap(declared);
    if Declares(declared, claims) {
      forall p | p in m || p in claims
        ensures p in m && p in claims && m[p] == claims[p]
      {
        var i :| 0 <= i < |declared| && NameOf(declared[i]) == p;
      }
    }
  }

  lemma OneMoreDeclaration(declared: seq<DeclaredChange>, change: DeclaredChange)
    requires WellDeclared(declared) && Declarable(change)
    requires NameOf(change) !in DeclaredMap(declared)
    ensures WellDeclared(declared + [change])
    ensures DeclaredMap(declared + [change]) == DeclaredMap(declared)[NameOf(change) := ClaimOf(change)]
  {
    hide NamesFile, NameOf, DigestsFit;
    DeclaredMapIs(declared);
    assert (declared + [change])[..|declared|] == declared;
  }

  lemma RepeatedName(declared: seq<DeclaredChange>, k: nat, p: Path)
    requires k < |declared| && WellDeclared(declared[..k]) && NamesFile(declared[k]) && NameOf(declared[k]) == p
    requires p in DeclaredMap(declared[..k])
    ensures DeclarationFault(DeclaredTwice(p), declared)
    ensures !WellDeclared(declared)
  {
    hide Normalize, RootGit, DigestsFit;
    DeclaredMapIs(declared[..k]);
    var i :| 0 <= i < k && NameOf(declared[..k][i]) == p;
    assert Normalize(declared[i].path) == Some(p) && Normalize(declared[k].path) == Some(p);
    assert NameOf(declared[i]) == NameOf(declared[k]);
  }

  /** The checks on one declaration, in the source's order. */
  method CheckDeclaration(change: DeclaredChange) returns (bad: Option<Rejection>)
    ensures bad.None? <==> Declarable(change)
    ensures bad.Some? ==> DeclarationFault(bad.value, [change])
  {
    hide RootGit, DigestsFit, Normalize;
    ghost var alone := [change];
    assert alone[0] == change;
    var normal := Normalize(change.path);
    if normal.None? {
      return Some(BadPath(change.path));
    }
    if RootGit(normal.value) {
      return Some(GitDeclared(normal.value));
    }
    if !DigestsFit(change) {
      return Some(BadDigests(change.path));
    }
    return None;
  }

  lemma FaultOfOne(bad: Rejection, declared: seq<DeclaredChange>, k: nat)
    requires k < |declared| && DeclarationFault(bad, [declared[k]])
    ensures DeclarationFault(bad, declared)
  {
    hide RootGit, DigestsFit, Normalize;
    assert declared[k] == [declared[k]][0];
  }

  method CollectDeclarations(declared: seq<DeclaredChange>) returns (r: Result<map<Path, Claim>, Rejection>)
    ensures r.Ok? <==> WellDeclared(declared)
    ensures r.Ok? ==> r.value == DeclaredMap(declared)
    ensures r.Err? ==> DeclarationFault(r.error, declared)
  {
    hide NamesFile, NameOf, DigestsFit, DeclarationFault, DistinctNames;
    var expected: map<Path, Claim> := map[];
    NothingDeclared();
    for k := 0 to |declared|
      invariant WellDeclared(declared[..k])
      invariant expected == DeclaredMap(declared[..k])
    {
      var bad := CheckDeclaration(declared[k]);
      if bad.Some? {
        FaultOfOne(bad.value, declared, k);
        return Err(bad.value);
      }
      var name := NameOf(declared[k]);
      if name in expected {
        RepeatedName(declared, k, name);
        return Err(DeclaredTwice(name));
      }
      OneMoreDeclaration(declared[..k], declared[k]);
      assert declared[..k + 1] == declared[..k] + [declared[k]];
      expected := expected[name := ClaimOf(declared[k])];
    }
    assert declared[..|declared|] == declared;
    return Ok(expected);
  }

  lemma NothingDeclared()
    ensures WellDeclared([]) && DeclaredMap([]) == map[]
  {
  }

  method ValidateDiff(before: Snapshot, after: Snapshot, declared: seq<DeclaredChange>, limits: DiffLimits)
    returns (r: Result<seq<WorkspaceChange>, Rejection>)
    requires HasDigests(before) && HasDigests(after)
    ensures r.Ok? <==> DiffAccepted(before, after, declared, limits)
    ensures r.Ok? ==> r.value == Difference(before, after)
    ensures r.Err? ==> Justified(r.error, before, after, declared, limits)
  {
    hide DirectoryFault, ChangeFault, DeclarationFault, Difference, TrueClaims, DeclaredMap, Declarable;
    hide DirectoriesKept, NewDirectoriesSafe, ChangesAllowed, TotalSize;
    var bad := CheckDirectories(before, after);
    if bad.Some? {
      return Err(bad.value);
    }
    var collected, changedBytes := CollectChanges(before, after);
    if collected.Err? {
      return collected;
    }
    var actual := collected.value;
    if |actual| > limits.maxChangedFiles {
      return Err(TooManyChanges);
    }
    if changedBytes > limits.maxChangedBytes {
      return Err(TooManyBytes);
    }
    var expected := CollectDeclarations(declared);
    AcceptedAreWellDeclared(before, after, declared);
    if expected.Err? {
      return Err(expected.error);
    }
    WellDeclaredNames(declared);
    MapsDecide(declared, TrueClaims(before, after));
    if expected.value != TrueClaims(before, after) {
      return Err(Mismatch);
    }
    return Ok(actual);
  }

  lemma WellDeclaredNames(declared: seq<DeclaredChange>)
    requires WellDeclared(declared)
    ensures forall i :: 0 <= i < |declared| ==> NamesFile(declared[i])
  {
    forall i | 0 <= i < |declared|
      ensures NamesFile(declared[i])
    {
      assert Declarable(declared[i]);
    }
  }

  lemma AcceptedAreWellDeclared(before: Snapshot, after: Snapshot, declared: seq<DeclaredChange>)
    requires HasDigests(before) && HasDigests(after)
    ensures Declares(declared, TrueClaims(before, after)) ==> WellDeclared(declared)
  {
    hide DigestsFit, NamesFile, NameOf, TrueClaims;
    if Declares(declared, TrueClaims(before, after)) {
      forall i | 0 <= i < |declared|
        ensures Declarable(declared[i])
      {
        TrueClaimsAreCanonical(before, after, declared[i]);
      }
    }
  }

  // ---- What an accepted diff means --------------------------------------------------------

  /** The digest of every file. */
  function DigestsOf(snapshot: Snapshot): map<Path, string> {
    map p | p in snapshot.entries :: "sha256:" + snapshot.entries[p].digest
  }

  function Patch(digests: map<Path, string>, changes: seq<WorkspaceChange>): map<Path, string> {
    if changes == [] then digests
    else
      var n := |changes| - 1;
      var patched := Patch(digests, changes[..n]);
      match changes[n].after
      case Some(text) => patched[changes[n].path := text]
      case None => patched - {changes[n].path}
  }

  lemma {:induction false} PatchAt(digests: map<Path, string>, changes: seq<WorkspaceChange>, p: Path)
    requires Ascending(PathsOf(changes))
    ensures forall i :: 0 <= i < |changes| && changes[i].path == p
              ==> Get(Patch(digests, changes), p) == changes[i].after
    ensures p !in PathsOf(changes) ==> Get(Patch(digests, changes), p) == Get(digests, p)
  {
    if changes == [] {
    } else {
      var n := |changes| - 1;
      assert PathsOf(changes) == PathsOf(changes[..n]) + [changes[n].path];
      PatchAt(digests, changes[..n], p);
      AscendingIsDistinct(PathsOf(changes));
      assert forall i :: 0 <= i < n ==> PathsOf(changes)[i] == changes[i].path;
      assert PathsOf(changes)[n] == changes[n].path;
    }
  }

  /** Patching the digests before with the reported changes gives the digests after. */
  lemma PatchGivesAfter(before: Snapshot, after: Snapshot)
    ensures Patch(DigestsOf(before), Difference(before, after)) == DigestsOf(after)
  {
    hide ChangeAt, Difference, Patch, DigestsOf;
    var patched, wanted := Patch(DigestsOf(before), Difference(before, after)), DigestsOf(after);
    forall p
      ensures Get(patched, p) == Get(wanted, p)
    {
      PatchedAt(before, after, p);
    }
    MapsAgree(patched, wanted);
  }

  lemma MapsAgree<K, V>(m: map<K, V>, n: map<K, V>)
    requires forall k :: Get(m, k) == Get(n, k)
    ensures m == n
  {
    forall k
      ensures k in m <==> k in n
      ensures k in m ==> m[k] == n[k]
    {
      assert Get(m, k) == Get(n, k);
    }
  }

  lemma PatchedAt(before: Snapshot, after: Snapshot, p: Path)
    ensures Get(Patch(DigestsOf(before), Difference(before, after)), p) == Get(DigestsOf(after), p)
  {
    hide Patch, SortedKeys;
    var changes := Difference(before, after);
    PatchAt(DigestsOf(before), changes, p);
    if p in ChangedPaths(before, after) {
      assert p in PathsOf(changes);
      var i :| 0 <= i < |changes| && PathsOf(changes)[i] == p;
      assert Some(changes[i]) == ChangeAt(before, after, p);
    }
  }

  /** What a plugin that reports exactly its changes would declare. */
  function ExactReport(before: Snapshot, after: Snapshot): (r: seq<DeclaredChange>)
    ensures |r| == |Difference(before, after)|
  {
    var changes := Difference(before, after);
    seq(|changes|, i requires 0 <= i < |changes| =>
      DeclaredChange(changes[i].path, changes[i].kind, changes[i].before, changes[i].after))
  }

  lemma ReportedItem(before: Snapshot, after: Snapshot, i: nat)
    requires i < |Difference(before, after)|
    requires ChangesAllowed(before, after)
    requires forall p :: p in before.entries || p in after.entries ==> Canonical(p)
    ensures var p, declared := Difference(before, after)[i].path, ExactReport(before, after)[i];
            && NamesFile(declared) && NameOf(declared) == p
            && p in TrueClaims(before, after) && TrueClaims(before, after)[p] == ClaimOf(declared)
  {
    hide Normalize, Canonical, RootGit, SortedKeys;
    var p := Difference(before, after)[i].path;
    assert PathsOf(Difference(before, after))[i] == p;
    assert p in ChangedPaths(before, after);
    ChangedAreKeys(before, after);
    NormalizeIsCanonical(p);
    assert ChangeAllowed(after, p);
  }

  lemma ExactReportDeclares(before: Snapshot, after: Snapshot)
    requires ChangesAllowed(before, after)
    requires forall p :: p in before.entries || p in after.entries ==> Canonical(p)
    ensures Declares(ExactReport(before, after), TrueClaims(before, after))
  {
    hide NamesFile, NameOf, SortedKeys, ExactReport, Difference, ChangedPaths, ClaimOf, ChangesAllowed, TrueClaims;
    var paths, declared := PathsOf(Difference(before, after)), ExactReport(before, after);
    forall i: nat | i < |declared|
      ensures NamesFile(declared[i]) && NameOf(declared[i]) == paths[i]
      ensures paths[i] in TrueClaims(before, after)
      ensures TrueClaims(before, after)[paths[i]] == ClaimOf(declared[i])
    {
      ReportedItem(before, after, i);
    }
    AscendingIsDistinct(paths);
    forall p | p in TrueClaims(before, after)
      ensures exists i :: 0 <= i < |declared| && NameOf(declared[i]) == p
    {
      ClaimIsListed(before, after, p);
      var i :| 0 <= i < |paths| && paths[i] == p;
      assert NameOf(declared[i]) == p;
    }
  }

  lemma ClaimIsListed(before: Snapshot, after: Snapshot, p: Path)
    requires p in TrueClaims(before, after)
    ensures p in PathsOf(Difference(before, after))
  {
  }

  /** Within the rules, the exact report is accepted: nothing honest is refused. */
  lemma ExactReportIsAccepted(before: Snapshot, after: Snapshot, limits: DiffLimits)
    requires DirectoriesKept(before, after) && NewDirectoriesSafe(before, after) && ChangesAllowed(before, after)
    requires WithinLimits(Difference(before, after), limits)
    requires forall p :: p in before.entries || p in after.entries ==> Canonical(p)
    ensures DiffAccepted(before, after, ExactReport(before, after), limits)
  {
    hide DirectoriesKept, NewDirectoriesSafe, ChangesAllowed, Declares;
    ExactReportDeclares(before, after);
  }
}
