/**
 The descriptor table of a plugin process just before exec: everything but standard input and output
 and the inherited descriptors is marked close-on-exec, by one system call or by a scan.
 */
module Descriptors {
  import opened Wrappers

  type Fd = nat
  type Flags = bv32
  type Open = map<Fd, Flags>

  const CLOEXEC: Flags := 1
  const FIRST: Fd := 3
  const I32_MAX: nat := 0x7FFF_FFFF

  datatype Failure = BadDescriptor(fd: Fd) | Refused | InfiniteLimit | LimitTooLarge

  /** What close_range answers: done, not implemented (or no such call), or another error. */
  datatype CloseRange = Works | Missing | Fails

  predicate ClosesOnExec(flags: Flags) {
    flags & CLOEXEC == CLOEXEC
  }

  function Mark(flags: Flags): (r: Flags)
    ensures ClosesOnExec(r) && (ClosesOnExec(flags) <==> r == flags)
  {
    flags | CLOEXEC
  }

  function Clear(flags: Flags): (r: Flags)
    ensures !ClosesOnExec(r) && (!ClosesOnExec(flags) <==> r == flags)
  {
    flags & !CLOEXEC
  }

  /** Close-on-exec is the lowest flag. */
  lemma LowestFlag(flags: Flags)
    ensures ClosesOnExec(flags) <==> flags & 1 == 1
  {
  }

  /** The flags a descriptor is meant to end up with. */
  function Wanted(fd: Fd, flags: Flags, inherited: seq<Fd>): Flags {
    if fd in inherited then Clear(flags) else if fd >= FIRST then Mark(flags) else flags
  }

  function AllWanted(open: Open, inherited: seq<Fd>): Open {
    map fd | fd in open :: Wanted(fd, open[fd], inherited)
  }

  /** The same, for the descriptors a scan below maximum reaches. */
  function Scanned(open: Open, inherited: seq<Fd>, maximum: nat): Open {
    map fd | fd in open :: if FIRST <= fd < maximum then Wanted(fd, open[fd], inherited) else open[fd]
  }

  /** RLIMIT_NOFILE as a scan bound; None is the infinite limit. */
  function ScanMaximum(limit: Option<nat>): Result<nat, Failure> {
    match limit
    case None => Err(InfiniteLimit)
    case Some(n) => if n > I32_MAX then Err(LimitTooLarge) else Ok(n)
  }

  predicate InheritedAreOpen(open: Open, inherited: seq<Fd>) {
    forall fd :: fd in inherited ==> fd in open
  }

  predicate ReachedAreOpen(open: Open, inherited: seq<Fd>, maximum: nat) {
    forall fd :: fd in inherited && FIRST <= fd < maximum ==> fd in open
  }

  class Process {
    var open: Open

    method ClearCloseOnExec(fd: Fd) returns (ok: bool)
      modifies this
      ensures ok == (fd in old(open))
      ensures open == if ok then old(open)[fd := Clear(old(open)[fd])] else old(open)
    {
      ok := fd in open;
      if ok {
        open := open[fd := Clear(open[fd])];
      }
    }

    /** The system call marks every descriptor from 3 up; the inherited ones are then cleared again. */
    method MarkAndClear(inherited: seq<Fd>) returns (bad: Option<Failure>)
      modifies this
      ensures bad.None? <==> InheritedAreOpen(old(open), inherited)
      ensures bad.None? ==> open == AllWanted(old(open), inherited)
    {
      hide Mark, Clear, ClearedSome, AllWanted;
      ghost var before := open;
      open := Marked(open);
      MarkedOnly(before);
      for k := 0 to |inherited|
        invariant open == ClearedSome(Marked(before), inherited[..k])
        invariant forall fd :: fd in inherited[..k] ==> fd in before
      {
        var fd := inherited[k];
        assert inherited[..k + 1] == inherited[..k] + [fd];
        assert fd in inherited;
        ClearedSomeMore(Marked(before), inherited[..k], fd);
        var ok := ClearCloseOnExec(fd);
        if !ok {
          return Some(BadDescriptor(fd));
        }
      }
      assert inherited[..|inherited|] == inherited;
      MarkedThenCleared(before, inherited);
      return None;
    }

    /** Without the system call: every number from 3 up to the limit is tried. */
    method Scan(inherited: seq<Fd>, limit: Option<nat>) returns (bad: Option<Failure>)
      modifies this
      ensures bad.None? <==> ScanMaximum(limit).Ok? && ReachedAreOpen(old(open), inherited, ScanMaximum(limit).value)
      ensures bad.None? ==> open == Scanned(old(open), inherited, ScanMaximum(limit).value)
    {
      hide Mark, Clear, Scanned;
      var maximum := ScanMaximum(limit);
      if maximum.Err? {
        return Some(maximum.error);
      }
      ghost var before := open;
      var fd: Fd := FIRST;
      NothingScanned(before, inherited);
      ScannedUpTo(before, inherited, maximum.value, FIRST);
      while fd < maximum.value
        invariant FIRST <= fd && (fd <= maximum.value || fd == FIRST)
        invariant open == Scanned(before, inherited, fd)
        invariant forall x :: x in inherited && FIRST <= x < fd ==> x in before
      {
        ScannedMore(before, inherited, fd);
        if fd in inherited {
          var ok := ClearCloseOnExec(fd);
          if !ok {
            return Some(BadDescriptor(fd));
          }
        } else if fd in open {
          open := open[fd := Mark(open[fd])];
        }
        fd := fd + 1;
      }
      return None;
    }

    method PreExec(inherited: seq<Fd>, closeRange: CloseRange, limit: Option<nat>) returns (bad: Option<Failure>)
      modifies this
      ensures closeRange.Works? ==> (bad.None? <==> InheritedAreOpen(old(open), inherited))
      ensures closeRange.Works? && bad.None? ==> open == AllWanted(old(open), inherited)
      ensures closeRange.Missing? && bad.None? ==>
                limit.Some? && open == Scanned(old(open), inherited, limit.value)
      ensures closeRange.Missing? ==>
                (bad.None? <==> limit.Some? && limit.value <= 0x7FFF_FFFF
                                && ReachedAreOpen(old(open), inherited, limit.value))
      ensures closeRange.Fails? ==> bad == Some(Refused) && open == old(open)
    {
      match closeRange
      case Works => bad := MarkAndClear(inherited);
      case Missing => bad := Scan(inherited, limit);
      case Fails => bad := Some(Refused);
    }
  }

  function Marked(open: Open): Open {
    map fd | fd in open :: if fd >= FIRST then Mark(open[fd]) else open[fd]
  }

  function ClearedSome(open: Open, some: seq<Fd>): Open {
    map fd | fd in open :: if fd in some then Clear(open[fd]) else open[fd]
  }

  lemma MarkedOnly(open: Open)
    ensures ClearedSome(Marked(open), []) == Marked(open) && Marked(open).Keys == open.Keys
  {
  }

  lemma ClearedSomeMore(open: Open, some: seq<Fd>, fd: Fd)
    ensures ClearedSome(open, some).Keys == open.Keys
    ensures fd in open ==>
              ClearedSome(open, some + [fd]) == ClearedSome(open, some)[fd := Clear(ClearedSome(open, some)[fd])]
  {
  }

  lemma MarkedThenCleared(open: Open, inherited: seq<Fd>)
    ensures ClearedSome(Marked(open), inherited) == AllWanted(open, inherited)
  {
  }

  lemma NothingScanned(open: Open, inherited: seq<Fd>)
    ensures Scanned(open, inherited, FIRST) == open
  {
  }

  /** Below 3 there is nothing to scan. */
  lemma ScannedUpTo(open: Open, inherited: seq<Fd>, maximum: nat, fd: Fd)
    requires fd == FIRST
    ensures maximum <= fd ==> Scanned(open, inherited, maximum) == Scanned(open, inherited, fd)
  {
  }

  lemma ScannedMore(open: Open, inherited: seq<Fd>, fd: Fd)
    requires fd >= FIRST
    ensures var now := Scanned(open, inherited, fd);
            && now.Keys == open.Keys
            && (fd !in open ==> Scanned(open, inherited, fd + 1) == now)
            && (fd in open && fd in inherited ==> Scanned(open, inherited, fd + 1) == now[fd := Clear(now[fd])])
            && (fd in open && fd !in inherited ==> Scanned(open, inherited, fd + 1) == now[fd := Mark(now[fd])])
  {
    hide Mark, Clear;
  }

  /** A descriptor the scan does not reach but the system call would change. */
  ghost predicate Missed(open: Open, inherited: seq<Fd>, maximum: nat, fd: Fd) {
    && fd in open && !(FIRST <= fd < maximum)
    && if fd in inherited then ClosesOnExec(open[fd]) else fd >= FIRST && !ClosesOnExec(open[fd])
  }

  /**
   The two ways leave the same table exactly when no open descriptor lies outside the scanned range
   with a flag that the system call path would have changed.
   */
  lemma PathsAgreeIff(open: Open, inherited: seq<Fd>, maximum: nat)
    ensures AllWanted(open, inherited) == Scanned(open, inherited, maximum)
       <==> forall fd :: !Missed(open, inherited, maximum, fd)
  {
    hide Mark, Clear, ClosesOnExec;
    var all, scanned := AllWanted(open, inherited), Scanned(open, inherited, maximum);
    assert all.Keys == scanned.Keys == open.Keys;
    forall fd | fd in open
      ensures all[fd] != scanned[fd] <==> Missed(open, inherited, maximum, fd)
    {
    }
    if all != scanned {
      var fd :| fd in open && all[fd] != scanned[fd];
    }
  }

  /** The case the scan is meant for: every open descriptor below the limit, none inherited below 3. */
  lemma PathsAgreeBelowLimit(open: Open, inherited: seq<Fd>, maximum: nat)
    requires forall fd :: fd in open ==> fd < maximum
    requires forall fd :: fd in inherited ==> fd >= FIRST
    ensures AllWanted(open, inherited) == Scanned(open, inherited, maximum)
  {
    PathsAgreeIff(open, inherited, maximum);
  }

  /** What exec leaves open. */
  function Surviving(open: Open): set<Fd> {
    set fd | fd in open && !ClosesOnExec(open[fd])
  }

  /** The plugin gets the inherited descriptors, standard input and output, and nothing else. */
  lemma OnlyInheritedSurvive(open: Open, inherited: seq<Fd>)
    requires InheritedAreOpen(open, inherited)
    ensures Surviving(AllWanted(open, inherited))
         == (set fd | fd in inherited) + (set fd | fd in Surviving(open) && fd < 3)
  {
    hide Mark, Clear, ClosesOnExec;
  }
}
