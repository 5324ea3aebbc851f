/** Waiting for a deployment: ask for its state until it is final or the time is up. */
module Polling {
  import opened Wrappers

  datatype State = Queued | Building | Deploying | Ready | Error | TornDown

  predicate InProgress(state: State) {
    state.Queued? || state.Building? || state.Deploying?
  }

  datatype Status = Status(status: string, url: Option<string>, failureReason: Option<string>)

  datatype WaitError =
    | Transport(message: string) | UnknownState(status: string)
    | Failed(state: string, reason: string) | TimedOut(lastState: string)

  function StateOf(status: string): Option<State> {
    match status
    case "queued" => Some(Queued)
    case "building" => Some(Building)
    case "deploying" => Some(Deploying)
    case "ready" => Some(Ready)
    case "error" => Some(Error)
    case "torn_down" => Some(TornDown)
    case _ => None
  }

  /**
   One wait against the world: what the k-th request answers and how long it takes, and by how much
   the sleep after it exceeds what was asked for.
   */
  datatype World = World(
    interval: nat,
    timeout: nat,
    answers: nat -> Result<Status, string>,
    took: nat -> nat,
    late: nat -> nat)

  /** The time since the start, right after request k. */
  function Clock(w: World, k: nat): nat {
    if k == 0 then w.took(0)
    else
      var before := Clock(w, k - 1);
      var remaining := if before < w.timeout then w.timeout - before else 0;
      before + Minimum(w.interval, remaining) + w.late(k - 1) + w.took(k)
  }

  function Fetched(w: World, k: nat): Option<State> {
    match w.answers(k)
    case Err(_) => None
    case Ok(status) => StateOf(status.status)
  }

  /** After request k the deployment is still in progress and there is time left. */
  predicate GoesOn(w: World, k: nat) {
    Fetched(w, k).Some? && InProgress(Fetched(w, k).value) && Clock(w, k) < w.timeout
  }

  /** What the wait returns when request k is its last. */
  function Verdict(w: World, k: nat): Result<Status, WaitError> {
    match w.answers(k)
    case Err(message) => Err(Transport(message))
    case Ok(status) =>
      match StateOf(status.status)
      case None => Err(UnknownState(status.status))
      case Some(Ready) => Ok(status)
      case Some(Error) => Err(Failed(status.status, Reason(status)))
      case Some(TornDown) => Err(Failed(status.status, Reason(status)))
      case Some(_) => Err(TimedOut(status.status))
  }

  /** How the control plane spells a state. */
  function Spelling(state: State): string {
    match state
    case Queued => "queued"
    case Building => "building"
    case Deploying => "deploying"
    case Ready => "ready"
    case Error => "error"
    case TornDown => "torn_down"
  }

  lemma SpellingsAreRead(text: string, state: State)
    ensures StateOf(text) == Some(state) <==> text == Spelling(state)
  {
  }

  /** The verdict on the last answer, in the control plane's words. */
  lemma VerdictMeans(w: World, k: nat)
    requires !GoesOn(w, k)
    ensures match w.answers(k)
            case Err(message) => Verdict(w, k) == Err(Transport(message))
            case Ok(status) =>
              && (status.status == "ready" ==> Verdict(w, k) == Ok(status))
              && (status.status in {"error", "torn_down"} ==>
                    && Verdict(w, k).Err? && Verdict(w, k).error.Failed? && Verdict(w, k).error.state == status.status
                    && Verdict(w, k).error.reason
                       == (if status.failureReason.Some? then status.failureReason.value
                           else "deployment ended without a failure reason"))
              && (status.status in {"queued", "building", "deploying"} ==>
                    Verdict(w, k) == Err(TimedOut(status.status)) && Clock(w, k) >= w.timeout)
              && (status.status !in {"ready", "error", "torn_down", "queued", "building", "deploying"} ==>
                    Verdict(w, k) == Err(UnknownState(status.status)))
  {
    hide Clock;
  }

  function Reason(status: Status): string {
    match status.failureReason
    case Some(reason) => reason
    case None => "deployment ended without a failure reason"
  }

  // ---- The events -------------------------------------------------------------------------

  /** A list with adjacent repeats removed. */
  function Squeeze(states: seq<State>): (r: seq<State>)
    ensures |r| <= |states|
    ensures states != [] ==> r != [] && r[0] == states[0]
  {
    if |states| < 2 then states
    else if states[0] == states[1] then Squeeze(states[1..])
    else [states[0]] + Squeeze(states[1..])
  }

  lemma {:induction false} SqueezeKeepsStates(states: seq<State>, s: State)
    ensures s in Squeeze(states) <==> s in states
  {
    if |states| < 2 {
    } else {
      assert s in states <==> s == states[0] || s in states[1..];
      SqueezeKeepsStates(states[1..], s);
    }
  }

  predicate NoRepeats(states: seq<State>) {
    forall i :: 0 < i < |states| ==> states[i - 1] != states[i]
  }

  lemma {:induction false} SqueezeHasNoRepeats(states: seq<State>)
    ensures NoRepeats(Squeeze(states))
    ensures NoRepeats(states) <==> Squeeze(states) == states
  {
    if |states| < 2 {
    } else {
      var rest := states[1..];
      SqueezeHasNoRepeats(rest);
      if states[0] == states[1] {
        assert !NoRepeats(states) by {
          assert states[1 - 1] == states[1];
        }
      } else {
        var squeezed := [states[0]] + Squeeze(rest);
        forall i | 0 < i < |squeezed|
          ensures squeezed[i - 1] != squeezed[i]
        {
          assert i > 1 ==> squeezed[i - 1] == Squeeze(rest)[i - 2] && squeezed[i] == Squeeze(rest)[i - 1];
        }
        if NoRepeats(states) {
          assert forall i :: 0 < i < |rest| ==> rest[i - 1] == states[i] && rest[i] == states[i + 1];
        }
        assert Squeeze(states) == states ==> Squeeze(states)[1..] == states[1..];
      }
    }
  }

  lemma SqueezeStep(states: seq<State>)
    requires |states| >= 2
    ensures Squeeze(states)
         == if states[0] == states[1] then Squeeze(states[1..]) else [states[0]] + Squeeze(states[1..])
  {
  }

  lemma SqueezeShort(states: seq<State>)
    requires |states| < 2
    ensures Squeeze(states) == states
  {
  }

  lemma {:induction false} SqueezeAppends(states: seq<State>, state: State)
    ensures states != [] ==> Squeeze(states)[|Squeeze(states)| - 1] == states[|states| - 1]
    ensures Squeeze(states + [state])
         == if states != [] && states[|states| - 1] == state then Squeeze(states) else Squeeze(states) + [state]
  {
    hide Squeeze;
    var longer := states + [state];
    if |states| < 2 {
      SqueezeShort(states);
      SqueezeShort([state]);
      if states == [] {
        assert longer == [state];
      } else {
        assert longer[1..] == [state];
        SqueezeStep(longer);
      }
    } else {
      var rest := states[1..];
      SqueezeAppends(rest, state);
      assert longer[1..] == rest + [state];
      SqueezeStep(states);
      SqueezeStep(longer);
      assert rest[|rest| - 1] == states[|states| - 1];
    }
  }

  /** The states of the first n answers, as far as they name one. */
  function FetchedStates(w: World, n: nat): seq<State> {
    if n == 0 then []
    else
      FetchedStates(w, n - 1)
      + (match Fetched(w, n - 1) case Some(state) => [state] case None => [])
  }

  // ---- The loop ---------------------------------------------------------------------------

  /** How often an interval must pass to cover the timeout. */
  function CeilDiv(a: nat, b: nat): nat
    requires b > 0
  {
    (a + b - 1) / b
  }

  lemma BelowCeil(k: nat, a: nat, b: nat)
    requires b > 0
    ensures k * b < a <==> k < CeilDiv(a, b)
  {
    var q := CeilDiv(a, b);
    DivBounds(a + b - 1, b);
    if k < q {
      TimesGrows(k + 1, q, b);
    } else {
      TimesGrows(q, k, b);
    }
  }

  lemma DivBounds(n: nat, b: nat)
    requires b > 0
    ensures n / b * b <= n < n / b * b + b
  {
  }

  lemma TimesGrows(k: nat, q: nat, b: nat)
    requires k <= q
    ensures k * b <= q * b
  {
  }

  /** As long as the wait goes on, every earlier sleep was a whole interval. */
  lemma {:induction false} ClockAdvances(w: World, k: nat)
    requires forall j :: 0 <= j < k ==> GoesOn(w, j)
    ensures Clock(w, k) >= Minimum(k * w.interval, w.timeout)
  {
    if k == 0 {
    } else {
      ClockAdvances(w, k - 1);
      assert GoesOn(w, k - 1);
      assert k * w.interval == (k - 1) * w.interval + w.interval;
    }
  }

  /** With a positive interval, the wait goes on at most ceil(timeout / interval) times. */
  lemma WaitEnds(w: World, k: nat)
    requires w.interval > 0 && forall j :: 0 <= j < k ==> GoesOn(w, j)
    ensures k <= CeilDiv(w.timeout, w.interval)
  {
    hide Clock, CeilDiv;
    if k > 0 {
      ClockAdvances(w, k - 1);
      assert GoesOn(w, k - 1);
      BelowCeil(k - 1, w.timeout, w.interval);
    }
  }

  /** The wait comes to an end against this world. */
  ghost predicate Ends(w: World) {
    exists k: nat :: !GoesOn(w, k)
  }

  /** With a positive interval it always does; with none, the answers and their delays must end it. */
  lemma PositiveIntervalEnds(w: World)
    ensures w.interval > 0 ==> Ends(w)
  {
    hide GoesOn, CeilDiv;
    if w.interval > 0 && forall k: nat :: GoesOn(w, k) {
      WaitEnds(w, CeilDiv(w.timeout, w.interval) + 1);
    }
  }

  method Wait(w: World) returns (r: Result<Status, WaitError>, events: seq<State>, requests: nat)
    requires Ends(w)
    ensures requests >= 1
    ensures w.interval > 0 ==> requests <= CeilDiv(w.timeout, w.interval) + 1
    ensures forall k :: 0 <= k < requests - 1 ==> GoesOn(w, k)
    ensures !GoesOn(w, requests - 1) && r == Verdict(w, requests - 1)
    ensures r.Ok? <==> w.answers(requests - 1).Ok? && w.answers(requests - 1).value.status == "ready"
    ensures events == Squeeze(FetchedStates(w, requests))
  {
    hide Squeeze, StateOf, Clock, CeilDiv, FetchedStates;
    events := [];
    requests := 0;
    var clock: nat := 0;
    var previous: Option<State> := None;
    Begins(w);
    ghost var last: nat :| !GoesOn(w, last);
    while true
      invariant forall k :: 0 <= k < requests ==> GoesOn(w, k)
      invariant events == Squeeze(FetchedStates(w, requests))
      invariant previous == (if requests == 0 then None else Fetched(w, requests - 1))
      invariant clock + w.took(requests) == Clock(w, requests)
      invariant w.interval > 0 ==> requests <= CeilDiv(w.timeout, w.interval)
      decreases last - requests
    {
      var k := requests;
      requests := requests + 1;
      var answer := w.answers(k);
      clock := clock + w.took(k);
      assert k > 0 ==> GoesOn(w, k - 1);
      FetchedSteps(w, k);
      if answer.Err? {
        return Err(Transport(answer.error)), events, requests;
      }
      var status := answer.value;
      var state := StateOf(status.status);
      SpellingsAreRead(status.status, Ready);
      if state.None? {
        return Err(UnknownState(status.status)), events, requests;
      }
      SqueezeAppends(FetchedStates(w, k), state.value);
      if previous != state {
        events := events + [state.value];
        previous := state;
      }
      match state.value {
        case Ready => return Ok(status), events, requests;
        case Error => return Err(Failed(status.status, Reason(status))), events, requests;
        case TornDown => return Err(Failed(status.status, Reason(status))), events, requests;
        case _ =>
      }
      if clock >= w.timeout {
        return Err(TimedOut(status.status)), events, requests;
      }
      assert GoesOn(w, k);
      assert last > k;
      if w.interval > 0 {
        WaitEnds(w, k + 1);
      }
      ClockSteps(w, k);
      clock := clock + Minimum(w.interval, w.timeout - clock) + w.late(k);
    }
  }

  lemma FetchedSteps(w: World, k: nat)
    ensures Fetched(w, k).None? ==> FetchedStates(w, k + 1) == FetchedStates(w, k)
    ensures Fetched(w, k).Some? ==> FetchedStates(w, k + 1) == FetchedStates(w, k) + [Fetched(w, k).value]
    ensures k == 0 ==> FetchedStates(w, k) == []
    ensures k > 0 && Fetched(w, k - 1).Some? ==>
              FetchedStates(w, k) != [] && FetchedStates(w, k)[|FetchedStates(w, k)| - 1] == Fetched(w, k - 1).value
  {
    hide Fetched;
  }

  lemma Begins(w: World)
    ensures Squeeze(FetchedStates(w, 0)) == [] && Clock(w, 0) == w.took(0)
  {
  }

  lemma ClockSteps(w: World, k: nat)
    requires Clock(w, k) < w.timeout
    ensures Clock(w, k + 1)
         == Clock(w, k) + Minimum(w.interval, w.timeout - Clock(w, k)) + w.late(k) + w.took(k + 1)
  {
  }

  // ---- The bound is reached ---------------------------------------------------------------

  /** Instant answers, exact sleeps, a deployment that never ends. */
  ghost predicate Punctual(w: World) {
    && (forall k :: Fetched(w, k).Some? && InProgress(Fetched(w, k).value))
    && (forall k :: w.took(k) == 0 && w.late(k) == 0)
  }

  lemma {:induction false} PunctualClock(w: World, k: nat)
    requires Punctual(w)
    ensures Clock(w, k) == Minimum(k * w.interval, w.timeout)
  {
    if k == 0 {
    } else {
      PunctualClock(w, k - 1);
      assert k * w.interval == (k - 1) * w.interval + w.interval;
    }
  }

  /** Then the wait goes on after request k exactly for k below ceil(timeout / interval). */
  lemma BoundIsReached(w: World, k: nat)
    requires w.interval > 0 && Punctual(w)
    ensures GoesOn(w, k) <==> k < CeilDiv(w.timeout, w.interval)
  {
    hide Clock, CeilDiv;
    PunctualClock(w, k);
    BelowCeil(k, w.timeout, w.interval);
  }
}
