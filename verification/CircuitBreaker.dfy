/** The circuit breaker of the controller. Execute is two locked sections with the protected
    call between them; any number of calls may be between their sections at once, so a run
    is any sequence of entry and exit sections in clock order. */
module CircuitBreaker {

  datatype State = Closed | Open | HalfOpen

  datatype Config = Config(threshold: int, resetTimeout: int)

  datatype Breaker = Breaker(state: State, failureCount: int, lastFailure: int)

  const Initial := Breaker(Closed, 0, 0)

  // ---------------------------------------------------------------------------
  // The two sections
  // ---------------------------------------------------------------------------

  predicate Admits(c: Config, b: Breaker, now: int) {
    b.state != Open || now - b.lastFailure > c.resetTimeout
  }

  function Enter(c: Config, b: Breaker, now: int): Breaker {
    if b.state == Open && now - b.lastFailure > c.resetTimeout then b.(state := HalfOpen) else b
  }

  function Exit(c: Config, b: Breaker, now: int, failed: bool): Breaker {
    if failed then
      Breaker(if b.failureCount + 1 >= c.threshold then Open else b.state, b.failureCount + 1, now)
    else b.(state := Closed, failureCount := 0)
  }

  class CircuitBreaker {
    const failureThreshold: int
    const resetTimeout: int
    var state: State
    var failureCount: int
    var lastFailure: int

    ghost function View(): Breaker
      reads this
    {
      Breaker(state, failureCount, lastFailure)
    }

    ghost function Cfg(): Config { Config(failureThreshold, resetTimeout) }

    constructor (threshold: int, timeout: int)
      ensures View() == Initial && Cfg() == Config(threshold, timeout)
    {
      failureThreshold, resetTimeout := threshold, timeout;
      state, failureCount, lastFailure := Closed, 0, 0;
    }

    /** The section before the call; `false` is ErrCircuitOpen. */
    method EntrySection(now: int) returns (admitted: bool)
      modifies this
      ensures admitted == Admits(Cfg(), old(View()), now)
      ensures View() == Enter(Cfg(), old(View()), now)
    {
      match state {
        case Open =>
          if now - lastFailure > resetTimeout {
            state := HalfOpen;
          } else {
            return false;
          }
        case HalfOpen =>
        case Closed =>
      }
      admitted := true;
    }

    /** The section after the call. */
    method ExitSection(now: int, failed: bool)
      modifies this
      ensures View() == Exit(Cfg(), old(View()), now, failed)
    {
      if failed {
        failureCount := failureCount + 1;
        lastFailure := now;
        if failureCount >= failureThreshold {
          state := Open;
        }
        return;
      }
      failureCount := 0;
      state := Closed;
    }
  }

  // ---------------------------------------------------------------------------
  // Every interleaving
  // ---------------------------------------------------------------------------

  datatype Event = Entered(at: int) | Exited(at: int, failed: bool)

  function After(c: Config, es: seq<Event>): Breaker {
    if |es| == 0 then Initial
    else
      var b := After(c, es[..|es| - 1]);
      match es[|es| - 1]
      case Entered(now) => Enter(c, b, now)
      case Exited(now, failed) => Exit(c, b, now, failed)
  }

  ghost predicate Clocked(es: seq<Event>) {
    forall i, j :: 0 <= i < j < |es| ==> es[i].at <= es[j].at
  }

  /** History only: the number of failed completions since the last successful one. */
  function TrailingFailures(es: seq<Event>): nat {
    if |es| == 0 then 0
    else
      var front := es[..|es| - 1];
      match es[|es| - 1]
      case Entered(_) => TrailingFailures(front)
      case Exited(_, failed) => if failed then TrailingFailures(front) + 1 else 0
  }

  /** History only: when the latest failed completion happened. */
  function LatestFailure(es: seq<Event>): int {
    if |es| == 0 then 0
    else
      match es[|es| - 1]
      case Exited(now, true) => now
      case _ => LatestFailure(es[..|es| - 1])
  }

  ghost predicate NotBefore(es: seq<Event>, now: int) {
    forall i :: 0 <= i < |es| ==> es[i].at <= now
  }

  /** What the fields mean, in terms of the history of completions. */
  ghost predicate FieldsTellHistory(c: Config, es: seq<Event>) {
    var b := After(c, es);
    && b.failureCount == TrailingFailures(es)
    && b.lastFailure == LatestFailure(es)
    && (b.state == Closed <==> TrailingFailures(es) < c.threshold)
    && (b.state == HalfOpen ==> |es| > 0 && es[|es| - 1].at - LatestFailure(es) > c.resetTimeout)
  }

  lemma {:induction false} EveryRunTellsHistory(c: Config, es: seq<Event>)
    requires c.threshold >= 1 && Clocked(es)
    ensures FieldsTellHistory(c, es)
  {
    if |es| > 0 {
      var front, last := es[..|es| - 1], es[|es| - 1];
      EveryRunTellsHistory(c, front);
      if |front| > 0 { assert front[|front| - 1].at <= last.at; }
    }
  }

  /** Over every interleaving, whether a call is admitted depends on the completions alone:
      it is admitted exactly when the trailing run of failures is below the threshold or the
      latest failure is more than the timeout ago. */
  lemma AdmittedIff(c: Config, es: seq<Event>, now: int)
    requires c.threshold >= 1 && Clocked(es) && NotBefore(es, now)
    ensures Admits(c, After(c, es), now) <==>
              TrailingFailures(es) < c.threshold || now - LatestFailure(es) > c.resetTimeout
  {
    EveryRunTellsHistory(c, es);
    if |es| > 0 { assert es[|es| - 1].at <= now; }
  }

  /** A threshold below one breaks the reading of the state, from the start on; any other
      threshold keeps it in every run. */
  lemma StateTellsHistoryIff(c: Config)
    ensures (forall es :: Clocked(es) ==> FieldsTellHistory(c, es)) <==> c.threshold >= 1
  {
    if c.threshold >= 1 {
      forall es | Clocked(es) ensures FieldsTellHistory(c, es) { EveryRunTellsHistory(c, es); }
    } else {
      assert Clocked([]) && !FieldsTellHistory(c, []);
    }
  }

  /** A run of failures opens the breaker, and then nothing passes for the whole timeout. */
  lemma OpenRejectsUntilTimeout(c: Config, es: seq<Event>, now: int)
    requires c.threshold >= 1 && Clocked(es) && NotBefore(es, now)
    requires TrailingFailures(es) >= c.threshold && now - LatestFailure(es) <= c.resetTimeout
    ensures After(c, es).state == Open && !Admits(c, After(c, es), now)
    ensures Enter(c, After(c, es), now) == After(c, es)
  {
    AdmittedIff(c, es, now);
  }

  // ---------------------------------------------------------------------------
  // Probes
  // ---------------------------------------------------------------------------

  /** The breaker after a series of arrivals none of which has completed. */
  function Arrive(c: Config, b: Breaker, arrivals: seq<int>): Breaker {
    if |arrivals| == 0 then b
    else Enter(c, Arrive(c, b, arrivals[..|arrivals| - 1]), arrivals[|arrivals| - 1])
  }

  /** How many of them pass. */
  function Passed(c: Config, b: Breaker, arrivals: seq<int>): nat {
    if |arrivals| == 0 then 0
    else
      var front := arrivals[..|arrivals| - 1];
      Passed(c, b, front) + if Admits(c, Arrive(c, b, front), arrivals[|arrivals| - 1]) then 1 else 0
  }

  /** How many of them come more than the timeout after the latest failure. */
  function Late(c: Config, b: Breaker, arrivals: seq<int>): nat {
    if |arrivals| == 0 then 0
    else
      Late(c, b, arrivals[..|arrivals| - 1])
      + if arrivals[|arrivals| - 1] - b.lastFailure > c.resetTimeout then 1 else 0
  }

  ghost predicate InOrder(ts: seq<int>) {
    forall i, j :: 0 <= i < j < |ts| ==> ts[i] <= ts[j]
  }

  /** A half-open breaker lets every arrival pass, and stays half-open until one completes. */
  lemma {:induction false} HalfOpenPassesAll(c: Config, b: Breaker, arrivals: seq<int>)
    requires b.state == HalfOpen
    ensures Passed(c, b, arrivals) == |arrivals| && Arrive(c, b, arrivals) == b
  {
    if |arrivals| > 0 { HalfOpenPassesAll(c, b, arrivals[..|arrivals| - 1]); }
  }

  /** An open breaker lets exactly the arrivals after the timeout pass, however many they are. */
  lemma {:induction false} OpenPassesTheLate(c: Config, b: Breaker, arrivals: seq<int>)
    requires b.state == Open && InOrder(arrivals)
    ensures Passed(c, b, arrivals) == Late(c, b, arrivals)
    ensures Arrive(c, b, arrivals) == b.(state := if Late(c, b, arrivals) > 0 then HalfOpen else Open)
  {
    if |arrivals| > 0 {
      var front, last := arrivals[..|arrivals| - 1], arrivals[|arrivals| - 1];
      OpenPassesTheLate(c, b, front);
      if last - b.lastFailure <= c.resetTimeout { NoneLateBefore(c, b, arrivals); }
    }
  }

  lemma {:induction false} NoneLateBefore(c: Config, b: Breaker, arrivals: seq<int>)
    requires InOrder(arrivals) && |arrivals| > 0
    requires arrivals[|arrivals| - 1] - b.lastFailure <= c.resetTimeout
    ensures Late(c, b, arrivals) == 0
  {
    if |arrivals| > 1 { NoneLateBefore(c, b, arrivals[..|arrivals| - 1]); }
  }

  /** The comment on the half-open state promises a single probe. The code has no such guard:
      before the first completion, at most one call passes a breaker that is not closed if and
      only if at most one arrives that could: any arrival when it is half-open, one after the
      timeout when it is open. */
  lemma OneProbeIff(c: Config, b: Breaker, arrivals: seq<int>)
    requires b.state != Closed && InOrder(arrivals)
    ensures Passed(c, b, arrivals) <= 1 <==>
              if b.state == HalfOpen then |arrivals| <= 1 else Late(c, b, arrivals) <= 1
  {
    if b.state == HalfOpen { HalfOpenPassesAll(c, b, arrivals); } else { OpenPassesTheLate(c, b, arrivals); }
  }

  /** After the timeout, n simultaneous calls are n probes. */
  lemma AnyNumberOfProbes(c: Config, b: Breaker, at: int, n: nat)
    requires b.state == Open && at - b.lastFailure > c.resetTimeout
    ensures Passed(c, b, seq(n, _ => at)) == n
  {
    OpenPassesTheLate(c, b, seq(n, _ => at));
    AllLate(c, b, at, n);
  }

  lemma {:induction false} AllLate(c: Config, b: Breaker, at: int, n: nat)
    requires at - b.lastFailure > c.resetTimeout
    ensures Late(c, b, seq(n, _ => at)) == n
  {
    if n > 0 {
      assert seq(n, _ => at)[..n - 1] == seq(n - 1, _ => at);
      AllLate(c, b, at, n - 1);
    }
  }

  /** A run in which two probes are out at once. */
  lemma TwoProbesAtOnce(timeout: nat)
    ensures var c := Config(1, timeout);
            var es := [Entered(0), Exited(0, true), Entered(timeout + 1)];
            && Clocked(es)
            && Admits(c, After(c, es[..2]), timeout + 1)
            && After(c, es).state == HalfOpen
            && Admits(c, After(c, es), timeout + 1)
  {
    var c := Config(1, timeout);
    var es := [Entered(0), Exited(0, true), Entered(timeout + 1)];
    assert es[..2] == [Entered(0), Exited(0, true)] && es[..2][..1] == [Entered(0)] && es[..2][..1][..0] == [];
    assert After(c, es[..2][..1]) == Initial;
    assert After(c, es[..2]) == Breaker(Open, 1, 0);
  }
}
