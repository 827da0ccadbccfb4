/** The token bucket of the controller's API, over exact reals, and the declarative law it
    implements with a single number: no window of calls exceeds burst + rate * duration. */
module RateLimit {

  datatype Bucket = Bucket(tokens: real, maxTokens: real, refillRate: real, lastRefill: real)

  function Accrued(elapsed: real, rate: real): real { elapsed * rate }

  /** Tokens at time `now`, after the refill and the cap, before any is spent. */
  function Level(b: Bucket, now: real): real {
    var refilled := b.tokens + Accrued(now - b.lastRefill, b.refillRate);
    if refilled > b.maxTokens then b.maxTokens else refilled
  }

  predicate Grants(b: Bucket, now: real) { Level(b, now) >= 1.0 }

  function Spend(b: Bucket, now: real): Bucket {
    b.(lastRefill := now, tokens := if Grants(b, now) then Level(b, now) - 1.0 else Level(b, now))
  }

  class RateLimiter {
    var tokens: real
    const maxTokens: real
    const refillRate: real
    var lastRefill: real

    ghost function View(): Bucket
      reads this
    {
      Bucket(tokens, maxTokens, refillRate, lastRefill)
    }

    constructor (rate: real, burst: int, now: real)
      ensures View() == Bucket(burst as real, burst as real, rate, now)
    {
      tokens, maxTokens, refillRate, lastRefill := burst as real, burst as real, rate, now;
    }

    method Allow(now: real) returns (ok: bool)
      modifies this
      ensures ok == Grants(old(View()), now) && View() == Spend(old(View()), now)
    {
      var elapsed := now - lastRefill;
      lastRefill := now;
      tokens := tokens + Accrued(elapsed, refillRate);
      if tokens > maxTokens {
        tokens := maxTokens;
      }
      if tokens < 1.0 {
        return false;
      }
      tokens := tokens - 1.0;
      ok := true;
    }

    /** Conversion to int truncates toward zero. */
    method Remaining() returns (n: int)
      ensures tokens >= 0.0 ==> n as real <= tokens < n as real + 1.0
      ensures tokens < 0.0 ==> n as real - 1.0 < tokens <= n as real
    {
      n := if tokens >= 0.0 then tokens.Floor else -(-tokens).Floor;
    }
  }

  // ---------------------------------------------------------------------------
  // Every sequence of calls
  // ---------------------------------------------------------------------------

  datatype Limit = Limit(rate: real, burst: nat, created: real)

  /** The clock never goes back. */
  ghost predicate Clocked(c: Limit, ts: seq<real>) {
    && (forall i, j :: 0 <= i < j < |ts| ==> ts[i] <= ts[j])
    && (|ts| > 0 ==> c.created <= ts[0])
  }

  function After(c: Limit, ts: seq<real>): Bucket {
    if |ts| == 0 then Bucket(c.burst as real, c.burst as real, c.rate, c.created)
    else Spend(After(c, ts[..|ts| - 1]), ts[|ts| - 1])
  }

  /** The level each call finds; a call is allowed when it finds at least one token. */
  function Levels(c: Limit, ts: seq<real>): (levels: seq<real>)
    ensures |levels| == |ts|
  {
    seq(|ts|, j requires 0 <= j < |ts| => Level(After(c, ts[..j]), ts[j]))
  }

  /** Allowed calls among i, ..., j - 1. */
  function Count(levels: seq<real>, i: nat, j: nat): nat
    requires i <= j <= |levels|
    decreases j
  {
    if i == j then 0 else Count(levels, i, j - 1) + if levels[j - 1] >= 1.0 then 1 else 0
  }

  function Yield(rate: real, t: real): real { rate * t }

  /** What the rate yields up to each call, on a scale whose origin does not matter. */
  function Earned(c: Limit, ts: seq<real>): (es: seq<real>)
    ensures |es| == |ts|
  {
    seq(|ts|, j requires 0 <= j < |ts| => Yield(c.rate, ts[j]))
  }

  function Quota(c: Limit, ts: seq<real>, i: nat, j: nat): real
    requires i < |ts| && j < |ts|
  {
    c.burst as real + c.rate * (ts[j] - ts[i])
  }

  function Min(x: real, y: real): real { if x <= y then x else y }

  /** The levels follow the bucket recurrence, with the earnings as the only input. */
  ghost predicate Recurrence(burst: real, es: seq<real>, levels: seq<real>) {
    && |levels| == |es|
    && (|es| > 0 ==> levels[0] == burst)
    && (forall j :: 0 < j < |es| ==>
          levels[j] == Min(burst, levels[j - 1] - (if levels[j - 1] >= 1.0 then 1.0 else 0.0) + es[j] - es[j - 1]))
  }

  lemma Configuration(c: Limit, ts: seq<real>)
    ensures After(c, ts).maxTokens == c.burst as real && After(c, ts).refillRate == c.rate
    ensures After(c, ts).lastRefill == if |ts| == 0 then c.created else ts[|ts| - 1]
  {
  }

  lemma Scale(r: real, x: real, y: real)
    ensures (y - x) * r == r * (y - x) == r * y - r * x
    ensures r >= 0.0 && x <= y ==> (y - x) * r >= 0.0
  {
  }

  /** The level in terms of earnings, with no product left. */
  lemma LevelIs(b: Bucket, now: real)
    ensures Level(b, now) == Min(b.maxTokens, b.tokens + Yield(b.refillRate, now) - Yield(b.refillRate, b.lastRefill))
    ensures b.refillRate >= 0.0 && b.lastRefill <= now ==> Level(b, now) >= Min(b.maxTokens, b.tokens)
    ensures Level(b, now) <= b.maxTokens
  {
    Scale(b.refillRate, b.lastRefill, now);
  }

  lemma LevelAfterSpend(b: Bucket, t0: real, t1: real)
    ensures var level := Level(b, t0);
            Level(Spend(b, t0), t1)
            == Min(b.maxTokens,
                   level - (if level >= 1.0 then 1.0 else 0.0) + Yield(b.refillRate, t1) - Yield(b.refillRate, t0))
  {
    LevelIs(Spend(b, t0), t1);
  }

  lemma OneMoreCall(c: Limit, ts: seq<real>, j: nat)
    requires 0 < j <= |ts|
    ensures After(c, ts[..j]) == Spend(After(c, ts[..j - 1]), ts[j - 1])
  {
    assert ts[..j][..j - 1] == ts[..j - 1];
  }

  lemma LevelAfterCall(c: Limit, ts: seq<real>, j: nat)
    requires 0 < j < |ts|
    ensures Levels(c, ts)[j] == Min(c.burst as real,
              Levels(c, ts)[j - 1] - (if Levels(c, ts)[j - 1] >= 1.0 then 1.0 else 0.0)
              + Earned(c, ts)[j] - Earned(c, ts)[j - 1])
  {
    var b := After(c, ts[..j - 1]);
    Configuration(c, ts[..j - 1]);
    OneMoreCall(c, ts, j);
    LevelAfterSpend(b, ts[j - 1], ts[j]);
  }

  lemma FirstLevel(c: Limit, ts: seq<real>)
    requires c.rate >= 0.0 && Clocked(c, ts) && |ts| > 0
    ensures Level(After(c, ts[..0]), ts[0]) == c.burst as real
  {
    assert ts[..0] == [];
    LevelIs(After(c, []), ts[0]);
  }

  lemma BucketFollowsRecurrence(c: Limit, ts: seq<real>)
    requires c.rate >= 0.0 && Clocked(c, ts)
    ensures Recurrence(c.burst as real, Earned(c, ts), Levels(c, ts))
  {
    if |ts| > 0 { FirstLevel(c, ts); }
    var es, levels := Earned(c, ts), Levels(c, ts);
    forall j | 0 < j < |ts|
      ensures levels[j] == Min(c.burst as real,
                levels[j - 1] - (if levels[j - 1] >= 1.0 then 1.0 else 0.0) + es[j] - es[j - 1])
    {
      LevelAfterCall(c, ts, j);
    }
  }

  /** Tokens never go below zero nor above the burst. */
  lemma {:induction false} TokensInRange(c: Limit, ts: seq<real>)
    requires c.rate >= 0.0 && Clocked(c, ts)
    ensures 0.0 <= After(c, ts).tokens <= c.burst as real
  {
    if |ts| > 0 {
      var before := ts[..|ts| - 1];
      TokensInRange(c, before);
      Configuration(c, before);
      LevelIs(After(c, before), ts[|ts| - 1]);
    }
  }

  lemma CountOneMore(levels: seq<real>, i: nat, j: nat)
    requires i < j <= |levels|
    ensures Count(levels, i, j) as real
            == Count(levels, i, j - 1) as real + if levels[j - 1] >= 1.0 then 1.0 else 0.0
  {
  }

  /** The level is below what every window ending here has left ... */
  lemma {:induction false} LevelBelowEveryWindow(burst: real, es: seq<real>, levels: seq<real>, i: nat, j: nat)
    requires Recurrence(burst, es, levels) && i <= j < |es|
    ensures levels[j] <= burst + es[j] - es[i] - Count(levels, i, j) as real
    decreases j
  {
    if j > 0 { assert levels[j] <= Min(burst, levels[j - 1] + es[j] - es[j - 1]); }
    if i < j {
      LevelBelowEveryWindow(burst, es, levels, i, j - 1);
      CountOneMore(levels, i, j);
    }
  }

  /** ... and some window has exactly that left. */
  lemma {:induction false} SomeWindowIsTight(burst: real, es: seq<real>, levels: seq<real>, j: nat) returns (i: nat)
    requires Recurrence(burst, es, levels) && j < |es|
    ensures i <= j && levels[j] == burst + es[j] - es[i] - Count(levels, i, j) as real
    decreases j
  {
    if levels[j] == burst {
      i := j;
    } else {
      i := SomeWindowIsTight(burst, es, levels, j - 1);
      CountOneMore(levels, i, j);
    }
  }

  /** Admitting call j would keep every window that ends with it within its quota. */
  ghost predicate EveryWindowHasRoom(c: Limit, ts: seq<real>, j: nat)
    requires j < |ts|
  {
    forall i: nat :: i <= j ==> Count(Levels(c, ts), i, j) as real + 1.0 <= Quota(c, ts, i, j)
  }

  lemma QuotaIs(c: Limit, ts: seq<real>, i: nat, j: nat)
    requires i < |ts| && j < |ts|
    ensures Quota(c, ts, i, j) == c.burst as real + Earned(c, ts)[j] - Earned(c, ts)[i]
  {
    Scale(c.rate, ts[i], ts[j]);
  }

  lemma RoomInWindow(c: Limit, ts: seq<real>, i: nat, j: nat)
    requires c.rate >= 0.0 && Clocked(c, ts) && i <= j < |ts|
    ensures Levels(c, ts)[j] <= Quota(c, ts, i, j) - Count(Levels(c, ts), i, j) as real
  {
    BucketFollowsRecurrence(c, ts);
    LevelBelowEveryWindow(c.burst as real, Earned(c, ts), Levels(c, ts), i, j);
    QuotaIs(c, ts, i, j);
  }

  lemma TightWindow(c: Limit, ts: seq<real>, j: nat) returns (i: nat)
    requires c.rate >= 0.0 && Clocked(c, ts) && j < |ts|
    ensures i <= j && Levels(c, ts)[j] == Quota(c, ts, i, j) - Count(Levels(c, ts), i, j) as real
  {
    BucketFollowsRecurrence(c, ts);
    i := SomeWindowIsTight(c.burst as real, Earned(c, ts), Levels(c, ts), j);
    QuotaIs(c, ts, i, j);
  }

  /** The single counter implements the declarative rule: a call is allowed if and only if
      every window of calls ending with it stays within burst + rate * duration. */
  lemma AllowedIffEveryWindowHasRoom(c: Limit, ts: seq<real>, j: nat)
    requires c.rate >= 0.0 && Clocked(c, ts) && j < |ts|
    ensures Grants(After(c, ts[..j]), ts[j]) <==> EveryWindowHasRoom(c, ts, j)
  {
    if Grants(After(c, ts[..j]), ts[j]) {
      forall i: nat | i <= j
        ensures Count(Levels(c, ts), i, j) as real + 1.0 <= Quota(c, ts, i, j)
      {
        RoomInWindow(c, ts, i, j);
      }
    } else {
      var i := TightWindow(c, ts, j);
      assert !(Count(Levels(c, ts), i, j) as real + 1.0 <= Quota(c, ts, i, j));
    }
  }

  /** Between any two calls, inclusive, at most burst + rate * elapsed are allowed. */
  lemma WindowBound(c: Limit, ts: seq<real>, i: nat, j: nat)
    requires c.rate >= 0.0 && Clocked(c, ts) && i <= j < |ts|
    ensures Count(Levels(c, ts), i, j + 1) as real <= Quota(c, ts, i, j)
  {
    RoomInWindow(c, ts, i, j);
    TokensInRange(c, ts[..j]);
    Configuration(c, ts[..j]);
    LevelIs(After(c, ts[..j]), ts[j]);
  }
}
