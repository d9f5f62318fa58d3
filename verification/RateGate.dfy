/** The token bucket of server/discovery_relay.go, over any run of requests. Time is in seconds. */
module RateGate {
  import opened Decimal

  const RELAY_BURST := 20.0
  const RELAY_RATE := 5.0

  /** The bucket's state; `last` is None for the zero time. */
  datatype Bucket = Bucket(tokens: real, last: Option<real>)

  const ZERO_BUCKET := Bucket(0.0, None)

  /** The tokens at time now, before a request takes one. */
  function Refilled(b: Bucket, now: real): real {
    match b.last
    case None => RELAY_BURST
    case Some(last) =>
      var t := b.tokens + (now - last) * RELAY_RATE;
      if t > RELAY_BURST then RELAY_BURST else t
  }

  function Grants(b: Bucket, now: real): bool {
    Refilled(b, now) >= 1.0
  }

  function Step(b: Bucket, now: real): Bucket {
    Bucket(if Grants(b, now) then Refilled(b, now) - 1.0 else Refilled(b, now), Some(now))
  }

  class Gate {
    var tokens: real
    var last: Option<real>

    /** The zero value. */
    constructor ()
      ensures Abs() == ZERO_BUCKET
    {
      tokens, last := 0.0, None;
    }

    function Abs(): Bucket
      reads this
    {
      Bucket(tokens, last)
    }

    method Take(now: real) returns (ok: bool)
      modifies this
      ensures ok == Grants(old(Abs()), now) && Abs() == Step(old(Abs()), now)
    {
      if last.None? {
        tokens := RELAY_BURST;
      } else {
        tokens := tokens + (now - last.value) * RELAY_RATE;
        if tokens > RELAY_BURST {
          tokens := RELAY_BURST;
        }
      }
      last := Some(now);
      if tokens < 1.0 {
        return false;
      }
      tokens := tokens - 1.0;
      return true;
    }
  }

  // ---- runs ----

  ghost predicate NonDecreasing(ts: seq<real>) {
    forall i, j | 0 <= i <= j < |ts| :: ts[i] <= ts[j]
  }

  /** The bucket after the first n requests. */
  function After(ts: seq<real>, n: nat): Bucket
    requires n <= |ts|
  {
    if n == 0 then ZERO_BUCKET else Step(After(ts, n - 1), ts[n - 1])
  }

  function Granted(ts: seq<real>, k: nat): bool
    requires k < |ts|
  {
    Grants(After(ts, k), ts[k])
  }

  /** What a gate decides on every request of a run. */
  function Decisions(ts: seq<real>): (ds: seq<bool>)
    ensures |ds| == |ts|
  {
    seq(|ts|, k requires 0 <= k < |ts| => Granted(ts, k))
  }

  /** How many of the decisions from i up to but not including j grant. */
  function Count(ds: seq<bool>, i: nat, j: nat): (n: nat)
    requires j <= |ds|
  {
    if j <= i then 0 else Count(ds, i, j - 1) + (if ds[j - 1] then 1 else 0)
  }

  lemma {:induction false} CountSplit(ds: seq<bool>, i: nat, m: nat, j: nat)
    requires i <= m <= j <= |ds|
    ensures Count(ds, i, j) == Count(ds, i, m) + Count(ds, m, j)
  {
    if m < j {
      CountSplit(ds, i, m, j - 1);
    }
  }

  /** The bucket never holds less than nothing or more than the burst. */
  lemma {:induction false} TokensInRange(ts: seq<real>, n: nat)
    requires NonDecreasing(ts) && n <= |ts|
    ensures 0.0 <= After(ts, n).tokens <= 20.0
    ensures n > 0 ==> After(ts, n).last == Some(ts[n - 1])
  {
    if n > 0 {
      TokensInRange(ts, n - 1);
    }
  }

  /** Grants in a window and the tokens it leaves are paid for by one burst and the refill since it began. */
  lemma {:induction false} WindowBudget(ts: seq<real>, i: nat, j: nat)
    requires NonDecreasing(ts) && i < j <= |ts|
    ensures Count(Decisions(ts), i, j) as real + After(ts, j).tokens <= 20.0 + 5.0 * (ts[j - 1] - ts[i])
  {
    TokensInRange(ts, j - 1);
    TokensInRange(ts, j);
    if j > i + 1 {
      WindowBudget(ts, i, j - 1);
    }
  }

  /** In every run, every window of requests from i to j grants at most the burst and what refills meanwhile. */
  lemma WindowBound(ts: seq<real>, i: nat, j: nat)
    requires NonDecreasing(ts) && i <= j < |ts|
    ensures Count(Decisions(ts), i, j + 1) as real <= 20.0 + 5.0 * (ts[j] - ts[i])
  {
    WindowBudget(ts, i, j + 1);
    TokensInRange(ts, j + 1);
  }

  /** The budget of some window is used to the last fraction: the one since the bucket was last full. */
  lemma {:induction false} FullSince(ts: seq<real>, n: nat) returns (i: nat)
    requires NonDecreasing(ts) && 0 < n <= |ts|
    ensures i < n
    ensures After(ts, n).tokens == 20.0 + 5.0 * (ts[n - 1] - ts[i]) - Count(Decisions(ts), i, n) as real
  {
    if n == 1 {
      i := 0;
    } else {
      i := FullSince(ts, n - 1);
      TokensInRange(ts, n - 1);
      if Refilled(After(ts, n - 1), ts[n - 1]) == RELAY_BURST {
        i := n - 1;
      }
    }
  }

  /** A sequence of decisions that keeps the bound on every window. */
  ghost predicate KeepsBound(ds: seq<bool>, ts: seq<real>) {
    && |ds| == |ts|
    && forall i: nat, j: nat | i <= j < |ts| ::
         Count(ds, i, j + 1) as real <= 20.0 + 5.0 * (ts[j] - ts[i])
  }

  /** A refused request is one no limiter could grant after the same grants: some window would overflow. */
  lemma Refusal(ts: seq<real>, n: nat) returns (i: nat)
    requires NonDecreasing(ts) && 0 < n < |ts| && !Granted(ts, n)
    ensures i <= n
    ensures Count(Decisions(ts), i, n) as real + 1.0 > 20.0 + 5.0 * (ts[n] - ts[i])
  {
    i := FullSince(ts, n);
    TokensInRange(ts, n);
  }

  /** No way of deciding that keeps the bound on every window ever gets ahead of the gate. */
  lemma {:induction false} GateIsGreedy(ts: seq<real>, ds: seq<bool>, n: nat)
    requires NonDecreasing(ts) && KeepsBound(ds, ts) && n <= |ts|
    ensures Count(ds, 0, n) <= Count(Decisions(ts), 0, n)
  {
    if n > 0 {
      GateIsGreedy(ts, ds, n - 1);
      if ds[n - 1] && !Granted(ts, n - 1) {
        var i := Refusal(ts, n - 1);
        GateIsGreedy(ts, ds, i);
        CountSplit(ds, 0, i, n);
        CountSplit(Decisions(ts), 0, i, n - 1);
        assert Count(ds, i, n - 1 + 1) as real <= 20.0 + 5.0 * (ts[n - 1] - ts[i]);
      }
    }
  }

  /** A request 0.2 s after the last one is granted. */
  lemma GapGrants(ts: seq<real>, n: nat)
    requires NonDecreasing(ts) && 0 < n < |ts| && ts[n] - ts[n - 1] >= 0.2
    ensures Granted(ts, n)
  {
    TokensInRange(ts, n);
  }

  /** After four seconds without a request, or at the start, the next twenty are granted however close together. */
  lemma {:induction false} BurstAfterIdle(ts: seq<real>, n: nat, k: nat)
    requires NonDecreasing(ts) && n + k < |ts| && k < 20
    requires n == 0 || ts[n] - ts[n - 1] >= 4.0
    ensures Granted(ts, n + k) && After(ts, n + k + 1).tokens >= 19.0 - k as real
  {
    TokensInRange(ts, n + k);
    if k > 0 {
      BurstAfterIdle(ts, n, k - 1);
    }
  }
}
