/** The token bucket of src/api/rate_limiter.py over real time.  The clock readings at entry and
    after each sleep are the adversary's choice, only never going back. */
module TokenBucket {

  /** What accrues at `rate` per second between two moments. */
  function Accrued(rate: int, from: real, to: real): real {
    (to - from) * rate as real
  }

  lemma AccruedSplits(rate: int, a: real, b: real, c: real)
    ensures Accrued(rate, a, b) + Accrued(rate, b, c) == Accrued(rate, a, c)
  {
  }

  lemma AccruedGrows(rate: int, a: real, b: real, c: real, d: real)
    requires rate >= 0 && b - a <= d - c
    ensures Accrued(rate, a, b) <= Accrued(rate, c, d)
  {
    var slack, r := (d - c) - (b - a), rate as real;
    assert slack * r >= 0.0;
    assert (d - c) * r == (b - a) * r + slack * r;
  }

  ghost predicate Ordered(times: seq<real>) {
    forall i, j :: 0 <= i < j < |times| ==> times[i] <= times[j]
  }

  /** From grant i to grant j no more were given than the capacity plus what accrued between them. */
  ghost predicate WindowBounded(grants: seq<real>, rate: int, capacity: int, i: int, j: int)
    requires 0 <= i <= j < |grants|
  {
    (j - i + 1) as real <= capacity as real + Accrued(rate, grants[i], grants[j])
  }

  ghost predicate AllWindowsBounded(grants: seq<real>, rate: int, capacity: int) {
    Ordered(grants) && forall i, j :: 0 <= i <= j < |grants| ==> WindowBounded(grants, rate, capacity, i, j)
  }

  /** How many grants fall into [t1, t2]. */
  function GrantsWithin(grants: seq<real>, t1: real, t2: real): nat {
    if grants == [] then 0
    else
      var last := grants[|grants| - 1];
      GrantsWithin(grants[..|grants| - 1], t1, t2) + (if t1 <= last <= t2 then 1 else 0)
  }

  lemma {:induction false} NoneBefore(grants: seq<real>, t1: real, t2: real)
    requires Ordered(grants) && (grants != [] ==> grants[|grants| - 1] < t1)
    ensures GrantsWithin(grants, t1, t2) == 0
  {
    if |grants| > 1 {
      assert grants[|grants| - 2] <= grants[|grants| - 1];
      NoneBefore(grants[..|grants| - 1], t1, t2);
    }
  }

  /** If the last grant falls into the interval, those that do are the ones from some i on. */
  lemma {:induction false} WindowIsSuffix(grants: seq<real>, t1: real, t2: real) returns (i: int)
    requires Ordered(grants) && grants != [] && t1 <= grants[|grants| - 1] <= t2
    ensures 0 <= i < |grants| && t1 <= grants[i] && GrantsWithin(grants, t1, t2) == |grants| - i
  {
    var n := |grants| - 1;
    if n > 0 && grants[n - 1] >= t1 {
      i := WindowIsSuffix(grants[..n], t1, t2);
    } else {
      NoneBefore(grants[..n], t1, t2);
      i := n;
    }
  }

  /** In any interval at most capacity + rate x length grants are given. */
  lemma {:induction false} GrantsBounded(grants: seq<real>, rate: int, capacity: int, t1: real, t2: real)
    requires AllWindowsBounded(grants, rate, capacity) && rate > 0 && capacity >= 0 && t1 <= t2
    ensures GrantsWithin(grants, t1, t2) as real <= capacity as real + (t2 - t1) * rate as real
  {
    var n := |grants| - 1;
    if grants == [] || grants[n] < t1 {
      NoneBefore(grants, t1, t2);
      AccruedGrows(rate, t1, t1, t1, t2);
    } else if grants[n] > t2 {
      forall i, j | 0 <= i <= j < n ensures WindowBounded(grants[..n], rate, capacity, i, j) {
        assert WindowBounded(grants, rate, capacity, i, j);
      }
      GrantsBounded(grants[..n], rate, capacity, t1, t2);
    } else {
      var i := WindowIsSuffix(grants, t1, t2);
      assert WindowBounded(grants, rate, capacity, i, n);
      AccruedGrows(rate, grants[i], grants[n], t1, t2);
    }
  }

  /** The grants from i on and the tokens left are within the capacity plus what accrued since. */
  ghost predicate Funded(grants: seq<real>, rate: int, capacity: int, tokens: real, now: real, i: int)
    requires 0 <= i < |grants|
  {
    (|grants| - i) as real + tokens <= capacity as real + Accrued(rate, grants[i], now)
  }

  function Min(a: real, b: real): real {
    if a <= b then a else b
  }

  /** The level after n readings, if it stood at `level` at the first: what accrues in between, up to the capacity. */
  function LevelAt(rate: int, capacity: int, level: real, readings: seq<real>, n: nat): real
    requires 0 < n <= |readings|
  {
    if n == 1 then level
    else Min(capacity as real, LevelAt(rate, capacity, level, readings, n - 1) + Accrued(rate, readings[n - 2], readings[n - 1]))
  }

  class TokenBucket {
    const rate: int
    const capacity: int
    var tokens: real
    var lastRefill: real
    ghost var grants: seq<real>

    ghost predicate Valid()
      reads this
    {
      && rate > 0 && tokens <= capacity as real && (capacity >= 0 ==> tokens >= 0.0)
      && AllWindowsBounded(grants, rate, capacity)
      && (forall i :: 0 <= i < |grants| ==> grants[i] <= lastRefill)
      && (forall i :: 0 <= i < |grants| ==> Funded(grants, rate, capacity, tokens, lastRefill, i))
    }

    constructor (rate: int, capacity: int, now: real)
      requires rate > 0
      ensures Valid() && this.rate == rate && this.capacity == capacity
      ensures grants == [] && lastRefill == now && tokens == capacity as real
    {
      this.rate, this.capacity := rate, capacity;
      tokens, lastRefill, grants := capacity as real, now, [];
    }

    /** `_refill` at clock reading `now` */
    method Refill(now: real)
      requires Valid() && now >= lastRefill
      modifies `tokens, `lastRefill
      ensures Valid() && lastRefill == now
      ensures tokens == Min(capacity as real, old(tokens) + Accrued(rate, old(lastRefill), now))
    {
      AccruedGrows(rate, now, now, lastRefill, now);
      ghost var refilled := Min(capacity as real, tokens + Accrued(rate, lastRefill, now));
      forall i | 0 <= i < |grants| ensures Funded(grants, rate, capacity, refilled, now, i) {
        assert Funded(grants, rate, capacity, tokens, lastRefill, i);
        AccruedSplits(rate, grants[i], lastRefill, now);
      }
      tokens := Min(capacity as real, tokens + Accrued(rate, lastRefill, now));
      lastRefill := now;
    }

    /** `acquire`: `readings` are the clock at entry and after each sleep; without a grant the caller is
        still waiting when they end.  A bucket with room for a token serves after one full-length sleep;
        a smaller one never serves. */
    method Acquire(readings: seq<real>) returns (granted: bool, used: nat)
      requires Valid() && Ordered(readings) && readings != [] && readings[0] >= lastRefill
      modifies this
      ensures Valid() && 0 < used <= |readings| && lastRefill == readings[used - 1]
      ensures grants == if granted then old(grants) + [lastRefill] else old(grants)
      ensures !granted ==> used == |readings| && tokens < 1.0
      ensures var available := Min(capacity as real, old(tokens) + Accrued(rate, old(lastRefill), readings[0]));
        tokens == LevelAt(rate, capacity, available, readings, used) - (if granted then 1.0 else 0.0)
      ensures var available := Min(capacity as real, old(tokens) + Accrued(rate, old(lastRefill), readings[0]));
        && (granted && used == 1 ==> tokens == available - 1.0)
        && (granted && used == 2 ==> tokens == Min(capacity as real, available + Accrued(rate, readings[0], readings[1])) - 1.0)
      ensures capacity < 1 ==> !granted
      ensures var available := Min(capacity as real, old(tokens) + Accrued(rate, old(lastRefill), readings[0]));
        capacity >= 1 && (available >= 1.0 || (|readings| >= 2 && readings[1] - readings[0] >= (1.0 - available) / rate as real))
        ==> granted && used == if available >= 1.0 then 1 else 2
    {
      Refill(readings[0]);
      used := 1;
      ghost var available := tokens;
      while tokens < 1.0
        invariant Valid() && 0 < used <= |readings| && lastRefill == readings[used - 1]
        invariant grants == old(grants)
        invariant tokens == LevelAt(rate, capacity, available, readings, used)
        invariant used >= 2 ==> available < 1.0
        invariant used >= 2 && capacity >= 1 && readings[1] - readings[0] >= (1.0 - available) / rate as real
          ==> used == 2 && tokens >= 1.0
        decreases |readings| - used
      {
        if used == |readings| {
          return false, used;
        }
        if used == 1 {
          OneSleepAccrues(rate, available, readings[0], readings[1]);
        }
        Refill(readings[used]);
        used := used + 1;
      }
      Grant();
      granted := true;
    }

    /** `self._tokens -= 1.0` */
    method Grant()
      requires Valid() && tokens >= 1.0
      modifies `tokens, `grants
      ensures Valid() && grants == old(grants) + [lastRefill] && tokens == old(tokens) - 1.0
    {
      ghost var n := |grants|;
      ghost var after, left := grants + [lastRefill], tokens - 1.0;
      forall i | 0 <= i < |after| ensures Funded(after, rate, capacity, left, lastRefill, i) {
        if i < n { assert Funded(grants, rate, capacity, tokens, lastRefill, i); }
      }
      forall i, j | 0 <= i <= j < |after| ensures WindowBounded(after, rate, capacity, i, j) {
        if j < n {
          assert WindowBounded(grants, rate, capacity, i, j);
        } else {
          assert Funded(after, rate, capacity, left, lastRefill, i);
        }
      }
      tokens, grants := tokens - 1.0, after;
    }
  }

  /** A sleep of (1 - tokens) / rate seconds accrues the missing part of a token. */
  lemma OneSleepAccrues(rate: int, available: real, from: real, to: real)
    requires rate > 0
    ensures to - from >= (1.0 - available) / rate as real ==> available + Accrued(rate, from, to) >= 1.0
  {
    var r, missing := rate as real, 1.0 - available;
    if to - from >= missing / r {
      assert (missing / r) * r == missing;
      var extra := (to - from) - missing / r;
      assert extra * r >= 0.0;
      assert (to - from) * r == missing + extra * r;
    }
  }

  /** A burst: at one reading of the clock, as many calls are granted at once as whole tokens are there. */
  method Burst(bucket: TokenBucket, n: nat, now: real)
    requires bucket.Valid() && now >= bucket.lastRefill
    requires n as real <= Min(bucket.capacity as real, bucket.tokens + Accrued(bucket.rate, bucket.lastRefill, now))
    modifies bucket
    ensures bucket.Valid() && bucket.grants == old(bucket.grants) + seq(n, _ => now)
    ensures n > 0 ==> bucket.lastRefill == now
    ensures n > 0 ==> (bucket.tokens + n as real
      == Min(bucket.capacity as real, old(bucket.tokens) + Accrued(bucket.rate, old(bucket.lastRefill), now)))
  {
    ghost var available := Min(bucket.capacity as real, bucket.tokens + Accrued(bucket.rate, bucket.lastRefill, now));
    for k := 0 to n
      invariant bucket.Valid() && bucket.grants == old(bucket.grants) + seq(k, _ => now)
      invariant if k == 0 then bucket.tokens == old(bucket.tokens) && bucket.lastRefill == old(bucket.lastRefill)
                else bucket.lastRefill == now && bucket.tokens == available - k as real
    {
      AtOnce(bucket.capacity, bucket.rate, available - k as real, now);
      var granted, used := bucket.Acquire([now]);
      assert seq(k + 1, _ => now) == seq(k, _ => now) + [now];
    }
  }

  /** Nothing accrues between equal readings. */
  lemma AtOnce(capacity: int, rate: int, level: real, now: real)
    ensures Accrued(rate, now, now) == 0.0
    ensures level <= capacity as real ==> Min(capacity as real, level + Accrued(rate, now, now)) == level
  {
  }

  /** The last clock reading before call k. */
  function LastReading(start: real, calls: seq<seq<real>>, k: nat): real
    requires k <= |calls|
  {
    if k == 0 || calls[k - 1] == [] then start else calls[k - 1][|calls[k - 1]| - 1]
  }

  /** Call k reads the clock at least once, never before an earlier reading. */
  ghost predicate ReadsOn(start: real, calls: seq<seq<real>>, k: nat)
    requires k < |calls|
  {
    calls[k] != [] && Ordered(calls[k]) && LastReading(start, calls, k) <= calls[k][0]
  }

  ghost predicate ClockRuns(start: real, calls: seq<seq<real>>) {
    forall k :: 0 <= k < |calls| ==> ReadsOn(start, calls, k)
  }

  /** The call's first sleep lasts at least so long. */
  predicate SleepsFor(time: real, readings: seq<real>) {
    |readings| >= 2 && readings[1] - readings[0] >= time
  }

  /** A sleep of 1 / rate is long enough for any level at or above zero. */
  lemma EnoughIsEnough(rate: int, capacity: int, level: real, last: real, readings: seq<real>)
    requires rate > 0 && capacity >= 1 && level >= 0.0 && SleepsFor(1.0 / rate as real, readings) && last <= readings[0]
    ensures var available := Min(capacity as real, level + Accrued(rate, last, readings[0]));
      readings[1] - readings[0] >= (1.0 - available) / rate as real
  {
    var r, available := rate as real, Min(capacity as real, level + Accrued(rate, last, readings[0]));
    AccruedGrows(rate, last, last, last, readings[0]);
    assert available / r >= 0.0;
    assert (1.0 - available) / r == 1.0 / r - available / r;
  }

  /** One call of a run: it is served if the bucket has room for a token and its first sleep is long enough. */
  method Serve(bucket: TokenBucket, oneToken: real, readings: seq<real>) returns (granted: bool)
    requires bucket.Valid() && oneToken == 1.0 / bucket.rate as real
    requires Ordered(readings) && readings != [] && bucket.lastRefill <= readings[0]
    modifies bucket
    ensures bucket.Valid() && bucket.lastRefill <= readings[|readings| - 1]
    ensures |bucket.grants| == |old(bucket.grants)| + if granted then 1 else 0
    ensures bucket.capacity >= 1 && SleepsFor(oneToken, readings) ==> granted
  {
    if bucket.capacity >= 1 && SleepsFor(oneToken, readings) {
      EnoughIsEnough(bucket.rate, bucket.capacity, bucket.tokens, bucket.lastRefill, readings);
    }
    var used;
    granted, used := bucket.Acquire(readings);
  }

  /** The calls one after the other */
  method ServeAll(bucket: TokenBucket, oneToken: real, start: real, calls: seq<seq<real>>) returns (served: seq<bool>)
    requires bucket.Valid() && oneToken == 1.0 / bucket.rate as real
    requires bucket.grants == [] && bucket.lastRefill == start && ClockRuns(start, calls)
    modifies bucket
    ensures bucket.Valid() && |served| == |calls| && |bucket.grants| == multiset(served)[true]
    ensures forall k :: 0 <= k < |calls| && bucket.capacity >= 1 && SleepsFor(oneToken, calls[k]) ==> served[k]
  {
    served := [];
    for k := 0 to |calls|
      invariant bucket.Valid() && bucket.lastRefill <= LastReading(start, calls, k)
      invariant |served| == k && |bucket.grants| == multiset(served)[true]
      invariant forall j :: 0 <= j < k && bucket.capacity >= 1 && SleepsFor(oneToken, calls[j]) ==> served[j]
    {
      assert ReadsOn(start, calls, k);
      var granted := Serve(bucket, oneToken, calls[k]);
      served := served + [granted];
    }
  }

  /** Any run of acquire calls on one bucket keeps the bound over every interval, and every call is served
      if the bucket has room for a token and the call sleeps long enough. */
  method Run(rate: int, capacity: int, start: real, calls: seq<seq<real>>) returns (bucket: TokenBucket, served: seq<bool>)
    requires rate > 0 && capacity >= 0 && ClockRuns(start, calls)
    ensures forall t1, t2 :: t1 <= t2 ==>
      GrantsWithin(bucket.grants, t1, t2) as real <= capacity as real + (t2 - t1) * rate as real
    ensures |served| == |calls| && |bucket.grants| == multiset(served)[true]
    ensures forall k :: 0 <= k < |calls| && capacity >= 1 && SleepsFor(1.0 / rate as real, calls[k]) ==> served[k]
  {
    bucket := new TokenBucket(rate, capacity, start);
    served := ServeAll(bucket, 1.0 / rate as real, start, calls);
    forall t1: real, t2: real | t1 <= t2
      ensures GrantsWithin(bucket.grants, t1, t2) as real <= capacity as real + (t2 - t1) * rate as real
    {
      GrantsBounded(bucket.grants, rate, capacity, t1, t2);
    }
  }
}
