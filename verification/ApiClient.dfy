/** The circuit breaker and the request retry loop of src/api/client.py. */
module ApiClient {

  const MAX_RETRIES := 3
  const MAX_RESET_TIMEOUT := 300.0

  // ---------- circuit breaker ----------

  function Pow2(n: nat): nat {
    if n == 0 then 1 else 2 * Pow2(n - 1)
  }

  function Min(a: real, b: real): real {
    if a <= b then a else b
  }

  /** `base * 2 ** n`, by doubling n times. */
  function Doubled(base: real, n: nat): real {
    if n == 0 then base else 2.0 * Doubled(base, n - 1)
  }

  lemma {:induction false} DoubledIsPower(base: real, n: nat)
    ensures Doubled(base, n) == base * Pow2(n) as real
  {
    if n > 0 {
      DoubledIsPower(base, n - 1);
      var p := Pow2(n - 1) as real;
      assert Pow2(n) as real == 2.0 * p;
      assert base * (2.0 * p) == 2.0 * (base * p);
    }
  }

  /** The reset timeout after `trips` trips since the last success. */
  function ResetWait(base: real, trips: nat): real {
    if trips == 0 then base else Min(Doubled(base, trips - 1), MAX_RESET_TIMEOUT)
  }

  /** The documented wait: the base timeout, doubled for every trip after the first, and at most 300 seconds. */
  lemma WaitIsPower(base: real, trips: nat)
    ensures ResetWait(base, trips)
            == if trips == 0 then base
               else if base * Pow2(trips - 1) as real <= 300.0 then base * Pow2(trips - 1) as real else 300.0
  {
    if trips > 0 {
      DoubledIsPower(base, trips - 1);
    }
  }

  lemma {:induction false} Pow2Doubles(n: nat)
    ensures Pow2(n) >= 1 && Pow2(0) == 1 && Pow2(n + 1) == 2 * Pow2(n)
  {
    if n > 0 {
      Pow2Doubles(n - 1);
    }
  }

  /** The breaker's fields as a value. */
  datatype Breaker = Breaker(failures: nat, open: bool, trips: nat, lastFailure: real)

  datatype Event = Success | Failure(at: real) | HalfOpen

  /** What one event does, with the timeout left to ResetWait. */
  function After(b: Breaker, threshold: int, e: Event): Breaker {
    match e
    case Success => b.(failures := 0, open := false, trips := 0)
    case HalfOpen => b.(failures := 0, open := false)
    case Failure(at) =>
      var reached := b.failures + 1 >= threshold;
      Breaker(b.failures + 1, b.open || reached, b.trips + (if reached then 1 else 0), at)
  }

  function AfterAll(b: Breaker, threshold: int, events: seq<Event>): Breaker {
    if events == [] then b
    else After(AfterAll(b, threshold, events[..|events| - 1]), threshold, events[|events| - 1])
  }

  /** Half-opening is due: the breaker is open and its timeout has run out. */
  predicate Due(b: Breaker, base: real, now: real) {
    b.open && now - b.lastFailure >= ResetWait(base, b.trips)
  }

  function Lazily(b: Breaker, threshold: int, base: real, now: real): Breaker {
    if Due(b, base, now) then After(b, threshold, HalfOpen) else b
  }

  lemma {:induction false} DoubledGrows(base: real, m: nat, n: nat)
    requires base >= 0.0 && m <= n
    ensures base <= Doubled(base, m) <= Doubled(base, n)
    decreases n
  {
    if n > 0 {
      DoubledGrows(base, if m == n then m - 1 else m, n - 1);
    }
  }

  lemma WaitGrows(base: real, m: nat, n: nat)
    requires 0.0 <= base <= MAX_RESET_TIMEOUT && m <= n
    ensures ResetWait(base, m) <= ResetWait(base, n)
  {
    if n > 0 {
      DoubledGrows(base, if m == 0 then 0 else m - 1, n - 1);
    }
  }

  const START := Breaker(0, false, 0, 0.0)

  /** In every run from the start, no events without a success shorten the wait. */
  ghost predicate NeverShrinks(base: real, threshold: int) {
    forall earlier: seq<Event>, events: seq<Event> :: Success !in events ==>
      ShrinksNot(base, threshold, AfterAll(START, threshold, earlier), events)
  }

  ghost predicate ShrinksNot(base: real, threshold: int, b: Breaker, events: seq<Event>) {
    ResetWait(base, b.trips) <= ResetWait(base, AfterAll(b, threshold, events).trips)
  }

  lemma {:induction false} TripsGrow(b: Breaker, threshold: int, events: seq<Event>)
    requires Success !in events
    ensures b.trips <= AfterAll(b, threshold, events).trips
  {
    if events != [] {
      var front, last := events[..|events| - 1], events[|events| - 1];
      assert last in events && forall e :: e in front ==> e in events;
      TripsGrow(b, threshold, front);
    }
  }

  function Failures(times: seq<real>): (events: seq<Event>)
    ensures |events| == |times| && Success !in events
  {
    seq(|times|, k requires 0 <= k < |times| => Failure(times[k]))
  }

  /** The number of failures that opens a breaker whose count stands at 0. */
  function FirstTrip(threshold: int): nat {
    if threshold > 1 then threshold else 1
  }

  /** Every failure at or beyond the threshold trips again: from a failure count of 0, be it a new, a
      successful or a half-opened breaker, n failures in a row add n - threshold + 1 trips, however often
      it opened. */
  lemma {:induction false} TripsPerFailure(b: Breaker, threshold: int, times: seq<real>)
    requires b.failures == 0
    ensures var c, first := AfterAll(b, threshold, Failures(times)), FirstTrip(threshold);
      && c.failures == |times|
      && c.trips == b.trips + (if |times| >= first then |times| - first + 1 else 0)
      && c.open == (b.open || |times| >= first)
      && (times != [] ==> c.lastFailure == times[|times| - 1])
    decreases |times|
  {
    if times != [] {
      var front := times[..|times| - 1];
      TripsPerFailure(b, threshold, front);
      assert Failures(times)[..|times| - 1] == Failures(front);
    }
  }

  /** A success puts any breaker back to the start, but for the time of the last failure. */
  lemma SuccessStartsOver(b: Breaker, threshold: int)
    ensures var c := After(b, threshold, Success); c.failures == 0 && !c.open && c.trips == 0
  {
  }

  /** After n failures in a row, the last at time t, a breaker that started over answers again exactly from
      t + min(base x 2^(n - threshold), 300) on; with fewer failures than the threshold it answers at once. */
  lemma AnswersAgain(b: Breaker, base: real, threshold: int, times: seq<real>, now: real)
    requires b.failures == 0 && !b.open && b.trips == 0 && times != []
    ensures var c, first, n := AfterAll(b, threshold, Failures(times)), if threshold > 1 then threshold else 1, |times|;
      !Lazily(c, threshold, base, now).open <==>
        n < first || now >= times[n - 1]
          + if base * Pow2(n - first) as real <= 300.0 then base * Pow2(n - first) as real else 300.0
  {
    TripsPerFailure(b, threshold, times);
    var c := AfterAll(b, threshold, Failures(times));
    WaitIsPower(base, c.trips);
  }

  /** In every run an open breaker has tripped since the last success. */
  lemma {:induction false} OpenHasTripped(threshold: int, events: seq<Event>)
    ensures AfterAll(START, threshold, events).open ==> AfterAll(START, threshold, events).trips > 0
  {
    if events != [] {
      OpenHasTripped(threshold, events[..|events| - 1]);
    }
  }

  /** The failure that follows a half-opening: it opens the breaker again and counts as a trip only for a
      threshold of at most 1, and only then, below the cap, the wait grows. */
  lemma FailureAfterHalfOpen(b: Breaker, base: real, threshold: int, at: real)
    requires (exists events :: b == AfterAll(START, threshold, events)) && b.open && base > 0.0
    ensures var c := After(After(b, threshold, HalfOpen), threshold, Failure(at));
      && (c.open <==> threshold <= 1)
      && c.trips == b.trips + (if threshold <= 1 then 1 else 0)
      && (ResetWait(base, c.trips) > ResetWait(base, b.trips) <==>
          threshold <= 1 && ResetWait(base, b.trips) < MAX_RESET_TIMEOUT)
  {
    var events :| b == AfterAll(START, threshold, events);
    OpenHasTripped(threshold, events);
    DoubledGrows(base, 0, b.trips - 1);
    assert Doubled(base, b.trips) == 2.0 * Doubled(base, b.trips - 1);
  }

  /** Before the next success the wait never shrinks, in any run, exactly for timeouts from 0 to 300
      seconds; the default is 30. */
  lemma WaitNeverShrinks(base: real, threshold: int)
    ensures NeverShrinks(base, threshold) <==> 0.0 <= base <= MAX_RESET_TIMEOUT
  {
    if 0.0 <= base <= MAX_RESET_TIMEOUT {
      forall earlier: seq<Event>, events: seq<Event> | Success !in events
        ensures ShrinksNot(base, threshold, AfterAll(START, threshold, earlier), events)
      {
        var b := AfterAll(START, threshold, earlier);
        TripsGrow(b, threshold, events);
        WaitGrows(base, b.trips, AfterAll(b, threshold, events).trips);
      }
    } else {
      RunShrinks(base, threshold);
    }
  }

  /** A new breaker that fails until its first trip, or its second one for a negative timeout. */
  lemma RunShrinks(base: real, threshold: int)
    requires !(0.0 <= base <= MAX_RESET_TIMEOUT)
    ensures !NeverShrinks(base, threshold)
  {
    var trips := if base < 0.0 then 2 else 1;
    var times := seq(FirstTrip(threshold) + trips - 1, _ => 0.0);
    var earlier: seq<Event> := [];
    TripsPerFailure(START, threshold, times);
    assert AfterAll(START, threshold, earlier) == START;
    assert AfterAll(START, threshold, Failures(times)).trips == trips;
    assert Doubled(base, 1) == 2.0 * Doubled(base, 0);
    assert !ShrinksNot(base, threshold, AfterAll(START, threshold, earlier), Failures(times));
  }

  class CircuitBreaker {
    const failureThreshold: int
    const baseResetTimeout: real
    var currentResetTimeout: real
    var failureCount: nat
    var lastFailureTime: real
    var isOpenFlag: bool
    var tripCount: nat

    function View(): Breaker
      reads this
    {
      Breaker(failureCount, isOpenFlag, tripCount, lastFailureTime)
    }

    ghost predicate Valid()
      reads this
    {
      currentResetTimeout == ResetWait(baseResetTimeout, tripCount)
    }

    constructor (failureThreshold: int, resetTimeout: real)
      ensures Valid() && View() == START
      ensures this.failureThreshold == failureThreshold && baseResetTimeout == resetTimeout
    {
      this.failureThreshold, baseResetTimeout, currentResetTimeout := failureThreshold, resetTimeout, resetTimeout;
      failureCount, lastFailureTime, isOpenFlag, tripCount := 0, 0.0, false, 0;
    }

    method RecordSuccess()
      requires Valid()
      modifies this
      ensures Valid() && View() == After(old(View()), failureThreshold, Success)
      ensures currentResetTimeout == baseResetTimeout
    {
      failureCount, isOpenFlag, tripCount := 0, false, 0;
      currentResetTimeout := baseResetTimeout;
    }

    method RecordFailure(now: real)
      requires Valid()
      modifies this
      ensures Valid() && View() == After(old(View()), failureThreshold, Failure(now))
      ensures currentResetTimeout
              == if tripCount == 0 then baseResetTimeout
                 else if baseResetTimeout * Pow2(tripCount - 1) as real <= 300.0 then baseResetTimeout * Pow2(tripCount - 1) as real
                 else 300.0
    {
      CountFailure(now);
      WaitIsPower(baseResetTimeout, tripCount);
    }

    /** The body of `record_failure`. */
    method CountFailure(now: real)
      requires Valid()
      modifies this
      ensures Valid() && View() == After(old(View()), failureThreshold, Failure(now))
    {
      failureCount, lastFailureTime := failureCount + 1, now;
      if failureCount >= failureThreshold {
        isOpenFlag, tripCount := true, tripCount + 1;
        currentResetTimeout := Min(Doubled(baseResetTimeout, tripCount - 1), MAX_RESET_TIMEOUT);
      }
    }

    method TryHalfOpen(now: real) returns (halfOpened: bool)
      requires Valid()
      modifies this
      ensures Valid() && View() == Lazily(old(View()), failureThreshold, baseResetTimeout, now)
      ensures halfOpened == Due(old(View()), baseResetTimeout, now)
    {
      if !isOpenFlag {
        return false;
      }
      var elapsed := now - lastFailureTime;
      if elapsed >= currentResetTimeout {
        failureCount, isOpenFlag := 0, false;
        return true;
      }
      return false;
    }

    method IsAvailable(now: real) returns (available: bool)
      requires Valid()
      modifies this
      ensures Valid() && View() == Lazily(old(View()), failureThreshold, baseResetTimeout, now)
      ensures available == !View().open
    {
      if !isOpenFlag {
        return true;
      }
      available := TryHalfOpen(now);
    }

    method IsOpen(now: real) returns (open: bool)
      requires Valid()
      modifies this
      ensures Valid() && View() == Lazily(old(View()), failureThreshold, baseResetTimeout, now)
      ensures open == View().open
    {
      if isOpenFlag {
        var halfOpened := TryHalfOpen(now);
      }
      open := isOpenFlag;
    }
  }

  /** A new breaker, failures in a row, a question: the answer by the clock. */
  method FailThenAsk(threshold: int, base: real, times: seq<real>, now: real) returns (available: bool)
    ensures var first, n := if threshold > 1 then threshold else 1, |times|;
      available <==>
        n < first || now >= times[n - 1]
          + if base * Pow2(n - first) as real <= 300.0 then base * Pow2(n - first) as real else 300.0
  {
    var breaker := new CircuitBreaker(threshold, base);
    for k := 0 to |times|
      invariant breaker.Valid() && breaker.failureThreshold == threshold && breaker.baseResetTimeout == base
      invariant breaker.View() == AfterAll(START, threshold, Failures(times[..k]))
    {
      assert Failures(times[..k + 1])[..k] == Failures(times[..k]);
      breaker.RecordFailure(times[k]);
    }
    assert times[..|times|] == times;
    available := breaker.IsAvailable(now);
    if times != [] {
      AnswersAgain(START, base, threshold, times, now);
    }
  }

  /** Asked at the same time, in either order and any number of times, the two questions agree. */
  method QuestionsAgree(breaker: CircuitBreaker, now: real, openFirst: bool) returns (open: bool, available: bool)
    requires breaker.Valid()
    modifies breaker
    ensures breaker.Valid() && open == !available
    ensures breaker.View() == Lazily(old(breaker.View()), breaker.failureThreshold, breaker.baseResetTimeout, now)
  {
    if openFirst {
      open := breaker.IsOpen(now);
      available := breaker.IsAvailable(now);
    } else {
      available := breaker.IsAvailable(now);
      open := breaker.IsOpen(now);
    }
  }

  // ---------- request ----------

  /** What one attempt meets: the limiter may refuse, the server may answer, the network may fail. */
  datatype Reply = Refused | TooMany(retryAfterReadable: bool) | ServerError | ClientError | NetworkError | Ok(bodyReadable: bool)

  datatype Outcome = Returned | Unavailable | LimiterError | BadHeader | ServerFailed | ClientFailed | NetworkFailed | BadBody | Exhausted

  /** The attempt reached the wire. */
  predicate Sent(reply: Reply) {
    !reply.Refused?
  }

  /** The server may have carried the request out: anything on the wire but a 429. */
  predicate MayHaveActed(reply: Reply) {
    Sent(reply) && !reply.TooMany?
  }

  /** The loop goes on after this reply. */
  predicate Retried(idempotent: bool, reply: Reply) {
    match reply
    case TooMany(readable) => readable
    case ServerError => idempotent
    case NetworkError => idempotent
    case _ => false
  }

  function OutcomeOf(reply: Reply): Outcome {
    match reply
    case Refused => LimiterError
    case TooMany(_) => BadHeader
    case ServerError => ServerFailed
    case ClientError => ClientFailed
    case NetworkError => NetworkFailed
    case Ok(readable) => if readable then Returned else BadBody
  }

  /** How a request ends on its last reply. */
  function EndOf(idempotent: bool, last: Reply): Outcome {
    if Retried(idempotent, last) then Exhausted else OutcomeOf(last)
  }

  /** What the breaker is told about a reply. */
  function Told(reply: Reply, at: real): seq<Event> {
    match reply
    case Ok(_) => [Success]
    case ServerError => [Failure(at)]
    case ClientError => [Failure(at)]
    case NetworkError => [Failure(at)]
    case _ => []
  }

  /** How many attempts the server may have carried out. */
  function Actions(replies: seq<Reply>): nat {
    if replies == [] then 0
    else Actions(replies[..|replies| - 1]) + (if MayHaveActed(replies[|replies| - 1]) then 1 else 0)
  }

  /** The breaker after it heard of one reply. */
  function Heard(b: Breaker, threshold: int, reply: Reply, at: real): Breaker {
    AfterAll(b, threshold, Told(reply, at))
  }

  function HeardAll(b: Breaker, threshold: int, replies: seq<Reply>, times: seq<real>): Breaker
    requires |replies| <= |times|
  {
    if replies == [] then b
    else
      var n := |replies| - 1;
      Heard(HeardAll(b, threshold, replies[..n], times), threshold, replies[n], times[n])
  }

  /** The attempts of one request: all but the last were retried, the last stopped the loop or was the third. */
  ghost predicate Attempts(idempotent: bool, attempts: seq<Reply>) {
    && 1 <= |attempts| <= MAX_RETRIES
    && (forall k :: 0 <= k < |attempts| - 1 ==> Retried(idempotent, attempts[k]))
    && (|attempts| < MAX_RETRIES ==> !Retried(idempotent, attempts[|attempts| - 1]))
  }

  lemma {:induction false} RetriedNotActed(attempts: seq<Reply>)
    requires forall k :: 0 <= k < |attempts| ==> Retried(false, attempts[k])
    ensures Actions(attempts) == 0
  {
    if attempts != [] { RetriedNotActed(attempts[..|attempts| - 1]); }
  }

  /** A request that must not be repeated is carried out at most once: every attempt but the last was
      answered 429. */
  lemma OrderSentOnce(attempts: seq<Reply>)
    requires Attempts(false, attempts)
    ensures Actions(attempts) <= 1
    ensures forall k :: 0 <= k < |attempts| - 1 ==> attempts[k].TooMany?
    ensures Actions(attempts) == 1 <==> MayHaveActed(attempts[|attempts| - 1])
  {
    RetriedNotActed(attempts[..|attempts| - 1]);
    forall k | 0 <= k < |attempts| - 1 ensures attempts[k].TooMany? {
      assert Retried(false, attempts[k]);
    }
  }

  lemma HeardOne(b: Breaker, threshold: int, reply: Reply, at: real)
    ensures Heard(b, threshold, reply, at) ==
      var told := Told(reply, at); if told == [] then b else After(b, threshold, told[0])
  {
    var told := Told(reply, at);
    assert |told| <= 1;
    if told != [] {
      assert told[..|told| - 1] == [] && AfterAll(b, threshold, []) == b;
    }
  }

  /** One pass of the retry loop; outcome Exhausted means that the loop goes on. */
  method Attempt(breaker: CircuitBreaker, idempotent: bool, reply: Reply, at: real) returns (outcome: Outcome)
    requires breaker.Valid()
    modifies breaker
    ensures breaker.Valid() && outcome == EndOf(idempotent, reply)
    ensures breaker.View() == Heard(old(breaker.View()), breaker.failureThreshold, reply, at)
  {
    HeardOne(breaker.View(), breaker.failureThreshold, reply, at);
    match reply {
      case Refused => outcome := LimiterError;
      case TooMany(readable) => outcome := if readable then Exhausted else BadHeader;
      case ServerError =>
        breaker.RecordFailure(at);
        outcome := if !idempotent then ServerFailed else Exhausted;
      case ClientError =>
        breaker.RecordFailure(at);
        outcome := ClientFailed;
      case Ok(readable) =>
        breaker.RecordSuccess();
        outcome := if readable then Returned else BadBody;
      case NetworkError =>
        breaker.RecordFailure(at);
        outcome := if !idempotent then NetworkFailed else Exhausted;
    }
  }

  /** The breaker has been told about the first n attempts. */
  ghost predicate Informed(before: Breaker, after: Breaker, threshold: int, replies: seq<Reply>, n: nat, times: seq<real>) {
    n <= |replies| <= |times| && after == HeardAll(before, threshold, replies[..n], times)
  }

  ghost predicate AllRetried(idempotent: bool, replies: seq<Reply>, n: int) {
    forall k :: 0 <= k < n && k < |replies| ==> Retried(idempotent, replies[k])
  }

  lemma RetriedThenEnded(idempotent: bool, replies: seq<Reply>, n: nat)
    requires 0 < n <= |replies| == MAX_RETRIES && AllRetried(idempotent, replies, n - 1)
    requires n == MAX_RETRIES || !EndOf(idempotent, replies[n - 1]).Exhausted?
    ensures Attempts(idempotent, replies[..n])
  {
  }

  /** The retry loop of `_request`: `replies[k]` and `times[k]` are what attempt k would meet, and when;
      the first `used` of them were met. */
  method RetryLoop(breaker: CircuitBreaker, idempotent: bool, replies: seq<Reply>, times: seq<real>)
    returns (outcome: Outcome, used: nat)
    requires breaker.Valid() && |replies| == |times| == MAX_RETRIES
    modifies breaker
    ensures breaker.Valid() && 0 < used <= MAX_RETRIES
    ensures Informed(old(breaker.View()), breaker.View(), breaker.failureThreshold, replies, used, times)
    ensures Attempts(idempotent, replies[..used]) && outcome == EndOf(idempotent, replies[used - 1])
    ensures !idempotent ==> Actions(replies[..used]) <= 1
  {
    outcome, used := Exhausted, 0;
    assert replies[..0] == [];
    while used < MAX_RETRIES && outcome.Exhausted?
      invariant 0 <= used <= MAX_RETRIES && breaker.Valid() && (used == 0 ==> outcome.Exhausted?)
      invariant Informed(old(breaker.View()), breaker.View(), breaker.failureThreshold, replies, used, times)
      invariant used > 0 ==> outcome == EndOf(idempotent, replies[used - 1])
      invariant AllRetried(idempotent, replies, used - 1)
    {
      InformedNext(old(breaker.View()), breaker.View(), breaker.failureThreshold, replies, used, times);
      outcome := Attempt(breaker, idempotent, replies[used], times[used]);
      used := used + 1;
    }
    RetriedThenEnded(idempotent, replies, used);
    if !idempotent {
      OrderSentOnce(replies[..used]);
    }
  }

  /** `_request` */
  method Request(breaker: CircuitBreaker, idempotent: bool, replies: seq<Reply>, start: real, times: seq<real>)
    returns (outcome: Outcome, used: nat)
    requires breaker.Valid() && |replies| == |times| == MAX_RETRIES
    modifies breaker
    ensures breaker.Valid() && used <= MAX_RETRIES
    ensures var begun := Lazily(old(breaker.View()), breaker.failureThreshold, breaker.baseResetTimeout, start);
      && (if begun.open then outcome.Unavailable? && used == 0 && breaker.View() == begun
          else used > 0 && Informed(begun, breaker.View(), breaker.failureThreshold, replies, used, times))
    ensures used > 0 ==> Attempts(idempotent, replies[..used]) && outcome == EndOf(idempotent, replies[used - 1])
    ensures !idempotent ==> Actions(replies[..used]) <= 1
  {
    var available := breaker.IsAvailable(start);
    if !available {
      return Unavailable, 0;
    }
    outcome, used := RetryLoop(breaker, idempotent, replies, times);
  }

  lemma InformedNext(b: Breaker, now: Breaker, threshold: int, replies: seq<Reply>, n: nat, times: seq<real>)
    requires n < |replies| && Informed(b, now, threshold, replies, n, times)
    ensures Informed(b, Heard(now, threshold, replies[n], times[n]), threshold, replies, n + 1, times)
  {
    assert replies[..n + 1][..n] == replies[..n];
  }
}
