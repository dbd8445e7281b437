/** Concurrent `RateLimiter.acquire` calls (src/api/rate_limiter.py) as a state machine: a step is
    what one coroutine does between two suspensions, taken in any interleaving. */
module RateLimiter {
  import opened Options

  type Caller = nat

  /** Past the daily check; waiting for the bucket or the interval lock, or sleeping while holding it. */
  datatype Phase = Admitted | Sleeping(until: real)

  datatype Config = Config(perSecond: int, dailyLimit: int, callers: set<Caller>)

  datatype State = State(
    clock: real,
    today: int,
    dailyCount: int,
    resetDate: int,
    lastCall: real,
    lock: Option<Caller>,
    inside: map<Caller, Phase>,
    stamps: seq<real>)

  datatype Step =
    | Wait(seconds: real, date: int)
    | Enter(caller: Caller)
    | TakeLock(caller: Caller)
    | Stamp(caller: Caller)
    | Abandon(caller: Caller)

  ghost predicate ValidConfig(c: Config) {
    c.perSecond > 0 && c.callers != {}
  }

  function Interval(c: Config): real
    requires c.perSecond > 0
  {
    1.0 / c.perSecond as real
  }

  ghost predicate Init(s: State) {
    && s.clock >= 0.0 && s.dailyCount == 0 && s.resetDate == s.today && s.lastCall == 0.0
    && s.lock == None && s.inside == map[] && s.stamps == []
  }

  /** `_check_daily_reset` */
  function Reset(s: State): State {
    if s.today != s.resetDate then s.(dailyCount := 0, resetDate := s.today) else s
  }

  ghost predicate Enabled(c: Config, s: State, step: Step)
    requires c.perSecond > 0
  {
    match step
    case Wait(seconds, _) => seconds >= 0.0
    case Enter(t) => t in c.callers && t !in s.inside
    case TakeLock(t) => t in s.inside && s.inside[t].Admitted? && s.lock == None
    case Stamp(t) => t in s.inside && s.inside[t].Sleeping? && s.clock >= s.inside[t].until
    case Abandon(t) => t in s.inside
  }

  /** The effect of a step: Enter resets the counter on a new date and is refused at the limit; TakeLock
      computes how long to sleep; Stamp records the call, frees the lock and counts. */
  function Effect(c: Config, s: State, step: Step): State
    requires c.perSecond > 0
  {
    match step
    case Wait(seconds, date) => s.(clock := s.clock + seconds, today := date)
    case Enter(t) =>
      var r := Reset(s);
      if r.dailyCount >= c.dailyLimit then r else r.(inside := r.inside[t := Admitted])
    case TakeLock(t) =>
      var elapsed := s.clock - s.lastCall;
      var wait := if elapsed < Interval(c) then Interval(c) - elapsed else 0.0;
      s.(lock := Some(t), inside := s.inside[t := Sleeping(s.clock + wait)])
    case Stamp(t) =>
      s.(lastCall := s.clock, stamps := s.stamps + [s.clock], lock := None,
         inside := s.inside - {t}, dailyCount := s.dailyCount + 1)
    case Abandon(t) =>
      s.(inside := s.inside - {t}, lock := if s.lock == Some(t) then None else s.lock)
  }

  ghost predicate Next(c: Config, s: State, t: State)
    requires c.perSecond > 0
  {
    exists step :: Enabled(c, s, step) && t == Effect(c, s, step)
  }

  ghost predicate Run(c: Config, states: seq<State>)
    requires c.perSecond > 0
  {
    && states != [] && Init(states[0])
    && forall k :: 0 < k < |states| ==> Next(c, states[k - 1], states[k])
  }

  // ---------- invariant ----------

  /** The sleeper holds the lock and will not wake before an interval has passed since the last call. */
  ghost predicate SleeperOk(c: Config, s: State, t: Caller)
    requires c.perSecond > 0
  {
    t in s.inside && s.inside[t].Sleeping? ==>
      s.lock == Some(t) && s.inside[t].until >= s.lastCall + Interval(c)
  }

  ghost predicate Spaced(stamps: seq<real>, interval: real) {
    forall k :: 0 < k < |stamps| ==> stamps[k] - stamps[k - 1] >= interval
  }

  /** The most the counter and the callers past the check can come to. */
  function Ceiling(c: Config): int {
    if c.dailyLimit >= 1 then c.dailyLimit + |c.callers| - 1 else 0
  }

  ghost predicate Inv(c: Config, s: State)
    requires c.perSecond > 0
  {
    && s.inside.Keys <= c.callers
    && (forall t :: SleeperOk(c, s, t))
    && Spaced(s.stamps, Interval(c))
    && (s.stamps != [] ==> s.stamps[|s.stamps| - 1] == s.lastCall)
    && s.dailyCount >= 0 && s.dailyCount + |s.inside| <= Ceiling(c)
  }

  lemma SmallerSet(a: set<Caller>, b: set<Caller>)
    requires a <= b
    ensures |a| <= |b|
  {
    assert b == a + (b - a) && |b| == |a| + |b - a|;
  }

  lemma InitInv(c: Config, s: State)
    requires ValidConfig(c) && Init(s)
    ensures Inv(c, s)
  {
    assert |c.callers| >= 1;
  }

  /** One more caller inside; there are never more than all of them. */
  lemma OneMoreInside(c: Config, inside: map<Caller, Phase>, t: Caller)
    requires inside.Keys <= c.callers && t in c.callers && t !in inside
    ensures |inside[t := Admitted]| == |inside| + 1 <= |c.callers|
  {
    var more := inside[t := Admitted];
    assert more.Keys == inside.Keys + {t};
    SmallerSet(more.Keys, c.callers);
  }

  lemma EnterKeepsInv(c: Config, s: State, t: Caller)
    requires ValidConfig(c) && Inv(c, s) && Enabled(c, s, Enter(t))
    ensures Inv(c, Effect(c, s, Enter(t)))
  {
    var e := Effect(c, s, Enter(t));
    forall u ensures SleeperOk(c, e, u) { assert SleeperOk(c, s, u); }
    OneMoreInside(c, s.inside, t);
  }

  lemma WaitKeepsInv(c: Config, s: State, seconds: real, date: int)
    requires ValidConfig(c) && Inv(c, s) && seconds >= 0.0
    ensures Inv(c, Effect(c, s, Wait(seconds, date)))
  {
    var e := Effect(c, s, Wait(seconds, date));
    forall u ensures SleeperOk(c, e, u) { assert SleeperOk(c, s, u); }
  }

  lemma TakeLockKeepsInv(c: Config, s: State, t: Caller)
    requires ValidConfig(c) && Inv(c, s) && Enabled(c, s, TakeLock(t))
    ensures Inv(c, Effect(c, s, TakeLock(t)))
  {
    var e := Effect(c, s, TakeLock(t));
    assert e.inside.Keys == s.inside.Keys;
    assert |e.inside| == |e.inside.Keys| == |s.inside.Keys| == |s.inside|;
    forall u ensures SleeperOk(c, e, u) { assert SleeperOk(c, s, u); }
  }

  /** The stamp comes an interval after the last one, and the caller leaves as its call is counted. */
  lemma StampKeepsInv(c: Config, s: State, t: Caller)
    requires ValidConfig(c) && Inv(c, s) && Enabled(c, s, Stamp(t))
    ensures Inv(c, Effect(c, s, Stamp(t)))
  {
    var e := Effect(c, s, Stamp(t));
    assert SleeperOk(c, s, t);
    assert s.inside.Keys == e.inside.Keys + {t};
    forall u ensures SleeperOk(c, e, u) { assert SleeperOk(c, s, u); }
  }

  lemma AbandonKeepsInv(c: Config, s: State, t: Caller)
    requires ValidConfig(c) && Inv(c, s) && Enabled(c, s, Abandon(t))
    ensures Inv(c, Effect(c, s, Abandon(t)))
  {
    var e := Effect(c, s, Abandon(t));
    assert s.inside.Keys == e.inside.Keys + {t};
    forall u ensures SleeperOk(c, e, u) { assert SleeperOk(c, s, u); }
  }

  lemma StepKeepsInv(c: Config, s: State, step: Step)
    requires ValidConfig(c) && Inv(c, s) && Enabled(c, s, step)
    ensures Inv(c, Effect(c, s, step))
  {
    match step
    case Enter(t) => EnterKeepsInv(c, s, t);
    case Wait(seconds, date) => WaitKeepsInv(c, s, seconds, date);
    case TakeLock(t) => TakeLockKeepsInv(c, s, t);
    case Stamp(t) => StampKeepsInv(c, s, t);
    case Abandon(t) => AbandonKeepsInv(c, s, t);
  }

  lemma {:induction false} RunKeepsInv(c: Config, states: seq<State>)
    requires ValidConfig(c) && Run(c, states)
    ensures Inv(c, states[|states| - 1])
  {
    var n := |states| - 1;
    if n == 0 {
      InitInv(c, states[0]);
    } else {
      RunKeepsInv(c, states[..n]);
      assert Next(c, states[n - 1], states[n]);
      var step :| Enabled(c, states[n - 1], step) && states[n] == Effect(c, states[n - 1], step);
      StepKeepsInv(c, states[n - 1], step);
    }
  }

  /** Under any interleaving, also across dates, consecutive calls are an interval apart and the daily
      count exceeds the limit by at most one less than the number of callers. */
  lemma CallsAreSpacedAndCounted(c: Config, states: seq<State>)
    requires ValidConfig(c) && Run(c, states)
    ensures var s := states[|states| - 1];
      && Spaced(s.stamps, 1.0 / c.perSecond as real)
      && 0 <= s.dailyCount <= (if c.dailyLimit >= 1 then c.dailyLimit + |c.callers| - 1 else 0)
      && (|c.callers| == 1 && c.dailyLimit >= 0 ==> s.dailyCount <= c.dailyLimit)
  {
    RunKeepsInv(c, states);
  }

  // ---------- the bound is reached ----------

  ghost predicate Reaches(c: Config, s: State)
    requires c.perSecond > 0
  {
    exists states :: Run(c, states) && states[|states| - 1] == s
  }

  lemma ReachesNext(c: Config, s: State, step: Step)
    requires ValidConfig(c) && Reaches(c, s) && Enabled(c, s, step)
    ensures Reaches(c, Effect(c, s, step))
  {
    var states :| Run(c, states) && states[|states| - 1] == s;
    var longer := states + [Effect(c, s, step)];
    assert Next(c, s, Effect(c, s, step));
    forall k | 0 < k < |longer| ensures Next(c, longer[k - 1], longer[k]) {
      if k < |states| { assert Next(c, states[k - 1], states[k]); }
    }
    assert Run(c, longer);
  }

  /** Nobody holds the lock and the counter belongs to today. */
  ghost predicate Calm(s: State) {
    && s.lock == None && s.today == s.resetDate
    && forall t :: t in s.inside ==> s.inside[t].Admitted?
  }

  lemma CompleteCall(c: Config, s: State, t: Caller) returns (e: State)
    requires ValidConfig(c) && Reaches(c, s) && Calm(s) && t in s.inside
    ensures Reaches(c, e) && Calm(e) && e.inside == s.inside - {t} && e.dailyCount == s.dailyCount + 1
    ensures e.today == s.today && |e.stamps| == |s.stamps| + 1
  {
    ReachesNext(c, s, TakeLock(t));
    var locked := Effect(c, s, TakeLock(t));
    var nap := Wait(locked.inside[t].until - locked.clock, locked.today);
    ReachesNext(c, locked, nap);
    var awake := Effect(c, locked, nap);
    ReachesNext(c, awake, Stamp(t));
    e := Effect(c, awake, Stamp(t));
    assert e.inside == s.inside - {t};
  }

  lemma {:induction false} CompleteAll(c: Config, s: State) returns (e: State)
    requires ValidConfig(c) && Reaches(c, s) && Calm(s)
    ensures Reaches(c, e) && e.dailyCount == s.dailyCount + |s.inside|
    decreases |s.inside|
  {
    if s.inside == map[] {
      e := s;
    } else {
      var t :| t in s.inside;
      var f := CompleteCall(c, s, t);
      assert s.inside.Keys == f.inside.Keys + {t};
      e := CompleteAll(c, f);
    }
  }

  lemma {:induction false} EnterAll(c: Config, s: State, todo: set<Caller>) returns (e: State)
    requires ValidConfig(c) && Reaches(c, s) && Calm(s) && s.dailyCount < c.dailyLimit
    requires todo <= c.callers && todo !! s.inside.Keys
    ensures Reaches(c, e) && Calm(e) && e.dailyCount == s.dailyCount && e.inside.Keys == s.inside.Keys + todo
    decreases todo
  {
    if todo == {} {
      e := s;
    } else {
      var t :| t in todo;
      ReachesNext(c, s, Enter(t));
      e := EnterAll(c, Effect(c, s, Enter(t)), todo - {t});
    }
  }

  lemma {:induction false} CallInTurn(c: Config, s: State, t: Caller, calls: nat) returns (e: State)
    requires ValidConfig(c) && Reaches(c, s) && Calm(s) && s.inside == map[] && t in c.callers
    requires s.dailyCount + calls <= c.dailyLimit
    ensures Reaches(c, e) && Calm(e) && e.inside == map[] && e.dailyCount == s.dailyCount + calls
    ensures e.today == s.today && |e.stamps| == |s.stamps| + calls
    decreases calls
  {
    if calls == 0 {
      e := s;
    } else {
      ReachesNext(c, s, Enter(t));
      var f := CompleteCall(c, Effect(c, s, Enter(t)), t);
      e := CallInTurn(c, f, t, calls - 1);
    }
  }

  /** A new date starts a new count: with nobody inside, exactly `dailyLimit` further calls can be made in turn on that
      date, however many the old date saw, and the next one is refused. */
  lemma NewDateStartsAfresh(c: Config, s: State, t: Caller) returns (e: State)
    requires ValidConfig(c) && Reaches(c, s) && s.lock == None && s.inside == map[] && t in c.callers
    requires s.today != s.resetDate && c.dailyLimit >= 0
    ensures Reaches(c, e) && e.today == s.today && e.inside == map[]
    ensures |e.stamps| == |s.stamps| + c.dailyLimit
    ensures forall u :: u in c.callers ==> Effect(c, e, Enter(u)).inside == map[]
  {
    ReachesNext(c, s, Enter(t));
    var entered := Effect(c, s, Enter(t));
    if c.dailyLimit == 0 {
      e := entered;
    } else {
      var first := CompleteCall(c, entered, t);
      assert first.inside == map[];
      e := CallInTurn(c, first, t, c.dailyLimit - 1);
    }
  }

  /** Nobody waits longer than needed: a caller that takes the lock sleeps until one interval after the last call, or not
      at all. */
  lemma SleepIsShortest(c: Config, s: State, t: Caller)
    requires ValidConfig(c) && Enabled(c, s, TakeLock(t))
    ensures var e := Effect(c, s, TakeLock(t));
      && t in e.inside && e.inside[t].Sleeping?
      && e.inside[t].until == if s.clock >= s.lastCall + 1.0 / c.perSecond as real then s.clock else s.lastCall + 1.0 / c.perSecond as real
  {
  }

  /** The overshoot is real: some run ends with limit + callers - 1 calls counted on one date. */
  lemma OvershootIsReached(c: Config)
    requires ValidConfig(c) && c.dailyLimit >= 1
    ensures exists states: seq<State> :: Run(c, states) && states[|states| - 1].dailyCount == c.dailyLimit + |c.callers| - 1
  {
    var s := State(0.0, 0, 0, 0, 0.0, None, map[], []);
    assert Run(c, [s]);
    assert [s][|[s]| - 1] == s;
    var t :| t in c.callers;
    var almost := CallInTurn(c, s, t, c.dailyLimit - 1);
    var full := EnterAll(c, almost, c.callers);
    assert |full.inside| == |full.inside.Keys| == |c.callers|;
    var done := CompleteAll(c, full);
    var states :| Run(c, states) && states[|states| - 1] == done;
  }
}
