/** Rate-limit safety of the daemon over all runs: every interleaving, every crash, every database refusal. */
module PipelineLimits {
  import opened Evm
  import opened Store
  import opened Windows
  import opened Checker
  import opened Pipeline

  /** The limit configured for a scope, if any. */
  function LimitOf(cfg: Config, scope: Scope): Option<Limit> {
    match scope
    case OfToken(token) => if token in cfg.globalLimits then Some(cfg.globalLimits[token]) else None
    case OfUser(user, token) => ResolveUserLimit(cfg, user, token)
  }

  /** What a limit lets into a window; a limit configured as negative lets nothing in. */
  function Allowance(limit: int): nat {
    if limit < 0 then 0 else limit
  }

  ghost predicate WithinLimit(log: seq<Withdrawal>, scope: Scope, limit: Limit) {
    && (limit.hourly.Some? ==> AlignedBound(log, scope, HOUR, Allowance(limit.hourly.value)))
    && (limit.daily.Some? ==> AlignedBound(log, scope, DAY, Allowance(limit.daily.value)))
  }

  ghost predicate WithinLimits(cfg: Config, log: seq<Withdrawal>) {
    forall scope :: LimitOf(cfg, scope).Some? ==> WithinLimit(log, scope, LimitOf(cfg, scope).value)
  }

  /** What a passed check at time t established, and what still holds as long as the log does not change. */
  ghost predicate Room(log: seq<Withdrawal>, scope: Scope, limit: Option<Limit>, amount: int, t: Time) {
    limit.Some? ==>
      && (limit.value.hourly.Some? ==> SumSince(log, scope, Truncate(t, HOUR)) + amount <= limit.value.hourly.value)
      && (limit.value.daily.Some? ==> SumSince(log, scope, Truncate(t, DAY)) + amount <= limit.value.daily.value)
  }

  ghost predicate GlobalRoom(cfg: Config, log: seq<Withdrawal>, ev: Event, t: Time) {
    ev.amount > 0 && Room(log, OfToken(ev.token), LimitOf(cfg, OfToken(ev.token)), ev.amount, t)
  }

  ghost predicate BothRoom(cfg: Config, log: seq<Withdrawal>, ev: Event, t1: Time, t2: Time) {
    && GlobalRoom(cfg, log, ev, t1)
    && Room(log, OfUser(ev.user, ev.token), LimitOf(cfg, OfUser(ev.user, ev.token)), ev.amount, t2)
  }

  /** The worker's knowledge: its checks are not later than the clock, and still hold of the log. */
  ghost predicate WorkerKnows(e: Env, s: Sys) {
    match s.worker
    case CheckingUser(ev, t1) => t1 <= s.clock && GlobalRoom(e.cfg, s.tables.log, ev, t1)
    case Cleared(ev, t1, t2) => t1 <= t2 <= s.clock && BothRoom(e.cfg, s.tables.log, ev, t1, t2)
    case AwaitingFinalize(ev, t1, t2, _) => t1 <= t2 <= s.clock && BothRoom(e.cfg, s.tables.log, ev, t1, t2)
    case Mined(ev, t1, t2, _, _) => t1 <= t2 <= s.clock && BothRoom(e.cfg, s.tables.log, ev, t1, t2)
    case Stamped(ev, t1, t2, row) =>
      t1 <= t2 <= row.timestamp <= s.clock && BothRoom(e.cfg, s.tables.log, ev, t1, t2)
      && row.user == ev.user && row.token == ev.token && row.amount == ev.amount
    case _ => true
  }

  ghost predicate LimitInv(e: Env, s: Sys) {
    && Positive(s.tables.log) && NotInFuture(s.tables.log, s.clock)
    && WithinLimits(e.cfg, s.tables.log) && WorkerKnows(e, s)
  }

  /** The heart of it: a sum checked from the start of the window around t leaves room for a record stamped
      at any later time, in that window or a later one. */
  lemma RecordKeepsBound(log: seq<Withdrawal>, scope: Scope, d: nat, limit: int, w: Withdrawal, t: Time)
    requires d > 0 && Positive(log) && w.amount > 0 && t <= w.timestamp
    requires AlignedBound(log, scope, d, Allowance(limit))
    requires InScope(scope, w.user, w.token) ==> SumSince(log, scope, Truncate(t, d)) + w.amount <= limit
    ensures AlignedBound(log + [w], scope, d, Allowance(limit))
  {
    forall k: nat ensures AlignedTotal(log + [w], scope, d, k) <= Allowance(limit) {
      OneWindow(log, scope, d, limit, w, t, k);
    }
  }

  lemma OneWindow(log: seq<Withdrawal>, scope: Scope, d: nat, limit: int, w: Withdrawal, t: Time, k: nat)
    requires d > 0 && Positive(log) && t <= w.timestamp
    requires AlignedTotal(log, scope, d, k) <= Allowance(limit)
    requires InScope(scope, w.user, w.token) ==> SumSince(log, scope, Truncate(t, d)) + w.amount <= limit
    ensures AlignedTotal(log + [w], scope, d, k) <= Allowance(limit)
  {
    var lo, hi := k * d, (k + 1) * d;
    if lo <= w.timestamp < hi {
      WindowStartsLater(t, w.timestamp, d, k);
    }
    WindowAfterRecord(log, scope, lo, hi, Truncate(t, d), limit, w);
  }

  lemma WindowAfterRecord(log: seq<Withdrawal>, scope: Scope, lo: Time, hi: Time, since: Time, limit: int,
                          w: Withdrawal)
    requires Positive(log) && WindowTotal(log, scope, lo, hi) <= Allowance(limit)
    requires lo <= w.timestamp < hi ==> since <= lo
    requires InScope(scope, w.user, w.token) ==> SumSince(log, scope, since) + w.amount <= limit
    ensures WindowTotal(log + [w], scope, lo, hi) <= Allowance(limit)
  {
    assert (log + [w])[..|log|] == log;
    if InScope(scope, w.user, w.token) && lo <= w.timestamp < hi {
      WindowBelowSince(log, scope, since, lo, hi);
    }
  }

  lemma WindowStartsLater(t: Time, stamp: Time, d: nat, k: nat)
    requires d > 0 && t <= stamp < (k + 1) * d
    requires k * d <= stamp
    ensures Truncate(t, d) <= k * d
  {
    var q := t / d;
    assert Truncate(t, d) == q * d;
    if q > k {
      assert q * d >= (k + 1) * d by { TimesMonotone(k + 1, q, d); }
    } else {
      TimesMonotone(q, k, d);
    }
  }

  lemma TimesMonotone(a: nat, b: nat, d: nat)
    requires a <= b
    ensures a * d <= b * d
  {
  }

  lemma {:induction false} WindowBelowSince(log: seq<Withdrawal>, scope: Scope, since: Time, lo: Time, hi: Time)
    requires Positive(log) && since <= lo
    ensures WindowTotal(log, scope, lo, hi) <= SumSince(log, scope, since)
  {
    if log != [] {
      WindowBelowSince(log[..|log| - 1], scope, since, lo, hi);
    }
  }

  lemma SaveKeepsLimits(e: Env, s: Sys, ev: Event, t1: Time, t2: Time, row: Withdrawal)
    requires LimitInv(e, s) && s.worker == Stamped(ev, t1, t2, row)
    ensures Positive(s.tables.log + [row]) && NotInFuture(s.tables.log + [row], s.clock)
    ensures WithinLimits(e.cfg, s.tables.log + [row])
  {
    var log := s.tables.log;
    forall scope | LimitOf(e.cfg, scope).Some? ensures WithinLimit(log + [row], scope, LimitOf(e.cfg, scope).value) {
      var limit := LimitOf(e.cfg, scope).value;
      var t := if scope.OfToken? then t1 else t2;
      assert WithinLimit(log, scope, limit);
      assert InScope(scope, row.user, row.token) ==> Room(log, scope, Some(limit), row.amount, t);
      if limit.hourly.Some? { RecordKeepsBound(log, scope, HOUR, limit.hourly.value, row, t); }
      if limit.daily.Some? { RecordKeepsBound(log, scope, DAY, limit.daily.value, row, t); }
    }
  }

  /** Time, others, miners and crashes leave the log alone; time only moves on. */
  lemma OutsideKeepsLimits(e: Env, s: Sys, act: Act)
    requires LimitInv(e, s) && Step(e, s, act).Some?
    requires act.Tick? || act.Others? || act.Mine? || act.Crash?
    ensures LimitInv(e, Step(e, s, act).value)
  {
  }

  lemma WorkerKeepsLimits(e: Env, s: Sys, act: Act)
    requires LimitInv(e, s) && WorkerStep(e, s, act).Some? && !act.SaveRow?
    ensures LimitInv(e, WorkerStep(e, s, act).value)
  {
  }

  lemma StepKeepsLimits(e: Env, s: Sys, act: Act)
    requires LimitInv(e, s) && Step(e, s, act).Some?
    ensures LimitInv(e, Step(e, s, act).value)
  {
    match act
    case Tick(_) => OutsideKeepsLimits(e, s, act);
    case Others(_, _) => OutsideKeepsLimits(e, s, act);
    case Mine(_, _, _) => OutsideKeepsLimits(e, s, act);
    case Crash => OutsideKeepsLimits(e, s, act);
    case SaveRow(_) => SaveKeepsLimits(e, s, s.worker.ev, s.worker.globalAt, s.worker.userAt, s.worker.row);
    case _ => WorkerKeepsLimits(e, s, act);
  }

  lemma {:induction false} RunKeepsLimits(e: Env, s: Sys, acts: seq<Act>)
    requires LimitInv(e, s) && RunFrom(e, s, acts).Some?
    ensures LimitInv(e, RunFrom(e, s, acts).value)
    decreases |acts|
  {
    if acts != [] {
      StepKeepsLimits(e, s, acts[0]);
      RunKeepsLimits(e, Step(e, s, acts[0]).value, acts[1..]);
    }
  }

  lemma StartWithinLimits(e: Env, clock: Time, neodax: set<Address>, nitewatch: set<Address>)
    ensures LimitInv(e, Start(clock, neodax, nitewatch))
  {
  }

  lemma ScopeLimitSafety(e: Env, clock: Time, neodax: set<Address>, nitewatch: set<Address>, acts: seq<Act>,
                         scope: Scope)
    requires RunFrom(e, Start(clock, neodax, nitewatch), acts).Some? && LimitOf(e.cfg, scope).Some?
    ensures var log := RunFrom(e, Start(clock, neodax, nitewatch), acts).value.tables.log;
      WithinLimit(log, scope, LimitOf(e.cfg, scope).value) && Positive(log)
  {
    StartWithinLimits(e, clock, neodax, nitewatch);
    RunKeepsLimits(e, Start(clock, neodax, nitewatch), acts);
  }

  /** Within the limit; nothing at all when the limit is negative. */
  ghost predicate Within(total: int, limit: Option<int>) {
    limit.Some? ==> 0 <= total && (total <= limit.value || total == 0)
  }

  lemma HourAndDayWithin(log: seq<Withdrawal>, scope: Scope, limit: Limit, k: nat)
    requires WithinLimit(log, scope, limit) && Positive(log)
    ensures Within(AlignedTotal(log, scope, HOUR, k), limit.hourly)
    ensures Within(AlignedTotal(log, scope, DAY, k), limit.daily)
  {
    WindowMonotone(log, scope, k * HOUR, k * HOUR, k * HOUR, (k + 1) * HOUR);
    WindowMonotone(log, scope, k * DAY, k * DAY, k * DAY, (k + 1) * DAY);
  }

  /** Rate-limit safety: in every run from an empty database, for every token with limits and every user with an
      override, the withdrawals recorded in any clock hour and on any day stay within the hourly and daily limit. */
  lemma RateLimitSafety(e: Env, clock: Time, neodax: set<Address>, nitewatch: set<Address>, acts: seq<Act>,
                        user: Address, token: Address, k: nat)
    requires RunFrom(e, Start(clock, neodax, nitewatch), acts).Some?
    ensures var log := RunFrom(e, Start(clock, neodax, nitewatch), acts).value.tables.log;
      && (token in e.cfg.globalLimits ==>
            && Within(TotalWhere(log, (w: Withdrawal) => w.token == token && HourOf(w.timestamp) == k),
                      e.cfg.globalLimits[token].hourly)
            && Within(TotalWhere(log, (w: Withdrawal) => w.token == token && DayOf(w.timestamp) == k),
                      e.cfg.globalLimits[token].daily))
      && (user in e.cfg.userOverrides && token in e.cfg.userOverrides[user] ==>
            && Within(TotalWhere(log, (w: Withdrawal) => w.user == user && w.token == token &&
              HourOf(w.timestamp) == k),
                      e.cfg.userOverrides[user][token].hourly)
            && Within(TotalWhere(log, (w: Withdrawal) => w.user == user && w.token == token && DayOf(w.timestamp) == k),
                      e.cfg.userOverrides[user][token].daily))
  {
    var log := RunFrom(e, Start(clock, neodax, nitewatch), acts).value.tables.log;
    if token in e.cfg.globalLimits {
      ScopeLimitSafety(e, clock, neodax, nitewatch, acts, OfToken(token));
      HourAndDayWithin(log, OfToken(token), e.cfg.globalLimits[token], k);
      TokenCell(log, token, k);
    }
    if user in e.cfg.userOverrides && token in e.cfg.userOverrides[user] {
      ScopeLimitSafety(e, clock, neodax, nitewatch, acts, OfUser(user, token));
      HourAndDayWithin(log, OfUser(user, token), e.cfg.userOverrides[user][token], k);
      UserCell(log, user, token, k);
    }
  }

  /** The bound for an interval of the given length: the limit, once for each aligned window it can meet. */
  ghost predicate WithinSliding(total: int, limit: Option<int>, length: nat, d: nat)
    requires d > 0
  {
    limit.Some? ==> 0 <= total && (total <= ((length + d - 1) / d + 1) * limit.value || total == 0)
  }

  lemma SlidingWithin(log: seq<Withdrawal>, scope: Scope, limit: Limit, from: Time, length: nat)
    requires WithinLimit(log, scope, limit) && Positive(log)
    ensures WithinSliding(WindowTotal(log, scope, from, from + length), limit.hourly, length, 60 * 60 * 1_000_000_000)
    ensures WithinSliding(WindowTotal(log, scope, from, from + length), limit.daily, length,
                          24 * 60 * 60 * 1_000_000_000)
  {
    WindowMonotone(log, scope, from, from, from, from + length);
    if limit.hourly.Some? { SlidingBound(log, scope, HOUR, Allowance(limit.hourly.value), from, length); }
    if limit.daily.Some? { SlidingBound(log, scope, DAY, Allowance(limit.daily.value), from, length); }
  }

  /** It follows for windows that are not aligned: the withdrawals recorded in any half-open interval of the given
      length
      are at most ceil(length / hour) + 1 times the hourly limit, and likewise by the day. */
  lemma SlidingLimitSafety(e: Env, clock: Time, neodax: set<Address>, nitewatch: set<Address>, acts: seq<Act>,
                           user: Address, token: Address, from: Time, length: nat)
    requires RunFrom(e, Start(clock, neodax, nitewatch), acts).Some?
    ensures var log := RunFrom(e, Start(clock, neodax, nitewatch), acts).value.tables.log;
      var ofToken := TotalWhere(log, (w: Withdrawal) => w.token == token && from <= w.timestamp < from + length);
      var ofUser := TotalWhere(log, (w: Withdrawal) =>
        w.user == user && w.token == token && from <= w.timestamp < from + length);
      && (token in e.cfg.globalLimits ==>
            && WithinSliding(ofToken, e.cfg.globalLimits[token].hourly, length, 60 * 60 * 1_000_000_000)
            && WithinSliding(ofToken, e.cfg.globalLimits[token].daily, length, 24 * 60 * 60 * 1_000_000_000))
      && (user in e.cfg.userOverrides && token in e.cfg.userOverrides[user] ==>
            && WithinSliding(ofUser, e.cfg.userOverrides[user][token].hourly, length, 60 * 60 * 1_000_000_000)
            && WithinSliding(ofUser, e.cfg.userOverrides[user][token].daily, length, 24 * 60 * 60 * 1_000_000_000))
  {
    var log := RunFrom(e, Start(clock, neodax, nitewatch), acts).value.tables.log;
    if token in e.cfg.globalLimits {
      ScopeLimitSafety(e, clock, neodax, nitewatch, acts, OfToken(token));
      SlidingWithin(log, OfToken(token), e.cfg.globalLimits[token], from, length);
      TokenWindow(log, token, from, from + length);
    }
    if user in e.cfg.userOverrides && token in e.cfg.userOverrides[user] {
      ScopeLimitSafety(e, clock, neodax, nitewatch, acts, OfUser(user, token));
      SlidingWithin(log, OfUser(user, token), e.cfg.userOverrides[user][token], from, length);
      UserWindow(log, user, token, from, from + length);
    }
  }

  // ---- the check as two steps ----

  /** The two check steps, at their two clock readings, are the check: they clear the event exactly if the verdict
      has no objection. */
  lemma CheckStepsAreVerdict(e: Env, s: Sys, f1: Faults, now: Time, f2: Faults)
    requires s.worker.Checking?
    ensures var ev, s1 := s.worker.ev, Step(e, s, CheckGlobal(f1));
      && s1.Some?
      && (Verdict(e.cfg, s.tables.log, ev.user, ev.token, ev.amount, s.clock, f1, now, f2).None? <==>
            && s1.value.worker == CheckingUser(ev, s.clock)
            && Step(e, s1.value.(clock := now), CheckUser(f2))
              == Some(s.(clock := now, worker := Cleared(ev, s.clock, now))))
  {
  }

  /** In every reachable state, at one clock reading and with a working store, they clear exactly the events that
      fit into every configured aligned window around that moment. */
  lemma CheckStepsExact(e: Env, clock: Time, neodax: set<Address>, nitewatch: set<Address>, acts: seq<Act>)
    requires RunFrom(e, Start(clock, neodax, nitewatch), acts).Some?
    requires RunFrom(e, Start(clock, neodax, nitewatch), acts).value.worker.Checking?
    ensures var s := RunFrom(e, Start(clock, neodax, nitewatch), acts).value;
      var ev, now, s' := s.worker.ev, s.clock, RunFrom(e, s, [CheckGlobal(NO_FAULTS), CheckUser(NO_FAULTS)]);
      (s' == Some(s.(worker := Cleared(ev, now, now)))) <==>
      AllowedNow(e.cfg, s.tables.log, ev.user, ev.token, ev.amount, now)
  {
    StartWithinLimits(e, clock, neodax, nitewatch);
    RunKeepsLimits(e, Start(clock, neodax, nitewatch), acts);
    var s := RunFrom(e, Start(clock, neodax, nitewatch), acts).value;
    var ev := s.worker.ev;
    CheckInWindows(e.cfg, s.tables.log, ev.user, ev.token, ev.amount, s.clock);
    TwoChecks(e, s);
  }

  lemma TwoChecks(e: Env, s: Sys)
    requires s.worker.Checking?
    ensures var ev, now := s.worker.ev, s.clock;
      RunFrom(e, s, [CheckGlobal(NO_FAULTS), CheckUser(NO_FAULTS)]) == Some(s.(worker := Cleared(ev, now, now))) <==>
      Verdict(e.cfg, s.tables.log, ev.user, ev.token, ev.amount, now, NO_FAULTS, now, NO_FAULTS).None?
  {
    CheckStepsAreVerdict(e, s, NO_FAULTS, s.clock, NO_FAULTS);
    var s1 := Step(e, s, CheckGlobal(NO_FAULTS)).value;
    RunAppend(e, s, [], CheckGlobal(NO_FAULTS));
    RunAppend(e, s, [CheckGlobal(NO_FAULTS)], CheckUser(NO_FAULTS));
    assert [] + [CheckGlobal(NO_FAULTS)] == [CheckGlobal(NO_FAULTS)];
    assert [CheckGlobal(NO_FAULTS)] + [CheckUser(NO_FAULTS)] == [CheckGlobal(NO_FAULTS), CheckUser(NO_FAULTS)];
    assert s1.(clock := s.clock) == s1;
  }
}
