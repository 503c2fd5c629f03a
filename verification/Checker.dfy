/** The policy: a withdrawal passes when it fits into the hourly and daily limits of its token, and into
    those of its user if configured. */
module Checker {
  import opened Evm
  import opened Store
  import opened Windows

  datatype Limit = Limit(hourly: Option<int>, daily: Option<int>)

  datatype Config = Config(globalLimits: map<Address, Limit>, userOverrides: map<Address, map<Address, Limit>>)

  datatype CheckError =
    | InvalidAmount | InvalidUser | NoLimitsConfigured | StoreFailed
    | HourlyLimitExceeded | DailyLimitExceeded | UserHourlyLimitExceeded | UserDailyLimitExceeded

  /** Which of the up to two queries of one scope fail. */
  datatype Faults = Faults(hourly: bool, daily: bool)

  function ResolveUserLimit(cfg: Config, user: Address, token: Address): Option<Limit> {
    if user in cfg.userOverrides && token in cfg.userOverrides[user] then Some(cfg.userOverrides[user][token]) else None
  }

  /** One configured window: the failing query, or the total that would exceed the limit. */
  function WindowVerdict(log: seq<Withdrawal>, scope: Scope, since: Time, limit: Option<int>, amount: int,
                         queryFails: bool, exceeded: CheckError): Option<CheckError>
  {
    if limit.None? then None
    else if queryFails then Some(StoreFailed)
    else if SumSince(log, scope, since) + amount > limit.value then Some(exceeded)
    else None
  }

  function ScopeVerdict(log: seq<Withdrawal>, scope: Scope, limit: Limit, amount: int, now: Time,
                        f: Faults): Option<CheckError> {
    var perUser := scope.OfUser?;
    var hourly := WindowVerdict(log, scope, Truncate(now, HOUR), limit.hourly, amount, f.hourly,
                                if perUser then UserHourlyLimitExceeded else HourlyLimitExceeded);
    if hourly.Some? then hourly
    else WindowVerdict(log, scope, Truncate(now, DAY), limit.daily, amount, f.daily,
                       if perUser then UserDailyLimitExceeded else DailyLimitExceeded)
  }

  function GlobalVerdict(cfg: Config, log: seq<Withdrawal>, token: Address, amount: int, now: Time,
                         f: Faults): Option<CheckError> {
    if token !in cfg.globalLimits then Some(NoLimitsConfigured)
    else ScopeVerdict(log, OfToken(token), cfg.globalLimits[token], amount, now, f)
  }

  function UserVerdict(cfg: Config, log: seq<Withdrawal>, user: Address, token: Address, amount: int, now: Time,
                       f: Faults): Option<CheckError> {
    var limit := ResolveUserLimit(cfg, user, token);
    if limit.None? then None else ScopeVerdict(log, OfUser(user, token), limit.value, amount, now, f)
  }

  /** The whole check: the global and the per-user part read the clock separately. */
  function Verdict(cfg: Config, log: seq<Withdrawal>, user: Address, token: Address, amount: int,
                   globalNow: Time, globalFaults: Faults, userNow: Time, userFaults: Faults): Option<CheckError>
  {
    if amount <= 0 then Some(InvalidAmount)
    else if user == ZERO then Some(CheckError.InvalidUser)
    else
      var verdict := GlobalVerdict(cfg, log, token, amount, globalNow, globalFaults);
      if verdict.Some? then verdict else UserVerdict(cfg, log, user, token, amount, userNow, userFaults)
  }

  // ---- the declarative reading ----

  /** Next to the withdrawals that count, the amount fits: the query of each configured window works, and those of the
      clock hour, or day, of now add up to no more than the limit. Those of later hours count too; there are some only
      after the clock has been set back. */
  ghost predicate FitsFrom(limit: Limit, log: seq<Withdrawal>, counts: Withdrawal -> bool, amount: int, now: Time,
                           f: Faults) {
    && (limit.hourly.Some? ==>
          !f.hourly && TotalWhere(log, (w: Withdrawal) => counts(w) && HourOf(w.timestamp) >= HourOf(now)) + amount
                       <= limit.hourly.value)
    && (limit.daily.Some? ==>
          !f.daily && TotalWhere(log, (w: Withdrawal) => counts(w) && DayOf(w.timestamp) >= DayOf(now)) + amount
                      <= limit.daily.value)
  }

  /** The amount, the user and the token are proper, and the amount fits in the limits of the token and, if there is an
      override, in those of the user, each at its own clock reading. */
  ghost predicate Allowed(cfg: Config, log: seq<Withdrawal>, user: Address, token: Address, amount: int,
                          t1: Time, f1: Faults, t2: Time, f2: Faults) {
    && amount > 0
    && user != ZERO
    && token in cfg.globalLimits
    && FitsFrom(cfg.globalLimits[token], log, (w: Withdrawal) => w.token == token, amount, t1, f1)
    && (user in cfg.userOverrides && token in cfg.userOverrides[user] ==>
          FitsFrom(cfg.userOverrides[user][token], log, (w: Withdrawal) => w.user == user && w.token == token,
                   amount, t2, f2))
  }

  const NO_FAULTS := Faults(false, false)

  lemma TokenFits(log: seq<Withdrawal>, limit: Limit, token: Address, amount: int, now: Time, f: Faults)
    ensures ScopeVerdict(log, OfToken(token), limit, amount, now, f).None? <==>
      FitsFrom(limit, log, (w: Withdrawal) => w.token == token, amount, now, f)
  {
    var counts := (w: Withdrawal) => w.token == token;
    TokenSince(log, token, now);
    TotalWhereAgree(log, (w: Withdrawal) => counts(w) && HourOf(w.timestamp) >= HourOf(now),
                    (w: Withdrawal) => w.token == token && HourOf(w.timestamp) >= HourOf(now));
    TotalWhereAgree(log, (w: Withdrawal) => counts(w) && DayOf(w.timestamp) >= DayOf(now),
                    (w: Withdrawal) => w.token == token && DayOf(w.timestamp) >= DayOf(now));
  }

  lemma UserFits(log: seq<Withdrawal>, limit: Limit, user: Address, token: Address, amount: int, now: Time, f: Faults)
    ensures ScopeVerdict(log, OfUser(user, token), limit, amount, now, f).None? <==>
      FitsFrom(limit, log, (w: Withdrawal) => w.user == user && w.token == token, amount, now, f)
  {
    var counts := (w: Withdrawal) => w.user == user && w.token == token;
    UserSince(log, user, token, now);
    TotalWhereAgree(log, (w: Withdrawal) => counts(w) && HourOf(w.timestamp) >= HourOf(now),
                    (w: Withdrawal) => w.user == user && w.token == token && HourOf(w.timestamp) >= HourOf(now));
    TotalWhereAgree(log, (w: Withdrawal) => counts(w) && DayOf(w.timestamp) >= DayOf(now),
                    (w: Withdrawal) => w.user == user && w.token == token && DayOf(w.timestamp) >= DayOf(now));
  }

  /** The check accepts exactly the withdrawals that are allowed, at any two clock readings and whatever queries fail.
      */
  lemma CheckExact(cfg: Config, log: seq<Withdrawal>, user: Address, token: Address, amount: int,
                   t1: Time, f1: Faults, t2: Time, f2: Faults)
    ensures Verdict(cfg, log, user, token, amount, t1, f1, t2, f2).None? <==>
      Allowed(cfg, log, user, token, amount, t1, f1, t2, f2)
  {
    if token in cfg.globalLimits {
      TokenFits(log, cfg.globalLimits[token], token, amount, t1, f1);
    }
    if user in cfg.userOverrides && token in cfg.userOverrides[user] {
      UserFits(log, cfg.userOverrides[user][token], user, token, amount, t2, f2);
    }
  }

  ghost predicate NotInFuture(log: seq<Withdrawal>, now: Time) {
    forall i :: 0 <= i < |log| ==> log[i].timestamp <= now
  }

  /** The amount fits next to the withdrawals that count of this clock hour and of this day. */
  ghost predicate FitsNow(limit: Limit, log: seq<Withdrawal>, counts: Withdrawal -> bool, amount: int, now: Time) {
    && (limit.hourly.Some? ==>
          TotalWhere(log, (w: Withdrawal) => counts(w) && HourOf(w.timestamp) == HourOf(now)) + amount
            <= limit.hourly.value)
    && (limit.daily.Some? ==>
          TotalWhere(log, (w: Withdrawal) => counts(w) && DayOf(w.timestamp) == DayOf(now)) + amount
            <= limit.daily.value)
  }

  ghost predicate AllowedNow(cfg: Config, log: seq<Withdrawal>, user: Address, token: Address, amount: int, now: Time) {
    && amount > 0
    && user != ZERO
    && token in cfg.globalLimits
    && FitsNow(cfg.globalLimits[token], log, (w: Withdrawal) => w.token == token, amount, now)
    && (user in cfg.userOverrides && token in cfg.userOverrides[user] ==>
          FitsNow(cfg.userOverrides[user][token], log, (w: Withdrawal) => w.user == user &&
            w.token == token, amount, now))
  }

  lemma NothingLater(log: seq<Withdrawal>, limit: Limit, counts: Withdrawal -> bool, amount: int, now: Time)
    requires NotInFuture(log, now)
    ensures FitsFrom(limit, log, counts, amount, now, NO_FAULTS) <==> FitsNow(limit, log, counts, amount, now)
  {
    assert forall i :: 0 <= i < |log| ==>
      HourOf(log[i].timestamp) <= HourOf(now) && DayOf(log[i].timestamp) <= DayOf(now);
    TotalWhereAgree(log, (w: Withdrawal) => counts(w) && HourOf(w.timestamp) >= HourOf(now),
                    (w: Withdrawal) => counts(w) && HourOf(w.timestamp) == HourOf(now));
    TotalWhereAgree(log, (w: Withdrawal) => counts(w) && DayOf(w.timestamp) >= DayOf(now),
                    (w: Withdrawal) => counts(w) && DayOf(w.timestamp) == DayOf(now));
  }

  /** With a working store, one clock reading and no record ahead of it, the check accepts exactly the proper
      withdrawals
      that fit next to what is recorded of this clock hour and this day. */
  lemma CheckInWindows(cfg: Config, log: seq<Withdrawal>, user: Address, token: Address, amount: int, now: Time)
    requires NotInFuture(log, now)
    ensures Verdict(cfg, log, user, token, amount, now, NO_FAULTS, now, NO_FAULTS).None? <==>
      AllowedNow(cfg, log, user, token, amount, now)
  {
    CheckExact(cfg, log, user, token, amount, now, NO_FAULTS, now, NO_FAULTS);
    if token in cfg.globalLimits {
      NothingLater(log, cfg.globalLimits[token], (w: Withdrawal) => w.token == token, amount, now);
    }
    if user in cfg.userOverrides && token in cfg.userOverrides[user] {
      NothingLater(log, cfg.userOverrides[user][token], (w: Withdrawal) => w.user == user &&
        w.token == token, amount, now);
    }
  }

  /** The objection to one scope of totals: the first window, hourly before daily, whose query fails or whose total
      would exceed its limit. */
  ghost predicate FirstOver(limit: Limit, log: seq<Withdrawal>, counts: Withdrawal -> bool, amount: int, now: Time,
                            f: Faults, error: CheckError, overHour: CheckError, overDay: CheckError) {
    var hour := TotalWhere(log, (w: Withdrawal) => counts(w) && HourOf(w.timestamp) >= HourOf(now)) + amount;
    var day := TotalWhere(log, (w: Withdrawal) => counts(w) && DayOf(w.timestamp) >= DayOf(now)) + amount;
    if limit.hourly.Some? && f.hourly then error == StoreFailed
    else if limit.hourly.Some? && hour > limit.hourly.value then error == overHour
    else if limit.daily.Some? && f.daily then error == StoreFailed
    else limit.daily.Some? && day > limit.daily.value && error == overDay
  }

  lemma TokenOver(log: seq<Withdrawal>, limit: Limit, token: Address, amount: int, now: Time, f: Faults)
    requires ScopeVerdict(log, OfToken(token), limit, amount, now, f).Some?
    ensures FirstOver(limit, log, (w: Withdrawal) => w.token == token, amount, now, f,
                      ScopeVerdict(log, OfToken(token), limit, amount, now, f).value,
                      HourlyLimitExceeded, DailyLimitExceeded)
  {
    var counts := (w: Withdrawal) => w.token == token;
    TokenSince(log, token, now);
    TotalWhereAgree(log, (w: Withdrawal) => counts(w) && HourOf(w.timestamp) >= HourOf(now),
                    (w: Withdrawal) => w.token == token && HourOf(w.timestamp) >= HourOf(now));
    TotalWhereAgree(log, (w: Withdrawal) => counts(w) && DayOf(w.timestamp) >= DayOf(now),
                    (w: Withdrawal) => w.token == token && DayOf(w.timestamp) >= DayOf(now));
  }

  lemma UserOver(log: seq<Withdrawal>, limit: Limit, user: Address, token: Address, amount: int, now: Time, f: Faults)
    requires ScopeVerdict(log, OfUser(user, token), limit, amount, now, f).Some?
    ensures FirstOver(limit, log, (w: Withdrawal) => w.user == user && w.token == token, amount, now, f,
                      ScopeVerdict(log, OfUser(user, token), limit, amount, now, f).value,
                      UserHourlyLimitExceeded, UserDailyLimitExceeded)
  {
    var counts := (w: Withdrawal) => w.user == user && w.token == token;
    UserSince(log, user, token, now);
    TotalWhereAgree(log, (w: Withdrawal) => counts(w) && HourOf(w.timestamp) >= HourOf(now),
                    (w: Withdrawal) => w.user == user && w.token == token && HourOf(w.timestamp) >= HourOf(now));
    TotalWhereAgree(log, (w: Withdrawal) => counts(w) && DayOf(w.timestamp) >= DayOf(now),
                    (w: Withdrawal) => w.user == user && w.token == token && DayOf(w.timestamp) >= DayOf(now));
  }

  /** An objection names the first thing that is wrong: the amount, the user, the token, then the hour and the day of
      the
      token, then those of the user. */
  lemma ObjectionExact(cfg: Config, log: seq<Withdrawal>, user: Address, token: Address, amount: int,
                       t1: Time, f1: Faults, t2: Time, f2: Faults)
    requires Verdict(cfg, log, user, token, amount, t1, f1, t2, f2).Some?
    ensures var error := Verdict(cfg, log, user, token, amount, t1, f1, t2, f2).value;
      if amount <= 0 then error == InvalidAmount
      else if user == ZERO then error == CheckError.InvalidUser
      else if token !in cfg.globalLimits then error == NoLimitsConfigured
      else if !FitsFrom(cfg.globalLimits[token], log, (w: Withdrawal) => w.token == token, amount, t1, f1) then
        FirstOver(cfg.globalLimits[token], log, (w: Withdrawal) => w.token == token, amount, t1, f1, error,
                  HourlyLimitExceeded, DailyLimitExceeded)
      else
        && user in cfg.userOverrides && token in cfg.userOverrides[user]
        && FirstOver(cfg.userOverrides[user][token], log, (w: Withdrawal) => w.user == user && w.token == token,
                     amount, t2, f2, error, UserHourlyLimitExceeded, UserDailyLimitExceeded)
  {
    if amount > 0 && user != ZERO && token in cfg.globalLimits {
      TokenFits(log, cfg.globalLimits[token], token, amount, t1, f1);
      if ScopeVerdict(log, OfToken(token), cfg.globalLimits[token], amount, t1, f1).Some? {
        TokenOver(log, cfg.globalLimits[token], token, amount, t1, f1);
      } else {
        UserOver(log, cfg.userOverrides[user][token], user, token, amount, t2, f2);
      }
    }
  }

  /** What passes still passes with any smaller positive amount, whatever the clock readings and faults; and a
      store that answers would have let it pass too, so faults only ever reject. */
  lemma CheckDownwardClosed(cfg: Config, log: seq<Withdrawal>, user: Address, token: Address, amount: int, less: int,
                            t1: Time, f1: Faults, t2: Time, f2: Faults)
    requires 0 < less <= amount && Verdict(cfg, log, user, token, amount, t1, f1, t2, f2).None?
    ensures Verdict(cfg, log, user, token, less, t1, f1, t2, f2).None?
    ensures Verdict(cfg, log, user, token, less, t1, NO_FAULTS, t2, NO_FAULTS).None?
  {
  }

  // ---- the checker as it runs on the store ----

  class PolicyChecker {
    const cfg: Config
    const store: Adapter

    constructor (cfg: Config, store: Adapter)
      ensures this.cfg == cfg && this.store == store
    {
      this.cfg, this.store := cfg, store;
    }

    /** Hourly, then daily, against totals queried from the store. */
    method CheckScope(scope: Scope, limit: Limit, amount: int, now: Time, f: Faults)
      returns (failure: Option<CheckError>)
      requires store.Valid()
      ensures failure == ScopeVerdict(store.log, scope, limit, amount, now, f)
    {
      if limit.hourly.Some? {
        var total := Query(scope, Truncate(now, HOUR), f.hourly);
        if total.Err? { return Some(StoreFailed); }
        if total.value + amount > limit.hourly.value {
          return Some(if scope.OfUser? then UserHourlyLimitExceeded else HourlyLimitExceeded);
        }
      }
      if limit.daily.Some? {
        var total := Query(scope, Truncate(now, DAY), f.daily);
        if total.Err? { return Some(StoreFailed); }
        if total.value + amount > limit.daily.value {
          return Some(if scope.OfUser? then UserDailyLimitExceeded else DailyLimitExceeded);
        }
      }
      return None;
    }

    method Query(scope: Scope, since: Time, dbFails: bool) returns (total: StoreResult<int>)
      requires store.Valid()
      ensures total == if dbFails then Err(DatabaseError) else Done(SumSince(store.log, scope, since))
    {
      match scope
      case OfToken(token) => total := store.GetTotalWithdrawn(token, since, dbFails);
      case OfUser(user, token) => total := store.GetTotalWithdrawnByUser(user, token, since, dbFails);
    }

    method CheckGlobalLimits(token: Address, amount: int, now: Time, f: Faults) returns (failure: Option<CheckError>)
      requires store.Valid()
      ensures failure == GlobalVerdict(cfg, store.log, token, amount, now, f)
    {
      if token !in cfg.globalLimits { return Some(NoLimitsConfigured); }
      failure := CheckScope(OfToken(token), cfg.globalLimits[token], amount, now, f);
    }

    method CheckUserLimits(user: Address, token: Address, amount: int, now: Time, f: Faults)
      returns (failure: Option<CheckError>)
      requires store.Valid()
      ensures failure == UserVerdict(cfg, store.log, user, token, amount, now, f)
    {
      var limit := ResolveUserLimit(cfg, user, token);
      if limit.None? { return None; }
      failure := CheckScope(OfUser(user, token), limit.value, amount, now, f);
    }

    method Check(user: Address, token: Address, amount: int, globalNow: Time, globalFaults: Faults, userNow: Time,
                 userFaults: Faults)
      returns (failure: Option<CheckError>)
      requires store.Valid()
      ensures failure == Verdict(cfg, store.log, user, token, amount, globalNow, globalFaults, userNow, userFaults)
    {
      if amount <= 0 { return Some(InvalidAmount); }
      if user == ZERO { return Some(CheckError.InvalidUser); }
      failure := CheckGlobalLimits(token, amount, globalNow, globalFaults);
      if failure.Some? { return; }
      failure := CheckUserLimits(user, token, amount, userNow, userFaults);
    }

    method Record(w: Withdrawal, dbFails: bool) returns (failure: Option<StoreError>)
      requires store.Valid()
      modifies store
      ensures store.Valid() && store.Contents() == Saved(old(store.Contents()), w, dbFails)
      ensures failure.None? <==> !dbFails && forall i :: 0 <= i < |old(store.log)| ==> old(store.log)[i].id != w.id
      ensures store.log == if failure.None? then old(store.log) + [w] else old(store.log)
      ensures store.RowsOf(store.log)
    {
      failure := store.Save(w, dbFails);
    }
  }
}
