/** Sums over half-open time windows of the limit log, and what a bound on aligned windows says about
    windows that are not aligned. */
module Windows {
  import opened Evm
  import opened Store

  const HOUR: nat := 3_600_000_000_000
  const DAY: nat := 24 * HOUR

  /** The start of the aligned window of length d that holds t. */
  function Truncate(t: Time, d: nat): (start: Time)
    requires d > 0
    ensures start <= t < start + d
  {
    t - t % d
  }

  function WindowTotal(log: seq<Withdrawal>, scope: Scope, lo: Time, hi: Time): int {
    if log == [] then 0
    else
      var last := log[|log| - 1];
      WindowTotal(log[..|log| - 1], scope, lo, hi)
        + if InScope(scope, last.user, last.token) && lo <= last.timestamp < hi then last.amount else 0
  }

  ghost predicate Positive(log: seq<Withdrawal>) {
    forall i :: 0 <= i < |log| ==> log[i].amount > 0
  }

  lemma {:induction false} WindowSplit(log: seq<Withdrawal>, scope: Scope, lo: Time, mid: Time, hi: Time)
    requires lo <= mid <= hi
    ensures WindowTotal(log, scope, lo, hi) == WindowTotal(log, scope, lo, mid) + WindowTotal(log, scope, mid, hi)
  {
    if log != [] {
      WindowSplit(log[..|log| - 1], scope, lo, mid, hi);
    }
  }

  lemma {:induction false} WindowMonotone(log: seq<Withdrawal>, scope: Scope, lo: Time, hi: Time, lo': Time, hi': Time)
    requires Positive(log) && lo' <= lo && hi <= hi'
    ensures 0 <= WindowTotal(log, scope, lo, hi) <= WindowTotal(log, scope, lo', hi')
  {
    if log != [] {
      WindowMonotone(log[..|log| - 1], scope, lo, hi, lo', hi');
    }
  }

  lemma {:induction false} NothingInWindow(log: seq<Withdrawal>, scope: Scope, lo: Time, hi: Time)
    requires forall i :: 0 <= i < |log| ==> !InScope(scope, log[i].user, log[i].token) || !(lo <= log[i].timestamp < hi)
    ensures WindowTotal(log, scope, lo, hi) == 0
  {
    if log != [] {
      NothingInWindow(log[..|log| - 1], scope, lo, hi);
    }
  }

  /** The total of the k-th aligned window of length d. */
  function AlignedTotal(log: seq<Withdrawal>, scope: Scope, d: nat, k: nat): int {
    WindowTotal(log, scope, k * d, (k + 1) * d)
  }

  /** Every aligned window of length d holds at most `bound`. */
  ghost predicate AlignedBound(log: seq<Withdrawal>, scope: Scope, d: nat, bound: int) {
    forall k: nat :: AlignedTotal(log, scope, d, k) <= bound
  }

  lemma {:induction false} ConsecutiveWindows(log: seq<Withdrawal>, scope: Scope, d: nat, bound: nat, k: nat, n: nat)
    requires AlignedBound(log, scope, d, bound) && Positive(log)
    requires k * d <= (k + n) * d
    ensures WindowTotal(log, scope, k * d, (k + n) * d) <= n * bound
  {
    if n == 0 {
      NothingInWindow(log, scope, k * d, k * d);
    } else {
      var mid := (k + (n - 1)) * d;
      assert (k + n) * d == mid + d && mid == k * d + (n - 1) * d;
      Product(n - 1, d);
      ConsecutiveWindows(log, scope, d, bound, k, n - 1);
      WindowSplit(log, scope, k * d, mid, (k + n) * d);
      assert AlignedTotal(log, scope, d, k + (n - 1)) <= bound;
      assert n * bound == (n - 1) * bound + bound;
    }
  }

  lemma Product(a: nat, b: nat)
    ensures a * b >= 0
  {
  }

  /** The sliding-window bound: a half-open interval of length L meets at most ceil(L/d) + 1 aligned windows
      of length d, so it holds at most that many times the bound. */
  lemma SlidingBound(log: seq<Withdrawal>, scope: Scope, d: nat, bound: nat, from: Time, length: nat)
    requires d > 0 && Positive(log) && AlignedBound(log, scope, d, bound)
    ensures WindowTotal(log, scope, from, from + length) <= ((length + d - 1) / d + 1) * bound
  {
    var k, n := from / d, (length + d - 1) / d + 1;
    Quotient(from, d);
    Ceiling(length, d);
    Distribute(k, n, d);
    CoveredBound(log, scope, d, bound, from, length, k, n);
  }

  lemma CoveredBound(log: seq<Withdrawal>, scope: Scope, d: nat, bound: nat, from: Time, length: nat, k: nat, n: nat)
    requires Positive(log) && AlignedBound(log, scope, d, bound)
    requires k * d <= from && from + length <= (k + n) * d
    ensures WindowTotal(log, scope, from, from + length) <= n * bound
  {
    ConsecutiveWindows(log, scope, d, bound, k, n);
    WindowMonotone(log, scope, from, from + length, k * d, (k + n) * d);
  }

  lemma Quotient(a: nat, d: nat)
    requires d > 0
    ensures (a / d) * d <= a < (a / d) * d + d
  {
  }

  lemma Distribute(a: nat, b: nat, d: nat)
    ensures (a + b) * d == a * d + b * d
  {
  }

  lemma Ceiling(length: nat, d: nat)
    requires d > 0
    ensures ((length + d - 1) / d + 1) * d >= length + d
  {
    var q := (length + d - 1) / d;
    assert length + d - 1 == q * d + (length + d - 1) % d;
    assert (q + 1) * d == q * d + d;
  }

  /** In particular any 60 minutes hold at most twice what an aligned hour may hold. */
  lemma AnyHour(log: seq<Withdrawal>, scope: Scope, bound: nat, from: Time)
    requires Positive(log) && AlignedBound(log, scope, HOUR, bound)
    ensures WindowTotal(log, scope, from, from + HOUR) <= 2 * bound
  {
    SlidingBound(log, scope, HOUR, bound, from, HOUR);
    assert (HOUR + HOUR - 1) / HOUR + 1 == 2;
  }

  // ---- the same windows by the clock ----

  /** The clock hour and the day of a time, counted from the zero time. */
  function HourOf(t: Time): nat {
    t / (60 * 60 * 1_000_000_000)
  }

  function DayOf(t: Time): nat {
    t / (24 * 60 * 60 * 1_000_000_000)
  }

  /** A time lies in the k-th aligned window exactly if it is of the k-th clock hour, or day. */
  lemma InCell(t: Time, k: nat)
    ensures k * HOUR <= t < (k + 1) * HOUR <==> HourOf(t) == k
    ensures k * DAY <= t < (k + 1) * DAY <==> DayOf(t) == k
  {
  }

  /** Truncation: a time is not before the start of the aligned window around now exactly if its clock hour, or day, is
      not before that of now. */
  lemma SinceCell(t: Time, now: Time)
    ensures t >= Truncate(now, HOUR) <==> HourOf(t) >= HourOf(now)
    ensures t >= Truncate(now, DAY) <==> DayOf(t) >= DayOf(now)
  {
  }

  lemma {:induction false} TokenWindow(log: seq<Withdrawal>, token: Address, lo: Time, hi: Time)
    ensures WindowTotal(log, OfToken(token), lo, hi)
         == TotalWhere(log, (w: Withdrawal) => w.token == token && lo <= w.timestamp < hi)
  {
    if log != [] {
      TokenWindow(log[..|log| - 1], token, lo, hi);
    }
  }

  lemma {:induction false} UserWindow(log: seq<Withdrawal>, user: Address, token: Address, lo: Time, hi: Time)
    ensures WindowTotal(log, OfUser(user, token), lo, hi)
         == TotalWhere(log, (w: Withdrawal) => w.user == user && w.token == token && lo <= w.timestamp < hi)
  {
    if log != [] {
      UserWindow(log[..|log| - 1], user, token, lo, hi);
    }
  }

  /** Summing from the start of the aligned window around now on is summing from the present clock hour, or day, on. */
  lemma TokenSince(log: seq<Withdrawal>, token: Address, now: Time)
    ensures SumSince(log, OfToken(token), Truncate(now, HOUR))
         == TotalWhere(log, (w: Withdrawal) => w.token == token && HourOf(w.timestamp) >= HourOf(now))
    ensures SumSince(log, OfToken(token), Truncate(now, DAY))
         == TotalWhere(log, (w: Withdrawal) => w.token == token && DayOf(w.timestamp) >= DayOf(now))
  {
    TokenTotal(log, token, Truncate(now, HOUR));
    TokenTotal(log, token, Truncate(now, DAY));
    SinceCells(log, now);
    TotalWhereAgree(log, (w: Withdrawal) => w.token == token && w.timestamp >= Truncate(now, HOUR),
                    (w: Withdrawal) => w.token == token && HourOf(w.timestamp) >= HourOf(now));
    TotalWhereAgree(log, (w: Withdrawal) => w.token == token && w.timestamp >= Truncate(now, DAY),
                    (w: Withdrawal) => w.token == token && DayOf(w.timestamp) >= DayOf(now));
  }

  lemma SinceCells(log: seq<Withdrawal>, now: Time)
    ensures forall i :: 0 <= i < |log| ==>
      && (log[i].timestamp >= Truncate(now, HOUR) <==> HourOf(log[i].timestamp) >= HourOf(now))
      && (log[i].timestamp >= Truncate(now, DAY) <==> DayOf(log[i].timestamp) >= DayOf(now))
  {
    forall i | 0 <= i < |log|
      ensures log[i].timestamp >= Truncate(now, HOUR) <==> HourOf(log[i].timestamp) >= HourOf(now)
      ensures log[i].timestamp >= Truncate(now, DAY) <==> DayOf(log[i].timestamp) >= DayOf(now)
    {
      SinceCell(log[i].timestamp, now);
    }
  }

  lemma UserSince(log: seq<Withdrawal>, user: Address, token: Address, now: Time)
    ensures SumSince(log, OfUser(user, token), Truncate(now, HOUR))
         == TotalWhere(log, (w: Withdrawal) => w.user == user && w.token == token && HourOf(w.timestamp) >= HourOf(now))
    ensures SumSince(log, OfUser(user, token), Truncate(now, DAY))
         == TotalWhere(log, (w: Withdrawal) => w.user == user && w.token == token && DayOf(w.timestamp) >= DayOf(now))
  {
    UserTotal(log, user, token, Truncate(now, HOUR));
    UserTotal(log, user, token, Truncate(now, DAY));
    SinceCells(log, now);
    TotalWhereAgree(log, (w: Withdrawal) => w.user == user && w.token == token && w.timestamp >= Truncate(now, HOUR),
                    (w: Withdrawal) => w.user == user && w.token == token && HourOf(w.timestamp) >= HourOf(now));
    TotalWhereAgree(log, (w: Withdrawal) => w.user == user && w.token == token && w.timestamp >= Truncate(now, DAY),
                    (w: Withdrawal) => w.user == user && w.token == token && DayOf(w.timestamp) >= DayOf(now));
  }

  lemma InCells(log: seq<Withdrawal>, k: nat)
    ensures forall i :: 0 <= i < |log| ==>
      && (k * HOUR <= log[i].timestamp < (k + 1) * HOUR <==> HourOf(log[i].timestamp) == k)
      && (k * DAY <= log[i].timestamp < (k + 1) * DAY <==> DayOf(log[i].timestamp) == k)
  {
    forall i | 0 <= i < |log|
      ensures k * HOUR <= log[i].timestamp < (k + 1) * HOUR <==> HourOf(log[i].timestamp) == k
      ensures k * DAY <= log[i].timestamp < (k + 1) * DAY <==> DayOf(log[i].timestamp) == k
    {
      InCell(log[i].timestamp, k);
    }
  }

  /** The total of an aligned window is that of a clock hour, or day. */
  lemma TokenCell(log: seq<Withdrawal>, token: Address, k: nat)
    ensures AlignedTotal(log, OfToken(token), HOUR, k)
         == TotalWhere(log, (w: Withdrawal) => w.token == token && HourOf(w.timestamp) == k)
    ensures AlignedTotal(log, OfToken(token), DAY, k)
         == TotalWhere(log, (w: Withdrawal) => w.token == token && DayOf(w.timestamp) == k)
  {
    TokenWindow(log, token, k * HOUR, (k + 1) * HOUR);
    TokenWindow(log, token, k * DAY, (k + 1) * DAY);
    InCells(log, k);
    TotalWhereAgree(log, (w: Withdrawal) => w.token == token && k * HOUR <= w.timestamp < (k + 1) * HOUR,
                    (w: Withdrawal) => w.token == token && HourOf(w.timestamp) == k);
    TotalWhereAgree(log, (w: Withdrawal) => w.token == token && k * DAY <= w.timestamp < (k + 1) * DAY,
                    (w: Withdrawal) => w.token == token && DayOf(w.timestamp) == k);
  }

  lemma UserCell(log: seq<Withdrawal>, user: Address, token: Address, k: nat)
    ensures AlignedTotal(log, OfUser(user, token), HOUR, k)
         == TotalWhere(log, (w: Withdrawal) => w.user == user && w.token == token && HourOf(w.timestamp) == k)
    ensures AlignedTotal(log, OfUser(user, token), DAY, k)
         == TotalWhere(log, (w: Withdrawal) => w.user == user && w.token == token && DayOf(w.timestamp) == k)
  {
    UserWindow(log, user, token, k * HOUR, (k + 1) * HOUR);
    UserWindow(log, user, token, k * DAY, (k + 1) * DAY);
    InCells(log, k);
    TotalWhereAgree(log,
                    (w: Withdrawal) => w.user == user && w.token == token && k * HOUR <= w.timestamp < (k + 1) * HOUR,
                    (w: Withdrawal) => w.user == user && w.token == token && HourOf(w.timestamp) == k);
    TotalWhereAgree(log,
                    (w: Withdrawal) => w.user == user && w.token == token && k * DAY <= w.timestamp < (k + 1) * DAY,
                    (w: Withdrawal) => w.user == user && w.token == token && DayOf(w.timestamp) == k);
  }
}
